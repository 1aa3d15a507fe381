/** The result-draining loop shared by every scraping tool (scrape/progress.py): futures are
    read in completion order, each success bumps the progress sink, and the first failure is
    reported once, the executor's queue is drained and cancelled, and `StopException` ends the
    loop. The order in which futures complete is an input sequence of completions. */
module Progress {
  import opened Wrappers
  import opened Errors

  /** Is `order` a completion order of `n` jobs: each job index below `n`, none twice, all present. */
  predicate IsOrder(order: seq<nat>, n: nat)
  {
    |order| == n
    && (forall k :: 0 <= k < n ==> order[k] < n)
    && (forall j, k :: 0 <= j < k < n ==> order[j] != order[k])
  }

  /** How one future ended: `future.result()` returned, or it raised `exc`. */
  datatype Completion = Done | Raised(exc: Exc)

  /** The dialog EXCEPTION_HANDLERS picks for an exception class. */
  datatype Handler = Silent | CookiesDialog | ErrorDialog

  /** EXCEPTION_HANDLERS.get(type(e), EXCEPTION_HANDLERS['default']). */
  function HandlerFor(e: Exc): (h: Handler)
    ensures h == Silent <==> e == StopException
    ensures h == CookiesDialog <==> e == CookiesNotFound
    ensures h == ErrorDialog <==> e != StopException && e != CookiesNotFound
  {
    match e
    case StopException => Silent
    case CookiesNotFound => CookiesDialog
    case _ => ErrorDialog
  }

  /** The position of the first failed completion, or the length when none failed. */
  function FirstFailure(cs: seq<Completion>): (k: nat)
    ensures k <= |cs|
    ensures forall j :: 0 <= j < k ==> cs[j].Done?
    ensures k < |cs| ==> cs[k].Raised?
  {
    if |cs| == 0 then 0
    else if cs[0].Raised? then 0
    else 1 + FirstFailure(cs[1..])
  }

  /** What one run of the drain loop does to the progress sink. */
  datatype Drain = Drain(updates: nat, report: Option<Exc>)

  /** The drain loop as a value: `updates` counts the `update()` calls made on the sink and
      `report` is the one exception passed to the progress class, if any. */
  function Drained(cs: seq<Completion>, isInstance: bool): (d: Drain)
    ensures d.updates <= |cs|
    ensures d.report.None? <==> forall j :: 0 <= j < |cs| ==> cs[j].Done?
    ensures d.report.Some? ==> exists j :: 0 <= j < |cs| && cs[j] == Raised(d.report.value)
    ensures isInstance && d.report.None? ==> d.updates == |cs|
    ensures !isInstance ==> d.updates == 0
  {
    if |cs| == 0 then Drain(0, None)
    else if cs[0].Raised? then Drain(0, Some(cs[0].exc))
    else
      var rest := Drained(cs[1..], isInstance);
      assert forall j :: 1 <= j < |cs| ==> cs[j] == cs[1..][j - 1];
      Drain(rest.updates + (if isInstance then 1 else 0), rest.report)
  }

  /** The report is the first failure, and exactly the successes before it were counted:
      no completion after the first failure is processed. */
  lemma {:induction false} DrainedStopsAtFirstFailure(cs: seq<Completion>, isInstance: bool)
    ensures var k := FirstFailure(cs);
            && Drained(cs, isInstance).updates == (if isInstance then k else 0)
            && (k < |cs| ==> Drained(cs, isInstance).report == Some(cs[k].exc))
  {
    if |cs| > 0 && cs[0].Done? {
      DrainedStopsAtFirstFailure(cs[1..], isInstance);
    }
  }

  /** Appending completions after a failure changes nothing: the loop has already ended. */
  lemma {:induction false} DrainedIgnoresLaterCompletions(cs: seq<Completion>, later: seq<Completion>, isInstance: bool)
    requires FirstFailure(cs) < |cs|
    ensures Drained(cs + later, isInstance) == Drained(cs, isInstance)
  {
    if cs[0].Done? {
      assert (cs + later)[1..] == cs[1..] + later;
      DrainedIgnoresLaterCompletions(cs[1..], later, isInstance);
    }
  }

  /** The drain over the completions up to and including a failure is the drain over all of them. */
  lemma DrainedUpToFailure(cs: seq<Completion>, k: nat, isInstance: bool)
    requires k < |cs| && cs[k].Raised?
    ensures Drained(cs[..k + 1], isInstance) == Drained(cs, isInstance)
  {
    var upTo := cs[..k + 1];
    assert upTo[k].Raised?;
    DrainedIgnoresLaterCompletions(upTo, cs[k + 1..], isInstance);
    assert upTo + cs[k + 1..] == cs;
  }

  /** How many completions the drain loop reads: all of them, or those up to and including the
      first failure. */
  function Processed(cs: seq<Completion>): (n: nat)
    ensures n <= |cs|
  {
    var k := FirstFailure(cs);
    if k < |cs| then k + 1 else |cs|
  }

  /** Draining the completions read is draining them all. */
  lemma DrainedProcessed(cs: seq<Completion>, isInstance: bool)
    ensures Drained(cs[..Processed(cs)], isInstance) == Drained(cs, isInstance)
  {
    var k := FirstFailure(cs);
    if k < |cs| {
      DrainedUpToFailure(cs, k, isInstance);
    } else {
      assert cs[..|cs|] == cs;
    }
  }

  /** With no failure among the first `k` completions, the loop reads all of them when `k` is
      the end, and exactly `k + 1` when completion `k` failed. */
  lemma ProcessedAfterSuccesses(cs: seq<Completion>, k: nat)
    requires k <= |cs| && forall j :: 0 <= j < k ==> cs[j].Done?
    ensures k == |cs| ==> Processed(cs) == |cs|
    ensures k < |cs| && cs[k].Raised? ==> Processed(cs) == k + 1
  {
  }

  /** The futures whose work items are still on a queue (`None` is the pool's wake-up sentinel). */
  function QueuedFutures(queue: seq<Option<nat>>): (ids: set<nat>)
    ensures forall id :: id in ids <==> Some(id) in queue
  {
    if |queue| == 0 then {}
    else
      var last := queue[|queue| - 1];
      assert forall x :: x in queue <==> x in queue[..|queue| - 1] || x == last;
      QueuedFutures(queue[..|queue| - 1]) + (if last.Some? then {last.value} else {})
  }

  /** Taking one more item off the queue adds its future, if it has one. */
  lemma QueuedFuturesStep(queue: seq<Option<nat>>, k: nat)
    requires k < |queue|
    ensures QueuedFutures(queue[..k + 1])
         == QueuedFutures(queue[..k]) + (if queue[k].Some? then {queue[k].value} else {})
  {
    assert queue[..k + 1][..k] == queue[..k];
  }

  /** A thread-pool executor reduced to what `shutdown_executor` touches: its work queue, the
      set of futures it has cancelled, and its shut-down flag. */
  class Executor {
    var workQueue: seq<Option<nat>>
    var cancelled: set<nat>
    var isShutdown: bool

    /** An executor with `queued` futures waiting to start. */
    constructor (queued: seq<nat>)
      ensures workQueue == seq(|queued|, i requires 0 <= i < |queued| => Some(queued[i]))
      ensures cancelled == {} && !isShutdown
    {
      workQueue := seq(|queued|, i requires 0 <= i < |queued| => Some(queued[i]));
      cancelled := {};
      isShutdown := false;
    }

    /** shutdown_executor: shut down, take every item off the queue, cancel the future of
        every real item, and always end by raising StopException. */
    method Shutdown() returns (raised: Exc)
      modifies this
      ensures isShutdown && workQueue == []
      ensures cancelled == old(cancelled) + QueuedFutures(old(workQueue))
      ensures raised == StopException
    {
      isShutdown := true;
      ghost var queue := workQueue;
      ghost var taken := 0;
      while true
        invariant isShutdown
        invariant 0 <= taken <= |queue| && workQueue == queue[taken..]
        invariant cancelled == old(cancelled) + QueuedFutures(queue[..taken])
        decreases |workQueue|
      {
        if workQueue == [] {
          break;  // queue.Empty
        }
        var item := workQueue[0];
        QueuedFuturesStep(queue, taken);
        workQueue := workQueue[1..];
        if item.Some? {
          cancelled := cancelled + {item.value};
        }
        taken := taken + 1;
      }
      assert queue[..taken] == queue;
      raised := StopException;
    }
  }

  /** A progress sink: the `update()` calls it received and the exceptions reported through
      its class. */
  class Sink {
    var updates: nat
    var reports: seq<Exc>

    constructor ()
      ensures updates == 0 && reports == []
    {
      updates := 0;
      reports := [];
    }

    /** Progress.update(): one more unit done. */
    method Update()
      modifies this
      ensures updates == old(updates) + 1 && reports == old(reports)
    {
      updates := updates + 1;
    }

    /** Calling the progress class with `exception=e`. */
    method Report(e: Exc)
      modifies this
      ensures reports == old(reports) + [e] && updates == old(updates)
    {
      reports := reports + [e];
    }
  }

  /** get_exec_results: `cs` are the futures in completion order; `isInstance` says whether the
      progress argument is a Progress instance (true) or a class (false). Returns the exception
      the loop ends with, if any. */
  method GetExecResults(cs: seq<Completion>, executor: Executor, sink: Sink, isInstance: bool)
    returns (raised: Option<Exc>)
    modifies executor, sink
    ensures sink.updates == old(sink.updates) + Drained(cs, isInstance).updates
    ensures Drained(cs, isInstance).report.None? ==>
      && raised.None? && sink.reports == old(sink.reports)
      && executor.workQueue == old(executor.workQueue)
      && executor.cancelled == old(executor.cancelled)
      && executor.isShutdown == old(executor.isShutdown)
    ensures Drained(cs, isInstance).report.Some? ==>
      && raised == Some(StopException)
      && sink.reports == old(sink.reports) + [Drained(cs, isInstance).report.value]
      && executor.isShutdown && executor.workQueue == []
      && executor.cancelled == old(executor.cancelled) + QueuedFutures(old(executor.workQueue))
  {
    DrainedStopsAtFirstFailure(cs, isInstance);
    var i := 0;
    while i < |cs|
      invariant 0 <= i <= FirstFailure(cs)
      invariant sink.updates == old(sink.updates) + (if isInstance then i else 0)
      invariant sink.reports == old(sink.reports)
      invariant executor.workQueue == old(executor.workQueue)
      invariant executor.cancelled == old(executor.cancelled)
      invariant executor.isShutdown == old(executor.isShutdown)
    {
      if cs[i].Raised? {
        sink.Report(cs[i].exc);
        var stop := executor.Shutdown();
        return Some(stop);
      }
      if isInstance {
        sink.Update();
      }
      i := i + 1;
    }
    return None;
  }
}
