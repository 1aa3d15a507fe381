/** Granting packages to users (moonlite/scrape/grant_package.py): every (steamid, packageid)
    pair becomes one job, each job retries its POST until it succeeds or sees the stop flag, and
    the jobs are drained with a progress instance. The console reads a comma-separated list of
    package ids and keeps the numeric ones. The stop flag's readings, whether each POST returned,
    and the completion order of the jobs are inputs. */
module GrantPackage {
  import opened Wrappers
  import opened Errors
  import opened Text
  import opened Progress

  /** One job: grant `packageid` to `steamid`. */
  datatype Relation = Relation(steamid: string, packageid: nat)

  /** The jobs for one steamid, in package order. */
  function RelationsFor(steamid: string, packageids: seq<nat>): (r: seq<Relation>)
    ensures |r| == |packageids|
    ensures forall j :: 0 <= j < |r| ==> r[j] == Relation(steamid, packageids[j])
  {
    seq(|packageids|, j requires 0 <= j < |packageids| => Relation(steamid, packageids[j]))
  }

  /** `list(product(steamids, packageids))`. */
  function Relations(steamids: seq<string>, packageids: seq<nat>): (r: seq<Relation>)
    ensures |r| == |steamids| * |packageids|
  {
    if |steamids| == 0 then []
    else RelationsFor(steamids[0], packageids) + Relations(steamids[1..], packageids)
  }

  /** The product is steamid-major: the pair of the `i`-th steamid and the `j`-th package id
      sits at position `i * |packageids| + j`. */
  lemma {:induction false} RelationsPosition(steamids: seq<string>, packageids: seq<nat>, i: nat, j: nat)
    requires i < |steamids| && j < |packageids|
    ensures i * |packageids| + j < |Relations(steamids, packageids)|
    ensures Relations(steamids, packageids)[i * |packageids| + j] == Relation(steamids[i], packageids[j])
  {
    var n := |packageids|;
    RowStart(i, j, n, |steamids|);
    if i > 0 {
      RelationsPosition(steamids[1..], packageids, i - 1, j);
      RowStart(i - 1, j, n, |steamids| - 1);
    }
  }

  /** Row `i` of `m` rows of `n` starts at `i * n`, one row after row `i - 1`. */
  lemma RowStart(i: nat, j: nat, n: nat, m: nat)
    requires i < m && j < n
    ensures i * n + j < m * n
    ensures (i + 1) * n == i * n + n
  {
    var r: nat := m - (i + 1);
    assert (i + 1) * n == i * n + n;
    assert m * n == (i + 1) * n + r * n;
    assert r * n >= 0;
  }

  /** A pair is a job exactly when its steamid and its package id were both given. */
  lemma {:induction false} RelationsMembers(steamids: seq<string>, packageids: seq<nat>, x: Relation)
    ensures x in Relations(steamids, packageids) <==> x.steamid in steamids && x.packageid in packageids
  {
    if |steamids| > 0 {
      RelationsMembers(steamids[1..], packageids, x);
      assert forall s :: s in steamids <==> s == steamids[0] || s in steamids[1..];
      if x.steamid == steamids[0] && x.packageid in packageids {
        var j :| 0 <= j < |packageids| && packageids[j] == x.packageid;
        assert RelationsFor(steamids[0], packageids)[j] == x;
      }
    }
  }

  predicate NoDuplicates<T(==)>(s: seq<T>)
  {
    forall a, b :: 0 <= a < b < |s| ==> s[a] != s[b]
  }

  /** With no repeated steamid and no repeated package id, every pair is granted exactly once. */
  lemma {:induction false} RelationsOnce(steamids: seq<string>, packageids: seq<nat>)
    requires NoDuplicates(steamids) && NoDuplicates(packageids)
    ensures NoDuplicates(Relations(steamids, packageids))
  {
    if |steamids| > 0 {
      var row := RelationsFor(steamids[0], packageids);
      var rest := Relations(steamids[1..], packageids);
      RelationsOnce(steamids[1..], packageids);
      forall a, b | 0 <= a < |row| && 0 <= b < |rest|
        ensures row[a] != rest[b]
      {
        RelationsMembers(steamids[1..], packageids, rest[b]);
        assert rest[b] in rest;
      }
      var r := row + rest;
      forall a, b | 0 <= a < b < |r|
        ensures r[a] != r[b]
      {
        if b < |row| {
        } else if a >= |row| {
          assert r[a] == rest[a - |row|] && r[b] == rest[b - |row|];
        } else {
          assert r[b] == rest[b - |row|];
        }
      }
    }
  }

  /** An empty list of steamids or of package ids gives no job. */
  lemma NoRelationsWhenEmpty(steamids: seq<string>, packageids: seq<nat>)
    requires |steamids| == 0 || |packageids| == 0
    ensures Relations(steamids, packageids) == []
  {
    assert |steamids| * |packageids| == 0;
  }

  /** The numeric parts of a split input, as ids, in order. */
  function NumericParts(parts: seq<string>): seq<nat>
  {
    if |parts| == 0 then []
    else
      var last := parts[|parts| - 1];
      NumericParts(parts[..|parts| - 1]) + (if AllDigits(last) then [DecimalValue(last)] else [])
  }

  /** `[int(p) for p in text.split(',') if p.isnumeric()]`. */
  function PackageIdsFromInput(text: string): seq<nat>
  {
    NumericParts(Split(text, ','))
  }

  /** Filtering distributes over concatenation: each part is judged on its own. */
  lemma {:induction false} NumericPartsAppend(a: seq<string>, b: seq<string>)
    ensures NumericParts(a + b) == NumericParts(a) + NumericParts(b)
    decreases |b|
  {
    if |b| == 0 {
      assert a + b == a;
    } else {
      var b' := b[..|b| - 1];
      NumericPartsAppend(a, b');
      assert (a + b)[..|a + b| - 1] == a + b';
    }
  }

  /** A part that is not entirely numeric contributes nothing. */
  lemma NumericPartsSkip(a: seq<string>, junk: string, b: seq<string>)
    requires !AllDigits(junk)
    ensures NumericParts(a + [junk] + b) == NumericParts(a) + NumericParts(b)
  {
    NumericPartsAppend(a + [junk], b);
    assert (a + [junk])[..|a|] == a;
  }

  /** The decimal texts of some ids. */
  function IdTexts(ids: seq<nat>): (texts: seq<string>)
    ensures |texts| == |ids|
    ensures forall k :: 0 <= k < |ids| ==> texts[k] == NatToString(ids[k])
  {
    seq(|ids|, k requires 0 <= k < |ids| => NatToString(ids[k]))
  }

  /** Typing ids separated by commas reads back exactly those ids. */
  lemma PackageIdsRoundTrip(ids: seq<nat>)
    ensures PackageIdsFromInput(Join(IdTexts(ids), ',')) == ids
  {
    if ids == [] {
      // An empty input splits into one empty part, which is not numeric.
      assert Split("", ',') == [""];
      return;
    }
    var texts := IdTexts(ids);
    forall k | 0 <= k < |texts|
      ensures ',' !in texts[k]
    {
      DigitsLackSeparator(texts[k], ',');
    }
    SplitJoin(texts, ',');
    NumericPartsOfIdTexts(ids);
  }

  lemma {:induction false} NumericPartsOfIdTexts(ids: seq<nat>)
    ensures NumericParts(IdTexts(ids)) == ids
  {
    if |ids| > 0 {
      var init, last := ids[..|ids| - 1], ids[|ids| - 1];
      var texts := IdTexts(ids);
      NumericPartsOfIdTexts(init);
      assert texts[..|ids| - 1] == IdTexts(init);
      assert texts[|ids| - 1] == NatToString(last);
      DecimalValueOfNatToString(last);
      assert init + [last] == ids;
    }
  }

  /** One pass of grant's `while True`: the stop flag's reading and whether the POST returned
      without raising. */
  datatype GrantAttempt = GrantAttempt(stopSet: bool, posted: bool)

  /** How a grant job ends: StopException at the first set flag, Done at the first successful
      POST; None while it is still retrying. Every failing POST is retried. */
  function GrantResult(attempts: seq<GrantAttempt>): Option<Completion>
  {
    if |attempts| == 0 then None
    else if attempts[0].stopSet then Some(Raised(StopException))
    else if attempts[0].posted then Some(Done)
    else GrantResult(attempts[1..])
  }

  /** The number of successful POSTs among some attempts (a POST is made only when the flag was
      clear). */
  function SuccessfulPosts(attempts: seq<GrantAttempt>): nat
  {
    if |attempts| == 0 then 0
    else
      var last := attempts[|attempts| - 1];
      SuccessfulPosts(attempts[..|attempts| - 1]) + (if !last.stopSet && last.posted then 1 else 0)
  }

  /** A grant job only ever succeeds or stops: no request error escapes it. It succeeds exactly
      when some POST succeeds before the flag is ever seen set. */
  lemma {:induction false} GrantResultCases(attempts: seq<GrantAttempt>)
    ensures GrantResult(attempts) != Some(Raised(StopException)) ==> GrantResult(attempts) in {None, Some(Done)}
    ensures GrantResult(attempts) == Some(Done) <==>
      exists k :: 0 <= k < |attempts| && !attempts[k].stopSet && attempts[k].posted
        && forall i :: 0 <= i < k ==> !attempts[i].stopSet && !attempts[i].posted
  {
    if |attempts| > 0 && !attempts[0].stopSet && !attempts[0].posted {
      var rest := attempts[1..];
      GrantResultCases(rest);
      if GrantResult(rest) == Some(Done) {
        var k :| 0 <= k < |rest| && !rest[k].stopSet && rest[k].posted
          && forall i :: 0 <= i < k ==> !rest[i].stopSet && !rest[i].posted;
        assert !attempts[k + 1].stopSet && attempts[k + 1].posted;
        assert forall i :: 0 <= i < k + 1 ==> !attempts[i].stopSet && !attempts[i].posted by {
          assert forall i :: 1 <= i < k + 1 ==> attempts[i] == rest[i - 1];
        }
      }
      if exists k ::
        && 0 <= k < |attempts| && !attempts[k].stopSet && attempts[k].posted
        && forall i :: 0 <= i < k ==> !attempts[i].stopSet && !attempts[i].posted
      {
        var k :| 0 <= k < |attempts| && !attempts[k].stopSet && attempts[k].posted
          && forall i :: 0 <= i < k ==> !attempts[i].stopSet && !attempts[i].posted;
        assert k > 0;
        assert !rest[k - 1].stopSet && rest[k - 1].posted;
        assert forall i :: 0 <= i < k - 1 ==> rest[i] == attempts[i + 1];
      }
    }
  }

  /** grant's retry loop over the attempts it gets to make; `used` is how many it made. At most
      one POST succeeds, and one does exactly when the job ends Done. */
  method Grant(attempts: seq<GrantAttempt>) returns (r: Option<Completion>, used: nat)
    ensures r == GrantResult(attempts)
    ensures used <= |attempts|
    ensures SuccessfulPosts(attempts[..used]) == (if r == Some(Done) then 1 else 0)
    ensures forall i :: 0 <= i < used ==> !attempts[i].stopSet || i == used - 1
  {
    used := 0;
    while used < |attempts|
      invariant used <= |attempts|
      invariant GrantResult(attempts) == GrantResult(attempts[used..])
      invariant SuccessfulPosts(attempts[..used]) == 0
      invariant forall i :: 0 <= i < used ==> !attempts[i].stopSet
    {
      var a := attempts[used];
      assert attempts[used..][1..] == attempts[used + 1..];
      assert attempts[..used + 1][..used] == attempts[..used];
      used := used + 1;
      if a.stopSet {
        return Some(Raised(StopException)), used;
      }
      if a.posted {
        return Some(Done), used;
      }
    }
    return None, used;
  }

  /** What a grant_package run did: its jobs, the progress total, the updates and reports the
      progress instance received, the exception the run ends with, and whether `p.close()` was
      reached. */
  datatype GrantRun = GrantRun(jobs: seq<Relation>, total: nat, updates: nat, reports: seq<Exc>,
                               raised: Option<Exc>, closed: bool)

  /** grant_package: `attempts[k]` are the attempts of the `k`-th relation, each ending the job
      (a grant retried forever never completes), and `order` the order the jobs completed in. */
  method GrantPackages(steamids: seq<string>, packageids: seq<nat>, attempts: seq<seq<GrantAttempt>>, order: seq<nat>)
    returns (run: GrantRun)
    requires |attempts| == |steamids| * |packageids|
    requires forall k :: 0 <= k < |attempts| ==> GrantResult(attempts[k]).Some?
    requires IsOrder(order, |attempts|)
    ensures run.jobs == Relations(steamids, packageids) && run.total == |run.jobs|
    ensures var drain := Drained(seq(|order|, k requires 0 <= k < |order| => GrantResult(attempts[order[k]]).value), true);
      && run.updates == drain.updates
      && run.reports == (if drain.report.Some? then [drain.report.value] else [])
      && run.raised == (if drain.report.Some? then Some(StopException) else None)
      && run.closed == drain.report.None?
  {
    var relations := Relations(steamids, packageids);
    var completions: seq<Completion> := [];
    for k := 0 to |order|
      invariant completions == seq(k, j requires 0 <= j < k => GrantResult(attempts[order[j]]).value)
    {
      var r, used := Grant(attempts[order[k]]);
      completions := completions + [r.value];
    }
    var sink := new Sink();
    var executor := new Executor([]);
    var raised := GetExecResults(completions, executor, sink, true);
    run := GrantRun(relations, |relations|, sink.updates, sink.reports, raised, raised.None?);
  }
}
