/** The traffic-insights exporter (moonlite/scrape/insights.py): one job per app finds the page's
    data script, clamps the requested date range to the app's earliest date, and submits one
    download job per day, newest first; each day job retries transient network errors until its
    CSV is saved, checking the stop flag before every attempt. The number of data scripts on the
    page, the app's earliest date, each attempt's stop reading and result, and the completion
    order of the jobs are inputs. */
module Insights {
  import opened Wrappers
  import opened Errors
  import opened Text
  import opened TimeUtil
  import opened Progress

  /** The `tries` loop over the same parsed page: success when exactly one script matches,
      otherwise the page is examined three times and the job raises. */
  method FindDataScript(found: nat) returns (r: Result<(), Exc>, examined: nat)
    ensures found == 1 ==> r == Success(()) && examined == 1
    ensures found != 1 ==> r == Failure(ScriptNotFound(found)) && examined == 3
  {
    var tries := 3;
    examined := 0;
    while tries > 0
      invariant 0 <= tries <= 3 && examined == 3 - tries
      invariant found != 1 || examined == 0
    {
      examined := examined + 1;
      if found == 1 {
        break;
      }
      tries := tries - 1;
    }
    if tries == 0 {
      return Failure(ScriptNotFound(found)), examined;
    }
    return Success(()), examined;
  }

  /** `min_date`: the later of the app's earliest date and the requested start. */
  function MinDate(earliest: Date, fromDate: Date): (d: Date)
    requires Valid(earliest) && Valid(fromDate)
    ensures Valid(d)
    ensures Ordinal(d) >= Ordinal(earliest) && Ordinal(d) >= Ordinal(fromDate)
    ensures Ordinal(d) == Ordinal(earliest) || Ordinal(d) == Ordinal(fromDate)
  {
    BeforeIffOrdinalLess(earliest, fromDate);
    BeforeIffOrdinalLess(fromDate, earliest);
    Later(earliest, fromDate)
  }

  /** `(max_date - min_date).days + 1`, which is zero or negative for an empty range. */
  function DayCount(minDate: Date, maxDate: Date): int
    requires Valid(minDate) && Valid(maxDate)
  {
    Ordinal(maxDate) - Ordinal(minDate) + 1
  }

  /** `[max_date - timedelta(days=x) for x in range(days)]`. */
  function DayJobs(minDate: Date, maxDate: Date): (jobs: seq<Date>)
    requires Valid(minDate) && Valid(maxDate)
    ensures |jobs| == if DayCount(minDate, maxDate) > 0 then DayCount(minDate, maxDate) else 0
  {
    var days := DayCount(minDate, maxDate);
    if days <= 0 then []
    else seq(days, x requires 0 <= x < days => Minus(maxDate, x))
  }

  /** The submitted dates are the range from max_date down to min_date, newest first, one per
      day: the `x`-th is `x` days before max_date, the last is min_date's day, and every day of
      the range is among them. An inverted range submits nothing. */
  lemma DayJobsAreTheRange(minDate: Date, maxDate: Date)
    requires Valid(minDate) && Valid(maxDate)
    ensures var jobs := DayJobs(minDate, maxDate);
      && (forall x :: 0 <= x < |jobs| ==> Valid(jobs[x]) && Ordinal(jobs[x]) == Ordinal(maxDate) - x)
      && (|jobs| > 0 ==> jobs[0] == maxDate && Ordinal(jobs[|jobs| - 1]) == Ordinal(minDate))
      && (forall e :: Valid(e) && Ordinal(minDate) <= Ordinal(e) <= Ordinal(maxDate) ==>
            exists x :: 0 <= x < |jobs| && Ordinal(jobs[x]) == Ordinal(e))
      && (Before(maxDate, minDate) ==> jobs == [])
  {
    var jobs := DayJobs(minDate, maxDate);
    DayJobsOrdinals(minDate, maxDate);
    DayJobsCover(minDate, maxDate);
    if |jobs| > 0 {
      assert jobs[0] == Minus(maxDate, 0);
    }
    BeforeIffOrdinalLess(maxDate, minDate);
  }

  lemma DayJobsOrdinals(minDate: Date, maxDate: Date)
    requires Valid(minDate) && Valid(maxDate)
    ensures var jobs := DayJobs(minDate, maxDate);
      forall x :: 0 <= x < |jobs| ==> Valid(jobs[x]) && Ordinal(jobs[x]) == Ordinal(maxDate) - x
  {
    var jobs := DayJobs(minDate, maxDate);
    forall x | 0 <= x < |jobs|
      ensures Valid(jobs[x]) && Ordinal(jobs[x]) == Ordinal(maxDate) - x
    {
      assert jobs[x] == Minus(maxDate, x);
      MinusOrdinal(maxDate, x);
    }
  }

  lemma DayJobsCover(minDate: Date, maxDate: Date)
    requires Valid(minDate) && Valid(maxDate)
    ensures var jobs := DayJobs(minDate, maxDate);
      forall e :: Valid(e) && Ordinal(minDate) <= Ordinal(e) <= Ordinal(maxDate) ==>
        exists x :: 0 <= x < |jobs| && Ordinal(jobs[x]) == Ordinal(e)
  {
    var jobs := DayJobs(minDate, maxDate);
    forall e | Valid(e) && Ordinal(minDate) <= Ordinal(e) <= Ordinal(maxDate)
      ensures exists x :: 0 <= x < |jobs| && Ordinal(jobs[x]) == Ordinal(e)
    {
      var x := Ordinal(maxDate) - Ordinal(e);
      assert jobs[x] == Minus(maxDate, x);
      MinusOrdinal(maxDate, x);
    }
  }

  /** The submitted days are pairwise different. */
  lemma DayJobsDistinct(minDate: Date, maxDate: Date)
    requires Valid(minDate) && Valid(maxDate)
    ensures var jobs := DayJobs(minDate, maxDate);
      forall x, y :: 0 <= x < y < |jobs| ==> jobs[x] != jobs[y]
  {
    DayJobsAreTheRange(minDate, maxDate);
  }

  /** As written, the progress total is the day count itself, which is negative when the app's
      earliest date is more than one day after to_date, while no job is submitted. */
  lemma DayCountNegative()
    ensures var minDate, maxDate := Date(2020, 1, 3), Date(2020, 1, 1);
      DayCount(minDate, maxDate) == -1 && DayJobs(minDate, maxDate) == []
  {
  }

  /** The progress total given to the app's progress object, never below zero. */
  function ProgressTotal(minDate: Date, maxDate: Date): (total: nat)
    requires Valid(minDate) && Valid(maxDate)
    ensures total == |DayJobs(minDate, maxDate)|
    ensures DayCount(minDate, maxDate) >= 0 ==> total == DayCount(minDate, maxDate)
  {
    var days := DayCount(minDate, maxDate);
    if days < 0 then 0 else days
  }

  /** The result of one download attempt of a day's CSV. */
  datatype Fetch = Saved | Failed(error: Exc)

  /** One pass of csv_thread's `while True`: the stop flag's reading and the request's result. */
  datatype Attempt = Attempt(stopSet: bool, result: Fetch)

  /** An attempt that ends the loop: stop, a save, or an error that is not retried. */
  predicate Decisive(a: Attempt)
  {
    a.stopSet || a.result.Saved? || !IsTransient(a.result.error)
  }

  /** How a day job ends given its attempts: Done when the CSV was saved, StopException when the
      flag was seen, the error of a non-transient failure; None while it is still retrying. */
  function DayResult(attempts: seq<Attempt>): (r: Option<Completion>)
  {
    if |attempts| == 0 then None
    else if attempts[0].stopSet then Some(Raised(StopException))
    else if attempts[0].result.Saved? then Some(Done)
    else if !IsTransient(attempts[0].result.error) then Some(Raised(attempts[0].result.error))
    else DayResult(attempts[1..])
  }

  /** The day job ends at its first decisive attempt, after retrying every transient failure
      before it, and keeps retrying exactly when no attempt is decisive. */
  lemma {:induction false} DayResultFirstDecisive(attempts: seq<Attempt>)
    ensures DayResult(attempts).None? <==> forall i :: 0 <= i < |attempts| ==> !Decisive(attempts[i])
    ensures DayResult(attempts).Some? ==> exists k ::
      && 0 <= k < |attempts| && Decisive(attempts[k])
      && (forall i :: 0 <= i < k ==> !Decisive(attempts[i]))
      && DayResult(attempts) == Some(
           if attempts[k].stopSet then Raised(StopException)
           else if attempts[k].result.Saved? then Done
           else Raised(attempts[k].result.error))
  {
    if |attempts| > 0 && !Decisive(attempts[0]) {
      DayResultFirstDecisive(attempts[1..]);
      if DayResult(attempts[1..]).Some? {
        var k :| 0 <= k < |attempts[1..]| && Decisive(attempts[1..][k])
          && (forall i :: 0 <= i < k ==> !Decisive(attempts[1..][i]))
          && DayResult(attempts[1..]) == Some(
               if attempts[1..][k].stopSet then Raised(StopException)
               else if attempts[1..][k].result.Saved? then Done
               else Raised(attempts[1..][k].result.error));
        assert Decisive(attempts[k + 1]);
      }
      forall i | 0 <= i < |attempts[1..]|
        ensures attempts[1..][i] == attempts[i + 1]
      {
      }
    }
  }

  /** csv_thread's `while True`, over the attempts it gets to make; `used` is how many it made. */
  method CsvThread(attempts: seq<Attempt>) returns (r: Option<Completion>, used: nat)
    ensures r == DayResult(attempts)
    ensures used <= |attempts|
    ensures r.Some? ==> used >= 1 && Decisive(attempts[used - 1])
    ensures forall i :: 0 <= i < used - 1 ==> !Decisive(attempts[i])
  {
    used := 0;
    while used < |attempts|
      invariant used <= |attempts|
      invariant DayResult(attempts) == DayResult(attempts[used..])
      invariant forall i :: 0 <= i < used ==> !Decisive(attempts[i])
    {
      var a := attempts[used];
      assert attempts[used..][1..] == attempts[used + 1..];
      used := used + 1;
      if a.stopSet {
        return Some(Raised(StopException)), used;
      }
      if a.result.Saved? {
        return Some(Done), used;
      }
      if !IsTransient(a.result.error) {
        return Some(Raised(a.result.error)), used;
      }
    }
    return None, used;
  }

  /** The name of a day's CSV: `app_{appid}_all_{D}_{D}.csv` with D the DATE_FORMAT_FILE date. */
  function DayFileName(appid: nat, d: Date): string
  {
    "app_" + NatToString(appid) + "_all_" + FormatFileDate(d) + "_" + FormatFileDate(d) + ".csv"
  }

  /** A number written with two trailing decimal digits determines both parts. */
  lemma TwoDigitSplitUnique(q1: int, r1: int, q2: int, r2: int)
    requires 0 <= r1 < 100 && 0 <= r2 < 100
    requires q1 * 100 + r1 == q2 * 100 + r2
    ensures q1 == q2 && r1 == r2
  {
  }

  /** Reading the date back from its eight digits. */
  lemma FileDateDetermines(a: Date, b: Date)
    requires Valid(a) && Valid(b) && 1000 <= a.year && 1000 <= b.year
    requires FormatFileDate(a) == FormatFileDate(b)
    ensures a == b
  {
    FormatFileDateDigits(a);
    FormatFileDateDigits(b);
    assert a.year * 10000 + a.month * 100 + a.day == (a.year * 100 + a.month) * 100 + a.day;
    assert b.year * 10000 + b.month * 100 + b.day == (b.year * 100 + b.month) * 100 + b.day;
    TwoDigitSplitUnique(a.year * 100 + a.month, a.day, b.year * 100 + b.month, b.day);
    TwoDigitSplitUnique(a.year, a.month, b.year, b.month);
  }

  /** Different days of one app (with four-digit years) get different file names. */
  lemma DayFileNamesDistinct(appid: nat, a: Date, b: Date)
    requires Valid(a) && Valid(b) && 1000 <= a.year && 1000 <= b.year
    requires DayFileName(appid, a) == DayFileName(appid, b)
    ensures a == b
  {
    var prefix := "app_" + NatToString(appid) + "_all_";
    FormatFileDateDigits(a);
    FormatFileDateDigits(b);
    assert DayFileName(appid, a)[|prefix|..|prefix| + 8] == FormatFileDate(a);
    assert DayFileName(appid, b)[|prefix|..|prefix| + 8] == FormatFileDate(b);
    FileDateDetermines(a, b);
  }

  /** The keys of `{app['appid']: app['name'] for app in apps}`: the app ids in order of first
      appearance. */
  function LookupKeys(appids: seq<nat>): (keys: seq<nat>)
    ensures forall i, j :: 0 <= i < j < |keys| ==> keys[i] != keys[j]
    ensures forall a :: a in appids <==> a in keys
  {
    if |appids| == 0 then []
    else
      var init := LookupKeys(appids[..|appids| - 1]);
      var last := appids[|appids| - 1];
      assert forall a :: a in appids <==> a in appids[..|appids| - 1] || a == last;
      if last in init then init else init + [last]
  }

  /** One app job as submitted: its app id, its number and the number of apps. */
  datatype AppJob = AppJob(appid: nat, ord: nat, outOf: nat)

  /** `[app.submit(app_thread, appid, i, len(app_lookup)) for i, appid in enumerate(...)]`. */
  function AppJobs(appids: seq<nat>): (jobs: seq<AppJob>)
    ensures var keys := LookupKeys(appids);
      && |jobs| == |keys|
      && forall i :: 0 <= i < |jobs| ==> jobs[i] == AppJob(keys[i], i, |keys|)
  {
    var keys := LookupKeys(appids);
    seq(|keys|, i requires 0 <= i < |keys| => AppJob(keys[i], i, |keys|))
  }

  /** Every app gets exactly one job, numbered from 0 in lookup order. */
  lemma AppJobsOnePerApp(appids: seq<nat>)
    ensures forall a :: a in appids ==> exists i :: 0 <= i < |AppJobs(appids)| && AppJobs(appids)[i].appid == a
    ensures forall i, j :: 0 <= i < j < |AppJobs(appids)| ==> AppJobs(appids)[i].appid != AppJobs(appids)[j].appid
  {
    var keys := LookupKeys(appids);
    forall a | a in appids
      ensures exists i :: 0 <= i < |AppJobs(appids)| && AppJobs(appids)[i].appid == a
    {
      var i :| 0 <= i < |keys| && keys[i] == a;
      assert AppJobs(appids)[i].appid == a;
    }
  }

  /** What one app job did: how it ended, the total its progress object was created with (as
      written, the day count itself), the days it submitted, the updates and reports its progress
      object received, and whether `p.close()` was reached. */
  datatype AppRun = AppRun(completion: Completion, total: int, submitted: seq<Date>, updates: nat,
                           reports: seq<Exc>, closed: bool)

  /** app_thread after its request: `found` data scripts on the page, the app's earliest date,
      the requested range, the attempts of each submitted day (in submission order), and the
      order in which the day jobs completed. Each day's attempts must include a decisive one:
      a day that is retried forever never completes. */
  method AppThread(stopSet: bool, found: nat, earliest: Date, fromDate: Date, toDate: Date,
                   dayAttempts: seq<seq<Attempt>>, order: seq<nat>)
    returns (run: AppRun)
    requires Valid(earliest) && Valid(fromDate) && Valid(toDate)
    requires |dayAttempts| == |DayJobs(MinDate(earliest, fromDate), toDate)|
    requires forall k :: 0 <= k < |dayAttempts| ==> DayResult(dayAttempts[k]).Some?
    requires IsOrder(order, |dayAttempts|)
    ensures stopSet ==> run == AppRun(Raised(StopException), 0, [], 0, [], false)
    ensures !stopSet && found != 1 ==> run == AppRun(Raised(ScriptNotFound(found)), 0, [], 0, [], false)
    ensures !stopSet && found == 1 ==>
      var minDate := MinDate(earliest, fromDate);
      var drain := Drained(seq(|order|, k requires 0 <= k < |order| => DayResult(dayAttempts[order[k]]).value), true);
      && run.submitted == DayJobs(minDate, toDate)
      && run.total == DayCount(minDate, toDate)
      && (run.total >= 0 ==> run.total == |run.submitted|)
      && run.updates == drain.updates
      && run.reports == (if drain.report.Some? then [drain.report.value] else [])
      && run.completion == (if drain.report.Some? then Raised(StopException) else Done)
      && run.closed == drain.report.None?
  {
    if stopSet {
      return AppRun(Raised(StopException), 0, [], 0, [], false);
    }
    var script, examined := FindDataScript(found);
    if script.Failure? {
      return AppRun(Raised(script.error), 0, [], 0, [], false);
    }
    var minDate := MinDate(earliest, fromDate);
    var maxDate := toDate;
    var jobs := DayJobs(minDate, maxDate);
    var total := DayCount(minDate, maxDate);
    var completions: seq<Completion> := [];
    for k := 0 to |order|
      invariant completions == seq(k, j requires 0 <= j < k => DayResult(dayAttempts[order[j]]).value)
    {
      var r, used := CsvThread(dayAttempts[order[k]]);
      completions := completions + [r.value];
    }
    var sink := new Sink();
    var executor := new Executor([]);
    var raised := GetExecResults(completions, executor, sink, true);
    // A raise out of get_exec_results skips `p.close()`.
    run := AppRun(if raised.Some? then Raised(raised.value) else Done, total, jobs, sink.updates,
                  sink.reports, raised.None?);
  }

  /** insights_scrape after reading the stop flag: `apps` is what get_cookies and get_apps
      produced, `appResults[i]` how the job of the `i`-th app in lookup order ended, and `order`
      the order the app jobs completed in. A failure to get cookies or apps is reported once and
      no job is submitted. Otherwise the app jobs are drained with the progress class, so nothing
      is counted, the first failing app's exception is reported once, and the StopException that
      ends the drain is swallowed: the scrape itself always returns normally. */
  method InsightsScrape(apps: Result<seq<nat>, Exc>, appResults: seq<Completion>, order: seq<nat>)
    returns (jobs: seq<AppJob>, reports: seq<Exc>, raised: Option<Exc>)
    requires apps.Success? ==> |appResults| == |LookupKeys(apps.value)| && IsOrder(order, |appResults|)
    ensures raised.None?
    ensures apps.Failure? ==> jobs == [] && reports == [apps.error]
    ensures apps.Success? ==>
      var drain := Drained(seq(|order|, k requires 0 <= k < |order| => appResults[order[k]]), false);
      && jobs == AppJobs(apps.value)
      && reports == (if drain.report.Some? then [drain.report.value] else [])
  {
    if apps.Failure? {
      return [], [apps.error], None;
    }
    jobs := AppJobs(apps.value);
    var completions := seq(|order|, k requires 0 <= k < |order| => appResults[order[k]]);
    var sink := new Sink();
    var executor := new Executor([]);
    var r := GetExecResults(completions, executor, sink, false);
    reports := sink.reports;
    if r.Some? && r.value == StopException {
      return jobs, reports, None;
    }
    return jobs, reports, r;
  }
}
