/** The analytics window (insights_scraper.py): the Start/Stop toggle with its date-range check,
    the map of per-app progress bars, the progress objects the scraper creates per app (which
    count days, or report an exception and clean up unless a stop is already under way), and
    the watcher's reset when the scrape thread ends. Widgets, dialogs and the bars' percentages
    are left out: a bar is the data its label shows. */
module InsightsView {
  import opened Wrappers
  import opened Errors
  import opened Text
  import opened TimeUtil
  import opened Progress

  /** The label of an app's bar: `{ord + 1}/{out_of}: {appid} ({min_date} -> {max_date})`. */
  datatype Bar = Bar(ord: nat, outOf: nat, appid: nat, minDate: Date, maxDate: Date)

  function LabelText(b: Bar): string
  {
    NatToString(b.ord + 1) + "/" + NatToString(b.outOf) + ": " + NatToString(b.appid)
    + " (" + FormatDate(b.minDate) + " -> " + FormatDate(b.maxDate) + ")"
  }

  /** One TkinterProgress object: the app it counts for, the days done and the days to do. */
  class AppProgress {
    const appid: nat
    const days: int
    var day: int

    constructor (appid: nat, days: int)
      ensures this.appid == appid && this.days == days && day == 0
    {
      this.appid := appid;
      this.days := days;
      day := 0;
    }

    /** `update(n)`: the day counter grows by exactly n. */
    method Update(n: int)
      modifies this
      ensures day == old(day) + n
    {
      day := day + n;
    }
  }

  /** The window's state. `running` is "a scrape thread is set", `stop` the shared stop event,
      `startEnabled` the Start/Stop button (cleanup disables every button, the watcher enables
      them all), `loading` the indeterminate bar shown until the first progress object exists,
      `bars` the per-app progress bars and `shown` the exception dialogs opened so far.
      `threads` counts the scrape threads alive and `exceptionCleanups` the cleanups the
      exception path has made since the scrape started. */
  class InsightsScraperWindow {
    var fromDate: Date
    var toDate: Date
    var running: bool
    var stop: bool
    var startEnabled: bool
    var loading: bool
    var bars: map<nat, Bar>
    var shown: seq<Handler>
    ghost var threads: nat
    ghost var exceptionCleanups: nat

    /** At most one scrape thread, held by the window; the exception path has cleaned up at most
        once, and if it has, the stop flag is set. */
    ghost predicate Valid()
      reads this
    {
      threads <= 1 && (threads == 1 ==> running)
      && exceptionCleanups <= 1 && (exceptionCleanups == 1 ==> stop)
    }

    constructor (fromDate: Date, toDate: Date)
      ensures Valid() && this.fromDate == fromDate && this.toDate == toDate
      ensures !running && !stop && startEnabled && !loading && bars == map[] && shown == []
    {
      this.fromDate := fromDate;
      this.toDate := toDate;
      running := false;
      stop := false;
      startEnabled := true;
      loading := false;
      bars := map[];
      shown := [];
      threads := 0;
      exceptionCleanups := 0;
    }

    /** `_cleanup`: set the stop flag and disable every button. */
    method Cleanup()
      modifies this
      ensures stop && !startEnabled
      ensures fromDate == old(fromDate) && toDate == old(toDate) && running == old(running)
      ensures loading == old(loading) && bars == old(bars) && shown == old(shown)
      ensures threads == old(threads) && exceptionCleanups == old(exceptionCleanups)
    {
      stop := true;
      startEnabled := false;
    }

    /** `_toggle_scrape`. A range whose end is before its start starts nothing and moves the end
        to the start. Otherwise, with no scrape running, the old bars go, the stop flag is
        cleared and a scrape starts; with one running, the toggle only asks it to stop. */
    method ToggleScrape() returns (started: bool)
      requires Valid()
      modifies this
      ensures Valid() && fromDate == old(fromDate)
      ensures Before(old(toDate), old(fromDate)) ==>
                !started && toDate == old(fromDate) && running == old(running) && stop == old(stop)
                && startEnabled == old(startEnabled) && loading == old(loading)
                && bars == old(bars) && threads == old(threads)
                && exceptionCleanups == old(exceptionCleanups)
      ensures !Before(old(toDate), old(fromDate)) && !old(running) ==>
                started && toDate == old(toDate) && running && !stop && bars == map[] && loading
                && startEnabled == old(startEnabled) && threads == 1 && exceptionCleanups == 0
      ensures !Before(old(toDate), old(fromDate)) && old(running) ==>
                !started && toDate == old(toDate) && running && stop && !startEnabled
                && loading == old(loading) && bars == old(bars) && threads == old(threads)
                && exceptionCleanups == old(exceptionCleanups)
      ensures shown == old(shown)
    {
      if Before(toDate, fromDate) {
        toDate := fromDate;
        started := false;
      } else if !running {
        bars := map[];
        stop := false;
        loading := true;
        running := true;
        threads := 1;
        exceptionCleanups := 0;
        started := true;
      } else {
        Cleanup();
        started := false;
      }
    }

    /** `TkinterProgress(...)`, called by the scraper for each app. The loading bar goes. Without
        an exception, the app's bar is added only the first time the app starts, and a fresh
        day counter is returned. With one, cleanup runs only if no stop is under way, and the
        exception's dialog is shown. */
    method NewProgress(appid: nat, days: int, ord: nat, outOf: nat, minDate: Date, maxDate: Date,
                       exception: Option<Exc>) returns (p: AppProgress?)
      requires Valid()
      modifies this
      ensures Valid() && !loading
      ensures fromDate == old(fromDate) && toDate == old(toDate) && running == old(running)
      ensures threads == old(threads)
      ensures exception.None? ==>
                p != null && fresh(p) && p.appid == appid && p.days == days && p.day == 0
                && stop == old(stop) && startEnabled == old(startEnabled) && shown == old(shown)
                && exceptionCleanups == old(exceptionCleanups)
                && bars == (if appid in old(bars) then old(bars)
                            else old(bars)[appid := Bar(ord, outOf, appid, minDate, maxDate)])
      ensures exception.Some? ==>
                p == null && bars == old(bars) && stop
                && shown == old(shown) + [HandlerFor(exception.value)]
                && (old(stop) ==> startEnabled == old(startEnabled) && exceptionCleanups == old(exceptionCleanups))
                && (!old(stop) ==> !startEnabled && exceptionCleanups == old(exceptionCleanups) + 1)
    {
      loading := false;
      if exception.None? {
        if appid !in bars {
          bars := bars[appid := Bar(ord, outOf, appid, minDate, maxDate)];
        }
        p := new AppProgress(appid, days);
      } else {
        if !stop {
          Cleanup();
          exceptionCleanups := exceptionCleanups + 1;
        }
        shown := shown + [HandlerFor(exception.value)];
        p := null;
      }
    }

    /** The scrape thread returns. */
    method ThreadEnded()
      requires Valid() && threads == 1
      modifies this
      ensures Valid() && threads == 0
      ensures fromDate == old(fromDate) && toDate == old(toDate) && running == old(running)
      ensures stop == old(stop) && startEnabled == old(startEnabled) && loading == old(loading)
      ensures bars == old(bars) && shown == old(shown) && exceptionCleanups == old(exceptionCleanups)
    {
      threads := 0;
    }

    /** The watcher, once the thread is no longer alive: `scrape_thread` is reset and the buttons
        enabled, so the next toggle may start a scrape. */
    method WatcherReset()
      requires Valid() && threads == 0
      modifies this
      ensures Valid() && !running && startEnabled
      ensures fromDate == old(fromDate) && toDate == old(toDate) && loading == old(loading)
      ensures stop == old(stop) && bars == old(bars) && shown == old(shown) && threads == 0
      ensures exceptionCleanups == old(exceptionCleanups)
    {
      running := false;
      startEnabled := true;
    }
  }
}
