/** The CD-key checker (moonlite/scrape/keychecker.py, and its older copy scrape/keychecker.py):
    keys are normalised, the session cookies are read, and one job per key queries the
    querycdkey page and appends the key's row to a shared CSV writer, writing the header row the
    first time only. The fetched page of each key is an input, already reduced to its tables;
    the stop flag's reading in each job is an input; the jobs run one after the other in the
    completion order the pool happened to produce. */
module Keychecker {
  import opened Wrappers
  import opened Errors
  import opened Text
  import opened Progress

  /** The keys the tool queries: empty entries dropped, every newline removed, order kept. */
  function NormaliseKeys(keys: seq<string>): (r: seq<string>)
    ensures |r| <= |keys|
    ensures forall i :: 0 <= i < |r| ==> '\n' !in r[i]
  {
    if |keys| == 0 then []
    else
      var last := keys[|keys| - 1];
      var init := NormaliseKeys(keys[..|keys| - 1]);
      if last == "" then init
      else
        RemoveCharGone(last, '\n');
        init + [Replace(last, "\n", "")]
  }

  /** Normalisation works key by key: normalising a concatenation concatenates the results,
      so the kept keys come out in input order. */
  lemma {:induction false} NormaliseKeysAppend(a: seq<string>, b: seq<string>)
    ensures NormaliseKeys(a + b) == NormaliseKeys(a) + NormaliseKeys(b)
    decreases |b|
  {
    if |b| == 0 {
      assert a + b == a;
    } else {
      var b' := b[..|b| - 1];
      assert (a + b)[..|a + b| - 1] == a + b';
      assert (a + b)[|a + b| - 1] == b[|b| - 1];
      NormaliseKeysAppend(a, b');
    }
  }

  /** One key on its own: dropped exactly when it is empty, otherwise kept without newlines. */
  lemma NormaliseKeysSingle(key: string)
    ensures NormaliseKeys([key]) == if key == "" then [] else [Replace(key, "\n", "")]
  {
    assert [key][..0] == [];
  }

  /** A `tr` element: the texts of its `th` cells and of its `td` cells. */
  datatype TableRow = TableRow(th: seq<string>, td: seq<string>)

  /** A `table` element: its `tr` elements in document order. */
  datatype Table = Table(rows: seq<TableRow>)

  /** What the request for one key produced: the page's tables, or a failed request. */
  datatype Page = FetchFailed | Fetched(tables: seq<Table>)

  /** itertools.chain over a list of lists. */
  function Chain(xss: seq<seq<string>>): (r: seq<string>)
  {
    if |xss| == 0 then [] else Chain(xss[..|xss| - 1]) + xss[|xss| - 1]
  }

  /** The header row and the data row of one key, or None when building them raises (the
      request failed, or a table lacks the first `tr` needed for the headers or the second one
      needed for the details). With `legacy`, every table of the page is read and exactly the
      first two are written, so fewer than two tables is an IndexError; otherwise only the first
      two tables are read. */
  function KeyRows(key: string, page: Page, legacy: bool): Option<(seq<string>, seq<string>)>
  {
    if page.FetchFailed? then None
    else
      var read := if legacy then page.tables else page.tables[..if |page.tables| < 2 then |page.tables| else 2];
      if exists t :: t in read && |t.rows| < 2 then None
      else if legacy && |read| < 2 then None
      else
        var headers := seq(|read|, i requires 0 <= i < |read| => read[i].rows[0].th);
        var details := seq(|read|, i requires 0 <= i < |read| => read[i].rows[1].td);
        if legacy then Some((["Key"] + headers[0] + headers[1], [key] + details[0] + details[1]))
        else Some((["Key"] + Chain(headers), [key] + Chain(details)))
  }

  /** A query yields rows exactly when the request succeeded and each table it reads has a
      header row and a detail row; the legacy version also needs two tables. The rows start with
      `Key` and with the key. */
  lemma KeyRowsCases(key: string, page: Page, legacy: bool)
    ensures KeyRows(key, page, legacy).Some? <==>
      && page.Fetched?
      && (legacy ==> |page.tables| >= 2)
      && forall i :: 0 <= i < |page.tables| && (legacy || i < 2) ==> |page.tables[i].rows| >= 2
    ensures KeyRows(key, page, legacy).Some? ==>
      var (header, row) := KeyRows(key, page, legacy).value;
      |header| >= 1 && header[0] == "Key" && |row| >= 1 && row[0] == key
  {
    if page.Fetched? {
      var tables := page.tables;
      var read := if legacy then tables else tables[..if |tables| < 2 then |tables| else 2];
      assert forall i :: 0 <= i < |tables| && (legacy || i < 2) ==> tables[i] in read;
      assert forall t :: t in read ==> exists i :: 0 <= i < |tables| && (legacy || i < 2) && tables[i] == t;
    }
  }

  /** One row of the output CSV; `isHeader` tells the header row from the key rows. */
  datatype Line = Line(isHeader: bool, cells: seq<string>)

  /** The header row, if present, is the first row and no other row is a header. */
  predicate HeaderFirstOnly(lines: seq<Line>)
  {
    forall i :: 0 <= i < |lines| ==> (lines[i].isHeader <==> i == 0)
  }

  /** The CSV writer shared by the jobs, with the `headers_written` event. */
  class CsvWriter {
    var lines: seq<Line>
    var headersWritten: bool

    /** The event is set exactly when something was written, and the header came first. */
    ghost predicate Valid()
      reads this
    {
      (headersWritten <==> |lines| > 0) && HeaderFirstOnly(lines)
    }

    constructor ()
      ensures Valid() && lines == [] && !headersWritten
    {
      lines := [];
      headersWritten := false;
    }

    /** The `with write_lock:` block: the header row unless the event is set, then the key row. */
    method WriteKey(header: seq<string>, row: seq<string>)
      requires Valid()
      modifies this
      ensures Valid() && headersWritten
      ensures lines == old(lines) + (if old(headersWritten) then [] else [Line(true, header)]) + [Line(false, row)]
    {
      if !headersWritten {
        lines := lines + [Line(true, header)];
        headersWritten := true;
      }
      lines := lines + [Line(false, row)];
    }
  }

  /** query_key: StopException when the stop flag is set, otherwise True when the key's rows were
      written and False (with nothing written) when building them raised. */
  method QueryKey(key: string, stopSet: bool, page: Page, legacy: bool, writer: CsvWriter)
    returns (r: Result<bool, Exc>)
    requires writer.Valid()
    modifies writer
    ensures writer.Valid()
    ensures stopSet ==> r == Failure(StopException) && writer.lines == old(writer.lines)
    ensures !stopSet && KeyRows(key, page, legacy).None? ==> r == Success(false) && writer.lines == old(writer.lines)
    ensures !stopSet && KeyRows(key, page, legacy).Some? ==>
      var (header, row) := KeyRows(key, page, legacy).value;
      && r == Success(true)
      && writer.lines == old(writer.lines) + (if old(writer.headersWritten) then [] else [Line(true, header)]) + [Line(false, row)]
  {
    if stopSet {
      return Failure(StopException);
    }
    var rows := KeyRows(key, page, legacy);
    if rows.None? {
      return Success(false);
    }
    writer.WriteKey(rows.value.0, rows.value.1);
    return Success(true);
  }

  /** The observable effect of one keychecker run. `fileOpened` says whether the output file was
      opened; `total` is the progress total; `raised` the exception that leaves `keychecker`;
      `closed` whether `p.close()` was reached and `rowsWritten` the count printed after it. */
  datatype Run = Run(fileOpened: bool, lines: seq<Line>, total: nat, reports: seq<Exc>, updates: nat,
                     raised: Option<Exc>, closed: bool, rowsWritten: Option<nat>)

  /** The completion of a job given its stop reading: query_key raises only StopException, and
      only when the flag is set; every other failure is turned into False. */
  function JobCompletion(stopSet: bool): Completion
  {
    if stopSet then Raised(StopException) else Done
  }

  /** The completions of the jobs in the order they ran. */
  function Completions(stops: seq<bool>): (cs: seq<Completion>)
  {
    seq(|stops|, k requires 0 <= k < |stops| => JobCompletion(stops[k]))
  }

  /** The header row and key row of each of the first `n` jobs to run that saw no stop and
      built its rows, in completion order. */
  function KeyWrites(ks: seq<string>, order: seq<nat>, stops: seq<bool>, pages: seq<Page>, legacy: bool,
                     n: nat): seq<(seq<string>, seq<string>)>
    requires IsOrder(order, |ks|) && |stops| == |ks| && |pages| == |ks| && n <= |ks|
  {
    if n == 0 then []
    else
      var init := KeyWrites(ks, order, stops, pages, legacy, n - 1);
      var rows := KeyRows(ks[order[n - 1]], pages[order[n - 1]], legacy);
      if !stops[n - 1] && rows.Some? then init + [rows.value] else init
  }

  /** The file that a sequence of lock-block writes produces: the header row of the first
      write, once, followed by the key row of every write in order; empty without writes. */
  function CsvOf(writes: seq<(seq<string>, seq<string>)>): seq<Line>
  {
    if |writes| == 0 then []
    else [Line(true, writes[0].0)] + seq(|writes|, i requires 0 <= i < |writes| => Line(false, writes[i].1))
  }

  /** The output CSV of a run: the writes of the jobs the drain reads, that is, those up to
      the first stop. */
  function KeyCsv(ks: seq<string>, order: seq<nat>, stops: seq<bool>, pages: seq<Page>, legacy: bool): seq<Line>
    requires IsOrder(order, |ks|) && |stops| == |ks| && |pages| == |ks|
  {
    CsvOf(KeyWrites(ks, order, stops, pages, legacy, Processed(Completions(stops))))
  }

  /** The header is written exactly once, first, and only when some key row is written; there
      is one key row per write. */
  lemma CsvOfShape(writes: seq<(seq<string>, seq<string>)>)
    ensures HeaderFirstOnly(CsvOf(writes))
    ensures |CsvOf(writes)| == if |writes| == 0 then 0 else |writes| + 1
    ensures forall i :: 1 <= i < |CsvOf(writes)| ==> CsvOf(writes)[i] == Line(false, writes[i - 1].1)
  {
  }

  /** A write more appends the header first when nothing was written yet, then the key row. */
  lemma CsvOfSnoc(writes: seq<(seq<string>, seq<string>)>, w: (seq<string>, seq<string>))
    ensures CsvOf(writes + [w])
            == CsvOf(writes) + (if |writes| == 0 then [Line(true, w.0)] else []) + [Line(false, w.1)]
  {
    if |writes| > 0 {
      var all := writes + [w];
      assert all[0] == writes[0];
      assert CsvOf(all)[1..] == CsvOf(writes)[1..] + [Line(false, w.1)];
    }
  }

  /** The writes are exactly the rows of the jobs among the first `n` that saw no stop and built
      rows, in completion order. */
  lemma {:induction false} KeyWritesMembers(ks: seq<string>, order: seq<nat>, stops: seq<bool>,
                                            pages: seq<Page>, legacy: bool, n: nat)
    requires IsOrder(order, |ks|) && |stops| == |ks| && |pages| == |ks| && n <= |ks|
    ensures forall w :: w in KeyWrites(ks, order, stops, pages, legacy, n) <==>
              exists j :: 0 <= j < n && !stops[j] && KeyRows(ks[order[j]], pages[order[j]], legacy) == Some(w)
  {
    if n > 0 {
      KeyWritesMembers(ks, order, stops, pages, legacy, n - 1);
    }
  }

  /** Every key whose job ran before the first stop and whose page yields rows has its row in
      the file, after the header that job or an earlier one wrote. */
  lemma KeyCsvHasRow(ks: seq<string>, order: seq<nat>, stops: seq<bool>, pages: seq<Page>, legacy: bool, j: nat)
    requires IsOrder(order, |ks|) && |stops| == |ks| && |pages| == |ks|
    requires j < |ks| && (forall i :: 0 <= i <= j ==> !stops[i])
    requires KeyRows(ks[order[j]], pages[order[j]], legacy).Some?
    ensures Line(false, KeyRows(ks[order[j]], pages[order[j]], legacy).value.1) in KeyCsv(ks, order, stops, pages, legacy)
  {
    var cs := Completions(stops);
    var n := Processed(cs);
    var f := FirstFailure(cs);
    assert forall i :: 0 <= i <= j ==> cs[i].Done?;
    assert j < f;
    var ws := KeyWrites(ks, order, stops, pages, legacy, n);
    KeyWritesMembers(ks, order, stops, pages, legacy, n);
    var w := KeyRows(ks[order[j]], pages[order[j]], legacy).value;
    assert w in ws;
    var i :| 0 <= i < |ws| && ws[i] == w;
    CsvOfShape(ws);
    assert CsvOf(ws)[i + 1] == Line(false, w.1);
  }

  /** One more job in completion order. */
  lemma KeyWritesStep(ks: seq<string>, order: seq<nat>, stops: seq<bool>, pages: seq<Page>, legacy: bool, k: nat)
    requires IsOrder(order, |ks|) && |stops| == |ks| && |pages| == |ks| && k < |ks|
    ensures var rows := KeyRows(ks[order[k]], pages[order[k]], legacy);
            KeyWrites(ks, order, stops, pages, legacy, k + 1)
            == KeyWrites(ks, order, stops, pages, legacy, k) + (if !stops[k] && rows.Some? then [rows.value] else [])
  {
  }

  /** The `k`-th job to run: query_key on its key, with its stop reading and its page. The file
      grows by that job's write, if it makes one. */
  method RunJob(ks: seq<string>, order: seq<nat>, stops: seq<bool>, pages: seq<Page>, legacy: bool,
                writer: CsvWriter, k: nat)
    returns (stopped: bool)
    requires IsOrder(order, |ks|) && |stops| == |ks| && |pages| == |ks| && k < |ks|
    requires writer.Valid() && writer.lines == CsvOf(KeyWrites(ks, order, stops, pages, legacy, k))
    modifies writer
    ensures writer.Valid() && writer.lines == CsvOf(KeyWrites(ks, order, stops, pages, legacy, k + 1))
    ensures stopped == stops[k]
  {
    ghost var ws := KeyWrites(ks, order, stops, pages, legacy, k);
    var outcome := QueryKey(ks[order[k]], stops[k], pages[order[k]], legacy, writer);
    KeyWritesStep(ks, order, stops, pages, legacy, k);
    if outcome == Success(true) {
      CsvOfSnoc(ws, KeyRows(ks[order[k]], pages[order[k]], legacy).value);
    }
    stopped := outcome.Failure?;
  }

  /** The jobs in completion order, each with its stop reading, until one raises; returns the
      completions seen. The file ends up as the writes of the jobs that ran. */
  method RunJobs(ks: seq<string>, order: seq<nat>, stops: seq<bool>, pages: seq<Page>, legacy: bool,
                 writer: CsvWriter)
    returns (completions: seq<Completion>)
    requires IsOrder(order, |ks|) && |stops| == |ks| && |pages| == |ks|
    requires writer.Valid() && writer.lines == []
    modifies writer
    ensures writer.Valid()
    ensures writer.lines == KeyCsv(ks, order, stops, pages, legacy)
    ensures completions == Completions(stops)[..Processed(Completions(stops))]
  {
    var k := 0;
    while k < |order|
      invariant 0 <= k <= |order|
      invariant NoStopBefore(stops, k)
      invariant writer.Valid()
      invariant writer.lines == CsvOf(KeyWrites(ks, order, stops, pages, legacy, k))
    {
      var stopped := RunJob(ks, order, stops, pages, legacy, writer, k);
      if stopped {
        JobsEndAt(ks, order, stops, pages, legacy, k + 1);
        return Completions(stops[..k + 1]);
      }
      k := k + 1;
    }
    JobsEndAt(ks, order, stops, pages, legacy, k);
    return Completions(stops[..k]);
  }

  /** No job before the `n`-th saw the stop flag. */
  predicate NoStopBefore(stops: seq<bool>, n: nat)
    requires n <= |stops|
  {
    forall j :: 0 <= j < n ==> !stops[j]
  }

  /** When the first `n` jobs ran and either every job ran or the last of them saw the stop flag,
      the pool's completions are those `n` and the file holds what they wrote. */
  lemma JobsEndAt(ks: seq<string>, order: seq<nat>, stops: seq<bool>, pages: seq<Page>, legacy: bool,
                  n: nat)
    requires IsOrder(order, |ks|) && |stops| == |ks| && |pages| == |ks| && n <= |ks|
    requires 0 < n ==> NoStopBefore(stops, n - 1)
    requires n < |ks| ==> 0 < n && stops[n - 1]
    ensures Processed(Completions(stops)) == n
    ensures KeyCsv(ks, order, stops, pages, legacy) == CsvOf(KeyWrites(ks, order, stops, pages, legacy, n))
    ensures Completions(stops[..n]) == Completions(stops)[..n]
  {
    var cs := Completions(stops);
    if n < |ks| {
      ProcessedAfterSuccesses(cs, n - 1);
    } else if 0 < n && stops[n - 1] {
      ProcessedAfterSuccesses(cs, n - 1);
    } else {
      ProcessedAfterSuccesses(cs, n);
    }
  }

  /** keychecker: `cookies` is what get_cookies returned or raised; job `order[k]` is the `k`-th to
      run and sees the stop flag as `stops[k]`; `pages[i]` is the page fetched for key `i`.
      Jobs run in `order` until one raises, after which the queued ones are cancelled and
      StopException leaves `keychecker` before `p.close()` and the count of rows written. */
  method RunKeychecker(keys: seq<string>, cookies: Result<map<string, string>, Exc>,
                       order: seq<nat>, stops: seq<bool>, pages: seq<Page>, legacy: bool)
    returns (run: Run)
    requires IsOrder(order, |NormaliseKeys(keys)|)
    requires |stops| == |NormaliseKeys(keys)| && |pages| == |NormaliseKeys(keys)|
    ensures cookies.Failure? ==> run == Run(false, [], 0, [cookies.error], 0, None, false, None)
    ensures cookies.Success? && NormaliseKeys(keys) == [] ==> run == Run(false, [], 0, [], 0, None, false, None)
    ensures cookies.Success? && NormaliseKeys(keys) != [] ==>
      var ks := NormaliseKeys(keys);
      && run.fileOpened && run.total == |ks|
      && run.lines == KeyCsv(ks, order, stops, pages, legacy)
      && run.updates == Drained(Completions(stops), true).updates
      && (true in stops ==>
            run.reports == [StopException] && run.raised == Some(StopException) && !run.closed
            && run.rowsWritten.None?)
      && (true !in stops ==>
            run.reports == [] && run.raised.None? && run.closed && run.rowsWritten == Some(|ks|))
  {
    var ks := NormaliseKeys(keys);
    if cookies.Failure? {
      return Run(false, [], 0, [cookies.error], 0, None, false, None);
    }
    if |ks| == 0 {
      return Run(false, [], 0, [], 0, None, false, None);
    }
    var writer := new CsvWriter();
    var sink := new Sink();
    var executor := new Executor([]);
    var completions := RunJobs(ks, order, stops, pages, legacy, writer);
    var raised := GetExecResults(completions, executor, sink, true);
    var cs := Completions(stops);
    DrainedProcessed(cs, true);
    assert forall j :: 0 <= j < |cs| ==> (cs[j].Done? <==> !stops[j]);
    assert Drained(Completions(stops), true).report.Some? <==> true in stops;
    if raised.Some? {
      // The exception leaves the `with` blocks: no `p.close()`, no count of rows written.
      return Run(true, writer.lines, |ks|, sink.reports, sink.updates, raised, false, None);
    }
    // `sum(1 for future in futures if future)`: a future object is always true.
    run := Run(true, writer.lines, |ks|, sink.reports, sink.updates, None, true, Some(|order|));
  }
}
