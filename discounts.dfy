/** The discount-history scraper (scrape/discounts.py): after the cookies and the package -> app
    map are obtained, the CSV header is written, and one job per package reads the discount rows
    of its page and appends one record per row, checking the stop flag before the request and
    before every row. The parsed discount data of each row, the rendered dates and the stop-flag
    readings are inputs; the jobs run one after the other in completion order. */
module Discounts {
  import opened Wrappers
  import opened Errors
  import opened Text
  import opened Progress

  /** CSV_HEADER: the field order of the output file. */
  const CsvHeader: seq<string> :=
    ["package", "app", "discount_id", "from_date", "to_date", "name", "description",
     "percentage", "amount", "quantity"]

  /** The `data-discount-data` JSON of one row, reduced to the keys the record reads. The two
      dates are already rendered as US/Pacific ISO timestamps. */
  datatype DiscountData = DiscountData(
    id: Option<string>, startDate: Option<string>, endDate: Option<string>, name: Option<string>,
    percent: Option<int>, amount: Option<int>, quantity: Option<int>)

  /** One discount row of a package page: its JSON and the text of its `em` element, if any. */
  datatype DiscountRow = DiscountRow(data: DiscountData, em: Option<string>)

  /** One row written to the output file, with its fields in CsvHeader order. */
  datatype Record = Record(
    package: nat, app: nat, discountId: string, fromDate: string, toDate: string, name: string,
    description: string, percentage: int, amount: string, quantity: int)

  /** `s[:-2] + '.' + s[-2:]`: a point before the last two characters (Python's negative slice
      bounds clamp at the start of a short string). */
  function InsertPoint(s: string): (r: string)
  {
    var cut := if |s| < 2 then 0 else |s| - 2;
    s[..cut] + "." + s[cut..]
  }

  /** The point adds exactly one character, and deleting it from a string without points
      gives the string back. */
  lemma InsertPointRoundTrip(s: string)
    requires '.' !in s
    ensures |InsertPoint(s)| == |s| + 1
    ensures Replace(InsertPoint(s), ".", "") == s
  {
    var cut := if |s| < 2 then 0 else |s| - 2;
    var a, b, point := s[..cut], s[cut..], ['.'];
    assert InsertPoint(s) == (a + point) + b;
    assert a + b == s;
    assert '.' !in a && '.' !in b;
    RemoveCharAppend(a + point, b, '.');
    RemoveCharAppend(a, point, '.');
    RemoveCharAbsent(a, '.');
    RemoveCharAbsent(b, '.');
    assert Replace(point, point, "") == "" by {
      assert StartsWith(point, point) && point[1..] == "";
    }
  }

  /** `str(discount.get('amount', '000'))`. */
  function AmountText(amount: Option<int>): (s: string)
    ensures '.' !in s
  {
    match amount
    case None => "000"
    case Some(n) =>
      var r := IntToString(n);
      assert forall i :: 0 <= i < |r| ==> r[i] != '.';
      r
  }

  /** A missing amount is written as `0.00`, with or without the padding. */
  lemma MissingAmount()
    ensures InsertPoint(AmountText(None)) == "0.00" && AmountText(None) == PaddedAmountText(None)
  {
  }

  /** The price a reader takes from `whole.frac`, in cents: one fraction digit is tenths. */
  function ReadCents(whole: string, frac: string): nat
    requires forall i :: 0 <= i < |whole| ==> IsDigit(whole[i])
    requires 1 <= |frac| <= 2 && forall i :: 0 <= i < |frac| ==> IsDigit(frac[i])
  {
    DecimalValue(whole) * 100 + DecimalValue(frac) * (if |frac| == 1 then 10 else 1)
  }

  /** As written, an amount of one to nine cents loses a digit of scale: `5` becomes `.5`,
      which reads as fifty cents. */
  lemma AmountBelowTenMisread(n: nat)
    requires 1 <= n < 10
    ensures InsertPoint(AmountText(Some(n))) == "." + NatToString(n)
    ensures ReadCents("", NatToString(n)) == 10 * n != n
  {
    DecimalValueOfNatToString(n);
  }

  /** The amount text padded to at least three digits, so that the point always has a whole
      part and two cent digits. */
  function PaddedAmountText(amount: Option<int>): (s: string)
    ensures '.' !in s
  {
    match amount
    case None => "000"
    case Some(n) =>
      var digits := Pad(if n < 0 then -n else n, 3);
      var r := if n < 0 then "-" + digits else digits;
      assert forall i :: 0 <= i < |r| ==> r[i] != '.';
      r
  }

  /** The value of a digit string splits before its last two digits. */
  lemma DecimalValueLastTwo(head: string, tail: string)
    requires |tail| == 2 && IsDigit(tail[0]) && IsDigit(tail[1])
    requires forall i :: 0 <= i < |head| ==> IsDigit(head[i])
    ensures DecimalValue(head + tail) == DecimalValue(head) * 100 + DecimalValue(tail)
  {
    var c2, c1 := tail[0], tail[1];
    assert tail == [c2] + [c1];
    assert head + tail == head + [c2] + [c1];
    DecimalValueSnoc(head + [c2], c1);
    DecimalValueSnoc(head, c2);
    DecimalValueSnoc([] + [c2], c1);
    DecimalValueSnoc([], c2);
    assert [] + [c2] == [c2];
  }

  /** With the padding, the written amount reads back as exactly the number of cents, and the
      point sits before exactly two digits. */
  lemma PaddedAmountReadsBack(n: nat)
    ensures var s := PaddedAmountText(Some(n));
            var r := InsertPoint(s);
      && |s| >= 3 && r == s[..|s| - 2] + "." + s[|s| - 2..]
      && ReadCents(s[..|s| - 2], s[|s| - 2..]) == n
  {
    var s := Pad(n, 3);
    assert PaddedAmountText(Some(n)) == s;
    assert |s| >= 3;
    assert InsertPoint(s) == s[..|s| - 2] + "." + s[|s| - 2..];
    PadValue(n, 3);
    CentsOfDigits(s);
  }

  /** Read with the point before its last two digits, a digit string keeps its value. */
  lemma CentsOfDigits(s: string)
    requires |s| >= 2 && forall i :: 0 <= i < |s| ==> IsDigit(s[i])
    ensures ReadCents(s[..|s| - 2], s[|s| - 2..]) == DecimalValue(s)
  {
    var whole, cents := s[..|s| - 2], s[|s| - 2..];
    assert s == whole + cents;
    assert IsDigit(cents[0]) && IsDigit(cents[1]) by {
      assert cents[0] == s[|s| - 2] && cents[1] == s[|s| - 1];
    }
    forall i | 0 <= i < |whole| ensures IsDigit(whole[i]) {
      assert whole[i] == s[i];
    }
    DecimalValueLastTwo(whole, cents);
  }

  /** The record of one discount row: KeyError when `id`, `start_date`, `end_date` or `name` is
      missing (they are read in that order, before the `em` lookup), AttributeError when the
      row has no `em`; otherwise the record, with percentage 0 and quantity 1 by default. */
  function BuildRecord(packageid: nat, appid: nat, row: DiscountRow): Result<Record, Exc>
  {
    var d := row.data;
    if d.id.None? || d.startDate.None? || d.endDate.None? || d.name.None? then Failure(KeyError)
    else if row.em.None? then Failure(AttributeError)
    else
      Success(Record(
        packageid, appid, d.id.value, d.startDate.value, d.endDate.value, d.name.value, row.em.value,
        if d.percent.Some? then d.percent.value else 0,
        InsertPoint(AmountText(d.amount)),
        if d.quantity.Some? then d.quantity.value else 1))
  }

  /** A record is built exactly when the four keys and the `em` element are present, the error
      otherwise is KeyError before AttributeError, and a built record carries the job's ids, the
      row's fields, the defaults, and the amount text with a point inserted. */
  lemma BuildRecordCases(packageid: nat, appid: nat, row: DiscountRow)
    ensures var r := BuildRecord(packageid, appid, row);
      && (r.Failure? <==>
            row.data.id.None? || row.data.startDate.None? || row.data.endDate.None? || row.data.name.None? || row.em.None?)
      && (r.Failure? ==>
            r.error == if row.em.Some? || row.data.id.None? || row.data.startDate.None? || row.data.endDate.None? || row.data.name.None?
                       then KeyError else AttributeError)
      && (r.Success? ==>
            && r.value.package == packageid && r.value.app == appid
            && r.value.discountId == row.data.id.value && r.value.name == row.data.name.value
            && r.value.fromDate == row.data.startDate.value && r.value.toDate == row.data.endDate.value
            && r.value.description == row.em.value
            && r.value.percentage == (if row.data.percent.Some? then row.data.percent.value else 0)
            && r.value.quantity == (if row.data.quantity.Some? then row.data.quantity.value else 1)
            && Replace(r.value.amount, ".", "") == AmountText(row.data.amount)
            && |r.value.amount| == |AmountText(row.data.amount)| + 1)
  {
    InsertPointRoundTrip(AmountText(row.data.amount));
  }

  /** What one package job did: the records it wrote, in order, and how it ended. */
  datatype Job = Job(records: seq<Record>, completion: Completion)

  /** The row loop of package_thread: `stops[i]` is the stop flag's reading before row `i`.
      The records written are those of the rows before the first stop or failing row. */
  function RowsJob(packageid: nat, appid: nat, rows: seq<DiscountRow>, stops: seq<bool>): Job
    requires |stops| == |rows|
  {
    if |rows| == 0 then Job([], Done)
    else if stops[0] then Job([], Raised(StopException))
    else match BuildRecord(packageid, appid, rows[0])
      case Failure(e) => Job([], Raised(e))
      case Success(record) =>
        var rest := RowsJob(packageid, appid, rows[1..], stops[1..]);
        Job([record] + rest.records, rest.completion)
  }

  /** The records written are those of the longest prefix of rows that saw no stop and built
      a record, in page order; the job completes normally exactly when that prefix is every row,
      and otherwise raises StopException or the error of the row that ended it. */
  lemma {:induction false} RowsJobPrefix(packageid: nat, appid: nat, rows: seq<DiscountRow>, stops: seq<bool>)
    requires |stops| == |rows|
    ensures var job := RowsJob(packageid, appid, rows, stops);
            var n := |job.records|;
      && n <= |rows|
      && (forall i :: 0 <= i < n ==> !stops[i] && BuildRecord(packageid, appid, rows[i]) == Success(job.records[i]))
      && (job.completion.Done? <==> n == |rows|)
      && (job.completion.Raised? ==>
            if stops[n] then job.completion.exc == StopException
            else BuildRecord(packageid, appid, rows[n]) == Failure(job.completion.exc))
  {
    if |rows| > 0 && !stops[0] && BuildRecord(packageid, appid, rows[0]).Success? {
      RowsJobPrefix(packageid, appid, rows[1..], stops[1..]);
    }
  }

  /** One step of the row loop, from row `i` on. */
  lemma RowsJobUnfold(packageid: nat, appid: nat, rows: seq<DiscountRow>, stops: seq<bool>, i: nat)
    requires |stops| == |rows| && i < |rows|
    ensures var here := RowsJob(packageid, appid, rows[i..], stops[i..]);
            var next := RowsJob(packageid, appid, rows[i + 1..], stops[i + 1..]);
            var record := BuildRecord(packageid, appid, rows[i]);
      && (stops[i] ==> here == Job([], Raised(StopException)))
      && (!stops[i] && record.Failure? ==> here == Job([], Raised(record.error)))
      && (!stops[i] && record.Success? ==> here == Job([record.value] + next.records, next.completion))
  {
    assert rows[i..][1..] == rows[i + 1..] && stops[i..][1..] == stops[i + 1..];
  }

  /** package_thread as a value: `stops[0]` is the reading before the request, `stops[i + 1]`
      the reading before row `i`; `page` is the parsed discount rows, or the request's error. */
  function PackageJob(packageid: nat, appid: nat, page: Result<seq<DiscountRow>, Exc>, stops: seq<bool>): Job
    requires |stops| == 1 + (if page.Success? then |page.value| else 0)
  {
    if stops[0] then Job([], Raised(StopException))
    else if page.Failure? then Job([], Raised(page.error))
    else RowsJob(packageid, appid, page.value, stops[1..])
  }

  /** Every record a package job writes carries the job's package id and app id. */
  lemma PackageJobRecords(packageid: nat, appid: nat, page: Result<seq<DiscountRow>, Exc>, stops: seq<bool>)
    requires |stops| == 1 + (if page.Success? then |page.value| else 0)
    ensures forall r :: r in PackageJob(packageid, appid, page, stops).records ==> r.package == packageid && r.app == appid
  {
    if !stops[0] && page.Success? {
      var records := RowsJob(packageid, appid, page.value, stops[1..]).records;
      RowsJobPrefix(packageid, appid, page.value, stops[1..]);
      forall i | 0 <= i < |records|
        ensures records[i].package == packageid && records[i].app == appid
      {
        BuildRecordCases(packageid, appid, page.value[i]);
      }
    }
  }

  /** One line of the output file. */
  datatype CsvLine = HeaderRow(fields: seq<string>) | RecordRow(record: Record)

  /** The records as lines, in order. */
  function RecordLines(records: seq<Record>): (lines: seq<CsvLine>)
  {
    seq(|records|, i requires 0 <= i < |records| => RecordRow(records[i]))
  }

  /** The csv.DictWriter shared by the package jobs. */
  class DictWriter {
    var lines: seq<CsvLine>

    constructor ()
      ensures lines == []
    {
      lines := [];
    }

    /** writer.writeheader(). */
    method WriteHeader()
      modifies this
      ensures lines == old(lines) + [HeaderRow(CsvHeader)]
    {
      lines := lines + [HeaderRow(CsvHeader)];
    }

    /** The `with file_lock:` block: writer.writerow(obj). */
    method WriteRecord(record: Record)
      modifies this
      ensures lines == old(lines) + [RecordRow(record)]
    {
      lines := lines + [RecordRow(record)];
    }
  }

  /** package_thread: the stop check, the request, then the row loop with a stop check before
      each row, writing each record as it is built. */
  method PackageThread(packageid: nat, appid: nat, page: Result<seq<DiscountRow>, Exc>, stops: seq<bool>,
                       writer: DictWriter)
    returns (c: Completion)
    requires |stops| == 1 + (if page.Success? then |page.value| else 0)
    modifies writer
    ensures writer.lines == old(writer.lines) + RecordLines(PackageJob(packageid, appid, page, stops).records)
    ensures c == PackageJob(packageid, appid, page, stops).completion
  {
    if stops[0] {
      return Raised(StopException);
    }
    if page.Failure? {
      return Raised(page.error);
    }
    var rows := page.value;
    var st := stops[1..];
    ghost var job := RowsJob(packageid, appid, rows, st);
    assert PackageJob(packageid, appid, page, stops) == job;
    ghost var written: seq<Record> := [];
    assert rows[0..] == rows && st[0..] == st;
    for i := 0 to |rows|
      invariant writer.lines == old(writer.lines) + RecordLines(written)
      invariant var rest := RowsJob(packageid, appid, rows[i..], st[i..]);
        job == Job(written + rest.records, rest.completion)
    {
      RowsJobUnfold(packageid, appid, rows, st, i);
      if st[i] {
        return Raised(StopException);
      }
      var record := BuildRecord(packageid, appid, rows[i]);
      if record.Failure? {
        return Raised(record.error);
      }
      writer.WriteRecord(record.value);
      ghost var next := RowsJob(packageid, appid, rows[i + 1..], st[i + 1..]);
      assert (written + [record.value]) + next.records == written + ([record.value] + next.records);
      RecordLinesSnoc(written, record.value);
      written := written + [record.value];
    }
    return Done;
  }

  lemma RecordLinesSnoc(records: seq<Record>, record: Record)
    ensures RecordLines(records + [record]) == RecordLines(records) + [RecordRow(record)]
  {
  }

  /** Every line after the header is a record of a package in the map, under its own app. */
  ghost predicate RecordsFromMap(lines: seq<CsvLine>, packages: map<nat, nat>)
  {
    forall i :: 1 <= i < |lines| ==>
      lines[i].RecordRow? && lines[i].record.package in packages
      && lines[i].record.app == packages[lines[i].record.package]
  }

  /** Appending the records of a job for a package of the map keeps every line from the map. */
  lemma RecordsFromMapAppend(lines: seq<CsvLine>, records: seq<Record>, packages: map<nat, nat>, id: nat)
    requires RecordsFromMap(lines, packages) && |lines| >= 1 && id in packages
    requires forall r :: r in records ==> r.package == id && r.app == packages[id]
    ensures RecordsFromMap(lines + RecordLines(records), packages)
  {
    var all := lines + RecordLines(records);
    forall i | 1 <= i < |all|
      ensures all[i].RecordRow? && all[i].record.package in packages
        && all[i].record.app == packages[all[i].record.package]
    {
      if i >= |lines| {
        assert all[i] == RecordRow(records[i - |lines|]);
        assert records[i - |lines|] in records;
      }
    }
  }

  /** The page of a package: its discount rows, or the error of the request. */
  type Page = Result<seq<DiscountRow>, Exc>

  /** `ids` are the packages in submission order, each in the map; job `order[k]` is the `k`-th
      to run, and `stops[k]` are its stop-flag readings, one more than its page has rows. */
  predicate JobInputs(ids: seq<nat>, packages: map<nat, nat>, order: seq<nat>, pages: seq<Page>,
                      stops: seq<seq<bool>>)
  {
    && IsOrder(order, |ids|) && |pages| == |ids| && |stops| == |ids|
    && (forall i :: 0 <= i < |ids| ==> ids[i] in packages)
    && (forall k :: 0 <= k < |ids| ==>
          |stops[k]| == 1 + (if pages[order[k]].Success? then |pages[order[k]].value| else 0))
  }

  /** The `k`-th package job to run. */
  function JobAt(ids: seq<nat>, packages: map<nat, nat>, order: seq<nat>, pages: seq<Page>,
                 stops: seq<seq<bool>>, k: nat): Job
    requires JobInputs(ids, packages, order, pages, stops) && k < |ids|
  {
    var id := ids[order[k]];
    PackageJob(id, packages[id], pages[order[k]], stops[k])
  }

  /** The package jobs in the order they ran. */
  function Jobs(ids: seq<nat>, packages: map<nat, nat>, order: seq<nat>, pages: seq<Page>,
                stops: seq<seq<bool>>): (jobs: seq<Job>)
    requires JobInputs(ids, packages, order, pages, stops)
    ensures |jobs| == |ids|
    ensures forall k :: 0 <= k < |ids| ==> jobs[k] == JobAt(ids, packages, order, pages, stops, k)
  {
    seq(|ids|, k requires 0 <= k < |ids| => JobAt(ids, packages, order, pages, stops, k))
  }

  /** How the jobs ended, in the order they ran. */
  function CompletionsOf(jobs: seq<Job>): (cs: seq<Completion>)
    ensures |cs| == |jobs| && forall k :: 0 <= k < |jobs| ==> cs[k] == jobs[k].completion
  {
    seq(|jobs|, k requires 0 <= k < |jobs| => jobs[k].completion)
  }

  /** The records the jobs wrote, job after job. */
  function RecordsOf(jobs: seq<Job>): seq<Record>
  {
    if |jobs| == 0 then [] else RecordsOf(jobs[..|jobs| - 1]) + jobs[|jobs| - 1].records
  }

  /** The output file of a run whose discovery succeeded: the header, then the records of every
      job the drain loop read, up to and including the first that raised. */
  function DiscountsCsv(jobs: seq<Job>): seq<CsvLine>
  {
    [HeaderRow(CsvHeader)] + RecordLines(RecordsOf(jobs[..Processed(CompletionsOf(jobs))]))
  }

  lemma CompletionsOfPrefix(jobs: seq<Job>, n: nat)
    requires n <= |jobs|
    ensures CompletionsOf(jobs[..n]) == CompletionsOf(jobs)[..n]
  {
  }

  lemma RecordLinesAppend(a: seq<Record>, b: seq<Record>)
    ensures RecordLines(a + b) == RecordLines(a) + RecordLines(b)
  {
  }

  /** A record is written by the jobs exactly when one of them wrote it. */
  lemma {:induction false} RecordsOfMembers(jobs: seq<Job>, r: Record)
    ensures r in RecordsOf(jobs) <==> exists k :: 0 <= k < |jobs| && r in jobs[k].records
  {
    if |jobs| > 0 {
      var init := jobs[..|jobs| - 1];
      RecordsOfMembers(init, r);
      if r in RecordsOf(init) {
        var k :| 0 <= k < |init| && r in init[k].records;
        assert jobs[k] == init[k];
      }
      if exists k :: 0 <= k < |jobs| && r in jobs[k].records {
        var k :| 0 <= k < |jobs| && r in jobs[k].records;
        if k < |init| {
          assert init[k] == jobs[k];
        }
      }
    }
  }

  /** The header comes first and only there, and every later line is a record of a package of
      the map, under that package's app. */
  lemma DiscountsCsvShape(ids: seq<nat>, packages: map<nat, nat>, order: seq<nat>, pages: seq<Page>,
                          stops: seq<seq<bool>>)
    requires JobInputs(ids, packages, order, pages, stops)
    ensures var lines := DiscountsCsv(Jobs(ids, packages, order, pages, stops));
      && |lines| >= 1 && lines[0] == HeaderRow(CsvHeader)
      && RecordsFromMap(lines, packages)
  {
    var jobs := Jobs(ids, packages, order, pages, stops);
    var ran := jobs[..Processed(CompletionsOf(jobs))];
    var records := RecordsOf(ran);
    var lines := DiscountsCsv(jobs);
    forall i | 1 <= i < |lines|
      ensures lines[i].RecordRow? && lines[i].record.package in packages
        && lines[i].record.app == packages[lines[i].record.package]
    {
      var r := records[i - 1];
      assert lines[i] == RecordRow(r);
      RecordsOfMembers(ran, r);
      var k :| 0 <= k < |ran| && r in ran[k].records;
      var id := ids[order[k]];
      PackageJobRecords(id, packages[id], pages[order[k]], stops[k]);
    }
  }

  /** When no job up to the `k`-th raised, every record of the `k`-th job is in the file. */
  lemma DiscountsCsvHasJob(jobs: seq<Job>, k: nat, r: Record)
    requires k < |jobs| && forall j :: 0 <= j <= k ==> jobs[j].completion.Done?
    requires r in jobs[k].records
    ensures RecordRow(r) in DiscountsCsv(jobs)
  {
    var cs := CompletionsOf(jobs);
    var ran := jobs[..Processed(cs)];
    assert forall j :: 0 <= j <= k ==> cs[j].Done?;
    assert k < FirstFailure(cs);
    assert ran[k] == jobs[k];
    RecordsOfMembers(ran, r);
    var records := RecordsOf(ran);
    var i :| 0 <= i < |records| && records[i] == r;
    assert DiscountsCsv(jobs)[i + 1] == RecordRow(r);
  }

  /** No job before the `n`-th raised. */
  predicate NoFailureBefore(cs: seq<Completion>, n: nat)
    requires n <= |cs|
  {
    forall j :: 0 <= j < n ==> cs[j].Done?
  }

  /** When the first `n` jobs ran and either every job ran or the last of them raised, the
      drain loop read exactly those `n`. */
  lemma JobsEndAt(cs: seq<Completion>, n: nat)
    requires n <= |cs| && (0 < n ==> NoFailureBefore(cs, n - 1))
    requires n < |cs| ==> 0 < n && cs[n - 1].Raised?
    ensures Processed(cs) == n
  {
    if 0 < n && cs[n - 1].Raised? {
      ProcessedAfterSuccesses(cs, n - 1);
    } else {
      ProcessedAfterSuccesses(cs, n);
    }
  }

  /** The observable effect of one discounts run: whether the file was opened, its lines, the
      progress total, the exceptions reported, the update() calls, the exception that leaves
      the function, and whether p.close() ran. */
  datatype Run = Run(fileOpened: bool, lines: seq<CsvLine>, total: nat, reports: seq<Exc>, updates: nat,
                     raised: Option<Exc>, closed: bool)

  /** The package jobs in completion order until one raises; returns the completions the drain
      loop reads. The file gains the records of exactly those jobs, in that order. */
  method RunPackageJobs(ids: seq<nat>, packages: map<nat, nat>, order: seq<nat>, pages: seq<Page>,
                        stops: seq<seq<bool>>, writer: DictWriter)
    returns (completions: seq<Completion>)
    requires JobInputs(ids, packages, order, pages, stops)
    modifies writer
    ensures var jobs := Jobs(ids, packages, order, pages, stops);
            var n := Processed(CompletionsOf(jobs));
      && completions == CompletionsOf(jobs)[..n]
      && writer.lines == old(writer.lines) + RecordLines(RecordsOf(jobs[..n]))
  {
    ghost var jobs := Jobs(ids, packages, order, pages, stops);
    var k := 0;
    while k < |order|
      invariant 0 <= k <= |order| && NoFailureBefore(CompletionsOf(jobs), k)
      invariant writer.lines == old(writer.lines) + RecordLines(RecordsOf(jobs[..k]))
    {
      var c := RunPackageJob(ids, packages, order, pages, stops, writer, k, old(writer.lines));
      if c.Raised? {
        JobsEndAt(CompletionsOf(jobs), k + 1);
        CompletionsOfPrefix(jobs, k + 1);
        return CompletionsOf(Jobs(ids, packages, order, pages, stops)[..k + 1]);
      }
      k := k + 1;
    }
    JobsEndAt(CompletionsOf(jobs), k);
    CompletionsOfPrefix(jobs, k);
    return CompletionsOf(Jobs(ids, packages, order, pages, stops)[..k]);
  }

  /** The `k`-th job: package_thread for `ids[order[k]]` and its app. */
  method RunPackageJob(ids: seq<nat>, packages: map<nat, nat>, order: seq<nat>, pages: seq<Page>,
                       stops: seq<seq<bool>>, writer: DictWriter, k: nat, ghost before: seq<CsvLine>)
    returns (c: Completion)
    requires JobInputs(ids, packages, order, pages, stops) && k < |ids|
    requires writer.lines == before + RecordLines(RecordsOf(Jobs(ids, packages, order, pages, stops)[..k]))
    modifies writer
    ensures c == Jobs(ids, packages, order, pages, stops)[k].completion
    ensures writer.lines == before + RecordLines(RecordsOf(Jobs(ids, packages, order, pages, stops)[..k + 1]))
  {
    ghost var jobs := Jobs(ids, packages, order, pages, stops);
    var id := ids[order[k]];
    c := PackageThread(id, packages[id], pages[order[k]], stops[k], writer);
    assert jobs[..k + 1][..k] == jobs[..k];
    RecordLinesAppend(RecordsOf(jobs[..k]), jobs[k].records);
  }

  /** discounts: `discovery` is the package -> app map or the error raised while reading cookies
      or discovering packages; `ids` are the map's keys in iteration order; job `order[k]` is
      the `k`-th to run, reading the stop flag as `stops[k]`; `pages[i]` is the page of `ids[i]`.
      A job that raises makes the drain loop raise StopException out of the function, before
      p.close(). */
  method RunDiscounts(discovery: Result<map<nat, nat>, Exc>, ids: seq<nat>, order: seq<nat>,
                      pages: seq<Page>, stops: seq<seq<bool>>)
    returns (run: Run)
    requires IsOrder(order, |ids|) && |pages| == |ids| && |stops| == |ids|
    requires discovery.Success? ==>
      && |ids| == |discovery.value|
      && (forall i :: 0 <= i < |ids| ==> ids[i] in discovery.value)
      && (forall id :: id in discovery.value ==> id in ids)
    requires forall k :: 0 <= k < |ids| ==>
      |stops[k]| == 1 + (if pages[order[k]].Success? then |pages[order[k]].value| else 0)
    ensures discovery.Failure? ==> run == Run(false, [], 0, [discovery.error], 0, None, false)
    ensures discovery.Success? ==>
      && JobInputs(ids, discovery.value, order, pages, stops)
      && var jobs := Jobs(ids, discovery.value, order, pages, stops);
         var drain := Drained(CompletionsOf(jobs), true);
      && run.fileOpened && run.total == |discovery.value|
      && run.lines == DiscountsCsv(jobs)
      && run.updates == drain.updates
      && run.reports == (if drain.report.Some? then [drain.report.value] else [])
      && run.raised == (if drain.report.Some? then Some(StopException) else None)
      && run.closed == drain.report.None?
  {
    if discovery.Failure? {
      return Run(false, [], 0, [discovery.error], 0, None, false);
    }
    assert JobInputs(ids, discovery.value, order, pages, stops);
    run := WriteDiscounts(ids, discovery.value, order, pages, stops);
  }

  /** The `with open(...)` block of discounts once the map is known: the header, the pool of
      package jobs, the drain loop, and p.close() when the drain loop does not raise. */
  method WriteDiscounts(ids: seq<nat>, packages: map<nat, nat>, order: seq<nat>, pages: seq<Page>,
                        stops: seq<seq<bool>>)
    returns (run: Run)
    requires JobInputs(ids, packages, order, pages, stops)
    ensures var jobs := Jobs(ids, packages, order, pages, stops);
            var drain := Drained(CompletionsOf(jobs), true);
      && run.fileOpened && run.total == |ids|
      && run.lines == DiscountsCsv(jobs)
      && run.updates == drain.updates
      && run.reports == (if drain.report.Some? then [drain.report.value] else [])
      && run.raised == (if drain.report.Some? then Some(StopException) else None)
      && run.closed == drain.report.None?
  {
    var writer := new DictWriter();
    writer.WriteHeader();
    var sink := new Sink();
    var completions := RunPackageJobs(ids, packages, order, pages, stops, writer);
    ghost var jobs := Jobs(ids, packages, order, pages, stops);
    assert writer.lines == DiscountsCsv(jobs);
    DrainedProcessed(CompletionsOf(jobs), true);
    var lines := writer.lines;
    var executor := new Executor([]);
    var raised := GetExecResults(completions, executor, sink, true);
    run := Run(true, lines, |ids|, sink.reports, sink.updates, raised, raised.None?);
  }
}
