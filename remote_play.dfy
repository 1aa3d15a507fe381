/** The remote-play exporter (moonlite/scrape/remote_play.py). Each app's page carries three
    graphs, each an `h2` followed by a script holding the graph's name, its labels and one
    dataset of (day, value) points per label. The graphs are merged into a `master` dictionary
    (day -> graph -> label -> value) that becomes one CSV row per day, in sorted day order. The
    page's period table becomes a second CSV of cleaned cell texts. The HTTP requests, the HTML
    parsing and the regular expressions are not modelled: each graph and the table arrive
    already extracted. */
module RemotePlay {
  import opened Wrappers
  import opened Errors
  import opened Text

  /** One data point of a dataset: `[day, value]`. */
  datatype Point = Point(day: string, value: int)

  /** A graph as GRAPH_NAMED_DATA and GRAPH_LABELS extract it. */
  datatype Graph = Graph(name: string, labels: seq<string>, datasets: seq<seq<Point>>)

  /** An `h2` of the page: whether its next sibling is a script, and the graph that script holds. */
  datatype H2 = H2(nextIsScript: bool, graph: Graph)

  /** Neither extraction pattern admits '.': the name is `\w+` and a label is `[\s\w()-]+`. */
  predicate Extracted(g: Graph)
  {
    '.' !in g.name && forall j :: 0 <= j < |g.labels| ==> '.' !in g.labels[j]
  }

  /** `{point[0]: point[1] for point in label}`: a later point for the same day wins. */
  function DatasetMap(points: seq<Point>): (m: map<string, int>)
    ensures forall d :: d in m <==> exists i :: 0 <= i < |points| && points[i].day == d
  {
    if |points| == 0 then map[]
    else
      var init := points[..|points| - 1];
      var last := points[|points| - 1];
      assert forall i :: 0 <= i < |init| ==> init[i] == points[i];
      DatasetMap(init)[last.day := last.value]
  }

  /** The dataset's value for a day is that of the day's last point. */
  lemma {:induction false} DatasetMapLastPoint(points: seq<Point>, i: nat)
    requires i < |points|
    requires forall j :: i < j < |points| ==> points[j].day != points[i].day
    ensures DatasetMap(points)[points[i].day] == points[i].value
  {
    if i < |points| - 1 {
      var init := points[..|points| - 1];
      DatasetMapLastPoint(init, i);
    }
  }

  /** `zip(graph_labels, graph['data'])` stops at the shorter list. */
  function PairCount(g: Graph): (n: nat)
    ensures n <= |g.labels| && n <= |g.datasets|
    ensures n == |g.labels| || n == |g.datasets|
  {
    if |g.labels| <= |g.datasets| then |g.labels| else |g.datasets|
  }

  /** One (graph, label, dataset) triple of the merge. */
  datatype Entry = Entry(graph: string, series: string, data: map<string, int>)

  /** A graph's zipped (label, dataset) pairs, in page order. */
  function GraphEntries(g: Graph): (es: seq<Entry>)
    ensures |es| == PairCount(g)
    ensures forall k :: 0 <= k < |es| ==> es[k] == Entry(g.name, g.labels[k], DatasetMap(g.datasets[k]))
  {
    seq(PairCount(g), k requires 0 <= k < PairCount(g) => Entry(g.name, g.labels[k], DatasetMap(g.datasets[k])))
  }

  /** Every graph's pairs, in page order. */
  function Entries(graphs: seq<Graph>): seq<Entry>
  {
    if |graphs| == 0 then []
    else Entries(graphs[..|graphs| - 1]) + GraphEntries(graphs[|graphs| - 1])
  }

  /** The reference reading of the merge: the value of the last entry for graph `g` and label
      `l` whose dataset has day `d`. */
  function LastIn(es: seq<Entry>, d: string, g: string, l: string): Option<int>
  {
    if |es| == 0 then None
    else
      var e := es[|es| - 1];
      if e.graph == g && e.series == l && d in e.data then Some(e.data[d])
      else LastIn(es[..|es| - 1], d, g, l)
  }

  /** Every day of some entries' datasets. */
  function DaysOf(es: seq<Entry>): set<string>
  {
    if |es| == 0 then {} else DaysOf(es[..|es| - 1]) + es[|es| - 1].data.Keys
  }

  lemma LastInAppend(es: seq<Entry>, e: Entry)
    ensures forall d, g, l :: (LastIn(es + [e], d, g, l) ==
      (if e.graph == g && e.series == l && d in e.data then Some(e.data[d]) else LastIn(es, d, g, l)))
    ensures DaysOf(es + [e]) == DaysOf(es) + e.data.Keys
  {
    assert (es + [e])[..|es|] == es;
  }

  /** The `master` dictionary: day -> graph name -> label -> value. */
  type Master = map<string, map<string, map<string, int>>>

  /** `master[d][g][l]`, if present. */
  function Get(master: Master, d: string, g: string, l: string): Option<int>
  {
    if d in master && g in master[d] && l in master[d][g] then Some(master[d][g][l]) else None
  }

  /** One write into `master`: create the day's dictionary with an empty one for the graph, or
      the graph's empty dictionary, as needed, then set the label's value. */
  function Put(master: Master, d: string, g: string, l: string, v: int): Master
  {
    var byGraph := if d !in master then map[g := map[]] else if g !in master[d] then master[d][g := map[]] else master[d];
    master[d := byGraph[g := byGraph[g][l := v]]]
  }

  /** A write sets exactly its own (day, graph, label) and adds only its day. */
  lemma PutGet(master: Master, d: string, g: string, l: string, v: int)
    ensures forall d', g', l' :: (Get(Put(master, d, g, l, v), d', g', l') ==
      (if d' == d && g' == g && l' == l then Some(v) else Get(master, d', g', l')))
    ensures Put(master, d, g, l, v).Keys == master.Keys + {d}
  {
  }

  predicate NoDuplicates<T(==)>(s: seq<T>)
  {
    forall a, b :: 0 <= a < b < |s| ==> s[a] != s[b]
  }

  /** `master` after merging the entries `es`; `days` are its keys in insertion order. */
  ghost predicate MergedAs(master: Master, days: seq<string>, es: seq<Entry>)
  {
    && (forall d, g, l :: Get(master, d, g, l) == LastIn(es, d, g, l))
    && master.Keys == DaysOf(es)
    && NoDuplicates(days)
    && (forall d :: d in days <==> d in master)
  }

  /** The innermost loop: every day of one zipped dataset written under its graph and label. */
  method MergeDataset(master: Master, days: seq<string>, name: string, series: string, data: map<string, int>, ghost es: seq<Entry>)
    returns (master': Master, days': seq<string>)
    requires MergedAs(master, days, es)
    ensures MergedAs(master', days', es + [Entry(name, series, data)])
  {
    master', days' := master, days;
    var remaining := data.Keys;
    while remaining != {}
      invariant remaining <= data.Keys
      invariant forall d, g, l :: (Get(master', d, g, l) ==
        (if g == name && l == series && d in data && d !in remaining then Some(data[d]) else LastIn(es, d, g, l)))
      invariant master'.Keys == DaysOf(es) + (data.Keys - remaining)
      invariant NoDuplicates(days') && forall d :: d in days' <==> d in master'
      decreases remaining
    {
      var d :| d in remaining;
      if d !in master' {
        days' := days' + [d];
      }
      PutGet(master', d, name, series, data[d]);
      master' := Put(master', d, name, series, data[d]);
      remaining := remaining - {d};
    }
    LastInAppend(es, Entry(name, series, data));
  }

  /** The middle loop: the graph's zipped (label, dataset) pairs, in order. */
  method MergeGraph(master: Master, days: seq<string>, g: Graph, ghost es: seq<Entry>)
    returns (master': Master, days': seq<string>)
    requires MergedAs(master, days, es)
    ensures MergedAs(master', days', es + GraphEntries(g))
  {
    master', days' := master, days;
    var entries := GraphEntries(g);
    assert es + entries[..0] == es;
    for k := 0 to PairCount(g)
      invariant MergedAs(master', days', es + entries[..k])
    {
      assert es + entries[..k + 1] == (es + entries[..k]) + [entries[k]];
      master', days' := MergeDataset(master', days', g.name, g.labels[k], DatasetMap(g.datasets[k]), es + entries[..k]);
    }
    assert entries[..PairCount(g)] == entries;
  }

  /** The headers a graph contributes: `name.label` for every label, zipped or not. */
  function GraphHeaders(g: Graph): (hs: seq<string>)
    ensures |hs| == |g.labels|
    ensures forall j :: 0 <= j < |hs| ==> hs[j] == g.name + "." + g.labels[j]
  {
    seq(|g.labels|, j requires 0 <= j < |g.labels| => g.name + "." + g.labels[j])
  }

  /** Every graph's headers, in page order. */
  function HeaderCells(graphs: seq<Graph>): seq<string>
  {
    if |graphs| == 0 then [] else HeaderCells(graphs[..|graphs| - 1]) + GraphHeaders(graphs[|graphs| - 1])
  }

  /** The graphs of some h2s. */
  function Graphs(h2s: seq<H2>): (gs: seq<Graph>)
    ensures |gs| == |h2s| && forall j :: 0 <= j < |h2s| ==> gs[j] == h2s[j].graph
  {
    seq(|h2s|, j requires 0 <= j < |h2s| => h2s[j].graph)
  }

  /** The merged graphs of one page: `master`, its days in insertion order, and the headers. */
  datatype Merge = Merge(master: Master, days: seq<string>, headers: seq<string>)

  /** Lines 57-85: exactly three h2s, each followed by a script, or an AssertionError; then every
      graph's headers are appended and its zipped datasets written into `master`. */
  method MergePage(h2s: seq<H2>) returns (r: Result<Merge, Exc>)
    ensures (|h2s| != 3 || exists j :: 0 <= j < |h2s| && !h2s[j].nextIsScript) <==> r.Failure?
    ensures r.Failure? ==> r.error == AssertionError
    ensures r.Success? ==>
      && MergedAs(r.value.master, r.value.days, Entries(Graphs(h2s)))
      && r.value.headers == ["Date"] + HeaderCells(Graphs(h2s))
  {
    if |h2s| != 3 {
      return Failure(AssertionError);
    }
    r := MergeGraphs(h2s);
  }

  /** The loop over the h2s, each checked for its script before its graph is merged. */
  method MergeGraphs(h2s: seq<H2>) returns (r: Result<Merge, Exc>)
    ensures (exists j :: 0 <= j < |h2s| && !h2s[j].nextIsScript) <==> r.Failure?
    ensures r.Failure? ==> r.error == AssertionError
    ensures r.Success? ==>
      && MergedAs(r.value.master, r.value.days, Entries(Graphs(h2s)))
      && r.value.headers == ["Date"] + HeaderCells(Graphs(h2s))
  {
    var master: Master := map[];
    var days: seq<string> := [];
    var headers := ["Date"];
    ghost var done: seq<Graph> := [];
    for i := 0 to |h2s|
      invariant |done| == i && forall j :: 0 <= j < i ==> done[j] == h2s[j].graph
      invariant MergedAs(master, days, Entries(done))
      invariant headers == ["Date"] + HeaderCells(done)
      invariant forall j :: 0 <= j < i ==> h2s[j].nextIsScript
    {
      if !h2s[i].nextIsScript {
        assert 0 <= i < |h2s| && !h2s[i].nextIsScript;
        return Failure(AssertionError);
      }
      var g := h2s[i].graph;
      master, days, headers := MergeNext(master, days, headers, g, done);
      done := done + [g];
    }
    assert done == Graphs(h2s);
    assert !exists j :: 0 <= j < |h2s| && !h2s[j].nextIsScript;
    return Success(Merge(master, days, headers));
  }

  /** The body of the h2 loop once the script is found: the graph's headers are appended and
      its datasets merged. */
  method MergeNext(master: Master, days: seq<string>, headers: seq<string>, g: Graph, ghost done: seq<Graph>)
    returns (master': Master, days': seq<string>, headers': seq<string>)
    requires MergedAs(master, days, Entries(done)) && headers == ["Date"] + HeaderCells(done)
    ensures MergedAs(master', days', Entries(done + [g])) && headers' == ["Date"] + HeaderCells(done + [g])
  {
    EntriesSnoc(done, g);
    headers' := headers + GraphHeaders(g);
    assert headers' == ["Date"] + (HeaderCells(done) + GraphHeaders(g));
    ghost var es := Entries(done);
    master', days' := MergeGraph(master, days, g, es);
  }

  lemma EntriesSnoc(graphs: seq<Graph>, g: Graph)
    ensures Entries(graphs + [g]) == Entries(graphs) + GraphEntries(g)
    ensures HeaderCells(graphs + [g]) == HeaderCells(graphs) + GraphHeaders(g)
  {
    assert (graphs + [g])[..|graphs|] == graphs;
  }

  /** A graph's header splits back into its name and label. */
  lemma HeaderSplits(name: string, series: string)
    requires '.' !in name && '.' !in series
    ensures Split(name + "." + series, '.') == [name, series]
  {
    SplitWithoutSeparator(name, '.');
    SplitAppend(name, '.', series);
    assert name + "." + series == name + ['.'] + series;
  }

  /** Every label of every graph has a header, and no graph header is "Date". */
  lemma {:induction false} HeaderCellsCount(graphs: seq<Graph>)
    ensures |HeaderCells(graphs)| == LabelCount(graphs)
  {
    if |graphs| > 0 {
      HeaderCellsCount(graphs[..|graphs| - 1]);
    }
  }

  function LabelCount(graphs: seq<Graph>): nat
  {
    if |graphs| == 0 then 0 else LabelCount(graphs[..|graphs| - 1]) + |graphs[|graphs| - 1].labels|
  }

  /** Every header after "Date" names a graph and one of its labels, in page order. */
  lemma {:induction false} HeaderCellsNamed(graphs: seq<Graph>, h: nat)
    requires h < |HeaderCells(graphs)|
    ensures exists i, j ::
      && 0 <= i < |graphs| && 0 <= j < |graphs[i].labels|
      && HeaderCells(graphs)[h] == graphs[i].name + "." + graphs[i].labels[j]
  {
    var init := graphs[..|graphs| - 1];
    var last := graphs[|graphs| - 1];
    if h < |HeaderCells(init)| {
      HeaderCellsNamed(init, h);
      var i, j :| 0 <= i < |init| && 0 <= j < |init[i].labels|
        && HeaderCells(init)[h] == init[i].name + "." + init[i].labels[j];
      assert graphs[i] == init[i];
    } else {
      var j := h - |HeaderCells(init)|;
      assert HeaderCells(graphs)[h] == last.name + "." + last.labels[j];
    }
  }

  /** Python's `<` on strings: code point by code point, a proper prefix first. */
  predicate StrLess(a: string, b: string)
  {
    if |a| == 0 then |b| > 0
    else if |b| == 0 then false
    else if a[0] != b[0] then a[0] < b[0]
    else StrLess(a[1..], b[1..])
  }

  lemma {:induction false} StrLessIrreflexive(a: string)
    ensures !StrLess(a, a)
  {
    if |a| > 0 {
      StrLessIrreflexive(a[1..]);
    }
  }

  lemma {:induction false} StrLessTransitive(a: string, b: string, c: string)
    requires StrLess(a, b) && StrLess(b, c)
    ensures StrLess(a, c)
  {
    if |a| > 0 && |b| > 0 && |c| > 0 && a[0] == b[0] && b[0] == c[0] {
      StrLessTransitive(a[1..], b[1..], c[1..]);
    }
  }

  lemma {:induction false} StrLessTotal(a: string, b: string)
    requires a != b
    ensures StrLess(a, b) || StrLess(b, a)
  {
    if |a| > 0 && |b| > 0 && a[0] == b[0] {
      assert a == [a[0]] + a[1..] && b == [b[0]] + b[1..];
      StrLessTotal(a[1..], b[1..]);
    }
  }

  /** Strictly ascending, hence without repeats. */
  predicate Ascending(s: seq<string>)
  {
    forall i, j :: 0 <= i < j < |s| ==> StrLess(s[i], s[j])
  }

  /** Places `x` in an ascending sequence. */
  function Insert(s: seq<string>, x: string): seq<string>
  {
    if |s| == 0 then [x]
    else if StrLess(x, s[0]) then [x] + s
    else [s[0]] + Insert(s[1..], x)
  }

  lemma {:induction false} InsertAscending(s: seq<string>, x: string)
    requires Ascending(s) && x !in s
    ensures Ascending(Insert(s, x))
    ensures forall y :: y in Insert(s, x) <==> y in s || y == x
    ensures |Insert(s, x)| == |s| + 1
  {
    if |s| > 0 {
      if StrLess(x, s[0]) {
        forall j | 0 < j < |s|
          ensures StrLess(x, s[j])
        {
          StrLessTransitive(x, s[0], s[j]);
        }
        var r := [x] + s;
        forall i, j | 0 <= i < j < |r|
          ensures StrLess(r[i], r[j])
        {
          if i > 0 {
            assert r[i] == s[i - 1] && r[j] == s[j - 1];
          }
        }
      } else {
        StrLessTotal(x, s[0]);
        assert Ascending(s[1..]) by {
          forall i, j | 0 <= i < j < |s[1..]|
            ensures StrLess(s[1..][i], s[1..][j])
          {
            assert s[1..][i] == s[i + 1] && s[1..][j] == s[j + 1];
          }
        }
        InsertAscending(s[1..], x);
        var t := Insert(s[1..], x);
        var r := [s[0]] + t;
        forall j | 0 <= j < |t|
          ensures StrLess(s[0], t[j])
        {
          assert t[j] in t;
          if t[j] != x {
            var k :| 0 <= k < |s[1..]| && s[1..][k] == t[j];
            assert s[k + 1] == t[j];
          }
        }
        forall i, j | 0 <= i < j < |r|
          ensures StrLess(r[i], r[j])
        {
          if i > 0 {
            assert r[i] == t[i - 1] && r[j] == t[j - 1];
          } else {
            assert r[j] == t[j - 1];
          }
        }
        assert forall y :: y in s <==> y == s[0] || y in s[1..];
      }
    }
  }

  /** `sorted(master.keys())`, taking the keys in insertion order. */
  function Sorted(days: seq<string>): seq<string>
  {
    if |days| == 0 then [] else Insert(Sorted(days[..|days| - 1]), days[|days| - 1])
  }

  /** Sorting distinct days lists each exactly once, ascending. */
  lemma {:induction false} SortedDays(days: seq<string>)
    requires NoDuplicates(days)
    ensures Ascending(Sorted(days))
    ensures |Sorted(days)| == |days|
    ensures forall d :: d in Sorted(days) <==> d in days
  {
    if |days| > 0 {
      var init := days[..|days| - 1];
      var last := days[|days| - 1];
      SortedDays(init);
      assert forall d :: d in days <==> d in init || d == last;
      InsertAscending(Sorted(init), last);
    }
  }

  /** A cell of the graph CSV: the day, or a count. */
  datatype Cell = DayCell(day: string) | Count(value: int)

  /** The row dictionary's entry for one header: the day under "Date", otherwise
      `master[day].get(graph, {}).get(label, 0)` with (graph, label) the header split on '.'. */
  function RowCell(master: Master, day: string, header: string): Result<Cell, Exc>
  {
    if header == "Date" then Success(DayCell(day))
    else
      var hs := Split(header, '.');
      if |hs| < 2 then Failure(IndexError)
      else
        var v := Get(master, day, hs[0], hs[1]);
        Success(Count(if v.Some? then v.value else 0))
  }

  /** One CSV row per day: the header's cells in header order, or the first failing cell. */
  function Row(master: Master, day: string, headers: seq<string>): Result<seq<Cell>, Exc>
  {
    if |headers| == 0 then Success([])
    else
      match Row(master, day, headers[..|headers| - 1])
      case Failure(e) => Failure(e)
      case Success(init) =>
        match RowCell(master, day, headers[|headers| - 1])
        case Failure(e) => Failure(e)
        case Success(c) => Success(init + [c])
  }

  /** The graph CSV's rows, one per day in the given order. */
  function Rows(master: Master, days: seq<string>, headers: seq<string>): Result<seq<seq<Cell>>, Exc>
  {
    if |days| == 0 then Success([])
    else
      match Rows(master, days[..|days| - 1], headers)
      case Failure(e) => Failure(e)
      case Success(init) =>
        match Row(master, days[|days| - 1], headers)
        case Failure(e) => Failure(e)
        case Success(row) => Success(init + [row])
  }

  /** With headers that are "Date" or a dotted pair, a row is the day followed by every header's
      value, 0 where the day has none. */
  lemma {:induction false} RowOfHeaders(master: Master, day: string, headers: seq<string>)
    requires forall h :: 0 <= h < |headers| ==> headers[h] == "Date" || |Split(headers[h], '.')| >= 2
    ensures Row(master, day, headers).Success?
    ensures var row := Row(master, day, headers).value;
      && |row| == |headers|
      && forall h :: 0 <= h < |headers| ==> Success(row[h]) == RowCell(master, day, headers[h])
  {
    if |headers| > 0 {
      RowOfHeaders(master, day, headers[..|headers| - 1]);
    }
  }

  lemma {:induction false} RowsOfHeaders(master: Master, days: seq<string>, headers: seq<string>)
    requires forall h :: 0 <= h < |headers| ==> headers[h] == "Date" || |Split(headers[h], '.')| >= 2
    ensures Rows(master, days, headers).Success?
    ensures var rows := Rows(master, days, headers).value;
      && |rows| == |days|
      && forall k :: 0 <= k < |days| ==> Success(rows[k]) == Row(master, days[k], headers)
  {
    if |days| > 0 {
      RowsOfHeaders(master, days[..|days| - 1], headers);
      RowOfHeaders(master, days[|days| - 1], headers);
    }
  }

  /** The graph CSV of a merged page: one row per day of `master`, ascending and each once, and
      in each row the cell under `graph.label` is the last value merged for that day, graph and
      label, or 0. */
  lemma GraphCsv(h2s: seq<H2>, m: Merge)
    requires forall j :: 0 <= j < |h2s| ==> Extracted(h2s[j].graph)
    requires MergedAs(m.master, m.days, Entries(Graphs(h2s)))
    requires m.headers == ["Date"] + HeaderCells(Graphs(h2s))
    ensures Rows(m.master, Sorted(m.days), m.headers).Success?
    ensures var days := Sorted(m.days);
      var rows := Rows(m.master, days, m.headers).value;
      && Ascending(days)
      && (forall d :: d in days <==> d in DaysOf(Entries(Graphs(h2s))))
      && |rows| == |days|
      && (forall k :: 0 <= k < |rows| ==> |rows[k]| == |m.headers| && rows[k][0] == DayCell(days[k]))
      && (forall k, h, name, series ::
            0 <= k < |rows| && 0 < h < |m.headers| && m.headers[h] == name + "." + series
            && '.' !in name && '.' !in series ==>
            rows[k][h] == ValueOrZero(LastIn(Entries(Graphs(h2s)), days[k], name, series)))
  {
    var graphs := Graphs(h2s);
    HeadersDotted(graphs);
    SortedDays(m.days);
    var days := Sorted(m.days);
    RowsOfHeaders(m.master, days, m.headers);
    var rows := Rows(m.master, days, m.headers).value;
    forall k | 0 <= k < |rows|
      ensures |rows[k]| == |m.headers| && rows[k][0] == DayCell(days[k])
    {
      RowOfHeaders(m.master, days[k], m.headers);
    }
    forall k, h, name, series |
      0 <= k < |rows| && 0 < h < |m.headers| && m.headers[h] == name + "." + series
      && '.' !in name && '.' !in series
      ensures rows[k][h] == ValueOrZero(LastIn(Entries(graphs), days[k], name, series))
    {
      CellOfPair(m.master, days[k], m.headers, h, name, series);
      assert Get(m.master, days[k], name, series) == LastIn(Entries(graphs), days[k], name, series);
    }
  }

  /** The cell under a `name.series` header holds `master[day][name][series]`, or 0. */
  lemma CellOfPair(master: Master, day: string, headers: seq<string>, h: nat, name: string, series: string)
    requires forall i :: 0 <= i < |headers| ==> headers[i] == "Date" || |Split(headers[i], '.')| >= 2
    requires h < |headers| && headers[h] == name + "." + series
    requires '.' !in name && '.' !in series
    ensures Row(master, day, headers).Success?
    ensures var row := Row(master, day, headers).value;
      h < |row| && row[h] == ValueOrZero(Get(master, day, name, series))
  {
    RowOfHeaders(master, day, headers);
    HeaderSplits(name, series);
    assert headers[h][|name|] == '.';
    assert headers[h] != "Date";
  }

  /** The count written for an optional value: the value, or 0 when absent. */
  function ValueOrZero(v: Option<int>): Cell
  {
    Count(if v.Some? then v.value else 0)
  }

  /** Every header of a page with extracted graphs is "Date" or a graph name and label. */
  lemma HeadersDotted(graphs: seq<Graph>)
    requires forall i :: 0 <= i < |graphs| ==> Extracted(graphs[i])
    ensures var headers := ["Date"] + HeaderCells(graphs);
      forall h :: 0 <= h < |headers| ==> headers[h] == "Date" || |Split(headers[h], '.')| >= 2
  {
    var headers := ["Date"] + HeaderCells(graphs);
    forall h | 0 < h < |headers|
      ensures |Split(headers[h], '.')| >= 2
    {
      HeaderCellsNamed(graphs, h - 1);
      var i, j :| 0 <= i < |graphs| && 0 <= j < |graphs[i].labels|
        && HeaderCells(graphs)[h - 1] == graphs[i].name + "." + graphs[i].labels[j];
      HeaderSplits(graphs[i].name, graphs[i].labels[j]);
    }
  }

  /** The text before the first "(?)", the whole text when there is none. */
  function BeforeMarker(s: string): (r: string)
    ensures |r| <= |s| && r == s[..|r|]
    ensures forall i :: 0 <= i < |r| ==> !StartsWith(r[i..], "(?)")
    ensures |r| < |s| ==> StartsWith(s[|r|..], "(?)")
  {
    if |s| == 0 then ""
    else if StartsWith(s, "(?)") then ""
    else
      var rest := BeforeMarker(s[1..]);
      PatternFreeCons(s, rest, "(?)");
      [s[0]] + rest
  }

  /** A first character that does not start the pattern, before a pattern-free prefix of the
      rest that stops only at the pattern, gives such a prefix of the whole text. */
  lemma PatternFreeCons(s: string, rest: string, pattern: string)
    requires |s| > 0 && !StartsWith(s, pattern)
    requires |rest| <= |s| - 1 && rest == s[1..][..|rest|]
    requires forall i :: 0 <= i < |rest| ==> !StartsWith(rest[i..], pattern)
    requires |rest| < |s| - 1 ==> StartsWith(s[1..][|rest|..], pattern)
    ensures var r := [s[0]] + rest;
      && |r| <= |s| && r == s[..|r|]
      && (forall i :: 0 <= i < |r| ==> !StartsWith(r[i..], pattern))
      && (|r| < |s| ==> StartsWith(s[|r|..], pattern))
  {
    var r := [s[0]] + rest;
    assert r == s[..|r|];
    assert s[|r|..] == s[1..][|rest|..];
    forall i | 0 <= i < |r|
      ensures !StartsWith(r[i..], pattern)
    {
      if i == 0 {
        if |pattern| <= |r| {
          assert r[..|pattern|] == s[..|pattern|];
        }
      } else {
        assert r[i..] == rest[i - 1..];
      }
    }
  }

  /** `td.get_text().split('(?)')[0].strip().replace('&nbsp', '')`. */
  function CleanCell(text: string): (c: string)
    ensures |c| <= |text|
  {
    Replace(Strip(BeforeMarker(text)), "&nbsp", "")
  }

  lemma StripUnchanged(s: string)
    requires |s| == 0 || (!IsSpace(s[0]) && !IsSpace(s[|s| - 1]))
    ensures Strip(s) == s
  {
  }

  /** A cell that is already tidy (no marker, no "&nbsp", nothing to strip) is kept as it is. */
  lemma CleanCellTidy(text: string)
    requires forall i :: 0 <= i < |text| ==> !StartsWith(text[i..], "(?)") && !StartsWith(text[i..], "&nbsp")
    requires |text| == 0 || (!IsSpace(text[0]) && !IsSpace(text[|text| - 1]))
    ensures CleanCell(text) == text
  {
    assert BeforeMarker(text) == text;
    StripUnchanged(text);
    ReplaceAbsent(text, "&nbsp", "");
  }

  predicate Blank(text: string)
  {
    Strip(text) == ""
  }

  /** `[clean(td) for td in row.find_all("td") if td.get_text().strip()]`. */
  function CleanRow(cells: seq<string>): (r: seq<string>)
    ensures |r| <= |cells|
  {
    if |cells| == 0 then []
    else
      CleanRow(cells[..|cells| - 1])
        + (if Blank(cells[|cells| - 1]) then [] else [CleanCell(cells[|cells| - 1])])
  }

  /** Blank cells are skipped and every other cell is kept, cleaned, in order. */
  lemma {:induction false} CleanRowOfFilled(cells: seq<string>)
    ensures |CleanRow(cells)| == |Filled(cells)|
    ensures forall i :: 0 <= i < |Filled(cells)| ==> CleanRow(cells)[i] == CleanCell(Filled(cells)[i])
  {
    if |cells| > 0 {
      CleanRowOfFilled(cells[..|cells| - 1]);
    }
  }

  /** The table CSV: a header row of "Metrics" and the first row's non-blank texts, then every
      later row cleaned. */
  datatype TableCsv = TableCsv(header: seq<string>, rows: seq<seq<string>>)

  /** Lines 107-118: `None` stands for a page without the period table; a table without any row
      fails as well (`find` returns None and its attribute lookup raises). */
  function MakeTable(table: Option<seq<seq<string>>>): (r: Result<TableCsv, Exc>)
    ensures r.Failure? <==> table.None? || |table.value| == 0
    ensures r.Failure? ==> r.error == AttributeError
    ensures r.Success? ==> |r.value.rows| == |table.value| - 1
  {
    if table.None? || |table.value| == 0 then Failure(AttributeError)
    else
      var rows := table.value;
      Success(TableCsv(["Metrics"] + Filled(rows[0]), CleanRows(rows[1..])))
  }

  /** Every row after the first, cleaned. */
  function CleanRows(rows: seq<seq<string>>): (r: seq<seq<string>>)
    ensures |r| == |rows|
  {
    seq(|rows|, k requires 0 <= k < |rows| => CleanRow(rows[k]))
  }

  /** The non-blank texts, uncleaned, in order. */
  function Filled(cells: seq<string>): (r: seq<string>)
    ensures forall i :: 0 <= i < |r| ==> !Blank(r[i])
    ensures forall t :: t in r ==> t in cells
  {
    if |cells| == 0 then []
    else
      var init := cells[..|cells| - 1];
      var last := cells[|cells| - 1];
      assert forall t :: t in init ==> t in cells;
      Filled(init) + (if Blank(last) then [] else [last])
  }

  /** A CSV file written for an app: the graph CSV or the table CSV. */
  datatype CsvFile = GraphFile(headers: seq<string>, rows: seq<seq<Cell>>) | TableFile(table: TableCsv)

  /** What the export of one app page does: the files it writes and the exception it ends with. */
  ghost predicate Exported(h2s: seq<H2>, table: Option<seq<seq<string>>>, files: seq<CsvFile>, raised: Option<Exc>)
  {
    if |h2s| != 3 || exists j :: 0 <= j < |h2s| && !h2s[j].nextIsScript then
      files == [] && raised == Some(AssertionError)
    else if forall j :: 0 <= j < |h2s| ==> Extracted(h2s[j].graph) then
      && |files| >= 1
      && files[0].GraphFile?
      && files[0].headers == ["Date"] + HeaderCells(Graphs(h2s))
      && (exists m: Merge ::
            && MergedAs(m.master, m.days, Entries(Graphs(h2s)))
            && m.headers == files[0].headers
            && Rows(m.master, Sorted(m.days), m.headers) == Success(files[0].rows))
      && match MakeTable(table)
         case Success(t) => files == [files[0], TableFile(t)] && raised.None?
         case Failure(e) => |files| == 1 && raised == Some(e)
    else
      raised.Some? ==> |files| <= 1
  }

  /** One app of remote_play: merge the graphs, write the graph CSV (one row per sorted day),
      then the table CSV; the first exception raised ends the export. */
  method ExportApp(h2s: seq<H2>, table: Option<seq<seq<string>>>) returns (files: seq<CsvFile>, raised: Option<Exc>)
    ensures Exported(h2s, table, files, raised)
  {
    var merged := MergePage(h2s);
    if merged.Failure? {
      return [], Some(merged.error);
    }
    var m := merged.value;
    if forall j :: 0 <= j < |h2s| ==> Extracted(h2s[j].graph) {
      GraphCsv(h2s, m);
    }
    var rows := Rows(m.master, Sorted(m.days), m.headers);
    if rows.Failure? {
      return [], Some(rows.error);
    }
    files := [GraphFile(m.headers, rows.value)];
    var t := MakeTable(table);
    if t.Failure? {
      return files, Some(t.error);
    }
    return files + [TableFile(t.value)], None;
  }

  /** remote_play over the apps: `apps` is the outcome of getting the cookies and the app list
      (a failure is printed and ends the call quietly), `pages[i]` the parsed page of the `i`-th
      app. Apps are exported in order; an exception raised by one app ends the whole call. */
  method RemotePlayRun(apps: Result<seq<nat>, Exc>, pages: seq<(seq<H2>, Option<seq<seq<string>>>)>)
    returns (exported: seq<seq<CsvFile>>, raised: Option<Exc>)
    requires apps.Success? ==> |pages| == |apps.value|
    ensures apps.Failure? ==> exported == [] && raised.None?
    ensures apps.Success? ==>
      && |exported| <= |pages|
      && (raised.None? ==> |exported| == |pages|) && (|exported| < |pages| ==> raised.Some?)
      && (forall i :: 0 <= i < |exported| - 1 ==> Exported(pages[i].0, pages[i].1, exported[i], None))
      && (|exported| > 0 ==> Exported(pages[|exported| - 1].0, pages[|exported| - 1].1, exported[|exported| - 1], raised))
  {
    exported := [];
    raised := None;
    if apps.Failure? {
      return;
    }
    var i := 0;
    while i < |pages|
      invariant 0 <= i <= |pages| && |exported| == i
      invariant forall j :: 0 <= j < i ==> Exported(pages[j].0, pages[j].1, exported[j], None)
    {
      var files, r := ExportApp(pages[i].0, pages[i].1);
      exported := exported + [files];
      if r.Some? {
        return exported, r;
      }
      i := i + 1;
    }
  }
}
