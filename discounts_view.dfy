/** The discount scraper's window (discounts.py): the pretty column titles HEADER_PRETTY and
    HEADERS_PRETTY, the per-column display formats HEADER_FORMAT of the results table, the Save
    button's CSV writer and the refill of the table when a scrape ends. Widgets and dialogs are
    left out; the written file is returned as its sequence of lines. */
module DiscountsView {
  import opened Wrappers
  import opened Errors
  import opened Text
  import opened TimeUtil
  import Discounts

  /** `h.capitalize()` on ASCII: the first character upper-cased, the rest lower-cased. */
  function Capitalize(h: string): (r: string)
    ensures |r| == |h|
  {
    if |h| == 0 then "" else [ToUpper(h[0])] + Lower(h[1..])
  }

  /** One `_`-separated part of a header name as HEADER_PRETTY prints it. */
  function PrettyPart(h: string): (r: string)
    ensures |r| == |h|
  {
    if h == "id" then Upper(h) else Capitalize(h)
  }

  function PrettyParts(parts: seq<string>): seq<string>
  {
    seq(|parts|, k requires 0 <= k < |parts| => PrettyPart(parts[k]))
  }

  /** HEADER_PRETTY: the parts between underscores, re-cased, joined by spaces. */
  function HeaderPretty(header: string): string
  {
    Join(PrettyParts(Split(header, '_')), ' ')
  }

  /** Two strings that differ at most in the case of ASCII letters. */
  predicate SameLetters(a: string, b: string)
  {
    |a| == |b| && forall i :: 0 <= i < |a| ==> ToLower(a[i]) == ToLower(b[i])
  }

  /** `pretty` is `header` with every `_` turned into a space and its letters possibly re-cased. */
  predicate Prettied(header: string, pretty: string)
  {
    |pretty| == |header|
    && forall i :: 0 <= i < |header| ==>
         if header[i] == '_' then pretty[i] == ' ' else ToLower(pretty[i]) == ToLower(header[i])
  }

  /** A part is re-cased, never otherwise changed: `id` becomes `ID`, any other part keeps its
      letters with only the first one upper-cased. */
  lemma PrettyPartCases(h: string)
    ensures SameLetters(PrettyPart(h), h)
    ensures h == "id" ==> PrettyPart(h) == "ID"
    ensures h != "id" && |h| > 0 ==> PrettyPart(h)[0] == ToUpper(h[0])
    ensures h != "id" ==> forall i :: 1 <= i < |h| ==> PrettyPart(h)[i] == ToLower(h[i])
  {
    var r := PrettyPart(h);
    if h == "id" {
      assert r == Upper(h);
      assert r[0] == 'I' && r[1] == 'D';
      assert r == "ID";
    } else if |h| > 0 {
      var rest := Lower(h[1..]);
      assert r == [ToUpper(h[0])] + rest;
      forall i | 1 <= i < |h|
        ensures r[i] == ToLower(h[i])
      {
        assert r[i] == rest[i - 1];
      }
    }
    forall i | 0 <= i < |h|
      ensures ToLower(r[i]) == ToLower(h[i])
    {
      LowerOfCases(h[i]);
    }
  }

  /** Lower-casing forgets any earlier re-casing. */
  lemma LowerOfCases(c: char)
    ensures ToLower(ToUpper(c)) == ToLower(c) && ToLower(ToLower(c)) == ToLower(c)
  {
  }

  lemma {:induction false} JoinPrettied(parts: seq<string>, pretty: seq<string>)
    requires |parts| == |pretty|
    requires forall k :: 0 <= k < |parts| ==> '_' !in parts[k] && SameLetters(pretty[k], parts[k])
    ensures Prettied(Join(parts, '_'), Join(pretty, ' '))
  {
    if |parts| > 1 {
      var n := |parts| - 1;
      JoinPrettied(parts[..n], pretty[..n]);
      var a, b := Join(parts[..n], '_'), Join(pretty[..n], ' ');
      assert Join(parts, '_') == a + ['_'] + parts[n];
      assert Join(pretty, ' ') == b + [' '] + pretty[n];
      assert '_' !in parts[n];
    }
  }

  /** HEADER_PRETTY keeps the length, puts a space exactly where the name has `_`, and changes
      every other character at most in case. */
  lemma HeaderPrettyPrettied(header: string)
    ensures Prettied(header, HeaderPretty(header))
  {
    var parts := Split(header, '_');
    forall k | 0 <= k < |parts|
      ensures '_' !in parts[k] && SameLetters(PrettyParts(parts)[k], parts[k])
    {
      PrettyPartCases(parts[k]);
    }
    JoinPrettied(parts, PrettyParts(parts));
    JoinSplit(header, '_');
  }

  /** For a name without spaces the spaces of the title are exactly its underscores. */
  lemma HeaderPrettySpaces(header: string)
    requires ' ' !in header
    ensures |HeaderPretty(header)| == |header|
    ensures forall i :: 0 <= i < |header| ==> (HeaderPretty(header)[i] == ' ' <==> header[i] == '_')
  {
    HeaderPrettyPrettied(header);
  }

  /** For a name without spaces, splitting the title on spaces gives back the re-cased parts. */
  lemma HeaderPrettyParts(header: string)
    requires ' ' !in header
    ensures Split(HeaderPretty(header), ' ') == PrettyParts(Split(header, '_'))
  {
    var parts := Split(header, '_');
    forall k | 0 <= k < |parts|
      ensures ' ' !in PrettyParts(parts)[k]
    {
      PrettyPartCases(parts[k]);
      JoinSplit(header, '_');
      assert forall c :: c in parts[k] ==> c in header by {
        SplitPartChars(header, '_', k);
      }
    }
    SplitJoin(PrettyParts(parts), ' ');
  }

  /** A header name of the scraper: lower-case ASCII letters and underscores. */
  predicate SnakeName(header: string)
  {
    forall i :: 0 <= i < |header| ==> 'a' <= header[i] <= 'z' || header[i] == '_'
  }

  /** Lower-casing a title and turning its spaces back into underscores gives the name back. */
  lemma HeaderPrettyRoundTrip(header: string)
    requires SnakeName(header)
    ensures Replace(Lower(HeaderPretty(header)), " ", "_") == header
  {
    var pretty := HeaderPretty(header);
    HeaderPrettyPrettied(header);
    ReplaceChar(Lower(pretty), ' ', '_');
  }

  lemma SplitDiscountId()
    ensures Split("discount_id", '_') == ["discount", "id"]
  {
    SplitPair("discount", '_', "id");
    assert "discount" + ['_'] + "id" == "discount_id";
  }

  lemma PrettyDiscountId()
    ensures PrettyParts(["discount", "id"]) == ["Discount", "ID"]
  {
    var ps := PrettyParts(["discount", "id"]);
    assert ps[1] == "ID";
    assert ps[0] == "Discount" by {
      assert "discount"[1..] == "iscount";
      assert Lower("iscount") == "iscount";
    }
  }

  /** `discount_id` is titled `Discount ID`. */
  lemma DiscountIdTitle()
    ensures HeaderPretty("discount_id") == "Discount ID"
  {
    SplitDiscountId();
    PrettyDiscountId();
    assert Join(["Discount", "ID"], ' ') == "Discount" + [' '] + "ID";
  }

  /** HEADERS_PRETTY: the titles of the CSV_HEADER fields, in field order. */
  function HeadersPretty(): (titles: seq<string>)
    ensures |titles| == |Discounts.CsvHeader|
  {
    seq(|Discounts.CsvHeader|, i requires 0 <= i < |Discounts.CsvHeader| => HeaderPretty(Discounts.CsvHeader[i]))
  }

  predicate Distinct(xs: seq<string>)
  {
    forall i, j :: 0 <= i < j < |xs| ==> xs[i] != xs[j]
  }

  lemma CsvHeaderNames()
    ensures forall i :: 0 <= i < |Discounts.CsvHeader| ==> SnakeName(Discounts.CsvHeader[i])
    ensures Distinct(Discounts.CsvHeader)
  {
    var hs := Discounts.CsvHeader;
    assert hs[0] == "package" && hs[1] == "app" && hs[2] == "discount_id" && hs[3] == "from_date";
    assert hs[4] == "to_date" && hs[5] == "name" && hs[6] == "description" && hs[7] == "percentage";
    assert hs[8] == "amount" && hs[9] == "quantity";
  }

  /** One title per field, in field order, each reading back as its field, no two alike: the
      Save button's DictWriter has a column for every field. */
  lemma HeadersPrettyOnePerField()
    ensures forall i :: 0 <= i < |HeadersPretty()| ==>
              Replace(Lower(HeadersPretty()[i]), " ", "_") == Discounts.CsvHeader[i]
    ensures Distinct(HeadersPretty())
  {
    var hs := Discounts.CsvHeader;
    var titles := HeadersPretty();
    CsvHeaderNames();
    forall i | 0 <= i < |hs|
      ensures Replace(Lower(titles[i]), " ", "_") == hs[i]
    {
      HeaderPrettyRoundTrip(hs[i]);
    }
  }

  /** A field value of a scraped row: text, an integer, or a `datetime` given by its date and
      the text of its time of day. */
  datatype Value = Str(s: string) | Int(n: int) | Stamp(date: Date, time: string)

  /** `date.isoformat()`: `YYYY-MM-DD`, zero-padded. */
  function IsoDate(d: Date): string
  {
    Pad(d.year, 4) + "-" + Pad(d.month, 2) + "-" + Pad(d.day, 2)
  }

  /** `str(value)`: a `datetime` prints as its ISO date, a space and its time. */
  function Display(v: Value): string
  {
    match v
    case Str(s) => s
    case Int(n) => IntToString(n)
    case Stamp(d, t) => IsoDate(d) + " " + t
  }

  /** `HEADER_FORMAT[column](value)`: a missing column is a KeyError, a date column whose value
      is not a `datetime` an AttributeError. */
  function FormatCell(column: string, v: Value): (r: Result<string, Exc>)
    ensures r.Success? <==> column in Discounts.CsvHeader && ((column == "from_date" || column == "to_date") ==> v.Stamp?)
    ensures r.Failure? ==> r.error == KeyError || r.error == AttributeError
  {
    if column !in Discounts.CsvHeader then Failure(KeyError)
    else if column == "from_date" || column == "to_date" then
      if v.Stamp? then Success(Replace(IsoDate(v.date), "-", "/")) else Failure(AttributeError)
    else if column == "percentage" then Success(Display(v) + "%")
    else if column == "amount" then Success("-$" + Display(v))
    else Success(Display(v))
  }

  /** A date column shows `YYYY/MM/DD`: three digit fields that read back as the date. */
  lemma DateCellFields(column: string, v: Value)
    requires (column == "from_date" || column == "to_date") && v.Stamp? && Valid(v.date)
    ensures FormatCell(column, v).Success?
    ensures var cell := FormatCell(column, v).value;
            && |cell| == 10
            && Split(cell, '/') == [Pad(v.date.year, 4), Pad(v.date.month, 2), Pad(v.date.day, 2)]
            && DecimalValue(Pad(v.date.year, 4)) == v.date.year
            && DecimalValue(Pad(v.date.month, 2)) == v.date.month
            && DecimalValue(Pad(v.date.day, 2)) == v.date.day
  {
    var d := v.date;
    assert Pow10(2) == 100 && Pow10(4) == 10000;
    PadWidth(d.year, 4);
    PadWidth(d.month, 2);
    PadWidth(d.day, 2);
    var y, m, dd := Pad(d.year, 4), Pad(d.month, 2), Pad(d.day, 2);
    var iso := IsoDate(d);
    var slashed := y + ['/'] + m + ['/'] + dd;
    ReplaceChar(iso, '-', '/');
    assert Replace(iso, "-", "/") == slashed;
    DigitsLackSeparator(y, '/');
    DigitsLackSeparator(m, '/');
    DigitsLackSeparator(dd, '/');
    SplitThree(y, m, dd, '/');
    PadValue(d.year, 4);
    PadValue(d.month, 2);
    PadValue(d.day, 2);
  }

  /** Percentages show as `value%` and amounts as `-$value`; other columns show `str(value)`. */
  lemma NumberCells(v: Value)
    ensures var p := FormatCell("percentage", v).value;
            && p[..|p| - 1] == Display(v) && p[|p| - 1] == '%'
    ensures var a := FormatCell("amount", v).value;
            && a[..2] == "-$" && a[2..] == Display(v)
    ensures v.Int? && v.n >= 0 ==> DecimalValue(FormatCell("percentage", v).value[..|FormatCell("percentage", v).value| - 1]) == v.n
  {
    if v.Int? && v.n >= 0 {
      DecimalValueOfNatToString(v.n);
    }
  }

  /** A row as the scraper produces it: a value for every field, dates as `datetime`s. */
  type Row = map<string, Value>

  predicate Complete(row: Row)
  {
    (forall k :: 0 <= k < |Discounts.CsvHeader| ==> Discounts.CsvHeader[k] in row)
    && "from_date" in row && row["from_date"].Stamp?
    && "to_date" in row && row["to_date"].Stamp?
  }

  /** The values of a row in field order, as `str` prints them. */
  function Fields(row: Row): (fields: seq<string>)
    requires Complete(row)
    ensures |fields| == |Discounts.CsvHeader|
  {
    seq(|Discounts.CsvHeader|, i requires 0 <= i < |Discounts.CsvHeader| => Display(row[Discounts.CsvHeader[i]]))
  }

  /** The row's cells in the results table, column by column. */
  function Cells(row: Row): (cells: seq<string>)
    requires Complete(row)
    ensures |cells| == |Discounts.CsvHeader|
  {
    seq(|Discounts.CsvHeader|, i requires 0 <= i < |Discounts.CsvHeader| =>
      FormatCell(Discounts.CsvHeader[i], row[Discounts.CsvHeader[i]]).value)
  }

  /** The dict comprehension of `_save`, built one field after the other: `titles[i]` is the
      title of `headers[i]`. */
  function TitledValues(row: Row, headers: seq<string>, titles: seq<string>): map<string, string>
    requires |titles| == |headers|
    requires forall k :: 0 <= k < |headers| ==> headers[k] in row
  {
    if |headers| == 0 then map[]
    else
      var n := |headers| - 1;
      TitledValues(row, headers[..n], titles[..n])[titles[n] := Display(row[headers[n]])]
  }

  /** A field whose title no later field repeats keeps its value under that title. */
  lemma {:induction false} TitledValuesAt(row: Row, headers: seq<string>, titles: seq<string>, k: nat)
    requires |titles| == |headers|
    requires forall i :: 0 <= i < |headers| ==> headers[i] in row
    requires k < |headers|
    requires forall j :: k < j < |titles| ==> titles[k] != titles[j]
    ensures titles[k] in TitledValues(row, headers, titles)
    ensures TitledValues(row, headers, titles)[titles[k]] == Display(row[headers[k]])
  {
    var n := |headers| - 1;
    var init, initTitles := headers[..n], titles[..n];
    assert TitledValues(row, headers, titles)
        == TitledValues(row, init, initTitles)[titles[n] := Display(row[headers[n]])];
    if k < n {
      assert init[k] == headers[k] && initTitles[k] == titles[k];
      assert forall j :: k < j < |initTitles| ==> initTitles[j] == titles[j];
      TitledValuesAt(row, init, initTitles, k);
    }
  }

  /** With no two titles alike, the dict holds every field's value under its title. */
  lemma TitledValuesLookup(row: Row, headers: seq<string>, titles: seq<string>)
    requires |titles| == |headers|
    requires forall k :: 0 <= k < |headers| ==> headers[k] in row
    requires Distinct(titles)
    ensures forall k :: 0 <= k < |headers| ==>
              titles[k] in TitledValues(row, headers, titles)
              && TitledValues(row, headers, titles)[titles[k]] == Display(row[headers[k]])
  {
    forall k | 0 <= k < |headers|
      ensures titles[k] in TitledValues(row, headers, titles)
      ensures TitledValues(row, headers, titles)[titles[k]] == Display(row[headers[k]])
    {
      TitledValuesAt(row, headers, titles, k);
    }
  }

  /** `DictWriter.writerow`: the dict's values in field-name order, `""` for a missing name. */
  function WriterLine(d: map<string, string>, fieldnames: seq<string>): seq<string>
  {
    seq(|fieldnames|, i requires 0 <= i < |fieldnames| => if fieldnames[i] in d then d[fieldnames[i]] else "")
  }

  /** The line `_save` writes for a row: the row's dict under the titles, written in title
      order. It holds the row's values in field order. */
  function SavedLine(row: Row): (line: seq<string>)
    requires Complete(row)
    ensures line == Fields(row)
  {
    HeadersPrettyOnePerField();
    TitledValuesLookup(row, Discounts.CsvHeader, HeadersPretty());
    WriterLine(TitledValues(row, Discounts.CsvHeader, HeadersPretty()), HeadersPretty())
  }

  /** A table item: its iid and the cells it shows. */
  datatype Item = Item(iid: nat, values: seq<string>)

  /** The window's state: the scraped rows, the table's items and whether a scrape runs. */
  class DiscountsScraper {
    var rows: seq<Row>
    var items: seq<Item>
    var running: bool

    ghost predicate Valid()
      reads this
    {
      forall k :: 0 <= k < |rows| ==> Complete(rows[k])
    }

    constructor ()
      ensures Valid() && rows == [] && items == [] && !running
    {
      rows := [];
      items := [];
      running := false;
    }

    /** `_save`: without rows nothing is written (the "No rows to save" message); otherwise the
        file is the title line followed by one line per row with its raw values in field order. */
    method Save() returns (file: Option<seq<seq<string>>>)
      requires Valid()
      ensures file.None? <==> |rows| == 0
      ensures file.Some? ==> |file.value| == |rows| + 1 && file.value[0] == HeadersPretty()
      ensures file.Some? ==> forall k :: 0 <= k < |rows| ==> file.value[k + 1] == Fields(rows[k])
    {
      if |rows| == 0 {
        return None;
      }
      var body: seq<seq<string>> := [];
      for k := 0 to |rows|
        invariant |body| == k
        invariant forall j :: 0 <= j < k ==> body[j] == SavedLine(rows[j])
      {
        body := body + [SavedLine(rows[k])];
      }
      file := Some([HeadersPretty()] + body);
    }

    /** `_populate_table`: the table is emptied, then row i becomes the item with iid i showing
        the row's formatted cells. */
    method PopulateTable()
      requires Valid()
      modifies this
      ensures rows == old(rows) && running == old(running) && Valid()
      ensures |items| == |rows|
      ensures forall i :: 0 <= i < |rows| ==> items[i] == Item(i, Cells(rows[i]))
    {
      items := [];
      for i := 0 to |rows|
        invariant rows == old(rows) && running == old(running)
        invariant |items| == i
        invariant forall j :: 0 <= j < i ==> items[j] == Item(j, Cells(rows[j]))
      {
        items := items + [Item(i, Cells(rows[i]))];
      }
    }

    /** The watcher once the scrape thread has ended: the thread's result becomes the rows, `None`
        counting as no rows, the table is refilled and a new scrape may start. */
    method ScrapeEnded(result: Option<seq<Row>>)
      requires result.Some? ==> forall k :: 0 <= k < |result.value| ==> Complete(result.value[k])
      modifies this
      ensures Valid() && !running
      ensures rows == (if result.None? then [] else result.value)
      ensures |items| == |rows| && forall i :: 0 <= i < |rows| ==> items[i] == Item(i, Cells(rows[i]))
    {
      rows := if result.None? then [] else result.value;
      PopulateTable();
      running := false;
    }
  }
}
