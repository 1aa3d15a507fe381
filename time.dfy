/** Dates and durations (utils/time.py): Python's `date` as (year, month, day) with its ordinal
    arithmetic, the two date formats DATE_FORMAT and DATE_FORMAT_FILE, and time_taken_seconds,
    which prints a duration through `str(timedelta)` and cuts off the microseconds. */
module TimeUtil {
  import opened Text

  /** A calendar date of the proleptic Gregorian calendar. */
  datatype Date = Date(year: nat, month: nat, day: nat)

  predicate IsLeap(y: nat)
  {
    y % 4 == 0 && (y % 100 != 0 || y % 400 == 0)
  }

  function DaysInMonth(y: nat, m: nat): nat
    requires 1 <= m <= 12
  {
    if m == 2 then (if IsLeap(y) then 29 else 28)
    else if m == 4 || m == 6 || m == 9 || m == 11 then 30
    else 31
  }

  /** A date `datetime.date` accepts: years 1 to 9999 and a day that exists in its month. */
  predicate Valid(d: Date)
  {
    1 <= d.year <= 9999 && 1 <= d.month <= 12 && 1 <= d.day <= DaysInMonth(d.year, d.month)
  }

  /** Days in the months of year `y` before month `m`. */
  function DaysBeforeMonth(y: nat, m: nat): nat
    requires 1 <= m <= 13
  {
    var table := [0, 31, 59, 90, 120, 151, 181, 212, 243, 273, 304, 334, 365];
    table[m - 1] + (if m > 2 && IsLeap(y) then 1 else 0)
  }

  /** Days in the years before year `y`. */
  function DaysBeforeYear(y: nat): nat
    requires y >= 1
  {
    var p := y - 1;
    365 * p + p / 4 - p / 100 + p / 400
  }

  /** `date.toordinal()`: 0001-01-01 is day 1. */
  function Ordinal(d: Date): nat
    requires Valid(d)
  {
    DaysBeforeYear(d.year) + DaysBeforeMonth(d.year, d.month) + d.day
  }

  /** A year has 366 days when it is a leap year and 365 otherwise. */
  lemma DaysBeforeYearStep(y: nat)
    requires y >= 1
    ensures DaysBeforeYear(y + 1) == DaysBeforeYear(y) + (if IsLeap(y) then 366 else 365)
  {
    var p := y - 1;
    LeapCycleStep(p);
    DivisorsNest(y);
  }

  /** A multiple of 400 is a multiple of 100, and a multiple of 100 a multiple of 4. */
  lemma DivisorsNest(y: nat)
    ensures y % 400 == 0 ==> y % 100 == 0
    ensures y % 100 == 0 ==> y % 4 == 0
  {
    if y % 400 == 0 {
      assert y == 100 * (4 * (y / 400));
    }
    if y % 100 == 0 {
      assert y == 4 * (25 * (y / 100));
    }
  }

  /** Each of the three quotients of the leap-year count grows by one exactly when the year
      reaches a multiple of its divisor. */
  lemma LeapCycleStep(p: nat)
    ensures (p + 1) / 4 == p / 4 + (if (p + 1) % 4 == 0 then 1 else 0)
    ensures (p + 1) / 100 == p / 100 + (if (p + 1) % 100 == 0 then 1 else 0)
    ensures (p + 1) / 400 == p / 400 + (if (p + 1) % 400 == 0 then 1 else 0)
  {
  }

  /** Month boundaries: each month starts where the previous one ended. */
  lemma DaysBeforeMonthStep(y: nat, m: nat)
    requires 1 <= m <= 12
    ensures DaysBeforeMonth(y, m + 1) == DaysBeforeMonth(y, m) + DaysInMonth(y, m)
  {
  }

  /** A valid date's ordinal lies inside its year. */
  lemma OrdinalInYear(d: Date)
    requires Valid(d)
    ensures DaysBeforeYear(d.year) < Ordinal(d) <= DaysBeforeYear(d.year) + (if IsLeap(d.year) then 366 else 365)
  {
    DaysBeforeMonthStep(d.year, d.month);
    assert DaysBeforeMonth(d.year, d.month + 1) <= DaysBeforeMonth(d.year, 13);
  }

  /** Later years start later. */
  lemma {:induction false} DaysBeforeYearMonotone(a: nat, b: nat)
    requires 1 <= a < b
    ensures DaysBeforeYear(a) + (if IsLeap(a) then 366 else 365) <= DaysBeforeYear(b)
    decreases b - a
  {
    DaysBeforeYearStep(a);
    if a + 1 < b {
      DaysBeforeYearMonotone(a + 1, b);
    }
  }

  /** Python compares dates as (year, month, day) tuples. */
  predicate Before(a: Date, b: Date)
  {
    a.year < b.year || (a.year == b.year && (a.month < b.month || (a.month == b.month && a.day < b.day)))
  }

  /** The tuple order is the order of the ordinals. */
  lemma BeforeIffOrdinalLess(a: Date, b: Date)
    requires Valid(a) && Valid(b)
    ensures Before(a, b) <==> Ordinal(a) < Ordinal(b)
  {
    OrdinalInYear(a);
    OrdinalInYear(b);
    if a.year < b.year {
      DaysBeforeYearMonotone(a.year, b.year);
    } else if b.year < a.year {
      DaysBeforeYearMonotone(b.year, a.year);
    } else if a.month < b.month {
      DaysBeforeMonthStep(a.year, a.month);
      assert DaysBeforeMonth(a.year, a.month + 1) <= DaysBeforeMonth(a.year, b.month);
    } else if b.month < a.month {
      DaysBeforeMonthStep(b.year, b.month);
      assert DaysBeforeMonth(b.year, b.month + 1) <= DaysBeforeMonth(b.year, a.month);
    }
  }

  /** `max(a, b)` on dates. */
  function Later(a: Date, b: Date): (c: Date)
    ensures c == a || c == b
    ensures !Before(c, a) && !Before(c, b)
  {
    if Before(a, b) then b else a
  }

  /** `d - timedelta(days=1)`. */
  function PrevDay(d: Date): (p: Date)
    requires Valid(d) && d != Date(1, 1, 1)
    ensures Valid(p)
  {
    if d.day > 1 then Date(d.year, d.month, d.day - 1)
    else if d.month > 1 then Date(d.year, d.month - 1, DaysInMonth(d.year, d.month - 1))
    else Date(d.year - 1, 12, 31)
  }

  /** The previous day is one ordinal earlier. */
  lemma PrevDayOrdinal(d: Date)
    requires Valid(d) && d != Date(1, 1, 1)
    ensures Ordinal(PrevDay(d)) == Ordinal(d) - 1
  {
    if d.day == 1 && d.month > 1 {
      DaysBeforeMonthStep(d.year, d.month - 1);
    } else if d.day == 1 {
      DaysBeforeYearStep(d.year - 1);
    }
  }

  /** `d - timedelta(days=x)`, for a result no earlier than 0001-01-01. */
  function Minus(d: Date, x: nat): (r: Date)
    requires Valid(d) && x < Ordinal(d)
    ensures Valid(r)
    decreases x
  {
    if x == 0 then d
    else
      assert d != Date(1, 1, 1);
      PrevDayOrdinal(d);
      Minus(PrevDay(d), x - 1)
  }

  /** Subtracting `x` days takes exactly `x` off the ordinal. */
  lemma {:induction false} MinusOrdinal(d: Date, x: nat)
    requires Valid(d) && x < Ordinal(d)
    ensures Ordinal(Minus(d, x)) == Ordinal(d) - x
    decreases x
  {
    if x > 0 {
      PrevDayOrdinal(d);
      MinusOrdinal(PrevDay(d), x - 1);
    }
  }

  /** `%Y` as the C library prints it: the year's digits, unpadded. */
  function YearText(y: nat): string
  {
    NatToString(y)
  }

  /** `d.strftime(DATE_FORMAT)`: `MM/DD/YYYY`. */
  function FormatDate(d: Date): string
  {
    Pad(d.month, 2) + "/" + Pad(d.day, 2) + "/" + YearText(d.year)
  }

  /** `d.strftime(DATE_FORMAT_FILE)`: `YYYYMMDD`. */
  function FormatFileDate(d: Date): string
  {
    YearText(d.year) + Pad(d.month, 2) + Pad(d.day, 2)
  }

  /** A four-digit-year date prints as exactly eight digits whose value is
      year * 10000 + month * 100 + day, so distinct dates get distinct names, ordered as the dates. */
  lemma FormatFileDateDigits(d: Date)
    requires Valid(d) && 1000 <= d.year
    ensures |FormatFileDate(d)| == 8
    ensures forall i :: 0 <= i < 8 ==> IsDigit(FormatFileDate(d)[i])
    ensures DecimalValue(FormatFileDate(d)) == d.year * 10000 + d.month * 100 + d.day
  {
    NatToStringLength(d.year, 3);
    NatToStringLength(d.year, 4);
    assert Pow10(2) == 100 && Pow10(3) == 1000 && Pow10(4) == 10000;
    PadWidth(d.month, 2);
    PadWidth(d.day, 2);
    var y, m, dd := YearText(d.year), Pad(d.month, 2), Pad(d.day, 2);
    DecimalValueAppend(y + m, dd);
    DecimalValueAppend(y, m);
    DecimalValueOfNatToString(d.year);
    PadValue(d.month, 2);
    PadValue(d.day, 2);
  }

  /** `d.strftime(DATE_FORMAT)` for a four-digit year: two-digit month, two-digit day and the
      year, separated by `/`, each reading back as the date's field. */
  lemma FormatDateFields(d: Date)
    requires Valid(d) && 1000 <= d.year
    ensures |FormatDate(d)| == 10
    ensures Split(FormatDate(d), '/') == [Pad(d.month, 2), Pad(d.day, 2), YearText(d.year)]
    ensures DecimalValue(Pad(d.month, 2)) == d.month && DecimalValue(Pad(d.day, 2)) == d.day
    ensures DecimalValue(YearText(d.year)) == d.year
  {
    NatToStringLength(d.year, 3);
    NatToStringLength(d.year, 4);
    assert Pow10(2) == 100 && Pow10(3) == 1000 && Pow10(4) == 10000;
    PadWidth(d.month, 2);
    PadWidth(d.day, 2);
    var m, dd, y := Pad(d.month, 2), Pad(d.day, 2), YearText(d.year);
    DigitsLackSeparator(m, '/');
    DigitsLackSeparator(dd, '/');
    DigitsLackSeparator(y, '/');
    SplitThree(m, dd, y, '/');
    assert FormatDate(d) == m + ['/'] + dd + ['/'] + y;
    PadValue(d.month, 2);
    PadValue(d.day, 2);
    DecimalValueOfNatToString(d.year);
  }

  const MicrosPerSecond := 1_000_000
  const SecondsPerDay := 86400

  /** The clock part `H:MM:SS` of a number of seconds within one day. */
  function Clock(seconds: nat): (c: string)
    ensures '.' !in c
  {
    var h, m, s := NatToString(seconds / 3600), Pad(seconds / 60 % 60, 2), Pad(seconds % 60, 2);
    DigitsLackSeparator(h, '.');
    DigitsLackSeparator(m, '.');
    DigitsLackSeparator(s, '.');
    h + ":" + m + ":" + s
  }

  /** The text of a whole number of seconds: `[N day[s], ]H:MM:SS`, with the day count floored
      so that the clock part is never negative. */
  function WholeSecondsText(total: int): (s: string)
    ensures '.' !in s
  {
    var days := total / SecondsPerDay;
    var clock := Clock(total % SecondsPerDay);
    var count := IntToString(days);
    assert '.' !in count by {
      assert forall i :: 0 <= i < |count| ==> count[i] != '.';
    }
    if days == 0 then clock
    else count + (if days == 1 || days == -1 then " day, " else " days, ") + clock
  }

  /** `str(timedelta(microseconds=micros))`: the whole-seconds text, followed by `.ffffff` when
      there are microseconds. */
  function TimedeltaText(micros: int): string
  {
    var fraction := micros % MicrosPerSecond;
    var whole := WholeSecondsText(micros / MicrosPerSecond);
    if fraction == 0 then whole else whole + "." + Pad(fraction, 6)
  }

  /** time_taken_seconds, for a duration already rounded to whole microseconds:
      `str(timedelta(...)).split('.')[0]`. */
  function TimeTaken(micros: int): string
  {
    Split(TimedeltaText(micros), '.')[0]
  }

  /** Cutting at the first point removes exactly the microsecond part, so the result has no
      point and depends only on the whole seconds of the duration. */
  lemma TimeTakenWholeSeconds(micros: int)
    ensures TimeTaken(micros) == WholeSecondsText(micros / MicrosPerSecond)
    ensures '.' !in TimeTaken(micros)
  {
    var s := WholeSecondsText(micros / MicrosPerSecond);
    var fraction := micros % MicrosPerSecond;
    SplitWithoutSeparator(s, '.');
    if fraction != 0 {
      var f := Pad(fraction, 6);
      assert '.' !in f by { assert forall i :: 0 <= i < |f| ==> IsDigit(f[i]); }
      SplitAppend(s, '.', f);
      assert TimedeltaText(micros) == s + ['.'] + f;
    }
  }

  /** Two durations with the same whole seconds print the same. */
  lemma TimeTakenIgnoresMicroseconds(a: int, b: int)
    requires a / MicrosPerSecond == b / MicrosPerSecond
    ensures TimeTaken(a) == TimeTaken(b)
  {
    TimeTakenWholeSeconds(a);
    TimeTakenWholeSeconds(b);
  }

  /** The seconds an `H:MM:SS` text stands for. */
  function ClockSeconds(h: string, m: string, s: string): nat
    requires forall i :: 0 <= i < |h| ==> IsDigit(h[i])
    requires forall i :: 0 <= i < |m| ==> IsDigit(m[i])
    requires forall i :: 0 <= i < |s| ==> IsDigit(s[i])
  {
    DecimalValue(h) * 3600 + DecimalValue(m) * 60 + DecimalValue(s)
  }

  /** Hours, minutes and seconds add back up to the seconds of the day. */
  lemma ClockIdentity(t: nat)
    ensures (t / 3600) * 3600 + (t / 60 % 60) * 60 + t % 60 == t
  {
    var m, sec := t / 60, t % 60;
    var h, mm := m / 60, m % 60;
    assert t == 60 * m + sec && m == 60 * h + mm;
    assert t == 3600 * h + (60 * mm + sec) && 0 <= 60 * mm + sec < 3600;
    assert t / 3600 == h;
  }

  /** Below one day the result is `H:MM:SS` with unpadded hours and two-digit minutes and seconds,
      and reading it back gives the whole seconds of the duration. */
  lemma TimeTakenBelowOneDay(micros: int)
    requires 0 <= micros < SecondsPerDay * MicrosPerSecond
    ensures var parts := Split(TimeTaken(micros), ':');
      && |parts| == 3 && |parts[1]| == 2 && |parts[2]| == 2
      && (forall k, i :: 0 <= k < 3 && 0 <= i < |parts[k]| ==> IsDigit(parts[k][i]))
      && ClockSeconds(parts[0], parts[1], parts[2]) == micros / MicrosPerSecond
  {
    TimeTakenWholeSeconds(micros);
    var seconds: nat := micros / MicrosPerSecond;
    assert seconds < SecondsPerDay;
    WholeSecondsBelowOneDay(seconds);
    assert TimeTaken(micros) == Clock(seconds);
    ClockParts(seconds);
  }

  /** Less than a day of seconds is its clock part alone. */
  lemma WholeSecondsBelowOneDay(seconds: nat)
    requires seconds < SecondsPerDay
    ensures WholeSecondsText(seconds) == Clock(seconds)
  {
    assert seconds / SecondsPerDay == 0 && seconds % SecondsPerDay == seconds;
  }

  /** The three fields of the clock part. */
  lemma ClockParts(seconds: nat)
    requires seconds < SecondsPerDay
    ensures var parts := Split(Clock(seconds), ':');
      && |parts| == 3 && |parts[1]| == 2 && |parts[2]| == 2
      && (forall k, i :: 0 <= k < 3 && 0 <= i < |parts[k]| ==> IsDigit(parts[k][i]))
      && ClockSeconds(parts[0], parts[1], parts[2]) == seconds
  {
    var h, m, s := NatToString(seconds / 3600), Pad(seconds / 60 % 60, 2), Pad(seconds % 60, 2);
    assert Pow10(2) == 100;
    PadWidth(seconds / 60 % 60, 2);
    PadWidth(seconds % 60, 2);
    DigitsLackSeparator(h, ':');
    DigitsLackSeparator(m, ':');
    DigitsLackSeparator(s, ':');
    SplitThree(h, m, s, ':');
    assert Clock(seconds) == h + [':'] + m + [':'] + s;
    DecimalValueOfNatToString(seconds / 3600);
    PadValue(seconds / 60 % 60, 2);
    PadValue(seconds % 60, 2);
    ClockIdentity(seconds);
  }

  /** From one day on, the text is the day count, `day, ` or `days, `, and the clock of the
      seconds left over after the whole days. */
  lemma TimeTakenDays(micros: int)
    requires micros >= SecondsPerDay * MicrosPerSecond
    ensures var total := micros / MicrosPerSecond;
            var days := total / SecondsPerDay;
      && days >= 1
      && TimeTaken(micros) == NatToString(days) + (if days == 1 then " day, " else " days, ") + Clock(total % SecondsPerDay)
  {
    TimeTakenWholeSeconds(micros);
  }

  /** The clock of five seconds. */
  lemma ClockOfFive()
    ensures Clock(5) == "0:00:05"
  {
    assert 5 / 3600 == 0 && 5 / 60 % 60 == 0 && 5 % 60 == 5;
    var h, m, s := NatToString(0), Pad(0, 2), Pad(5, 2);
    assert Clock(5) == h + ":" + m + ":" + s;
    assert h == "0" && NatToString(5) == "5";
    assert Zeros(1) == "0";
    assert m == "00" && s == "05";
  }

  /** Five seconds print as `0:00:05`. */
  lemma FiveSeconds()
    ensures TimeTaken(5 * MicrosPerSecond) == "0:00:05"
  {
    TimeTakenWholeSeconds(5 * MicrosPerSecond);
    assert 5 * MicrosPerSecond / MicrosPerSecond == 5;
    assert 5 / SecondsPerDay == 0 && 5 % SecondsPerDay == 5;
    assert WholeSecondsText(5) == Clock(5);
    ClockOfFive();
  }
}
