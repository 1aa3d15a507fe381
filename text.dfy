/** String helpers with Python's semantics: `str.split`, `str.join`, `str.replace`, `str.strip`,
    `str.isnumeric` (on ASCII digits), `int(...)`, `str(int)` and `'%0Nd'` padding. */
module Text {

  predicate IsDigit(c: char)
  {
    '0' <= c <= '9'
  }

  /** `str.isspace()` on one character: ASCII whitespace, the information separators
      U+001C..U+001F and the Unicode space separators. Python's `\s` matches the same set. */
  predicate IsSpace(c: char)
  {
    c == ' ' || c == '\t' || c == '\n' || c == '\r' || c == '\U{000B}' || c == '\U{000C}'
    || ('\U{001C}' <= c <= '\U{001F}') || c == '\U{0085}' || c == '\U{00A0}' || c == '\U{1680}'
    || ('\U{2000}' <= c <= '\U{200A}') || c == '\U{2028}' || c == '\U{2029}' || c == '\U{202F}'
    || c == '\U{205F}' || c == '\U{3000}'
  }

  /** `s.isnumeric()` restricted to ASCII digits: false on the empty string. */
  predicate AllDigits(s: string)
  {
    |s| > 0 && forall i :: 0 <= i < |s| ==> IsDigit(s[i])
  }

  predicate StartsWith(s: string, prefix: string)
  {
    |prefix| <= |s| && s[..|prefix|] == prefix
  }

  function Pow10(k: nat): (p: nat)
    ensures p >= 1
  {
    if k == 0 then 1 else 10 * Pow10(k - 1)
  }

  function DigitChar(d: nat): (c: char)
    requires d < 10
    ensures IsDigit(c)
  {
    ['0', '1', '2', '3', '4', '5', '6', '7', '8', '9'][d]
  }

  function DigitValue(c: char): (d: nat)
    requires IsDigit(c)
    ensures d < 10 && DigitChar(d) == c
  {
    (c as int - '0' as int) as nat
  }

  /** `str(n)` for a non-negative integer: decimal digits, no leading zero. */
  function NatToString(n: nat): (s: string)
    ensures AllDigits(s)
    ensures s[0] == '0' ==> n == 0
  {
    if n < 10 then [DigitChar(n)] else NatToString(n / 10) + [DigitChar(n % 10)]
  }

  /** `str(n)` for any integer: a minus sign before the digits of a negative number. */
  function IntToString(n: int): (s: string)
    ensures forall i :: 0 <= i < |s| ==> IsDigit(s[i]) || s[i] == '-'
  {
    if n < 0 then "-" + NatToString(-n) else NatToString(n)
  }

  /** `int(s)` for a string of ASCII digits. */
  function DecimalValue(s: string): nat
    requires forall i :: 0 <= i < |s| ==> IsDigit(s[i])
  {
    if |s| == 0 then 0 else 10 * DecimalValue(s[..|s| - 1]) + DigitValue(s[|s| - 1])
  }

  /** `int(str(n)) == n`. */
  lemma {:induction false} DecimalValueOfNatToString(n: nat)
    ensures DecimalValue(NatToString(n)) == n
  {
    var s := NatToString(n);
    if n >= 10 {
      DecimalValueOfNatToString(n / 10);
      assert s[..|s| - 1] == NatToString(n / 10);
    }
  }

  /** `str(n)` has at most `k` digits exactly when `n < 10^k`. */
  lemma {:induction false} NatToStringLength(n: nat, k: nat)
    requires k >= 1
    ensures |NatToString(n)| <= k <==> n < Pow10(k)
  {
    if n >= 10 {
      if k == 1 {
        assert |NatToString(n)| >= 2 by { assert NatToString(n) == NatToString(n / 10) + [DigitChar(n % 10)]; }
      } else {
        NatToStringLength(n / 10, k - 1);
      }
    }
  }

  function Zeros(k: nat): (s: string)
    ensures |s| == k && forall i :: 0 <= i < k ==> s[i] == '0'
  {
    if k == 0 then "" else Zeros(k - 1) + "0"
  }

  /** `'%0{width}d' % n`: decimal digits left-padded with zeros to `width` characters. */
  function Pad(n: nat, width: nat): (s: string)
    ensures forall i :: 0 <= i < |s| ==> IsDigit(s[i])
    ensures |s| == if |NatToString(n)| < width then width else |NatToString(n)|
  {
    var digits := NatToString(n);
    if |digits| < width then Zeros(width - |digits|) + digits else digits
  }

  lemma {:induction false} DecimalValueZerosPrefix(k: nat, s: string)
    requires forall i :: 0 <= i < |s| ==> IsDigit(s[i])
    ensures DecimalValue(Zeros(k) + s) == DecimalValue(s)
    decreases |s|
  {
    if |s| == 0 {
      ZerosValue(k);
      assert Zeros(k) + s == Zeros(k);
    } else {
      DecimalValueZerosPrefix(k, s[..|s| - 1]);
      assert (Zeros(k) + s)[..|Zeros(k) + s| - 1] == Zeros(k) + s[..|s| - 1];
    }
  }

  lemma {:induction false} ZerosValue(k: nat)
    ensures DecimalValue(Zeros(k)) == 0
  {
    if k > 0 {
      var z := Zeros(k - 1);
      ZerosValue(k - 1);
      assert Zeros(k) == z + ['0'];
      DecimalValueSnoc(z, '0');
    }
  }

  /** One digit more on the right multiplies the value by ten and adds the digit. */
  lemma DecimalValueSnoc(s: string, c: char)
    requires IsDigit(c) && forall i :: 0 <= i < |s| ==> IsDigit(s[i])
    ensures DecimalValue(s + [c]) == 10 * DecimalValue(s) + DigitValue(c)
  {
    assert (s + [c])[..|s|] == s;
  }

  /** Padding is invisible to `int(...)`: the padded text still reads back as `n`. */
  lemma PadValue(n: nat, width: nat)
    ensures DecimalValue(Pad(n, width)) == n
  {
    DecimalValueOfNatToString(n);
    var digits := NatToString(n);
    if |digits| < width {
      DecimalValueZerosPrefix(width - |digits|, digits);
    }
  }

  /** The arithmetic step of `DecimalValueAppend`: one more digit on the right of both sides. */
  lemma ShiftByTen(va: nat, vb: nat, p: nat, last: nat)
    ensures 10 * (va * p + vb) + last == va * (10 * p) + (10 * vb + last)
  {
    assert 10 * (va * p) == va * (10 * p);
  }

  /** The value of a concatenation of digit strings: the left part shifted by the right part's length. */
  lemma {:induction false} DecimalValueAppend(a: string, b: string)
    requires forall i :: 0 <= i < |a| ==> IsDigit(a[i])
    requires forall i :: 0 <= i < |b| ==> IsDigit(b[i])
    ensures DecimalValue(a + b) == DecimalValue(a) * Pow10(|b|) + DecimalValue(b)
    decreases |b|
  {
    if |b| == 0 {
      assert a + b == a;
    } else {
      var b', c := b[..|b| - 1], b[|b| - 1];
      assert a + b == (a + b') + [c];
      assert b == b' + [c];
      DecimalValueSnoc(a + b', c);
      DecimalValueSnoc(b', c);
      DecimalValueAppend(a, b');
      ShiftByTen(DecimalValue(a), DecimalValue(b'), Pow10(|b'|), DigitValue(c));
    }
  }

  /** `'%02d' % n` has exactly two characters for `n < 100`. */
  lemma PadWidth(n: nat, width: nat)
    requires width >= 1 && n < Pow10(width)
    ensures |Pad(n, width)| == width
  {
    NatToStringLength(n, width);
  }

  /** `s.split(sep)` for a one-character separator. */
  function Split(s: string, sep: char): (parts: seq<string>)
    ensures |parts| >= 1
    ensures forall k :: 0 <= k < |parts| ==> sep !in parts[k]
    decreases |s|
  {
    if |s| == 0 then [""]
    else
      var init := Split(s[..|s| - 1], sep);
      if s[|s| - 1] == sep then init + [""]
      else init[..|init| - 1] + [init[|init| - 1] + [s[|s| - 1]]]
  }

  /** `sep.join(parts)`. */
  function Join(parts: seq<string>, sep: char): string
  {
    if |parts| == 0 then ""
    else if |parts| == 1 then parts[0]
    else Join(parts[..|parts| - 1], sep) + [sep] + parts[|parts| - 1]
  }

  lemma {:induction false} SplitWithoutSeparator(s: string, sep: char)
    requires sep !in s
    ensures Split(s, sep) == [s]
    decreases |s|
  {
    if |s| > 0 {
      SplitWithoutSeparator(s[..|s| - 1], sep);
      assert s[..|s| - 1] + [s[|s| - 1]] == s;
    }
  }

  /** Splitting `a + sep + b` gives the parts of `a` followed by `b` when `b` holds no separator. */
  lemma {:induction false} SplitAppend(a: string, sep: char, b: string)
    requires sep !in b
    ensures Split(a + [sep] + b, sep) == Split(a, sep) + [b]
    decreases |b|
  {
    var s := a + [sep] + b;
    if |b| == 0 {
      assert s[..|s| - 1] == a;
    } else {
      var b' := b[..|b| - 1];
      SplitAppend(a, sep, b');
      assert s[..|s| - 1] == a + [sep] + b';
      assert b' + [b[|b| - 1]] == b;
    }
  }

  /** Two parts without the separator, joined by it, split back into those two parts. */
  lemma SplitPair(a: string, sep: char, b: string)
    requires sep !in a && sep !in b
    ensures Split(a + [sep] + b, sep) == [a, b]
  {
    SplitWithoutSeparator(a, sep);
    SplitAppend(a, sep, b);
  }

  /** `sep.join(s.split(sep)) == s`. */
  lemma {:induction false} JoinSplit(s: string, sep: char)
    ensures Join(Split(s, sep), sep) == s
    decreases |s|
  {
    if |s| > 0 {
      var init, c := s[..|s| - 1], s[|s| - 1];
      var ps := Split(init, sep);
      JoinSplit(init, sep);
      assert init + [c] == s;
      if c == sep {
        assert Split(s, sep) == ps + [""];
        JoinSnoc(ps, "", sep);
      } else {
        assert Split(s, sep) == ps[..|ps| - 1] + [ps[|ps| - 1] + [c]];
        JoinExtendLast(ps, c, sep);
      }
    }
  }

  /** One more part joins on after one more separator. */
  lemma JoinSnoc(parts: seq<string>, x: string, sep: char)
    requires |parts| >= 1
    ensures Join(parts + [x], sep) == Join(parts, sep) + [sep] + x
  {
    assert (parts + [x])[..|parts|] == parts;
  }

  /** A character added to the last part is added to the end of the joined text. */
  lemma JoinExtendLast(parts: seq<string>, c: char, sep: char)
    requires |parts| >= 1
    ensures Join(parts[..|parts| - 1] + [parts[|parts| - 1] + [c]], sep) == Join(parts, sep) + [c]
  {
    var q, last := parts[..|parts| - 1], parts[|parts| - 1];
    if |q| == 0 {
      assert q + [last + [c]] == [last + [c]];
    } else {
      JoinSnoc(q, last + [c], sep);
      JoinSnoc(q, last, sep);
      assert q + [last] == parts;
    }
  }

  /** `sep.join(parts).split(sep) == parts` when no part holds the separator. */
  lemma {:induction false} SplitJoin(parts: seq<string>, sep: char)
    requires |parts| >= 1
    requires forall k :: 0 <= k < |parts| ==> sep !in parts[k]
    ensures Split(Join(parts, sep), sep) == parts
  {
    if |parts| == 1 {
      SplitWithoutSeparator(parts[0], sep);
    } else {
      var init := parts[..|parts| - 1];
      SplitJoin(init, sep);
      SplitAppend(Join(init, sep), sep, parts[|parts| - 1]);
      assert init + [parts[|parts| - 1]] == parts;
    }
  }

  /** Every character of a part is a character of the split string. */
  lemma {:induction false} SplitPartChars(s: string, sep: char, k: nat)
    requires k < |Split(s, sep)|
    ensures forall c :: c in Split(s, sep)[k] ==> c in s
    decreases |s|
  {
    if |s| > 0 {
      var init := Split(s[..|s| - 1], sep);
      if k < |init| {
        SplitPartChars(s[..|s| - 1], sep, k);
      }
    }
  }

  /** A digit string contains no separator that is not a digit. */
  lemma DigitsLackSeparator(s: string, sep: char)
    requires !IsDigit(sep) && forall i :: 0 <= i < |s| ==> IsDigit(s[i])
    ensures sep !in s
  {
  }

  /** Three fields joined by a separator that none of them contains split back into the fields. */
  lemma SplitThree(a: string, b: string, c: string, sep: char)
    requires sep !in a && sep !in b && sep !in c
    ensures Split(a + [sep] + b + [sep] + c, sep) == [a, b, c]
  {
    SplitWithoutSeparator(a, sep);
    SplitAppend(a, sep, b);
    SplitAppend(a + [sep] + b, sep, c);
  }

  /** `s.replace(old, new)`: left-to-right, non-overlapping occurrences of a non-empty pattern. */
  function Replace(s: string, pattern: string, with: string): (r: string)
    requires |pattern| > 0
    ensures |with| <= |pattern| ==> |r| <= |s|
    ensures |with| == |pattern| ==> |r| == |s|
    decreases |s|
  {
    if |s| == 0 then ""
    else if StartsWith(s, pattern) then with + Replace(s[|pattern|..], pattern, with)
    else [s[0]] + Replace(s[1..], pattern, with)
  }

  /** Removing every occurrence of a character leaves none of it and keeps the rest in order. */
  lemma {:induction false} RemoveCharGone(s: string, c: char)
    ensures c !in Replace(s, [c], "")
    decreases |s|
  {
    if |s| > 0 {
      RemoveCharGone(s[1..], c);
    }
  }

  /** Deleting a character distributes over concatenation. */
  lemma {:induction false} RemoveCharAppend(a: string, b: string, c: char)
    ensures Replace(a + b, [c], "") == Replace(a, [c], "") + Replace(b, [c], "")
    decreases |a|
  {
    if |a| == 0 {
      assert a + b == b;
    } else {
      assert (a + b)[1..] == a[1..] + b;
      assert StartsWith(a + b, [c]) <==> StartsWith(a, [c]);
      RemoveCharAppend(a[1..], b, c);
    }
  }

  /** Deleting a character that does not occur changes nothing. */
  lemma {:induction false} RemoveCharAbsent(s: string, c: char)
    requires c !in s
    ensures Replace(s, [c], "") == s
    decreases |s|
  {
    if |s| > 0 {
      RemoveCharAbsent(s[1..], c);
    }
  }

  /** Replacing one character by another works position by position. */
  lemma {:induction false} ReplaceChar(s: string, a: char, b: char)
    ensures Replace(s, [a], [b]) == seq(|s|, i requires 0 <= i < |s| => if s[i] == a then b else s[i])
    decreases |s|
  {
    if |s| > 0 {
      ReplaceChar(s[1..], a, b);
      assert StartsWith(s, [a]) <==> s[0] == a;
    }
  }

  /** Nothing to replace: `s.replace(p, q) == s` when `p` does not occur. */
  lemma {:induction false} ReplaceAbsent(s: string, pattern: string, with: string)
    requires |pattern| > 0
    requires forall i :: 0 <= i < |s| ==> !StartsWith(s[i..], pattern)
    ensures Replace(s, pattern, with) == s
    decreases |s|
  {
    if |s| > 0 {
      assert !StartsWith(s[0..], pattern);
      assert s[0..] == s;
      forall i | 0 <= i < |s[1..]|
        ensures !StartsWith(s[1..][i..], pattern)
      {
        assert s[1..][i..] == s[i + 1..];
      }
      ReplaceAbsent(s[1..], pattern, with);
    }
  }

  /** `str.lstrip()`. */
  function TrimStart(s: string): (r: string)
    ensures |r| <= |s|
    ensures |r| > 0 ==> !IsSpace(r[0])
    ensures r == s[|s| - |r|..]
  {
    if |s| > 0 && IsSpace(s[0]) then TrimStart(s[1..]) else s
  }

  /** `str.rstrip()`. */
  function TrimEnd(s: string): (r: string)
    ensures |r| <= |s|
    ensures |r| > 0 ==> !IsSpace(r[|r| - 1])
    ensures r == s[..|r|]
  {
    if |s| > 0 && IsSpace(s[|s| - 1]) then TrimEnd(s[..|s| - 1]) else s
  }

  /** `str.strip()`: neither end of the result is whitespace and it is a slice of the input. */
  function Strip(s: string): (r: string)
    ensures |r| <= |s|
    ensures |r| > 0 ==> !IsSpace(r[0]) && !IsSpace(r[|r| - 1])
  {
    TrimEnd(TrimStart(s))
  }

  function ToUpper(c: char): char
  {
    if 'a' <= c <= 'z' then (c as int - 32) as char else c
  }

  function ToLower(c: char): char
  {
    if 'A' <= c <= 'Z' then (c as int + 32) as char else c
  }

  /** `str.lower()` on ASCII letters. */
  function Lower(s: string): (r: string)
    ensures |r| == |s| && forall i :: 0 <= i < |s| ==> r[i] == ToLower(s[i])
  {
    seq(|s|, i requires 0 <= i < |s| => ToLower(s[i]))
  }

  /** `str.upper()` on ASCII letters. */
  function Upper(s: string): (r: string)
    ensures |r| == |s| && forall i :: 0 <= i < |s| ==> r[i] == ToUpper(s[i])
  {
    seq(|s|, i requires 0 <= i < |s| => ToUpper(s[i]))
  }
}
