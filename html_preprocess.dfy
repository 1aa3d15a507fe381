/** bs_preprocess (moonlite/utils/scrape.py): four regular-expression substitutions that take
    the whitespace out of an HTML page before it is parsed. Each substitution is modelled as the
    left-to-right scan `re.sub` performs, with the pattern's matching written out. */
module HtmlPreprocess {
  import opened Wrappers
  import opened Text

  /** The end of the whitespace run starting at `p`. */
  function RunEnd(s: string, p: nat): (e: nat)
    requires p <= |s|
    ensures p <= e <= |s|
    ensures forall i :: p <= i < e ==> IsSpace(s[i])
    ensures e == |s| || !IsSpace(s[e])
    decreases |s| - p
  {
    if p == |s| || !IsSpace(s[p]) then p else RunEnd(s, p + 1)
  }

  /** `^` in MULTILINE mode: the start of the text or just after a newline. */
  predicate LineStart(s: string, p: nat)
    requires p <= |s|
  {
    p == 0 || s[p - 1] == '\n'
  }

  /** `$` in MULTILINE mode: the end of the text or just before a newline. */
  predicate LineEnd(s: string, p: nat)
    requires p <= |s|
  {
    p == |s| || s[p] == '\n'
  }

  /** The last `$` position in `(p, r]`: where a greedy `\s+$` starting at `p` stops after
      backtracking from `r`. */
  function LastLineEnd(s: string, p: nat, r: nat): (q: Option<nat>)
    requires p <= r <= |s|
    ensures q.Some? ==> p < q.value <= r && LineEnd(s, q.value)
    ensures q.None? ==> forall i :: p < i <= r ==> !LineEnd(s, i)
    decreases r
  {
    if r <= p then None
    else if LineEnd(s, r) then Some(r)
    else LastLineEnd(s, p, r - 1)
  }

  /** `re.sub('(^[\s]+)|([\s]+$)', '', s[p..], flags=re.MULTILINE)`, with the anchors read in
      the whole text `s`: at a line start a whitespace run is deleted whole; elsewhere a
      whitespace run is deleted up to the last line end it reaches; otherwise the character is
      kept. */
  function TrimLinesFrom(s: string, p: nat): (r: string)
    requires p <= |s|
    ensures |r| <= |s| - p
    decreases |s| - p
  {
    if p == |s| then ""
    else if LineStart(s, p) && IsSpace(s[p]) then TrimLinesFrom(s, RunEnd(s, p))
    else
      match LastLineEnd(s, p, RunEnd(s, p))
      case Some(q) => TrimLinesFrom(s, q)
      case None => [s[p]] + TrimLinesFrom(s, p + 1)
  }

  function TrimLines(s: string): string
  {
    TrimLinesFrom(s, 0)
  }

  /** A character that is not whitespace is never deleted, so the scan's output is not empty
      while one lies ahead. */
  lemma {:induction false} TrimLinesKeepsText(s: string, p: nat, j: nat)
    requires p <= j < |s| && !IsSpace(s[j])
    ensures |TrimLinesFrom(s, p)| > 0
    decreases |s| - p
  {
    if !(LineStart(s, p) && IsSpace(s[p])) && LastLineEnd(s, p, RunEnd(s, p)).None? {
    } else if LineStart(s, p) && IsSpace(s[p]) {
      TrimLinesKeepsText(s, RunEnd(s, p), j);
    } else {
      TrimLinesKeepsText(s, LastLineEnd(s, p, RunEnd(s, p)).value, j);
    }
  }

  /** The text does not end with whitespace. */
  predicate EndsClean(r: string)
  {
    |r| == 0 || !IsSpace(r[|r| - 1])
  }

  /** Step 1 leaves no whitespace at the end of the text. */
  lemma {:induction false} TrimLinesEnd(s: string, p: nat)
    requires p <= |s|
    ensures EndsClean(TrimLinesFrom(s, p))
    decreases |s| - p
  {
    if p == |s| {
    } else if LineStart(s, p) && IsSpace(s[p]) {
      var e := RunEnd(s, p);
      assert TrimLinesFrom(s, p) == TrimLinesFrom(s, e);
      TrimLinesEnd(s, e);
    } else if LastLineEnd(s, p, RunEnd(s, p)).Some? {
      var q := LastLineEnd(s, p, RunEnd(s, p)).value;
      assert TrimLinesFrom(s, p) == TrimLinesFrom(s, q);
      TrimLinesEnd(s, q);
    } else {
      TrimLinesEnd(s, p + 1);
      if IsSpace(s[p]) {
        // No line end up to the run's end, so the run stops at a character that is kept.
        var e := RunEnd(s, p);
        assert e < |s| && !IsSpace(s[e]);
        TrimLinesKeepsText(s, p + 1, e);
      }
      KeptCharEndsClean(s, p);
    }
  }

  /** A kept character followed by a clean rest ends clean, provided a kept whitespace
      character is followed by something. */
  lemma KeptCharEndsClean(s: string, p: nat)
    requires p < |s| && !(LineStart(s, p) && IsSpace(s[p])) && LastLineEnd(s, p, RunEnd(s, p)).None?
    requires EndsClean(TrimLinesFrom(s, p + 1))
    requires IsSpace(s[p]) ==> |TrimLinesFrom(s, p + 1)| > 0
    ensures EndsClean(TrimLinesFrom(s, p))
  {
    var rest := TrimLinesFrom(s, p + 1);
    assert TrimLinesFrom(s, p) == [s[p]] + rest;
  }

  /** Step 1 leaves no whitespace at the start of the text. */
  lemma TrimLinesStart(s: string)
    ensures var r := TrimLines(s); |r| == 0 || !IsSpace(r[0])
  {
    if |s| > 0 {
      var e := RunEnd(s, 0);
      if IsSpace(s[0]) {
        assert TrimLines(s) == TrimLinesFrom(s, e);
        if e < |s| {
          assert LastLineEnd(s, e, RunEnd(s, e)) == None;
        }
      } else {
        assert LastLineEnd(s, 0, RunEnd(s, 0)) == None;
      }
    }
  }

  /** Step 2, `re.sub(r'\n', ' ', s)`. */
  function NewlinesToSpaces(s: string): (r: string)
    ensures |r| == |s|
    ensures forall i :: 0 <= i < |s| ==> r[i] == (if s[i] == '\n' then ' ' else s[i])
  {
    seq(|s|, i requires 0 <= i < |s| => if s[i] == '\n' then ' ' else s[i])
  }

  /** Step 3, `re.sub(r'[\s]+<', '<', s[p..])`: a whitespace run directly before '<' goes. */
  function TrimBeforeOpenFrom(s: string, p: nat): (r: string)
    requires p <= |s|
    ensures |r| <= |s| - p
    ensures p < |s| ==> |r| > 0 && r[|r| - 1] == s[|s| - 1]
    ensures p < |s| ==> r[0] == (if IsSpace(s[p]) && RunEnd(s, p) < |s| && s[RunEnd(s, p)] == '<' then '<' else s[p])
    decreases |s| - p
  {
    if p == |s| then ""
    else if IsSpace(s[p]) && RunEnd(s, p) < |s| && s[RunEnd(s, p)] == '<' then "<" + TrimBeforeOpenFrom(s, RunEnd(s, p) + 1)
    else [s[p]] + TrimBeforeOpenFrom(s, p + 1)
  }

  /** Step 4, `re.sub(r'>[\s]+', '>', s[p..])`: a whitespace run directly after '>' goes. */
  function TrimAfterCloseFrom(s: string, p: nat): (r: string)
    requires p <= |s|
    ensures |r| <= |s| - p
    ensures p < |s| ==> |r| > 0 && r[0] == s[p]
    ensures p < |s| ==> r[|r| - 1] == s[|s| - 1] || r[|r| - 1] == '>'
    decreases |s| - p
  {
    if p == |s| then ""
    else if s[p] == '>' && p + 1 < |s| && IsSpace(s[p + 1]) then ">" + TrimAfterCloseFrom(s, RunEnd(s, p + 1))
    else [s[p]] + TrimAfterCloseFrom(s, p + 1)
  }

  /** No whitespace character sits directly before a '<'. */
  predicate NoSpaceBeforeOpen(s: string)
  {
    forall i :: 0 <= i < |s| - 1 && s[i + 1] == '<' ==> !IsSpace(s[i])
  }

  /** No whitespace character sits directly after a '>'. */
  predicate NoSpaceAfterClose(s: string)
  {
    forall i :: 0 <= i < |s| - 1 && s[i] == '>' ==> !IsSpace(s[i + 1])
  }

  /** Steps 3 and 4 only delete: a character absent from their input is absent from their
      output. */
  lemma {:induction false} TrimBeforeOpenOnlyDeletes(s: string, p: nat, c: char)
    requires p <= |s| && forall i :: p <= i < |s| ==> s[i] != c
    ensures c !in TrimBeforeOpenFrom(s, p)
    decreases |s| - p
  {
    if p < |s| {
      var e := RunEnd(s, p);
      if IsSpace(s[p]) && e < |s| && s[e] == '<' {
        TrimBeforeOpenOnlyDeletes(s, e + 1, c);
      } else {
        TrimBeforeOpenOnlyDeletes(s, p + 1, c);
      }
    }
  }

  lemma {:induction false} TrimAfterCloseOnlyDeletes(s: string, p: nat, c: char)
    requires p <= |s| && forall i :: p <= i < |s| ==> s[i] != c
    ensures c !in TrimAfterCloseFrom(s, p)
    decreases |s| - p
  {
    if p < |s| {
      if s[p] == '>' && p + 1 < |s| && IsSpace(s[p + 1]) {
        TrimAfterCloseOnlyDeletes(s, RunEnd(s, p + 1), c);
      } else {
        TrimAfterCloseOnlyDeletes(s, p + 1, c);
      }
    }
  }

  /** Putting a character in front keeps the text clean unless it is whitespace before a '<'. */
  lemma ConsNoSpaceBeforeOpen(c: char, rest: string)
    requires NoSpaceBeforeOpen(rest)
    requires |rest| > 0 && rest[0] == '<' ==> !IsSpace(c)
    ensures NoSpaceBeforeOpen([c] + rest)
  {
    assert forall i :: 1 <= i < |rest| + 1 ==> ([c] + rest)[i] == rest[i - 1];
  }

  /** After step 3 no whitespace is left before a '<'. */
  lemma {:induction false} TrimBeforeOpenClean(s: string, p: nat)
    requires p <= |s|
    ensures NoSpaceBeforeOpen(TrimBeforeOpenFrom(s, p))
    decreases |s| - p
  {
    if p < |s| {
      var e := RunEnd(s, p);
      if IsSpace(s[p]) && e < |s| && s[e] == '<' {
        TrimBeforeOpenClean(s, e + 1);
        var rest := TrimBeforeOpenFrom(s, e + 1);
        assert TrimBeforeOpenFrom(s, p) == ['<'] + rest;
        ConsNoSpaceBeforeOpen('<', rest);
      } else {
        TrimBeforeOpenClean(s, p + 1);
        var rest := TrimBeforeOpenFrom(s, p + 1);
        assert TrimBeforeOpenFrom(s, p) == [s[p]] + rest;
        if p + 1 < |s| && IsSpace(s[p]) {
          // The run through p stops at a character other than '<', and so does the run
          // through p + 1, so the next character kept is not '<'.
          assert RunEnd(s, p + 1) == e;
        }
        ConsNoSpaceBeforeOpen(s[p], rest);
      }
    }
  }

  /** After step 4 no whitespace is left after a '>', and step 4 adds none before a '<'. */
  lemma {:induction false} TrimAfterCloseClean(s: string, p: nat)
    requires p <= |s|
    requires forall i :: p <= i < |s| - 1 && s[i + 1] == '<' ==> !IsSpace(s[i])
    ensures NoSpaceAfterClose(TrimAfterCloseFrom(s, p))
    ensures NoSpaceBeforeOpen(TrimAfterCloseFrom(s, p))
    decreases |s| - p
  {
    if p < |s| {
      if s[p] == '>' && p + 1 < |s| && IsSpace(s[p + 1]) {
        var e := RunEnd(s, p + 1);
        TrimAfterCloseClean(s, e);
        var rest := TrimAfterCloseFrom(s, e);
        assert forall i :: 1 <= i < |rest| + 1 ==> (">" + rest)[i] == rest[i - 1];
      } else {
        TrimAfterCloseClean(s, p + 1);
        var rest := TrimAfterCloseFrom(s, p + 1);
        assert forall i :: 1 <= i < |rest| + 1 ==> ([s[p]] + rest)[i] == rest[i - 1];
      }
    }
  }

  /** bs_preprocess. */
  function Preprocess(html: string): string
  {
    var s1 := TrimLines(html);
    var s2 := NewlinesToSpaces(s1);
    var s3 := TrimBeforeOpenFrom(s2, 0);
    TrimAfterCloseFrom(s3, 0)
  }

  /** The preprocessed page has no newline, no whitespace before a '<' or after a '>', no
      whitespace at either end, and is no longer than the page. */
  lemma PreprocessClean(html: string)
    ensures var r := Preprocess(html);
      && '\n' !in r
      && NoSpaceBeforeOpen(r)
      && NoSpaceAfterClose(r)
      && (|r| > 0 ==> !IsSpace(r[0]) && !IsSpace(r[|r| - 1]))
      && |r| <= |html|
  {
    var s1 := TrimLines(html);
    var s2 := NewlinesToSpaces(s1);
    var s3 := TrimBeforeOpenFrom(s2, 0);
    var r := TrimAfterCloseFrom(s3, 0);
    TrimLinesStart(html);
    TrimLinesEnd(html, 0);
    TrimBeforeOpenOnlyDeletes(s2, 0, '\n');
    TrimAfterCloseOnlyDeletes(s3, 0, '\n');
    TrimBeforeOpenClean(s2, 0);
    TrimAfterCloseClean(s3, 0);
  }
}
