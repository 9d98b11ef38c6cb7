/** The cleaning steps of `sanitize_and_format_text`: drop what has no ASCII
    form, drop non-printable characters other than newline and carriage
    return, and collapse every whitespace run to one space.
    The NFKD decomposition that precedes them is not part of this model: the
    functions here take the already-decomposed text. */
module Cleaning {
  import opened PyStr

  predicate IsAscii(c: char) {
    (c as int) < 128
  }

  /** What the printable filter keeps: printable characters, `\n` and `\r`. */
  predicate KeptByPrintableFilter(c: char) {
    IsPrintable(c) || c == '\n' || c == '\r'
  }

  /** Printable ASCII other than the space: the characters no step of cleaning touches. */
  predicate IsVisible(c: char) {
    '!' <= c <= '~'
  }

  /** The characters of `s` that satisfy `keep`, in order. */
  function Keep(s: string, keep: char -> bool): (r: string)
    ensures |r| <= |s|
    ensures forall k :: 0 <= k < |r| ==> keep(r[k])
    decreases |s|
  {
    if |s| == 0 then ""
    else if keep(s[0]) then [s[0]] + Keep(s[1..], keep)
    else Keep(s[1..], keep)
  }

  /** `re.sub(r"\s+", " ", s)`: every maximal whitespace run becomes one space. */
  function Collapse(s: string): (r: string)
    ensures |r| == 0 <==> |s| == 0
    ensures |s| > 0 ==> (IsSpace(r[0]) <==> IsSpace(s[0]))
    decreases |s|
  {
    if |s| == 0 then ""
    else if IsSpace(s[0]) then " " + Collapse(TrimStart(s))
    else
      var n := TokenLen(s);
      s[..n] + Collapse(s[n..])
  }

  /** Lines 20-22 of the sanitizer, applied to the already-decomposed text. */
  function Clean(decomposed: string): string
  {
    Collapse(Keep(Keep(decomposed, IsAscii), KeptByPrintableFilter))
  }

  /** The cleaned text is printable ASCII, its only whitespace is single
      spaces, and its visible characters are exactly those of the input, in
      order. */
  lemma CleanResult(decomposed: string)
    ensures Printable(Clean(decomposed))
    ensures SingleSpaced(Clean(decomposed))
    ensures Keep(Clean(decomposed), IsVisible) == Keep(decomposed, IsVisible)
  {
    var ascii := Keep(decomposed, IsAscii);
    var printable := Keep(ascii, KeptByPrintableFilter);
    CollapsePrintable(printable);
    CollapseSingleSpaced(printable);
    CollapseKeepsVisible(printable);
    KeepKeep(ascii, KeptByPrintableFilter, IsVisible);
    KeepKeep(decomposed, IsAscii, IsVisible);
  }

  // ---------------------------------------------------------------------
  // Filtering

  lemma {:induction false} KeepAppend(a: string, b: string, keep: char -> bool)
    ensures Keep(a + b, keep) == Keep(a, keep) + Keep(b, keep)
    decreases |a|
  {
    if |a| == 0 {
      assert a + b == b;
    } else {
      assert (a + b)[1..] == a[1..] + b;
      KeepAppend(a[1..], b, keep);
    }
  }

  lemma {:induction false} KeepAll(s: string, keep: char -> bool)
    requires forall k :: 0 <= k < |s| ==> keep(s[k])
    ensures Keep(s, keep) == s
    decreases |s|
  {
    if |s| > 0 {
      KeepAll(s[1..], keep);
    }
  }

  /** Filtering twice, with a second filter stricter than the first, is filtering once. */
  lemma {:induction false} KeepKeep(s: string, first: char -> bool, second: char -> bool)
    requires forall c :: second(c) ==> first(c)
    ensures Keep(Keep(s, first), second) == Keep(s, second)
    decreases |s|
  {
    if |s| > 0 {
      KeepKeep(s[1..], first, second);
    }
  }

  // ---------------------------------------------------------------------
  // Collapsing whitespace

  lemma SingleSpacedConcat(a: string, b: string)
    requires SingleSpaced(a) && SingleSpaced(b)
    requires a == [] || b == [] || a[|a| - 1] != ' ' || b[0] != ' '
    ensures SingleSpaced(a + b)
  {
    var ab := a + b;
    forall k | 0 <= k < |ab| - 1
      ensures !(ab[k] == ' ' && ab[k + 1] == ' ')
    {
      if k + 1 < |a| {
        assert ab[k] == a[k] && ab[k + 1] == a[k + 1];
      } else if k >= |a| {
        assert ab[k] == b[k - |a|] && ab[k + 1] == b[k + 1 - |a|];
      }
    }
  }

  /** After collapsing, whitespace occurs only as single spaces. */
  lemma {:induction false} CollapseSingleSpaced(s: string)
    ensures SingleSpaced(Collapse(s))
    decreases |s|, 1
  {
    if |s| == 0 {
    } else if IsSpace(s[0]) {
      CollapseSingleSpacedAtSpace(s);
    } else {
      CollapseSingleSpacedAtWord(s);
    }
  }

  lemma {:induction false} CollapseSingleSpacedAtSpace(s: string)
    requires |s| > 0 && IsSpace(s[0])
    ensures SingleSpaced(Collapse(s))
    decreases |s|, 0
  {
    var t := TrimStart(s);
    TrimStartSpec(s);
    CollapseSingleSpaced(t);
    SingleSpacedConcat(" ", Collapse(t));
  }

  lemma {:induction false} CollapseSingleSpacedAtWord(s: string)
    requires |s| > 0 && !IsSpace(s[0])
    ensures SingleSpaced(Collapse(s))
    decreases |s|, 0
  {
    var n := TokenLen(s);
    CollapseSingleSpaced(s[n..]);
    SingleSpacedConcat(s[..n], Collapse(s[n..]));
  }

  /** Collapsing the output of the printable filter leaves printable ASCII only. */
  lemma {:induction false} CollapsePrintable(s: string)
    requires forall k :: 0 <= k < |s| ==> KeptByPrintableFilter(s[k])
    ensures Printable(Collapse(s))
    decreases |s|, 1
  {
    if |s| == 0 {
    } else if IsSpace(s[0]) {
      CollapsePrintableAtSpace(s);
    } else {
      CollapsePrintableAtWord(s);
    }
  }

  lemma {:induction false} CollapsePrintableAtSpace(s: string)
    requires forall k :: 0 <= k < |s| ==> KeptByPrintableFilter(s[k])
    requires |s| > 0 && IsSpace(s[0])
    ensures Printable(Collapse(s))
    decreases |s|, 0
  {
    var t := TrimStart(s);
    TrimStartSpec(s);
    CollapsePrintable(t);
    var rt := Collapse(t);
    var r := " " + rt;
    assert r == Collapse(s);
    assert forall k :: 1 <= k < |r| ==> r[k] == rt[k - 1];
  }

  lemma {:induction false} CollapsePrintableAtWord(s: string)
    requires forall k :: 0 <= k < |s| ==> KeptByPrintableFilter(s[k])
    requires |s| > 0 && !IsSpace(s[0])
    ensures Printable(Collapse(s))
    decreases |s|, 0
  {
    var n := TokenLen(s);
    CollapsePrintable(s[n..]);
    var rt := Collapse(s[n..]);
    var r := s[..n] + rt;
    assert r == Collapse(s);
    forall k | 0 <= k < |r|
      ensures IsPrintable(r[k])
    {
      if k < n {
        assert r[k] == s[k];
        KeptNonSpaceIsPrintable(s[k]);
      } else {
        assert r[k] == rt[k - n];
      }
    }
  }

  lemma KeptNonSpaceIsPrintable(c: char)
    requires KeptByPrintableFilter(c) && !IsSpace(c)
    ensures IsPrintable(c)
  {
  }

  /** Collapsing touches whitespace only: the visible characters stay, in order. */
  lemma {:induction false} CollapseKeepsVisible(s: string)
    ensures Keep(Collapse(s), IsVisible) == Keep(s, IsVisible)
    decreases |s|, 1
  {
    if |s| == 0 {
    } else if IsSpace(s[0]) {
      CollapseKeepsVisibleAtSpace(s);
    } else {
      CollapseKeepsVisibleAtWord(s);
    }
  }

  lemma {:induction false} CollapseKeepsVisibleAtSpace(s: string)
    requires |s| > 0 && IsSpace(s[0])
    ensures Keep(Collapse(s), IsVisible) == Keep(s, IsVisible)
    decreases |s|, 0
  {
    var t := TrimStart(s);
    TrimStartSpec(s);
    var lead := s[..|s| - |t|];
    var rt := Collapse(t);
    assert Collapse(s) == " " + rt;
    CollapseKeepsVisible(t);
    KeepAppend(" ", rt, IsVisible);
    assert Keep(" ", IsVisible) == [];
    assert Keep(Collapse(s), IsVisible) == Keep(t, IsVisible);
    SplitAt(s, |s| - |t|);
    KeepAppend(lead, t, IsVisible);
    NoVisibleInSpace(lead);
  }

  /** Whitespace holds no visible character. */
  lemma {:induction false} NoVisibleInSpace(s: string)
    requires AllSpace(s)
    ensures Keep(s, IsVisible) == []
    decreases |s|
  {
    if |s| > 0 {
      SpaceIsNotVisible(s[0]);
      NoVisibleInSpace(s[1..]);
    }
  }

  lemma SpaceIsNotVisible(c: char)
    requires IsSpace(c)
    ensures !IsVisible(c)
  {
  }

  lemma {:induction false} CollapseKeepsVisibleAtWord(s: string)
    requires |s| > 0 && !IsSpace(s[0])
    ensures Keep(Collapse(s), IsVisible) == Keep(s, IsVisible)
    decreases |s|, 0
  {
    var n := TokenLen(s);
    SplitAt(s, n);
    CollapseKeepsVisible(s[n..]);
    KeepAppend(s[..n], Collapse(s[n..]), IsVisible);
    KeepAppend(s[..n], s[n..], IsVisible);
  }

  /** Collapsing whitespace runs keeps every word, in order. */
  lemma {:induction false} CollapseKeepsWords(s: string)
    ensures Words(Collapse(s)) == Words(s)
    decreases |s|, 1
  {
    if |s| == 0 {
    } else if IsSpace(s[0]) {
      CollapseKeepsWordsAtSpace(s);
    } else {
      CollapseKeepsWordsAtWord(s);
    }
  }

  lemma {:induction false} CollapseKeepsWordsAtSpace(s: string)
    requires |s| > 0 && IsSpace(s[0])
    ensures Words(Collapse(s)) == Words(s)
    decreases |s|, 0
  {
    var t := TrimStart(s);
    TrimStartSpec(s);
    var lead := s[..|s| - |t|];
    SplitAt(s, |s| - |t|);
    CollapseKeepsWords(t);
    assert (" " + Collapse(t))[1..] == Collapse(t);
    assert lead + t + "" == s;
    WordsAroundSpace(lead, t, "");
  }

  lemma {:induction false} CollapseKeepsWordsAtWord(s: string)
    requires |s| > 0 && !IsSpace(s[0])
    ensures Words(Collapse(s)) == Words(s)
    decreases |s|, 0
  {
    var n := TokenLen(s);
    SplitAt(s, n);
    CollapseKeepsWords(s[n..]);
    WordsAppend(s[..n], Collapse(s[n..]));
    WordsAppend(s[..n], s[n..]);
  }

  /** Text that is already single-spaced is left as it is. */
  lemma {:induction false} CollapseOfSingleSpaced(s: string)
    requires SingleSpaced(s)
    ensures Collapse(s) == s
    decreases |s|, 1
  {
    if |s| == 0 {
    } else if IsSpace(s[0]) {
      CollapseOfSingleSpacedAtSpace(s);
    } else {
      CollapseOfSingleSpacedAtWord(s);
    }
  }

  lemma {:induction false} CollapseOfSingleSpacedAtSpace(s: string)
    requires SingleSpaced(s)
    requires |s| > 0 && IsSpace(s[0])
    ensures Collapse(s) == s
    decreases |s|, 0
  {
    assert s[0] == ' ';
    assert |s| == 1 || !IsSpace(s[1]);
    var t := TrimStart(s);
    TrimStartSpec(s);
    assert t == s[1..];
    CollapseOfSingleSpaced(t);
  }

  lemma {:induction false} CollapseOfSingleSpacedAtWord(s: string)
    requires SingleSpaced(s)
    requires |s| > 0 && !IsSpace(s[0])
    ensures Collapse(s) == s
    decreases |s|, 0
  {
    var n := TokenLen(s);
    SplitAt(s, n);
    CollapseOfSingleSpaced(s[n..]);
  }

  /** Cleaning is idempotent: cleaned text comes through a second cleaning unchanged. */
  lemma CleanIdempotent(s: string)
    ensures Clean(Clean(s)) == Clean(s)
  {
    var c := Clean(s);
    CleanResult(s);
    KeepAll(c, IsAscii);
    KeepAll(c, KeptByPrintableFilter);
    CollapseOfSingleSpaced(c);
  }
}
