/** The sentence segmenter: `re.split(r"(?<=[.!?])\s+", text)`, used both by
    the line formatter and by the chunker. The text is cut at every maximal
    run of whitespace that directly follows `.`, `!` or `?`; the run itself is
    dropped. */
module Segmenter {
  import opened PyStr

  /** Position `i` is where the pattern can start matching: just after
      terminal punctuation, on a whitespace character. */
  predicate IsBoundary(s: string, i: int) {
    0 < i < |s| && IsTerminal(s[i - 1]) && IsSpace(s[i])
  }

  /** No terminal punctuation in `p` is directly followed by whitespace. */
  predicate NoBoundary(p: string) {
    forall m :: 0 <= m < |p| ==> !IsBoundary(p, m)
  }

  /** The first boundary at or after `k`, or `|s|` when there is none. */
  function NextBoundary(s: string, k: nat): (i: nat)
    requires k <= |s|
    ensures k <= i <= |s|
    ensures i < |s| ==> IsBoundary(s, i)
    ensures forall m :: k <= m < i ==> !IsBoundary(s, m)
    decreases |s| - k
  {
    if k == |s| then |s|
    else if IsBoundary(s, k) then k
    else NextBoundary(s, k + 1)
  }

  /** The end of the whitespace run that starts at `i`. */
  function SpaceRunEnd(s: string, i: nat): (j: nat)
    requires i <= |s|
    ensures i <= j <= |s|
    ensures AllSpace(s[i..j])
    ensures j < |s| ==> !IsSpace(s[j])
    decreases |s| - i
  {
    if i < |s| && IsSpace(s[i]) then SpaceRunEnd(s, i + 1) else i
  }

  /** `re.split(r"(?<=[.!?])\s+", s)`: never empty, `[""]` for the empty text. */
  function SplitSentences(s: string): (r: seq<string>)
    ensures |r| >= 1
    decreases |s|
  {
    var i := NextBoundary(s, 0);
    if i == |s| then [s]
    else
      var j := SpaceRunEnd(s, i);
      [s[..i]] + SplitSentences(s[j..])
  }

  // ---------------------------------------------------------------------

  /** A prefix that ends before the first boundary has no boundary. */
  lemma PrefixBeforeBoundary(s: string, i: nat)
    requires i <= |s|
    requires forall m :: 0 <= m < i ==> !IsBoundary(s, m)
    ensures NoBoundary(s[..i])
  {
    forall m
      ensures !IsBoundary(s[..i], m)
    {
      if IsBoundary(s[..i], m) {
        assert IsBoundary(s, m);
      }
    }
  }

  /** Every piece is free of sentence boundaries, and every piece but the last
      ends with terminal punctuation. */
  lemma {:induction false} SentencePieces(s: string)
    ensures forall k :: 0 <= k < |SplitSentences(s)| ==> NoBoundary(SplitSentences(s)[k])
    ensures forall k :: 0 <= k < |SplitSentences(s)| - 1 ==> EndsWithTerminal(SplitSentences(s)[k])
    decreases |s|
  {
    var i := NextBoundary(s, 0);
    PrefixBeforeBoundary(s, i);
    if i == |s| {
      assert s[..i] == s;
    } else {
      var j := SpaceRunEnd(s, i);
      var rest := SplitSentences(s[j..]);
      SentencePieces(s[j..]);
      var r := [s[..i]] + rest;
      assert r == SplitSentences(s);
      assert EndsWithTerminal(s[..i]);
      assert forall k :: 1 <= k < |r| ==> r[k] == rest[k - 1];
    }
  }

  /** Text without a boundary is one sentence, whole. */
  lemma WholeWhenNoBoundary(s: string)
    requires NoBoundary(s)
    ensures SplitSentences(s) == [s]
  {
    assert NextBoundary(s, 0) == |s|;
  }

  /** Splitting removes whitespace only: the words of the pieces, in order,
      are the words of the text. */
  lemma {:induction false} SplitKeepsWords(s: string)
    ensures WordsOfAll(SplitSentences(s)) == Words(s)
    decreases |s|
  {
    var i := NextBoundary(s, 0);
    if i == |s| {
      WordsOfAllSnoc([], s);
      assert [] + [s] == [s];
    } else {
      var j := SpaceRunEnd(s, i);
      SplitKeepsWordsAt(s, i, j);
    }
  }

  lemma {:induction false} SplitKeepsWordsAt(s: string, i: nat, j: nat)
    requires i == NextBoundary(s, 0) < |s| && j == SpaceRunEnd(s, i)
    ensures WordsOfAll(SplitSentences(s)) == Words(s)
    decreases |s|, 0
  {
    var rest := SplitSentences(s[j..]);
    assert SplitSentences(s) == [s[..i]] + rest;
    assert WordsOfAll([s[..i]] + rest) == Words(s[..i]) + Words(s[j..]) by {
      SplitKeepsWords(s[j..]);
      WordsOfAllCons(s[..i], rest);
    }
    assert Words(s) == Words(s[..i]) + Words(s[j..]) by {
      assert s == s[..i] + s[i..j] + s[j..];
      WordsAcrossSpace(s[..i], s[i..j], s[j..]);
    }
  }

  /** On single-spaced text, rejoining the pieces with one space rebuilds the text. */
  lemma {:induction false} SplitJoinRoundTrip(s: string)
    requires SingleSpaced(s)
    ensures Join(SplitSentences(s), " ") == s
    decreases |s|
  {
    var i := NextBoundary(s, 0);
    if i < |s| {
      SplitJoinAt(s, i);
    }
  }

  lemma {:induction false} SplitJoinAt(s: string, i: nat)
    requires SingleSpaced(s)
    requires i == NextBoundary(s, 0) < |s|
    ensures Join(SplitSentences(s), " ") == s
    decreases |s|, 0
  {
    assert s[i] == ' ';
    assert i + 1 == |s| || !IsSpace(s[i + 1]);
    assert SpaceRunEnd(s, i + 1) == i + 1;
    var tail := s[i + 1..];
    var rest := SplitSentences(tail);
    assert SplitSentences(s) == [s[..i]] + rest;
    assert SingleSpaced(tail) by {
      assert forall k :: 0 <= k < |tail| ==> tail[k] == s[k + i + 1];
    }
    SplitJoinRoundTrip(tail);
    assert ([s[..i]] + rest)[1..] == rest;
    assert s == s[..i] + " " + tail;
  }
}
