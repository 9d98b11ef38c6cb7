/** The Python string primitives the sanitizer relies on: `str.isspace`
    (which is also what the `\s` class of `re` matches on str patterns),
    `str.split()` with no argument, `str.strip()`, `sep.join(parts)` and
    `str.endswith((".", "!", "?"))`. */
module PyStr {

  /** Python's `str.isspace`, equal to the `\s` class of `re` on str patterns. */
  predicate IsSpace(c: char) {
    var n := c as int;
    (9 <= n <= 13) || (0x1C <= n <= 0x20) || n == 0x85 || n == 0xA0 || n == 0x1680
    || (0x2000 <= n <= 0x200A) || n == 0x2028 || n == 0x2029 || n == 0x202F
    || n == 0x205F || n == 0x3000
  }

  /** `str.isprintable` restricted to ASCII: the characters from space to tilde. */
  predicate IsPrintable(c: char) {
    ' ' <= c <= '~'
  }

  /** Every character of `s` is printable ASCII. */
  predicate Printable(s: string) {
    forall k :: 0 <= k < |s| ==> IsPrintable(s[k])
  }

  /** Sentence-terminal punctuation, as in `[.!?]` and `endswith((".", "!", "?"))`. */
  predicate IsTerminal(c: char) {
    c == '.' || c == '!' || c == '?'
  }

  predicate EndsWithTerminal(w: string) {
    |w| > 0 && IsTerminal(w[|w| - 1])
  }

  /** What `str.split()` can yield: a non-empty run of non-whitespace. */
  predicate IsWord(w: string) {
    |w| > 0 && forall k :: 0 <= k < |w| ==> !IsSpace(w[k])
  }

  predicate AllWords(ws: seq<string>) {
    forall k :: 0 <= k < |ws| ==> IsWord(ws[k])
  }

  /** A word made only of printable ASCII. */
  predicate IsPrintableWord(w: string) {
    IsWord(w) && Printable(w)
  }

  predicate AllPrintableWords(ws: seq<string>) {
    forall k :: 0 <= k < |ws| ==> IsPrintableWord(ws[k])
  }

  predicate AllSpace(s: string) {
    forall k :: 0 <= k < |s| ==> IsSpace(s[k])
  }

  /** Whitespace occurs only as single spaces: no tab, newline or other
      whitespace, and never two spaces in a row. */
  predicate SingleSpaced(s: string) {
    (forall k :: 0 <= k < |s| ==> IsSpace(s[k]) ==> s[k] == ' ')
    && (forall k :: 0 <= k < |s| - 1 ==> !(s[k] == ' ' && s[k + 1] == ' '))
  }

  /** Length of the run of non-whitespace characters that starts `s`. */
  function TokenLen(s: string): (n: nat)
    ensures n <= |s|
    ensures forall k :: 0 <= k < n ==> !IsSpace(s[k])
    ensures n < |s| ==> IsSpace(s[n])
  {
    if |s| == 0 || IsSpace(s[0]) then 0 else 1 + TokenLen(s[1..])
  }

  /** `s.split()`: the maximal runs of non-whitespace, in order. */
  function Words(s: string): (r: seq<string>)
    ensures AllWords(r)
    decreases |s|
  {
    if |s| == 0 then []
    else if IsSpace(s[0]) then Words(s[1..])
    else
      var n := TokenLen(s);
      [s[..n]] + Words(s[n..])
  }

  /** `sep.join(parts)`. */
  function Join(parts: seq<string>, sep: string): string
    decreases |parts|
  {
    if |parts| == 0 then ""
    else if |parts| == 1 then parts[0]
    else parts[0] + sep + Join(parts[1..], sep)
  }

  /** `s.lstrip()`: drops leading whitespace (see `TrimStartSpec`). */
  function TrimStart(s: string): (r: string)
    ensures |r| <= |s|
    decreases |s|
  {
    if |s| > 0 && IsSpace(s[0]) then TrimStart(s[1..]) else s
  }

  /** `s.rstrip()`: drops trailing whitespace (see `TrimEndSpec`). */
  function TrimEnd(s: string): (r: string)
    ensures |r| <= |s|
    decreases |s|
  {
    if |s| > 0 && IsSpace(s[|s| - 1]) then TrimEnd(s[..|s| - 1]) else s
  }

  /** Neither starts nor ends with whitespace. */
  predicate Stripped(s: string) {
    s == [] || (!IsSpace(s[0]) && !IsSpace(s[|s| - 1]))
  }

  /** `s.strip()` (see `StripSpec`). */
  function Strip(s: string): string
  {
    TrimEnd(TrimStart(s))
  }

  /** The words of every part, concatenated in order. */
  function WordsOfAll(parts: seq<string>): seq<string>
  {
    if |parts| == 0 then [] else WordsOfAll(parts[..|parts| - 1]) + Words(parts[|parts| - 1])
  }

  // ---------------------------------------------------------------------
  // Lemmas about str.strip()

  /** `lstrip` removes a run of whitespace from the front and nothing else:
      what it keeps is a suffix that does not start with whitespace. */
  lemma {:induction false} TrimStartSpec(s: string)
    ensures TrimStart(s) == s[|s| - |TrimStart(s)|..]
    ensures AllSpace(s[..|s| - |TrimStart(s)|])
    ensures |TrimStart(s)| > 0 ==> !IsSpace(TrimStart(s)[0])
    decreases |s|
  {
    if |s| > 0 && IsSpace(s[0]) {
      var t := s[1..];
      var r := TrimStart(t);
      assert r == t[|t| - |r|..] && AllSpace(t[..|t| - |r|]) && (|r| > 0 ==> !IsSpace(r[0])) by {
        TrimStartSpec(t);
      }
      assert t[|t| - |r|..] == s[|s| - |r|..];
      assert s[..|s| - |r|] == [s[0]] + t[..|t| - |r|];
    }
  }

  /** `rstrip` removes a run of whitespace from the back and nothing else:
      what it keeps is a prefix that does not end with whitespace. */
  lemma {:induction false} TrimEndSpec(s: string)
    ensures TrimEnd(s) == s[..|TrimEnd(s)|]
    ensures AllSpace(s[|TrimEnd(s)|..])
    ensures |TrimEnd(s)| > 0 ==> !IsSpace(TrimEnd(s)[|TrimEnd(s)| - 1])
    decreases |s|
  {
    if |s| > 0 && IsSpace(s[|s| - 1]) {
      var t := s[..|s| - 1];
      TrimEndSpec(t);
      var r := TrimEnd(t);
      assert t[..|r|] == s[..|r|];
      assert s[|r|..] == t[|r|..] + [s[|s| - 1]];
    }
  }

  /** `strip` leaves whitespace at neither end. */
  lemma StripEnds(s: string)
    ensures Stripped(Strip(s))
  {
    var t := TrimStart(s);
    var r := TrimEnd(t);
    assert |t| > 0 ==> !IsSpace(t[0]) by {
      TrimStartSpec(s);
    }
    assert r == t[..|r|] && (|r| > 0 ==> !IsSpace(r[|r| - 1])) by {
      TrimEndSpec(t);
    }
    if |r| > 0 {
      assert r[0] == t[0];
    }
  }

  /** `strip` removes nothing but whitespace: the text is leading whitespace,
      the stripped text and trailing whitespace, in that order. */
  lemma StripSpec(s: string)
    ensures var i := |s| - |TrimStart(s)|;
            && 0 <= i <= i + |Strip(s)| <= |s|
            && s == s[..i] + Strip(s) + s[i + |Strip(s)|..]
            && AllSpace(s[..i]) && AllSpace(s[i + |Strip(s)|..])
  {
    var t := TrimStart(s);
    TrimStartSpec(s);
    TrimEndSpec(t);
    ThreePieces(s, t, TrimEnd(t));
  }

  /** A prefix `r` of a suffix `t` of `s` cuts `s` in three. */
  lemma ThreePieces<T>(s: seq<T>, t: seq<T>, r: seq<T>)
    requires |t| <= |s| && t == s[|s| - |t|..]
    requires |r| <= |t| && r == t[..|r|]
    ensures s == s[..|s| - |t|] + r + s[|s| - |t| + |r|..]
    ensures s[|s| - |t| + |r|..] == t[|r|..]
  {
    var i := |s| - |t|;
    assert r == s[i..i + |r|];
  }

  // ---------------------------------------------------------------------
  // Lemmas about str.split()

  /** Concatenation of sequences is associative. */
  lemma Assoc<T>(a: seq<T>, b: seq<T>, c: seq<T>)
    ensures a + (b + c) == a + b + c
  {
  }

  lemma AppendEmpty<T>(a: seq<T>)
    ensures a + [] == a
  {
  }

  /** A string is its prefix up to `n` followed by its suffix from `n`. */
  lemma SplitAt(s: string, n: nat)
    requires n <= |s|
    ensures s == s[..n] + s[n..]
  {
  }

  lemma {:induction false} TokenLenAppend(x: string, y: string)
    ensures TokenLen(x + y) == if TokenLen(x) < |x| then TokenLen(x) else |x| + TokenLen(y)
    decreases |x|
  {
    if |x| == 0 {
      assert x + y == y;
    } else if !IsSpace(x[0]) {
      assert (x + y)[1..] == x[1..] + y;
      TokenLenAppend(x[1..], y);
    }
  }

  /** Splitting distributes over concatenation when the two halves meet at whitespace. */
  lemma {:induction false} WordsAppend(x: string, y: string)
    requires x == [] || y == [] || IsSpace(x[|x| - 1]) || IsSpace(y[0])
    ensures Words(x + y) == Words(x) + Words(y)
    decreases |x|
  {
    var z := x + y;
    if |x| == 0 {
      assert z == y;
    } else if IsSpace(x[0]) {
      assert z[1..] == x[1..] + y;
      WordsAppend(x[1..], y);
    } else {
      WordsAppendAtWord(x, y);
    }
  }

  lemma {:induction false} WordsAppendAtWord(x: string, y: string)
    requires x != [] && !IsSpace(x[0])
    requires y == [] || IsSpace(x[|x| - 1]) || IsSpace(y[0])
    ensures Words(x + y) == Words(x) + Words(y)
    decreases |x|, 0
  {
    var z := x + y;
    var m := TokenLen(x);
    assert TokenLen(z) == m by {
      TokenLenAppend(x, y);
    }
    assert Words(z) == [x[..m]] + Words(x[m..] + y) by {
      assert z[0] == x[0];
      assert z[..m] == x[..m];
      assert z[m..] == x[m..] + y;
    }
    assert Words(x[m..] + y) == Words(x[m..]) + Words(y) by {
      WordsAppend(x[m..], y);
    }
    assert Words(x) == [x[..m]] + Words(x[m..]);
    Assoc([x[..m]], Words(x[m..]), Words(y));
  }

  /** A string of whitespace has no words. */
  lemma {:induction false} WordsOfSpace(s: string)
    requires AllSpace(s)
    ensures Words(s) == []
    decreases |s|
  {
    if |s| > 0 {
      WordsOfSpace(s[1..]);
    }
  }

  lemma {:induction false} TokenLenOfNonSpace(w: string)
    requires forall k :: 0 <= k < |w| ==> !IsSpace(w[k])
    ensures TokenLen(w) == |w|
    decreases |w|
  {
    if |w| > 0 {
      TokenLenOfNonSpace(w[1..]);
    }
  }

  /** A word splits to itself. */
  lemma WordsOfWord(w: string)
    requires IsWord(w)
    ensures Words(w) == [w]
  {
    TokenLenOfNonSpace(w);
    assert w[..|w|] == w;
    assert w[|w|..] == [];
  }

  /** Round trip: splitting words joined by single spaces gives the words back. */
  lemma {:induction false} WordsOfJoin(ws: seq<string>)
    requires AllWords(ws)
    ensures Words(Join(ws, " ")) == ws
    decreases |ws|
  {
    if |ws| == 1 {
      WordsOfWord(ws[0]);
    } else if |ws| > 1 {
      var rest := Join(ws[1..], " ");
      assert Words(" " + rest) == ws[1..] by {
        WordsOfJoin(ws[1..]);
        assert (" " + rest)[1..] == rest;
      }
      assert Words(ws[0] + (" " + rest)) == [ws[0]] + ws[1..] by {
        WordsOfWord(ws[0]);
        WordsAppend(ws[0], " " + rest);
      }
      Assoc(ws[0], " ", rest);
      assert ws == [ws[0]] + ws[1..];
    }
  }

  /** Splitting ignores whitespace put in front of or after a string. */
  lemma WordsAroundSpace(lead: string, core: string, trail: string)
    requires AllSpace(lead) && AllSpace(trail)
    ensures Words(lead + core + trail) == Words(core)
  {
    assert Words(core + trail) == Words(core) by {
      WordsOfSpace(trail);
      WordsAppend(core, trail);
      AppendEmpty(Words(core));
    }
    assert Words(lead + (core + trail)) == Words(core + trail) by {
      WordsOfSpace(lead);
      WordsAppend(lead, core + trail);
    }
    Assoc(lead, core, trail);
  }

  /** A non-empty whitespace run between two strings separates their words. */
  lemma WordsAcrossSpace(a: string, sp: string, b: string)
    requires |sp| > 0 && AllSpace(sp)
    ensures Words(a + sp + b) == Words(a) + Words(b)
  {
    var c := sp + b;
    assert Words(c) == Words(b) by {
      WordsAppend(sp, b);
      WordsOfSpace(sp);
    }
    assert Words(a + c) == Words(a) + Words(c) by {
      assert c[0] == sp[0];
      WordsAppend(a, c);
    }
    Assoc(a, sp, b);
  }

  /** Stripping removes only whitespace, so it keeps every word. */
  lemma StripKeepsWords(s: string)
    ensures Words(Strip(s)) == Words(s)
  {
    StripSpec(s);
    var i := |s| - |TrimStart(s)|;
    WordsAroundSpace(s[..i], Strip(s), s[i + |Strip(s)|..]);
  }

  /** The words of printable text are printable. */
  lemma {:induction false} WordsOfPrintable(s: string)
    requires Printable(s)
    ensures AllPrintableWords(Words(s))
    decreases |s|
  {
    if |s| > 0 {
      if IsSpace(s[0]) {
        WordsOfPrintable(s[1..]);
      } else {
        var n := TokenLen(s);
        WordsOfPrintable(s[n..]);
        assert Printable(s[..n]);
      }
    }
  }

  // ---------------------------------------------------------------------
  // Lemmas about sep.join(parts)

  /** Appending one more part to a join. */
  lemma {:induction false} JoinSnoc(parts: seq<string>, p: string, sep: string)
    requires |parts| > 0
    ensures Join(parts + [p], sep) == Join(parts, sep) + sep + p
    decreases |parts|
  {
    if |parts| > 1 {
      assert (parts + [p])[1..] == parts[1..] + [p];
      JoinSnoc(parts[1..], p, sep);
    } else {
      assert (parts + [p])[1..] == [p];
    }
  }

  /** Words joined by single spaces start and end with a non-space character. */
  lemma {:induction false} JoinEnds(ws: seq<string>)
    requires AllWords(ws) && |ws| > 0
    ensures |Join(ws, " ")| > 0
    ensures !IsSpace(Join(ws, " ")[0]) && !IsSpace(Join(ws, " ")[|Join(ws, " ")| - 1])
    decreases |ws|
  {
    if |ws| > 1 {
      JoinEnds(ws[1..]);
    }
  }

  /** Printable words joined by single spaces are printable. */
  lemma {:induction false} JoinPrintable(ws: seq<string>)
    requires AllPrintableWords(ws)
    ensures Printable(Join(ws, " "))
    decreases |ws|
  {
    if |ws| > 1 {
      JoinPrintable(ws[1..]);
      var j := Join(ws[1..], " ");
      assert Join(ws, " ") == ws[0] + " " + j;
      forall k | 0 <= k < |Join(ws, " ")|
        ensures IsPrintable(Join(ws, " ")[k])
      {
        if k < |ws[0]| {
        } else if k > |ws[0]| {
          assert Join(ws, " ")[k] == j[k - |ws[0]| - 1];
        }
      }
    }
  }

  /** Appending one more part to the words of a list of parts. */
  lemma WordsOfAllSnoc(parts: seq<string>, p: string)
    ensures WordsOfAll(parts + [p]) == WordsOfAll(parts) + Words(p)
  {
    assert (parts + [p])[..|parts|] == parts;
  }

  /** Prepending one more part to the words of a list of parts. */
  lemma {:induction false} WordsOfAllCons(p: string, parts: seq<string>)
    ensures WordsOfAll([p] + parts) == Words(p) + WordsOfAll(parts)
    decreases |parts|
  {
    if |parts| == 0 {
      assert [p] + parts == [] + [p];
      WordsOfAllSnoc([], p);
    } else {
      var init := parts[..|parts| - 1];
      var last := parts[|parts| - 1];
      var front := [p] + init;
      assert [p] + parts == front + [last];
      assert parts == init + [last];
      WordsOfAllSnoc(front, last);
      WordsOfAllCons(p, init);
      WordsOfAllSnoc(init, last);
    }
  }

  /** The words of two lists of parts, one after the other. */
  lemma {:induction false} WordsOfAllAppend(a: seq<string>, b: seq<string>)
    ensures WordsOfAll(a + b) == WordsOfAll(a) + WordsOfAll(b)
    decreases |b|
  {
    if |b| == 0 {
      assert a + b == a;
    } else {
      var init := b[..|b| - 1];
      var last := b[|b| - 1];
      assert a + b == (a + init) + [last];
      assert b == init + [last];
      WordsOfAllSnoc(a + init, last);
      WordsOfAllAppend(a, init);
      WordsOfAllSnoc(init, last);
    }
  }

  /** Joining parts with single spaces neither merges nor drops words. */
  lemma {:induction false} WordsOfJoinedParts(parts: seq<string>)
    ensures Words(Join(parts, " ")) == WordsOfAll(parts)
    decreases |parts|
  {
    if |parts| == 1 {
      WordsOfAllSnoc([], parts[0]);
      assert [] + [parts[0]] == parts;
    } else if |parts| > 1 {
      var rest := parts[1..];
      var j := Join(rest, " ");
      assert Words(parts[0] + " " + j) == Words(parts[0]) + Words(j) by {
        assert AllSpace(" ");
        WordsAcrossSpace(parts[0], " ", j);
      }
      assert Words(j) == WordsOfAll(rest) by {
        WordsOfJoinedParts(rest);
      }
      assert WordsOfAll(parts) == Words(parts[0]) + WordsOfAll(rest) by {
        WordsOfAllCons(parts[0], rest);
        assert [parts[0]] + rest == parts;
      }
    }
  }
}
