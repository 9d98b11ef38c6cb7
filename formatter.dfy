/** The line formatter of `sanitize_and_format_text`: the cleaned text is cut
    into sentences, and their words are laid out on lines. A line is closed
    after a word ending in `.`, `!` or `?` once it already holds at least
    `minWords` words, or at the end of a sentence once it holds at least
    `2 * minWords` words; what is left at the end is the last line. */
module Formatter {
  import opened PyStr
  import opened Cleaning
  import opened Segmenter

  /** Why a line was closed: on terminal punctuation, forced at the end of the
      first `sentencesDone` sentences, or the tail left over at the end. */
  datatype Flush = Punct | Forced(sentencesDone: nat) | Tail

  /** One output line: its words and why it ended. */
  datatype Line = Line(words: seq<string>, how: Flush)

  /** The text a line contributes to `formatted_text`: its words joined by
      single spaces, and a newline unless it is the tail. */
  function LineText(l: Line): string {
    Join(l.words, " ") + (if l.how.Tail? then "" else "\n")
  }

  /** The text of the lines, one after the other. */
  function Render(ls: seq<Line>): string {
    if |ls| == 0 then "" else Render(ls[..|ls| - 1]) + LineText(ls[|ls| - 1])
  }

  /** The words of the lines, one after the other. */
  function LineWords(ls: seq<Line>): seq<string> {
    if |ls| == 0 then [] else LineWords(ls[..|ls| - 1]) + ls[|ls| - 1].words
  }

  /** `current_line` as a function of the words it has collected: each word
      followed by one space. */
  function Pending(buf: seq<string>): string {
    if buf == [] then "" else Join(buf, " ") + " "
  }

  /** No word of `ws` would have closed the line on punctuation: none at
      position `minWords` or later ends with `.`, `!` or `?`. */
  predicate Silent(ws: seq<string>, minWords: int) {
    forall p :: 0 <= p < |ws| && p >= minWords ==> !EndsWithTerminal(ws[p])
  }

  /** Where sentence `m` ends, counted in words from the start of the text. */
  ghost function SentenceEnd(sentences: seq<string>, m: int): nat
    requires 0 <= m <= |sentences|
  {
    |WordsOfAll(sentences[..m])|
  }

  /** Where line `k` starts, counted in words from the start of the text. */
  ghost function LineStart(ls: seq<Line>, k: int): nat
    requires 0 <= k <= |ls|
  {
    |LineWords(ls[..k])|
  }

  /** No sentence ends strictly inside line `k` at a point where the line
      already held `2 * minWords` words: no forced break was skipped. */
  ghost predicate NoSkippedBreak(ls: seq<Line>, k: int, sentences: seq<string>, minWords: int)
    requires 0 <= k < |ls|
  {
    forall m :: 0 <= m <= |sentences| && LineStart(ls, k) < SentenceEnd(sentences, m) < LineStart(ls, k) + |ls[k].words|
      ==> SentenceEnd(sentences, m) - LineStart(ls, k) < 2 * minWords
  }

  /** Line `k` was closed by the rule its tag names, no earlier word of it met
      the punctuation rule, and no forced break was skipped inside it. A forced
      line ends exactly where sentence `sentencesDone` ends; the tail holds
      fewer than `2 * minWords` words, since the last sentence end did not
      force it closed. */
  ghost predicate LineOk(ls: seq<Line>, k: int, sentences: seq<string>, minWords: int)
    requires 0 <= k < |ls|
  {
    var w := ls[k].words;
    NoSkippedBreak(ls, k, sentences, minWords)
    && match ls[k].how
       case Punct =>
         |w| >= 1 && |w| - 1 >= minWords && EndsWithTerminal(w[|w| - 1]) && Silent(w[..|w| - 1], minWords)
       case Forced(n) =>
         |w| >= 2 * minWords && Silent(w, minWords) && n <= |sentences|
         && LineWords(ls[..k + 1]) == WordsOfAll(sentences[..n])
       case Tail =>
         |w| >= 1 && |w| < 2 * minWords && Silent(w, minWords)
  }

  ghost predicate LinesOk(ls: seq<Line>, sentences: seq<string>, minWords: int) {
    forall k :: 0 <= k < |ls| ==> LineOk(ls, k, sentences, minWords)
  }

  /** Only the last line may be the tail. */
  predicate TailLast(ls: seq<Line>) {
    forall k :: 0 <= k < |ls| - 1 ==> !ls[k].how.Tail?
  }

  /** Some line was forced closed at the end of sentence `m`. */
  ghost predicate HasForced(ls: seq<Line>, m: nat) {
    exists k :: 0 <= k < |ls| && ls[k].how == Forced(m)
  }

  /** Printable ASCII and newlines only. */
  predicate TextChars(s: string) {
    forall k :: 0 <= k < |s| ==> IsPrintable(s[k]) || s[k] == '\n'
  }

  /** Every sentence among the first `i` that ends inside the open line ended
      while the line held fewer than `2 * minWords` words. */
  ghost predicate OpenOk(lines: seq<Line>, sentences: seq<string>, i: int, minWords: int)
    requires 0 <= i <= |sentences|
  {
    forall m :: 0 <= m <= i && |LineWords(lines)| < SentenceEnd(sentences, m)
      ==> SentenceEnd(sentences, m) - |LineWords(lines)| < 2 * minWords
  }

  /** The loop's record between two words: the closed lines, and the words
      collected for the open line (`current_line` holds them, each followed
      by a space). */
  datatype State = State(lines: seq<Line>, buf: seq<string>)

  /** One word of the inner loop: it closes the open line when the line
      already holds at least `minWords` words and the word ends with `.`,
      `!` or `?`; otherwise it joins the open line. */
  function PushWord(st: State, w: string, minWords: int): State {
    if |st.buf| >= minWords && EndsWithTerminal(w) then State(st.lines + [Line(st.buf + [w], Punct)], [])
    else State(st.lines, st.buf + [w])
  }

  /** The words `ws`, one after the other: the specification that the word
      loop of `PushSentence` is proved to follow. */
  function PushWords(st: State, ws: seq<string>, minWords: int): State
    decreases |ws|
  {
    if |ws| == 0 then st else PushWord(PushWords(st, ws[..|ws| - 1], minWords), ws[|ws| - 1], minWords)
  }

  /** The end of sentence `n`: the open line is closed when it holds at least
      `2 * minWords` words. */
  function EndSentence(st: State, n: nat, minWords: int): State {
    if |st.buf| >= minWords * 2 then State(st.lines + [Line(st.buf, Forced(n))], []) else st
  }

  /** The record after the first `i` sentences: the specification that the
      sentence loop of `SanitizeAndFormat` is proved to follow. */
  function Run(sentences: seq<string>, i: nat, minWords: int): State
    requires i <= |sentences|
  {
    if i == 0 then State([], [])
    else EndSentence(PushWords(Run(sentences, i - 1, minWords), Words(sentences[i - 1]), minWords), i, minWords)
  }

  /** The lines of the formatted text: the closed lines, and the open line as
      the tail when it holds any word. `SanitizeAndFormat` writes exactly these. */
  function FormatLines(sentences: seq<string>, minWords: int): seq<Line> {
    var st := Run(sentences, |sentences|, minWords);
    if st.buf == [] then st.lines else st.lines + [Line(st.buf, Tail)]
  }

  /** What holds of the record after the words `done`, within sentence `i`:
      the closed lines and the open line hold `done`, in order; no closed
      line is the tail; and each closed line, and the open one so far, kept
      the rules. */
  ghost predicate LayoutOk(lines: seq<Line>, buf: seq<string>, done: seq<string>,
                           sentences: seq<string>, i: int, minWords: int)
  {
    LineWords(lines) + buf == done
    && AllWords(buf) && Silent(buf, minWords)
    && (forall k :: 0 <= k < |lines| ==> !lines[k].how.Tail?)
    && LinesOk(lines, sentences, minWords)
    && 0 <= i <= |sentences| && OpenOk(lines, sentences, i, minWords)
  }

  /** The inner loop of `sanitize_and_format_text`: the words of one
      sentence go onto `current_line` one by one, a line closing at a word that
      ends with terminal punctuation once `min_words_per_line` words wait. */
  method PushSentence(words: seq<string>, minWords: int, formatted0: string, current0: string,
                      count0: int, ghost lines0: seq<Line>, ghost buf0: seq<string>)
    returns (formatted: string, current: string, wordCount: int, ghost lines: seq<Line>, ghost buf: seq<string>)
    requires AllWords(words)
    requires current0 == Pending(buf0) && count0 == |buf0| && AllWords(buf0)
    requires formatted0 == Render(lines0)
    ensures State(lines, buf) == PushWords(State(lines0, buf0), words, minWords)
    ensures formatted == Render(PushWords(State(lines0, buf0), words, minWords).lines)
    ensures current == Pending(PushWords(State(lines0, buf0), words, minWords).buf)
    ensures wordCount == |PushWords(State(lines0, buf0), words, minWords).buf|
    ensures AllWords(buf)
  {
    formatted, current, wordCount, lines, buf := formatted0, current0, count0, lines0, buf0;
    var j := 0;
    while j < |words|
      invariant 0 <= j <= |words|
      invariant State(lines, buf) == PushWords(State(lines0, buf0), words[..j], minWords)
      invariant current == Pending(buf) && wordCount == |buf| && AllWords(buf)
      invariant formatted == Render(lines)
    {
      var word := words[j];
      PushWordsSnoc(State(lines0, buf0), words, j, minWords);
      if wordCount >= minWords && EndsWithTerminal(word) {
        PunctText(lines, buf, word, formatted);
        current := current + word;
        formatted := formatted + Strip(current) + "\n";
        lines := lines + [Line(buf + [word], Punct)];
        current := "";
        wordCount := 0;
        buf := [];
      } else {
        WordText(buf, word);
        current := current + word + " ";
        wordCount := wordCount + 1;
        buf := buf + [word];
      }
      j := j + 1;
    }
    assert words[..|words|] == words;
  }

  /** One turn of the sentence loop of `sanitize_and_format_text`: the words
      of sentence number `n` are pushed, and the open line is closed when it
      holds at least `2 * min_words_per_line` words at the sentence end. */
  method FormatSentence(sentence: string, ghost n: nat, minWords: int, formatted0: string, current0: string,
                        count0: int, ghost lines0: seq<Line>, ghost buf0: seq<string>)
    returns (formatted: string, current: string, wordCount: int, ghost lines: seq<Line>, ghost buf: seq<string>)
    requires current0 == Pending(buf0) && count0 == |buf0| && AllWords(buf0)
    requires formatted0 == Render(lines0)
    ensures State(lines, buf) == EndSentence(PushWords(State(lines0, buf0), Words(sentence), minWords), n, minWords)
    ensures formatted == Render(EndSentence(PushWords(State(lines0, buf0), Words(sentence), minWords), n, minWords).lines)
    ensures current == Pending(EndSentence(PushWords(State(lines0, buf0), Words(sentence), minWords), n, minWords).buf)
    ensures wordCount == |EndSentence(PushWords(State(lines0, buf0), Words(sentence), minWords), n, minWords).buf|
    ensures AllWords(buf)
  {
    formatted, current, wordCount, lines, buf :=
      PushSentence(Words(sentence), minWords, formatted0, current0, count0, lines0, buf0);
    if wordCount >= minWords * 2 {
      ForcedText(lines, buf, n, formatted);
      formatted := formatted + Strip(current) + "\n";
      lines := lines + [Line(buf, Forced(n))];
      current := "";
      wordCount := 0;
      buf := [];
    }
  }

  /** `sanitize_and_format_text` (the NFKD step aside: `decomposed` is the
      already-decomposed input). It lays out the lines `FormatLines` gives for
      the sentences of the cleaned text, and returns their text stripped;
      `FormatProperties` states what those lines and that text keep. */
  method SanitizeAndFormat(decomposed: string, minWords: int) returns (result: string, ghost lines: seq<Line>)
    ensures lines == FormatLines(SplitSentences(Clean(decomposed)), minWords)
    ensures result == Strip(Render(FormatLines(SplitSentences(Clean(decomposed)), minWords)))
  {
    var text := Clean(decomposed);
    var sentences := SplitSentences(text);
    var formatted := "";
    var current := "";
    var wordCount := 0;
    ghost var buf: seq<string> := [];
    lines := [];
    var i := 0;
    while i < |sentences|
      invariant 0 <= i <= |sentences|
      invariant State(lines, buf) == Run(sentences, i, minWords)
      invariant current == Pending(buf) && wordCount == |buf| && AllWords(buf)
      invariant formatted == Render(lines)
    {
      formatted, current, wordCount, lines, buf :=
        FormatSentence(sentences[i], i + 1, minWords, formatted, current, wordCount, lines, buf);
      i := i + 1;
    }
    if current != "" {
      TailText(lines, buf, formatted);
      formatted := formatted + Strip(current);
      lines := lines + [Line(buf, Tail)];
    }
    result := Strip(formatted);
  }

  // ---------------------------------------------------------------------
  // The method against the record

  lemma PushWordsSnoc(st: State, ws: seq<string>, j: nat, minWords: int)
    requires j < |ws|
    ensures PushWords(st, ws[..j + 1], minWords) == PushWord(PushWords(st, ws[..j], minWords), ws[j], minWords)
  {
    assert ws[..j + 1][..j] == ws[..j];
  }

  /** Closing a line on punctuation appends the line's words and a newline. */
  lemma PunctText(lines: seq<Line>, buf: seq<string>, word: string, formatted: string)
    requires formatted == Render(lines) && AllWords(buf) && IsWord(word)
    ensures formatted + Strip(Pending(buf) + word) + "\n" == Render(lines + [Line(buf + [word], Punct)])
  {
    ClosingText(buf, word);
    CloseText(lines, Line(buf + [word], Punct), formatted);
  }

  /** A word that joins the open line is appended with a space. */
  lemma WordText(buf: seq<string>, word: string)
    requires AllWords(buf) && IsWord(word)
    ensures Pending(buf) + word + " " == Pending(buf + [word])
    ensures AllWords(buf + [word])
  {
    PendingPush(buf, word);
  }

  /** A forced break appends the open line's words and a newline. */
  lemma ForcedText(lines: seq<Line>, buf: seq<string>, n: nat, formatted: string)
    requires formatted == Render(lines) && AllWords(buf)
    ensures formatted + Strip(Pending(buf)) + "\n" == Render(lines + [Line(buf, Forced(n))])
  {
    StripPending(buf);
    CloseText(lines, Line(buf, Forced(n)), formatted);
  }

  /** The tail is appended without a newline. */
  lemma TailText(lines: seq<Line>, buf: seq<string>, formatted: string)
    requires formatted == Render(lines) && AllWords(buf)
    ensures formatted + Strip(Pending(buf)) == Render(lines + [Line(buf, Tail)])
  {
    StripPending(buf);
    RenderSnoc(lines, Line(buf, Tail));
  }

  // ---------------------------------------------------------------------
  // The record keeps the rules

  /** Everything the formatter promises, about the lines of the record. */
  lemma FormatProperties(decomposed: string, minWords: int, ls: seq<Line>)
    requires ls == FormatLines(SplitSentences(Clean(decomposed)), minWords)
    ensures LineWords(ls) == Words(Clean(decomposed))
    ensures Words(Strip(Render(ls))) == Words(Clean(decomposed))
    ensures TextChars(Strip(Render(ls)))
    ensures Stripped(Strip(Render(ls)))
    ensures TailLast(ls)
    ensures LinesOk(ls, SplitSentences(Clean(decomposed)), minWords)
    ensures minWords >= 1 ==> forall k :: 0 <= k < |ls| ==> |ls[k].words| > 0
    ensures minWords <= 0 ==> forall m :: 1 <= m <= |SplitSentences(Clean(decomposed))| ==> HasForced(ls, m)
  {
    var text := Clean(decomposed);
    var sentences := SplitSentences(text);
    StripEnds(Render(ls));
    FormatLinesOk(sentences, minWords);
    CleanResult(decomposed);
    FinishLines(ls, text, sentences, minWords);
  }

  /** The lines hold the words of the sentences, in order; only the last is
      the tail; each was closed by the rule its tag names. */
  lemma FormatLinesOk(sentences: seq<string>, minWords: int)
    ensures LineWords(FormatLines(sentences, minWords)) == WordsOfAll(sentences)
    ensures TailLast(FormatLines(sentences, minWords))
    ensures LinesOk(FormatLines(sentences, minWords), sentences, minWords)
    ensures minWords <= 0 ==> forall m :: 1 <= m <= |sentences| ==> HasForced(FormatLines(sentences, minWords), m)
  {
    var st := Run(sentences, |sentences|, minWords);
    RunOk(sentences, |sentences|, minWords);
    assert sentences[..|sentences|] == sentences;
    if st.buf == [] {
      NoTail(st.lines, st.buf, WordsOfAll(sentences), sentences, minWords);
    } else {
      TailStep(st.lines, st.buf, WordsOfAll(sentences), sentences, minWords);
    }
    if minWords <= 0 {
      RunForced(sentences, |sentences|, minWords);
      ForcedKept(st.lines, FormatLines(sentences, minWords), |sentences|);
    }
  }

  /** With `min_words_per_line <= 0` every sentence end closes a line, an
      empty one when no word waits. */
  lemma {:induction false} RunForced(sentences: seq<string>, i: nat, minWords: int)
    requires i <= |sentences| && minWords <= 0
    ensures forall m :: 1 <= m <= i ==> HasForced(Run(sentences, i, minWords).lines, m)
    decreases i
  {
    if i > 0 {
      var before := Run(sentences, i - 1, minWords);
      var pushed := PushWords(before, Words(sentences[i - 1]), minWords);
      RunForced(sentences, i - 1, minWords);
      PushWordsExtends(before, Words(sentences[i - 1]), minWords);
      var ls := pushed.lines + [Line(pushed.buf, Forced(i))];
      assert Run(sentences, i, minWords).lines == ls;
      ForcedKept(before.lines, ls, i - 1);
      assert ls[|pushed.lines|].how == Forced(i);
    }
  }

  /** Lines are only ever added: the pushed words keep the closed lines. */
  lemma {:induction false} PushWordsExtends(st: State, ws: seq<string>, minWords: int)
    ensures st.lines <= PushWords(st, ws, minWords).lines
    decreases |ws|
  {
    if |ws| > 0 {
      PushWordsExtends(st, ws[..|ws| - 1], minWords);
    }
  }

  /** Forced lines survive lines added after them. */
  lemma ForcedKept(a: seq<Line>, b: seq<Line>, n: nat)
    requires a <= b
    requires forall m :: 1 <= m <= n ==> HasForced(a, m)
    ensures forall m :: 1 <= m <= n ==> HasForced(b, m)
  {
    forall m | 1 <= m <= n
      ensures HasForced(b, m)
    {
      assert HasForced(a, m);
      var k :| 0 <= k < |a| && a[k].how == Forced(m);
      assert b[k] == a[k];
    }
  }

  /** After `i` sentences the record keeps the rules. */
  lemma {:induction false} RunOk(sentences: seq<string>, i: nat, minWords: int)
    requires i <= |sentences|
    ensures LayoutOk(Run(sentences, i, minWords).lines, Run(sentences, i, minWords).buf,
                     WordsOfAll(sentences[..i]), sentences, i, minWords)
    decreases i
  {
    if i == 0 {
      assert sentences[..0] == [];
    } else {
      RunOk(sentences, i - 1, minWords);
      RunStep(sentences, i, minWords);
    }
  }

  /** Sentence `i` keeps the rules. */
  lemma RunStep(sentences: seq<string>, i: nat, minWords: int)
    requires 0 < i <= |sentences|
    ensures LayoutOk(Run(sentences, i - 1, minWords).lines, Run(sentences, i - 1, minWords).buf,
                     WordsOfAll(sentences[..i - 1]), sentences, i - 1, minWords)
            ==> LayoutOk(Run(sentences, i, minWords).lines, Run(sentences, i, minWords).buf,
                         WordsOfAll(sentences[..i]), sentences, i, minWords)
  {
    var prev := Run(sentences, i - 1, minWords);
    var before := WordsOfAll(sentences[..i - 1]);
    if !LayoutOk(prev.lines, prev.buf, before, sentences, i - 1, minWords) {
      return;
    }
    var ws := Words(sentences[i - 1]);
    SentenceDone(sentences, i - 1);
    var st := PushWords(prev, ws, minWords);
    PushWordsOk(prev, ws, before, sentences, i - 1, minWords);
    if |st.buf| >= minWords * 2 {
      ForcedStep(st.lines, st.buf, before + ws, sentences, i - 1, minWords);
    } else {
      SentenceStep(st.lines, st.buf, before + ws, sentences, i - 1, minWords);
    }
  }

  /** The words of sentence `i + 1` keep the rules, one after the other. */
  lemma {:induction false} PushWordsOk(st: State, ws: seq<string>, before: seq<string>,
                                       sentences: seq<string>, i: int, minWords: int)
    requires 0 <= i < |sentences|
    requires LayoutOk(st.lines, st.buf, before, sentences, i, minWords)
    requires AllWords(ws)
    requires SentenceEnd(sentences, i) <= |before| && |before| + |ws| <= SentenceEnd(sentences, i + 1)
    ensures LayoutOk(PushWords(st, ws, minWords).lines, PushWords(st, ws, minWords).buf, before + ws,
                     sentences, i, minWords)
    decreases |ws|
  {
    if |ws| == 0 {
      AppendEmpty(before);
    } else {
      var init := ws[..|ws| - 1];
      var w := ws[|ws| - 1];
      AllWordsSplit(init, [w]);
      assert init + [w] == ws;
      PushWordsOk(st, init, before, sentences, i, minWords);
      var s1 := PushWords(st, init, minWords);
      Assoc(before, init, [w]);
      if |s1.buf| >= minWords && EndsWithTerminal(w) {
        PunctStep(s1.lines, s1.buf, w, before + init, sentences, i, minWords);
      } else {
        WordStep(s1.lines, s1.buf, w, before + init, sentences, i, minWords);
      }
    }
  }

  /** A word that ends in terminal punctuation once the line holds at least
      `minWords` words closes the line. */
  lemma PunctStep(lines: seq<Line>, buf: seq<string>, word: string, done: seq<string>,
                  sentences: seq<string>, i: int, minWords: int)
    requires LayoutOk(lines, buf, done, sentences, i, minWords)
    requires IsWord(word) && |buf| >= minWords && EndsWithTerminal(word)
    requires i < |sentences| && SentenceEnd(sentences, i) <= |done| < SentenceEnd(sentences, i + 1)
    ensures LayoutOk(lines + [Line(buf + [word], Punct)], [], done + [word], sentences, i, minWords)
  {
    PunctWords(lines, buf, word, done);
    PunctLinesOk(lines, buf, word, done, sentences, i, minWords);
    NoTailSnoc(lines, Line(buf + [word], Punct));
  }

  /** `current_line.strip()` after the closing word: the line's words joined by spaces. */
  lemma ClosingText(buf: seq<string>, word: string)
    requires AllWords(buf) && IsWord(word)
    ensures Strip(Pending(buf) + word) == Join(buf + [word], " ")
  {
    PendingClose(buf, word);
    assert AllWords(buf + [word]);
    StripJoin(buf + [word]);
  }

  /** Closing a line appends its words and a newline to `formatted_text`. */
  lemma CloseText(lines: seq<Line>, l: Line, formatted: string)
    requires formatted == Render(lines) && !l.how.Tail?
    ensures Render(lines + [l]) == formatted + Join(l.words, " ") + "\n"
  {
    var j := Join(l.words, " ");
    RenderSnoc(lines, l);
    assert LineText(l) == j + "\n";
    Assoc(formatted, j, "\n");
  }

  lemma PunctWords(lines: seq<Line>, buf: seq<string>, word: string, done: seq<string>)
    requires LineWords(lines) + buf == done
    ensures LineWords(lines + [Line(buf + [word], Punct)]) + [] == done + [word]
  {
    var l := Line(buf + [word], Punct);
    RenderSnoc(lines, l);
    Assoc(LineWords(lines), buf, [word]);
    AppendEmpty(LineWords(lines + [l]));
  }

  lemma PunctLinesOk(lines: seq<Line>, buf: seq<string>, word: string, done: seq<string>,
                     sentences: seq<string>, i: int, minWords: int)
    requires LinesOk(lines, sentences, minWords) && Silent(buf, minWords)
    requires |buf| >= minWords && EndsWithTerminal(word)
    requires LineWords(lines) + buf == done
    requires 0 <= i < |sentences| && OpenOk(lines, sentences, i, minWords)
    requires SentenceEnd(sentences, i) <= |done| < SentenceEnd(sentences, i + 1)
    ensures LinesOk(lines + [Line(buf + [word], Punct)], sentences, minWords)
    ensures OpenOk(lines + [Line(buf + [word], Punct)], sentences, i, minWords)
  {
    var w := buf + [word];
    var l := Line(w, Punct);
    RenderSnoc(lines, l);
    assert w[..|buf|] == buf;
    CloseNoSkip(lines, l, sentences, i, minWords);
    assert LineOk(lines + [l], |lines|, sentences, minWords);
    CloseLine(lines, l, sentences, minWords);
    ClosedPast(lines + [l], sentences, i, minWords);
  }

  /** A line that closes before sentence `i + 1` ends skipped no forced break,
      given that the open line skipped none among the first `i` sentences. */
  lemma CloseNoSkip(lines: seq<Line>, l: Line, sentences: seq<string>, i: int, minWords: int)
    requires 0 <= i < |sentences| && OpenOk(lines, sentences, i, minWords)
    requires |LineWords(lines)| + |l.words| <= SentenceEnd(sentences, i + 1)
    ensures NoSkippedBreak(lines + [l], |lines|, sentences, minWords)
  {
    var ls := lines + [l];
    assert ls[..|lines|] == lines;
    forall m | 0 <= m <= |sentences| && i < m
      ensures SentenceEnd(sentences, i + 1) <= SentenceEnd(sentences, m)
    {
      SentenceEndMono(sentences, i + 1, m);
    }
  }

  /** Once the closed lines reach past the end of sentence `i`, no sentence
      among the first `i` ends inside the open line. */
  lemma ClosedPast(lines: seq<Line>, sentences: seq<string>, i: int, minWords: int)
    requires 0 <= i <= |sentences| && SentenceEnd(sentences, i) <= |LineWords(lines)|
    ensures OpenOk(lines, sentences, i, minWords)
  {
    forall m | 0 <= m <= i
      ensures SentenceEnd(sentences, m) <= SentenceEnd(sentences, i)
    {
      SentenceEndMono(sentences, m, i);
    }
  }

  /** Sentence ends never move backwards. */
  lemma {:induction false} SentenceEndMono(sentences: seq<string>, a: int, b: int)
    requires 0 <= a <= b <= |sentences|
    ensures SentenceEnd(sentences, a) <= SentenceEnd(sentences, b)
    decreases b - a
  {
    if a < b {
      SentenceDone(sentences, a);
      SentenceEndMono(sentences, a + 1, b);
    }
  }

  lemma NoTailSnoc(lines: seq<Line>, l: Line)
    requires forall k :: 0 <= k < |lines| ==> !lines[k].how.Tail?
    requires !l.how.Tail?
    ensures forall k :: 0 <= k < |lines + [l]| ==> !(lines + [l])[k].how.Tail?
  {
  }

  /** Any other word joins the open line. */
  lemma WordStep(lines: seq<Line>, buf: seq<string>, word: string, done: seq<string>,
                 sentences: seq<string>, i: int, minWords: int)
    requires LayoutOk(lines, buf, done, sentences, i, minWords)
    requires IsWord(word) && !(|buf| >= minWords && EndsWithTerminal(word))
    ensures LayoutOk(lines, buf + [word], done + [word], sentences, i, minWords)
  {
    SilentPush(buf, word, minWords);
    Assoc(LineWords(lines), buf, [word]);
    assert AllWords(buf + [word]);
  }

  /** At the end of sentence `i + 1`, a line of at least `2 * minWords` words is closed. */
  lemma ForcedStep(lines: seq<Line>, buf: seq<string>, done: seq<string>,
                   sentences: seq<string>, i: int, minWords: int)
    requires 0 <= i < |sentences| && |buf| >= minWords * 2 && done == WordsOfAll(sentences[..i + 1])
    requires LayoutOk(lines, buf, done, sentences, i, minWords)
    ensures LayoutOk(lines + [Line(buf, Forced(i + 1))], [], done, sentences, i + 1, minWords)
  {
    ForcedLinesOk(lines, buf, done, sentences, i, minWords);
    NoTailSnoc(lines, Line(buf, Forced(i + 1)));
  }

  lemma ForcedLinesOk(lines: seq<Line>, buf: seq<string>, done: seq<string>,
                      sentences: seq<string>, i: int, minWords: int)
    requires LinesOk(lines, sentences, minWords) && Silent(buf, minWords)
    requires |buf| >= 2 * minWords
    requires LineWords(lines) + buf == done
    requires 0 <= i < |sentences| && OpenOk(lines, sentences, i, minWords)
    requires done == WordsOfAll(sentences[..i + 1])
    ensures LineWords(lines + [Line(buf, Forced(i + 1))]) + [] == done
    ensures LinesOk(lines + [Line(buf, Forced(i + 1))], sentences, minWords)
    ensures OpenOk(lines + [Line(buf, Forced(i + 1))], sentences, i + 1, minWords)
  {
    var l := Line(buf, Forced(i + 1));
    RenderSnoc(lines, l);
    AppendEmpty(LineWords(lines + [l]));
    assert (lines + [l])[..|lines| + 1] == lines + [l];
    CloseNoSkip(lines, l, sentences, i, minWords);
    assert LineOk(lines + [l], |lines|, sentences, minWords);
    CloseLine(lines, l, sentences, minWords);
    ClosedPast(lines + [l], sentences, i + 1, minWords);
  }

  /** A sentence that ends while the open line holds fewer than `2 * minWords`
      words leaves the line open. */
  lemma SentenceStep(lines: seq<Line>, buf: seq<string>, done: seq<string>,
                     sentences: seq<string>, i: int, minWords: int)
    requires 0 <= i < |sentences| && !(|buf| >= minWords * 2) && done == WordsOfAll(sentences[..i + 1])
    requires LayoutOk(lines, buf, done, sentences, i, minWords)
    ensures LayoutOk(lines, buf, done, sentences, i + 1, minWords)
  {
  }

  /** What is left after the last sentence is the tail line. */
  lemma TailStep(lines: seq<Line>, buf: seq<string>, done: seq<string>,
                 sentences: seq<string>, minWords: int)
    requires LayoutOk(lines, buf, done, sentences, |sentences|, minWords)
    requires done == WordsOfAll(sentences)
    requires buf != []
    ensures LineWords(lines + [Line(buf, Tail)]) == done
    ensures TailLast(lines + [Line(buf, Tail)])
    ensures LinesOk(lines + [Line(buf, Tail)], sentences, minWords)
  {
    var l := Line(buf, Tail);
    RenderSnoc(lines, l);
    assert sentences[..|sentences|] == sentences;
    TailNoSkip(lines, l, sentences, minWords);
    assert |buf| < 2 * minWords by {
      assert SentenceEnd(sentences, |sentences|) == |LineWords(lines)| + |buf|;
    }
    assert LineOk(lines + [l], |lines|, sentences, minWords);
    CloseLine(lines, l, sentences, minWords);
    assert forall k :: 0 <= k < |lines| ==> (lines + [l])[k] == lines[k];
  }

  /** The tail holds the words after every sentence end that the open line saw. */
  lemma TailNoSkip(lines: seq<Line>, l: Line, sentences: seq<string>, minWords: int)
    requires OpenOk(lines, sentences, |sentences|, minWords)
    requires |LineWords(lines)| + |l.words| <= SentenceEnd(sentences, |sentences|)
    ensures NoSkippedBreak(lines + [l], |lines|, sentences, minWords)
  {
    assert (lines + [l])[..|lines|] == lines;
  }

  /** Without a tail, the closed lines are all the lines. */
  lemma NoTail(lines: seq<Line>, buf: seq<string>, done: seq<string>,
               sentences: seq<string>, minWords: int)
    requires LayoutOk(lines, buf, done, sentences, |sentences|, minWords)
    requires buf == []
    ensures LineWords(lines) == done
    ensures TailLast(lines) && LinesOk(lines, sentences, minWords)
  {
    AppendEmpty(LineWords(lines));
  }

  /** The words after sentence `i + 1` are those after sentence `i` and its own. */
  lemma SentenceDone(sentences: seq<string>, i: nat)
    requires i < |sentences|
    ensures WordsOfAll(sentences[..i + 1]) == WordsOfAll(sentences[..i]) + Words(sentences[i])
  {
    assert sentences[..i + 1] == sentences[..i] + [sentences[i]];
    WordsOfAllSnoc(sentences[..i], sentences[i]);
  }

  // ---------------------------------------------------------------------
  // The current line

  /** Adding a word and a space to `current_line`. */
  lemma PendingPush(buf: seq<string>, w: string)
    ensures Pending(buf) + w + " " == Pending(buf + [w])
  {
    if buf == [] {
      assert buf + [w] == [w];
    } else {
      JoinSnoc(buf, w, " ");
    }
  }

  /** Adding the closing word to `current_line` gives the words joined by spaces. */
  lemma PendingClose(buf: seq<string>, w: string)
    ensures Pending(buf) + w == Join(buf + [w], " ")
  {
    if buf == [] {
      assert buf + [w] == [w];
    } else {
      JoinSnoc(buf, w, " ");
    }
  }

  /** Words joined by single spaces have nothing to strip. */
  lemma StripJoin(ws: seq<string>)
    requires AllWords(ws)
    ensures Strip(Join(ws, " ")) == Join(ws, " ")
  {
    if |ws| > 0 {
      JoinEnds(ws);
    }
  }

  /** Stripping `current_line` drops exactly its trailing space. */
  lemma StripPending(buf: seq<string>)
    requires AllWords(buf)
    ensures Strip(Pending(buf)) == Join(buf, " ")
  {
    if buf != [] {
      var j := Join(buf, " ");
      JoinEnds(buf);
      assert TrimStart(j + " ") == j + " ";
      assert (j + " ")[..|j|] == j;
      assert TrimEnd(j + " ") == TrimEnd(j);
    }
  }

  /** A word that did not close the line keeps the punctuation rule silent. */
  lemma SilentPush(buf: seq<string>, w: string, minWords: int)
    requires Silent(buf, minWords)
    requires !(|buf| >= minWords && EndsWithTerminal(w))
    ensures Silent(buf + [w], minWords)
  {
    forall p | 0 <= p < |buf| + 1 && p >= minWords
      ensures !EndsWithTerminal((buf + [w])[p])
    {
      if p < |buf| {
        assert (buf + [w])[p] == buf[p];
      }
    }
  }

  // ---------------------------------------------------------------------
  // Lines

  lemma RenderSnoc(ls: seq<Line>, l: Line)
    ensures Render(ls + [l]) == Render(ls) + LineText(l)
    ensures LineWords(ls + [l]) == LineWords(ls) + l.words
  {
    assert (ls + [l])[..|ls|] == ls;
  }

  /** Closing one more line keeps every earlier line's record intact. */
  lemma CloseLine(ls: seq<Line>, l: Line, sentences: seq<string>, minWords: int)
    requires LinesOk(ls, sentences, minWords)
    requires LineOk(ls + [l], |ls|, sentences, minWords)
    ensures LinesOk(ls + [l], sentences, minWords)
  {
    var ls' := ls + [l];
    forall k | 0 <= k < |ls'|
      ensures LineOk(ls', k, sentences, minWords)
    {
      if k < |ls| {
        assert ls'[..k + 1] == ls[..k + 1];
        assert ls'[..k] == ls[..k];
        assert LineOk(ls, k, sentences, minWords);
      }
    }
  }

  lemma AllWordsSplit(a: seq<string>, b: seq<string>)
    requires AllWords(a + b)
    ensures AllWords(a) && AllWords(b)
  {
    assert forall k :: 0 <= k < |a| ==> a[k] == (a + b)[k];
    assert forall k :: 0 <= k < |b| ==> b[k] == (a + b)[|a| + k];
  }

  lemma AllPrintableWordsSplit(a: seq<string>, b: seq<string>)
    requires AllPrintableWords(a + b)
    ensures AllPrintableWords(a) && AllPrintableWords(b)
  {
    assert forall k :: 0 <= k < |a| ==> a[k] == (a + b)[k];
    assert forall k :: 0 <= k < |b| ==> b[k] == (a + b)[|a| + k];
  }

  /** Text closed by a newline-terminated line ends with that newline. */
  lemma RenderEndsLine(ls: seq<Line>)
    requires |ls| > 0 && !ls[|ls| - 1].how.Tail?
    ensures |Render(ls)| > 0 && Render(ls)[|Render(ls)| - 1] == '\n'
  {
    var t := LineText(ls[|ls| - 1]);
    assert t[|t| - 1] == '\n';
  }

  /** The words of a rendered line are the line's words. */
  lemma LineTextWords(l: Line)
    requires AllWords(l.words)
    ensures Words(LineText(l)) == l.words
  {
    var j := Join(l.words, " ");
    WordsOfJoin(l.words);
    if l.how.Tail? {
      assert LineText(l) == j;
    } else {
      WordsAppend(j, "\n");
      WordsOfSpace("\n");
    }
  }

  /** Rendering loses no word and adds none: the words of the text are the
      words of the lines, in order. */
  lemma {:induction false} RenderWords(ls: seq<Line>)
    requires TailLast(ls)
    requires AllWords(LineWords(ls))
    ensures Words(Render(ls)) == LineWords(ls)
    decreases |ls|
  {
    if |ls| > 0 {
      var init := ls[..|ls| - 1];
      var last := ls[|ls| - 1];
      assert ls == init + [last];
      RenderSnoc(init, last);
      AllWordsSplit(LineWords(init), last.words);
      assert TailLast(init) by {
        assert forall k :: 0 <= k < |init| ==> init[k] == ls[k];
      }
      RenderWords(init);
      LineTextWords(last);
      if |init| > 0 {
        RenderEndsLine(init);
      }
      WordsAppend(Render(init), LineText(last));
    }
  }

  lemma TextCharsAppend(a: string, b: string)
    requires TextChars(a) && TextChars(b)
    ensures TextChars(a + b)
  {
    assert forall k :: |a| <= k < |a + b| ==> (a + b)[k] == b[k - |a|];
  }

  /** Rendered printable words are printable ASCII and newlines. */
  lemma {:induction false} RenderChars(ls: seq<Line>)
    requires AllPrintableWords(LineWords(ls))
    ensures TextChars(Render(ls))
    decreases |ls|
  {
    if |ls| > 0 {
      var init := ls[..|ls| - 1];
      var last := ls[|ls| - 1];
      RenderSnoc(init, last);
      assert ls == init + [last];
      AllPrintableWordsSplit(LineWords(init), last.words);
      RenderChars(init);
      JoinPrintable(last.words);
      TextCharsAppend(Join(last.words, " "), if last.how.Tail? then "" else "\n");
      TextCharsAppend(Render(init), LineText(last));
    }
  }

  lemma SliceChars(s: string, i: nat, j: nat)
    requires TextChars(s) && i <= j <= |s|
    ensures TextChars(s[i..j])
  {
    assert forall k :: 0 <= k < j - i ==> s[i..j][k] == s[i + k];
  }

  /** Stripping only removes characters. */
  lemma StripChars(s: string)
    requires TextChars(s)
    ensures TextChars(Strip(s))
  {
    var t := TrimStart(s);
    TrimStartSpec(s);
    TrimEndSpec(t);
    SliceChars(s, |s| - |t|, |s|);
    assert t == s[|s| - |t|..|s|];
    var r := TrimEnd(t);
    SliceChars(t, 0, |r|);
    assert r == t[0..|r|];
  }

  /** What the finished lines promise about the result. */
  lemma FinishLines(ls: seq<Line>, text: string, sentences: seq<string>, minWords: int)
    requires Printable(text) && sentences == SplitSentences(text)
    requires LineWords(ls) == WordsOfAll(sentences)
    requires TailLast(ls) && LinesOk(ls, sentences, minWords)
    ensures LineWords(ls) == Words(text)
    ensures Words(Strip(Render(ls))) == Words(text)
    ensures TextChars(Strip(Render(ls)))
    ensures minWords >= 1 ==> forall k :: 0 <= k < |ls| ==> |ls[k].words| > 0
  {
    SplitKeepsWords(text);
    WordsOfPrintable(text);
    RenderWords(ls);
    RenderChars(ls);
    StripKeepsWords(Render(ls));
    StripChars(Render(ls));
    forall k | 0 <= k < |ls| && minWords >= 1
      ensures |ls[k].words| > 0
    {
      assert LineOk(ls, k, sentences, minWords);
    }
  }
}
