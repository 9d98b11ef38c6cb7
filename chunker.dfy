/** `split_into_chunks`: a greedy packer that groups consecutive sentences so
    that the summed token length of a group stays within `maxTokens`; a
    sentence too long on its own becomes a chunk by itself. Every chunk is the
    group joined by single spaces between the tokenizer's begin and end
    markers. */
module Chunker {
  import opened PyStr
  import opened Segmenter

  /** The tokenizer, seen from outside: how many tokens a sentence encodes to
      (without special tokens), and the begin- and end-of-text markers. */
  datatype Tokenizer = Tokenizer(tokLen: string -> nat, bos: string, eos: string)

  /** The summed token length of the sentences of a group. */
  function TokenSum(tok: Tokenizer, g: seq<string>): nat {
    if |g| == 0 then 0 else TokenSum(tok, g[..|g| - 1]) + tok.tokLen(g[|g| - 1])
  }

  /** The groups flattened, in order. */
  function Concat(gs: seq<seq<string>>): seq<string> {
    if |gs| == 0 then [] else Concat(gs[..|gs| - 1]) + gs[|gs| - 1]
  }

  /** The joined text of every group, `" ".join(group)`, in order. */
  function Bodies(gs: seq<seq<string>>): (r: seq<string>)
    ensures |r| == |gs|
    ensures forall k :: 0 <= k < |gs| ==> r[k] == Join(gs[k], " ")
  {
    if |gs| == 0 then [] else Bodies(gs[..|gs| - 1]) + [Join(gs[|gs| - 1], " ")]
  }

  /** The text of a chunk: `bos + " ".join(group) + eos`. */
  function Wrap(tok: Tokenizer, g: seq<string>): string {
    tok.bos + Join(g, " ") + tok.eos
  }

  /** A group fits the budget, or is a single sentence that alone exceeds it. */
  predicate WithinBudget(tok: Tokenizer, g: seq<string>, maxTokens: int) {
    TokenSum(tok, g) <= maxTokens || (|g| == 1 && tok.tokLen(g[0]) > maxTokens)
  }

  /** Every group is non-empty and within budget, and none could have taken
      the first sentence of the next one without exceeding the budget. */
  predicate Packed(tok: Tokenizer, gs: seq<seq<string>>, maxTokens: int) {
    (forall k :: 0 <= k < |gs| ==> |gs[k]| >= 1 && WithinBudget(tok, gs[k], maxTokens))
    && (forall k :: 0 <= k < |gs| - 1 ==> TokenSum(tok, gs[k]) + tok.tokLen(gs[k + 1][0]) > maxTokens)
  }

  /** Each chunk is its group wrapped in the markers. */
  predicate Wrapped(tok: Tokenizer, chunks: seq<string>, gs: seq<seq<string>>) {
    |chunks| == |gs| && forall k :: 0 <= k < |chunks| ==> chunks[k] == Wrap(tok, gs[k])
  }

  /** The state of the packing loop: the chunks so far wrap the groups so
      far, which with the open group `current` hold the sentences `done` seen
      so far, in order; `currentLength` is the token sum of the open group,
      within budget; and the last closed group could not take the first
      sentence of the open one (or, with no open group, any sentence at all). */
  ghost predicate Chunking(tok: Tokenizer, chunks: seq<string>, gs: seq<seq<string>>, current: seq<string>,
                           currentLength: int, done: seq<string>, maxTokens: int)
  {
    Wrapped(tok, chunks, gs)
    && Concat(gs) + current == done
    && Packed(tok, gs, maxTokens)
    && currentLength == TokenSum(tok, current)
    && (current == [] ==> currentLength == 0)
    && (current != [] ==> currentLength <= maxTokens)
    && (current == [] && |gs| > 0 ==> TokenSum(tok, gs[|gs| - 1]) > maxTokens)
    && (current != [] && |gs| > 0 ==> TokenSum(tok, gs[|gs| - 1]) + tok.tokLen(current[0]) > maxTokens)
  }

  /** The variables of the packing loop: `chunks`, the groups behind them,
      `current_chunk` and `current_length`. */
  datatype Packer = Packer(chunks: seq<string>, groups: seq<seq<string>>, current: seq<string>, length: int)

  /** Emitting the open group as a chunk, if there is one. */
  function Close(tok: Tokenizer, st: Packer): Packer {
    if st.current == [] then st
    else Packer(st.chunks + [Wrap(tok, st.current)], st.groups + [st.current], [], 0)
  }

  /** One turn of the loop, for sentence `s`. */
  function Step(tok: Tokenizer, st: Packer, s: string, maxTokens: int): Packer {
    var n := tok.tokLen(s);
    if st.length + n > maxTokens then
      var flushed := Close(tok, st);
      if n > maxTokens then
        Packer(flushed.chunks + [tok.bos + s + tok.eos], flushed.groups + [[s]], flushed.current, flushed.length)
      else
        Packer(flushed.chunks, flushed.groups, [s], n)
    else
      Packer(st.chunks, st.groups, st.current + [s], st.length + n)
  }

  /** The loop variables after the first `i` sentences: the specification
      that the loop of `SplitIntoChunks` is proved to follow. */
  function Pack(tok: Tokenizer, sentences: seq<string>, i: nat, maxTokens: int): Packer
    requires i <= |sentences|
  {
    if i == 0 then Packer([], [], [], 0)
    else Step(tok, Pack(tok, sentences, i - 1, maxTokens), sentences[i - 1], maxTokens)
  }

  /** The loop, then the last open group emitted: what `SplitIntoChunks`
      returns. */
  function PackAll(tok: Tokenizer, sentences: seq<string>, maxTokens: int): Packer {
    Close(tok, Pack(tok, sentences, |sentences|, maxTokens))
  }

  /** `split_into_chunks(text, tokenizer, max_tokens)`. It yields the chunks
      `PackAll` gives for the sentences of `text`, and the groups behind
      them; `PackProperties` states what they keep. */
  method SplitIntoChunks(text: string, tok: Tokenizer, maxTokens: int)
    returns (chunks: seq<string>, ghost groups: seq<seq<string>>)
    ensures chunks == PackAll(tok, SplitSentences(text), maxTokens).chunks
    ensures groups == PackAll(tok, SplitSentences(text), maxTokens).groups
  {
    var sentences := SplitSentences(text);
    chunks := [];
    groups := [];
    var current: seq<string> := [];
    var currentLength := 0;
    var i := 0;
    while i < |sentences|
      invariant 0 <= i <= |sentences|
      invariant Packer(chunks, groups, current, currentLength) == Pack(tok, sentences, i, maxTokens)
    {
      var sentence := sentences[i];
      var sentenceLength := tok.tokLen(sentence);
      if currentLength + sentenceLength > maxTokens {
        if current != [] {
          chunks := chunks + [Wrap(tok, current)];
          groups := groups + [current];
          current := [];
          currentLength := 0;
        }
        if sentenceLength > maxTokens {
          chunks := chunks + [tok.bos + sentence + tok.eos];
          groups := groups + [[sentence]];
        } else {
          current := [sentence];
          currentLength := sentenceLength;
        }
      } else {
        current := current + [sentence];
        currentLength := currentLength + sentenceLength;
      }
      i := i + 1;
    }
    if current != [] {
      chunks := chunks + [Wrap(tok, current)];
      groups := groups + [current];
    }
  }

  // ---------------------------------------------------------------------
  // What the packing keeps

  /** The chunks wrap their groups; the groups are the sentences, in order,
      packed greedily; there is at least one chunk, even for the empty text
      (whose one sentence is empty), and at most one per sentence. */
  lemma PackProperties(tok: Tokenizer, sentences: seq<string>, maxTokens: int)
    requires |sentences| >= 1
    ensures Wrapped(tok, PackAll(tok, sentences, maxTokens).chunks, PackAll(tok, sentences, maxTokens).groups)
    ensures Concat(PackAll(tok, sentences, maxTokens).groups) == sentences
    ensures Packed(tok, PackAll(tok, sentences, maxTokens).groups, maxTokens)
    ensures 1 <= |PackAll(tok, sentences, maxTokens).chunks| <= |sentences|
  {
    var st := Pack(tok, sentences, |sentences|, maxTokens);
    PackOk(tok, sentences, |sentences|, maxTokens);
    assert sentences[..|sentences|] == sentences;
    assert Chunking(tok, st.chunks, st.groups, st.current, st.length, sentences, maxTokens);
    if st.current != [] {
      FinalStep(tok, st.chunks, st.groups, st.current, st.length, sentences, maxTokens);
    } else {
      NoFinalStep(tok, st.chunks, st.groups, st.length, sentences, maxTokens);
    }
  }

  /** `Chunking`, of the loop variables held in `st`. */
  ghost predicate PackerOk(tok: Tokenizer, st: Packer, done: seq<string>, maxTokens: int) {
    Chunking(tok, st.chunks, st.groups, st.current, st.length, done, maxTokens)
  }

  /** The loop keeps `Chunking`. */
  lemma {:induction false} PackOk(tok: Tokenizer, sentences: seq<string>, i: nat, maxTokens: int)
    requires i <= |sentences|
    ensures PackerOk(tok, Pack(tok, sentences, i, maxTokens), sentences[..i], maxTokens)
  {
    if i == 0 {
      assert sentences[..0] == [];
    } else {
      PackOk(tok, sentences, i - 1, maxTokens);
      PackStep(tok, sentences, i, maxTokens);
    }
  }

  /** Sentence `i` keeps `Chunking`. */
  lemma PackStep(tok: Tokenizer, sentences: seq<string>, i: nat, maxTokens: int)
    requires 0 < i <= |sentences|
    ensures PackerOk(tok, Pack(tok, sentences, i - 1, maxTokens), sentences[..i - 1], maxTokens)
            ==> PackerOk(tok, Pack(tok, sentences, i, maxTokens), sentences[..i], maxTokens)
  {
    NextSentence(sentences, i - 1);
    StepOk(tok, Pack(tok, sentences, i - 1, maxTokens), sentences[..i - 1], sentences[i - 1], maxTokens);
  }

  /** One turn of the loop keeps `Chunking`. */
  lemma StepOk(tok: Tokenizer, st: Packer, done: seq<string>, s: string, maxTokens: int)
    ensures PackerOk(tok, st, done, maxTokens) ==> PackerOk(tok, Step(tok, st, s, maxTokens), done + [s], maxTokens)
  {
    if !PackerOk(tok, st, done, maxTokens) {
      return;
    }
    if st.length + tok.tokLen(s) > maxTokens {
      if tok.tokLen(s) > maxTokens {
        if st.current != [] {
          FlushOversizeStep(tok, st.chunks, st.groups, st.current, st.length, done, s, maxTokens);
        } else {
          OversizeStep(tok, st.chunks, st.groups, done, s, maxTokens);
        }
      } else {
        StartStep(tok, st.chunks, st.groups, st.current, st.length, done, s, maxTokens);
      }
    } else {
      AppendStep(tok, st.chunks, st.groups, st.current, st.length, done, s, maxTokens);
    }
  }

  // ---------------------------------------------------------------------
  // One turn of the loop each

  /** A sentence that fits joins the open group. */
  lemma AppendStep(tok: Tokenizer, chunks: seq<string>, gs: seq<seq<string>>, current: seq<string>,
                   currentLength: int, done: seq<string>, s: string, maxTokens: int)
    requires Chunking(tok, chunks, gs, current, currentLength, done, maxTokens)
    requires currentLength + tok.tokLen(s) <= maxTokens
    ensures Chunking(tok, chunks, gs, current + [s], currentLength + tok.tokLen(s), done + [s], maxTokens)
  {
    TokenSumSnoc(tok, current, s);
    Assoc(Concat(gs), current, [s]);
    if current == [] {
      assert (current + [s])[0] == s;
    } else {
      assert (current + [s])[0] == current[0];
    }
  }

  /** A sentence over budget on its own, with no group open, becomes a chunk by itself. */
  lemma OversizeStep(tok: Tokenizer, chunks: seq<string>, gs: seq<seq<string>>,
                     done: seq<string>, s: string, maxTokens: int)
    requires Chunking(tok, chunks, gs, [], 0, done, maxTokens)
    requires tok.tokLen(s) > maxTokens
    ensures Chunking(tok, chunks + [tok.bos + s + tok.eos], gs + [[s]], [], 0, done + [s], maxTokens)
  {
    assert Join([s], " ") == s;
    assert TokenSum(tok, [s]) == tok.tokLen(s) by {
      assert [s][..0] == [];
    }
    AppendEmpty(Concat(gs));
    CloseGroup(tok, chunks, gs, [s], maxTokens);
    AppendEmpty(Concat(gs + [[s]]));
  }

  /** Closing the open group when the next sentence does not fit it. */
  lemma FlushStep(tok: Tokenizer, chunks: seq<string>, gs: seq<seq<string>>, current: seq<string>,
                  currentLength: int, done: seq<string>, s: string, maxTokens: int)
    requires Chunking(tok, chunks, gs, current, currentLength, done, maxTokens)
    requires current != [] && currentLength + tok.tokLen(s) > maxTokens
    ensures Wrapped(tok, chunks + [Wrap(tok, current)], gs + [current])
    ensures Packed(tok, gs + [current], maxTokens)
    ensures Concat(gs + [current]) + [] == done
    ensures TokenSum(tok, (gs + [current])[|gs|]) + tok.tokLen(s) > maxTokens
  {
    CloseGroup(tok, chunks, gs, current, maxTokens);
    AppendEmpty(Concat(gs + [current]));
  }

  /** A sentence over budget on its own closes the open group and becomes a
      chunk by itself. */
  lemma FlushOversizeStep(tok: Tokenizer, chunks: seq<string>, gs: seq<seq<string>>, current: seq<string>,
                          currentLength: int, done: seq<string>, s: string, maxTokens: int)
    requires Chunking(tok, chunks, gs, current, currentLength, done, maxTokens)
    requires current != [] && tok.tokLen(s) > maxTokens
    ensures Chunking(tok, chunks + [Wrap(tok, current)] + [tok.bos + s + tok.eos], gs + [current] + [[s]],
                     [], 0, done + [s], maxTokens)
  {
    FlushStep(tok, chunks, gs, current, currentLength, done, s, maxTokens);
    OversizeAfterFlush(tok, chunks + [Wrap(tok, current)], gs + [current], done, s, maxTokens);
  }

  lemma OversizeAfterFlush(tok: Tokenizer, chunks: seq<string>, gs: seq<seq<string>>,
                           done: seq<string>, s: string, maxTokens: int)
    requires Wrapped(tok, chunks, gs) && Packed(tok, gs, maxTokens) && Concat(gs) + [] == done
    requires |gs| > 0 && TokenSum(tok, gs[|gs| - 1]) + tok.tokLen(s) > maxTokens
    requires tok.tokLen(s) > maxTokens
    ensures Chunking(tok, chunks + [tok.bos + s + tok.eos], gs + [[s]], [], 0, done + [s], maxTokens)
  {
    assert Join([s], " ") == s;
    assert TokenSum(tok, [s]) == tok.tokLen(s) by {
      assert [s][..0] == [];
    }
    AppendEmpty(Concat(gs));
    CloseGroup(tok, chunks, gs, [s], maxTokens);
    AppendEmpty(Concat(gs + [[s]]));
  }

  /** A sentence that does not fit the open group but fits the budget closes
      the open group and opens a new one. */
  lemma StartStep(tok: Tokenizer, chunks: seq<string>, gs: seq<seq<string>>, current: seq<string>,
                  currentLength: int, done: seq<string>, s: string, maxTokens: int)
    requires Chunking(tok, chunks, gs, current, currentLength, done, maxTokens)
    requires currentLength + tok.tokLen(s) > maxTokens && tok.tokLen(s) <= maxTokens
    ensures current != []
    ensures Chunking(tok, chunks + [Wrap(tok, current)], gs + [current], [s], tok.tokLen(s), done + [s], maxTokens)
  {
    FlushStep(tok, chunks, gs, current, currentLength, done, s, maxTokens);
    assert TokenSum(tok, [s]) == tok.tokLen(s) by {
      assert [s][..0] == [];
    }
  }

  /** What is left open at the end becomes the last chunk. */
  lemma FinalStep(tok: Tokenizer, chunks: seq<string>, gs: seq<seq<string>>, current: seq<string>,
                  currentLength: int, done: seq<string>, maxTokens: int)
    requires Chunking(tok, chunks, gs, current, currentLength, done, maxTokens)
    requires current != []
    ensures Wrapped(tok, chunks + [Wrap(tok, current)], gs + [current])
    ensures Packed(tok, gs + [current], maxTokens)
    ensures Concat(gs + [current]) == done
    ensures 1 <= |gs + [current]| <= |done|
  {
    CloseGroup(tok, chunks, gs, current, maxTokens);
    ConcatLength(gs + [current]);
  }

  /** With nothing left open, the groups so far are all there is. */
  lemma NoFinalStep(tok: Tokenizer, chunks: seq<string>, gs: seq<seq<string>>,
                    currentLength: int, done: seq<string>, maxTokens: int)
    requires Chunking(tok, chunks, gs, [], currentLength, done, maxTokens)
    requires |done| >= 1
    ensures Concat(gs) == done
    ensures 1 <= |gs| <= |done|
  {
    AppendEmpty(Concat(gs));
    ConcatLength(gs);
  }

  lemma NextSentence(sentences: seq<string>, i: nat)
    requires i < |sentences|
    ensures sentences[..i] + [sentences[i]] == sentences[..i + 1]
  {
    assert sentences[..i + 1] == sentences[..i] + [sentences[i]];
  }

  lemma TokenSumSnoc(tok: Tokenizer, g: seq<string>, s: string)
    ensures TokenSum(tok, g + [s]) == TokenSum(tok, g) + tok.tokLen(s)
  {
    assert (g + [s])[..|g|] == g;
  }

  /** Emitting one more chunk: the packing stays packed when the new group is
      non-empty, within budget, and the previous group could not take its
      first sentence. */
  lemma CloseGroup(tok: Tokenizer, chunks: seq<string>, gs: seq<seq<string>>, g: seq<string>, maxTokens: int)
    requires Wrapped(tok, chunks, gs) && Packed(tok, gs, maxTokens)
    requires |g| >= 1 && WithinBudget(tok, g, maxTokens)
    requires |gs| > 0 ==> TokenSum(tok, gs[|gs| - 1]) + tok.tokLen(g[0]) > maxTokens
    ensures Wrapped(tok, chunks + [Wrap(tok, g)], gs + [g])
    ensures Packed(tok, gs + [g], maxTokens)
    ensures Concat(gs + [g]) == Concat(gs) + g
    ensures (gs + [g])[|gs|] == g
  {
    WrappedSnoc(tok, chunks, gs, g);
    PackedSnoc(tok, gs, g, maxTokens);
    assert (gs + [g])[..|gs|] == gs;
  }

  lemma WrappedSnoc(tok: Tokenizer, chunks: seq<string>, gs: seq<seq<string>>, g: seq<string>)
    requires Wrapped(tok, chunks, gs)
    ensures Wrapped(tok, chunks + [Wrap(tok, g)], gs + [g])
  {
    var chunks', gs' := chunks + [Wrap(tok, g)], gs + [g];
    forall k | 0 <= k < |chunks'|
      ensures chunks'[k] == Wrap(tok, gs'[k])
    {
      if k < |chunks| {
        assert chunks'[k] == chunks[k] && gs'[k] == gs[k];
      }
    }
  }

  lemma PackedSnoc(tok: Tokenizer, gs: seq<seq<string>>, g: seq<string>, maxTokens: int)
    requires Packed(tok, gs, maxTokens)
    requires |g| >= 1 && WithinBudget(tok, g, maxTokens)
    requires |gs| > 0 ==> TokenSum(tok, gs[|gs| - 1]) + tok.tokLen(g[0]) > maxTokens
    ensures Packed(tok, gs + [g], maxTokens)
  {
    var gs' := gs + [g];
    forall k | 0 <= k < |gs'|
      ensures |gs'[k]| >= 1 && WithinBudget(tok, gs'[k], maxTokens)
    {
      if k < |gs| {
        assert gs'[k] == gs[k];
      }
    }
    forall k | 0 <= k < |gs'| - 1
      ensures TokenSum(tok, gs'[k]) + tok.tokLen(gs'[k + 1][0]) > maxTokens
    {
      assert gs'[k] == gs[k];
      if k + 1 < |gs| {
        assert gs'[k + 1] == gs[k + 1];
      }
    }
  }

  /** With no empty group, there are at most as many groups as sentences. */
  lemma {:induction false} ConcatLength(gs: seq<seq<string>>)
    requires forall k :: 0 <= k < |gs| ==> |gs[k]| >= 1
    ensures |gs| <= |Concat(gs)|
    ensures |gs| > 0 ==> |Concat(gs)| > 0
    decreases |gs|
  {
    if |gs| > 0 {
      ConcatLength(gs[..|gs| - 1]);
    }
  }

  /** The chunk bodies hold the words of the grouped sentences, in order:
      joining a group with single spaces merges and drops no word. */
  lemma {:induction false} BodiesKeepWords(gs: seq<seq<string>>)
    ensures WordsOfAll(Bodies(gs)) == WordsOfAll(Concat(gs))
    decreases |gs|
  {
    if |gs| > 0 {
      var init := gs[..|gs| - 1];
      var last := gs[|gs| - 1];
      BodiesKeepWords(init);
      WordsOfAllSnoc(Bodies(init), Join(last, " "));
      WordsOfJoinedParts(last);
      WordsOfAllAppend(Concat(init), last);
    }
  }
}
