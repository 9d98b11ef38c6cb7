# Text preparation for fine-tuning, modelled in Dafny

This project models the text-preparation core of
`src/sanitization/basic_sanitization.py`, which turns raw text files into
training chunks:

- `sanitize_and_format_text` cleans a text and lays its words out again in
  lines. The cleaning reduces the text to printable ASCII and collapses every
  whitespace run to one space. The text is then cut into sentences after `.`,
  `!` or `?`. A word loop closes a line on terminal punctuation once
  `min_words_per_line` words wait, or at a sentence end once twice that many
  wait.
- `split_into_chunks` packs consecutive sentences greedily into groups that
  stay within a token budget. Each group becomes `bos + " ".join(group) + eos`.
- `intersperse_chunks` replicates the chunk list five times in place and
  shuffles the JSON list in place. It returns a shuffled concatenation of the
  two.

Modules, one per part of the program:

- `PyStr` models the Python string primitives the code relies on:
  `str.isspace` (which is also `\s` of `re` on str patterns), `str.split()`,
  `str.strip()` and `sep.join`.
- `Cleaning` models lines 20–22.
- `Segmenter` models `re.split(r"(?<=[.!?])\s+", …)` (lines 30 and 86).
- `Formatter` models `sanitize_and_format_text`. Its two nested loops are
  imperative methods. They are proved equal to the specification function
  `FormatLines`, which records every output line with the rule that closed it.
  The lemmas prove what that record keeps.
- `Chunker` models `split_into_chunks`. Its loop is a method, proved equal to
  the specification function `PackAll`, which records the sentence group
  behind every chunk. The lemmas prove the packing properties.
- `Pipeline` models the per-file path of `read_and_chunk_text_files`:
  sanitize, then chunk.
- `Interleave` models `intersperse_chunks`. Python lists are a class with a
  `seq` field that the methods update in place, so the caller-visible side
  effects are stated too.

Behaviour of the code worth noting:

- The empty text gives one chunk, `bos + eos`, because `re.split` returns
  `[""]` (lines 86 and 111–113).
- The formatter always runs with its default of 20 words per line: the
  per-file call on line 131 passes no `min_words_per_line`, so the `--words`
  option of `main` never reaches it.
- The forced break on line 48 is checked once per sentence, after its last
  word, not after each word.

## Model

| member | source | states |
|---|---|---|
| PyStr.IsSpace | src/sanitization/basic_sanitization.py:22 | the whitespace set of `str.isspace`, which is also `\s` of `re` on str patterns (lines 22, 30, 37, 41 and 65 all rely on it), as the definition of the model |
| PyStr.IsPrintable | src/sanitization/basic_sanitization.py:21 | `str.isprintable` on ASCII: the characters from space to tilde, as the definition of the model |
| PyStr.IsTerminal | src/sanitization/basic_sanitization.py:30 | the class `[.!?]` of the lookbehind, as the definition of the model |
| PyStr.EndsWithTerminal | src/sanitization/basic_sanitization.py:39 | `word.endswith((".", "!", "?"))`, as the definition of the model |
| PyStr.Words | src/sanitization/basic_sanitization.py:37 | `str.split()` yields only words: non-empty runs without whitespace |
| PyStr.TrimStart | src/sanitization/basic_sanitization.py:65 | the left half of `str.strip()`: drops leading whitespace and never lengthens the text; `TrimStartSpec` states what it removes and keeps |
| PyStr.TrimEnd | src/sanitization/basic_sanitization.py:65 | the right half of `str.strip()`: drops trailing whitespace and never lengthens the text; `TrimEndSpec` states what it removes and keeps |
| PyStr.TrimStartSpec | src/sanitization/basic_sanitization.py:65 | left stripping removes a run of whitespace from the front and nothing else; what remains does not start with whitespace |
| PyStr.TrimEndSpec | src/sanitization/basic_sanitization.py:65 | right stripping removes a run of whitespace from the back and nothing else; what remains does not end with whitespace |
| PyStr.Strip | src/sanitization/basic_sanitization.py:41 | `str.strip()` (lines 41, 49, 54 and 65) as the definition of the model; `StripEnds`, `StripSpec` and `StripKeepsWords` state its properties |
| PyStr.StripEnds | src/sanitization/basic_sanitization.py:65 | `strip()` leaves whitespace at neither end |
| PyStr.StripSpec | src/sanitization/basic_sanitization.py:65 | the text is leading whitespace, then the stripped text, then trailing whitespace |
| PyStr.StripKeepsWords | src/sanitization/basic_sanitization.py:65 | stripping keeps the words of the text, in order |
| PyStr.Join | src/sanitization/basic_sanitization.py:97 | `sep.join(parts)` as the definition of the model; `WordsOfJoin`, `WordsOfJoinedParts` and `Segmenter.SplitJoinRoundTrip` state its properties |
| PyStr.WordsOfJoin | src/sanitization/basic_sanitization.py:40-45 | splitting words joined by single spaces gives back exactly those words |
| PyStr.WordsAcrossSpace | src/sanitization/basic_sanitization.py:30 | removing a whitespace run between two texts does not merge or lose their words |
| PyStr.WordsOfJoinedParts | src/sanitization/basic_sanitization.py:97 | the words of parts joined by a space are the words of the parts, in order |
| Cleaning.IsAscii | src/sanitization/basic_sanitization.py:20 | what survives `encode("ASCII", "ignore")`: the characters below 128, as the definition of the model |
| Cleaning.KeptByPrintableFilter | src/sanitization/basic_sanitization.py:21 | the test of the filter: printable, or `\n`, or `\r`, as the definition of the model |
| Cleaning.Keep | src/sanitization/basic_sanitization.py:20-21 | filtering keeps only characters that pass the test, and never lengthens the text |
| Cleaning.Collapse | src/sanitization/basic_sanitization.py:22 | `re.sub(r"\s+", " ", s)` is empty exactly when `s` is, and starts with whitespace exactly when `s` does |
| Cleaning.CollapseKeepsWords | src/sanitization/basic_sanitization.py:22 | collapsing whitespace keeps the words of the text, in order |
| Cleaning.CollapseOfSingleSpaced | src/sanitization/basic_sanitization.py:22 | text whose only whitespace is lone spaces is left unchanged by the substitution |
| Cleaning.Clean | src/sanitization/basic_sanitization.py:20-22 | the whole cleaning step (the NFKD normalization aside) as the definition of the model: ASCII filter, printable filter, then whitespace collapse; `CleanResult` and `CleanIdempotent` state its properties |
| Cleaning.CleanResult | src/sanitization/basic_sanitization.py:20-22 | cleaned text is printable ASCII (so it has no `\n` or `\r`); its only whitespace is lone single spaces; its visible characters are those of the input, in order |
| Cleaning.CleanIdempotent | src/sanitization/basic_sanitization.py:20-22 | cleaning cleaned text changes nothing |
| Segmenter.NextBoundary | src/sanitization/basic_sanitization.py:30 | finds the first place after terminal punctuation where whitespace starts, or the end of the text |
| Segmenter.SpaceRunEnd | src/sanitization/basic_sanitization.py:30 | `\s+` matches the whole whitespace run |
| Segmenter.SplitSentences | src/sanitization/basic_sanitization.py:30 | `re.split` never returns an empty list |
| Segmenter.SentencePieces | src/sanitization/basic_sanitization.py:30 | no piece contains `.`, `!` or `?` followed by whitespace; every piece but the last ends with `.`, `!` or `?` |
| Segmenter.WholeWhenNoBoundary | src/sanitization/basic_sanitization.py:30 | text without a boundary is one piece, the whole text |
| Segmenter.SplitKeepsWords | src/sanitization/basic_sanitization.py:30 | splitting removes only whitespace: the words of the pieces, in order, are the words of the text |
| Segmenter.SplitJoinRoundTrip | src/sanitization/basic_sanitization.py:30 | on single-spaced text, joining the pieces with one space rebuilds the text exactly |
| Formatter.LineText | src/sanitization/basic_sanitization.py:41-54 | what one line adds to `formatted_text`: its words joined by single spaces, which is what `current_line.strip()` gives, and a newline, or no newline for the tail of line 54, as the definition of the model; `RenderWords` states what the words of that text are |
| Formatter.Render | src/sanitization/basic_sanitization.py:41-54 | `formatted_text` as the texts of the lines one after the other, as the definition of the model; `RenderWords` and `FormatProperties` state its properties |
| Formatter.Pending | src/sanitization/basic_sanitization.py:40-45 | `current_line` as the waiting words, each followed by one space, as the definition of the model; `PushSentence` keeps `current_line` equal to it |
| Formatter.PushWord | src/sanitization/basic_sanitization.py:38-46 | one turn of the word loop as the definition of the model: the word closes the open line as a punctuation line when at least `min_words_per_line` words wait and it ends with `.`, `!` or `?`, and joins it otherwise; `PushWordsOk` states what it keeps |
| Formatter.PushWords | src/sanitization/basic_sanitization.py:38-46 | the word loop of one sentence as the definition of the model; `PushSentence` is proved to follow it and `PushWordsOk` states what it keeps |
| Formatter.EndSentence | src/sanitization/basic_sanitization.py:48-51 | the check at each sentence end as the definition of the model: the open line is closed as a forced line exactly when it holds at least twice `min_words_per_line` words |
| Formatter.Run | src/sanitization/basic_sanitization.py:36-51 | the sentence loop as the definition of the model; `SanitizeAndFormat` is proved to follow it and `RunOk` states what it keeps |
| Formatter.FormatLines | src/sanitization/basic_sanitization.py:32-54 | all the lines `sanitize_and_format_text` writes, the tail of line 53 included, as the definition of the model; `FormatLinesOk` and `FormatProperties` state their properties |
| Formatter.PushSentence | src/sanitization/basic_sanitization.py:37-46 | the word loop of one sentence moves the lines and open line as `PushWords` says; `current_line` stays the open line's words each followed by a space, and `word_count` stays their number |
| Formatter.FormatSentence | src/sanitization/basic_sanitization.py:37-51 | one turn of the sentence loop moves the lines and open line as `PushWords` and then `EndSentence` say: the open line is closed as a forced line exactly when it holds at least twice `min_words_per_line` words at the sentence end |
| Formatter.SanitizeAndFormat | src/sanitization/basic_sanitization.py:16-65 | the lines written are `FormatLines` of the sentences of the cleaned text, and the result is their text stripped |
| Formatter.FormatProperties | src/sanitization/basic_sanitization.py:16-65 | the result has the words of the cleaned text, in order; it holds only printable ASCII and newlines, with whitespace at neither end; only the last line is the tail; every line was closed by its rule; with `min_words_per_line >= 1` no line is empty; with `min_words_per_line <= 0` every sentence end has its own forced line, empty when no word waits |
| Formatter.FormatLinesOk | src/sanitization/basic_sanitization.py:32-54 | the lines hold the words of the sentences in order, only the last line is the tail, and each line keeps its rule: a punctuation line has more than `min_words_per_line` words and ends with `.`, `!` or `?`; a forced line ends at a sentence end with at least twice that many; the tail holds fewer than twice that many, since the last sentence end did not close it; no word before the end of a line met the punctuation rule; no forced break was skipped inside a line; with `min_words_per_line <= 0` every sentence end has its own forced line |
| Formatter.RunOk | src/sanitization/basic_sanitization.py:36-51 | after each sentence the closed lines and the open line hold the words so far, and every line so far keeps its rule |
| Formatter.PushWordsOk | src/sanitization/basic_sanitization.py:38-46 | the words of a sentence, pushed one by one, keep that invariant |
| Formatter.RenderWords | src/sanitization/basic_sanitization.py:41-53 | the words of the formatted text are the words of its lines, in order |
| Chunker.Wrap | src/sanitization/basic_sanitization.py:98 | the chunk text `bos + " ".join(group) + eos` of lines 98 and 113, as the definition of the model |
| Chunker.Close | src/sanitization/basic_sanitization.py:96-100 | emitting the open group as a chunk, if there is one, as the definition of the model |
| Chunker.Step | src/sanitization/basic_sanitization.py:92-109 | one turn of the chunking loop as the definition of the model, with its four branches; `StepOk` states what it keeps |
| Chunker.Pack | src/sanitization/basic_sanitization.py:91-109 | the chunking loop as the definition of the model; `SplitIntoChunks` is proved to follow it and `PackOk` states what it keeps |
| Chunker.PackAll | src/sanitization/basic_sanitization.py:91-115 | the loop and the final emission of lines 111–113 as the definition of the model; `PackProperties` states its properties |
| Chunker.Bodies | src/sanitization/basic_sanitization.py:97 | there is one body per group, and body `k` is `" ".join` of group `k` |
| Chunker.SplitIntoChunks | src/sanitization/basic_sanitization.py:85-115 | the chunks, and the groups behind them, are those `PackAll` gives for the sentences of the text |
| Chunker.PackProperties | src/sanitization/basic_sanitization.py:85-115 | each chunk is `bos + " ".join(group) + eos`; the groups, flattened, are the sentences in order; each group is non-empty and within budget, or is one sentence over budget on its own; no group could have taken the next group's first sentence; there is at least one chunk and at most one per sentence |
| Chunker.PackOk | src/sanitization/basic_sanitization.py:93-108 | loop invariant: `current_length` is the token sum of `current_chunk` and within budget; the chunks so far wrap their groups, which with `current_chunk` are the sentences seen so far |
| Chunker.StepOk | src/sanitization/basic_sanitization.py:91-108 | one turn of the loop keeps that invariant |
| Chunker.ConcatLength | src/sanitization/basic_sanitization.py:115 | with no empty group there are at most as many groups as sentences, and some sentence if some group |
| Chunker.BodiesKeepWords | src/sanitization/basic_sanitization.py:97-98 | the chunk bodies hold the words of the grouped sentences, in order |
| Pipeline.SanitizeAndChunk | src/sanitization/basic_sanitization.py:131-138 | a file's chunks wrap groups that are within budget and greedily packed, and their bodies hold the words of the cleaned text, in order |
| Interleave.PyList.Replicate | src/sanitization/basic_sanitization.py:148 | `chunks *= 5` leaves five copies of the list in the same list object |
| Interleave.PyList.Shuffle | src/sanitization/basic_sanitization.py:149 | `random.shuffle` leaves the same elements in the same list object |
| Interleave.Intersperse | src/sanitization/basic_sanitization.py:147-152 | the caller's chunk list now holds five copies of itself and the JSON list a permutation of itself; the result is a new list permuting the two together, of length five times the chunks plus the JSON items |
| Interleave.Repeat | src/sanitization/basic_sanitization.py:148 | `chunks *= 5` on values as the definition of the model; `RepeatLength`, `RepeatAt` and `RepeatCount` state its properties |
| Interleave.RepeatLength | src/sanitization/basic_sanitization.py:148 | five copies are five times as long |
| Interleave.RepeatAt | src/sanitization/basic_sanitization.py:148 | each copy holds the original list, in order |
| Interleave.RepeatCount | src/sanitization/basic_sanitization.py:148 | every element occurs five times as often in five copies |
| Interleave.IntersperseCount | src/sanitization/basic_sanitization.py:147-152 | each element of the result occurs five times as often as in the chunks, plus as often as in the JSON data |

## Left out

- The NFKD normalization on line 20 is not modelled. The cleaning takes the already-decomposed text. The ASCII encoding with `"ignore"`, which drops every character of code 128 or more, is modelled.
- The tokenizer is a value holding a token-count function and the `bos` and `eos` strings. The token count of a joined text is not related to the counts of its parts, because the code never does so.
- `random.shuffle` and `random.seed` are not modelled beyond their effect: a shuffle is any permutation, and which permutation a seed selects is not captured.
- Logging and the word-count warnings (lines 17–28 and 56–63) only observe the text and are not modelled.
- The following are file and console I/O and are not part of this model: `read_json_files`, the directory walk and exception handling of `read_and_chunk_text_files`, `save_chunks_to_json` and `main` with its argument parsing. `Pipeline.SanitizeAndChunk` models the body of the per-file loop.
- Interleave.Intersperse: when the same list is passed twice, the model states only that the result permutes the replicated list twice over and that the list permutes its five copies. The program never makes that call.
- Python's `str.isprintable` is modelled on ASCII only, from space to tilde. The cleaning step applies it only after non-ASCII characters are gone.
