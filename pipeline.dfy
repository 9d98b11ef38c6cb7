/** The per-file path of `read_and_chunk_text_files`: the text is sanitized
    and formatted with the default line length, and the result is packed into
    chunks. Reading and listing files is not part of this model. */
module Pipeline {
  import opened PyStr
  import opened Cleaning
  import opened Segmenter
  import opened Formatter
  import opened Chunker

  /** The line length the formatter is called with: its own default, since
      the caller passes only the text. */
  const DefaultMinWords := 20

  /** One text file's chunks. Nothing is lost or reordered on the way: the
      words of the chunk bodies, in order, are the words of the cleaned text. */
  method SanitizeAndChunk(decomposed: string, tok: Tokenizer, maxTokens: int)
    returns (chunks: seq<string>, ghost groups: seq<seq<string>>)
    ensures Wrapped(tok, chunks, groups)
    ensures Packed(tok, groups, maxTokens)
    ensures WordsOfAll(Bodies(groups)) == Words(Clean(decomposed))
    ensures |chunks| >= 1
  {
    var formatted, lines := SanitizeAndFormat(decomposed, DefaultMinWords);
    FormatProperties(decomposed, DefaultMinWords, lines);
    chunks, groups := SplitIntoChunks(formatted, tok, maxTokens);
    PackProperties(tok, SplitSentences(formatted), maxTokens);
    SplitKeepsWords(formatted);
    BodiesKeepWords(groups);
  }
}
