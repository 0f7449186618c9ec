/** Shared error taxonomy and small helpers used by every command of the tool. */
module Prelude {

  /** The ways a command invocation can abort. Every one of them ends the
      whole invocation: no command returns partial results. */
  datatype Error =
    | GlobError            // an entry of the glob expansion could not be read
    | IoError              // a file could not be read
    | EmbeddingError       // the embedding model failed on a batch
    | ScoresNotComparable  // the score comparator met a NaN (a panic in the tool)
    | NoQueryEmbedding     // the model returned no vector for the query (an index panic)

  datatype Result<T> = Ok(value: T) | Err(error: Error)

  datatype Option<T> = None | Some(value: T)

  function Min(a: int, b: int): int
  {
    if a <= b then a else b
  }
}
