/** Values shared by every stage of the recipe scraper: bytes, the error
    values the Go package returns, and the result wrappers that stand in for
    Go's `(value, error)` pairs. */
module Base {

  /** One byte of an HTTP body or of a JSON document. */
  newtype byte = x: int | 0 <= x < 256

  type Bytes = seq<byte>

  /** What the HTML tokenizer reports through `z.Err()` when it stops. */
  datatype StreamCause =
    | EndOfStream               // io.EOF: the document ended
    | ReadFailure(reason: string)  // the underlying reader failed

  /** Every error value the recipe package can hand back to its caller. */
  datatype Error =
    | StreamError(cause: StreamCause)   // propagated from the tokenizer
    | PropsNotFound                     // "recipe props data not found"
    | JsonError(reason: string)         // a `json.Unmarshal` failure
    | IngredientNotFound(id: string)    // "id <id> not found in ingredients list"

  /** A Go `(value, error)` pair where exactly one half is meaningful. */
  datatype Result<+T> = Ok(value: T) | Err(error: Error)

  datatype Option<+T> = None | Some(value: T)

  /** The outcome of one `json.Unmarshal` call: the decoded value, or the
      reason the bytes did not decode into the target shape. */
  datatype Decoded<+T> = Decoded(value: T) | Malformed(reason: string)
}
