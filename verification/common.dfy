/** Small shared vocabulary: optional values, results, and fresh identifiers. */
module Common {

  /** A value that may be absent (a Mongo query that matched nothing, an unset field). */
  datatype Option<+T> = None | Some(value: T)

  /** The outcome of a handler: a response value or an error passed to `next`. */
  datatype Result<+T, +E> = Ok(value: T) | Err(error: E)

  /** An identifier strictly greater than every identifier already in use.
      The database assigns new ids itself; the model only needs one that is unused. */
  function Fresh(ids: seq<nat>): (r: nat)
    ensures forall i :: 0 <= i < |ids| ==> ids[i] < r
    ensures r !in ids
  {
    if |ids| == 0 then 0
    else
      var rest := Fresh(ids[1..]);
      if ids[0] < rest then rest else ids[0] + 1
  }
}
