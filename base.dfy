/**
 * Shared vocabulary of the model: vertex names, optional values and the
 * errors the library raises.
 */
module Base {

  /** A vertex name. The library treats the empty string as "no vertex"
      (it is the predecessor sentinel of the traversal and is falsy in its
      `while (v)` loops), so real vertices are the non-empty strings. */
  type Vertex = s: string | s != "" witness "v"

  datatype Option<+T> = None | Some(value: T)

  /** The exceptions the library throws, one constructor per message. */
  datatype Error =
    | InvalidExpression   // a relative weight whose operator is not +=, -=, *=, /=
    | Unreachable         // routes() asked for a pair that has no valid route
    | UnsupportedMode     // weight() asked for a mode other than traffic, number, mean
    | InconsistentState   // the encoder met a vertex that is missing from `embedded`

  /** A value, or the error that was thrown instead of returning it. */
  datatype Result<+T> = Ok(value: T) | Err(error: Error)

  /** Completion of a mutator that returns nothing but may throw. */
  datatype Outcome = Pass | Fail(error: Error)
}
