module Common {
  /** A hidden-state row. */
  type Row = seq<real>

  datatype Option<+T> = None | Some(value: T)

  /** A call that may raise. */
  datatype Result<+T> = Ok(value: T) | Raised
}
