/** The Option and Result datatypes and the identifiers used by every component. */
module Wrappers {

  datatype Option<+T> = None | Some(value: T)

  datatype Result<+R, +E> = Ok(value: R) | Err(error: E)

  /** A UUID, as Postgres orders it: by its 128 bits. */
  type Uuid = nat
}
