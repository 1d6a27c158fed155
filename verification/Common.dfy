/** Values shared by every part of the model. */
module Common {
  datatype Option<+T> = None | Some(value: T)

  /** The opaque string identifiers that name the rows of every table. */
  type Id = string

  /** Timestamps: microseconds since a fixed origin. */
  type Time = int

  const SECOND: int := 1_000_000
}
