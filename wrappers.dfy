/** Value wrappers shared by the model: a missing value and a failing lookup. */
module Wrappers {

  /** A cell of a pandas series of floats: `None` stands for NaN. */
  datatype Option<+T> = None | Some(value: T)

  /** The outcome of a positional lookup that can raise. */
  datatype Result<+T> = Ok(value: T) | Err(error: string)
}
