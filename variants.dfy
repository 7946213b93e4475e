/**
 * The two-variant types the benchmark functions return.  In the repository
 * they are generated per payload type (`Option_int`, `Option_char_ptr`,
 * `Result_int`); here they are ordinary generic datatypes.
 */
module Variants {

  datatype Option<T> = None | Some(value: T)

  /** `Result_T`: either a payload or a diagnostic message. */
  datatype Result<T> = Ok(value: T) | Err(message: string)
}
