/** Failure-carrying values shared by every handler model. */
module Wrappers {

  datatype Option<+T> = None | Some(value: T)

  /** `Panic` stands for a Rust `unwrap`/`expect` that fails, or any other
      runtime panic: the handler task stops without producing a response. */
  datatype Outcome<+T> = Done(value: T) | Panic
}
