/** The two ways an operation of the crate can end: with a value, or with a
    panic. A panic aborts the Rust program; here it is an ordinary value the
    caller can inspect, so that the exact failure boundaries can be stated. */
module Outcomes {

  /** Rust's `Option<T>`, as returned by `Vec::pop`. */
  datatype Option<+T> = None | Some(value: T)

  /** The panics the crate can raise. The message text is not modelled; each
      panic keeps the numbers that decide it. */
  datatype Panic =
    /** raised inside `Vec::remove` when the index is not below the length */
    | RemovalIndexOutOfBounds(index: nat, len: nat)
    /** raised by the explicit `panic!` of `remove_at` when its guard rejects */
    | IndexOutOfBounds(index: nat)

  /** Either the operation's new value, or the panic that stopped it. */
  datatype Result<+T> = Ok(value: T) | Err(panic: Panic)
}
