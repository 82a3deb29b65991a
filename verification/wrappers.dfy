/** Option and Result wrappers, and the Swift runtime traps the control can hit. */
module Wrappers {

  /** Swift's `T?`. */
  datatype Option<+T> = None | Some(value: T)

  /** A computation that either yields a value or stops the program with a trap. */
  datatype Result<+T> = Success(value: T) | Failure(trap: Trap)

  /** Ways the Swift runtime stops the program in the modelled code. */
  datatype Trap =
    | ForceUnwrapOfNil   // `x!` where `x` is `nil`
    | IndexOutOfRange    // `array[i]` with `i` outside `0 ..< array.count`
}
