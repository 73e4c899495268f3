/** Failure values shared by the text helpers and the record fields.
    Every exception the code can throw becomes an `Error`; a call that
    throws returns `Err`, a call that returns normally returns `Ok`. */
module Failures {

  /** The exceptions thrown by the modelled code, one constructor per throw site kind. */
  datatype Error =
    | NotEnoughRoom                              // utf8::not_enough_room: the iterator left its range
    | NoConversion                               // std::stoll found no digits (std::invalid_argument)
    | NumberOutOfRange                           // std::stoll result does not fit a long long (std::out_of_range)
    | InvalidVersion(component: nat, value: int) // Version constructor, a component too wide
    | InvalidVersionIndex(badIndex: int)         // Version::operator[] with an index outside [0, 4)
    | TextTooLong(len: nat, max: nat)            // Name::Set / Description::Set (std::length_error)
    | NegativeGameLength(frames: int)            // GameLength constructor, frames < MIN_LEN
    | GameLengthTooBig(frames: int)              // GameLength constructor, frames > MAX_LEN
    | MatchTypeOutOfRange(value: int)            // MatchType::ToString on an unnamed enum value

  datatype Result<+T> = Ok(value: T) | Err(error: Error) {
    predicate IsFailure() { Err? }
    function PropagateFailure<U>(): Result<U>
      requires Err?
    {
      Err(error)
    }
    function Extract(): T
      requires Ok?
    {
      value
    }
  }

  /** The result of an operation that returns nothing when it succeeds. */
  datatype Outcome = Pass | Fail(error: Error)

  datatype Option<+T> = None | Some(value: T)
}
