/** Failure-carrying results for the PSF decoder.

    The decoder this project models aborts the process on malformed input
    (`panic!`, `assert_eq!`, `unwrap`, an out-of-range slice, an integer
    overflow in a debug build).  Here every such abort becomes a `Fail`
    value naming the kind of problem. */
module Results {

  datatype Option<+T> = None | Some(value: T)

  /** What went wrong, by kind. */
  datatype Error =
    | OutOfBounds                              // a read or slice past the end of a buffer or list
    | Utf8Error                                // string bytes that are not well-formed UTF-8
    | UnexpectedTag(expected: int, got: int)   // a tag or prolog word other than the one required
    | UnknownSectionKind(code: int)            // a directory entry kind outside 0..4
    | UnknownDataType(code: int)               // a type code outside the data-type table
    | UnsupportedLayout                        // a file without "PSF window size"
    | UnsupportedDataType                      // a signal whose type is neither Real nor Complex
    | MissingKey                               // an absent key indexed or unwrapped
    | WrongVariant                             // an enum accessor applied to the other variant
    | ArithmeticOverflow                       // an integer overflow or underflow
    | SweepNameCollision                       // a data signal named like the sweep variable
    | CountMismatch                            // an asserted count that does not hold
    | DuplicateKey                             // a key inserted where the code asserts it is new

  datatype Result<+T> = Ok(value: T) | Fail(error: Error) {

    predicate IsFailure() {
      Fail?
    }

    function PropagateFailure<U>(): Result<U>
      requires Fail?
    {
      Fail(error)
    }

    function Extract(): T
      requires Ok?
    {
      value
    }
  }

  /** A non-empty sequence is its head followed by its tail; stated apart so
      that the round-trip proofs need not rediscover it among their own facts. */
  lemma HeadTail<T>(s: seq<T>)
    requires |s| > 0
    ensures [s[0]] + s[1..] == s
  {
  }
}
