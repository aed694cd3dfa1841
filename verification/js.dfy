/**
 * The few JavaScript run-time notions the modelled functions test for.
 */
module Js {

  /**
   * An argument as seen by `typeof v === 'number'`: a number, taken as an exact
   * real, or any value of another type (string, object, null, undefined, ...).
   */
  datatype Value = Number(x: real) | NotNumber

  /** The two exception classes the modelled code throws, with their messages. */
  datatype Exception = Error(message: string) | TypeError(message: string)

  /** `Number.isInteger(x)` for a finite number. */
  predicate IsInteger(x: real) {
    x.Floor as real == x
  }

  /**
   * The numbers `IsInteger` accepts are exactly the whole numbers: every
   * integer, and nothing strictly between two consecutive integers.
   */
  lemma IntegersAreWholeNumbers(x: real, k: int)
    ensures IsInteger(k as real)
    ensures k as real < x < (k + 1) as real ==> !IsInteger(x)
  {
    if k as real < x < (k + 1) as real {
      assert x.Floor == k;
    }
  }
}
