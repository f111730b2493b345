/** The few pieces of Python semantics that the player's decision rules rely on:
    the exceptions they can raise, sequence indexing with negative indices, and
    the `%` operator, which floors (unlike Dafny's Euclidean `%` for a negative divisor). */
module Python {

  /** The built-in exceptions the modelled code can raise. */
  datatype PyError =
    | IndexError        // list index out of range
    | KeyError          // word missing from the embedding table
    | ValueError        // numpy concatenation of an empty list of arrays
    | ZeroDivisionError // `%` by zero
    | AttributeError    // method called on an object that does not have it

  datatype Option<T> = None | Some(value: T)

  /** A call either returns a value or raises one of the exceptions above. */
  datatype Result<T> = Ok(value: T) | Err(error: PyError)

  /** `s[i]` for a Python list or string: negative indices count from the end,
      anything outside `-len(s) .. len(s)-1` raises IndexError. */
  function Index<T>(s: seq<T>, i: int): (r: Result<T>)
    ensures r.Ok? <==> -|s| <= i < |s|
    ensures r.Err? ==> r.error == IndexError
    ensures r.Ok? ==> r.value in s
    ensures r.Ok? && 0 <= i ==> r.value == s[i]
    ensures r.Ok? && i < 0 ==> r.value == s[|s| + i]
  {
    if 0 <= i < |s| then Ok(s[i])
    else if -|s| <= i < 0 then Ok(s[|s| + i])
    else Err(IndexError)
  }

  /** Python's `a % b` for a divisor that cannot be negative (a length): a zero
      divisor raises ZeroDivisionError; otherwise the remainder lies in `0 .. b-1`
      and completes Python's identity `a == (a // b) * b + a % b`. For a positive
      divisor Python's floored `//` and `%` agree with Dafny's Euclidean `/` and `%`. */
  function PyMod(a: int, b: nat): (r: Result<int>)
    ensures r.Ok? <==> b > 0
    ensures r.Err? ==> r.error == ZeroDivisionError
    ensures r.Ok? ==> 0 <= r.value < b && a == (a / b) * b + r.value
  {
    if b == 0 then Err(ZeroDivisionError) else Ok(a % b)
  }
}
