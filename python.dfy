/** The pieces of Python's own semantics that the stream code relies on:
    an optional argument, `min`, and slicing a byte string with `s[i:j]`. */
module Python {

  /** An argument that may be left out (`None`). */
  datatype Option<T> = None | Some(value: T)

  /** Python's `min(a, b)`. */
  function Min(a: int, b: int): int
  {
    if a <= b then a else b
  }

  /** Where the bound `i` of a slice `s[i:j]` (step 1) lands in a sequence of
      length `n`: a negative bound counts from the end, and the result is
      clamped into `0..n`. */
  function Bound(i: int, n: nat): (b: nat)
    ensures b <= n
    ensures 0 <= i <= n ==> b == i
    ensures i >= n ==> b == n
  {
    if i < 0 then (if i + n < 0 then 0 else i + n)
    else if i > n then n
    else i
  }

  /** Python's `s[i:j]`: never raises, whatever the bounds. */
  function Slice<T>(s: seq<T>, i: int, j: int): (r: seq<T>)
    ensures |r| <= |s|
    ensures 0 <= i <= j <= |s| ==> r == s[i..j]
    ensures i <= j ==> |r| <= j - i
    ensures i >= |s| ==> r == []
  {
    var lo, hi := Bound(i, |s|), Bound(j, |s|);
    if lo < hi then s[lo..hi] else []
  }
}
