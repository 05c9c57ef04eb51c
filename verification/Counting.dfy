/** Counting the occurrences of a value. */
module Counting {

  /** How many of the first n elements are v. */
  function Count(s: seq<int>, v: int, n: nat): (c: nat)
    requires n <= |s|
    ensures c <= n
  {
    if n == 0 then 0 else Count(s, v, n - 1) + (if s[n - 1] == v then 1 else 0)
  }
}
