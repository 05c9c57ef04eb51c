/** The depth of a recursion that takes the smaller of two parts. */
module Halving {
  import opened Bits

  /** The depth of the recursion over a part with fewer than half the elements. */
  lemma DeeperFits(d: nat, part: nat, n: nat)
    requires n >= 2 && 2 * part <= n
    requires Pow2(d) <= Max(part, 1)
    ensures Pow2(d + 1) <= n
  {
  }

  lemma DepthStarts(n: nat)
    ensures Pow2(0) <= Max(n, 1)
  {
  }

  lemma DepthGrows(depth: nat, d: nat, count: nat, n: nat)
    requires Pow2(depth) <= Max(n, 1) && Pow2(d) <= count <= n
    ensures Pow2(Max(depth, d)) <= Max(n, 1)
  {
  }
}
