/** The canonical Huffman code of section 3.2.2 of RFC 1951, as a function of the code lengths. */
module HuffmanCode {
  import opened Bits
  import opened Counting

  const MAX_BITS: nat := 15

  /** One past the last code of length j, were only the first n symbols coded. */
  function End(lens: seq<nat>, n: nat, j: nat): nat
    requires n <= |lens|
  {
    if j == 0 then 0 else 2 * End(lens, n, j - 1) + Count(lens, j, n)
  }

  /** The first code of length j, for j > 0: next_code in the RFC. */
  function First(lens: seq<nat>, j: nat): nat
    requires j > 0
  {
    2 * End(lens, |lens|, j - 1)
  }

  /** The code of symbol s, most significant bit first. */
  function Code(lens: seq<nat>, s: nat): nat
    requires s < |lens| && lens[s] > 0
  {
    First(lens, lens[s]) + Count(lens, lens[s], s)
  }

  predicate Coded(lens: seq<nat>, s: nat) {
    s < |lens| && 0 < lens[s] <= MAX_BITS
  }

  /** The unread bits v (next bit lowest) start with the code of s: Huffman codes are packed
      starting with their most significant bit. */
  predicate Matches(lens: seq<nat>, s: nat, v: nat) {
    Coded(lens, s) && Low(v, lens[s]) == Rev(lens[s], Code(lens, s))
  }

  /** The sum of 2^(j - length) over the coded symbols below n whose length is at most j. */
  function KraftUpTo(lens: seq<nat>, n: nat, j: nat): nat
    requires n <= |lens|
  {
    if n == 0 then 0 else KraftUpTo(lens, n - 1, j) + (if 0 < lens[n - 1] <= j then Pow2(j - lens[n - 1]) else 0)
  }

  /** The Kraft sum in units of 2^-15. */
  function KraftSum(lens: seq<nat>, n: nat): nat
    requires n <= |lens|
  {
    KraftUpTo(lens, n, MAX_BITS)
  }

  /** The lengths are not over-subscribed: their Kraft sum is at most one. */
  predicate Fits(lens: seq<nat>) {
    KraftSum(lens, |lens|) <= Pow2(MAX_BITS)
  }

  lemma {:induction false} EndStep(lens: seq<nat>, n: nat, j: nat)
    requires n < |lens|
    ensures End(lens, n + 1, j) == End(lens, n, j) + (if 0 < lens[n] <= j then Pow2(j - lens[n]) else 0)
  {
    if j > 0 {
      EndStep(lens, n, j - 1);
    }
  }

  /** After each length, the counter is the Kraft sum of the symbols up to that length. */
  lemma {:induction false} EndIsKraftSum(lens: seq<nat>, n: nat, j: nat)
    requires n <= |lens|
    ensures End(lens, n, j) == KraftUpTo(lens, n, j)
  {
    if n == 0 {
      EndOfNone(lens, j);
    } else {
      EndIsKraftSum(lens, n - 1, j);
      EndStep(lens, n - 1, j);
    }
  }

  lemma {:induction false} EndOfNone(lens: seq<nat>, j: nat)
    ensures End(lens, 0, j) == 0
  {
    if j > 0 {
      EndOfNone(lens, j - 1);
    }
  }

  /** Without over-subscription the codes of length j fit in j bits. */
  lemma {:induction false} EndBound(lens: seq<nat>, j: nat)
    requires Fits(lens) && j <= MAX_BITS
    ensures End(lens, |lens|, j) <= Pow2(j)
    decreases MAX_BITS - j
  {
    if j == MAX_BITS {
      EndIsKraftSum(lens, |lens|, MAX_BITS);
    } else {
      EndBound(lens, j + 1);
    }
  }

  lemma {:induction false} CountStrict(lens: seq<nat>, j: nat, m: nat, n: nat)
    requires m < n <= |lens| && lens[m] == j
    ensures Count(lens, j, m) < Count(lens, j, n)
  {
    if m + 1 < n {
      CountStrict(lens, j, m, n - 1);
    }
  }

  /** A code lies between the first code of its length and the end of that length. */
  lemma CodeBound(lens: seq<nat>, s: nat)
    requires Coded(lens, s)
    ensures First(lens, lens[s]) <= Code(lens, s) < End(lens, |lens|, lens[s])
    ensures Fits(lens) ==> Code(lens, s) < Pow2(lens[s])
  {
    CountStrict(lens, lens[s], s, |lens|);
    if Fits(lens) {
      EndBound(lens, lens[s]);
    }
  }

  /** Dropping the last b - a bits of anything at or past the first code of length b leaves at least End(a). */
  lemma {:induction false} EndShr(lens: seq<nat>, a: nat, b: nat, c: nat)
    requires a < b
    requires c >= First(lens, b)
    ensures Shr(c, b - a) >= End(lens, |lens|, a)
  {
    if a + 1 < b {
      EndShr(lens, a, b - 1, c / 2);
    } else {
      assert Shr(c, 1) == c / 2;
    }
  }

  /** Canonical codes are prefix free: no bit string starts with the codes of two symbols. */
  lemma PrefixFree(lens: seq<nat>, s: nat, t: nat, v: nat)
    requires Fits(lens)
    requires Matches(lens, s, v) && Matches(lens, t, v)
    ensures s == t
  {
    if lens[s] <= lens[t] {
      PrefixFreeOrdered(lens, s, t, v);
    } else {
      PrefixFreeOrdered(lens, t, s, v);
    }
  }

  lemma PrefixFreeOrdered(lens: seq<nat>, s: nat, t: nat, v: nat)
    requires Fits(lens)
    requires Matches(lens, s, v) && Matches(lens, t, v)
    requires lens[s] <= lens[t]
    ensures s == t
  {
    var a, b := lens[s], lens[t];
    CodeBound(lens, s);
    CodeBound(lens, t);
    CodeHeadsCode(v, a, Code(lens, s), b, Code(lens, t));
    if a < b {
      EndShr(lens, a, b, Code(lens, t));
    } else if s < t {
      CountStrict(lens, a, s, t);
    } else if t < s {
      CountStrict(lens, a, t, s);
    }
  }
}
