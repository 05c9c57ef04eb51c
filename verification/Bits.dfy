/** Powers of two, shifts and masks, and the bit-reversed numbers the DEFLATE decoder works with.
    `Shr(x, k)` is C's `x >> k` and `Low(x, k)` is `x & ((1 << k) - 1)`, on unsigned values.
    Everything is kept free of multiplication, so that proofs stay linear:
    what has to be shown of a shift is shown
    by taking off one bit at a time. */
module Bits {

  type byte = x: int | 0 <= x < 0x100
  type uint16 = x: int | 0 <= x < 0x1_0000
  type uint32 = x: int | 0 <= x < 0x1_0000_0000

  function Min(a: int, b: int): (m: int)
    ensures m <= a && m <= b && (m == a || m == b)
  {
    if a < b then a else b
  }

  function Max(a: int, b: int): (m: int)
    ensures m >= a && m >= b && (m == a || m == b)
  {
    if a > b then a else b
  }

  function Pow2(n: nat): (p: nat)
    ensures p >= 1
  {
    if n == 0 then 1 else 2 * Pow2(n - 1)
  }

  function Shr(v: nat, k: nat): nat {
    if k == 0 then v else Shr(v / 2, k - 1)
  }

  function Low(v: nat, k: nat): (r: nat)
    ensures r < Pow2(k)
  {
    if k == 0 then 0 else v % 2 + 2 * Low(v / 2, k - 1)
  }

  lemma Pow2Of8()
    ensures Pow2(8) == 256
  {
  }

  lemma {:induction false} Pow2Mono(a: nat, b: nat)
    requires a <= b
    ensures Pow2(a) <= Pow2(b)
    ensures a < b ==> 2 * Pow2(a) <= Pow2(b)
  {
    if a < b {
      Pow2Mono(a, b - 1);
    }
  }

  lemma {:induction false} ShrShr(v: nat, a: nat, b: nat)
    ensures Shr(v, a + b) == Shr(Shr(v, a), b)
  {
    if a > 0 {
      ShrShr(v / 2, a - 1, b);
      assert a + b - 1 == a - 1 + b;
    }
  }

  /** Masking twice, and shifting what was masked. */
  lemma {:induction false} LowSplit(v: nat, a: nat, b: nat)
    ensures Low(Low(v, a + b), a) == Low(v, a)
    ensures Shr(Low(v, a + b), a) == Low(Shr(v, a), b)
  {
    if a > 0 {
      LowSplit(v / 2, a - 1, b);
      assert a + b - 1 == a - 1 + b;
    }
  }

  function Shl(v: nat, k: nat): nat {
    if k == 0 then v else 2 * Shl(v, k - 1)
  }

  /** A mask is put together from two adjacent fields. */
  lemma {:induction false} LowCat(v: nat, a: nat, b: nat)
    ensures Low(v, a + b) == Low(v, a) + Shl(Low(Shr(v, a), b), a)
  {
    if a > 0 {
      LowCat(v / 2, a - 1, b);
      assert a + b - 1 == a - 1 + b;
    }
  }

  /** A low field below a shifted one. */
  lemma {:induction false} LowOfSum(x: nat, y: nat, k: nat)
    requires x < Pow2(k)
    ensures Low(x + Shl(y, k), k) == x && Shr(x + Shl(y, k), k) == y
  {
    if k > 0 {
      LowOfSum(x / 2, y, k - 1);
      assert (x + Shl(y, k)) / 2 == x / 2 + Shl(y, k - 1) && (x + Shl(y, k)) % 2 == x % 2;
    }
  }

  lemma {:induction false} ShlShr(v: nat, k: nat)
    ensures v == Low(v, k) + Shl(Shr(v, k), k)
  {
    if k > 0 {
      ShlShr(v / 2, k - 1);
    }
  }

  lemma {:induction false} LowSmall(v: nat, k: nat)
    requires v < Pow2(k)
    ensures Low(v, k) == v && Shr(v, k) == 0
  {
    if k > 0 {
      LowSmall(v / 2, k - 1);
    }
  }

  /** A number is determined by its low k bits and the rest. */
  lemma {:induction false} LowShrExt(u: nat, v: nat, k: nat)
    requires Low(u, k) == Low(v, k) && Shr(u, k) == Shr(v, k)
    ensures u == v
  {
    if k > 0 {
      LowShrExt(u / 2, v / 2, k - 1);
    }
  }

  /** The low k bits of x can be replaced without disturbing the others. */
  lemma {:induction false} ReplaceLow(x: nat, k: nat, r: nat)
    requires r < Pow2(k)
    ensures Low(x, k) <= x
    ensures Shr(x - Low(x, k) + r, k) == Shr(x, k)
    ensures Low(x - Low(x, k) + r, k) == r
  {
    if k > 0 {
      ReplaceLow(x / 2, k - 1, r / 2);
      var y := x - Low(x, k) + r;
      assert y / 2 == x / 2 - Low(x / 2, k - 1) + r / 2 && y % 2 == r % 2;
    }
  }

  lemma {:induction false} AddPow(x: nat, m: nat, k: nat)
    requires k <= m
    ensures Low(Pow2(m) + x, k) == Low(x, k)
    ensures Shr(Pow2(m) + x, k) == Pow2(m - k) + Shr(x, k)
  {
    if k > 0 {
      AddPow(x / 2, m - 1, k - 1);
      assert (Pow2(m) + x) / 2 == Pow2(m - 1) + x / 2 && (Pow2(m) + x) % 2 == x % 2;
    }
  }

  /** Setting a clear bit. */
  lemma {:induction false} AddBit(x: nat, m: nat, n: nat)
    requires m < n && Shr(x, m) % 2 == 0
    ensures Low(x + Pow2(m), n) == Low(x, n) + Pow2(m)
    ensures Shr(x + Pow2(m), n) == Shr(x, n)
  {
    if m > 0 {
      AddBit(x / 2, m - 1, n - 1);
    } else {
      assert (x + 1) / 2 == x / 2;
    }
  }

  /** The top bit of a mask. */
  lemma {:induction false} LowTop(x: nat, m: nat)
    ensures Low(x, m + 1) == Low(x, m) + (if Shr(x, m) % 2 == 1 then Pow2(m) else 0)
    ensures Shr(x, m + 1) == Shr(x, m) / 2
    ensures Shr(x, m) % 2 == 1 ==> x >= Pow2(m)
  {
    if m > 0 {
      LowTop(x / 2, m - 1);
    }
  }

  /** Numbers with equal low k bits are at least 2^k apart. */
  lemma {:induction false} LowGap(x: nat, y: nat, k: nat)
    requires Low(x, k) == Low(y, k) && y <= x < y + Pow2(k)
    ensures x == y
  {
    if k > 0 {
      LowGap(x / 2, y / 2, k - 1);
    }
  }

  lemma {:induction false} LowLess(x: nat, k: nat)
    ensures Low(x, k) <= x
    ensures x < Pow2(k) <==> Low(x, k) == x
  {
    if k > 0 {
      LowLess(x / 2, k - 1);
    }
  }

  /** The low n bits of v, read in the opposite order. */
  function Rev(n: nat, v: nat): (r: nat)
    ensures r < Pow2(n)
  {
    if n == 0 then 0 else (if v % 2 == 1 then Pow2(n - 1) else 0) + Rev(n - 1, v / 2)
  }

  /** Splitting the reversal: the low l bits become the high ones. */
  lemma {:induction false} RevSplit(n: nat, l: nat, v: nat)
    requires l <= n
    ensures Shr(Rev(n, v), n - l) == Rev(l, v)
    ensures Low(Rev(n, v), n - l) == Rev(n - l, Shr(v, l))
  {
    hide Low, Pow2;
    if l == 0 {
      LowSmall(Rev(n, v), n);
    } else {
      RevSplit(n - 1, l - 1, v / 2);
      AddPow(Rev(n - 1, v / 2), n - 1, n - l);
    }
  }

  /** Only the low n bits matter. */
  lemma {:induction false} RevLow(n: nat, v: nat)
    ensures Rev(n, v) == Rev(n, Low(v, n))
  {
    if n > 0 {
      RevLow(n - 1, v / 2);
    }
  }

  /** Reversal undoes itself on n-bit numbers. */
  lemma {:induction false} RevRev(n: nat, v: nat)
    requires v < Pow2(n)
    ensures Rev(n, Rev(n, v)) == v
  {
    if n > 0 {
      RevRev(n - 1, v / 2);
      OneBit(v);
      hide Low, Pow2, Shr, Rev;
      var x := Rev(n, v);
      var y := Rev(n, x);
      RevSplit(n, 1, v);
      RevSplit(n, n - 1, x);
      RevLow(n - 1, x);
      OneBit(y);
      OneBitRev(v);
      SameHalves(y, v);
    }
  }

  lemma OneBit(x: nat)
    ensures Low(x, 1) == x % 2 && Shr(x, 1) == x / 2 && Rev(1, x) == x % 2
  {
  }

  lemma OneBitRev(x: nat)
    ensures Rev(1, Rev(1, x)) == x % 2
  {
    OneBit(x);
    OneBit(Rev(1, x));
  }

  lemma SameHalves(x: nat, y: nat)
    requires x / 2 == y / 2 && x % 2 == y % 2
    ensures x == y
  {
  }

  /** If the bits v start (low bit first) with two reversed codes, the shorter one heads the longer one. */
  lemma CodeHeadsCode(v: nat, a: nat, x: nat, b: nat, y: nat)
    requires a <= b && x < Pow2(a) && y < Pow2(b)
    requires Low(v, a) == Rev(a, x) && Low(v, b) == Rev(b, y)
    ensures Shr(y, b - a) == x
  {
    RevLow(b, v);
    RevRev(b, y);
    RevSplit(b, a, v);
    RevLow(a, v);
    RevRev(a, x);
  }

  /** Adding one to a bit-reversed j-bit number: set the most significant clear bit, clear those above it. */
  function RevInc(j: nat, code: nat): (r: nat)
    requires code < Pow2(j)
    ensures r < Pow2(j)
  {
    if j == 0 then 0
    else if code < Pow2(j - 1) then code + Pow2(j - 1)
    else RevInc(j - 1, code - Pow2(j - 1))
  }

  lemma {:induction false} RevIncCorrect(j: nat, c: nat)
    ensures RevInc(j, Rev(j, c)) == Rev(j, c + 1)
  {
    if j == 0 {
    } else if c % 2 == 0 {
      assert (c + 1) % 2 == 1 && (c + 1) / 2 == c / 2;
    } else {
      assert (c + 1) % 2 == 0 && (c + 1) / 2 == c / 2 + 1;
      RevIncCorrect(j - 1, c / 2);
    }
  }

  /** Adding 2^k increments the reversed low j - k bits and leaves the k bits above alone. */
  lemma RevAddPow(j: nat, k: nat, c: nat)
    requires k <= j
    ensures Shr(Rev(j, c + Pow2(k)), j - k) == Shr(Rev(j, c), j - k)
    ensures Low(Rev(j, c + Pow2(k)), j - k) == RevInc(j - k, Low(Rev(j, c), j - k))
  {
    RevSplit(j, k, c);
    RevSplit(j, k, c + Pow2(k));
    AddPow(c, k, k);
    RevLow(k, c);
    RevLow(k, c + Pow2(k));
    RevIncCorrect(j - k, Shr(c, k));
  }

  /** The position of the highest set bit: 31 - clz on 32-bit values. */
  function Log2(x: nat): nat
    requires x > 0
  {
    if x == 1 then 0 else 1 + Log2(x / 2)
  }

  lemma {:induction false} Log2Bounds(x: nat)
    requires x > 0
    ensures Pow2(Log2(x)) <= x < 2 * Pow2(Log2(x))
  {
    if x > 1 {
      Log2Bounds(x / 2);
    }
  }

  lemma {:induction false} Log2Unique(x: nat, n: nat)
    requires Pow2(n) <= x < 2 * Pow2(n)
    ensures Log2(x) == n
  {
    if n > 0 {
      Log2Unique(x / 2, n - 1);
    }
  }

  lemma {:induction false} ShlBounds(x: nat, h: nat, n: nat)
    requires Pow2(h) <= x < 2 * Pow2(h)
    ensures Pow2(h + n) <= Shl(x, n) <= Shl(x, n) + Pow2(n) <= 2 * Pow2(h + n)
  {
    if n > 0 {
      ShlBounds(x, h, n - 1);
      assert h + n - 1 == h + (n - 1);
    }
  }

  lemma {:induction false} ShrRange(x: nat, k: nat, n: nat)
    requires k <= n
    ensures x < Pow2(n) <==> Shr(x, k) < Pow2(n - k)
  {
    if k > 0 {
      ShrRange(x / 2, k - 1, n - 1);
    }
  }

  /** Dropping k bits of a number that has more than k. */
  lemma {:induction false} Log2Shr(x: nat, k: nat)
    requires Shr(x, k) > 0
    ensures x > 0 && Log2(x) == Log2(Shr(x, k)) + k
  {
    if k > 0 {
      Log2Shr(x / 2, k - 1);
    }
  }
}
