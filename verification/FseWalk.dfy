/** The stride with which elf_zstd_build_fse spreads symbols over a table of 2^k cells. */
module FseWalk {
  import opened Bits

  function Step(k: nat): nat {
    Pow2(k) / 2 + Pow2(k) / 8 + 3
  }

  /** The cell reached after u steps from cell 0. */
  function Pos(k: nat, u: nat): (p: nat)
    ensures p < Pow2(k)
  {
    if u == 0 then 0 else (Pos(k, u - 1) + Step(k)) % Pow2(k)
  }

  lemma Mul2(a: int, b: int, c: int)
    ensures (a + b) * c == a * c + b * c
  {
  }

  lemma MulAssoc(a: int, b: int, c: int)
    ensures a * b * c == a * (b * c)
  {
  }

  lemma OddTimesOdd(d: int, s: int)
    requires d % 2 == 1 && s % 2 == 1
    ensures (d * s) % 2 == 1
  {
    var e := d / 2;
    assert d == 2 * e + 1;
    Mul2(2 * e, 1, s);
    MulAssoc(2, e, s);
    OddSum(e * s, s);
  }

  lemma OddSum(a: int, s: int)
    requires s % 2 == 1
    ensures (2 * a + s) % 2 == 1
  {
  }

  /** An odd step takes 2^k steps to come round: fewer steps never advance by a multiple of 2^k. */
  lemma {:induction false} OddCancel(k: nat, d: nat, s: int, m: int)
    requires s % 2 == 1 && d < Pow2(k) && d * s == m * Pow2(k)
    ensures d == 0
  {
    if k > 0 {
      var p := Pow2(k - 1);
      assert m * Pow2(k) == 2 * (m * p) by { Double(m, p); }
      if d % 2 == 1 {
        OddTimesOdd(d, s);
      } else {
        MulAssoc(2, d / 2, s);
        OddCancel(k - 1, d / 2, s, m);
      }
    }
  }

  lemma Double(m: int, p: int)
    ensures m * (2 * p) == 2 * (m * p)
  {
  }

  lemma {:induction false} StepOdd(k: nat)
    requires k >= 4
    ensures Step(k) % 2 == 1
  {
    var q := Pow2(k - 4);
    Sixteen(k);
    hide Pow2;
    OddStride(Pow2(k), q);
  }

  lemma Sixteen(k: nat)
    requires k >= 4
    ensures Pow2(k) == 16 * Pow2(k - 4)
  {
    assert Pow2(k) == 2 * Pow2(k - 1) && Pow2(k - 1) == 2 * Pow2(k - 2);
    assert Pow2(k - 2) == 2 * Pow2(k - 3) && Pow2(k - 3) == 2 * Pow2(k - 4);
  }

  lemma OddStride(p: nat, q: nat)
    requires p == 16 * q
    ensures (p / 2 + p / 8 + 3) % 2 == 1
  {
    assert p / 2 == 8 * q && p / 8 == 2 * q;
    OddSum(5 * q + 1, 1);
  }

  lemma AddRound(a: int, q: int, p: int, r: int, s: int)
    requires p > 0 && a == q * p + r
    ensures a + s == (q + (r + s) / p) * p + (r + s) % p
  {
    Mul2(q, (r + s) / p, p);
  }

  /** u steps are u times the step, less some number of rounds. */
  lemma {:induction false} PosIsMultiple(k: nat, u: nat) returns (q: int)
    ensures u * Step(k) == q * Pow2(k) + Pos(k, u)
  {
    if u == 0 {
      q := 0;
    } else {
      var q0 := PosIsMultiple(k, u - 1);
      hide Step, Pow2;
      AddRound((u - 1) * Step(k), q0, Pow2(k), Pos(k, u - 1), Step(k));
      Mul2(u - 1, 1, Step(k));
      q := q0 + (Pos(k, u - 1) + Step(k)) / Pow2(k);
    }
  }

  lemma Difference(u: int, v: int, s: int, qu: int, qv: int, p: int, r: int)
    requires u * s == qu * p + r && v * s == qv * p + r
    ensures (v - u) * s == (qv - qu) * p
  {
    Mul2(v, -u, s);
    Mul2(qv, -qu, p);
  }

  /** No cell is reached twice in the first 2^k steps. */
  lemma PosInjective(k: nat, u: nat, v: nat)
    requires k >= 4 && u < v < Pow2(k)
    ensures Pos(k, u) != Pos(k, v)
  {
    hide Step, Pow2, Pos;
    if Pos(k, u) == Pos(k, v) {
      var qu := PosIsMultiple(k, u);
      var qv := PosIsMultiple(k, v);
      StepOdd(k);
      Difference(u, v, Step(k), qu, qv, Pow2(k), Pos(k, u));
      OddCancel(k, v - u, Step(k), qv - qu);
    }
  }

  lemma NoRemainder(p: int, s: int, q: int, r: int)
    requires p * s == q * p + r && 0 <= r < p
    ensures r == 0
  {
    DivModUnique(p, s, 0, q, r);
  }

  /** After 2^k steps the walk is back at cell 0. */
  lemma PosReturns(k: nat)
    ensures Pos(k, Pow2(k)) == 0
  {
    hide Step, Pow2, Pos;
    var q := PosIsMultiple(k, Pow2(k));
    NoRemainder(Pow2(k), Step(k), q, Pos(k, Pow2(k)));
  }

  lemma MulAtLeast(a: int, d: int)
    requires a >= 1 && d >= 0
    ensures a * d >= d
  {
  }

  /** There is one way to write a number as q * d + r with r below d. */
  lemma DivModUnique(d: int, q: int, r: int, q': int, r': int)
    requires 0 <= r < d && 0 <= r' < d
    requires q * d + r == q' * d + r'
    ensures q == q' && r == r'
  {
    var k := q - q';
    Mul2(q, -q', d);
    assert k * d == r' - r;
    if k >= 1 {
      MulAtLeast(k, d);
    } else if k <= -1 {
      MulAtLeast(-k, d);
    }
  }

  /** The first t cells of the walk. */
  function Reached(k: nat, t: nat): (r: set<nat>) {
    set u: nat | u < t :: Pos(k, u)
  }

  lemma {:induction false} ReachedSize(k: nat, t: nat)
    requires k >= 4 && t <= Pow2(k)
    ensures |Reached(k, t)| == t
  {
    if t > 0 {
      ReachedSize(k, t - 1);
      assert Reached(k, t) == Reached(k, t - 1) + {Pos(k, t - 1)};
      forall u: nat | u < t - 1
        ensures Pos(k, u) != Pos(k, t - 1)
      {
        PosInjective(k, u, t - 1);
      }
    }
  }

  /** The numbers below n. */
  function Below(n: nat): (r: set<nat>)
    ensures |r| == n && forall x :: x in r <==> 0 <= x < n
  {
    if n == 0 then {} else Below(n - 1) + {n - 1}
  }

  lemma SameSize(a: set<nat>, b: set<nat>)
    requires a <= b && |a| == |b|
    ensures a == b
  {
    assert |b - a| == |b| - |a|;
  }

  /** Every cell is reached in the first 2^k steps. */
  lemma PosSurjective(k: nat, x: nat) returns (u: nat)
    requires k >= 4 && x < Pow2(k)
    ensures u < Pow2(k) && Pos(k, u) == x
  {
    ReachedSize(k, Pow2(k));
    SameSize(Reached(k, Pow2(k)), Below(Pow2(k)));
    assert x in Reached(k, Pow2(k));
    u :| u < Pow2(k) && Pos(k, u) == x;
  }
}
