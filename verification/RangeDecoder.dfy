/** The LZMA range decoder of libbacktrace, against exact arithmetic. */
module RangeDecoder {
  // Every sequence of bits owns an interval of numbers, and the decoder reads a sequence exactly when the
  // input lies in its interval.

  import opened Bits

  const TOP: nat := 0x100_0000
  const TOTAL: nat := 2048
  const MIN_PROB: nat := 31
  const MAX_PROB: nat := 2017

  /** The first n bytes of the input as one number. */
  ghost function Value(input: seq<byte>, n: nat): nat
    requires n <= |input|
  {
    if n == 0 then 0 else 256 * Value(input, n - 1) + input[n - 1]
  }

  /** The interval low..low + range of the numbers of off bytes. */
  datatype Interval = Interval(low: nat, range: nat, off: nat)

  ghost predicate Contains(i: Interval, input: seq<byte>) {
    i.off <= |input| && i.low <= Value(input, i.off) < i.low + i.range
  }

  /** One more byte when the range has become small, as long as there is input. */
  function Normal(i: Interval, size: nat): Interval {
    if i.range < TOP && i.off < size then Interval(256 * i.low, 256 * i.range, i.off + 1) else i
  }

  function Bound(range: nat, prob: nat): nat { (range / TOTAL) * prob }

  /** The part of the interval that belongs to the bit. */
  function SubInterval(i: Interval, size: nat, prob: nat, bit: nat): Interval
    requires prob <= TOTAL
  {
    var n := Normal(i, size);
    var bound := Bound(n.range, prob);
    BoundFits(n.range, prob);
    if bit == 0 then n.(range := bound) else n.(low := n.low + bound, range := n.range - bound)
  }

  /** The probability after the bit. */
  function Adapt(prob: nat, bit: nat): (p: nat)
    requires prob <= TOTAL
    ensures p <= TOTAL
    ensures MIN_PROB <= prob <= MAX_PROB ==> MIN_PROB <= p <= MAX_PROB
  {
    if bit == 0 then prob + (TOTAL - prob) / 32 else prob - prob / 32
  }

  /** A 0 closes the gap to 2048 by a 32nd, rounded down, and a 1 takes a 32nd off the probability; they mirror each
      other. In the range of the probabilities only 2017 and 31 are not changed by another 0 and another 1. */
  lemma AdaptLaws(prob: nat)
    requires prob <= TOTAL
    ensures var gain: int := Adapt(prob, 0) - prob; 32 * gain <= TOTAL - prob < 32 * (gain + 1)
    ensures var loss: int := prob - Adapt(prob, 1); 32 * loss <= prob < 32 * (loss + 1)
    ensures Adapt(TOTAL - prob, 1) == TOTAL - Adapt(prob, 0) && Adapt(TOTAL - prob, 0) == TOTAL - Adapt(prob, 1)
    ensures MIN_PROB <= prob <= MAX_PROB ==>
      (Adapt(prob, 0) == prob <==> prob == MAX_PROB) && (Adapt(prob, 1) == prob <==> prob == MIN_PROB)
  {
    var up, down := (TOTAL - prob) / 32, prob / 32;
    assert 32 * up <= TOTAL - prob < 32 * (up + 1) && 32 * down <= prob < 32 * (down + 1);
    assert (TOTAL - (TOTAL - prob)) / 32 == down;
  }

  lemma MulMono(a: nat, x: nat, y: nat)
    requires x <= y
    ensures a * x <= a * y
  {
  }

  lemma BoundFits(range: nat, prob: nat)
    requires prob <= TOTAL
    ensures Bound(range, prob) <= range
  {
    MulMono(range / TOTAL, prob, TOTAL);
  }

  /** A 0 gets the part of the interval that its probability says, in 2048ths, but for rounding. */
  lemma BoundProportion(range: nat, prob: nat)
    ensures TOTAL * Bound(range, prob) <= range * prob <= TOTAL * Bound(range, prob) + (TOTAL - 1) * prob
  {
    var q, r := range / TOTAL, range % TOTAL;
    assert range == TOTAL * q + r;
    Spread(q, r, prob);
    MulMono(prob, r, TOTAL - 1);
  }

  lemma Spread(q: nat, r: nat, prob: nat)
    ensures (TOTAL * q + r) * prob == TOTAL * (q * prob) + prob * r
  {
  }

  /** With a probability in its range, neither bit gets less than 31 of the 2048 shares of the interval. */
  lemma BoundShare(range: nat, prob: nat)
    requires MIN_PROB <= prob <= MAX_PROB
    ensures range / TOTAL * MIN_PROB <= Bound(range, prob) <= range - range / TOTAL * MIN_PROB
  {
    var q := range / TOTAL;
    MulMono(q, MIN_PROB, prob);
    MulMono(q, prob, MAX_PROB);
  }

  /** From a range of 2^11 on both bits have a part of the interval, and from 2^24 on a part of more than 2^16. */
  lemma BoundInside(range: nat, prob: nat)
    requires MIN_PROB <= prob <= MAX_PROB
    ensures range >= TOTAL ==> 0 < Bound(range, prob) < range
    ensures range >= TOP ==> TOP / 256 < Bound(range, prob) && Bound(range, prob) + TOP / 256 < range
  {
    BoundShare(range, prob);
    hide Bound;
    assert range >= TOP ==> range / TOTAL >= 8192;
  }

  lemma NormalContains(i: Interval, input: seq<byte>)
    requires Contains(i, input)
    ensures Contains(Normal(i, |input|), input)
  {
  }

  /** Exactly one of the two parts contains the input. */
  lemma OneBit(i: Interval, input: seq<byte>, prob: nat)
    requires Contains(i, input) && prob <= TOTAL
    ensures Contains(SubInterval(i, |input|, prob, 0), input) <==> !Contains(SubInterval(i, |input|, prob, 1), input)
  {
    NormalContains(i, input);
  }

  lemma SubContains(i: Interval, input: seq<byte>, prob: nat, bit: nat)
    requires prob <= TOTAL && i.off <= |input| && Contains(SubInterval(i, |input|, prob, bit), input)
    ensures Contains(i, input)
  {
    BoundFits(Normal(i, |input|).range, prob);
    if i.range < TOP && i.off < |input| {
      assert Value(input, i.off + 1) == 256 * Value(input, i.off) + input[i.off];
    }
  }

  // ---- The decoder

  /** *prange, *pcode and *poffset. */
  datatype Decoder = Decoder(range: uint32, code: uint32, off: nat)

  /** The decoder holds the distance of the input from the low end of the interval. */
  ghost predicate Tracks(d: Decoder, i: Interval, input: seq<byte>) {
    d.range == i.range && d.off == i.off && Contains(i, input) && d.code == Value(input, i.off) - i.low
  }

  /** The start of a run of compressed data: one byte is skipped and four make the code. The decoder tracks the
      input unless all four are 0xff. */
  method Start(input: seq<byte>, off: nat) returns (d: Decoder, ghost i: Interval)
    requires off + 5 <= |input|
    ensures d.off == off + 5 && d.range == 0xffff_ffff && i.range == d.range
    ensures d.code == Value(input, off + 5) - i.low && i.low % 0x1_0000_0000 == 0
    ensures Tracks(d, i, input) <==> d.code != 0xffff_ffff
  {
    var b: seq<nat> := [input[off + 1], input[off + 2], input[off + 3], input[off + 4]];
    var code := ((b[0] * 256 + b[1]) * 256 + b[2]) * 256 + b[3];
    d := Decoder(0xffff_ffff, code, off + 5);
    ghost var v := Value(input, off + 1);
    assert Value(input, off + 2) == 256 * v + b[0];
    assert Value(input, off + 3) == 256 * (256 * v + b[0]) + b[1];
    assert Value(input, off + 4) == 256 * (256 * (256 * v + b[0]) + b[1]) + b[2];
    assert Value(input, off + 5) == 256 * (256 * (256 * (256 * v + b[0]) + b[1]) + b[2]) + b[3];
    i := Interval(0x1_0000_0000 * v, 0xffff_ffff, off + 5);
  }

  method Normalize(input: seq<byte>, d: Decoder, ghost i: Interval) returns (d': Decoder)
    requires Tracks(d, i, input)
    ensures Tracks(d', Normal(i, |input|), input)
    ensures d.range >= TOP || (d.off < |input| && d.range >= TOP / 256) ==> d'.range >= TOP
  {
    d' := d;
    if d.range < TOP {
      if d.off >= |input| {
        return;
      }
      d' := Decoder(d.range * 256, d.code * 256 + input[d.off], d.off + 1);
    }
  }

  ghost predicate GoodProbs(probs: seq<uint16>) {
    forall k | 0 <= k < |probs| :: MIN_PROB <= probs[k] <= MAX_PROB
  }

  /** elf_lzma_bit: decodes the bit whose interval contains the input, and adapts its probability. */
  method Bit(input: seq<byte>, probs: array<uint16>, slot: nat, d: Decoder, ghost i: Interval)
    returns (bit: nat, d': Decoder)
    requires slot < probs.Length && GoodProbs(probs[..]) && Tracks(d, i, input)
    modifies probs
    ensures bit < 2 && Tracks(d', SubInterval(i, |input|, old(probs[slot]), bit), input)
    ensures probs[..] == old(probs[..])[slot := Adapt(old(probs[slot]), bit) as uint16] && GoodProbs(probs[..])
    ensures d.range >= TOP || (d.off < |input| && d.range >= TOP / 256) ==> d'.range > TOP / 256
  {
    assert MIN_PROB <= probs[..][slot] <= MAX_PROB;
    var prob: nat := probs[slot];
    var n := Normalize(input, d, i);
    var bound := Bound(n.range, prob);
    BoundFits(n.range, prob);
    if n.range >= TOP {
      BoundInside(n.range, prob);
    }
    if n.code < bound {
      d' := Decoder(bound, n.code, n.off);
      probs[slot] := prob + (TOTAL - prob) / 32;
      bit := 0;
    } else {
      d' := Decoder(n.range - bound, n.code - bound, n.off);
      probs[slot] := prob - prob / 32;
      bit := 1;
    }
  }

  // ---- Sequences of bits

  /** The interval and the probabilities after some bits. */
  datatype Model = Model(i: Interval, probs: seq<uint16>)

  /** Which probability predicts the next bit, after the bits read so far. */
  type Context = seq<nat> -> nat

  function Slot(ctx: Context, w: seq<nat>, probs: seq<uint16>): (k: nat)
    requires |probs| > 0
    ensures k < |probs|
  {
    if ctx(w) < |probs| then ctx(w) else 0
  }

  ghost predicate ValidModel(m: Model, size: nat) {
    |m.probs| > 0 && GoodProbs(m.probs) && m.i.off <= size
  }

  /** One bit further. */
  ghost function After(m: Model, size: nat, slot: nat, bit: nat): (m': Model)
    requires ValidModel(m, size) && slot < |m.probs|
    ensures ValidModel(m', size) && |m'.probs| == |m.probs|
  {
    Model(SubInterval(m.i, size, m.probs[slot], bit), m.probs[slot := Adapt(m.probs[slot], bit) as uint16])
  }

  /** The interval that belongs to the bits w. */
  ghost function Path(m: Model, size: nat, ctx: Context, w: seq<nat>): (m': Model)
    requires ValidModel(m, size)
    ensures ValidModel(m', size) && |m'.probs| == |m.probs|
  {
    if w == [] then m
    else
      var u := w[..|w| - 1];
      var m' := Path(m, size, ctx, u);
      After(m', size, Slot(ctx, u, m'.probs), w[|w| - 1])
  }

  /** Exact arithmetic decoding: at every bit, the part of the interval that contains the input. */
  ghost function Exact(m: Model, input: seq<byte>, ctx: Context, n: nat): (w: seq<nat>)
    requires ValidModel(m, |input|)
    ensures |w| == n && forall k | 0 <= k < n :: w[k] < 2
  {
    if n == 0 then []
    else
      var u := Exact(m, input, ctx, n - 1);
      var m' := Path(m, |input|, ctx, u);
      u + [if Contains(After(m', |input|, Slot(ctx, u, m'.probs), 0).i, input) then 0 else 1]
  }

  lemma {:induction false} ExactContained(m: Model, input: seq<byte>, ctx: Context, n: nat)
    requires ValidModel(m, |input|) && Contains(m.i, input)
    ensures Contains(Path(m, |input|, ctx, Exact(m, input, ctx, n)).i, input)
  {
    if n > 0 {
      ExactContained(m, input, ctx, n - 1);
      var u := Exact(m, input, ctx, n - 1);
      var m' := Path(m, |input|, ctx, u);
      var slot := Slot(ctx, u, m'.probs);
      OneBit(m'.i, input, m'.probs[slot]);
      assert Exact(m, input, ctx, n)[..n - 1] == u;
    }
  }

  lemma PathStep(m: Model, size: nat, ctx: Context, u: seq<nat>, b: nat)
    requires ValidModel(m, size)
    ensures var m' := Path(m, size, ctx, u); Path(m, size, ctx, u + [b]) == After(m', size, Slot(ctx, u, m'.probs), b)
  {
    hide ValidModel, After;
    assert (u + [b])[..|u|] == u;
  }

  lemma AfterOne(m: Model, input: seq<byte>, slot: nat)
    requires ValidModel(m, |input|) && slot < |m.probs|
    ensures Contains(m.i, input) ==>
      (Contains(After(m, |input|, slot, 0).i, input) <==> !Contains(After(m, |input|, slot, 1).i, input))
    ensures forall b :: Contains(After(m, |input|, slot, b).i, input) ==> Contains(m.i, input)
  {
    hide Contains, SubInterval, Value;
    if Contains(m.i, input) {
      OneBit(m.i, input, m.probs[slot]);
    }
    forall b: nat | Contains(After(m, |input|, slot, b).i, input)
      ensures Contains(m.i, input)
    {
      SubContains(m.i, input, m.probs[slot], b);
    }
  }

  /** The interval of a longer sequence lies in that of a shorter one. */
  lemma PathNested(m: Model, input: seq<byte>, ctx: Context, u: seq<nat>, b: nat)
    requires ValidModel(m, |input|) && Contains(Path(m, |input|, ctx, u + [b]).i, input)
    ensures Contains(Path(m, |input|, ctx, u).i, input)
  {
    hide Contains, Path, After, ValidModel;
    PathStep(m, |input|, ctx, u, b);
    var m' := Path(m, |input|, ctx, u);
    NonEmptyProbs(m', |input|);
    AfterOne(m', input, Slot(ctx, u, m'.probs));
  }

  lemma NonEmptyProbs(m: Model, size: nat)
    requires ValidModel(m, size)
    ensures |m.probs| > 0
  {
  }

  lemma ExactStep(m: Model, input: seq<byte>, ctx: Context, n: nat)
    requires ValidModel(m, |input|)
    ensures var u := Exact(m, input, ctx, n); var m' := Path(m, |input|, ctx, u);
      Exact(m, input, ctx, n + 1)
      == u + [if Contains(After(m', |input|, Slot(ctx, u, m'.probs), 0).i, input) then 0 else 1]
  {
    hide ValidModel, After, Contains, Path;
  }

  /** One bit after a sequence that the input decodes to. */
  lemma ExactNext(m: Model, input: seq<byte>, ctx: Context, u: seq<nat>, b: nat)
    requires ValidModel(m, |input|) && Contains(m.i, input) && u == Exact(m, input, ctx, |u|) && b < 2
    ensures Contains(Path(m, |input|, ctx, u + [b]).i, input) <==> u + [b] == Exact(m, input, ctx, |u| + 1)
  {
    hide ValidModel, After, Contains, Path, Exact;
    ExactContained(m, input, ctx, |u|);
    ExactStep(m, input, ctx, |u|);
    PathStep(m, |input|, ctx, u, b);
    var m' := Path(m, |input|, ctx, u);
    NonEmptyProbs(m', |input|);
    AfterOne(m', input, Slot(ctx, u, m'.probs));
    assert forall x: nat :: (u + [b] == u + [x]) == (b == x) by {
      forall x: nat
        ensures (u + [b] == u + [x]) == (b == x)
      {
        assert (u + [b])[|u|] == b && (u + [x])[|u|] == x;
      }
    }
  }

  /** The input decodes to w exactly when it lies in the interval of w. */
  lemma {:induction false} DecodesIff(m: Model, input: seq<byte>, ctx: Context, w: seq<nat>)
    requires ValidModel(m, |input|) && Contains(m.i, input) && forall k | 0 <= k < |w| :: w[k] < 2
    ensures Contains(Path(m, |input|, ctx, w).i, input) <==> w == Exact(m, input, ctx, |w|)
  {
    if w != [] {
      hide Path, Contains, ValidModel;
      var n := |w|;
      var u, b := w[..n - 1], w[n - 1];
      assert w == u + [b];
      DecodesIff(m, input, ctx, u);
      if Contains(Path(m, |input|, ctx, w).i, input) {
        PathNested(m, input, ctx, u, b);
      }
      if u == Exact(m, input, ctx, n - 1) {
        ExactNext(m, input, ctx, u, b);
      }
    }
  }

  // ---- Integers

  /** The node of the binary tree of probabilities that the bits lead to. */
  function TreeNode(w: seq<nat>): nat {
    if w == [] then 1 else 2 * TreeNode(w[..|w| - 1]) + w[|w| - 1]
  }

  function Tree(base: nat): Context { w => base + TreeNode(w) }

  /** Bits as a number, the first one highest. */
  function MsbFirst(w: seq<nat>): nat {
    if w == [] then 0 else 2 * MsbFirst(w[..|w| - 1]) + w[|w| - 1]
  }

  /** Bits as a number, the first one lowest. */
  function LsbFirst(w: seq<nat>): nat {
    if w == [] then 0 else LsbFirst(w[..|w| - 1]) + Shl(w[|w| - 1], |w| - 1)
  }

  lemma {:induction false} TreeNodeIs(w: seq<nat>)
    requires forall k | 0 <= k < |w| :: w[k] < 2
    ensures TreeNode(w) == Pow2(|w|) + MsbFirst(w) && MsbFirst(w) < Pow2(|w|)
  {
    if w != [] {
      TreeNodeIs(w[..|w| - 1]);
    }
  }

  lemma {:induction false} ShlBit(b: nat, k: nat)
    requires b < 2
    ensures Shl(b, k) == if b == 0 then 0 else Pow2(k)
  {
    if k > 0 {
      ShlBit(b, k - 1);
    }
  }

  lemma {:induction false} LsbBound(w: seq<nat>)
    requires forall k | 0 <= k < |w| :: w[k] < 2
    ensures LsbFirst(w) < Pow2(|w|)
  {
    if w != [] {
      LsbBound(w[..|w| - 1]);
      ShlBit(w[|w| - 1], |w| - 1);
    }
  }

  /** A tree of depth bits uses its own probabilities only. */
  lemma {:induction false} TreeTouches(m: Model, size: nat, base: nat, bits: nat, w: seq<nat>, k: nat)
    requires ValidModel(m, size) && |w| <= bits && base + Pow2(bits) <= |m.probs|
    requires forall j | 0 <= j < |w| :: w[j] < 2
    requires k < |m.probs| && !(base < k < base + Pow2(bits))
    ensures Path(m, size, Tree(base), w).probs[k] == m.probs[k]
  {
    if w != [] {
      var u := w[..|w| - 1];
      TreeTouches(m, size, base, bits, u, k);
      TreeNodeIs(u);
      Pow2Mono(|u|, bits);
    }
  }

  /** The decoder is where the bits w lead. */
  ghost predicate At(d: Decoder, probs: seq<uint16>, m: Model, input: seq<byte>, ctx: Context, w: seq<nat>)
  {
    && ValidModel(m, |input|)
    && Tracks(d, Path(m, |input|, ctx, w).i, input) && probs == Path(m, |input|, ctx, w).probs
    && w == Exact(m, input, ctx, |w|)
  }

  /** As long as there is input the range is above 2^16, so that one more byte makes it large enough for a bit. */
  predicate Wide(d: Decoder, input: seq<byte>) { d.off < |input| ==> d.range > TOP / 256 }

  lemma OffGrows(d: Decoder, d': Decoder, i: Interval, input: seq<byte>, prob: nat, bit: nat)
    requires Tracks(d, i, input) && prob <= TOTAL && Tracks(d', SubInterval(i, |input|, prob, bit), input)
    ensures d.off <= d'.off
  {
    hide Contains;
  }

  /** Decoding one more bit of a sequence. */
  method NextBit(input: seq<byte>, probs: array<uint16>, slot: nat, d: Decoder, ghost m: Model, ghost ctx: Context,
                 ghost w: seq<nat>) returns (bit: nat, d': Decoder)
    requires At(d, probs[..], m, input, ctx, w) && slot < probs.Length && slot == ctx(w)
    modifies probs
    ensures bit < 2 && At(d', probs[..], m, input, ctx, w + [bit])
    ensures Wide(d, input) ==> Wide(d', input)
  {
    ghost var m' := Path(m, |input|, ctx, w);
    bit, d' := Bit(input, probs, slot, d, m'.i);
    OffGrows(d, d', m'.i, input, m'.probs[slot], bit);
    NextAt(d, d', m, m', input, ctx, w, bit);
  }

  lemma NextAt(d: Decoder, d': Decoder, m: Model, m': Model, input: seq<byte>, ctx: Context, w: seq<nat>, bit: nat)
    requires ValidModel(m, |input|) && w == Exact(m, input, ctx, |w|) && bit < 2 && m' == Path(m, |input|, ctx, w)
    requires Contains(m'.i, input) && ctx(w) < |m'.probs| && Tracks(d', After(m', |input|, ctx(w), bit).i, input)
    ensures At(d', After(m', |input|, ctx(w), bit).probs, m, input, ctx, w + [bit])
  {
    hide ValidModel, Path, Exact, After, SubInterval, Adapt;
    PathStep(m, |input|, ctx, w, bit);
    NextExact(m, m', input, ctx, w, bit, d');
  }

  lemma NextExact(m: Model, m': Model, input: seq<byte>, ctx: Context, w: seq<nat>, bit: nat, d': Decoder)
    requires ValidModel(m, |input|) && w == Exact(m, input, ctx, |w|) && bit < 2 && m' == Path(m, |input|, ctx, w)
    requires Contains(m'.i, input) && ctx(w) < |m'.probs| && Tracks(d', After(m', |input|, ctx(w), bit).i, input)
    ensures w + [bit] == Exact(m, input, ctx, |w| + 1)
  {
    hide ValidModel, Path, Exact, After, SubInterval, Adapt, Contains;
    ExactStep(m, input, ctx, |w|);
    AfterOne(m', input, ctx(w));
  }

  lemma AtStart(d: Decoder, probs: seq<uint16>, m: Model, input: seq<byte>, ctx: Context)
    requires ValidModel(m, |input|) && Tracks(d, m.i, input) && probs == m.probs
    ensures At(d, probs, m, input, ctx, [])
  {
  }

  /** The decoder and the probabilities fit together. */
  ghost predicate Ready(d: Decoder, probs: seq<uint16>, m: Model, input: seq<byte>) {
    ValidModel(m, |input|) && Tracks(d, m.i, input) && probs == m.probs
  }

  lemma TreeStart()
    ensures TreeNode([]) == 1 && LsbFirst([]) == 0
  {
  }

  lemma TreeStep(w: seq<nat>, b: nat)
    ensures TreeNode(w + [b]) == 2 * TreeNode(w) + b && LsbFirst(w + [b]) == LsbFirst(w) + Shl(b, |w|)
  {
    assert (w + [b])[..|w|] == w;
  }

  /** elf_lzma_integer: a number of the given number of bits, most significant first. */
  method ReadInteger(input: seq<byte>, probs: array<uint16>, base: nat, bits: nat, d: Decoder, ghost m: Model)
    returns (x: nat, d': Decoder, ghost w: seq<nat>)
    requires Ready(d, probs[..], m, input) && base + Pow2(bits) <= probs.Length
    modifies probs
    ensures |w| == bits && At(d', probs[..], m, input, Tree(base), w)
    ensures x == MsbFirst(w) < Pow2(bits) && (Wide(d, input) ==> Wide(d', input))
    ensures forall k | 0 <= k < probs.Length && !(base < k < base + Pow2(bits)) :: probs[k] == old(probs[k])
  {
    AtStart(d, probs[..], m, input, Tree(base));
    d', w := d, [];
    TreeStart();
    hide At, Pow2, TreeNode, Wide;
    var sym: nat := 1;
    for i: nat := 0 to bits
      invariant |w| == i && sym == TreeNode(w) && (forall k | 0 <= k < i :: w[k] < 2)
      invariant At(d', probs[..], m, input, Tree(base), w) && (Wide(d, input) ==> Wide(d', input))
    {
      TreeNodeIs(w);
      Pow2Mono(i, bits);
      var bit;
      bit, d' := NextBit(input, probs, base + sym, d', m, Tree(base), w);
      TreeStep(w, bit);
      sym := 2 * sym + bit;
      w := w + [bit];
    }
    TreeNodeIs(w);
    x := sym - Pow2(bits);
    OthersKept(old(probs[..]), d', probs[..], m, input, base, bits, w);
  }

  lemma OthersKept(old': seq<uint16>, d: Decoder, probs: seq<uint16>, m: Model, input: seq<byte>, base: nat, bits: nat,
                   w: seq<nat>)
    requires At(d, probs, m, input, Tree(base), w) && old' == m.probs && |w| == bits && base + Pow2(bits) <= |probs|
    requires forall j | 0 <= j < |w| :: w[j] < 2
    ensures |probs| == |old'|
    ensures forall k | 0 <= k < |probs| && !(base < k < base + Pow2(bits)) :: probs[k] == old'[k]
  {
    forall k | 0 <= k < |probs| && !(base < k < base + Pow2(bits))
      ensures probs[k] == old'[k]
    {
      TreeTouches(m, |input|, base, bits, w, k);
    }
  }

  /** elf_lzma_reverse_integer: the same, least significant bit first. */
  method ReadReverseInteger(input: seq<byte>, probs: array<uint16>, base: nat, bits: nat, d: Decoder, ghost m: Model)
    returns (x: nat, d': Decoder, ghost w: seq<nat>)
    requires Ready(d, probs[..], m, input) && base + Pow2(bits) <= probs.Length
    modifies probs
    ensures |w| == bits && At(d', probs[..], m, input, Tree(base), w)
    ensures x == LsbFirst(w) < Pow2(bits) && (Wide(d, input) ==> Wide(d', input))
    ensures forall k | 0 <= k < probs.Length && !(base < k < base + Pow2(bits)) :: probs[k] == old(probs[k])
  {
    AtStart(d, probs[..], m, input, Tree(base));
    d', w := d, [];
    TreeStart();
    hide At, Pow2, Shl, TreeNode, LsbFirst, Wide;
    var sym: nat, val: nat := 1, 0;
    for i: nat := 0 to bits
      invariant |w| == i && sym == TreeNode(w) && val == LsbFirst(w) && (forall k | 0 <= k < i :: w[k] < 2)
      invariant At(d', probs[..], m, input, Tree(base), w) && (Wide(d, input) ==> Wide(d', input))
    {
      TreeNodeIs(w);
      Pow2Mono(i, bits);
      var bit;
      bit, d' := NextBit(input, probs, base + sym, d', m, Tree(base), w);
      TreeStep(w, bit);
      sym := 2 * sym + bit;
      val := val + Shl(bit, i);
      w := w + [bit];
    }
    LsbBound(w);
    x := val;
    OthersKept(old(probs[..]), d', probs[..], m, input, base, bits, w);
  }
}