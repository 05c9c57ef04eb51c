/** What RFC 1951 and RFC 1950 say a compressed stream means, bit by bit and byte by byte. */
module Deflate {
  // Nothing here knows about tables, buffers or words: w is the whole input as one number, its first bit lowest.

  import opened Bits
  import opened HuffmanCode
  import opened Wrappers

  /** A place in the input and what has been put out up to there. */
  datatype State = State(pos: nat, out: seq<byte>)

  /** The n bits at pos, as a number; None past the end of the input. */
  ghost function Field(w: nat, pos: nat, n: nat, end: nat): Option<nat> {
    if pos + n <= end then Some(Low(Shr(w, pos), n)) else None
  }

  /** The symbol whose code comes next. */
  ghost function Symbol(lens: seq<nat>, w: nat, pos: nat, end: nat): Option<nat> {
    if s: nat :| Matches(lens, s, Shr(w, pos)) && pos + lens[s] <= end then Some(s) else None
  }

  // ---- Lengths and distances, section 3.2.5

  const LENGTH_BASE: seq<nat> := [3, 4, 5, 6, 7, 8, 9, 10, 11, 13, 15, 17, 19, 23, 27, 31, 35, 43, 51, 59, 67, 83, 99,
                                  115, 131, 163, 195, 227, 258]
  const LENGTH_EXTRA: seq<nat> := [0, 0, 0, 0, 0, 0, 0, 0, 1, 1, 1, 1, 2, 2, 2, 2, 3, 3, 3, 3, 4, 4, 4, 4, 5, 5, 5, 5,
                                   0]
  const DIST_BASE: seq<nat> := [1, 2, 3, 4, 5, 7, 9, 13, 17, 25, 33, 49, 65, 97, 129, 193, 257, 385, 513, 769, 1025,
                                1537, 2049, 3073, 4097, 6145, 8193, 12289, 16385, 24577]
  const DIST_EXTRA: seq<nat> := [0, 0, 0, 0, 1, 1, 2, 2, 3, 3, 4, 4, 5, 5, 6, 6, 7, 7, 8, 8, 9, 9, 10, 10, 11, 11, 12,
                                 12, 13, 13]

  /** A base value plus extra bits: the value and the place after it. */
  ghost function Extended(base: nat, extra: nat, w: nat, pos: nat, end: nat): (r: Option<(nat, nat)>)
    ensures r.Some? ==> pos <= r.value.1 <= end
  {
    match Field(w, pos, extra, end)
    case None => None
    case Some(x) => Some((base + x, pos + extra))
  }

  ghost function MatchLength(sym: nat, w: nat, pos: nat, end: nat): (r: Option<(nat, nat)>)
    requires sym >= 257
    ensures r.Some? ==> pos <= r.value.1 <= end
  {
    if sym > 285 then None else Extended(LENGTH_BASE[sym - 257], LENGTH_EXTRA[sym - 257], w, pos, end)
  }

  ghost function MatchDistance(dist: seq<nat>, w: nat, pos: nat, end: nat): (r: Option<(nat, nat)>)
    ensures r.Some? ==> pos <= r.value.1 <= end && r.value.0 > 0
  {
    match Symbol(dist, w, pos, end)
    case None => None
    case Some(sym) =>
      if sym > 29 then None else Extended(DIST_BASE[sym], DIST_EXTRA[sym], w, pos + dist[sym], end)
  }

  /** Copying a match one byte at a time; the source may run into the bytes being put out. */
  function CopyMatch(out: seq<byte>, dist: nat, len: nat): (r: seq<byte>)
    requires 0 < dist <= |out|
    ensures |r| == |out| + len
    decreases len
  {
    if len == 0 then out else CopyMatch(out + [out[|out| - dist]], dist, len - 1)
  }

  // ---- The data of a compressed block, section 3.2.3

  ghost function Match(dist: seq<nat>, sym: nat, w: nat, s: State, end: nat): (r: Option<State>)
    requires sym >= 257
    ensures r.Some? ==> s.pos <= r.value.pos
  {
    match MatchLength(sym, w, s.pos, end)
    case None => None
    case Some((len, p)) =>
      match MatchDistance(dist, w, p, end)
      case None => None
      case Some((d, q)) => if d > |s.out| then None else Some(State(q, CopyMatch(s.out, d, len)))
  }

  /** One literal or match, the end-of-block symbol excepted. */
  ghost function Item(dist: seq<nat>, sym: nat, w: nat, s: State, end: nat): (r: Option<State>)
    requires sym != 256
    ensures r.Some? ==> s.pos <= r.value.pos
  {
    if sym < 256 then Some(State(s.pos, s.out + [sym])) else Match(dist, sym, w, s, end)
  }

  ghost function BlockData(lit: seq<nat>, dist: seq<nat>, w: nat, s: State, end: nat): (r: Option<State>)
    ensures r.Some? ==> s.pos <= r.value.pos
    decreases end - s.pos
  {
    match Symbol(lit, w, s.pos, end)
    case None => None
    case Some(sym) =>
      var s' := State(s.pos + lit[sym], s.out);
      if sym == 256 then Some(s')
      else
        match Item(dist, sym, w, s', end)
        case None => None
        case Some(s'') => BlockData(lit, dist, w, s'', end)
  }

  // ---- Code lengths, section 3.2.7

  const CODE_ORDER: seq<nat> := [16, 17, 18, 0, 8, 7, 9, 6, 10, 5, 11, 4, 12, 3, 13, 2, 14, 1, 15]

  function Repeat(x: nat, n: nat): (r: seq<nat>)
    ensures |r| == n && forall i | 0 <= i < n :: r[i] == x
  {
    seq(n, _ => x)
  }

  /** The run of code lengths that a symbol of the code length alphabet stands for. */
  ghost function Run(sym: nat, acc: seq<nat>, w: nat, pos: nat, end: nat): (r: Option<(seq<nat>, nat)>)
    ensures r.Some? ==> pos <= r.value.1
  {
    if sym < 16 then Some(([sym], pos))
    else if sym == 16 then
      match Extended(3, 2, w, pos, end)
      case None => None
      case Some((n, p)) => if acc == [] then None else Some((Repeat(acc[|acc| - 1], n), p))
    else if sym == 17 then
      match Extended(3, 3, w, pos, end)
      case None => None
      case Some((n, p)) => Some((Repeat(0, n), p))
    else if sym == 18 then
      match Extended(11, 7, w, pos, end)
      case None => None
      case Some((n, p)) => Some((Repeat(0, n), p))
    else None
  }

  ghost function CodeLengths(cl: seq<nat>, total: nat, acc: seq<nat>, w: nat, pos: nat, end: nat)
    : (r: Option<(seq<nat>, nat)>)
    ensures r.Some? ==> |r.value.0| == total && pos <= r.value.1
    decreases end - pos
  {
    if |acc| >= total then (if |acc| == total then Some((acc, pos)) else None)
    else
      match Symbol(cl, w, pos, end)
      case None => None
      case Some(sym) =>
        match Run(sym, acc, w, pos + cl[sym], end)
        case None => None
        case Some((r, p)) => CodeLengths(cl, total, acc + r, w, p, end)
  }

  /** The lengths of the code length alphabet: n three-bit fields in a fixed order. */
  function CodeLengthLengths(n: nat, w: nat, pos: nat): (r: seq<nat>)
    requires n <= 19
    ensures |r| == 19
  {
    if n == 0 then Repeat(0, 19)
    else CodeLengthLengths(n - 1, w, pos)[CODE_ORDER[n - 1] := Low(Shr(w, pos + 3 * (n - 1)), 3)]
  }

  /** The two codes of a block with dynamic codes, and where its data starts. */
  ghost function DynamicHeader(w: nat, pos: nat, end: nat): Option<(seq<nat>, seq<nat>, nat)> {
    if pos + 14 > end then None
    else
      var nlit := Low(Shr(w, pos), 5) + 257;
      var ndist := Low(Shr(w, pos + 5), 5) + 1;
      var nclen := Low(Shr(w, pos + 10), 4) + 4;
      if nlit > 286 || nclen > 19 || pos + 14 + 3 * nclen > end then None
      else
        var cl := CodeLengthLengths(nclen, w, pos + 14);
        if !Fits(cl) then None
        else
          match CodeLengths(cl, nlit + ndist, [], w, pos + 14 + 3 * nclen, end)
          case None => None
          case Some((lens, p)) => Some((lens[..nlit], lens[nlit..], p))
  }

  // ---- Blocks, section 3.2.3

  /** The code lengths of the fixed codes, section 3.2.6. */
  const FIXED_LIT: seq<nat> := Repeat(8, 144) + Repeat(9, 112) + Repeat(7, 24) + Repeat(8, 8)
  const FIXED_DIST: seq<nat> := Repeat(5, 32)

  ghost function CodedBlock(lit: seq<nat>, dist: seq<nat>, w: nat, s: State, end: nat): (r: Option<State>)
    ensures r.Some? ==> s.pos <= r.value.pos
  {
    if Fits(lit) && Fits(dist) then BlockData(lit, dist, w, s, end) else None
  }

  /** n bytes of the input, from a byte boundary. */
  function Bytes(w: nat, pos: nat, n: nat): (r: seq<byte>)
    ensures |r| == n
  {
    Pow2Of8();
    if n == 0 then [] else Bytes(w, pos, n - 1) + [Low(Shr(w, pos + 8 * (n - 1)), 8)]
  }

  function ByteAligned(pos: nat): nat { 8 * ((pos + 7) / 8) }

  ghost function Stored(w: nat, s: State, end: nat): (r: Option<State>)
    ensures r.Some? ==> s.pos <= r.value.pos
  {
    var p := ByteAligned(s.pos);
    if p + 32 > end then None
    else
      var n := Low(Shr(w, p), 16);
      if n + Low(Shr(w, p + 16), 16) != 0xffff || p + 32 + 8 * n > end then None
      else Some(State(p + 32 + 8 * n, s.out + Bytes(w, p + 32, n)))
  }

  /** The contents of a block of the given type. */
  ghost function Block(btype: nat, w: nat, s: State, end: nat): (r: Option<State>)
    ensures r.Some? ==> s.pos <= r.value.pos
  {
    if btype == 0 then Stored(w, s, end)
    else if btype == 1 then CodedBlock(FIXED_LIT, FIXED_DIST, w, s, end)
    else if btype == 2 then
      match DynamicHeader(w, s.pos, end)
      case None => None
      case Some((lit, dist, p)) => CodedBlock(lit, dist, w, State(p, s.out), end)
    else None
  }

  ghost function Blocks(w: nat, s: State, end: nat): Option<State>
    decreases end - s.pos
  {
    if s.pos + 3 > end then None
    else
      match Block(Low(Shr(w, s.pos + 1), 2), w, State(s.pos + 3, s.out), end)
      case None => None
      case Some(s') =>
        if Low(Shr(w, s.pos), 1) == 1 then Some(s')
        else Blocks(w, s', end)
  }

  // ---- The zlib container, section 2.2 of RFC 1950

  /** CMF and FLG: the deflate method, a window of at most 32K, no preset dictionary, a header divisible by 31. */
  predicate ZlibHeader(cmf: nat, flg: nat) {
    cmf % 16 == 8 && cmf / 16 <= 7 && (flg / 32) % 2 == 0 && (256 * cmf + flg) % 31 == 0
  }

  /** The bytes that a single zlib stream of n bytes stands for; its last four bytes are the check value. */
  ghost function Zlib(w: nat, n: nat): Option<seq<byte>> {
    if n < 6 || !ZlibHeader(Low(w, 8), Low(Shr(w, 8), 8)) then None
    else
      match Blocks(w, State(16, []), 8 * (n - 4))
      case None => None
      case Some(s) => if ByteAligned(s.pos) == 8 * (n - 4) then Some(s.out) else None
  }

  // ---- The tables of the format leave no gaps

  /** Each length symbol takes up where the one before ends, from 3 on; the last one is the single length 258. */
  lemma LengthsTile(i: nat)
    requires i < 28
    ensures LENGTH_BASE[0] == 3 && LENGTH_BASE[28] == 258 && LENGTH_EXTRA[28] == 0
    ensures i < 27 ==> LENGTH_BASE[i + 1] == LENGTH_BASE[i] + Pow2(LENGTH_EXTRA[i])
    ensures LENGTH_BASE[27] + Pow2(LENGTH_EXTRA[27]) == 259
  {
    FewBits(LENGTH_EXTRA[i]);
    FewBits(5);
    hide Pow2;
  }

  /** The distances from 1 to 32768 have one symbol each. */
  lemma DistancesTile(i: nat)
    requires i < 30
    ensures DIST_BASE[0] == 1
    ensures DIST_BASE[i] + Pow2(DIST_EXTRA[i]) == if i < 29 then DIST_BASE[i + 1] else 0x8001
  {
    hide Pow2;
    if i < 15 {
      NearDistances(i);
    } else {
      FarDistances(i);
    }
  }

  lemma NearDistances(i: nat)
    requires i < 15
    ensures DIST_BASE[i] + Pow2(DIST_EXTRA[i]) == DIST_BASE[i + 1]
  {
    FewBits(DIST_EXTRA[i]);
    hide Pow2;
  }

  lemma FarDistances(i: nat)
    requires 15 <= i < 30
    ensures DIST_BASE[i] + Pow2(DIST_EXTRA[i]) == if i < 29 then DIST_BASE[i + 1] else 0x8001
  {
    FewBits(DIST_EXTRA[i]);
    hide Pow2;
  }

  lemma FewBits(n: nat)
    requires n <= 13
    ensures Pow2(n) == [1, 2, 4, 8, 16, 32, 64, 128, 256, 512, 1024, 2048, 4096, 8192][n]
  {
    assert Pow2(4) == 16 && Pow2(8) == 256 && Pow2(12) == 4096;
  }

  /** Every symbol of the code length alphabet has its place in the order. */
  lemma OrderPermutes(s: nat)
    requires s < 19
    ensures |CODE_ORDER| == 19 && exists i: nat :: i < 19 && CODE_ORDER[i] == s
  {
    var place := [3, 17, 15, 13, 11, 9, 7, 5, 4, 6, 8, 10, 12, 14, 16, 18, 0, 1, 2];
    assert CODE_ORDER[place[s]] == s;
  }

  /** Zeros come in runs of 3 to 10 or of 11 to 138, copies of the last length in runs of 3 to 6. */
  lemma RunRanges(sym: nat, acc: seq<nat>, w: nat, pos: nat, end: nat)
    requires 16 <= sym <= 18 && Run(sym, acc, w, pos, end).Some?
    ensures var (r, p) := Run(sym, acc, w, pos, end).value;
      && (sym == 16 ==> acc != [] && 3 <= |r| < 7 && p == pos + 2 && forall i | 0 <= i < |r| :: r[i] == acc[|acc| - 1])
      && (sym == 17 ==> 3 <= |r| < 11 && p == pos + 3 && forall i | 0 <= i < |r| :: r[i] == 0)
      && (sym == 18 ==> 11 <= |r| < 139 && p == pos + 7 && forall i | 0 <= i < |r| :: r[i] == 0)
  {
    FewBits(2);
    FewBits(3);
    FewBits(7);
    hide Low, Shr, Pow2;
  }

  // ---- The fixed codes are codes

  lemma {:induction false} KraftRun(lens: seq<nat>, a: nat, b: nat, l: nat)
    requires a <= b <= |lens| && 0 < l <= MAX_BITS && forall i | a <= i < b :: lens[i] == l
    ensures KraftSum(lens, b) == KraftSum(lens, a) + (b - a) * Pow2(MAX_BITS - l)
  {
    hide Pow2;
    if a < b {
      KraftRun(lens, a, b - 1, l);
      OneMore(b - a, Pow2(MAX_BITS - l));
    }
  }

  lemma OneMore(n: int, p: int)
    ensures n * p == (n - 1) * p + p
  {
  }

  lemma FixedCodesFit()
    ensures Fits(FIXED_LIT) && Fits(FIXED_DIST)
    ensures KraftSum(FIXED_LIT, |FIXED_LIT|) == KraftSum(FIXED_DIST, |FIXED_DIST|) == Pow2(MAX_BITS)
  {
    assert Pow2(15) == 0x8000 && Pow2(7) == 128 && Pow2(6) == 64 && Pow2(8) == 256 && Pow2(10) == 1024;
    hide KraftSum;
    assert KraftSum(FIXED_LIT, 0) == KraftSum(FIXED_DIST, 0) == 0 by { KraftNone(FIXED_LIT); KraftNone(FIXED_DIST); }
    KraftRun(FIXED_LIT, 0, 144, 8);
    KraftRun(FIXED_LIT, 144, 256, 9);
    KraftRun(FIXED_LIT, 256, 280, 7);
    KraftRun(FIXED_LIT, 280, 288, 8);
    KraftRun(FIXED_DIST, 0, 32, 5);
  }

  lemma KraftNone(lens: seq<nat>)
    ensures KraftSum(lens, 0) == 0
  {
  }
}