/** The inflater of libbacktrace (elf_zlib_inflate, linux.c), refining the decoding function of module Deflate.
    Every method that reads takes a buffer that denotes the unread bits from some position of the input on, and gives
    back one that denotes them from a later position; pos is that position. What is read is compared with what the
    format says stands there, and is not refused as long as the input goes on for another 39 bits after it: the reader
    refills its buffer by four bytes at a time, and gives up when fewer are left. Where the format says that there is
    nothing valid, nothing is claimed. */
module Inflate {
  import Adler
  import opened BitReader
  import opened Bits
  import opened Deflate
  import opened HuffmanCode
  import opened InflateTable
  import opened Wrappers

  // ---- Reading fields and symbols

  /** k bits of the buffer, used up. */
  method TakeBits(b: Buffer, k: nat, input: seq<byte>, ghost pos: nat) returns (x: nat, b': Buffer)
    requires Denotes(b, input, pos) && k <= b.bits
    ensures Denotes(b', input, pos + k) && b'.bits == b.bits - k && b'.pin == b.pin
    ensures x == Low(Rest(input, pos), k)
  {
    PeekDenotes(b, k, input, pos);
    ConsumeDenotes(b, k, input, pos);
    return Low(b.val, k), Consume(b, k);
  }

  /** Matching looks at the bits of the code only. */
  lemma MatchesLow(lens: seq<nat>, s: nat, u: nat, v: nat, k: nat)
    requires MAX_BITS <= k && Low(u, k) == Low(v, k) && Matches(lens, s, u)
    ensures Matches(lens, s, v)
  {
    hide Low, Shr, Code, Rev;
    LowSplit(u, lens[s], k - lens[s]);
    LowSplit(v, lens[s], k - lens[s]);
    assert lens[s] + (k - lens[s]) == k;
  }

  /** The table stands for the code with these lengths, if that is a code at all. */
  ghost predicate TableFor(table: seq<uint16>, lens: seq<nat>) {
    |table| == TABLE_SIZE && (Fits(lens) ==> Decodes(table, lens))
  }

  /** Decodes one symbol with 15 bits at hand. */
  method DecodeSymbol(table: array<uint16>, b: Buffer, input: seq<byte>, ghost pos: nat, ghost lens: seq<nat>)
    returns (sym: nat, b': Buffer, ghost n: nat)
    requires Denotes(b, input, pos) && b.bits >= 15 && TableFor(table[..], lens)
    ensures 0 < n <= 15 && b'.bits == b.bits - n && b'.pin == b.pin && Denotes(b', input, pos + n)
    ensures sym < 512 && Decoded(sym, n) == Lookup(table[..], b.val)
    ensures forall s: nat | Fits(lens) && Matches(lens, s, Rest(input, pos)) :: sym == s && n == lens[s]
  {
    var d := Lookup(table[..], b.val);
    sym := d.symbol;
    n := d.length;
    ConsumeDenotes(b, d.length, input, pos);
    b' := Consume(b, d.length);
    forall s: nat | Fits(lens) && Matches(lens, s, Rest(input, pos))
      ensures sym == s && n == lens[s]
    {
      PeekDenotes(b, 15, input, pos);
      MatchesLow(lens, s, Rest(input, pos), b.val, 15);
    }
  }

  /** What the specification reads as the next symbol is what the table gave. */
  lemma SymbolDecoded(lens: seq<nat>, input: seq<byte>, pos: nat, end: nat, sym: nat, n: nat)
    requires forall s: nat | Fits(lens) && Matches(lens, s, Rest(input, pos)) :: sym == s && n == lens[s]
    requires Fits(lens) && Symbol(lens, Word(input), pos, end).Some?
    ensures Symbol(lens, Word(input), pos, end) == Some(sym) && sym < |lens| && lens[sym] == n
  {
  }

  // ---- Lengths and distances

  /** The length expression of the C code for symbols 265 to 284: the number of extra bits and the base. */
  function LengthExtra(sym: nat): nat { if 265 <= sym < 285 then (sym - 265) / 4 + 1 else 0 }

  function LengthBase(sym: nat): nat
    requires 257 <= sym <= 285
  {
    if sym < 265 then sym - 257 + 3
    else if sym == 285 then 258
    else
      var extra := LengthExtra(sym);
      Shl((sym - 265) % 4, extra) + 11 + Shl(Pow2(extra - 1) - 1, 3)
  }

  lemma LengthFormula(sym: nat)
    requires 257 <= sym <= 285
    ensures LengthBase(sym) == LENGTH_BASE[sym - 257] && LengthExtra(sym) == LENGTH_EXTRA[sym - 257]
  {
    if 265 <= sym < 285 {
      var r, extra := (sym - 265) % 4, LengthExtra(sym);
      LengthShift(r, extra);
      hide Shl, Pow2;
      if extra == 1 {
        LengthRow(sym, 1, 1);
      } else if extra == 2 {
        LengthRow(sym, 2, 2);
      } else if extra == 3 {
        LengthRow(sym, 3, 4);
      } else if extra == 4 {
        LengthRow(sym, 4, 8);
      } else {
        LengthRow(sym, 5, 16);
      }
    }
  }

  /** The base with its shifts worked out; p is 2^(extra - 1). */
  lemma LengthShift(r: nat, extra: nat)
    requires r < 4 && 1 <= extra <= 5
    ensures var p := Pow2(extra - 1);
      Shl(r, extra) == r * (2 * p) && Shl(p - 1, 3) == 8 * (p - 1)
      && p == [1, 2, 4, 8, 16][extra - 1]
  {
    var p := Pow2(extra - 1);
    assert Pow2(extra) == 2 * p;
    SmallShl(extra);
    ShlByTwoThree(p - 1);
    SmallPow2(extra - 1);
    hide Shl, Pow2;
    assert r == 0 || r == 1 || r == 2 || r == 3;
  }

  /** The four symbols with one number of extra bits. */
  lemma LengthRow(sym: nat, extra: nat, p: nat)
    requires 265 <= sym < 285 && extra == (sym - 265) / 4 + 1
    requires p == [1, 2, 4, 8, 16][extra - 1]
    ensures (sym - 265) % 4 * (2 * p) + 11 + 8 * (p - 1) == LENGTH_BASE[sym - 257] && extra == LENGTH_EXTRA[sym - 257]
  {
    var r := (sym - 265) % 4;
    assert sym == 261 + 4 * extra + r;
  }

  /** Shifts and powers in the range that lengths and distances need. */
  lemma SmallPow2(n: nat)
    ensures n == 0 ==> Pow2(n) == 1
    ensures n == 1 ==> Pow2(n) == 2
    ensures n == 2 ==> Pow2(n) == 4
    ensures n == 3 ==> Pow2(n) == 8
    ensures n == 4 ==> Pow2(n) == 16
    ensures n == 5 ==> Pow2(n) == 32
    ensures n == 6 ==> Pow2(n) == 64
    ensures n == 7 ==> Pow2(n) == 128
    ensures n == 8 ==> Pow2(n) == 256
    ensures n == 9 ==> Pow2(n) == 512
    ensures n == 10 ==> Pow2(n) == 1024
    ensures n == 11 ==> Pow2(n) == 2048
    ensures n == 12 ==> Pow2(n) == 4096
    ensures n == 13 ==> Pow2(n) == 8192
  {
    assert Pow2(4) == 16 && Pow2(8) == 256 && Pow2(12) == 4096;
  }

  lemma {:induction false} SmallShl(k: nat)
    ensures Shl(0, k) == 0 && Shl(1, k) == Pow2(k) && Shl(2, k) == 2 * Pow2(k) && Shl(3, k) == 3 * Pow2(k)
  {
    if k > 0 {
      SmallShl(k - 1);
    }
  }

  lemma ShlByTwoThree(x: nat)
    ensures Shl(x, 2) == 4 * x && Shl(x, 3) == 8 * x
  {
    assert Shl(x, 1) == 2 * x;
  }

  function DistExtra(sym: nat): nat { if sym < 4 then 0 else (sym - 4) / 2 + 1 }

  function DistBase(sym: nat): nat
    requires sym <= 29
  {
    if sym < 4 then sym + 1
    else
      var extra := DistExtra(sym);
      Shl((sym - 4) % 2, extra) + 5 + Shl(Pow2(extra - 1) - 1, 2)
  }

  lemma DistFormula(sym: nat)
    requires sym <= 29
    ensures DistBase(sym) == DIST_BASE[sym] && DistExtra(sym) == DIST_EXTRA[sym]
  {
    if sym >= 4 {
      var r, extra := (sym - 4) % 2, DistExtra(sym);
      DistShift(r, extra);
      SmallPow2(extra - 1);
      hide Shl, Pow2;
      assert sym == 2 + 2 * extra + r;
    }
  }

  /** The base with its shifts worked out. */
  lemma DistShift(r: nat, extra: nat)
    requires r < 2 && 1 <= extra <= 13
    ensures var p := Pow2(extra - 1); Shl(r, extra) == (if r == 0 then 0 else 2 * p) && Shl(p - 1, 2) == 4 * (p - 1)
  {
    var p := Pow2(extra - 1);
    assert Pow2(extra) == 2 * p;
    SmallShl(extra);
    ShlByTwoThree(p - 1);
  }

  /** The length of a match, with its extra bits. */
  method ReadLength(sym: nat, b: Buffer, input: seq<byte>, pinend: nat, ghost pos: nat, ghost end: nat)
    returns (ok: bool, len: nat, b': Buffer, ghost pos': nat)
    requires 257 <= sym && Denotes(b, input, pos) && pinend <= |input|
    ensures Denotes(b', input, pos') && pos <= pos'
    ensures ok && MatchLength(sym, Word(input), pos, end).Some? ==>
      MatchLength(sym, Word(input), pos, end) == Some((len, pos'))
    ensures var r := MatchLength(sym, Word(input), pos, end); r.Some? && Ample(r.value.1, pinend) ==> ok
  {
    MatchLengthSymbols(sym, Word(input), pos, end);
    if sym > 285 {
      return false, 0, b, pos;
    }
    LengthFormula(sym);
    hide *;
    ok, len, b', pos' := ReadExtended(LengthBase(sym), LengthExtra(sym), b, input, pinend, pos, end);
    MatchLengthIs(sym, Word(input), pos, end);
  }

  lemma MatchLengthSymbols(sym: nat, w: nat, pos: nat, end: nat)
    requires 257 <= sym
    ensures MatchLength(sym, w, pos, end).Some? ==> sym <= 285
  {
  }

  lemma MatchLengthIs(sym: nat, w: nat, pos: nat, end: nat)
    requires 257 <= sym <= 285
    ensures MatchLength(sym, w, pos, end) == Extended(LENGTH_BASE[sym - 257], LENGTH_EXTRA[sym - 257], w, pos, end)
  {
    hide Extended;
  }

  /** Adds extra bits to a base value. */
  method ReadExtended(base: nat, extra: nat, b: Buffer, input: seq<byte>, pinend: nat, ghost pos: nat, ghost end: nat)
    returns (ok: bool, v: nat, b': Buffer, ghost pos': nat)
    requires extra <= 13 && Denotes(b, input, pos) && pinend <= |input|
    ensures Denotes(b', input, pos') && pos <= pos'
    ensures v >= base
    ensures ok && Extended(base, extra, Word(input), pos, end).Some? ==>
      Extended(base, extra, Word(input), pos, end) == Some((v, pos'))
    ensures var r := Extended(base, extra, Word(input), pos, end); r.Some? && Ample(r.value.1, pinend) ==> ok
  {
    hide Denotes, Word, Low, Shr;
    ok, v, b', pos' := true, base, b, pos;
    if extra > 0 {
      ok, b' := FetchBits(b, input, pinend, pos);
      if !ok {
        return;
      }
      var x;
      x, b' := TakeBits(b', extra, input, pos);
      v, pos' := v + x, pos + extra;
    } else {
      LowNone(Rest(input, pos));
    }
  }

  /** The distance of a match: its symbol, and extra bits. */
  method ReadDistance(table: array<uint16>, b: Buffer, input: seq<byte>, pinend: nat, ghost pos: nat, ghost end: nat,
                      ghost lens: seq<nat>)
    returns (ok: bool, dist: nat, b': Buffer, ghost pos': nat)
    requires Denotes(b, input, pos) && pinend <= |input| && TableFor(table[..], lens)
    ensures Denotes(b', input, pos') && pos <= pos'
    ensures ok ==> dist > 0
    ensures ok && Fits(lens) && MatchDistance(lens, Word(input), pos, end).Some? ==>
      MatchDistance(lens, Word(input), pos, end) == Some((dist, pos'))
    ensures var r := MatchDistance(lens, Word(input), pos, end);
      Fits(lens) && r.Some? && Ample(r.value.1, pinend) ==> ok
  {
    hide Decodes, Word, Low, Shr, Fits;
    pos' := pos;
    ok, b' := FetchBits(b, input, pinend, pos);
    if !ok {
      return false, 0, b', pos;
    }
    var sym; ghost var n;
    sym, b', n := DecodeSymbol(table, b', input, pos, lens);
    pos' := pos + n;
    if Fits(lens) && MatchDistance(lens, Word(input), pos, end).Some? {
      SymbolDecoded(lens, input, pos, end, sym, n);
    }
    if sym > 29 {
      return false, 0, b', pos';
    }
    ok, dist, b', pos' := ReadDistanceExtra(sym, b', input, pinend, pos', end);
  }

  lemma LowNone(v: nat)
    ensures Low(v, 0) == 0
  {
  }

  method ReadDistanceExtra(sym: nat, b: Buffer, input: seq<byte>, pinend: nat, ghost pos: nat, ghost end: nat)
    returns (ok: bool, dist: nat, b': Buffer, ghost pos': nat)
    requires sym <= 29 && Denotes(b, input, pos) && pinend <= |input|
    ensures Denotes(b', input, pos') && pos <= pos'
    ensures ok ==> dist > 0
    ensures ok && Extended(DIST_BASE[sym], DIST_EXTRA[sym], Word(input), pos, end).Some? ==>
      Extended(DIST_BASE[sym], DIST_EXTRA[sym], Word(input), pos, end) == Some((dist, pos'))
    ensures var r := Extended(DIST_BASE[sym], DIST_EXTRA[sym], Word(input), pos, end);
      r.Some? && Ample(r.value.1, pinend) ==> ok
  {
    DistFormula(sym);
    hide *;
    ok, dist, b', pos' := ReadExtended(DistBase(sym), DistExtra(sym), b, input, pinend, pos, end);
  }

  // ---- Copying a match

  lemma {:induction false} CopyMatchAdd(out: seq<byte>, dist: nat, a: nat, b: nat)
    requires 0 < dist <= |out|
    ensures CopyMatch(out, dist, a + b) == CopyMatch(CopyMatch(out, dist, a), dist, b)
    decreases a
  {
    if a > 0 {
      CopyMatchAdd(out + [out[|out| - dist]], dist, a - 1, b);
      assert a + b - 1 == a - 1 + b;
    }
  }

  /** Up to dist bytes the copy is a block of what is there already. */
  lemma {:induction false} CopyMatchBlock(out: seq<byte>, dist: nat, len: nat)
    requires 0 < dist <= |out| && len <= dist
    ensures CopyMatch(out, dist, len) == out + out[|out| - dist..|out| - dist + len]
  {
    if len > 0 {
      CopyMatchBlock(out, dist, len - 1);
      CopyMatchAdd(out, dist, len - 1, 1);
      var r := CopyMatch(out, dist, len - 1);
      assert r[|r| - dist] == out[|out| - dist + len - 1];
      assert CopyMatch(r + [r[|r| - dist]], dist, 0) == r + [r[|r| - dist]];
    }
  }

  lemma {:induction false} CopyMatchFill(out: seq<byte>, len: nat)
    requires 0 < |out|
    ensures CopyMatch(out, 1, len) == out + seq(len, _ => out[|out| - 1])
    decreases len
  {
    if len > 0 {
      CopyMatchFill(out + [out[|out| - 1]], len - 1);
    }
  }

  /** memcpy of n bytes from dist bytes back, for blocks that do not overlap. */
  method CopyBlock(out: array<byte>, pout: nat, dist: nat, n: nat)
    requires 0 < dist <= pout && n <= dist && pout + n <= out.Length
    modifies out
    ensures out[..pout + n] == CopyMatch(old(out[..pout]), dist, n)
  {
    hide *;
    ghost var before := out[..pout];
    CopyBytes(out, pout, pout - dist, n);
    CopyMatchBlock(before, dist, n);
  }

  method CopyBytes(out: array<byte>, to: nat, from: nat, n: nat)
    requires from + n <= to && to + n <= out.Length
    modifies out
    ensures out[..to + n] == old(out[..to]) + old(out[..to])[from..from + n]
  {
    hide *;
    ghost var before := out[..to];
    forall k | 0 <= k < n {
      out[to + k] := out[from + k];
    }
    assert out[..to] == before;
    assert out[to..to + n] == before[from..from + n];
    assert out[..to + n] == out[..to] + out[to..to + n];
  }

  /** The copy of a match: a fill for distance one, one block when source and target are apart, else in blocks
      of dist bytes. */
  method CopyMatchTo(out: array<byte>, pout: nat, dist: nat, len: nat) returns (pout': nat)
    requires 0 < dist <= pout && pout + len <= out.Length
    modifies out
    ensures pout' == pout + len
    ensures out[..pout'] == CopyMatch(old(out[..pout]), dist, len)
  {
    ghost var before := out[..pout];
    if dist == 1 {
      FillLast(out, pout, len);
      return pout + len;
    }
    if dist >= len {
      CopyBlock(out, pout, dist, len);
      return pout + len;
    }
    pout' := CopyOverlapping(out, pout, dist, len);
  }

  method CopyOverlapping(out: array<byte>, pout: nat, dist: nat, len: nat) returns (pout': nat)
    requires 0 < dist <= pout && pout + len <= out.Length
    modifies out
    ensures pout' == pout + len
    ensures out[..pout'] == CopyMatch(old(out[..pout]), dist, len)
  {
    ghost var before := out[..pout];
    assert CopyMatch(before, dist, 0) == before;
    hide CopyMatch;
    pout' := pout;
    var left := len;
    while left > 0
      invariant 0 <= left <= len && pout' == pout + len - left
      invariant out[..pout'] == CopyMatch(before, dist, len - left)
    {
      var copy := if left < dist then left else dist;
      CopyMatchAdd(before, dist, len - left, copy);
      CopyBlock(out, pout', dist, copy);
      assert len - left + copy == len - (left - copy);
      left := left - copy;
      pout' := pout' + copy;
    }
  }

  /** memset with the last byte. */
  method FillLast(out: array<byte>, pout: nat, len: nat)
    requires 0 < pout && pout + len <= out.Length
    modifies out
    ensures out[..pout + len] == CopyMatch(old(out[..pout]), 1, len)
  {
    ghost var before := out[..pout];
    var x := out[pout - 1];
    forall k | 0 <= k < len {
      out[pout + k] := x;
    }
    hide CopyMatch;
    CopyMatchFill(before, len);
    assert out[..pout] == before;
    assert out[pout..pout + len] == seq(len, _ => x);
    assert out[..pout + len] == out[..pout] + out[pout..pout + len];
  }

  // ---- The data of a compressed block

  const UINT: nat := 0x1_0000_0000

  /** A match: its length, its distance, and the copy. Space and reach are compared as 32-bit unsigned values. */
  method DecodeMatch(sym: nat, tdist: array<uint16>, b: Buffer, input: seq<byte>, pinend: nat, out: array<byte>,
                     pout: nat, ghost pos: nat, ghost end: nat, ghost dist: seq<nat>)
    returns (ok: bool, b': Buffer, pout': nat, ghost pos': nat)
    requires 257 <= sym && Denotes(b, input, pos) && pinend <= |input| && pout <= out.Length
    requires TableFor(tdist[..], dist)
    modifies out
    ensures Denotes(b', input, pos') && pos <= pos' && pout <= pout' <= out.Length
    ensures ok && Fits(dist) ==>
      var m := Match(dist, sym, Word(input), State(pos, old(out[..pout])), end);
      m.Some? ==> m == Some(State(pos', out[..pout']))
    ensures Fits(dist) ==>
      var m := Match(dist, sym, Word(input), State(pos, old(out[..pout])), end);
      m.Some? && Ample(m.value.pos, pinend) && |m.value.out| <= out.Length < UINT ==> ok
  {
    hide TableFor, Decodes, Word, Fits, MatchLength, MatchDistance, CopyMatch, Denotes;
    var len, d; ghost var p;
    pout' := pout;
    ok, len, b', pos' := ReadLength(sym, b, input, pinend, pos, end);
    if !ok {
      return;
    }
    p := pos';
    ok, d, b', pos' := ReadDistance(tdist, b', input, pinend, p, end, dist);
    if !ok {
      return;
    }
    if pout % UINT < d || (out.Length - pout) % UINT < len {
      ok := false;
      return;
    }
    pout' := CopyMatchTo(out, pout, d, len);
  }

  /** The data of a block ends with the code of symbol 256, whatever comes first. */
  lemma {:induction false} DataEnds(lit: seq<nat>, dist: seq<nat>, w: nat, s: State, end: nat)
    requires BlockData(lit, dist, w, s, end).Some?
    ensures var r := BlockData(lit, dist, w, s, end).value;
      256 < |lit| && 0 < lit[256] <= MAX_BITS && s.pos + lit[256] <= r.pos <= end && |s.out| <= |r.out|
    decreases end - s.pos
  {
    hide Matches, Match;
    var sym := Symbol(lit, w, s.pos, end).value;
    SymbolIs(lit, w, s.pos, end);
    var s' := State(s.pos + lit[sym], s.out);
    if sym != 256 {
      ItemGrows(dist, sym, w, s', end);
      DataEnds(lit, dist, w, Item(dist, sym, w, s', end).value, end);
    }
  }

  lemma SymbolIs(lens: seq<nat>, w: nat, pos: nat, end: nat)
    requires Symbol(lens, w, pos, end).Some?
    ensures var s := Symbol(lens, w, pos, end).value;
      s < |lens| && 0 < lens[s] <= MAX_BITS && pos + lens[s] <= end && Matches(lens, s, Shr(w, pos))
  {
  }

  lemma ItemGrows(dist: seq<nat>, sym: nat, w: nat, s: State, end: nat)
    requires sym != 256 && Item(dist, sym, w, s, end).Some?
    ensures |s.out| <= |Item(dist, sym, w, s, end).value.out|
  {
    hide MatchLength, MatchDistance;
  }

  /** The code of symbol 256 at the end of the data starts well before the end of the input. */
  predicate EndAmple(lit: seq<nat>, r: State, pinend: nat) {
    256 < |lit| && lit[256] <= r.pos && Ample(r.pos - lit[256], pinend)
  }

  /** One step of the main loop: a literal, a match, or the end of the block. */
  method DecodeItem(tlit: array<uint16>, tdist: array<uint16>, b: Buffer, input: seq<byte>, pinend: nat,
                    out: array<byte>, pout: nat, ghost pos: nat, ghost end: nat, ghost lit: seq<nat>,
                    ghost dist: seq<nat>)
    returns (ok: bool, done: bool, b': Buffer, pout': nat, ghost pos': nat)
    requires Denotes(b, input, pos) && pinend <= |input| && pout <= out.Length
    requires TableFor(tlit[..], lit) && TableFor(tdist[..], dist)
    modifies out
    ensures Denotes(b', input, pos') && pos <= pos' && pout <= pout' <= out.Length
    ensures ok ==> pos < pos'
    ensures ok && Fits(lit) && Fits(dist) ==>
      var r := BlockData(lit, dist, Word(input), State(pos, old(out[..pout])), end);
      var s' := State(pos', out[..pout']);
      r.Some? ==> r == if done then Some(s') else BlockData(lit, dist, Word(input), s', end)
    ensures Fits(lit) && Fits(dist) ==>
      var r := BlockData(lit, dist, Word(input), State(pos, old(out[..pout])), end);
      r.Some? && EndAmple(lit, r.value, pinend) && |r.value.out| <= out.Length < UINT ==> ok
  {
    hide TableFor, Decodes, Word, Fits, Match, Denotes, Symbol;
    ghost var w, s := Word(input), State(pos, out[..pout]);
    ghost var known := Fits(lit) && Fits(dist) && BlockData(lit, dist, w, s, end).Some?;
    if known {
      ItemEnds(lit, dist, w, s, end);
    }
    done, pout', pos' := false, pout, pos;
    ok, b' := FetchBits(b, input, pinend, pos);
    if !ok {
      return;
    }
    var sym; ghost var n;
    Holds15(b', input, pos);
    sym, b', n := DecodeSymbol(tlit, b', input, pos, lit);
    pos' := pos + n;
    if Fits(lit) && BlockData(lit, dist, w, s, end).Some? {
      SymbolDecoded(lit, input, pos, end, sym, n);
    }
    if sym < 256 {
      if pout == out.Length {
        ok := false;
        return;
      }
      out[pout] := sym;
      pout' := pout + 1;
      assert out[..pout'] == s.out + [sym as byte];
    } else if sym == 256 {
      done := true;
    } else {
      ok, b', pout', pos' := DecodeMatch(sym, tdist, b', input, pinend, out, pout, pos', end, dist);
    }
  }

  /** What comes before the code of symbol 256 ends before that code. */
  lemma ItemEnds(lit: seq<nat>, dist: seq<nat>, w: nat, s: State, end: nat)
    requires BlockData(lit, dist, w, s, end).Some?
    ensures var r := BlockData(lit, dist, w, s, end).value;
      256 < |lit| && s.pos + lit[256] <= r.pos && Symbol(lit, w, s.pos, end).Some?
      && var sym := Symbol(lit, w, s.pos, end).value;
      sym < |lit| && (sym != 256 ==> var t := Item(dist, sym, w, State(s.pos + lit[sym], s.out), end);
                      t.Some? && t.value.pos + lit[256] <= r.pos && |t.value.out| <= |r.out|)
  {
    hide Matches, Match;
    DataEnds(lit, dist, w, s, end);
    SymbolIs(lit, w, s.pos, end);
    hide Symbol, Item;
    var sym := Symbol(lit, w, s.pos, end).value;
    if sym != 256 {
      DataEnds(lit, dist, w, Item(dist, sym, w, State(s.pos + lit[sym], s.out), end).value, end);
    }
  }

  lemma Holds15(b: Buffer, input: seq<byte>, pos: nat)
    requires Denotes(b, input, pos) && b.bits >= 15
    ensures b.bits <= 63
  {
  }

  /** The main loop: decodes until the end of the block. */
  method InflateData(tlit: array<uint16>, tdist: array<uint16>, b: Buffer, input: seq<byte>, pinend: nat,
                     out: array<byte>, pout: nat, ghost pos: nat, ghost end: nat, ghost lit: seq<nat>,
                     ghost dist: seq<nat>)
    returns (ok: bool, b': Buffer, pout': nat, ghost pos': nat)
    requires Denotes(b, input, pos) && pinend <= |input| && pout <= out.Length
    requires TableFor(tlit[..], lit) && TableFor(tdist[..], dist)
    modifies out
    ensures Denotes(b', input, pos') && pos <= pos' && pout <= pout' <= out.Length
    ensures ok ==>
      var r := CodedBlock(lit, dist, Word(input), State(pos, old(out[..pout])), end);
      r.Some? ==> r == Some(State(pos', out[..pout']))
    ensures var r := CodedBlock(lit, dist, Word(input), State(pos, old(out[..pout])), end);
      r.Some? && EndAmple(lit, r.value, pinend) && |r.value.out| <= out.Length < UINT ==> ok
  {
    hide TableFor, Decodes, Word, Fits, BlockData, EndAmple;
    ghost var w, s := Word(input), State(pos, out[..pout]);
    ghost var good := Fits(lit) && Fits(dist) && BlockData(lit, dist, w, s, end).Some?;
    var done := false;
    ok, b', pout', pos' := true, b, pout, pos;
    while !done
      invariant Denotes(b', input, pos') && pos <= pos' && pout <= pout' <= out.Length
      invariant tlit[..] == old(tlit[..]) && tdist[..] == old(tdist[..])
      invariant ok
      invariant good ==>
        BlockData(lit, dist, w, s, end) ==
          if done then Some(State(pos', out[..pout'])) else BlockData(lit, dist, w, State(pos', out[..pout']), end)
      decreases !done, 8 * |input| - pos'
    {
      ok, done, b', pout', pos' := DecodeItem(tlit, tdist, b', input, pinend, out, pout', pos', end, lit, dist);
      if !ok {
        return;
      }
    }
  }

  // ---- Code lengths of dynamic codes

  /** The primary entry of a code of less than eight bits is not a link. */
  lemma ShortIsDirect(table: seq<uint16>, b: Buffer, input: seq<byte>, pos: nat, lens: seq<nat>, s: nat)
    requires Denotes(b, input, pos) && b.bits >= 15 && TableFor(table, lens) && Fits(lens)
    requires Matches(lens, s, Rest(input, pos)) && forall i | 0 <= i < |lens| :: lens[i] < 8
    ensures !IsSecondary(table[Index(b.val)])
  {
    PeekDenotes(b, 15, input, pos);
    MatchesLow(lens, s, Rest(input, pos), b.val, 15);
    hide Denotes, Matches, Fits, Index;
    assert Lookup(table, b.val) == Decoded(s, lens[s]);
  }

  /** Decodes a code length symbol; a code that short never needs a secondary table. */
  method DecodeLengthSymbol(table: array<uint16>, b: Buffer, input: seq<byte>, ghost pos: nat, ghost lens: seq<nat>)
    returns (ok: bool, sym: nat, b': Buffer, ghost n: nat)
    requires Denotes(b, input, pos) && b.bits >= 15 && TableFor(table[..], lens)
    requires forall i | 0 <= i < |lens| :: lens[i] < 8
    ensures 0 < n <= 8 && b'.bits == b.bits - n && Denotes(b', input, pos + n)
    ensures ok ==> forall s: nat | Fits(lens) && Matches(lens, s, Rest(input, pos)) :: sym == s && n == lens[s]
    ensures forall s: nat | Fits(lens) && Matches(lens, s, Rest(input, pos)) :: ok
  {
    hide Denotes, Matches, Fits;
    forall s: nat | Fits(lens) && Matches(lens, s, Rest(input, pos))
      ensures !IsSecondary(table[Index(b.val)])
    {
      ShortIsDirect(table[..], b, input, pos, lens, s);
    }
    var t := table[Index(b.val)];
    if IsSecondary(t) {
      ConsumeDenotes(b, 1, input, pos);
      return false, 0, Consume(b, 1), 1;
    }
    assert Lookup(table[..], b.val) == Decoded(ValueOf(t), BitsOf(t) + 1);
    ok := true;
    sym, b', n := DecodeSymbol(table, b, input, pos, lens);
  }

  /** Writes n copies of x, unless they do not fit. */
  method WriteRun(lens: array<nat>, k: nat, total: nat, x: nat, n: nat) returns (ok: bool)
    requires k <= total <= lens.Length
    modifies lens
    ensures ok <==> k + n <= total
    ensures ok ==> lens[..k + n] == old(lens[..k]) + Repeat(x, n)
    ensures !ok ==> lens[..] == old(lens[..])
  {
    if total - k < n {
      return false;
    }
    ghost var before := lens[..k];
    forall i | 0 <= i < n {
      lens[k + i] := x;
    }
    assert lens[..k + n] == before + Repeat(x, n);
    return true;
  }

  /** Stores the run of lengths that a code length symbol stands for. */
  method ReadRun(sym: nat, lens: array<nat>, k: nat, total: nat, b: Buffer, input: seq<byte>, ghost pos: nat,
                 ghost end: nat)
    returns (ok: bool, k': nat, b': Buffer, ghost pos': nat)
    requires k < total <= lens.Length && Denotes(b, input, pos) && b.bits >= 7
    modifies lens
    ensures Denotes(b', input, pos') && pos <= pos'
    ensures ok ==> k < k' <= total
    ensures ok ==>
      var r := Run(sym, old(lens[..k]), Word(input), pos, end);
      r.Some? ==> r == Some((lens[k..k'], pos')) && lens[..k'] == old(lens[..k]) + lens[k..k']
    ensures var r := Run(sym, old(lens[..k]), Word(input), pos, end); r.Some? && k + |r.value.0| <= total ==> ok
  {
    hide Denotes, Word, Low, Shr;
    ghost var before := lens[..k];
    var n, x := 1, sym;
    b', pos' := b, pos;
    if sym >= 16 {
      if sym > 18 || (sym == 16 && k == 0) {
        return false, k, b, pos;
      }
      var e := if sym == 16 then 2 else if sym == 17 then 3 else 7;
      n, b' := TakeBits(b, e, input, pos);
      pos' := pos + e;
      n := n + (if sym == 18 then 11 else 3);
      x := if sym == 16 then lens[k - 1] else 0;
    }
    ok := WriteRun(lens, k, total, x, n);
    k' := k + n;
    if ok {
      assert lens[..k'][..k] == before && lens[k..k'] == lens[..k'][k..] == Repeat(x, n);
      assert sym < 16 ==> Repeat(x, n) == [sym];
    }
  }

  lemma Low3(v: nat)
    ensures Low(v, 3) < 8
  {
    assert Pow2(3) == 8;
  }

  /** The lengths of the code length code: the first four fields, a fifth one, and then five at a time between
      refills of the buffer. */
  method ReadCodeLengthLengths(nclen: nat, b: Buffer, input: seq<byte>, pinend: nat, ghost pos: nat)
    returns (ok: bool, codebits: seq<nat>, b': Buffer, ghost pos': nat)
    requires 4 <= nclen <= 19 && Denotes(b, input, pos) && pinend <= |input|
    ensures Denotes(b', input, pos') && pos <= pos'
    ensures ok ==> pos' == pos + 3 * nclen && codebits == CodeLengthLengths(nclen, Word(input), pos)
    ensures ok ==> |codebits| == 19 && forall i | 0 <= i < 19 :: codebits[i] < 8
    ensures Ample(pos + 3 * nclen, pinend) ==> ok
  {
    hide Denotes, Word, Low, Shr;
    ok, b', pos' := true, b, pos;
    codebits := Repeat(0, 19);
    for i: nat := 0 to nclen
      invariant Denotes(b', input, pos') && pos' == pos + 3 * i && ok
      invariant codebits == CodeLengthLengths(i, Word(input), pos)
      invariant forall j | 0 <= j < 19 :: codebits[j] < 8
      invariant i % 5 != 0 ==> b'.bits >= 15 - 3 * (i % 5)
    {
      if i % 5 == 0 {
        ok, b' := FetchBits(b', input, pinend, pos');
        if !ok {
          return;
        }
      }
      Low3(Rest(input, pos'));
      codebits, b' := ReadOneLength(i, codebits, b', input, pos, pos');
      pos' := pos' + 3;
    }
  }

  method ReadOneLength(i: nat, codebits: seq<nat>, b: Buffer, input: seq<byte>, ghost pos: nat, ghost pos': nat)
    returns (codebits': seq<nat>, b': Buffer)
    requires i < 19 && Denotes(b, input, pos') && b.bits >= 3 && pos' == pos + 3 * i
    requires codebits == CodeLengthLengths(i, Word(input), pos) && Low(Rest(input, pos'), 3) < 8
    requires forall j | 0 <= j < 19 :: codebits[j] < 8
    ensures Denotes(b', input, pos' + 3) && b'.bits == b.bits - 3
    ensures codebits' == CodeLengthLengths(i + 1, Word(input), pos)
    ensures forall j | 0 <= j < 19 :: codebits'[j] < 8
  {
    hide Denotes, Word, Low, Shr;
    var x;
    x, b' := TakeBits(b, 3, input, pos');
    codebits' := codebits[CODE_ORDER[i] := x];
  }

  /** Reads the code lengths of both codes, in one list. */
  method ReadCodeLengths(table: array<uint16>, lens: array<nat>, total: nat, b: Buffer, input: seq<byte>, pinend: nat,
                         ghost pos: nat, ghost end: nat, ghost cl: seq<nat>)
    returns (ok: bool, b': Buffer, ghost pos': nat)
    requires total <= lens.Length && Denotes(b, input, pos) && pinend <= |input|
    requires TableFor(table[..], cl) && forall i | 0 <= i < |cl| :: cl[i] < 8
    modifies lens
    ensures Denotes(b', input, pos') && pos <= pos'
    ensures ok && Fits(cl) ==>
      var r := CodeLengths(cl, total, [], Word(input), pos, end);
      r.Some? ==> r == Some((lens[..total], pos'))
    ensures Fits(cl) ==>
      var r := CodeLengths(cl, total, [], Word(input), pos, end); r.Some? && Ample(r.value.1, pinend) ==> ok
  {
    hide TableFor, Decodes, Word, Fits, Denotes, Run, CodeLengths;
    ghost var r0 := CodeLengths(cl, total, [], Word(input), pos, end);
    ok, b', pos' := true, b, pos;
    var k := 0;
    while k < total
      invariant k <= total && Denotes(b', input, pos') && pos <= pos' && table[..] == old(table[..]) && ok
      invariant Fits(cl) && r0.Some? ==> r0 == CodeLengths(cl, total, lens[..k], Word(input), pos', end)
    {
      ok, k, b', pos' := ReadLengthStep(table, lens, k, total, b', input, pinend, pos', end, cl);
      if !ok {
        return;
      }
    }
    CodeLengthsDone(cl, total, lens[..total], Word(input), pos', end);
  }

  lemma CodeLengthsDone(cl: seq<nat>, total: nat, acc: seq<nat>, w: nat, pos: nat, end: nat)
    requires |acc| == total
    ensures CodeLengths(cl, total, acc, w, pos, end) == Some((acc, pos))
  {
  }

  /** The next symbol and its run are part of the list. */
  lemma LengthsGoOn(cl: seq<nat>, total: nat, acc: seq<nat>, w: nat, pos: nat, end: nat)
    requires CodeLengths(cl, total, acc, w, pos, end).Some? && |acc| < total
    ensures Symbol(cl, w, pos, end).Some? && var s := Symbol(cl, w, pos, end).value;
      s < |cl| && Matches(cl, s, Shr(w, pos)) && var r := Run(s, acc, w, pos + cl[s], end);
      r.Some? && |acc| + |r.value.0| <= total
  {
    hide Run;
    SymbolIs(cl, w, pos, end);
  }

  method ReadLengthStep(table: array<uint16>, lens: array<nat>, k: nat, total: nat, b: Buffer, input: seq<byte>,
                        pinend: nat, ghost pos: nat, ghost end: nat, ghost cl: seq<nat>)
    returns (ok: bool, k': nat, b': Buffer, ghost pos': nat)
    requires k < total <= lens.Length && Denotes(b, input, pos) && pinend <= |input|
    requires TableFor(table[..], cl) && forall i | 0 <= i < |cl| :: cl[i] < 8
    modifies lens
    ensures Denotes(b', input, pos') && pos <= pos'
    ensures ok ==> k < k' <= total
    ensures ok && Fits(cl) ==>
      var r := CodeLengths(cl, total, old(lens[..k]), Word(input), pos, end);
      r.Some? ==> r == CodeLengths(cl, total, lens[..k'], Word(input), pos', end)
    ensures Fits(cl) ==>
      var r := CodeLengths(cl, total, old(lens[..k]), Word(input), pos, end);
      r.Some? && Ample(r.value.1, pinend) ==> ok
  {
    hide TableFor, Decodes, Word, Fits, Denotes, Run, Symbol, Matches;
    k', pos' := k, pos;
    ghost var acc := lens[..k];
    if Fits(cl) && CodeLengths(cl, total, acc, Word(input), pos, end).Some? {
      LengthsGoOn(cl, total, acc, Word(input), pos, end);
      assert Matches(cl, Symbol(cl, Word(input), pos, end).value, Rest(input, pos));
    }
    ok, b' := FetchBits(b, input, pinend, pos);
    if !ok {
      return;
    }
    var sym; ghost var n;
    ok, sym, b', n := DecodeLengthSymbol(table, b', input, pos, cl);
    pos' := pos + n;
    if !ok {
      return;
    }
    if Fits(cl) && CodeLengths(cl, total, acc, Word(input), pos, end).Some? {
      SymbolDecoded(cl, input, pos, end, sym, n);
    }
    ok, k', b', pos' := ReadRun(sym, lens, k, total, b', input, pos', end);
  }

  // ---- The header of a block with dynamic codes

  /** The arrays that zdebug_table is divided into. */
  datatype Work = Work(lit: array<uint16>, dist: array<uint16>, next: array<uint16>, lens: array<nat>)

  predicate ValidWork(k: Work) {
    && k.lit.Length == TABLE_SIZE && k.dist.Length == TABLE_SIZE
    && k.next.Length == MAX_CODES && k.lens.Length == MAX_CODES
    && k.lit != k.dist && k.lit != k.next && k.dist != k.next
  }

  /** The three counts at the start of the header. */
  method ReadCounts(b: Buffer, input: seq<byte>, pinend: nat, ghost pos: nat)
    returns (ok: bool, nlit: nat, ndist: nat, nclen: nat, b': Buffer)
    requires Denotes(b, input, pos) && pinend <= |input|
    ensures ok ==> Denotes(b', input, pos + 14)
    ensures !ok ==> Denotes(b', input, pos)
    ensures Ample(pos, pinend) ==> ok
    ensures ok ==> nlit == Low(Rest(input, pos), 5) + 257 && ndist == Low(Rest(input, pos + 5), 5) + 1
                   && nclen == Low(Rest(input, pos + 10), 4) + 4 && nclen <= 19
  {
    nlit, ndist, nclen := 0, 0, 0;
    ok, b' := FetchBits(b, input, pinend, pos);
    if !ok {
      return;
    }
    Pow2Of4();
    hide Denotes, Word, Low, Shr;
    nlit, b' := TakeBits(b', 5, input, pos);
    ndist, b' := TakeBits(b', 5, input, pos + 5);
    nclen, b' := TakeBits(b', 4, input, pos + 10);
    nlit, ndist, nclen := nlit + 257, ndist + 1, nclen + 4;
  }

  lemma Pow2Of4()
    ensures Pow2(4) == 16
  {
  }

  /** Reads the code lengths of both codes into the work area. */
  method ReadDynamicLengths(work: Work, b: Buffer, input: seq<byte>, pinend: nat, ghost pos: nat, ghost end: nat)
    returns (ok: bool, nlit: nat, ndist: nat, b': Buffer, ghost pos': nat)
    requires ValidWork(work) && Denotes(b, input, pos) && pinend <= |input|
    modifies work.lit, work.next, work.lens
    ensures Denotes(b', input, pos') && pos <= pos'
    ensures ok ==> 257 <= nlit <= 286 && ndist <= 30
    ensures ok ==>
      var r := DynamicHeader(Word(input), pos, end);
      r.Some? ==> r == Some((work.lens[..nlit], work.lens[nlit..nlit + ndist], pos'))
    ensures var r := DynamicHeader(Word(input), pos, end);
      r.Some? && |r.value.1| <= 30 && Ample(r.value.2, pinend) ==> ok
  {
    hide Denotes, Word, Low, Shr, Fits, CodeLengths, Decodes, CodeLengthLengths, HasRoom;
    pos' := pos;
    var nclen;
    ok, nlit, ndist, nclen, b' := ReadCounts(b, input, pinend, pos);
    if !ok {
      return;
    }
    pos' := pos + 14;
    if nlit > 286 || ndist > 30 {
      ok := false;
      return;
    }
    var cl;
    ok, cl, b', pos' := ReadCodeLengthLengths(nclen, b', input, pinend, pos');
    if !ok {
      return;
    }
    if Fits(cl) {
      ShortAccepted(cl);
    }
    ok := BuildTable(cl, work.next, work.lit);
    if !ok {
      return;
    }
    ok, b', pos' := ReadCodeLengths(work.lit, work.lens, nlit + ndist, b', input, pinend, pos', end, cl);
    ghost var all := work.lens[..nlit + ndist];
    assert all[..nlit] == work.lens[..nlit] && all[nlit..] == work.lens[nlit..nlit + ndist];
  }

  /** What the reader asks of a block with dynamic codes, beyond the format: at most 30 distance codes, and two codes
      whose secondary tables have room. */
  ghost predicate Handled(w: nat, pos: nat, end: nat) {
    var h := DynamicHeader(w, pos, end);
    h.Some? && |h.value.1| <= 30 && HasRoom(h.value.0) && HasRoom(h.value.1)
  }

  /** No refill fails in a block that starts at pos and ends with r, and its codes can be read. */
  ghost predicate Fetchable(btype: nat, w: nat, pos: nat, end: nat, r: State, pinend: nat) {
    btype == 2 ==> Handled(w, pos, end) && EndAmple(DynamicHeader(w, pos, end).value.0, r, pinend)
  }

  lemma {:induction false} LengthsSmall(cl: seq<nat>, total: nat, acc: seq<nat>, w: nat, pos: nat, end: nat)
    requires CodeLengths(cl, total, acc, w, pos, end).Some? && forall i | 0 <= i < |acc| :: acc[i] <= MAX_BITS
    ensures var lens := CodeLengths(cl, total, acc, w, pos, end).value.0;
      forall i | 0 <= i < |lens| :: lens[i] <= MAX_BITS
    decreases end - pos
  {
    if |acc| < total {
      hide Run, Symbol, Matches;
      LengthsGoOn(cl, total, acc, w, pos, end);
      SymbolIs(cl, w, pos, end);
      var s := Symbol(cl, w, pos, end).value;
      RunSmall(s, acc, w, pos + cl[s], end);
      var (r, p) := Run(s, acc, w, pos + cl[s], end).value;
      AppendSmall(acc, r);
      LengthsSmall(cl, total, acc + r, w, p, end);
    }
  }

  lemma AppendSmall(a: seq<nat>, b: seq<nat>)
    requires (forall i | 0 <= i < |a| :: a[i] <= MAX_BITS) && (forall i | 0 <= i < |b| :: b[i] <= MAX_BITS)
    ensures forall i | 0 <= i < |a + b| :: (a + b)[i] <= MAX_BITS
  {
  }

  lemma RunSmall(sym: nat, acc: seq<nat>, w: nat, pos: nat, end: nat)
    requires Run(sym, acc, w, pos, end).Some? && forall i | 0 <= i < |acc| :: acc[i] <= MAX_BITS
    ensures var r := Run(sym, acc, w, pos, end).value.0; forall i | 0 <= i < |r| :: r[i] <= MAX_BITS
  {
    hide Extended;
  }

  /** Both codes have lengths that the table builder takes, and there is a code for symbol 256, which ends the data. */
  lemma DynamicEnds(w: nat, pos: nat, out: seq<byte>, end: nat, pinend: nat)
    requires Block(2, w, State(pos, out), end).Some?
    ensures DynamicHeader(w, pos, end).Some? && var (lit, dist, p) := DynamicHeader(w, pos, end).value;
      && Fits(lit) && Fits(dist) && 256 < |lit| && lit[256] > 0 && p >= pos
      && (forall i | 0 <= i < |lit| :: lit[i] <= MAX_BITS) && (forall i | 0 <= i < |dist| :: dist[i] <= MAX_BITS)
      && (EndAmple(lit, Block(2, w, State(pos, out), end).value, pinend) ==> Ample(p, pinend))
  {
    hide Fits, CodeLengths, BlockData;
    var (lit, dist, p) := DynamicHeader(w, pos, end).value;
    HeaderSmall(w, pos, end);
    hide DynamicHeader;
    DataEnds(lit, dist, w, State(p, out), end);
  }

  lemma HeaderSmall(w: nat, pos: nat, end: nat)
    requires DynamicHeader(w, pos, end).Some?
    ensures var (lit, dist, p) := DynamicHeader(w, pos, end).value;
      && p >= pos && (forall i | 0 <= i < |lit| :: lit[i] <= MAX_BITS)
      && (forall i | 0 <= i < |dist| :: dist[i] <= MAX_BITS)
  {
    hide Fits, CodeLengths, CodeLengthLengths, Low, Shr;
    var nlit := Low(Shr(w, pos), 5) + 257;
    var ndist := Low(Shr(w, pos + 5), 5) + 1;
    var nclen := Low(Shr(w, pos + 10), 4) + 4;
    var cl := CodeLengthLengths(nclen, w, pos + 14);
    LengthsSmall(cl, nlit + ndist, [], w, pos + 14 + 3 * nclen, end);
  }

  /** A block with dynamic codes: the header, the two tables, and the data. */
  method InflateDynamic(work: Work, b: Buffer, input: seq<byte>, pinend: nat, out: array<byte>, pout: nat,
                        ghost pos: nat, ghost end: nat)
    returns (ok: bool, b': Buffer, pout': nat, ghost pos': nat)
    requires ValidWork(work) && Denotes(b, input, pos) && pinend <= |input| && pout <= out.Length
    modifies work.lit, work.dist, work.next, work.lens, out
    ensures Denotes(b', input, pos') && pos <= pos' && pout <= pout' <= out.Length
    ensures ok ==>
      var r := Block(2, Word(input), State(pos, old(out[..pout])), end);
      r.Some? ==> r == Some(State(pos', out[..pout']))
    ensures var r := Block(2, Word(input), State(pos, old(out[..pout])), end);
      r.Some? && Fetchable(2, Word(input), pos, end, r.value, pinend) && |r.value.out| <= out.Length < UINT ==> ok
    ensures ok && Block(2, Word(input), State(pos, old(out[..pout])), end).Some? ==> Handled(Word(input), pos, end)
  {
    hide Denotes, Word, DynamicHeader, CodedBlock, Decodes, Fits, HasRoom, EndAmple;
    ghost var before := out[..pout];
    if Block(2, Word(input), State(pos, before), end).Some? {
      DynamicEnds(Word(input), pos, before, end, pinend);
    }
    pout' := pout;
    var nlit, ndist;
    ok, nlit, ndist, b', pos' := ReadDynamicLengths(work, b, input, pinend, pos, end);
    if !ok {
      return;
    }
    if work.lens[256] == 0 {
      ok := false;
      return;
    }
    var lit, dist := work.lens[..nlit], work.lens[nlit..nlit + ndist];
    ok := BuildTable(lit, work.next, work.lit);
    if !ok {
      return;
    }
    ok := BuildTable(dist, work.next, work.dist);
    if !ok {
      return;
    }
    assert out[..pout] == before;
    ok, b', pout', pos' := InflateData(work.lit, work.dist, b', input, pinend, out, pout, pos', end, lit, dist);
  }

  // ---- Stored blocks

  function Little16(lo: byte, hi: byte): nat {
    var l: nat, h: nat := lo, hi;
    l + 256 * h
  }

  lemma Field16(input: seq<byte>, i: nat)
    requires i + 2 <= |input|
    ensures Low(Rest(input, 8 * i), 16) == Little16(input[i], input[i + 1])
  {
    WordByte(input, i);
    WordByte(input, i + 1);
    LowCat(Rest(input, 8 * i), 8, 8);
    Shl8(input[i + 1]);
  }

  lemma {:induction false} BytesOfInput(input: seq<byte>, i: nat, n: nat)
    requires i + n <= |input|
    ensures Bytes(Word(input), 8 * i, n) == input[i..i + n]
  {
    if n > 0 {
      BytesOfInput(input, i, n - 1);
      WordByte(input, i + n - 1);
      assert 8 * i + 8 * (n - 1) == 8 * (i + n - 1);
      assert input[i..i + n] == input[i..i + n - 1] + [input[i + n - 1]];
    }
  }

  /** Reads bytes until the address base + pin is a multiple of four. */
  method AlignInput(b: Buffer, input: seq<byte>, base: nat, ghost pos: nat) returns (b': Buffer)
    requires Denotes(b, input, pos) && b.bits == 0 && b.pin + 3 <= |input|
    ensures Denotes(b', input, pos) && (base + b'.pin) % 4 == 0
  {
    b' := b;
    while (base + b'.pin) % 4 != 0
      invariant Denotes(b', input, pos) && b'.bits == 8 * (b'.pin - b.pin)
      invariant b.pin <= b'.pin <= b.pin + (4 - (base + b.pin) % 4) % 4
      decreases b.pin + 4 - b'.pin
    {
      b' := PushByte(b', input, pos);
    }
  }

  /** Gives back the whole bytes that were read ahead. */
  method BackUp(b: Buffer, input: seq<byte>, ghost pos: nat) returns (pin: nat)
    requires Denotes(b, input, pos)
    ensures pin <= b.pin && 8 * pin == ByteAligned(pos)
  {
    var bits := b.bits;
    pin := b.pin;
    while bits >= 8
      invariant 0 <= bits && pin <= b.pin && pos + bits == 8 * pin
    {
      pin, bits := pin - 1, bits - 8;
    }
    assert (pos + 7) / 8 == pin;
  }

  lemma EmptyBuffer(input: seq<byte>, pin: nat)
    requires pin <= |input|
    ensures Denotes(Buffer(pin, 0, 0), input, 8 * pin)
  {
  }

  method CopyInput(out: array<byte>, pout: nat, input: seq<byte>, pin: nat, len: nat)
    requires pout + len <= out.Length && pin + len <= |input|
    modifies out
    ensures out[..pout + len] == old(out[..pout]) + input[pin..pin + len]
  {
    forall k | 0 <= k < len {
      out[pout + k] := input[pin + k];
    }
  }

  /** An uncompressed block: its length twice, then that many bytes. */
  method InflateStored(b: Buffer, input: seq<byte>, pinend: nat, base: nat, out: array<byte>, pout: nat,
                       ghost pos: nat, ghost end: nat)
    returns (ok: bool, b': Buffer, pout': nat, ghost pos': nat)
    requires Denotes(b, input, pos) && pinend + 3 <= |input| && pout <= out.Length
    modifies out
    ensures Denotes(b', input, pos') && (ok ==> pos <= pos') && pout <= pout' <= out.Length
    ensures ok ==>
      var r := Stored(Word(input), State(pos, old(out[..pout])), end);
      r.Some? ==> r == Some(State(pos', out[..pout']))
    ensures var r := Stored(Word(input), State(pos, old(out[..pout])), end);
      r.Some? && end <= 8 * pinend && |r.value.out| <= out.Length < UINT && pinend < UINT ==> ok
  {
    hide Denotes, Word, Stored;
    ghost var s := State(pos, out[..pout]);
    var pin := BackUp(b, input, pos);
    if Stored(Word(input), s, end).Some? {
      StoredRoom(Word(input), s, end);
    }
    b', pout', pos' := b, pout, pos;
    if pinend < pin + 4 {
      return false, b', pout', pos';
    }
    var len := Little16(input[pin], input[pin + 1]);
    var lenc := Little16(input[pin + 2], input[pin + 3]);
    StoredSays(input, s, end, pin, len, lenc);
    if len != 0xffff - lenc {
      return false, b', pout', pos';
    }
    pin := pin + 4;
    if len > (pinend - pin) % UINT || len > (out.Length - pout) % UINT {
      return false, b', pout', pos';
    }
    CopyInput(out, pout, input, pin, len);
    pin, pout' := pin + len, pout + len;
    pos' := 8 * pin;
    EmptyBuffer(input, pin);
    b' := AlignInput(Buffer(pin, 0, 0), input, base, pos');
    ok := true;
  }

  lemma StoredRoom(w: nat, s: State, end: nat)
    requires Stored(w, s, end).Some?
    ensures ByteAligned(s.pos) + 32 <= end
  {
    hide Low, Shr, Bytes;
  }

  /** A stored block in terms of the bytes of the input. */
  lemma StoredSays(input: seq<byte>, s: State, end: nat, i: nat, len: nat, lenc: nat)
    requires i + 4 <= |input| && 8 * i == ByteAligned(s.pos)
    requires len == Little16(input[i], input[i + 1]) && lenc == Little16(input[i + 2], input[i + 3])
    ensures var r := Stored(Word(input), s, end);
      && (r.Some? <==> len + lenc == 0xffff && 8 * (i + 4 + len) <= end)
      && (r.Some? && i + 4 + len <= |input| ==>
            r.value == State(8 * (i + 4 + len), s.out + input[i + 4..i + 4 + len]))
  {
    hide *;
    StoredFields(input, i);
    StoredIs(Word(input), s, end, 8 * i, len, lenc);
    if i + 4 + len <= |input| {
      BytesOfInput(input, i + 4, len);
      assert 8 * i + 32 == 8 * (i + 4);
    }
  }

  lemma StoredIs(w: nat, s: State, end: nat, p: nat, len: nat, lenc: nat)
    requires p == ByteAligned(s.pos) && len == Low(Shr(w, p), 16) && lenc == Low(Shr(w, p + 16), 16)
    ensures Stored(w, s, end).Some? <==> len + lenc == 0xffff && p + 32 + 8 * len <= end
    ensures Stored(w, s, end).Some? ==>
      Stored(w, s, end).value == State(p + 32 + 8 * len, s.out + Bytes(w, p + 32, len))
  {
    hide Low, Shr, Bytes, ByteAligned;
  }

  lemma StoredFields(input: seq<byte>, i: nat)
    requires i + 4 <= |input|
    ensures Low(Shr(Word(input), 8 * i), 16) == Little16(input[i], input[i + 1])
    ensures Low(Shr(Word(input), 8 * i + 16), 16) == Little16(input[i + 2], input[i + 3])
    ensures 8 * i + 32 == 8 * (i + 4)
  {
    Field16(input, i);
    Field16(input, i + 2);
    assert 8 * i + 16 == 8 * (i + 2);
    hide Low, Shr, Word, Little16;
  }

  // ---- The stream

  /** The fixed code of symbol 256 has seven bits, enough for a refill before it. */
  lemma FixedEnds(w: nat, s: State, end: nat, pinend: nat)
    ensures var r := CodedBlock(FIXED_LIT, FIXED_DIST, w, s, end);
      r.Some? && end + 32 == 8 * pinend ==> EndAmple(FIXED_LIT, r.value, pinend)
  {
    hide Fits, BlockData;
    if CodedBlock(FIXED_LIT, FIXED_DIST, w, s, end).Some? {
      DataEnds(FIXED_LIT, FIXED_DIST, w, s, end);
      EndSymbol();
    }
  }

  lemma EndSymbol()
    ensures |FIXED_LIT| == 288 && FIXED_LIT[256] == 7
  {
  }

  /** One block of the given type. */
  method InflateBlock(btype: nat, work: Work, fixedLit: array<uint16>, fixedDist: array<uint16>, b: Buffer,
                      input: seq<byte>, pinend: nat, base: nat, out: array<byte>, pout: nat, ghost pos: nat,
                      ghost end: nat)
    returns (ok: bool, b': Buffer, pout': nat, ghost pos': nat)
    requires ValidWork(work) && Denotes(b, input, pos) && pinend + 3 <= |input| && pout <= out.Length
    requires TableFor(fixedLit[..], FIXED_LIT) && TableFor(fixedDist[..], FIXED_DIST)
    modifies work.lit, work.dist, work.next, work.lens, out
    ensures Denotes(b', input, pos') && (ok ==> pos <= pos') && pout <= pout' <= out.Length
    ensures ok ==>
      var r := Block(btype, Word(input), State(pos, old(out[..pout])), end);
      r.Some? ==> r == Some(State(pos', out[..pout']))
    ensures end + 32 == 8 * pinend && pinend < UINT ==>
      var r := Block(btype, Word(input), State(pos, old(out[..pout])), end);
      r.Some? && Fetchable(btype, Word(input), pos, end, r.value, pinend) && |r.value.out| <= out.Length < UINT ==> ok
    ensures ok && btype == 2 && Block(2, Word(input), State(pos, old(out[..pout])), end).Some? ==>
      Handled(Word(input), pos, end)
  {
    hide Denotes, Word, Stored, CodedBlock, DynamicHeader, Decodes, Fits, TableFor, EndAmple, Handled;
    FixedEnds(Word(input), State(pos, out[..pout]), end, pinend);
    if btype == 0 {
      ok, b', pout', pos' := InflateStored(b, input, pinend, base, out, pout, pos, end);
    } else if btype == 1 {
      ok, b', pout', pos' :=
        InflateData(fixedLit, fixedDist, b, input, pinend, out, pout, pos, end, FIXED_LIT, FIXED_DIST);
    } else if btype == 2 {
      ok, b', pout', pos' := InflateDynamic(work, b, input, pinend, out, pout, pos, end);
    } else {
      ok, b', pout', pos' := false, b, pout, pos;
    }
  }

  // What the reader asks of a stream, beyond the format

  function TypeAt(w: nat, s: State): nat { Low(Shr(w, s.pos + 1), 2) }

  predicate LastAt(w: nat, s: State) { Low(Shr(w, s.pos), 1) == 1 }

  ghost function BlockAt(w: nat, s: State, end: nat): (r: Option<State>)
    ensures r.Some? ==> s.pos + 3 <= r.value.pos
  {
    Block(TypeAt(w, s), w, State(s.pos + 3, s.out), end)
  }

  /** The reader can handle the codes of every block. */
  ghost predicate AllHandled(w: nat, s: State, end: nat)
    decreases end - s.pos
  {
    var r := BlockAt(w, s, end);
    s.pos + 3 <= end && r.Some? ==>
      (TypeAt(w, s) == 2 ==> Handled(w, s.pos + 3, end)) && (LastAt(w, s) || AllHandled(w, r.value, end))
  }

  /** The last block is not one with dynamic codes, or its code of symbol 256 has at least seven bits. */
  ghost predicate LongEnd(w: nat, s: State, end: nat)
    decreases end - s.pos
  {
    var r := BlockAt(w, s, end);
    s.pos + 3 <= end && r.Some? ==>
      if !LastAt(w, s) then LongEnd(w, r.value, end)
      else TypeAt(w, s) == 2 ==> SevenBits(DynamicHeader(w, s.pos + 3, end))
  }

  predicate SevenBits(h: Option<(seq<nat>, seq<nat>, nat)>) {
    h.Some? && 256 < |h.value.0| && h.value.0[256] >= 7
  }

  /** The blocks are valid, their codes can be handled, and no refill comes too near the end. */
  ghost predicate Decodable(w: nat, s: State, end: nat) {
    Blocks(w, s, end).Some? && AllHandled(w, s, end) && LongEnd(w, s, end)
  }

  lemma BlocksNext(w: nat, s: State, end: nat)
    requires Blocks(w, s, end).Some?
    ensures s.pos + 3 <= end && BlockAt(w, s, end).Some?
    ensures Blocks(w, s, end) ==
      if LastAt(w, s) then BlockAt(w, s, end) else Blocks(w, BlockAt(w, s, end).value, end)
    ensures AllHandled(w, s, end) <==>
      ((TypeAt(w, s) == 2 ==> Handled(w, s.pos + 3, end))
       && (LastAt(w, s) || AllHandled(w, BlockAt(w, s, end).value, end)))
    ensures LastAt(w, s) ==> (LongEnd(w, s, end) <==> TypeAt(w, s) == 2 ==> SevenBits(DynamicHeader(w, s.pos + 3, end)))
    ensures !LastAt(w, s) ==> (LongEnd(w, s, end) <==> LongEnd(w, BlockAt(w, s, end).value, end))
  {
    hide Block, Low, Shr, Handled, SevenBits;
  }

  /** A block takes at least seven bits after its header, ends in the input, and takes nothing back. */
  lemma BlockSpan(btype: nat, w: nat, s: State, end: nat)
    requires Block(btype, w, s, end).Some?
    ensures var r := Block(btype, w, s, end).value; s.pos + 7 <= end && r.pos <= end && |s.out| <= |r.out|
    ensures btype == 2 ==> DynamicHeader(w, s.pos, end).Some? && var lit := DynamicHeader(w, s.pos, end).value.0;
      256 < |lit| && lit[256] <= Block(btype, w, s, end).value.pos
  {
    hide BlockData, Fits, CodeLengths, CodeLengthLengths;
    if btype == 1 {
      DataEnds(FIXED_LIT, FIXED_DIST, w, s, end);
      EndSymbol();
    } else if btype == 2 {
      var (lit, dist, p) := DynamicHeader(w, s.pos, end).value;
      HeaderSmall(w, s.pos, end);
      HeaderRoom(w, s.pos, end);
      hide DynamicHeader;
      DataEnds(lit, dist, w, State(p, s.out), end);
    }
  }

  lemma HeaderRoom(w: nat, pos: nat, end: nat)
    requires DynamicHeader(w, pos, end).Some?
    ensures pos + 14 <= end
  {
    hide Fits, CodeLengths, CodeLengthLengths;
  }

  /** So no refill fails in a block before the last. */
  lemma NextFetchable(w: nat, s: State, end: nat, pinend: nat)
    requires Blocks(w, s, end).Some? && AllHandled(w, s, end) && LongEnd(w, s, end) && end + 32 == 8 * pinend
    ensures s.pos + 10 <= end && BlockAt(w, s, end).Some?
    ensures Fetchable(TypeAt(w, s), w, s.pos + 3, end, BlockAt(w, s, end).value, pinend)
    ensures |BlockAt(w, s, end).value.out| <= |Blocks(w, s, end).value.out|
  {
    hide Blocks, AllHandled, LongEnd, Block, Handled, LastAt, TypeAt, Low, Shr, DynamicHeader;
    BlocksNext(w, s, end);
    var r := BlockAt(w, s, end).value;
    BlockSpan(TypeAt(w, s), w, State(s.pos + 3, s.out), end);
    if !LastAt(w, s) {
      NextBlockRoom(w, r, end);
      BlocksGrow(w, r, end);
    }
    hide BlockAt;
  }

  lemma NextBlockRoom(w: nat, s: State, end: nat)
    requires Blocks(w, s, end).Some?
    ensures s.pos + 10 <= end
  {
    hide Blocks, AllHandled, LongEnd, Block, Handled, LastAt, TypeAt, Low, Shr, DynamicHeader;
    BlocksNext(w, s, end);
    BlockSpan(TypeAt(w, s), w, State(s.pos + 3, s.out), end);
  }

  lemma {:induction false} BlocksGrow(w: nat, s: State, end: nat)
    requires Blocks(w, s, end).Some?
    ensures |s.out| <= |Blocks(w, s, end).value.out|
    decreases end - s.pos
  {
    hide AllHandled, LongEnd, Block, Handled, Low, Shr;
    BlocksNext(w, s, end);
    BlockSpan(TypeAt(w, s), w, State(s.pos + 3, s.out), end);
    if !LastAt(w, s) {
      BlocksGrow(w, BlockAt(w, s, end).value, end);
    }
  }

  /** Reads blocks until one is marked last. */
  method InflateBlocks(work: Work, fixedLit: array<uint16>, fixedDist: array<uint16>, b: Buffer, input: seq<byte>,
                       pinend: nat, base: nat, out: array<byte>, pout: nat, ghost pos: nat, ghost end: nat)
    returns (ok: bool, b': Buffer, pout': nat, ghost pos': nat)
    requires ValidWork(work) && Denotes(b, input, pos) && pinend + 3 <= |input| && pout <= out.Length
    requires fixedLit != work.lit && fixedLit != work.dist && fixedLit != work.next
    requires fixedDist != work.lit && fixedDist != work.dist && fixedDist != work.next
    requires TableFor(fixedLit[..], FIXED_LIT) && TableFor(fixedDist[..], FIXED_DIST)
    modifies work.lit, work.dist, work.next, work.lens, out
    ensures Denotes(b', input, pos') && (ok ==> pos <= pos') && pout <= pout' <= out.Length
    ensures ok ==>
      var r := Blocks(Word(input), State(pos, old(out[..pout])), end);
      r.Some? ==> r == Some(State(pos', out[..pout'])) && AllHandled(Word(input), State(pos, old(out[..pout])), end)
    ensures end + 32 == 8 * pinend && pinend < UINT && out.Length < UINT ==>
      var w, s := Word(input), State(pos, old(out[..pout]));
      Decodable(w, s, end) && |Blocks(w, s, end).value.out| <= out.Length ==> ok
  {
    hide Denotes, Word, Block, Blocks, Decodes, Fits, TableFor, Low, Shr, AllHandled, LongEnd;
    ghost var w, s := Word(input), State(pos, out[..pout]);
    var last := false;
    ok, b', pout', pos' := true, b, pout, pos;
    while !last
      invariant Denotes(b', input, pos') && pos <= pos' && pout <= pout' <= out.Length
      invariant fixedLit[..] == old(fixedLit[..]) && fixedDist[..] == old(fixedDist[..])
      invariant Blocks(w, s, end).Some? ==>
        Blocks(w, s, end) ==
          if last then Some(State(pos', out[..pout'])) else Blocks(w, State(pos', out[..pout']), end)
      invariant Blocks(w, s, end).Some? ==>
        && (AllHandled(w, s, end) <==> last || AllHandled(w, State(pos', out[..pout']), end))
        && (!last ==> (LongEnd(w, s, end) <==> LongEnd(w, State(pos', out[..pout']), end)))
      invariant ok
      decreases !last, 8 * |input| - pos'
    {
      ok, last, b', pout', pos' :=
        InflateNext(work, fixedLit, fixedDist, b', input, pinend, base, out, pout', pos', end);
      if !ok {
        return;
      }
    }
  }

  /** The header of a block, and the block. */
  method InflateNext(work: Work, fixedLit: array<uint16>, fixedDist: array<uint16>, b: Buffer, input: seq<byte>,
                     pinend: nat, base: nat, out: array<byte>, pout: nat, ghost pos: nat, ghost end: nat)
    returns (ok: bool, last: bool, b': Buffer, pout': nat, ghost pos': nat)
    requires ValidWork(work) && Denotes(b, input, pos) && pinend + 3 <= |input| && pout <= out.Length
    requires TableFor(fixedLit[..], FIXED_LIT) && TableFor(fixedDist[..], FIXED_DIST)
    modifies work.lit, work.dist, work.next, work.lens, out
    ensures Denotes(b', input, pos') && pout <= pout' <= out.Length
    ensures ok ==> pos < pos' <= 8 * |input|
    ensures ok ==>
      var r := Blocks(Word(input), State(pos, old(out[..pout])), end);
      var s' := State(pos', out[..pout']);
      r.Some? ==> r == if last then Some(s') else Blocks(Word(input), s', end)
    ensures end + 32 == 8 * pinend && pinend < UINT && out.Length < UINT ==>
      var w, s := Word(input), State(pos, old(out[..pout]));
      Decodable(w, s, end) && |Blocks(w, s, end).value.out| <= out.Length ==> ok
    ensures ok && Blocks(Word(input), State(pos, old(out[..pout])), end).Some? ==>
      var w, s, s' := Word(input), State(pos, old(out[..pout])), State(pos', out[..pout']);
      && (AllHandled(w, s, end) <==> last || AllHandled(w, s', end))
      && (!last ==> (LongEnd(w, s, end) <==> LongEnd(w, s', end)))
  {
    hide Denotes, Word, Block, Blocks, AllHandled, LongEnd, Handled, Decodes, Fits, TableFor, Low, Shr;
    ghost var w, s := Word(input), State(pos, out[..pout]);
    if Blocks(w, s, end).Some? {
      BlocksNext(w, s, end);
      if end + 32 == 8 * pinend && LongEnd(w, s, end) && AllHandled(w, s, end) {
        NextFetchable(w, s, end, pinend);
      }
    }
    last, pout', pos' := false, pout, pos;
    ok, b' := FetchBits(b, input, pinend, pos);
    if !ok {
      return;
    }
    var final, btype;
    final, b' := TakeBits(b', 1, input, pos);
    btype, b' := TakeBits(b', 2, input, pos + 1);
    last := final == 1;
    ok, b', pout', pos' :=
      InflateBlock(btype, work, fixedLit, fixedDist, b', input, pinend, base, out, pout, pos + 3, end);
    PosInInput(b', input, pos');
  }

  lemma PosInInput(b: Buffer, input: seq<byte>, pos: nat)
    requires Denotes(b, input, pos)
    ensures pos <= 8 * |input| && pos + b.bits == 8 * b.pin
  {
  }

  lemma HeaderBytes(input: seq<byte>)
    requires 2 <= |input|
    ensures Low(Word(input), 8) == input[0] && Low(Shr(Word(input), 8), 8) == input[1]
  {
    WordByte(input, 0);
    WordByte(input, 1);
  }

  /** The reader can handle the codes of every block of a zlib stream of n bytes. */
  ghost predicate ZlibHandled(w: nat, n: nat) { n >= 4 && AllHandled(w, State(16, []), 8 * (n - 4)) }

  /** The sizes fit in 32 bits, and no refill is needed too near the end. */
  ghost predicate Reachable(w: nat, n: nat, size: nat) {
    n >= 4 && n < UINT && size < UINT && LongEnd(w, State(16, []), 8 * (n - 4))
  }

  /** A stream that starts at pin: the two header bytes and the blocks. */
  method InflateStream(work: Work, fixedLit: array<uint16>, fixedDist: array<uint16>, input: seq<byte>, pin: nat,
                       pinend: nat, base: nat, out: array<byte>, pout: nat)
    returns (ok: bool, pin': nat, pout': nat)
    requires ValidWork(work) && pin + 4 < pinend && pinend + 3 <= |input| && pout <= out.Length
    requires fixedLit != work.lit && fixedLit != work.dist && fixedLit != work.next
    requires fixedDist != work.lit && fixedDist != work.dist && fixedDist != work.next
    requires TableFor(fixedLit[..], FIXED_LIT) && TableFor(fixedDist[..], FIXED_DIST)
    modifies work.lit, work.dist, work.next, work.lens, out
    ensures ok ==> pin + 2 <= pin' && pout <= pout' <= out.Length && ZlibHeader(input[pin], input[pin + 1])
    ensures ok && pin == pout == 0 && Zlib(Word(input), pinend).Some? ==>
      out[..pout'] == Zlib(Word(input), pinend).value && pinend - 4 <= pin' && ZlibHandled(Word(input), pinend)
    ensures pin == pout == 0 && Reachable(Word(input), pinend, out.Length) && ZlibHandled(Word(input), pinend) ==>
      var r := Zlib(Word(input), pinend); r.Some? && |r.value| <= out.Length ==> ok
  {
    hide *;
    HeaderBytes(input);
    var accepted := CheckHeader(input[pin], input[pin + 1]);
    if pin == pout == 0 {
      ZlibSays(Word(input), pinend, input[0], input[1], out.Length);
    }
    if !accepted {
      return false, pin, pout;
    }
    ghost var pos: nat, end: nat := 8 * (pin + 2), 8 * (pinend - 4);
    EmptyBuffer(input, pin + 2);
    var b := AlignInput(Buffer(pin + 2, 0, 0), input, base, pos);
    assert pout == 0 ==> out[..pout] == [];
    ok, b, pout', pos := InflateBlocks(work, fixedLit, fixedDist, b, input, pinend, base, out, pout, pos, end);
    PosInInput(b, input, pos);
    if ok && pin == pout == 0 && Zlib(Word(input), pinend).Some? {
      EndsAligned(Word(input), pinend, pos);
    }
    pin' := b.pin;
  }

  /** The tests on the two header bytes. */
  method CheckHeader(cmf: byte, flg: byte) returns (ok: bool)
    ensures ok <==> ZlibHeader(cmf, flg)
  {
    var c: nat, f: nat := cmf, flg;
    if c % 16 != 8 || c / 16 > 7 || (f / 32) % 2 != 0 || (256 * c + f) % 31 != 0 {
      return false;
    }
    return true;
  }

  /** What a valid zlib stream consists of. */
  lemma ZlibSays(w: nat, n: nat, cmf: byte, flg: byte, size: nat)
    requires Low(w, 8) == cmf && Low(Shr(w, 8), 8) == flg
    ensures Zlib(w, n).Some? ==>
      n >= 6 && ZlibHeader(cmf, flg) && var r := Blocks(w, State(16, []), 8 * (n - 4));
      r.Some? && Zlib(w, n) == Some(r.value.out)
    ensures n >= 4 && ZlibHandled(w, n) <==> n >= 4 && AllHandled(w, State(16, []), 8 * (n - 4))
    ensures Zlib(w, n).Some? && ZlibHandled(w, n) && Reachable(w, n, size) ==>
      8 * (n - 4) + 32 == 8 * n && n < UINT && size < UINT && Decodable(w, State(16, []), 8 * (n - 4))
  {
    hide Low, Shr, Blocks, AllHandled, LongEnd, ZlibHeader;
  }

  lemma EndsAligned(w: nat, n: nat, pos: nat)
    requires Zlib(w, n).Some? && n >= 4 && var r := Blocks(w, State(16, []), 8 * (n - 4)); r.Some? && r.value.pos == pos
    ensures 8 * (n - 4) < pos + 8
  {
    hide Low, Shr, Blocks, ZlibHeader;
  }

  /** elf_zlib_inflate. When it succeeds on the bytes of a single zlib stream, the output is what that stream
      stands for. The aligned reads may look at up to three bytes after the input. */
  method Inflate(work: Work, fixedLit: array<uint16>, fixedDist: array<uint16>, input: seq<byte>, pinend: nat,
                 base: nat, out: array<byte>) returns (ok: bool)
    requires ValidWork(work) && pinend + 3 <= |input|
    requires fixedLit != work.lit && fixedLit != work.dist && fixedLit != work.next
    requires fixedDist != work.lit && fixedDist != work.dist && fixedDist != work.next
    requires TableFor(fixedLit[..], FIXED_LIT) && TableFor(fixedDist[..], FIXED_DIST)
    modifies work.lit, work.dist, work.next, work.lens, out
    ensures ok && Zlib(Word(input), pinend).Some? ==> out[..] == Zlib(Word(input), pinend).value
    ensures ok && pinend > 4 ==> ZlibHeader(input[0], input[1])
    ensures Zlib(Word(input), pinend).Some? && Reachable(Word(input), pinend, out.Length) ==>
      (ok <==> ZlibHandled(Word(input), pinend) && |Zlib(Word(input), pinend).value| == out.Length)
  {
    hide Zlib, Word, TableFor, ZlibHandled, Reachable, ZlibHeader;
    var pin: nat, pout: nat := 0, 0;
    ZlibLong(Word(input), pinend);
    while pin + 4 < pinend
      invariant pout <= out.Length
      invariant fixedLit[..] == old(fixedLit[..]) && fixedDist[..] == old(fixedDist[..])
      invariant Zlib(Word(input), pinend).Some? ==>
        if pin == 0 then pout == 0 && pinend > 4
        else out[..pout] == Zlib(Word(input), pinend).value && pinend - 4 <= pin && ZlibHandled(Word(input), pinend)
      invariant if pin == 0 then pout == 0 else pinend > 4 && ZlibHeader(input[0], input[1])
    {
      ok, pin, pout := InflateStream(work, fixedLit, fixedDist, input, pin, pinend, base, out, pout);
      if !ok {
        return;
      }
    }
    ok := pout == out.Length;
    assert ok ==> out[..] == out[..pout];
  }

  lemma ZlibLong(w: nat, n: nat)
    ensures Zlib(w, n).Some? ==> n > 4
  {
  }

  /** elf_zlib_inflate_and_verify: the output also matches the check value after the stream. */
  method InflateAndVerify(work: Work, fixedLit: array<uint16>, fixedDist: array<uint16>, input: seq<byte>, pinend: nat,
                          base: nat, out: array<byte>) returns (ok: bool)
    requires ValidWork(work) && 4 <= pinend && pinend + 3 <= |input|
    requires fixedLit != work.lit && fixedLit != work.dist && fixedLit != work.next
    requires fixedDist != work.lit && fixedDist != work.dist && fixedDist != work.next
    requires TableFor(fixedLit[..], FIXED_LIT) && TableFor(fixedDist[..], FIXED_DIST)
    modifies work.lit, work.dist, work.next, work.lens, out
    ensures ok && Zlib(Word(input), pinend).Some? ==> out[..] == Zlib(Word(input), pinend).value
    ensures Zlib(Word(input), pinend).Some? && Reachable(Word(input), pinend, out.Length) ==>
      (ok <==> ZlibHandled(Word(input), pinend) && |Zlib(Word(input), pinend).value| == out.Length
               && Adler.BigEndian(input[pinend - 4..pinend]) == Adler.Checksum(Zlib(Word(input), pinend).value))
    ensures ok ==> Adler.BigEndian(input[pinend - 4..pinend]) == Adler.Checksum(out[..])
  {
    hide *;
    ok := Inflate(work, fixedLit, fixedDist, input, pinend, base, out);
    if ok {
      ok := Adler.VerifyChecksum(input[pinend - 4..pinend], out[..]);
    }
  }

  lemma FixedShort()
    ensures |FIXED_LIT| == 288 && forall i | 0 <= i < |FIXED_LIT| :: FIXED_LIT[i] <= 9
    ensures |FIXED_DIST| == 32 && forall i | 0 <= i < |FIXED_DIST| :: FIXED_DIST[i] <= 9
  {
  }

  lemma ShortAccepted(lens: seq<nat>)
    requires |lens| <= 288 && Fits(lens) && forall i | 0 <= i < |lens| :: lens[i] <= 9
    ensures |lens| <= MAX_CODES && HasRoom(lens) && forall i | 0 <= i < |lens| :: lens[i] <= MAX_BITS
  {
    hide Fits, HasRoom;
    NineHasRoom(lens);
  }

  lemma BuiltFor(table: seq<uint16>, lens: seq<nat>)
    requires |table| == TABLE_SIZE && Decodes(table, lens)
    ensures TableFor(table, lens)
  {
    hide Decodes, Fits;
  }

  /** The program that generates the fixed tables. */
  method BuildFixedTables(next: array<uint16>) returns (ok: bool, fixedLit: array<uint16>, fixedDist: array<uint16>)
    requires next.Length == MAX_CODES
    modifies next
    ensures fresh(fixedLit) && fresh(fixedDist)
    ensures ok && TableFor(fixedLit[..], FIXED_LIT) && TableFor(fixedDist[..], FIXED_DIST)
  {
    hide *;
    FixedCodesFit();
    FixedShort();
    ShortAccepted(FIXED_LIT);
    ShortAccepted(FIXED_DIST);
    fixedLit := new uint16[TABLE_SIZE];
    fixedDist := new uint16[TABLE_SIZE];
    ok := BuildTable(FIXED_LIT, next, fixedLit);
    BuiltFor(fixedLit[..], FIXED_LIT);
    if ok {
      ok := BuildTable(FIXED_DIST, next, fixedDist);
      BuiltFor(fixedDist[..], FIXED_DIST);
    }
  }
}