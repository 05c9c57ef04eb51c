/** A zlib stream for every byte string, in stored blocks, and that the inflater gives the string back. */
module StoredStream {
  import opened Adler
  import opened BitReader
  import opened Bits
  import opened Deflate
  import opened Inflate
  import opened Wrappers

  const MOST: nat := 0xffff

  /** A stored block, from a byte boundary. */
  function StoredBlock(data: seq<byte>, last: bool): (b: seq<byte>)
    requires |data| <= MOST
    ensures |b| == 5 + |data| && b[0] == (if last then 1 else 0) && b[5..] == data
    ensures Little16(b[1], b[2]) == |data| && Little16(b[3], b[4]) == MOST - |data|
  {
    var n := |data|;
    var m := MOST - n;
    [if last then 1 else 0, n % 256, n / 256, m % 256, m / 256] + data
  }

  function StoredBlocks(data: seq<byte>): (b: seq<byte>)
    ensures |b| >= 5
    decreases |data|
  {
    if |data| <= MOST then StoredBlock(data, true)
    else StoredBlock(data[..MOST], false) + StoredBlocks(data[MOST..])
  }

  /** The check value, most significant byte first. */
  function CheckBytes(c: nat): (b: seq<byte>)
    requires c < UINT
    ensures |b| == 4 && BigEndian(b) == c
  {
    var hi, lo := c / 0x1_0000, c % 0x1_0000;
    Bytes2(hi);
    Bytes2(lo);
    [hi / 256, hi % 256, lo / 256, lo % 256]
  }

  lemma Bytes2(x: nat)
    requires x < 0x1_0000
    ensures x / 256 < 256 && x / 256 * 256 + x % 256 == x
  {
  }

  lemma ChecksumFits(data: seq<byte>)
    ensures Checksum(data) < UINT
  {
    hide Sums;
  }

  /** The stream: a header for a window of 32K, the blocks, and the check value. */
  function Stream(data: seq<byte>): (s: seq<byte>)
    ensures |s| == 2 + |StoredBlocks(data)| + 4
  {
    ChecksumFits(data);
    [0x78, 0x01] + StoredBlocks(data) + CheckBytes(Checksum(data))
  }

  // ---- Decoding

  /** The three bits of the block header, in a byte that holds nothing else. */
  lemma HeaderBits(v: nat, h: nat)
    requires Low(v, 8) == h < 2
    ensures Low(v, 1) == h && Low(Shr(v, 1), 2) == 0
  {
    SmallBits(h);
    hide Low, Shr;
    LowSplit(v, 3, 5);
    LowSplit(v, 1, 2);
    LowSplit(v, 1, 7);
    assert 3 + 5 == 8 && 1 + 2 == 3 && 1 + 7 == 8;
  }

  lemma SmallBits(h: nat)
    requires h < 2
    ensures Low(h, 1) == h && Low(h, 3) == h && Shr(h, 1) == 0
  {
    assert h == 0 || h == 1;
  }

  lemma BlockStarts(input: seq<byte>, i: nat, out: seq<byte>)
    requires i < |input| && input[i] < 2
    ensures var w, s := Word(input), Deflate.State(8 * i, out);
      TypeAt(w, s) == 0 && (LastAt(w, s) <==> input[i] == 1)
  {
    WordByte(input, i);
    ShrShr(Word(input), 8 * i, 1);
    hide Low, Shr, Word;
    HeaderBits(Rest(input, 8 * i), input[i]);
  }

  /** The parts of a stored block in the input. */
  lemma BlockBytes(input: seq<byte>, i: nat, data: seq<byte>, last: bool)
    requires |data| <= MOST && i + 5 + |data| <= |input| && input[i..i + 5 + |data|] == StoredBlock(data, last)
    ensures input[i] == (if last then 1 else 0) && input[i + 5..i + 5 + |data|] == data
    ensures Little16(input[i + 1], input[i + 2]) == |data| && Little16(input[i + 3], input[i + 4]) == MOST - |data|
  {
    var b := StoredBlock(data, last);
    hide StoredBlock, Little16;
    assert input[i..i + 5 + |data|][5..] == input[i + 5..i + 5 + |data|];
    assert b[0] == input[i] && b[1] == input[i + 1] && b[2] == input[i + 2];
    assert b[3] == input[i + 3] && b[4] == input[i + 4];
  }

  /** A stored block at byte i decodes to its data. */
  lemma BlockDecodes(input: seq<byte>, i: nat, data: seq<byte>, last: bool, out: seq<byte>, end: nat)
    requires |data| <= MOST && i + 5 + |data| <= |input| && input[i..i + 5 + |data|] == StoredBlock(data, last)
    requires 8 * (i + 5 + |data|) <= end
    ensures var w, s := Word(input), Deflate.State(8 * i, out);
      TypeAt(w, s) == 0 && (LastAt(w, s) <==> last)
      && BlockAt(w, s, end) == Some(Deflate.State(8 * (i + 5 + |data|), out + data))
  {
    hide *;
    BlockBytes(input, i, data, last);
    assert input[i] < 2;
    BlockStarts(input, i, out);
    StoredHere(input, i, |data|, out, end);
    TypeZero(Word(input), Deflate.State(8 * i, out), end);
  }

  lemma StoredHere(input: seq<byte>, i: nat, n: nat, out: seq<byte>, end: nat)
    requires n <= MOST && i + 5 + n <= |input| && 8 * (i + 5 + n) <= end
    requires Little16(input[i + 1], input[i + 2]) == n && Little16(input[i + 3], input[i + 4]) == MOST - n
    ensures Stored(Word(input), Deflate.State(8 * i + 3, out), end)
      == Some(Deflate.State(8 * (i + 5 + n), out + input[i + 5..i + 5 + n]))
  {
    var s := Deflate.State(8 * i + 3, out);
    Aligned(i);
    hide *;
    StoredSays(input, s, end, i + 1, n, MOST - n);
  }

  lemma Aligned(i: nat)
    ensures ByteAligned(8 * i + 3) == 8 * (i + 1)
  {
  }

  lemma TypeZero(w: nat, s: Deflate.State, end: nat)
    requires TypeAt(w, s) == 0
    ensures BlockAt(w, s, end) == Stored(w, Deflate.State(s.pos + 3, s.out), end)
  {
    hide Stored, TypeAt;
  }

  /** One block on. */
  lemma BlocksStep(w: nat, s: Deflate.State, end: nat)
    requires s.pos + 3 <= end && BlockAt(w, s, end).Some? && TypeAt(w, s) == 0
    ensures LastAt(w, s) ==> Blocks(w, s, end) == BlockAt(w, s, end) && AllHandled(w, s, end) && LongEnd(w, s, end)
    ensures !LastAt(w, s) ==> var t := BlockAt(w, s, end).value;
      Blocks(w, s, end) == Blocks(w, t, end)
      && (AllHandled(w, s, end) <==> AllHandled(w, t, end)) && (LongEnd(w, s, end) <==> LongEnd(w, t, end))
  {
    hide Block, Low, Shr, Handled, SevenBits;
  }

  lemma {:induction false} BlocksDecode(input: seq<byte>, i: nat, data: seq<byte>, out: seq<byte>, end: nat)
    requires i + |StoredBlocks(data)| <= |input| && input[i..i + |StoredBlocks(data)|] == StoredBlocks(data)
    requires end == 8 * (i + |StoredBlocks(data)|)
    ensures var w, s := Word(input), Deflate.State(8 * i, out);
      Blocks(w, s, end) == Some(Deflate.State(end, out + data)) && AllHandled(w, s, end) && LongEnd(w, s, end)
    decreases |data|
  {
    hide Blocks, AllHandled, LongEnd, BlockAt, TypeAt, LastAt, Word, StoredBlock;
    var w, s := Word(input), Deflate.State(8 * i, out);
    if |data| <= MOST {
      BlockDecodes(input, i, data, true, out, end);
      BlocksStep(w, s, end);
    } else {
      var a, b := data[..MOST], data[MOST..];
      var j := i + 5 + MOST;
      TwoParts(input, i, StoredBlock(a, false), StoredBlocks(b));
      hide StoredBlocks;
      BlockDecodes(input, i, a, false, out, end);
      BlocksStep(w, s, end);
      BlocksDecode(input, j, b, out + a, end);
      assert out + a + b == out + data;
    }
  }

  lemma TwoParts(input: seq<byte>, i: nat, a: seq<byte>, b: seq<byte>)
    requires i + |a| + |b| <= |input| && input[i..i + |a| + |b|] == a + b
    ensures input[i..i + |a|] == a && input[i + |a|..i + |a| + |b|] == b
  {
    var s := input[i..i + |a| + |b|];
    assert s[..|a|] == a && s[|a|..] == b;
  }

  lemma ThreeParts(input: seq<byte>, a: seq<byte>, b: seq<byte>, c: seq<byte>)
    requires |a| + |b| + |c| <= |input| && input[..|a| + |b| + |c|] == a + b + c
    ensures input[..|a|] == a && input[|a|..|a| + |b|] == b && input[|a| + |b|..|a| + |b| + |c|] == c
  {
    var s := input[..|a| + |b| + |c|];
    assert s[..|a|] == a && s[|a|..|a| + |b|] == b && s[|a| + |b|..] == c;
  }

  lemma StreamIs(data: seq<byte>)
    ensures Checksum(data) < UINT
    ensures Stream(data) == [0x78, 0x01] + StoredBlocks(data) + CheckBytes(Checksum(data))
  {
    ChecksumFits(data);
    hide StoredBlocks, CheckBytes, Checksum;
  }

  /** Where the stream's parts are in the input. */
  lemma StreamBytes(input: seq<byte>, data: seq<byte>)
    requires var n := |Stream(data)|; n <= |input| && input[..n] == Stream(data)
    ensures var n := |Stream(data)|; var m := |StoredBlocks(data)|;
      n == 2 + m + 4 && input[0] == 0x78 && input[1] == 0x01
      && input[2..2 + m] == StoredBlocks(data) && BigEndian(input[n - 4..n]) == Checksum(data)
  {
    hide *;
    StreamIs(data);
    var head: seq<byte> := [0x78, 0x01];
    var m := |StoredBlocks(data)|;
    var c := CheckBytes(Checksum(data));
    ThreeParts(input, head, StoredBlocks(data), c);
    assert input[..2][0] == head[0] && input[..2][1] == head[1];
    assert |head| + m + |c| == |Stream(data)|;
  }

  lemma ZlibIs(w: nat, n: nat, data: seq<byte>)
    requires n >= 6 && Low(w, 8) == 0x78 && Low(Shr(w, 8), 8) == 1
    requires Blocks(w, Deflate.State(16, []), 8 * (n - 4)) == Some(Deflate.State(8 * (n - 4), data))
    ensures Zlib(w, n) == Some(data)
  {
    hide Blocks, Low, Shr;
  }

  lemma IsHandled(w: nat, n: nat, size: nat)
    requires 4 <= n && AllHandled(w, Deflate.State(16, []), 8 * (n - 4))
    requires LongEnd(w, Deflate.State(16, []), 8 * (n - 4))
    ensures ZlibHandled(w, n) && (n < UINT && size < UINT ==> Reachable(w, n, size))
  {
    hide LongEnd, AllHandled;
  }

  lemma {:induction false} StreamLonger(data: seq<byte>)
    ensures |data| < |StoredBlocks(data)| && |data| < |Stream(data)| && 6 <= |Stream(data)|
    decreases |data|
  {
    if |data| > MOST {
      StreamLonger(data[MOST..]);
    }
    hide StoredBlocks;
  }

  /** The stream of a byte string means that string, carries its check value, and asks for nothing that the inflater
      does not handle: by the contract of InflateAndVerify every byte string comes back from its stream. */
  lemma StreamDecodes(input: seq<byte>, data: seq<byte>)
    requires var n := |Stream(data)|; n <= |input| && input[..n] == Stream(data)
    ensures var n := |Stream(data)|;
      && Zlib(Word(input), n) == Some(data) && ZlibHandled(Word(input), n)
      && (n < UINT ==> Reachable(Word(input), n, |data|))
      && n >= 4 && BigEndian(input[n - 4..n]) == Checksum(data)
  {
    hide *;
    var n := |Stream(data)|;
    StreamBytes(input, data);
    StreamLonger(data);
    HeaderBytes(input);
    BlocksDecode(input, 2, data, [], 8 * (n - 4));
    assert [] + data == data;
    ZlibIs(Word(input), n, data);
    IsHandled(Word(input), n, |data|);
  }
}
