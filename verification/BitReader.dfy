/** The bit buffer of the inflater: elf_fetch_bits, and what its three variables mean. */
module BitReader {
  import opened Bits

  /** All the bits of the input as one number, the first bit lowest. */
  ghost function Word(input: seq<byte>): nat {
    if input == [] then 0 else input[0] + 256 * Word(input[1..])
  }

  /** The bits of the input from bit position pos on. */
  ghost function Rest(input: seq<byte>, pos: nat): nat {
    Shr(Word(input), pos)
  }

  /** The input byte to read next, and the bits that were read but not used yet. */
  datatype Buffer = Buffer(pin: nat, val: nat, bits: nat)

  /** The buffer stands for the unread input from bit position pos on. */
  ghost predicate Denotes(b: Buffer, input: seq<byte>, pos: nat) {
    && b.pin <= |input| && b.bits <= 63 && pos + b.bits == 8 * b.pin
    && b.val == Low(Rest(input, pos), b.bits)
  }

  lemma Shl8(x: nat)
    ensures Shl(x, 8) == 256 * x
  {
    assert Shl(x, 1) == 2 * x;
    assert Shl(x, 2) == 4 * x;
    assert Shl(x, 3) == 8 * x;
    assert Shl(x, 4) == 16 * x;
    assert Shl(x, 5) == 32 * x;
    assert Shl(x, 6) == 64 * x;
    assert Shl(x, 7) == 128 * x;
  }

  lemma Byte(x: byte, y: nat)
    ensures Low(x + 256 * y, 8) == x && Shr(x + 256 * y, 8) == y
  {
    Shl8(y);
    LowOfSum(x, y, 8);
  }

  lemma {:induction false} WordByte(input: seq<byte>, i: nat)
    requires i < |input|
    ensures Low(Rest(input, 8 * i), 8) == input[i]
    ensures Shr(Rest(input, 8 * i), 8) == Rest(input, 8 * (i + 1))
  {
    ShrShr(Word(input), 8 * i, 8);
    assert 8 * i + 8 == 8 * (i + 1);
    Byte(input[0], Word(input[1..]));
    if i > 0 {
      WordByte(input[1..], i - 1);
      ShrShr(Word(input), 8, 8 * (i - 1));
      assert 8 + 8 * (i - 1) == 8 * i;
    }
  }

  /** Using k of the held bits: val >>= k, bits -= k. */
  function Consume(b: Buffer, k: nat): Buffer
    requires k <= b.bits
  {
    Buffer(b.pin, Shr(b.val, k), b.bits - k)
  }

  lemma ConsumeDenotes(b: Buffer, k: nat, input: seq<byte>, pos: nat)
    requires Denotes(b, input, pos) && k <= b.bits
    ensures Denotes(Consume(b, k), input, pos + k)
  {
    LowSplit(Rest(input, pos), k, b.bits - k);
    assert k + (b.bits - k) == b.bits;
    ShrShr(Word(input), pos, k);
  }

  /** The held bits agree with the input as far as they go. */
  lemma PeekDenotes(b: Buffer, k: nat, input: seq<byte>, pos: nat)
    requires Denotes(b, input, pos) && k <= b.bits
    ensures Low(b.val, k) == Low(Rest(input, pos), k)
  {
    LowSplit(Rest(input, pos), k, b.bits - k);
    assert k + (b.bits - k) == b.bits;
  }

  /** Taking in n more bits above the ones held. */
  lemma RefillDenotes(b: Buffer, next: nat, n: nat, input: seq<byte>, pos: nat)
    requires Denotes(b, input, pos) && b.bits + 8 * n <= 63 && b.pin + n <= |input|
    requires next == Low(Rest(input, 8 * b.pin), 8 * n)
    ensures Denotes(Buffer(b.pin + n, b.val + Shl(next, b.bits), b.bits + 8 * n), input, pos)
  {
    ShrShr(Word(input), pos, b.bits);
    LowCat(Rest(input, pos), b.bits, 8 * n);
  }

  /** Adds one byte to the buffer. */
  method PushByte(b: Buffer, input: seq<byte>, ghost pos: nat) returns (b': Buffer)
    requires Denotes(b, input, pos) && b.bits <= 55 && b.pin < |input|
    ensures Denotes(b', input, pos) && b' == Buffer(b.pin + 1, b'.val, b.bits + 8)
  {
    WordByte(input, b.pin);
    RefillDenotes(b, input[b.pin], 1, input, pos);
    b' := Buffer(b.pin + 1, b.val + Shl(input[b.pin], b.bits), b.bits + 8);
  }

  /** Four bytes, the first one lowest. */
  lemma FourBytes(input: seq<byte>, i: nat)
    requires i + 4 <= |input|
    ensures input[i] + Shl(input[i + 1], 8) + Shl(input[i + 2], 16) + Shl(input[i + 3], 24)
      == Low(Rest(input, 8 * i), 32)
  {
    WordByte(input, i);
    WordByte(input, i + 1);
    WordByte(input, i + 2);
    WordByte(input, i + 3);
    var w := Rest(input, 8 * i);
    ShrShr(w, 8, 8);
    ShrShr(w, 16, 8);
    LowCat(w, 8, 8);
    LowCat(w, 16, 8);
    LowCat(w, 24, 8);
  }

  /** The input goes on long enough after pos for a refill: seven bits and four bytes. */
  predicate Ample(pos: nat, pinend: nat) { pos + 39 <= 8 * pinend }

  /** elf_fetch_bits: makes sure that at least 15 bits are held, and fails when four bytes are not left. */
  method FetchBits(b: Buffer, input: seq<byte>, pinend: nat, ghost pos: nat) returns (ok: bool, b': Buffer)
    requires Denotes(b, input, pos) && pinend <= |input|
    ensures Denotes(b', input, pos)
    ensures ok <==> b.bits >= 15 || b.pin + 4 <= pinend
    ensures Ample(pos, pinend) ==> ok
    ensures ok ==> b'.bits >= 15
    ensures b.bits >= 15 || !ok ==> b' == b
  {
    if b.bits >= 15 {
      return true, b;
    }
    if pinend < b.pin + 4 {
      return false, b;
    }
    var next := input[b.pin] + Shl(input[b.pin + 1], 8) + Shl(input[b.pin + 2], 16) + Shl(input[b.pin + 3], 24);
    FourBytes(input, b.pin);
    RefillDenotes(b, next, 4, input, pos);
    return true, Buffer(b.pin + 4, b.val + Shl(next, b.bits), b.bits + 32);
  }
}
