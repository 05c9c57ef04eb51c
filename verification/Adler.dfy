/** elf_zlib_verify_checksum: Adler-32 with the modulo operations put off for up to 5552 bytes. */
module Adler {
  import opened Bits

  const BASE: nat := 65521
  const NMAX: nat := 5552

  /** The sums of section 2.2 of RFC 1950, reduced after every byte. */
  function Sums(data: seq<byte>): (r: (nat, nat))
    ensures r.0 < BASE && r.1 < BASE
  {
    if data == [] then (1, 0)
    else
      var (a, b) := Sums(data[..|data| - 1]);
      var a' := (a + data[|data| - 1]) % BASE;
      (a', (b + a') % BASE)
  }

  /** The check value: s2 * 65536 + s1. */
  function Checksum(data: seq<byte>): nat {
    Sums(data).1 * 0x1_0000 + Sums(data).0
  }

  /** s1 and s2 agree with the reduced sums, and have grown for k bytes since they were below BASE. */
  ghost predicate Pending(data: seq<byte>, s1: int, s2: int, k: nat) {
    s1 >= 0 && s2 >= 0 && s1 % BASE == Sums(data).0 && s2 % BASE == Sums(data).1 && Bounded(s1, s2, k)
  }

  predicate Bounded(s1: int, s2: int, k: nat) {
    s1 <= BASE - 1 + 255 * k && 2 * s2 <= 2 * (BASE - 1) * (k + 1) + 255 * k * (k + 1)
  }

  lemma AddMod(x: int, y: int, z: int)
    requires x >= 0 && y >= 0 && z >= 0 && x % BASE == z % BASE
    ensures (x + y) % BASE == (z + y) % BASE
  {
    var q := x / BASE - z / BASE;
    assert x + y == z + y + q * BASE;
  }

  lemma Growth(k: nat, s1: int, s2: int, x: byte)
    requires Bounded(s1, s2, k)
    ensures Bounded(s1 + x, s2 + (s1 + x), k + 1)
  {
    assert 255 * (k + 1) * (k + 2) == 255 * k * (k + 1) + 2 * (255 * (k + 1));
  }

  /** Sums that have grown for at most NMAX bytes fit in 32 bits. */
  lemma NoOverflow(k: nat, s1: int, s2: int)
    requires k <= NMAX && Bounded(s1, s2, k)
    ensures s1 < 0x1_0000_0000 && s2 < 0x1_0000_0000
  {
    hide Bounded;
    BoundedMost(k, s1, s2);
    MulMono(k, NMAX, k + 1);
    MulMono(k + 1, NMAX + 1, NMAX);
  }

  lemma BoundedMost(k: nat, s1: int, s2: int)
    requires k <= NMAX && Bounded(s1, s2, k)
    ensures s1 <= BASE - 1 + 255 * k && 2 * s2 <= 2 * (BASE - 1) * (k + 1) + 255 * (k * (k + 1))
  {
    assert 255 * k * (k + 1) == 255 * (k * (k + 1)) by { Regroup(255, k, k + 1); }
  }

  lemma Regroup(a: nat, b: nat, c: nat)
    ensures a * b * c == a * (b * c)
  {
  }

  lemma MulMono(a: nat, b: nat, c: nat)
    requires a <= b
    ensures a * c <= b * c && c * a <= c * b
  {
  }

  /** One byte added to unreduced sums, and to reduced ones. */
  lemma ModStep(s1: int, s2: int, a: int, b: int, x: int)
    requires s1 >= 0 && s2 >= 0 && a >= 0 && b >= 0 && x >= 0 && s1 % BASE == a % BASE && s2 % BASE == b % BASE
    ensures (s1 + x) % BASE == (a + x) % BASE
    ensures (s2 + (s1 + x)) % BASE == (b + (a + x) % BASE) % BASE
  {
    AddMod(s1, x, a);
    AddMod(s2, s1 + x, b);
    AddMod(s1 + x, b, (a + x) % BASE);
  }

  lemma SumsStep(data: seq<byte>, x: byte)
    ensures var (a, b) := Sums(data);
      Sums(data + [x]) == ((a + x) % BASE, (b + (a + x) % BASE) % BASE)
  {
    assert (data + [x])[..|data|] == data;
  }

  lemma AddByte(data: seq<byte>, x: byte, s1: int, s2: int, k: nat)
    requires Pending(data, s1, s2, k) && k < NMAX
    ensures Pending(data + [x], s1 + x, s2 + (s1 + x), k + 1)
    ensures 0 <= s1 + x < 0x1_0000_0000 && 0 <= s2 + (s1 + x) < 0x1_0000_0000
  {
    var (a, b) := Sums(data);
    SumsStep(data, x);
    hide Sums, Bounded;
    ModStep(s1, s2, a, b, x);
    Growth(k, s1, s2, x);
    NoOverflow(k + 1, s1 + x, s2 + (s1 + x));
  }

  /** Reduced sums start a new run of bytes. */
  lemma Reduce(data: seq<byte>, s1: int, s2: int, k: nat)
    requires Pending(data, s1, s2, k)
    ensures Pending(data, s1 % BASE, s2 % BASE, 0)
    ensures s1 % BASE == Sums(data).0 && s2 % BASE == Sums(data).1
  {
    hide Sums;
    ModSmall(s1);
    ModSmall(s2);
  }

  lemma ModSmall(x: int)
    ensures 0 <= x % BASE < BASE && (x % BASE) % BASE == x % BASE
  {
  }

  /** Adds n bytes without reducing the sums. */
  method AddBytes(data: seq<byte>, p: nat, n: nat, s1: uint32, s2: uint32, ghost k: nat)
    returns (s1': uint32, s2': uint32)
    requires p + n <= |data| && k + n <= NMAX && Pending(data[..p], s1, s2, k)
    ensures Pending(data[..p + n], s1', s2', k + n)
  {
    hide Pending;
    s1', s2' := s1, s2;
    for i: nat := 0 to n
      invariant Pending(data[..p + i], s1', s2', k + i)
    {
      AddByte(data[..p + i], data[p + i], s1', s2', k + i);
      assert data[..p + i] + [data[p + i]] == data[..p + (i + 1)];
      s1' := s1' + data[p + i];
      s2' := s2' + s1';
    }
  }

  /** The checksum loop: whole runs of NMAX bytes, then runs of 16, then single bytes. */
  method ComputeSums(data: seq<byte>) returns (s1: uint32, s2: uint32)
    ensures (s1, s2) == Sums(data)
  {
    s1, s2 := 1, 0;
    var p, hsz := 0, |data|;
    assert data[..0] == [];
    assert Pending(data[..0], s1, s2, 0);
    hide Pending, Sums;
    while hsz >= NMAX
      invariant 0 <= hsz && p + hsz == |data| && Pending(data[..p], s1, s2, 0)
    {
      s1, s2 := AddBytes(data, p, NMAX, s1, s2, 0);
      p, hsz := p + NMAX, hsz - NMAX;
      Reduce(data[..p], s1, s2, NMAX);
      s1, s2 := s1 % BASE, s2 % BASE;
    }
    ghost var k := 0;
    while hsz >= 16
      invariant 0 <= hsz && 0 <= k && k + hsz < NMAX && p + hsz == |data| && Pending(data[..p], s1, s2, k)
    {
      s1, s2 := AddBytes(data, p, 16, s1, s2, k);
      p, hsz, k := p + 16, hsz - 16, k + 16;
    }
    s1, s2 := AddBytes(data, p, hsz, s1, s2, k);
    assert data[..p + hsz] == data;
    Reduce(data, s1, s2, k + hsz);
    s1, s2 := s1 % BASE, s2 % BASE;
  }

  /** Four bytes, the first one highest. */
  function BigEndian(b: seq<byte>): uint32
    requires |b| == 4
  {
    var n: seq<nat> := [b[0], b[1], b[2], b[3]];
    ((n[0] * 256 + n[1]) * 256 + n[2]) * 256 + n[3]
  }

  /** elf_zlib_verify_checksum: succeeds exactly when the four bytes are the checksum of the data. */
  method VerifyChecksum(checkbytes: seq<byte>, data: seq<byte>) returns (ok: bool)
    requires |checkbytes| == 4
    ensures ok <==> BigEndian(checkbytes) == Checksum(data)
  {
    var cksum: uint32 := BigEndian(checkbytes);
    var s1, s2 := ComputeSums(data);
    ok := (s2 * 0x1_0000) % 0x1_0000_0000 + s1 == cksum;
  }
}
