/** The hash-chained glyph cache of one font (fons__getGlyph, fontstash.h). */
module GlyphCache {
  const LUT_SIZE: nat := 0x100

  /** A cached glyph: its key, its place in the atlas, and the next glyph of its hash chain. */
  datatype Glyph = Glyph(codepoint: bv32, size: int, blur: int, index: int, x0: int, y0: int, x1: int, y1: int,
                         next: int)

  datatype Font = Font(glyphs: seq<Glyph>, lut: seq<int>)

  /** fons__hashint. */
  function HashInt(a: bv32): bv32 {
    var b := a + !(a << 15);
    var c := b ^ (b >> 10);
    var d := c + (c << 3);
    var e := d ^ (d >> 6);
    var f := e + !(e << 11);
    f ^ (f >> 16)
  }

  /** The remainder modulo the table size, taken with a mask. */
  function LowByte(a: bv32): bv8 {
    (a & 0xFF) as bv8
  }

  /** The hash chain that a code point belongs to. */
  function Bucket(codepoint: bv32): (b: nat)
    ensures b < LUT_SIZE
  {
    LowByte(HashInt(codepoint)) as nat
  }

  predicate HasKey(g: Glyph, codepoint: bv32, size: int, blur: int) {
    g.codepoint == codepoint && g.size == size && g.blur == blur
  }

  /** p is the last glyph before n in bucket b, or -1. */
  ghost predicate LastIn(glyphs: seq<Glyph>, b: nat, n: nat, p: int) {
    && -1 <= p < n <= |glyphs| && (p >= 0 ==> Bucket(glyphs[p].codepoint) == b)
    && forall k {:trigger glyphs[k]} :: p < k < n ==> Bucket(glyphs[k].codepoint) != b
  }

  ghost predicate NextOk(glyphs: seq<Glyph>, g: nat)
    requires g < |glyphs|
  {
    LastIn(glyphs, Bucket(glyphs[g].codepoint), g, glyphs[g].next)
  }

  /** Every bucket's entry is the last glyph in it, and every glyph links to the one before it in its bucket. */
  ghost predicate Linked(font: Font) {
    && |font.lut| == LUT_SIZE
    && (forall b: nat {:trigger font.lut[b]} :: b < LUT_SIZE ==> LastIn(font.glyphs, b, |font.glyphs|, font.lut[b]))
    && (forall g: nat {:trigger font.glyphs[g]} :: g < |font.glyphs| ==> NextOk(font.glyphs, g))
  }

  ghost predicate UniqueKeys(glyphs: seq<Glyph>) {
    forall i, j :: 0 <= i < j < |glyphs| ==> !HasKey(glyphs[i], glyphs[j].codepoint, glyphs[j].size, glyphs[j].blur)
  }

  ghost predicate CacheOk(font: Font) {
    Linked(font) && UniqueKeys(font.glyphs)
  }

  ghost predicate Descends(glyphs: seq<Glyph>) {
    forall g {:trigger glyphs[g]} :: 0 <= g < |glyphs| ==> -1 <= glyphs[g].next < g
  }

  /** The glyphs met by following the links from i. */
  ghost function Chain(glyphs: seq<Glyph>, i: int): seq<int>
    requires Descends(glyphs) && -1 <= i < |glyphs|
    decreases i + 1
  {
    if i == -1 then [] else [i] + Chain(glyphs, glyphs[i].next)
  }

  lemma LinkedDescends(font: Font)
    requires Linked(font)
    ensures Descends(font.glyphs)
  {
    hide Bucket;
  }

  ghost predicate Falling(c: seq<int>) {
    forall x, y :: 0 <= x < y < |c| ==> c[x] > c[y]
  }

  /** c lists the glyphs of bucket b up to i. */
  ghost predicate ListsBucket(glyphs: seq<Glyph>, b: nat, i: int, c: seq<int>) {
    && i < |glyphs|
    && forall k :: k in c <==> 0 <= k <= i && Bucket(glyphs[k].codepoint) == b
  }

  lemma FallingGrows(i: int, d: seq<int>)
    requires Falling(d) && forall k :: k in d ==> k < i
    ensures Falling([i] + d)
  {
    var c := [i] + d;
    forall x, y | 0 <= x < y < |c| ensures c[x] > c[y] {
      assert c[y] == d[y - 1] && d[y - 1] in d;
    }
  }

  lemma NoneFalling()
    ensures Falling([])
  {
  }

  lemma ListGrows(glyphs: seq<Glyph>, b: nat, i: nat, p: int, d: seq<int>)
    requires LastIn(glyphs, b, i, p) && i < |glyphs| && Bucket(glyphs[i].codepoint) == b
    requires ListsBucket(glyphs, b, p, d)
    ensures ListsBucket(glyphs, b, i, [i] + d)
  {
    hide Bucket;
    forall k ensures k in [i] + d <==> 0 <= k <= i && Bucket(glyphs[k].codepoint) == b {
      assert k in [i] + d <==> k == i || k in d;
    }
  }

  /** Following the links from i meets exactly the glyphs of its bucket up to i, in falling order. */
  lemma {:induction false} ChainIsBucket(font: Font, b: nat, i: int)
    requires Linked(font) && -1 <= i < |font.glyphs|
    requires i >= 0 ==> Bucket(font.glyphs[i].codepoint) == b
    ensures Descends(font.glyphs) && ListsBucket(font.glyphs, b, i, Chain(font.glyphs, i))
    ensures Falling(Chain(font.glyphs, i))
    decreases i + 1
  {
    hide Bucket, Falling;
    LinkedDescends(font);
    if i >= 0 {
      assert NextOk(font.glyphs, i);
      var p := font.glyphs[i].next;
      ChainIsBucket(font, b, p);
      var d := Chain(font.glyphs, p);
      ListGrows(font.glyphs, b, i, p, d);
      FallingGrows(i, d);
    } else {
      NoneFalling();
    }
  }

  /** Every live glyph is in the chain of its own bucket, once, and in no other. */
  lemma ChainsReachEachOnce(font: Font, b: nat, k: nat)
    requires Linked(font) && b < LUT_SIZE && k < |font.glyphs|
    ensures Descends(font.glyphs) && -1 <= font.lut[b] < |font.glyphs|
    ensures k in Chain(font.glyphs, font.lut[b]) <==> Bucket(font.glyphs[k].codepoint) == b
    ensures Falling(Chain(font.glyphs, font.lut[b]))
  {
    hide Bucket, Chain, Falling;
    assert LastIn(font.glyphs, b, |font.glyphs|, font.lut[b]);
    ChainIsBucket(font, b, font.lut[b]);
  }

  lemma HeadOk(font: Font, b: nat)
    requires Linked(font) && b < LUT_SIZE
    ensures |font.lut| == LUT_SIZE && LastIn(font.glyphs, b, |font.glyphs|, font.lut[b])
  {
  }

  lemma LinkOk(font: Font, g: nat)
    requires Linked(font) && g < |font.glyphs|
    ensures NextOk(font.glyphs, g)
  {
  }

  lemma LastIsLast(glyphs: seq<Glyph>, b: nat, n: nat)
    requires n < |glyphs| && Bucket(glyphs[n].codepoint) == b
    ensures LastIn(glyphs, b, n + 1, n)
  {
  }

  lemma KeyFindsOne(font: Font, i: nat, codepoint: bv32, size: int, blur: int)
    requires CacheOk(font) && i < |font.glyphs| && HasKey(font.glyphs[i], codepoint, size, blur)
    ensures forall k | 0 <= k < |font.glyphs| :: HasKey(font.glyphs[k], codepoint, size, blur) <==> k == i
  {
    hide Linked;
    forall k | 0 <= k < |font.glyphs|
      ensures HasKey(font.glyphs[k], codepoint, size, blur) <==> k == i
    {
      if k < i {
        assert !HasKey(font.glyphs[k], codepoint, size, blur);
      } else if k > i {
        assert !HasKey(font.glyphs[i], font.glyphs[k].codepoint, font.glyphs[k].size, font.glyphs[k].blur);
      }
    }
  }

  /** Looking a key up by its chain finds what a scan of all the glyphs would: the one glyph with the key, if any. */
  method Find(font: Font, codepoint: bv32, size: int, blur: int) returns (i: int)
    requires CacheOk(font)
    ensures -1 <= i < |font.glyphs|
    ensures i == -1 <==> forall k :: 0 <= k < |font.glyphs| ==> !HasKey(font.glyphs[k], codepoint, size, blur)
    ensures i != -1 ==> forall k | 0 <= k < |font.glyphs| :: HasKey(font.glyphs[k], codepoint, size, blur) <==> k == i
  {
    hide Bucket, Linked, UniqueKeys;
    var h := Bucket(codepoint);
    HeadOk(font, h);
    i := font.lut[h];
    while i != -1
      invariant -1 <= i < |font.glyphs|
      invariant i >= 0 ==> Bucket(font.glyphs[i].codepoint) == h
      invariant forall k :: i < k < |font.glyphs| ==> !HasKey(font.glyphs[k], codepoint, size, blur)
      decreases i + 1
    {
      if HasKey(font.glyphs[i], codepoint, size, blur) {
        KeyFindsOne(font, i, codepoint, size, blur);
        return i;
      }
      LinkOk(font, i);
      i := font.glyphs[i].next;
    }
  }

  /** The font after a new glyph was put at the head of its chain. */
  function Insert(font: Font, g: Glyph): Font
    requires |font.lut| == LUT_SIZE
  {
    var h := Bucket(g.codepoint);
    Font(font.glyphs + [g.(next := font.lut[h])], font.lut[h := |font.glyphs|])
  }

  lemma LastInGrows(glyphs: seq<Glyph>, g: Glyph, b: nat, n: nat, p: int)
    requires LastIn(glyphs, b, n, p)
    ensures LastIn(glyphs + [g], b, n, p)
    ensures n == |glyphs| && Bucket(g.codepoint) != b ==> LastIn(glyphs + [g], b, n + 1, p)
  {
    hide Bucket;
  }

  lemma InsertLinks(font: Font, g: Glyph)
    requires Linked(font)
    ensures Linked(Insert(font, g))
  {
    hide Bucket, LastIn;
    var h := Bucket(g.codepoint);
    var g' := g.(next := font.lut[h]);
    var font' := Insert(font, g);
    var n := |font.glyphs|;
    assert font'.glyphs == font.glyphs + [g'] && font'.lut == font.lut[h := n];
    forall b: nat | b < LUT_SIZE ensures LastIn(font'.glyphs, b, n + 1, font'.lut[b]) {
      if b == h {
        LastIsLast(font'.glyphs, h, n);
      } else {
        LastInGrows(font.glyphs, g', b, n, font.lut[b]);
      }
    }
    forall k: nat | k < n + 1 ensures NextOk(font'.glyphs, k) {
      if k == n {
        LastInGrows(font.glyphs, g', h, n, font.lut[h]);
      } else {
        assert NextOk(font.glyphs, k);
        LastInGrows(font.glyphs, g', Bucket(font.glyphs[k].codepoint), k, font.glyphs[k].next);
      }
    }
  }

  /** A glyph with a new key keeps the cache in order. */
  lemma InsertKeeps(font: Font, g: Glyph)
    requires CacheOk(font)
    requires forall k :: 0 <= k < |font.glyphs| ==> !HasKey(font.glyphs[k], g.codepoint, g.size, g.blur)
    ensures CacheOk(Insert(font, g))
  {
    hide Linked;
    HeadOk(font, 0);
    InsertLinks(font, g);
  }

  /** The font after a reset. */
  function Cleared(): Font {
    Font([], seq(LUT_SIZE, i => -1))
  }

  lemma ClearedOk()
    ensures CacheOk(Cleared())
  {
  }
}
