/** The font stash: glyph caches, atlas, texture and dirty rectangle together (fontstash.h).
    Every operation keeps Valid, so it holds over every run. The application takes part in two ways: it has a
    renderer, which is told what to upload, and an error callback, which may expand or reset the atlas in the
    middle of the creation of a glyph. */
module FontStash {
  import opened Bits
  import opened Skyline
  import opened Packing = Atlas
  import opened Response
  import opened GlyphCache
  import opened Texture
  import opened Blur

  function Box(g: Glyph): Rect { Rect(g.x0, g.y0, g.x1 - g.x0, g.y1 - g.y0) }

  ghost predicate CachesOk(fonts: seq<Font>) {
    forall f :: 0 <= f < |fonts| ==> CacheOk(fonts[f])
  }

  /** Every live glyph has a rectangle of the atlas. */
  ghost predicate Placed(fonts: seq<Font>, rects: seq<Rect>) {
    forall f, i :: 0 <= f < |fonts| && 0 <= i < |fonts[f].glyphs| ==> Box(fonts[f].glyphs[i]) in rects
  }

  /** The rectangles of different live glyphs, of one font or of two, do not overlap. */
  ghost predicate GlyphsApart(fonts: seq<Font>) {
    forall f, i, f', i' ::
      (0 <= f < |fonts| && 0 <= i < |fonts[f].glyphs| && 0 <= f' < |fonts| && 0 <= i' < |fonts[f'].glyphs|
       && (f != f' || i != i')) ==> Apart(Box(fonts[f].glyphs[i]), Box(fonts[f'].glyphs[i']))
  }

  ghost predicate GlyphsOk(fonts: seq<Font>, rects: seq<Rect>) {
    CachesOk(fonts) && Placed(fonts, rects) && GlyphsApart(fonts)
  }

  /** No live glyph overlaps r. */
  ghost predicate Unused(fonts: seq<Font>, r: Rect) {
    forall f, i :: 0 <= f < |fonts| && 0 <= i < |fonts[f].glyphs| ==> Apart(Box(fonts[f].glyphs[i]), r)
  }

  /** A rectangle that was just handed out is apart from every glyph's. */
  lemma NewIsUnused(fonts: seq<Font>, rects: seq<Rect>, r: Rect, s: seq<Node>, w: int, h: int)
    requires GlyphsOk(fonts, rects) && Packed(rects + [r], s, w, h)
    ensures Unused(fonts, r) && GlyphsOk(fonts, rects + [r])
    ensures Inside(r, w, h) && Under(r, s)
  {
    hide CachesOk, GlyphsApart, Apart, Inside, Under, Tiled, Heights, Box;
    var all := rects + [r];
    assert all[|rects|] == r;
    forall f, i | 0 <= f < |fonts| && 0 <= i < |fonts[f].glyphs|
      ensures Apart(Box(fonts[f].glyphs[i]), r) && Box(fonts[f].glyphs[i]) in all
    {
      var j :| 0 <= j < |rects| && rects[j] == Box(fonts[f].glyphs[i]);
      assert all[j] == rects[j];
    }
  }

  lemma ApartFlips(a: Rect, b: Rect)
    requires Apart(a, b)
    ensures Apart(b, a)
  {
  }

  ghost predicate HasGlyph(font: Font, codepoint: bv32, size: int, blur: int) {
    exists k :: 0 <= k < |font.glyphs| && HasKey(font.glyphs[k], codepoint, size, blur)
  }

  /** A glyph with a new key in an unused rectangle keeps all the caches in order. */
  lemma InsertGlyphOk(fonts: seq<Font>, f: nat, g: Glyph, rects: seq<Rect>)
    requires GlyphsOk(fonts, rects) && f < |fonts| && Box(g) in rects && Unused(fonts, Box(g))
    requires !HasGlyph(fonts[f], g.codepoint, g.size, g.blur) && |fonts[f].lut| == LUT_SIZE
    ensures GlyphsOk(fonts[f := Insert(fonts[f], g)], rects)
  {
    hide CacheOk, Apart, Insert;
    var font' := Insert(fonts[f], g);
    var fonts' := fonts[f := font'];
    var n := |fonts[f].glyphs|;
    InsertKeeps(fonts[f], g);
    InsertedLast(fonts[f], g);
    forall k, i | 0 <= k < |fonts'| && 0 <= i < |fonts'[k].glyphs|
      ensures Carried(fonts, fonts', f, n, g, k, i)
    {
    }
    InsertApart(fonts, fonts', f, n, g);
  }

  /** Glyph i of font k is the new glyph g, n of font f, or it was there before. */
  ghost predicate Carried(fonts: seq<Font>, fonts': seq<Font>, f: nat, n: nat, g: Glyph, k: int, i: int) {
    && 0 <= k < |fonts'| == |fonts| && 0 <= i < |fonts'[k].glyphs|
    && if k == f && i == n then Box(fonts'[k].glyphs[i]) == Box(g)
       else i < |fonts[k].glyphs| && fonts'[k].glyphs[i] == fonts[k].glyphs[i]
  }

  lemma InsertApart(fonts: seq<Font>, fonts': seq<Font>, f: nat, n: nat, g: Glyph)
    requires |fonts'| == |fonts| && f < |fonts| && GlyphsApart(fonts) && Unused(fonts, Box(g))
    requires forall k, i :: 0 <= k < |fonts'| && 0 <= i < |fonts'[k].glyphs| ==> Carried(fonts, fonts', f, n, g, k, i)
    ensures GlyphsApart(fonts')
  {
    hide Apart;
    forall k, i, k', i' |
      0 <= k < |fonts'| && 0 <= i < |fonts'[k].glyphs| && 0 <= k' < |fonts'| && 0 <= i' < |fonts'[k'].glyphs|
      && (k != k' || i != i')
      ensures Apart(Box(fonts'[k].glyphs[i]), Box(fonts'[k'].glyphs[i']))
    {
      assert Carried(fonts, fonts', f, n, g, k, i);
      assert Carried(fonts, fonts', f, n, g, k', i');
      if k == f && i == n {
        ApartFlips(Box(fonts[k'].glyphs[i']), Box(g));
      }
    }
  }

  lemma ClearedFontsOk(fonts: seq<Font>, rects: seq<Rect>)
    requires forall f :: 0 <= f < |fonts| ==> fonts[f] == Cleared()
    ensures GlyphsOk(fonts, rects)
  {
    hide CacheOk;
    ClearedOk();
  }

  // -------------------------------------------------------------- renderer

  /** The renderer's texture: it is cleared when it is created or resized, and takes the texels of a rectangle. */
  class Renderer {
    var copy: Rows

    constructor (w: nat, h: nat)
      ensures copy == Blank(w, h)
    {
      copy := Blank(w, h);
    }

    method Resize(w: nat, h: nat)
      modifies this
      ensures copy == Blank(w, h)
    {
      copy := Blank(w, h);
    }

    method Update(d: Dirty, t: Rows)
      modifies this
      ensures copy == Uploaded(old(copy), t, d)
    {
      copy := Uploaded(copy, t, d);
    }
  }

  lemma {:induction false} AtBounded(s: seq<Node>, m: int)
    requires 0 <= m && forall i :: 0 <= i < |s| ==> s[i].y <= m
    ensures forall c :: At(s, c) <= m
  {
    if s != [] {
      assert forall i :: 0 <= i < |s[1..]| ==> s[1..][i] == s[i + 1];
      AtBounded(s[1..], m);
      forall c ensures At(s, c) <= m {
        assert At(s[1..], c) <= m;
      }
    }
  }

  class Stash {
    var width: int
    var height: int
    const atlas: Packing.Atlas
    const renderer: Renderer
    var tex: Rows
    var dirty: Dirty
    var fonts: seq<Font>

    ghost predicate Valid()
      reads this, atlas, renderer
    {
      && atlas.Valid() && width == atlas.width && height == atlas.height
      && TextureOk(tex, renderer.copy, dirty, atlas.nodes, width, height)
      && GlyphsOk(fonts, atlas.rects)
    }

    /** fonsCreateInternal. */
    constructor (w: int, h: int)
      requires 0 < w <= MAX_SIZE && 0 < h <= MAX_SIZE
      ensures Valid() && width == w && height == h && fonts == []
      ensures fresh(atlas) && fresh(renderer) && Here() == Room(ResetNodes(w, h), w, h)
      ensures if w >= 2 && h > 2
        then atlas.rects == [Rect(0, 0, 2, 2)] && Whitened(Blank(w, h), tex, Rect(0, 0, 2, 2), w, h)
        else atlas.rects == [] && tex == Blank(w, h)
    {
      width, height, fonts := w, h, [];
      atlas := new Packing.Atlas(w, h);
      renderer := new Renderer(w, h);
      tex, dirty := Blank(w, h), Clean(w, h);
      new;
      BlankOk(atlas.nodes, w, h);
      AddCorner();
    }

    lemma ValidShape()
      requires Valid()
      ensures Shape(tex, width, height)
    {
    }

    lemma ValidCache(f: nat)
      requires Valid() && f < |fonts|
      ensures CacheOk(fonts[f])
    {
      hide CacheOk, TextureOk;
    }

    /** The space of the atlas. */
    ghost function Here(): Room
      reads this, atlas
    {
      Room(atlas.nodes, width, height)
    }

    /** There is a place in the atlas that its search would take. */
    ghost predicate HasSpace(w: int, h: int)
      requires w > 0
      reads this, atlas
    {
      SpaceIn(Here(), w, h)
    }

    lemma SpaceHere(w: int, h: int)
      requires w > 0
      ensures Here() == Room(atlas.nodes, width, height)
      ensures HasSpace(w, h) <==> SpaceIn(Here(), w, h)
    {
    }

    /** Take a rectangle of the atlas. What it covers is blank and belongs to no glyph. */
    method Allocate(w: int, h: int) returns (ok: bool, x: int, y: int)
      requires Valid() && w > 0 && h > 0
      modifies atlas
      ensures Valid() && atlas.width == old(atlas.width) && atlas.height == old(atlas.height)
      ensures ok <==> old(HasSpace(w, h))
      ensures ok ==> atlas.rects == old(atlas.rects) + [Rect(x, y, w, h)]
      ensures ok ==> Settled(old(atlas.nodes), atlas.nodes, Rect(x, y, w, h), width, height)
      ensures !ok ==> atlas.rects == old(atlas.rects) && atlas.nodes == old(atlas.nodes)
      ensures ok ==> var r := Rect(x, y, w, h);
                Inside(r, width, height) && Under(r, atlas.nodes) && Unused(fonts, r)
                && Shape(tex, width, height) && BlankOn(tex, r, width, height)
    {
      hide Under, Raised, Best, Candidate, TextureOk, GlyphsOk, Unused, BlankOn, Merged;
      ghost var s, rects := atlas.nodes, atlas.rects;
      ok, x, y := atlas.AddRect(w, h);
      if ok {
        ghost var r := Rect(x, y, w, h);
        NewIsUnused(fonts, rects, r, atlas.nodes, width, height);
        ghost var b: nat :| Best(s, b, w, h, width, height, x, y);
        BestAbove(s, b, w, h, width, height, x, y);
        TakenOk(tex, renderer.copy, dirty, s, atlas.nodes, r, width, height);
      }
    }

    /** fons__addWhiteRect: a rectangle of white texels, if there is space for one. */
    method AddWhiteRect(w: int, h: int)
      requires Valid() && w > 0 && h > 0
      modifies this`tex, this`dirty, atlas
      ensures Valid() && atlas.width == old(atlas.width) && atlas.height == old(atlas.height)
      ensures !old(HasSpace(w, h)) ==>
                atlas.rects == old(atlas.rects) && atlas.nodes == old(atlas.nodes)
                && tex == old(tex) && dirty == old(dirty)
      ensures old(HasSpace(w, h)) ==> atlas.rects != [] && var r := atlas.rects[|atlas.rects| - 1];
                r.w == w && r.h == h && atlas.rects == old(atlas.rects) + [r] && Inside(r, width, height)
                && Whitened(old(tex), tex, r, width, height)
                && Settled(old(atlas.nodes), atlas.nodes, r, width, height)
    {
      hide *;
      var ok, gx, gy := Allocate(w, h);
      if ok {
        ghost var r := Rect(gx, gy, w, h);
        Paint(Rect(gx, gy, w, h), (x, y) => 255);
        IsWhitened(old(tex), tex, r, width, height);
        assert atlas.rects[|atlas.rects| - 1] == r;
      }
    }

    /** Write the texels of r and make it dirty. */
    method Paint(r: Rect, content: (int, int) -> byte)
      requires Valid() && Inside(r, width, height) && Under(r, atlas.nodes)
      modifies this`tex, this`dirty
      ensures Valid() && Shape(tex, width, height) && Shape(old(tex), width, height)
      ensures Filled(old(tex), tex, r, content, width, height)
    {
      hide TextureOk, GlyphsOk, Under, Filled, SameOutside, Shape;
      ValidShape();
      var u := FillRect(tex, r, content, width, height);
      FilledOutside(tex, u, r, content, width, height);
      WriteKeeps(tex, renderer.copy, dirty, atlas.nodes, u, r, width, height);
      tex, dirty := u, Grow(dirty, r);
    }

    /** fons__flush: bring the renderer up to date. */
    method Flush()
      requires Valid()
      modifies this`dirty, renderer
      ensures Valid() && renderer.copy == tex
    {
      hide GlyphsOk, Mirrors, Beneath, Shape, Uploaded, At;
      if dirty.x0 < dirty.x1 && dirty.y0 < dirty.y1 {
        UploadMirrors(tex, renderer.copy, dirty, width, height);
        renderer.Update(dirty, tex);
        dirty := Clean(width, height);
      } else {
        EmptyMirrors(tex, renderer.copy, dirty, width, height);
      }
      SameOk(tex, dirty, atlas.nodes, width, height);
    }

    /** The highest segment of a skyline. */
    static method Highest(nodes: seq<Node>, ghost top: int) returns (maxy: int)
      requires Heights(nodes, 0, top) && 0 <= top
      ensures 0 <= maxy <= top && forall c :: At(nodes, c) <= maxy
    {
      hide At;
      maxy := 0;
      for i := 0 to |nodes|
        invariant 0 <= maxy <= top && forall k :: 0 <= k < i ==> nodes[k].y <= maxy
      {
        maxy := if maxy > nodes[i].y then maxy else nodes[i].y;
      }
      AtBounded(nodes, maxy);
    }

    /** fonsExpandAtlas; resized is the renderer's answer. Nothing that was cached is lost. */
    method ExpandAtlas(w: int, h: int, resized: bool) returns (ok: bool)
      requires Valid() && w <= MAX_SIZE && h <= MAX_SIZE
      modifies this`width, this`height, this`tex, this`dirty, atlas, renderer
      ensures Valid() && atlas.rects == old(atlas.rects) && Shape(old(tex), old(width), old(height))
      ensures ok <==> resized || (w <= old(width) && h <= old(height))
      ensures ok ==> width == Max(w, old(width)) && height == Max(h, old(height))
      ensures !ok ==> width == old(width) && height == old(height) && tex == old(tex)
      ensures Here() == AfterRequest(old(Here()), Expand(w, h, resized))
      ensures width >= old(width) && height >= old(height) && Shape(tex, width, height)
      ensures Extends(old(tex), tex, old(width), old(height), width, height)
    {
      hide GlyphsOk, Mirrors, Beneath, Shape, Extends, At, Packed;
      var w', h' := Max(w, width), Max(h, height);
      ExtendsSelf(tex, width, height);
      if w' == width && h' == height {
        return true;
      }
      Flush();
      if !resized {
        return false;
      }
      renderer.Resize(w', h');
      var data := GrowRows(tex, width, height, w', h');
      ghost var t, s := tex, atlas.nodes;
      atlas.Expand(w', h');
      PackedHeights(atlas.rects, atlas.nodes, w', h');
      var maxy := Highest(atlas.nodes, h');
      GrowthOk(t, data, s, atlas.nodes, width, height, w', h', maxy);
      tex := data;
      dirty := Dirty(0, 0, width, maxy);
      width, height := w', h';
      ok := true;
    }

    /** fonsResetAtlas: the caches are emptied with the atlas. */
    method ResetAtlas(w: int, h: int, resized: bool) returns (ok: bool)
      requires Valid() && 0 < w <= MAX_SIZE && 0 < h <= MAX_SIZE
      modifies this`width, this`height, this`tex, this`dirty, this`fonts, atlas, renderer
      ensures Valid() && |fonts| == |old(fonts)|
      ensures ok <==> resized
      ensures ok ==> width == w && height == h && forall f :: 0 <= f < |fonts| ==> fonts[f] == Cleared()
      ensures ok ==> Shape(tex, w, h) && if w >= 2 && h > 2
                then atlas.rects == [Rect(0, 0, 2, 2)] && Whitened(Blank(w, h), tex, Rect(0, 0, 2, 2), w, h)
                else atlas.rects == [] && tex == Blank(w, h)
      ensures Here() == AfterRequest(old(Here()), Reset(w, h, resized))
      ensures !ok ==> width == old(width) && height == old(height) && tex == old(tex) && fonts == old(fonts)
                      && atlas.rects == old(atlas.rects)
    {
      hide GlyphsOk, TextureOk, Packed, At, Cleared, Blank;
      Flush();
      if !resized {
        return false;
      }
      renderer.Resize(w, h);
      atlas.Reset(w, h);
      tex := Blank(w, h);
      dirty := Clean(w, h);
      var cleared := [];
      for i := 0 to |fonts|
        invariant |cleared| == i && forall f :: 0 <= f < i ==> cleared[f] == Cleared()
      {
        cleared := cleared + [Cleared()];
      }
      fonts := cleared;
      width, height := w, h;
      BlankOk(atlas.nodes, w, h);
      ClearedFontsOk(fonts, atlas.rects);
      AddCorner();
      ValidShape();
      ok := true;
    }

    /** The white rectangle of an empty atlas. */
    method AddCorner()
      requires Valid() && atlas.nodes == [Node(0, 0, width)] && atlas.rects == [] && 0 < width && 0 < height
      modifies this`tex, this`dirty, atlas
      ensures Valid() && atlas.width == old(atlas.width) && atlas.height == old(atlas.height)
      ensures atlas.nodes == ResetNodes(width, height)
      ensures if width >= 2 && height > 2
        then atlas.rects == [Rect(0, 0, 2, 2)] && Whitened(old(tex), tex, Rect(0, 0, 2, 2), width, height)
        else atlas.rects == [] && tex == old(tex)
    {
      hide *;
      FlatSpace(width, height);
      SpaceHere(2, 2);
      AddWhiteRect(2, 2);
      if width >= 2 && height > 2 {
        ValidTiled();
        CornerWhite(atlas.nodes, atlas.rects[|atlas.rects| - 1], width, height);
      }
    }

    lemma ValidTiled()
      requires Valid()
      ensures Tiled(atlas.nodes, 0, width)
    {
      hide Tiled, TextureOk, GlyphsOk;
    }

    /** The application's error callback. */
    method HandleError(reaction: seq<Request>)
      requires Valid() && forall k :: 0 <= k < |reaction| ==> RequestOk(reaction[k])
      modifies this, atlas, renderer
      ensures Valid() && Here() == AfterAll(old(Here()), reaction)
      ensures fonts == Answered(old(fonts), reaction)
      ensures !Resets(reaction) ==>
                atlas.rects == old(atlas.rects) && Kept(old(tex), old(width), old(height), tex, width, height)
    {
      hide *;
      ghost var t, w, h, p, before := tex, width, height, Here(), fonts;
      ValidShape();
      NothingAnswered(p, fonts, tex, width, height);
      for k := 0 to |reaction|
        invariant Valid() && Here() == AfterAll(p, reaction[..k]) && fonts == Answered(before, reaction[..k])
        invariant !Resets(reaction[..k]) ==> atlas.rects == old(atlas.rects) && Kept(t, w, h, tex, width, height)
      {
        ghost var t', w', h' := tex, width, height;
        Answer(reaction[k]);
        AnswerNext(p, before, reaction, k);
        if !Resets(reaction[..k + 1]) {
          KeptTrans(t, w, h, t', w', h', tex, width, height);
        }
      }
      assert reaction[..|reaction|] == reaction;
    }

    method Answer(q: Request)
      requires Valid() && RequestOk(q)
      modifies this, atlas, renderer
      ensures Valid() && Here() == AfterRequest(old(Here()), q)
      ensures fonts == Answered(old(fonts), [q])
      ensures !Granted(q) ==>
                atlas.rects == old(atlas.rects) && Kept(old(tex), old(width), old(height), tex, width, height)
    {
      hide Valid, AfterRequest, Extends, Shape, Cleared;
      AnsweredOne(fonts, q);
      ghost var before := fonts;
      match q
      case Expand(w, h, resized) => var _ := ExpandAtlas(w, h, resized);
      case Reset(w, h, resized) =>
        ValidShape();
        ExtendsSelf(tex, width, height);
        var ok := ResetAtlas(w, h, resized);
        AllCleared(before, fonts, ok);
    }

    /** fonsAddFontMem: a font is added with an empty cache, and taken away again when its data does not load. */
    method AddFont(loaded: bool) returns (f: int)
      requires Valid()
      modifies this`fonts
      ensures Valid() && (f == -1 <==> !loaded)
      ensures fonts == if loaded then old(fonts) + [Cleared()] else old(fonts)
      ensures loaded ==> f == |old(fonts)|
    {
      hide TextureOk, Packed, CacheOk, Apart, Cleared;
      AddClearedOk(fonts, atlas.rects);
      f := |fonts|;
      fonts := fonts + [Cleared()];
      if !loaded {
        fonts := fonts[..f];
        return -1;
      }
    }

    /** Draw a glyph's bitmap into its rectangle: an empty border, the bitmap, and the blur if there is one. */
    method DrawGlyph(r: Rect, blur: nat, bitmap: Image, alpha: int)
      requires Valid() && Inside(r, width, height) && Under(r, atlas.nodes) && Strength(alpha)
      requires r.w >= 2 * (blur + 2) && r.h >= 2 * (blur + 2)
      requires Shape(tex, width, height) && BlankOn(tex, r, width, height)
      modifies this`tex, this`dirty
      ensures Valid() && Shape(tex, width, height) && Drawn(tex, r, blur, bitmap, alpha, width, height)
      ensures Shape(old(tex), width, height) && SameOutside(old(tex), tex, r, width, height)
    {
      hide TextureOk, GlyphsOk, Under, Filled, SameOutside, Shape, BlankOn, Bordered, Shows, Drawn, Packed, Padded,
        BlurredImage;
      var pad := blur + 2;
      var a := FillRect(tex, Inner(r, pad), bitmap, width, height);
      var b := ClearBorder(a, r, width, height);
      DrawnPlain(tex, a, b, r, pad, bitmap, width, height);
      var u := b;
      if blur > 0 {
        u := BlurBlock(b, r, alpha, Padded(bitmap, r.w, r.h, pad), width, height);
        SameOutsideTrans(tex, b, u, r, width, height);
      }
      IsDrawn(u, r, blur, bitmap, alpha, width, height);
      WriteKeeps(tex, renderer.copy, dirty, atlas.nodes, u, r, width, height);
      tex, dirty := u, Grow(dirty, r);
    }

    /** Put a glyph at the head of its hash chain. */
    method StoreGlyph(f: nat, g: Glyph)
      requires Valid() && f < |fonts| && !HasGlyph(fonts[f], g.codepoint, g.size, g.blur)
      requires Box(g) in atlas.rects && Unused(fonts, Box(g))
      modifies this`fonts
      ensures Valid() && |fonts| == |old(fonts)| && |old(fonts)[f].lut| == LUT_SIZE
      ensures fonts == old(fonts)[f := Insert(old(fonts)[f], g)]
    {
      hide TextureOk, Packed, Apart, Bucket, Unused, HasGlyph, Placed, GlyphsApart;
      assert CacheOk(fonts[f]);
      InsertGlyphOk(fonts, f, g, atlas.rects);
      var font := fonts[f];
      var h := Bucket(g.codepoint);
      var glyphs := font.glyphs + [g.(next := font.lut[h])];
      fonts := fonts[f := Font(glyphs, font.lut[h := |glyphs| - 1])];
    }

    /** Store and draw a glyph whose rectangle was just taken. */
    method Accept(f: nat, g: Glyph, bitmap: Image, alpha: int) returns (r: int)
      requires Valid() && f < |fonts| && !HasGlyph(fonts[f], g.codepoint, g.size, g.blur) && Strength(alpha)
      requires Inside(Box(g), width, height) && Under(Box(g), atlas.nodes) && Box(g) in atlas.rects
      requires Unused(fonts, Box(g)) && 0 <= g.blur
      requires Box(g).w >= 2 * (g.blur + 2) && Box(g).h >= 2 * (g.blur + 2)
      requires Shape(tex, width, height) && BlankOn(tex, Box(g), width, height)
      modifies this`fonts, this`tex, this`dirty
      ensures Valid() && |fonts| == |old(fonts)| && HasGlyph(fonts[f], g.codepoint, g.size, g.blur)
      ensures 0 <= r == |fonts[f].glyphs| - 1 == |old(fonts)[f].glyphs|
      ensures Box(fonts[f].glyphs[r]) == Box(g) && HasKey(fonts[f].glyphs[r], g.codepoint, g.size, g.blur)
      ensures Shape(tex, width, height) && Drawn(tex, Box(g), g.blur, bitmap, alpha, width, height)
      ensures Added(old(fonts), fonts, f, r) && SameOutside(old(tex), tex, Box(g), width, height)
    {
      hide *;
      StoreGlyph(f, g);
      InsertedLast(old(fonts)[f], g);
      InsertAdds(old(fonts), f, g);
      DrawGlyph(Box(g), g.blur, bitmap, alpha);
      r := |fonts[f].glyphs| - 1;
      FoundHas(fonts[f], r, g.codepoint, g.size, g.blur);
    }

    /** fons__getGlyph: the cached glyph with the key, or a new one drawn into a free rectangle of the
        atlas, or -1. bw and bh are the size of the glyph's bitmap; handled says that there is an error
        callback, and reaction is what it does. */
    method GetGlyph(f: nat, codepoint: bv32, size: int, blur: nat, index: int, bw: nat, bh: nat,
                    bitmap: Image, alpha: int, handled: bool, reaction: seq<Request>) returns (r: int)
      requires Valid() && f < |fonts| && Strength(alpha)
      requires forall k :: 0 <= k < |reaction| ==> RequestOk(reaction[k])
      modifies this, atlas, renderer
      ensures Valid() && |fonts| == |old(fonts)|
      ensures r != -1 ==> 0 <= r < |fonts[f].glyphs| && HasKey(fonts[f].glyphs[r], codepoint, size, Min(blur, 20))
      ensures r == -1 <==> size < 2 || !HasGlyph(fonts[f], codepoint, size, Min(blur, 20))
      ensures size < 2 || HasGlyph(old(fonts)[f], codepoint, size, Min(blur, 20)) ==>
                fonts == old(fonts) && tex == old(tex) && dirty == old(dirty) && atlas.rects == old(atlas.rects)
      ensures r != -1 && !HasGlyph(old(fonts)[f], codepoint, size, Min(blur, 20)) ==>
                r == |fonts[f].glyphs| - 1 && var box := Box(fonts[f].glyphs[r]);
                box.w == bw + 2 * (Min(blur, 20) + 2) && box.h == bh + 2 * (Min(blur, 20) + 2)
                && Inside(box, width, height) && Shape(tex, width, height)
                && Drawn(tex, box, Min(blur, 20), bitmap, alpha, width, height)
      ensures size >= 2 && !HasGlyph(old(fonts)[f], codepoint, size, Min(blur, 20)) ==>
                var w, h := bw + 2 * (Min(blur, 20) + 2), bh + 2 * (Min(blur, 20) + 2);
                w > 0
                && (r != -1 <==> old(HasSpace(w, h)) || (handled && SpaceIn(AfterAll(old(Here()), reaction), w, h)))
                && Fitting(old(HasSpace(w, h)), handled, reaction, r, f, old(fonts), fonts, old(tex), tex,
                           width, height)
    {
      hide *;
      if size < 2 {
        return -1;
      }
      var b: nat := if blur > 20 then 20 else blur;
      MinIs(blur);
      ValidCache(f);
      r := Find(fonts[f], codepoint, size, b);
      if r != -1 {
        FoundHas(fonts[f], r, codepoint, size, b);
        return;
      }
      MissedHasNot(fonts[f], codepoint, size, b);
      r := NewGlyph(f, codepoint, size, b, index, bw, bh, bitmap, alpha, handled, reaction);
    }

    /** fons__getGlyph after the cache was searched in vain. */
    method NewGlyph(f: nat, codepoint: bv32, size: int, blur: nat, index: int, bw: nat, bh: nat,
                    bitmap: Image, alpha: int, handled: bool, reaction: seq<Request>) returns (r: int)
      requires Valid() && f < |fonts| && Strength(alpha) && !HasGlyph(fonts[f], codepoint, size, blur)
      requires forall k :: 0 <= k < |reaction| ==> RequestOk(reaction[k])
      modifies this, atlas, renderer
      ensures Valid() && |fonts| == |old(fonts)|
      ensures r == -1 <==> !HasGlyph(fonts[f], codepoint, size, blur)
      ensures r != -1 ==>
                0 <= r == |fonts[f].glyphs| - 1 && HasKey(fonts[f].glyphs[r], codepoint, size, blur)
                && var box := Box(fonts[f].glyphs[r]);
                box.w == bw + 2 * (blur + 2) && box.h == bh + 2 * (blur + 2)
                && Inside(box, width, height) && Shape(tex, width, height)
                && Drawn(tex, box, blur, bitmap, alpha, width, height)
      ensures var w, h := bw + 2 * (blur + 2), bh + 2 * (blur + 2);
                (r != -1 <==> old(HasSpace(w, h)) || (handled && SpaceIn(AfterAll(old(Here()), reaction), w, h)))
                && Fitting(old(HasSpace(w, h)), handled, reaction, r, f, old(fonts), fonts, old(tex), tex,
                           width, height)
    {
      hide *;
      var pad := blur + 2;
      var gw, gh := bw + pad * 2, bh + pad * 2;
      ghost var space := HasSpace(gw, gh);
      ghost var before, t := fonts, tex;
      SpaceHere(gw, gh);
      var added, gx, gy := Allocate(gw, gh);
      if !added && handled {
        SpaceHere(gw, gh);
        HandleError(reaction);
        AnsweredFont(before, reaction, f);
        ClearedHasNot(before[f], fonts[f], codepoint, size, blur);
        SpaceHere(gw, gh);
        added, gx, gy := Allocate(gw, gh);
      }
      ghost var mid := fonts;
      if !added {
        IsFitting(space, handled, reaction, -1, f, before, mid, fonts, t, tex, width, height);
        return -1;
      }
      var g := Glyph(codepoint, size, blur, index, gx, gy, gx + gw, gy + gh, 0);
      BoxIs(g);
      assert atlas.rects[|atlas.rects| - 1] == Box(g);
      r := Accept(f, g, bitmap, alpha);
      IsFitting(space, handled, reaction, r, f, before, mid, fonts, t, tex, width, height);
    }
  }

  /** Glyph r of font f is new and all others are as they were. */
  ghost predicate Added(before: seq<Font>, after: seq<Font>, f: nat, r: int) {
    && |after| == |before| && f < |after| && 0 <= r < |after[f].glyphs| && after[f].glyphs[..r] == before[f].glyphs
    && forall k :: 0 <= k < |after| && k != f ==> after[k] == before[k]
  }

  /** What the fonts cache after the callback's requests. */
  function Answered(fonts: seq<Font>, reaction: seq<Request>): (after: seq<Font>)
    ensures |after| == |fonts|
  {
    if Resets(reaction) then seq(|fonts|, i => Cleared()) else fonts
  }

  /** What else a missing glyph changes: it is added to what the callback left, if that was asked. With space for the
      glyph nothing outside its rectangle changes; without space and without a callback, nothing at all. */
  ghost predicate Fitting(space: bool, handled: bool, reaction: seq<Request>, r: int, f: nat, before: seq<Font>,
                          after: seq<Font>, t: Rows, u: Rows, w: int, h: int) {
    && FitsIn(if !space && handled then Answered(before, reaction) else before, after, f, r)
    && (space ==> r != -1 && Added(before, after, f, r) && Shape(t, w, h) && Shape(u, w, h)
                  && SameOutside(t, u, Box(after[f].glyphs[r]), w, h))
    && (!space && !handled ==> r == -1 && u == t)
  }

  /** Glyph r was added to font f, or nothing was. */
  ghost predicate FitsIn(mid: seq<Font>, after: seq<Font>, f: nat, r: int) {
    if r == -1 then after == mid else Added(mid, after, f, r)
  }

  lemma InsertAdds(fonts: seq<Font>, f: nat, g: Glyph)
    requires f < |fonts| && |fonts[f].lut| == LUT_SIZE
    ensures Added(fonts, fonts[f := Insert(fonts[f], g)], f, |fonts[f].glyphs|)
  {
    hide Bucket;
  }

  lemma IsFitting(space: bool, handled: bool, reaction: seq<Request>, r: int, f: nat, before: seq<Font>, mid: seq<Font>,
                  after: seq<Font>, t: Rows, u: Rows, w: int, h: int)
    requires mid == if !space && handled then Answered(before, reaction) else before
    requires if r == -1 then after == mid else Added(mid, after, f, r)
    requires space ==> r != -1 && Shape(t, w, h) && Shape(u, w, h)
    requires space ==> Added(mid, after, f, r) && SameOutside(t, u, Box(after[f].glyphs[r]), w, h)
    requires !space && !handled ==> r == -1 && u == t
    ensures Fitting(space, handled, reaction, r, f, before, after, t, u, w, h)
  {
    hide SameOutside, Box, Shape, Answered;
  }

  predicate Granted(q: Request) { q.Reset? && q.resized }

  lemma AnsweredOne(fonts: seq<Font>, q: Request)
    ensures Granted(q) ==> Answered(fonts, [q]) == seq(|fonts|, i => Cleared())
    ensures !Granted(q) ==> Answered(fonts, [q]) == fonts
  {
    hide Cleared;
    assert [q][0] == q;
  }

  lemma AllCleared(before: seq<Font>, after: seq<Font>, ok: bool)
    requires |after| == |before| && (ok ==> forall f :: 0 <= f < |after| ==> after[f] == Cleared())
    ensures ok ==> after == seq(|before|, i => Cleared())
  {
    hide Cleared;
  }

  lemma NothingAnswered(p: Room, fonts: seq<Font>, t: Rows, w: int, h: int)
    requires Shape(t, w, h)
    ensures AfterAll(p, []) == p && Answered(fonts, []) == fonts && Kept(t, w, h, t, w, h)
  {
    hide Shape;
    ExtendsSelf(t, w, h);
  }

  lemma AnswerNext(p: Room, fonts: seq<Font>, reaction: seq<Request>, k: nat)
    requires k < |reaction|
    ensures AfterAll(p, reaction[..k + 1]) == AfterRequest(AfterAll(p, reaction[..k]), reaction[k])
    ensures Answered(fonts, reaction[..k + 1]) == Answered(Answered(fonts, reaction[..k]), [reaction[k]])
    ensures Resets(reaction[..k + 1]) <==> Resets(reaction[..k]) || Granted(reaction[k])
  {
    hide AfterRequest, Cleared;
    var now := reaction[..k + 1];
    assert now[..k] == reaction[..k] && now[k] == reaction[k];
    ResetsNext(reaction, k);
    AnsweredOne(Answered(fonts, reaction[..k]), reaction[k]);
  }

  lemma ResetsNext(reaction: seq<Request>, k: nat)
    requires k < |reaction|
    ensures Resets(reaction[..k + 1]) <==> Resets(reaction[..k]) || Granted(reaction[k])
  {
    var now := reaction[..k + 1];
    if Resets(reaction[..k]) {
      var i :| 0 <= i < k && reaction[..k][i].Reset? && reaction[..k][i].resized;
      assert now[i] == reaction[i];
    }
    if Resets(now) && !Granted(reaction[k]) {
      var i :| 0 <= i < k + 1 && now[i].Reset? && now[i].resized;
      assert i < k && reaction[..k][i] == now[i];
    }
    assert now[k] == reaction[k];
  }

  lemma AnsweredFont(fonts: seq<Font>, reaction: seq<Request>, f: nat)
    requires f < |fonts|
    ensures Answered(fonts, reaction)[f] == if Resets(reaction) then Cleared() else fonts[f]
  {
    hide Cleared;
  }

  /** The texture has grown, and the old texels are in their places. */
  ghost predicate Kept(t: Rows, w: int, h: int, u: Rows, w': int, h': int) {
    w <= w' && h <= h' && Shape(t, w, h) && Shape(u, w', h') && Extends(t, u, w, h, w', h')
  }

  lemma KeptTrans(t: Rows, w: int, h: int, t': Rows, w': int, h': int, t'': Rows, w'': int, h'': int)
    requires Kept(t, w, h, t', w', h') && Kept(t', w', h', t'', w'', h'')
    ensures Kept(t, w, h, t'', w'', h'')
  {
    hide Shape;
  }

  /** The rectangle rests at the best place of the skyline, which is then raised to its top. */
  ghost predicate Settled(before: seq<Node>, after: seq<Node>, r: Rect, width: int, height: int) {
    r.w > 0 && Raised(before, after, r, width) && Merged(after)
    && exists b: nat :: Best(before, b, r.w, r.h, width, height, r.x, r.y)
  }

  lemma FlatSpace(w: int, h: int)
    requires 0 < w && 0 < h
    ensures SpaceIn(Room([Node(0, 0, w)], w, h), 2, 2) <==> w >= 2 && h > 2
    ensures !(w >= 2 && h > 2) ==> ResetNodes(w, h) == [Node(0, 0, w)]
  {
    FlatPlace(w, h, 0, 0, 0);
  }

  lemma CornerWhite(s: seq<Node>, r: Rect, w: int, h: int)
    requires w >= 2 && h > 2 && r.w == 2 && r.h == 2 && Settled([Node(0, 0, w)], s, r, w, h) && Tiled(s, 0, w)
    ensures r == Rect(0, 0, 2, 2) && s == ResetNodes(w, h)
  {
    hide Best, Raised, Merged, Tiled;
    var b: nat :| Best([Node(0, 0, w)], b, r.w, r.h, w, h, r.x, r.y);
    FlatPlace(w, h, b, r.x, r.y);
    WhiteSkyline(s, w, h);
  }

  lemma BestAbove(s: seq<Node>, b: nat, w: int, h: int, width: int, height: int, x: int, y: int)
    requires w > 0 && Best(s, b, w, h, width, height, x, y)
    ensures forall c | x <= c < x + w :: At(s, c) <= y
  {
    MaxAtIsMax(s, x, w);
  }

  lemma TakenOk(t: Rows, copy: Rows, d: Dirty, s: seq<Node>, s': seq<Node>, r: Rect, w: int, h: int)
    requires TextureOk(t, copy, d, s, w, h) && Raised(s, s', r, w) && r.h >= 0
    requires forall c | r.x <= c < r.x + r.w :: At(s, c) <= r.y
    ensures TextureOk(t, copy, d, s', w, h) && Shape(t, w, h) && BlankOn(t, r, w, h)
  {
    hide At, Shape, Mirrors, Beneath, Raised, BlankOn;
    RaiseKeeps(t, copy, d, s, s', r, w, h);
    AboveIsBlank(t, s, r, w, h);
  }

  lemma FilledOutside(t: Rows, u: Rows, r: Rect, content: (int, int) -> byte, w: int, h: int)
    requires Shape(t, w, h) && Shape(u, w, h) && Filled(t, u, r, content, w, h)
    ensures SameOutside(t, u, r, w, h)
  {
  }

  lemma PackedHeights(rects: seq<Rect>, s: seq<Node>, w: int, h: int)
    requires Packed(rects, s, w, h)
    ensures Heights(s, 0, h)
  {
  }

  /** The texels of r are white, and no others changed. */
  ghost predicate Whitened(t: Rows, u: Rows, r: Rect, w: int, h: int) {
    Shape(t, w, h) && Shape(u, w, h) && SameOutside(t, u, r, w, h)
    && forall x, y :: 0 <= x < w && 0 <= y < h && InRect(r, x, y) ==> u[y][x] == 255
  }

  lemma IsWhitened(t: Rows, u: Rows, r: Rect, w: int, h: int)
    requires Shape(t, w, h) && Shape(u, w, h) && Filled(t, u, r, (x, y) => 255, w, h)
    ensures Whitened(t, u, r, w, h)
  {
  }

  lemma AddClearedOk(fonts: seq<Font>, rects: seq<Rect>)
    requires GlyphsOk(fonts, rects)
    ensures GlyphsOk(fonts + [Cleared()], rects)
  {
    hide CacheOk, Apart;
    ClearedOk();
  }

  lemma IsDrawn(u: Rows, r: Rect, blur: nat, bitmap: Image, alpha: int, w: int, h: int)
    requires Shape(u, w, h) && Inside(r, w, h) && Strength(alpha)
    requires var plain := Padded(bitmap, r.w, r.h, blur + 2);
      Shows(u, r, if blur > 0 then BlurredImage(plain, r.w, r.h, alpha) else plain, w, h)
    ensures Drawn(u, r, blur, bitmap, alpha, w, h)
  {
    hide Shows, BlurredImage, Padded;
  }

  lemma MinIs(blur: nat)
    ensures Min(blur, 20) == if blur > 20 then 20 else blur
  {
  }

  lemma BoxIs(g: Glyph)
    ensures Box(g) == Rect(g.x0, g.y0, g.x1 - g.x0, g.y1 - g.y0)
  {
  }

  lemma ExtendsSelf(t: Rows, w: int, h: int)
    requires Shape(t, w, h)
    ensures Extends(t, t, w, h, w, h)
  {
  }

  function Inner(r: Rect, pad: int): Rect { Rect(r.x + pad, r.y + pad, r.w - 2 * pad, r.h - 2 * pad) }

  /** A glyph's bitmap in the middle of a blank block. */
  function Padded(bitmap: Image, gw: int, gh: int, pad: int): Image {
    (x, y) => if pad <= x < gw - pad && pad <= y < gh - pad then bitmap(x - pad, y - pad) else 0
  }

  /** What the rectangle of a glyph shows: its bitmap on a blank ground, blurred if there is a blur. */
  function Picture(bitmap: Image, gw: nat, gh: nat, blur: nat, alpha: int): Image
    requires Strength(alpha)
  {
    var plain := Padded(bitmap, gw, gh, blur + 2);
    if blur == 0 then plain else BlurredImage(plain, gw, gh, alpha)
  }

  ghost predicate Drawn(u: Rows, r: Rect, blur: nat, bitmap: Image, alpha: int, w: int, h: int)
    requires Shape(u, w, h) && Inside(r, w, h) && Strength(alpha)
  {
    Shows(u, r, Picture(bitmap, r.w, r.h, blur, alpha), w, h)
  }

  /** The border of a picture is empty, so that neighbours never bleed into each other. */
  lemma PictureEdge(bitmap: Image, gw: nat, gh: nat, blur: nat, alpha: int, x: int, y: int)
    requires Strength(alpha) && 0 <= x < gw && 0 <= y < gh && OnEdge(gw, gh, x, y)
    ensures Picture(bitmap, gw, gh, blur, alpha)(x, y) == 0
  {
    hide BlurredImage;
    BlurredImageEdge(Padded(bitmap, gw, gh, blur + 2), gw, gh, alpha, x, y);
  }

  /** A brighter bitmap gives a brighter picture. */
  lemma PictureMono(a: Image, b: Image, gw: nat, gh: nat, blur: nat, alpha: int)
    requires Strength(alpha) && gw >= 2 * (blur + 2) && gh >= 2 * (blur + 2)
    requires DarkerImage(a, b, gw - 2 * (blur + 2), gh - 2 * (blur + 2))
    ensures DarkerImage(Picture(a, gw, gh, blur, alpha), Picture(b, gw, gh, blur, alpha), gw, gh)
  {
    hide BlurredImage;
    BlurredImageMono(Padded(a, gw, gh, blur + 2), Padded(b, gw, gh, blur + 2), gw, gh, alpha);
  }

  /** Without blur, or at full strength, the picture is the bitmap in the middle of nothing. */
  lemma PictureSharp(bitmap: Image, gw: nat, gh: nat, blur: nat, alpha: int, x: int, y: int)
    requires Strength(alpha) && 0 <= x < gw && 0 <= y < gh && (blur == 0 || alpha == A_ONE)
    ensures Picture(bitmap, gw, gh, blur, alpha)(x, y) == Padded(bitmap, gw, gh, blur + 2)(x, y)
  {
    hide BlurredImage;
    var plain := Padded(bitmap, gw, gh, blur + 2);
    if OnEdge(gw, gh, x, y) {
      BlurredImageEdge(plain, gw, gh, alpha, x, y);
    } else if blur != 0 {
      BlurredImageSharp(plain, gw, gh, x, y);
    }
  }

  lemma DrawnPlain(t: Rows, a: Rows, b: Rows, r: Rect, pad: int, bitmap: Image, w: int, h: int)
    requires Shape(t, w, h) && Shape(a, w, h) && Shape(b, w, h) && Inside(r, w, h) && pad >= 2
    requires BlankOn(t, r, w, h) && Filled(t, a, Inner(r, pad), bitmap, w, h) && Bordered(a, b, r, w, h)
    ensures SameOutside(t, b, r, w, h) && Shows(b, r, Padded(bitmap, r.w, r.h, pad), w, h)
  {
    forall x, y | 0 <= x < w && 0 <= y < h
      ensures if InRect(r, x, y)
              then b[y][x] == Padded(bitmap, r.w, r.h, pad)(x - r.x, y - r.y)
              else b[y][x] == t[y][x]
    {
      assert InRect(Inner(r, pad), x, y) ==> InRect(r, x, y) && !OnBorder(r, x, y);
      assert b[y][x] == if OnBorder(r, x, y) then 0 else a[y][x];
    }
  }

  lemma InsertedLast(font: Font, g: Glyph)
    requires |font.lut| == LUT_SIZE
    ensures var glyphs := Insert(font, g).glyphs; var n := |font.glyphs|;
      |glyphs| == n + 1 && (forall i :: 0 <= i < n ==> glyphs[i] == font.glyphs[i])
      && Box(glyphs[n]) == Box(g) && HasKey(glyphs[n], g.codepoint, g.size, g.blur)
  {
  }

  lemma FoundHas(font: Font, i: nat, codepoint: bv32, size: int, blur: int)
    requires i < |font.glyphs| && HasKey(font.glyphs[i], codepoint, size, blur)
    ensures HasGlyph(font, codepoint, size, blur)
  {
  }

  lemma MissedHasNot(font: Font, codepoint: bv32, size: int, blur: int)
    requires forall k :: 0 <= k < |font.glyphs| ==> !HasKey(font.glyphs[k], codepoint, size, blur)
    ensures !HasGlyph(font, codepoint, size, blur)
  {
  }

  lemma ClearedHasNot(font: Font, font': Font, codepoint: bv32, size: int, blur: int)
    requires !HasGlyph(font, codepoint, size, blur) && (font' == font || font' == Cleared())
    ensures !HasGlyph(font', codepoint, size, blur)
  {
  }
}
