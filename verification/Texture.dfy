/** The texture of the font atlas, its dirty rectangle, and what the renderer holds (fontstash.h).
    The texture is a list of rows. The renderer's copy may differ from it inside the dirty rectangle only, and what
    lies above the skyline is zero: that is why an expanded atlas, whose copy the renderer has cleared, need only
    mark the columns and rows below the skyline as dirty. */
module Texture {
  import opened Bits
  import opened Skyline
  import opened Atlas

  /** Texels by row. */
  type Rows = seq<seq<byte>>

  ghost predicate Shape(t: Rows, w: int, h: int) {
    |t| == h && forall y :: 0 <= y < h ==> |t[y]| == w
  }

  /** The columns x0..x1 and rows y0..y1 that changed since the last upload. */
  datatype Dirty = Dirty(x0: int, y0: int, x1: int, y1: int)

  predicate Holds(d: Dirty, x: int, y: int) { d.x0 <= x < d.x1 && d.y0 <= y < d.y1 }

  predicate InRect(r: Rect, x: int, y: int) { r.x <= x < r.x + r.w && r.y <= y < r.y + r.h }

  ghost predicate DirtyOk(d: Dirty, w: int, h: int) {
    0 <= d.x0 && 0 <= d.y0 && d.x1 <= w && d.y1 <= h
  }

  /** The renderer's copy differs from the texture in the dirty rectangle only. */
  ghost predicate Mirrors(t: Rows, copy: Rows, d: Dirty, w: int, h: int)
    requires Shape(t, w, h) && Shape(copy, w, h)
  {
    forall x, y :: 0 <= x < w && 0 <= y < h && !Holds(d, x, y) ==> t[y][x] == copy[y][x]
  }

  /** Every texel that is not zero is below the skyline. */
  ghost predicate Beneath(t: Rows, s: seq<Node>, w: int, h: int)
    requires Shape(t, w, h)
  {
    forall x, y :: 0 <= x < w && 0 <= y < h && At(s, x) <= y ==> t[y][x] == 0
  }

  ghost predicate SameOutside(t: Rows, u: Rows, r: Rect, w: int, h: int)
    requires Shape(t, w, h) && Shape(u, w, h)
  {
    forall x, y :: 0 <= x < w && 0 <= y < h && !InRect(r, x, y) ==> u[y][x] == t[y][x]
  }

  /** Everything about the texture that holds between calls. */
  ghost predicate TextureOk(t: Rows, copy: Rows, d: Dirty, s: seq<Node>, w: int, h: int) {
    && Shape(t, w, h) && Shape(copy, w, h) && DirtyOk(d, w, h)
    && Mirrors(t, copy, d, w, h) && Beneath(t, s, w, h)
  }

  /** The dirty rectangle grown to take in r. */
  function Grow(d: Dirty, r: Rect): Dirty {
    Dirty(Min(d.x0, r.x), Min(d.y0, r.y), Max(d.x1, r.x + r.w), Max(d.y1, r.y + r.h))
  }

  function Clean(w: int, h: int): Dirty { Dirty(w, h, 0, 0) }

  function Zeros(n: nat): seq<byte> { seq(n, i => 0 as byte) }

  function Blank(w: nat, h: nat): Rows { seq(h, i => Zeros(w)) }

  lemma BlankShape(w: nat, h: nat)
    ensures Shape(Blank(w, h), w, h)
    ensures forall x, y :: 0 <= x < w && 0 <= y < h ==> Blank(w, h)[y][x] == 0
  {
  }

  lemma BlankOk(s: seq<Node>, w: nat, h: nat)
    ensures TextureOk(Blank(w, h), Blank(w, h), Clean(w, h), s, w, h)
  {
    hide Blank, At;
    BlankShape(w, h);
  }

  lemma GrowMirrors(t: Rows, copy: Rows, d: Dirty, u: Rows, r: Rect, w: int, h: int)
    requires Shape(t, w, h) && Shape(copy, w, h) && Shape(u, w, h)
    requires Mirrors(t, copy, d, w, h) && SameOutside(t, u, r, w, h)
    ensures Mirrors(u, copy, Grow(d, r), w, h)
  {
    forall x, y | 0 <= x < w && 0 <= y < h && !Holds(Grow(d, r), x, y)
      ensures u[y][x] == copy[y][x]
    {
      assert !InRect(r, x, y) && !Holds(d, x, y);
    }
  }

  lemma ShapeAt(t: Rows, w: int, h: int, x: int, y: int)
    requires Shape(t, w, h) && 0 <= x < w && 0 <= y < h
    ensures y < |t| && x < |t[y]|
  {
  }

  /** Raising the skyline takes nothing away from what is above it. */
  lemma RaiseKeeps(t: Rows, copy: Rows, d: Dirty, s: seq<Node>, s': seq<Node>, r: Rect, w: int, h: int)
    requires TextureOk(t, copy, d, s, w, h) && Raised(s, s', r, w)
    requires forall c | r.x <= c < r.x + r.w :: At(s, c) <= r.y
    requires r.h >= 0
    ensures TextureOk(t, copy, d, s', w, h)
  {
    hide At, Shape, Mirrors;
    forall x, y | 0 <= x < w && 0 <= y < h && At(s', x) <= y
      ensures y < |t| && x < |t[y]| && t[y][x] == 0
    {
      ShapeAt(t, w, h, x, y);
      assert At(s', x) == if r.x <= x < r.x + r.w then r.y + r.h else At(s, x);
      assert At(s, x) <= y;
    }
  }

  ghost predicate BlankOn(t: Rows, r: Rect, w: int, h: int)
    requires Shape(t, w, h)
  {
    forall x, y :: 0 <= x < w && 0 <= y < h && InRect(r, x, y) ==> t[y][x] == 0
  }

  /** What lies above the skyline is blank. */
  lemma AboveIsBlank(t: Rows, s: seq<Node>, r: Rect, w: int, h: int)
    requires Shape(t, w, h) && Beneath(t, s, w, h)
    requires forall c | r.x <= c < r.x + r.w :: At(s, c) <= r.y
    ensures BlankOn(t, r, w, h)
  {
    hide Shape, At;
    forall x, y | 0 <= x < w && 0 <= y < h && InRect(r, x, y)
      ensures y < |t| && x < |t[y]| && t[y][x] == 0
    {
      ShapeAt(t, w, h, x, y);
      assert At(s, x) <= r.y;
    }
  }

  /** A write under the skyline that is added to the dirty rectangle. */
  lemma WriteKeeps(t: Rows, copy: Rows, d: Dirty, s: seq<Node>, u: Rows, r: Rect, w: int, h: int)
    requires TextureOk(t, copy, d, s, w, h) && Inside(r, w, h) && Under(r, s)
    requires Shape(u, w, h) && SameOutside(t, u, r, w, h)
    ensures TextureOk(u, copy, Grow(d, r), s, w, h)
  {
    hide Shape, Mirrors, At, SameOutside;
    GrowMirrors(t, copy, d, u, r, w, h);
    forall x, y | 0 <= x < w && 0 <= y < h && At(s, x) <= y
      ensures y < |u| && x < |u[y]| && u[y][x] == 0
    {
      ShapeAt(u, w, h, x, y);
      ShapeAt(t, w, h, x, y);
      assert !InRect(r, x, y) by { assert r.x <= x < r.x + r.w ==> r.y + r.h <= At(s, x); }
      OutsideAt(t, u, r, w, h, x, y);
    }
  }

  lemma OutsideAt(t: Rows, u: Rows, r: Rect, w: int, h: int, x: int, y: int)
    requires Shape(t, w, h) && Shape(u, w, h) && SameOutside(t, u, r, w, h)
    requires 0 <= x < w && 0 <= y < h && !InRect(r, x, y)
    ensures u[y][x] == t[y][x]
  {
  }

  // ---------------------------------------------------------------- upload

  /** The renderer's copy after it took the texels of a rectangle. */
  function Uploaded(copy: Rows, t: Rows, d: Dirty): Rows {
    seq(|copy|, y requires 0 <= y < |copy| =>
      seq(|copy[y]|, x requires 0 <= x < |copy[y]| =>
        if Holds(d, x, y) && y < |t| && x < |t[y]| then t[y][x] else copy[y][x]))
  }

  /** Once the dirty rectangle is uploaded the copy is the texture. */
  lemma UploadMirrors(t: Rows, copy: Rows, d: Dirty, w: int, h: int)
    requires Shape(t, w, h) && Shape(copy, w, h) && Mirrors(t, copy, d, w, h)
    ensures Uploaded(copy, t, d) == t
  {
    var u := Uploaded(copy, t, d);
    forall y | 0 <= y < h ensures u[y] == t[y] {
      UploadRow(t, copy, d, w, h, y);
    }
  }

  lemma UploadRow(t: Rows, copy: Rows, d: Dirty, w: int, h: int, y: int)
    requires Shape(t, w, h) && Shape(copy, w, h) && Mirrors(t, copy, d, w, h) && 0 <= y < h
    ensures Uploaded(copy, t, d)[y] == t[y]
  {
    var r := Uploaded(copy, t, d)[y];
    assert |r| == w;
    forall x | 0 <= x < w ensures r[x] == t[y][x] { }
  }

  /** An empty dirty rectangle means that there is nothing to upload. */
  lemma EmptyMirrors(t: Rows, copy: Rows, d: Dirty, w: int, h: int)
    requires Shape(t, w, h) && Shape(copy, w, h) && Mirrors(t, copy, d, w, h) && (d.x0 >= d.x1 || d.y0 >= d.y1)
    ensures copy == t
  {
    forall y | 0 <= y < h ensures copy[y] == t[y] {
      assert |copy[y]| == |t[y]| == w;
      forall x | 0 <= x < w ensures copy[y][x] == t[y][x] {
        assert !Holds(d, x, y);
      }
    }
  }

  lemma SameOk(t: Rows, d: Dirty, s: seq<Node>, w: int, h: int)
    requires Shape(t, w, h) && Beneath(t, s, w, h) && DirtyOk(d, w, h)
    ensures TextureOk(t, t, d, s, w, h)
  {
    hide Beneath;
  }

  // ---------------------------------------------------------------- writes

  function Put(t: Rows, x: nat, y: nat, v: byte): Rows
    requires y < |t| && x < |t[y]|
  {
    var row: seq<byte> := t[y][x := v];
    t[y := row]
  }

  /** u is t with the texels of r taken from content, by their place in r. */
  ghost predicate Filled(t: Rows, u: Rows, r: Rect, content: (int, int) -> byte, w: int, h: int)
    requires Shape(t, w, h) && Shape(u, w, h)
  {
    && SameOutside(t, u, r, w, h)
    && forall x, y :: 0 <= x < w && 0 <= y < h && InRect(r, x, y) ==> u[y][x] == content(x - r.x, y - r.y)
  }

  method FillRow(row: seq<byte>, x0: nat, n: nat, content: int -> byte) returns (out: seq<byte>)
    requires x0 + n <= |row|
    ensures |out| == |row|
    ensures forall x :: 0 <= x < |row| ==> out[x] == if x0 <= x < x0 + n then content(x - x0) else row[x]
  {
    out := row;
    for i: nat := 0 to n
      invariant |out| == |row|
      invariant forall x :: 0 <= x < |row| ==> out[x] == if x0 <= x < x0 + i then content(x - x0) else row[x]
    {
      out := out[x0 + i := content(i)];
    }
  }

  /** u is t with the first i rows of r filled. */
  ghost predicate FilledTo(t: Rows, u: Rows, r: Rect, i: int, content: (int, int) -> byte, w: int, h: int)
    requires Shape(t, w, h) && Shape(u, w, h)
  {
    forall x, y :: 0 <= x < w && 0 <= y < h ==>
      u[y][x] == if InRect(r, x, y) && y < r.y + i then content(x - r.x, y - r.y) else t[y][x]
  }

  lemma FillStep(t: Rows, u: Rows, r: Rect, i: nat, content: (int, int) -> byte, row: seq<byte>, w: int, h: int)
    requires Shape(t, w, h) && Shape(u, w, h) && FilledTo(t, u, r, i, content, w, h)
    requires 0 <= r.y && r.y + i < h && i < r.h
    requires |row| == w && forall x :: 0 <= x < w ==>
      row[x] == if r.x <= x < r.x + r.w then content(x - r.x, i) else u[r.y + i][x]
    ensures Shape(u[r.y + i := row], w, h) && FilledTo(t, u[r.y + i := row], r, i + 1, content, w, h)
  {
    var v := u[r.y + i := row];
    assert Shape(v, w, h);
    forall x, y | 0 <= x < w && 0 <= y < h
      ensures v[y][x] == if InRect(r, x, y) && y < r.y + i + 1 then content(x - r.x, y - r.y) else t[y][x]
    {
      if y != r.y + i {
        assert v[y] == u[y];
      }
    }
  }

  lemma FillAll(t: Rows, u: Rows, r: Rect, content: (int, int) -> byte, w: int, h: int)
    requires Shape(t, w, h) && Shape(u, w, h) && FilledTo(t, u, r, r.h, content, w, h)
    ensures Filled(t, u, r, content, w, h)
  {
    hide Shape;
  }

  lemma FillNone(t: Rows, r: Rect, content: (int, int) -> byte, w: int, h: int)
    requires Shape(t, w, h)
    ensures FilledTo(t, t, r, 0, content, w, h)
  {
  }

  /** Write a block of texels row by row. */
  method FillRect(t: Rows, r: Rect, content: (int, int) -> byte, ghost w: int, ghost h: int) returns (u: Rows)
    requires Shape(t, w, h) && 0 <= r.x && r.x + r.w <= w && 0 <= r.y && r.y + r.h <= h && 0 <= r.w && 0 <= r.h
    ensures Shape(u, w, h) && Filled(t, u, r, content, w, h)
  {
    hide Shape, Filled, FilledTo;
    u := t;
    FillNone(t, r, content, w, h);
    for i: nat := 0 to r.h
      invariant Shape(u, w, h) && FilledTo(t, u, r, i, content, w, h)
    {
      RowLength(u, w, h, r.y + i);
      var row := FillRow(u[r.y + i], r.x, r.w, k => content(k, i));
      FillStep(t, u, r, i, content, row, w, h);
      u := u[r.y + i := row];
    }
    FillAll(t, u, r, content, w, h);
  }

  lemma RowLength(t: Rows, w: int, h: int, y: int)
    requires Shape(t, w, h) && 0 <= y < h
    ensures |t| == h && |t[y]| == w
  {
  }

  predicate OnBorder(r: Rect, x: int, y: int) {
    InRect(r, x, y) && (x == r.x || x == r.x + r.w - 1 || y == r.y || y == r.y + r.h - 1)
  }

  /** u is t with the border of r zeroed. */
  ghost predicate Bordered(t: Rows, u: Rows, r: Rect, w: int, h: int)
    requires Shape(t, w, h) && Shape(u, w, h)
  {
    forall x, y :: 0 <= x < w && 0 <= y < h ==> u[y][x] == if OnBorder(r, x, y) then 0 else t[y][x]
  }

  ghost predicate SidesTo(t: Rows, u: Rows, r: Rect, i: int, w: int, h: int)
    requires Shape(t, w, h) && Shape(u, w, h)
  {
    forall x, y :: 0 <= x < w && 0 <= y < h ==>
      u[y][x] == if r.y <= y < r.y + i && (x == r.x || x == r.x + r.w - 1) then 0 else t[y][x]
  }

  ghost predicate CapsTo(t: Rows, u: Rows, r: Rect, i: int, w: int, h: int)
    requires Shape(t, w, h) && Shape(u, w, h)
  {
    forall x, y :: 0 <= x < w && 0 <= y < h ==>
      u[y][x] == if r.x <= x < r.x + i && (y == r.y || y == r.y + r.h - 1) then 0 else t[y][x]
  }

  lemma PutShape(t: Rows, x: nat, y: nat, v: byte, w: int, h: int)
    requires Shape(t, w, h) && x < w && y < h
    ensures Shape(Put(t, x, y, v), w, h)
    ensures forall x', y' :: 0 <= x' < w && 0 <= y' < h ==>
      Put(t, x, y, v)[y'][x'] == if x' == x && y' == y then v else t[y'][x']
  {
  }

  method PutTwice(t: Rows, x: nat, y: nat, x': nat, y': nat, ghost w: int, ghost h: int) returns (u: Rows)
    requires Shape(t, w, h) && x < w && y < h && x' < w && y' < h
    ensures Shape(u, w, h)
    ensures forall i, j :: 0 <= i < w && 0 <= j < h ==>
      u[j][i] == if (i == x && j == y) || (i == x' && j == y') then 0 else t[j][i]
  {
    hide Put;
    RowLength(t, w, h, y);
    PutShape(t, x, y, 0, w, h);
    var s := Put(t, x, y, 0);
    RowLength(s, w, h, y');
    PutShape(s, x', y', 0, w, h);
    u := Put(s, x', y', 0);
  }

  lemma BorderNone(t: Rows, r: Rect, w: int, h: int)
    requires Shape(t, w, h)
    ensures SidesTo(t, t, r, 0, w, h) && CapsTo(t, t, r, 0, w, h)
  {
  }

  /** Make sure there is one empty texel around the block. */
  method ClearBorder(t: Rows, r: Rect, ghost w: int, ghost h: int) returns (u: Rows)
    requires Shape(t, w, h) && Inside(r, w, h)
    ensures Shape(u, w, h) && Bordered(t, u, r, w, h)
  {
    hide Shape, SidesTo, CapsTo, Bordered;
    u := t;
    BorderNone(t, r, w, h);
    for i: nat := 0 to r.h
      invariant Shape(u, w, h) && SidesTo(t, u, r, i, w, h)
    {
      ghost var s := u;
      u := PutTwice(u, r.x, r.y + i, r.x + r.w - 1, r.y + i, w, h);
      SidesStep(t, s, u, r, i, w, h);
    }
    ghost var sides := u;
    BorderNone(sides, r, w, h);
    for i: nat := 0 to r.w
      invariant Shape(u, w, h) && CapsTo(sides, u, r, i, w, h)
    {
      ghost var s := u;
      u := PutTwice(u, r.x + i, r.y, r.x + i, r.y + r.h - 1, w, h);
      CapsStep(sides, s, u, r, i, w, h);
    }
    BorderDone(t, sides, u, r, w, h);
  }

  lemma SidesStep(t: Rows, s: Rows, u: Rows, r: Rect, i: nat, w: int, h: int)
    requires Shape(t, w, h) && Shape(s, w, h) && Shape(u, w, h) && SidesTo(t, s, r, i, w, h)
    requires forall x, y :: 0 <= x < w && 0 <= y < h ==>
      u[y][x] == if (x == r.x && y == r.y + i) || (x == r.x + r.w - 1 && y == r.y + i) then 0 else s[y][x]
    ensures SidesTo(t, u, r, i + 1, w, h)
  {
    hide Shape;
  }

  lemma CapsStep(t: Rows, s: Rows, u: Rows, r: Rect, i: nat, w: int, h: int)
    requires Shape(t, w, h) && Shape(s, w, h) && Shape(u, w, h) && CapsTo(t, s, r, i, w, h)
    requires forall x, y :: 0 <= x < w && 0 <= y < h ==>
      u[y][x] == if (x == r.x + i && y == r.y) || (x == r.x + i && y == r.y + r.h - 1) then 0 else s[y][x]
    ensures CapsTo(t, u, r, i + 1, w, h)
  {
    hide Shape;
  }

  lemma BorderDone(t: Rows, s: Rows, u: Rows, r: Rect, w: int, h: int)
    requires Shape(t, w, h) && Shape(s, w, h) && Shape(u, w, h) && Inside(r, w, h)
    requires SidesTo(t, s, r, r.h, w, h) && CapsTo(s, u, r, r.w, w, h)
    ensures Bordered(t, u, r, w, h)
  {
    hide Shape;
  }

  // ---------------------------------------------------------------- growth

  /** u is t with zeros to the right and below. */
  ghost predicate Extends(t: Rows, u: Rows, w: int, h: int, w': int, h': int)
    requires Shape(t, w, h) && Shape(u, w', h') && w <= w' && h <= h'
  {
    forall x, y :: 0 <= x < w' && 0 <= y < h' ==> u[y][x] == if x < w && y < h then t[y][x] else 0
  }

  lemma ExtendRow(t: Rows, data: Rows, w: nat, h: nat, w': nat, i: nat)
    requires Shape(t, w, h) && i < h && w <= w' && Shape(data, w', i) && Extends(t[..i], data, w, i, w', i)
    ensures Shape(t[..i + 1], w, i + 1) && Shape(data + [t[i] + Zeros(w' - w)], w', i + 1)
    ensures Extends(t[..i + 1], data + [t[i] + Zeros(w' - w)], w, i + 1, w', i + 1)
  {
    var u := data + [t[i] + Zeros(w' - w)];
    forall x, y | 0 <= x < w' && 0 <= y < i + 1
      ensures u[y][x] == if x < w && y < i + 1 then t[y][x] else 0
    {
      if y < i {
        assert u[y] == data[y] && t[..i][y] == t[y];
      }
    }
  }

  lemma ExtendRows(t: Rows, data: Rows, w: nat, h: nat, w': nat, h': nat)
    requires Shape(t, w, h) && w <= w' && h <= h' && Shape(data, w', h) && Extends(t, data, w, h, w', h)
    ensures Shape(data + Blank(w', h' - h), w', h') && Extends(t, data + Blank(w', h' - h), w, h, w', h')
  {
    hide Blank;
    BlankShape(w', h' - h);
    var u := data + Blank(w', h' - h);
    forall x, y | 0 <= x < w' && 0 <= y < h'
      ensures |u[y]| == w' && u[y][x] == if x < w && y < h then t[y][x] else 0
    {
      assert y < h ==> u[y] == data[y];
      assert y >= h ==> u[y] == Blank(w', h' - h)[y - h];
    }
    forall y | 0 <= y < h' ensures |u[y]| == w' {
      assert u[y] == if y < h then data[y] else Blank(w', h' - h)[y - h];
    }
  }

  lemma ExtendNone(t: Rows, w: nat, h: nat, w': nat)
    requires Shape(t, w, h) && w <= w'
    ensures |t| == h && Shape(t[..0], w, 0) && Shape([], w', 0) && Extends(t[..0], [], w, 0, w', 0)
  {
  }

  /** Copy the old texture into a larger one and clear the rest. */
  method GrowRows(t: Rows, w: nat, h: nat, w': nat, h': nat) returns (u: Rows)
    requires Shape(t, w, h) && w <= w' && h <= h'
    ensures Shape(u, w', h') && Extends(t, u, w, h, w', h')
  {
    hide Shape, Extends, Zeros, Blank;
    u := [];
    ExtendNone(t, w, h, w');
    for i: nat := 0 to h
      invariant Shape(t[..i], w, i) && Shape(u, w', i) && Extends(t[..i], u, w, i, w', i)
    {
      ExtendRow(t, u, w, h, w', i);
      u := u + [t[i] + Zeros(w' - w)];
    }
    assert t[..h] == t;
    ExtendRows(t, u, w, h, w', h');
    u := u + Blank(w', h' - h);
  }

  /** After the atlas grew and the renderer cleared its copy, only the old columns below the highest
      segment of the skyline can differ. */
  lemma GrowthOk(t: Rows, u: Rows, s: seq<Node>, s': seq<Node>, w: nat, h: nat, w': nat, h': nat, maxy: int)
    requires Shape(t, w, h) && Beneath(t, s, w, h) && w <= w' && h <= h' && 0 <= maxy <= h'
    requires Shape(u, w', h') && Extends(t, u, w, h, w', h')
    requires forall c | 0 <= c < w :: At(s', c) == At(s, c) && At(s', c) <= maxy
    ensures TextureOk(u, Blank(w', h'), Dirty(0, 0, w, maxy), s', w', h')
  {
    hide Blank, At;
    BlankShape(w', h');
    forall x, y | 0 <= x < w' && 0 <= y < h' && (x >= w || At(s', x) <= y)
      ensures u[y][x] == 0
    {
      if x < w && y < h {
        assert At(s, x) <= y;
        assert t[y][x] == 0;
      }
    }
    forall x, y | 0 <= x < w' && 0 <= y < h' && !Holds(Dirty(0, 0, w, maxy), x, y)
      ensures u[y][x] == 0
    {
      assert x >= w || At(s', x) <= y;
    }
    assert Beneath(u, s', w', h');
    assert Mirrors(u, Blank(w', h'), Dirty(0, 0, w, maxy), w', h');
  }
}
