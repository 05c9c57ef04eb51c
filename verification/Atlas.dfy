/** The font atlas packer of fontstash: fons__atlas*. */
module Atlas {
  import opened Skyline

  /** The dimensions that the atlas can have: node fields are shorts. */
  const MAX_SIZE: int := 32767

  datatype Rect = Rect(x: int, y: int, w: int, h: int)

  predicate Inside(r: Rect, width: int, height: int) {
    0 < r.w && 0 < r.h && 0 <= r.x && r.x + r.w <= width && 0 <= r.y && r.y + r.h <= height
  }

  predicate Apart(a: Rect, b: Rect) {
    a.x + a.w <= b.x || b.x + b.w <= a.x || a.y + a.h <= b.y || b.y + b.h <= a.y
  }

  /** The skyline runs above the rectangle. */
  ghost predicate Under(r: Rect, s: seq<Node>) {
    forall c | r.x <= c < r.x + r.w :: r.y + r.h <= At(s, c)
  }

  /** A skyline over the rectangles that were placed: they are inside the atlas, under the skyline, and apart. */
  ghost predicate Packed(rects: seq<Rect>, s: seq<Node>, width: int, height: int) {
    && Tiled(s, 0, width) && Heights(s, 0, height)
    && (forall i | 0 <= i < |rects| :: Inside(rects[i], width, height) && Under(rects[i], s))
    && (forall i, j | 0 <= i < j < |rects| :: Apart(rects[i], rects[j]))
  }

  /** s' is s with the columns of r raised to the top of r. */
  ghost predicate Raised(s: seq<Node>, s': seq<Node>, r: Rect, width: int) {
    forall c | 0 <= c < width :: At(s', c) == if r.x <= c < r.x + r.w then r.y + r.h else At(s, c)
  }

  lemma UnderMeansApart(a: Rect, r: Rect, s: seq<Node>)
    requires Under(a, s) && a.w > 0 && r.w > 0 && forall c | r.x <= c < r.x + r.w :: At(s, c) <= r.y
    ensures Apart(a, r)
  {
    if !(a.x + a.w <= r.x || r.x + r.w <= a.x) {
      var c := if a.x < r.x then r.x else a.x;
      assert At(s, c) <= r.y;
    }
  }

  lemma UnderRaised(a: Rect, r: Rect, s: seq<Node>, s': seq<Node>, width: int)
    requires Under(a, s) && 0 <= a.x && a.x + a.w <= width && Raised(s, s', r, width) && r.h >= 0
    requires forall c | r.x <= c < r.x + r.w :: At(s, c) <= r.y
    ensures Under(a, s')
  {
    hide At;
    forall c | a.x <= c < a.x + a.w
      ensures a.y + a.h <= At(s', c)
    {
      assert a.y + a.h <= At(s, c);
    }
  }

  /** Placing a rectangle on the skyline and raising the skyline to its top keeps everything packed. */
  lemma PackStep(rects: seq<Rect>, s: seq<Node>, s': seq<Node>, r: Rect, width: int, height: int)
    requires Packed(rects, s, width, height) && Inside(r, width, height)
    requires forall c | r.x <= c < r.x + r.w :: At(s, c) <= r.y
    requires Tiled(s', 0, width) && Heights(s', 0, height) && Raised(s, s', r, width)
    ensures Packed(rects + [r], s', width, height)
  {
    var rects' := rects + [r];
    forall i | 0 <= i < |rects'|
      ensures Inside(rects'[i], width, height) && Under(rects'[i], s')
    {
      if i < |rects| {
        UnderRaised(rects[i], r, s, s', width);
      }
    }
    forall i, j | 0 <= i < j < |rects'|
      ensures Apart(rects'[i], rects'[j])
    {
      if j == |rects| {
        UnderMeansApart(rects[i], r, s);
      }
    }
  }

  /** Skylines that agree on the columns in use are as good. */
  lemma PackSame(rects: seq<Rect>, s: seq<Node>, s': seq<Node>, width: int, height: int, width': int, height': int)
    requires Packed(rects, s, width, height) && width <= width' && height <= height'
    requires Tiled(s', 0, width') && Heights(s', 0, height') && forall c | 0 <= c < width :: At(s', c) == At(s, c)
    ensures Packed(rects, s', width', height')
  {
    hide At;
    forall i | 0 <= i < |rects|
      ensures Under(rects[i], s')
    {
      assert Under(rects[i], s);
    }
  }

  /** A rectangle of the given size can rest on the skyline with its left edge at the start of node i. */
  ghost predicate Fits(s: seq<Node>, i: nat, w: int, h: int, width: int, height: int)
    requires i < |s|
  {
    s[i].x + w <= width && forall c | s[i].x <= c < s[i].x + w :: At(s, c) + h <= height
  }

  /** What placements are compared by: the top of the rectangle, then the width of the segment. */
  ghost function Key(s: seq<Node>, i: nat, w: int, h: int): (int, int)
    requires i < |s| && w > 0
  {
    (MaxAt(s, s[i].x, w) + h, s[i].width)
  }

  predicate Less(a: (int, int), b: (int, int)) {
    a.0 < b.0 || (a.0 == b.0 && a.1 < b.1)
  }

  /** A fitting position that is better than the worst possible one, the full height and width. */
  ghost predicate Candidate(s: seq<Node>, i: nat, w: int, h: int, width: int, height: int)
    requires w > 0
  {
    i < |s| && Fits(s, i, w, h, width, height) && Less(Key(s, i, w, h), (height, width))
  }

  /** No candidate is better than node b, and a rectangle on it has its lower left corner at x, y. */
  ghost predicate Best(s: seq<Node>, b: nat, w: int, h: int, width: int, height: int, x: int, y: int)
    requires w > 0
  {
    && Candidate(s, b, w, h, width, height) && x == s[b].x && y == MaxAt(s, x, w)
    && forall i: nat | Candidate(s, i, w, h, width, height) :: !Less(Key(s, i, w, h), Key(s, b, w, h))
  }

  /** The skyline of an atlas that grew from one width to another. */
  function Widened(s: seq<Node>, width: int, w: int): seq<Node> {
    if w > width then s + [Node(width, 0, w - width)] else s
  }

  class Atlas {
    var width: int
    var height: int
    var nodes: seq<Node>
    /** The rectangles handed out since the last reset. */
    ghost var rects: seq<Rect>

    ghost predicate Valid()
      reads this
    {
      0 < width <= MAX_SIZE && 0 < height <= MAX_SIZE && Packed(rects, nodes, width, height)
    }

    /** fons__allocAtlas, and fons__atlasReset on an existing atlas. */
    constructor (w: int, h: int)
      requires 0 < w <= MAX_SIZE && 0 < h <= MAX_SIZE
      ensures Valid() && width == w && height == h && rects == [] && nodes == [Node(0, 0, w)]
    {
      width, height, nodes, rects := w, h, [Node(0, 0, w)], [];
    }

    method Reset(w: int, h: int)
      requires 0 < w <= MAX_SIZE && 0 < h <= MAX_SIZE
      modifies this
      ensures Valid() && width == w && height == h && rects == [] && nodes == [Node(0, 0, w)]
      ensures forall c | 0 <= c < w :: At(nodes, c) == 0
    {
      width, height, nodes, rects := w, h, [Node(0, 0, w)], [];
    }

    /** fons__atlasExpand, for dimensions that do not shrink. */
    method Expand(w: int, h: int)
      requires Valid() && width <= w <= MAX_SIZE && height <= h <= MAX_SIZE
      modifies this
      ensures Valid() && width == w && height == h && rects == old(rects)
      ensures nodes == Widened(old(nodes), old(width), w)
      ensures forall c | 0 <= c < w :: At(nodes, c) == if c < old(width) then At(old(nodes), c) else 0
    {
      ghost var before := nodes;
      if w > width {
        var n := Node(width, 0, w - width);
        TiledAppend(nodes, [n], 0, width, w);
        nodes := nodes + [n];
      }
      PackSame(rects, before, nodes, width, height, w, h);
      width, height := w, h;
    }

    /** fons__atlasInsertNode. */
    method InsertNode(idx: nat, x: int, y: int, w: int)
      requires idx <= |nodes|
      modifies this`nodes
      ensures nodes == old(nodes)[..idx] + [Node(x, y, w)] + old(nodes)[idx..]
    {
      nodes := nodes[..idx] + [Node(x, y, w)] + nodes[idx..];
    }

    /** fons__atlasRemoveNode. */
    method RemoveNode(idx: nat)
      requires idx < |nodes|
      modifies this`nodes
      ensures nodes == old(nodes)[..idx] + old(nodes)[idx + 1..]
    {
      nodes := nodes[..idx] + nodes[idx + 1..];
    }

    /** Deletes or shortens the segments that fall under the new segment at idx. */
    method ShrinkAfter(idx: nat, ghost tail: seq<Node>)
      requires idx < |nodes| && nodes[idx + 1..] == tail && forall k | 0 <= k < |tail| :: tail[k].width > 0
      modifies this`nodes
      ensures nodes == old(nodes)[..idx + 1] + Cut(tail, old(nodes)[idx].x + old(nodes)[idx].width)
    {
      hide Cut;
      ghost var head, end := nodes[..idx + 1], nodes[idx].x + nodes[idx].width;
      var i := idx + 1;
      while i < |nodes| && nodes[i].x < nodes[i - 1].x + nodes[i - 1].width
        invariant i == idx + 1 <= |nodes| && nodes[..i] == head && nodes[idx] == head[idx]
        invariant Cut(nodes[i..], end) == Cut(tail, end)
        invariant forall k | i <= k < |nodes| :: nodes[k].width > 0
        decreases |nodes|
      {
        var shrink := nodes[i - 1].x + nodes[i - 1].width - nodes[i].x;
        ghost var rest := nodes[i..];
        CutStep(rest, end);
        if nodes[i].width - shrink <= 0 {
          RemoveNode(i);
          assert nodes[i..] == rest[1..] && nodes[..i] == head;
        } else {
          nodes := nodes[i := Node(nodes[i].x + shrink, nodes[i].y, nodes[i].width - shrink)];
          assert nodes == head + Cut(rest, end);
          return;
        }
      }
      CutStays(nodes[i..], end);
      assert nodes == head + nodes[i..];
    }

    /** Merges neighbours of the same height. */
    method Merge(ghost from: int, ghost to: int, ghost lo: int, ghost hi: int)
      requires Tiled(nodes, from, to) && Heights(nodes, lo, hi)
      modifies this`nodes
      ensures Tiled(nodes, from, to) && Heights(nodes, lo, hi)
      ensures forall c :: At(nodes, c) == At(old(nodes), c)
      ensures Merged(nodes)
    {
      var i := 0;
      while i < |nodes| - 1
        invariant 0 <= i && (i < |nodes| || i == |nodes| == 0)
        invariant Tiled(nodes, from, to) && Heights(nodes, lo, hi)
        invariant forall c :: At(nodes, c) == At(old(nodes), c)
        invariant forall j | 0 <= j < i :: nodes[j].y != nodes[j + 1].y
        decreases |nodes| - i
      {
        if nodes[i].y == nodes[i + 1].y {
          MergeStep(i, from, to, lo, hi);
        } else {
          i := i + 1;
        }
      }
    }

    method MergeStep(i: nat, ghost from: int, ghost to: int, ghost lo: int, ghost hi: int)
      requires i + 1 < |nodes| && nodes[i].y == nodes[i + 1].y
      requires Tiled(nodes, from, to) && Heights(nodes, lo, hi)
      modifies this`nodes
      ensures Tiled(nodes, from, to) && Heights(nodes, lo, hi) && |nodes| == |old(nodes)| - 1
      ensures forall c :: At(nodes, c) == At(old(nodes), c)
      ensures forall j | 0 <= j <= i :: nodes[j].y == old(nodes)[j].y
    {
      MergeAtTiled(nodes, i, from, to);
      ghost var merged := MergeAt(nodes, i);
      nodes := nodes[i := nodes[i].(width := nodes[i].width + nodes[i + 1].width)];
      RemoveNode(i + 1);
      assert nodes == merged;
    }

    /** fons__atlasAddSkylineLevel: raises the skyline over the columns of a new rectangle. */
    method AddSkylineLevel(idx: nat, x: int, y: int, w: int, h: int)
      requires idx < |nodes| && x == nodes[idx].x && w > 0 && x + w <= width && 0 <= y + h <= height
      requires Tiled(nodes, 0, width) && Heights(nodes, 0, height)
      modifies this`nodes
      ensures Tiled(nodes, 0, width) && Heights(nodes, 0, height)
      ensures Raised(old(nodes), nodes, Rect(x, y, w, h), width)
      ensures Merged(nodes)
    {
      hide Tiled, At, Heights, Cut;
      ghost var before := nodes;
      InsertNode(idx, x, y + h, w);
      assert nodes[idx + 1..] == before[idx..] && nodes[..idx + 1] == before[..idx] + [Node(x, y + h, w)];
      TiledWidths(before, 0, width);
      ShrinkAfter(idx, before[idx..]);
      assert nodes == Raise(before, idx, w, y + h);
      RaiseTiled(before, idx, w, y + h, 0, width);
      RaiseHeights(before, idx, w, y + h, 0, height);
      Merge(0, width, 0, height);
    }

    /** fons__atlasRectFits: the height at which the rectangle rests on the segments from node i on, or -1. */
    method RectFits(i: nat, w: int, h: int) returns (y: int)
      requires Tiled(nodes, 0, width) && Heights(nodes, 0, height) && i < |nodes| && w > 0 && h > 0
      ensures y != -1 <==> Fits(nodes, i, w, h, width, height)
      ensures y != -1 ==> y == MaxAt(nodes, nodes[i].x, w) && y >= 0
    {
      hide Tiled, At, Heights, MaxAt;
      var x := nodes[i].x;
      y := nodes[i].y;
      if x + w > width {
        return -1;
      }
      var spaceLeft, k := w, i;
      assert Edge(nodes, k, width) == x;
      while spaceLeft > 0
        invariant i <= k <= |nodes| && spaceLeft == w - (Edge(nodes, k, width) - x)
        invariant k == i ==> y == nodes[i].y && spaceLeft == w
        invariant k > i ==> x < Edge(nodes, k, width) && Rests(nodes, x, Edge(nodes, k, width) - x, h, height, y)
        invariant k > i ==> nodes[k - 1].x < x + w
        decreases |nodes| - k
      {
        assert k < |nodes|;
        EdgeNext(nodes, k, 0, width);
        AtNode(nodes, k, 0, width);
        HeightsAt(nodes, k, 0, height);
        y := if nodes[k].y > y then nodes[k].y else y;
        if y + h > height {
          NotFits(nodes, i, k, w, h, width, height, y);
          return -1;
        }
        RestsNext(nodes, i, k, h, height, width, y);
        spaceLeft := spaceLeft - nodes[k].width;
        k := k + 1;
      }
      RestsFits(nodes, i, Edge(nodes, k, width) - x, w, h, width, height, y);
      LastNode(nodes, i, k - 1, w, width);
    }

    /** fons__atlasAddRect: the bottom left fit. */
    method AddRect(rw: int, rh: int) returns (ok: bool, rx: int, ry: int)
      requires Valid() && rw > 0 && rh > 0
      modifies this`nodes, this`rects
      ensures Valid()
      ensures ok <==> exists i: nat :: Candidate(old(nodes), i, rw, rh, width, height)
      ensures ok <==> CanFit(old(nodes), rw, rh, width, height) && !FlatToTop(old(nodes), rh, width, height)
      ensures !ok ==> nodes == old(nodes) && rects == old(rects)
      ensures ok ==>
        rects == old(rects) + [Rect(rx, ry, rw, rh)] && Raised(old(nodes), nodes, Rect(rx, ry, rw, rh), width)
      ensures ok ==> Merged(nodes)
      ensures ok ==> exists b: nat :: Best(old(nodes), b, rw, rh, width, height, rx, ry)
    {
      hide Tiled, At, Heights, MaxAt, Under, Fits, CanFit, FlatToTop, Merged;
      PlacedIff(nodes, rw, rh, width, height);
      var besti;
      besti, rx, ry := BestFit(rw, rh);
      if besti == -1 {
        return false, 0, 0;
      }
      ghost var before := nodes;
      Place(besti, rx, ry, rw, rh);
      assert Candidate(before, besti, rw, rh, width, height);
      assert Best(before, besti, rw, rh, width, height, rx, ry);
      ok := true;
    }

    /** The loop over all segments: the best position so far. */
    method BestFit(rw: int, rh: int) returns (besti: int, bestx: int, besty: int)
      requires Valid() && rw > 0 && rh > 0
      ensures besti == -1 <==> forall i: nat :: !Candidate(nodes, i, rw, rh, width, height)
      ensures besti == -1 || 0 <= besti < |nodes|
      ensures besti != -1 ==> Best(nodes, besti, rw, rh, width, height, bestx, besty)
    {
      var besth, bestw := height, width;
      besti, bestx, besty := -1, -1, -1;
      hide Tiled, At, Heights, MaxAt, Under, Fits;
      for i: nat := 0 to |nodes|
        invariant besti == -1 ==> (besth, bestw) == (height, width)
        invariant besti == -1 || 0 <= besti < i
        invariant besti != -1 ==>
          Candidate(nodes, besti, rw, rh, width, height) && bestx == nodes[besti].x && besty == MaxAt(nodes, bestx, rw)
          && (besth, bestw) == Key(nodes, besti, rw, rh)
        invariant forall j: nat | j < i && Candidate(nodes, j, rw, rh, width, height) ::
          besti != -1 && !Less(Key(nodes, j, rw, rh), (besth, bestw))
      {
        var y := RectFits(i, rw, rh);
        if y != -1 {
          if y + rh < besth || (y + rh == besth && nodes[i].width < bestw) {
            besti, bestw, besth, bestx, besty := i, nodes[i].width, y + rh, nodes[i].x, y;
          }
        }
      }
    }

    method Place(idx: nat, x: int, y: int, w: int, h: int)
      requires Valid() && idx < |nodes| && w > 0 && h > 0 && Fits(nodes, idx, w, h, width, height)
      requires x == nodes[idx].x && y == MaxAt(nodes, x, w)
      modifies this`nodes, this`rects
      ensures Valid() && rects == old(rects) + [Rect(x, y, w, h)]
      ensures Raised(old(nodes), nodes, Rect(x, y, w, h), width) && Merged(nodes)
    {
      ghost var before := nodes;
      RestInside(nodes, idx, w, h, width, height);
      hide Tiled, At, Heights, MaxAt, Under, Fits, Raised, Merged;
      AddSkylineLevel(idx, x, y, w, h);
      PackStep(rects, before, nodes, Rect(x, y, w, h), width, height);
      rects := rects + [Rect(x, y, w, h)];
    }
  }

  lemma CutStep(s: seq<Node>, x: int)
    requires s != [] && s[0].x < x
    ensures s[0].x + s[0].width <= x ==> Cut(s, x) == Cut(s[1..], x)
    ensures s[0].x + s[0].width > x ==> Cut(s, x) == [Node(x, s[0].y, s[0].width - (x - s[0].x))] + s[1..]
  {
  }

  lemma CutStays(s: seq<Node>, x: int)
    requires s == [] || s[0].x >= x
    ensures s == [] || s[0].width > 0 ==> Cut(s, x) == s
  {
  }

  /** A rectangle of height h over the columns x..x + w rests at y and stays below height. */
  ghost predicate Rests(s: seq<Node>, x: int, w: int, h: int, height: int, y: int) {
    w > 0 && y == MaxAt(s, x, w) && y >= 0 && y + h <= height
  }

  lemma HeightsAt(s: seq<Node>, k: nat, lo: int, hi: int)
    requires Heights(s, lo, hi) && k < |s|
    ensures lo <= s[k].y <= hi
  {
  }

  /** Taking in the columns of node k. */
  lemma RestsNext(s: seq<Node>, i: nat, k: nat, h: int, height: int, to: int, y: int)
    requires Tiled(s, 0, to) && i <= k < |s| && y >= 0 && y + h <= height
    requires if k == i then y == s[i].y
             else Edge(s, k, to) > s[i].x
                  && y == if s[k].y > MaxAt(s, s[i].x, Edge(s, k, to) - s[i].x) then s[k].y
                          else MaxAt(s, s[i].x, Edge(s, k, to) - s[i].x)
    ensures Edge(s, k + 1, to) > s[i].x && Rests(s, s[i].x, Edge(s, k + 1, to) - s[i].x, h, height, y)
  {
    EdgeNext(s, k, 0, to);
    AtNode(s, k, 0, to);
    hide Tiled, At, MaxAt;
    var x := s[i].x;
    if k == i {
      MaxAtFlat(s, x, s[k].width, y);
    } else {
      MaxAtRun(s, x, s[k].x - x, s[k].width, s[k].y);
    }
  }

  /** A node under the rectangle that is too high. */
  lemma NotFits(s: seq<Node>, i: nat, k: nat, w: int, h: int, width: int, height: int, y: int)
    requires Tiled(s, 0, width) && i <= k < |s| && s[k].x < s[i].x + w && y + h > height
    requires k == i ==> y == s[i].y
    requires k > i ==>
      Edge(s, k, width) > s[i].x && (y == s[k].y || y == MaxAt(s, s[i].x, Edge(s, k, width) - s[i].x))
    ensures !Fits(s, i, w, h, width, height)
  {
    var x := s[i].x;
    AtNode(s, k, 0, width);
    EdgeNext(s, k, 0, width);
    if k == i || y == s[k].y {
      assert At(s, s[k].x) == y;
      StartsBefore(s, i, k, 0, width);
    } else {
      MaxAtIsMax(s, x, s[k].x - x);
      var c :| x <= c < x + (s[k].x - x) && At(s, c) == y;
    }
  }

  lemma {:induction false} StartsBefore(s: seq<Node>, i: nat, k: nat, from: int, to: int)
    requires Tiled(s, from, to) && i <= k < |s|
    ensures s[i].x <= s[k].x
  {
    if i < k {
      StartsBefore(s, i, k - 1, from, to);
      EdgeNext(s, k - 1, from, to);
    }
  }

  /** Columns after the rectangle that belong to the last node under it do not change the maximum. */
  lemma LastNode(s: seq<Node>, i: nat, k: nat, w: int, to: int)
    requires Tiled(s, 0, to) && i <= k < |s| && s[k].x < s[i].x + w && w <= Edge(s, k + 1, to) - s[i].x
    ensures 0 < w && MaxAt(s, s[i].x, w) == MaxAt(s, s[i].x, Edge(s, k + 1, to) - s[i].x)
  {
    var x := s[i].x;
    AtNode(s, k, 0, to);
    EdgeNext(s, k, 0, to);
    StartsBefore(s, i, k, 0, to);
    hide Tiled, At, MaxAt;
    var m, n := s[k].x - x, Edge(s, k + 1, to) - x;
    if m == 0 {
      MaxAtFlat(s, x, w, s[k].y);
      MaxAtFlat(s, x, n, s[k].y);
    } else {
      MaxAtRun(s, x, m, w - m, s[k].y);
      MaxAtRun(s, x, m, n - m, s[k].y);
    }
  }

  /** Covering at least the columns of the rectangle settles the question. */
  lemma RestsFits(s: seq<Node>, i: nat, n: int, w: int, h: int, width: int, height: int, y: int)
    requires i < |s| && 0 < w <= n && Rests(s, s[i].x, n, h, height, y) && s[i].x + w <= width
    ensures Fits(s, i, w, h, width, height)
  {
    MaxAtIsMax(s, s[i].x, n);
  }

  /** A rectangle that fits rests inside the atlas, above everything below it. */
  lemma RestInside(s: seq<Node>, i: nat, w: int, h: int, width: int, height: int)
    requires Tiled(s, 0, width) && Heights(s, 0, height) && i < |s| && w > 0 && h > 0
    requires Fits(s, i, w, h, width, height)
    ensures var y := MaxAt(s, s[i].x, w);
      Inside(Rect(s[i].x, y, w, h), width, height) && forall c | s[i].x <= c < s[i].x + w :: At(s, c) <= y
  {
    TiledSplit(s, i, 0, width);
    MaxAtIsMax(s, s[i].x, w);
    AtNode(s, i, 0, width);
    assert At(s, s[i].x) == s[i].y;
  }

  /** A rectangle that fits is refused exactly when it would reach the top of the atlas from a segment as wide as
      the atlas: the search starts from that height and width and only takes what is better. */
  lemma RefusedFit(s: seq<Node>, i: nat, w: int, h: int, width: int, height: int)
    requires Tiled(s, 0, width) && i < |s| && w > 0 && Fits(s, i, w, h, width, height)
    ensures Candidate(s, i, w, h, width, height) <==> !(MaxAt(s, s[i].x, w) + h == height && s[i].width == width)
  {
    MaxAtIsMax(s, s[i].x, w);
    TiledSplit(s, i, 0, width);
  }

  /** Some position on the skyline has room for the rectangle. */
  ghost predicate CanFit(s: seq<Node>, w: int, h: int, width: int, height: int) {
    exists i: nat :: i < |s| && Fits(s, i, w, h, width, height)
  }

  /** The skyline is one segment, on which the rectangle would reach the top of the atlas. */
  predicate FlatToTop(s: seq<Node>, h: int, width: int, height: int) {
    |s| == 1 && s[0].width == width && s[0].y + h == height
  }

  /** The search finds a place exactly when there is one, except under the top of an atlas with a flat skyline. */
  lemma PlacedIff(s: seq<Node>, w: int, h: int, width: int, height: int)
    requires Tiled(s, 0, width) && w > 0
    ensures (exists i: nat :: Candidate(s, i, w, h, width, height))
            <==> CanFit(s, w, h, width, height) && !FlatToTop(s, h, width, height)
  {
    hide Tiled, Fits, MaxAt, FlatToTop;
    forall i: nat | i < |s| && Fits(s, i, w, h, width, height)
      ensures Candidate(s, i, w, h, width, height) <==> !FlatToTop(s, h, width, height)
    {
      RefusedFit(s, i, w, h, width, height);
      WholeWidth(s, i, w, h, width, height);
    }
    if CanFit(s, w, h, width, height) && !FlatToTop(s, h, width, height) {
      var i: nat :| i < |s| && Fits(s, i, w, h, width, height);
      assert Candidate(s, i, w, h, width, height);
    }
  }

  /** A segment as wide as the atlas is the only one. */
  lemma WholeWidth(s: seq<Node>, i: nat, w: int, h: int, width: int, height: int)
    requires Tiled(s, 0, width) && i < |s| && w > 0 && Fits(s, i, w, h, width, height)
    ensures MaxAt(s, s[i].x, w) + h == height && s[i].width == width <==> FlatToTop(s, h, width, height)
  {
    if s[i].width == width {
      OnlySegment(s, i, width);
      FlatMax(s, w, width);
    }
  }

  lemma OnlySegment(s: seq<Node>, i: nat, width: int)
    requires Tiled(s, 0, width) && i < |s| && s[i].width == width
    ensures |s| == 1 && s[0].x == 0
  {
    TiledSplit(s, i, 0, width);
    TiledOrder(s[..i], 0, s[i].x);
    TiledOrder(s[i..][1..], s[i].x + width, width);
    hide Tiled;
    assert s[i].x == 0;
    assert |s[..i]| == 0 && |s[i..][1..]| == 0;
  }

  lemma FlatMax(s: seq<Node>, w: int, width: int)
    requires Tiled(s, 0, width) && |s| == 1 && s[0].width == width && 0 < w <= width
    ensures MaxAt(s, 0, w) == s[0].y
  {
    MaxAtIsMax(s, 0, w);
    var c :| 0 <= c < 0 + w && At(s, c) == MaxAt(s, 0, w);
  }

  /** So a rectangle as high as an empty atlas is never placed in it. */
  lemma FullHeightRefused(width: int, height: int, w: int)
    requires 0 < w <= width && 0 < height
    ensures Fits([Node(0, 0, width)], 0, w, height, width, height)
    ensures forall i: nat :: !Candidate([Node(0, 0, width)], i, w, height, width, height)
  {
    var s := [Node(0, 0, width)];
    MaxAtIsMax(s, 0, w);
    RefusedFit(s, 0, w, height, width, height);
  }
}
