/** The skyline of the font atlas: node lists that tile the atlas, and the height they give every column. */
module Skyline {

  datatype Node = Node(x: int, y: int, width: int)

  /** The nodes cover the columns from..to left to right, without gap or overlap. */
  ghost predicate Tiled(s: seq<Node>, from: int, to: int) {
    if s == [] then from == to
    else s[0].x == from && s[0].width > 0 && Tiled(s[1..], from + s[0].width, to)
  }

  /** The height of the skyline over column c. */
  ghost function At(s: seq<Node>, c: int): int {
    if s == [] then 0 else if c < s[0].x + s[0].width then s[0].y else At(s[1..], c)
  }

  ghost predicate Heights(s: seq<Node>, lo: int, hi: int) {
    forall i | 0 <= i < |s| :: lo <= s[i].y <= hi
  }

  lemma {:induction false} TiledOrder(s: seq<Node>, from: int, to: int)
    requires Tiled(s, from, to)
    ensures from <= to
    ensures s != [] ==> from < to && s[0].x + s[0].width <= to
  {
    if s != [] {
      TiledOrder(s[1..], from + s[0].width, to);
    }
  }

  lemma {:induction false} TiledWidths(s: seq<Node>, from: int, to: int)
    requires Tiled(s, from, to)
    ensures forall i | 0 <= i < |s| :: s[i].width > 0
  {
    if s != [] {
      TiledWidths(s[1..], from + s[0].width, to);
      forall i | 0 <= i < |s|
        ensures s[i].width > 0
      {
        if i > 0 { assert s[1..][i - 1].width > 0; }
      }
    }
  }

  /** Two tilings that meet make one. */
  lemma {:induction false} TiledAppend(a: seq<Node>, b: seq<Node>, from: int, mid: int, to: int)
    requires Tiled(a, from, mid) && Tiled(b, mid, to)
    ensures Tiled(a + b, from, to)
    ensures forall c :: At(a + b, c) == if c < mid && a != [] then At(a, c) else At(b, c)
  {
    if a == [] {
      assert a + b == b;
    } else {
      TiledOrder(a, from, mid);
      TiledOrder(a[1..], from + a[0].width, mid);
      TiledAppend(a[1..], b, from + a[0].width, mid, to);
      assert (a + b)[1..] == a[1..] + b;
    }
  }

  /** The part of a tiling before node i, and the part from it on. */
  lemma {:induction false} TiledSplit(s: seq<Node>, i: nat, from: int, to: int)
    requires Tiled(s, from, to) && i < |s|
    ensures Tiled(s[..i], from, s[i].x) && Tiled(s[i..], s[i].x, to) && s[i].width > 0
    ensures from <= s[i].x && s[i].x + s[i].width <= to
  {
    TiledOrder(s, from, to);
    if i > 0 {
      TiledSplit(s[1..], i - 1, from + s[0].width, to);
      assert s[..i][1..] == s[1..][..i - 1] && s[1..][i - 1..] == s[i..];
    } else {
      assert s[..0] == [] && s[0..] == s;
    }
  }

  // ---- Raising part of the skyline

  /** What is left of the nodes from column x on. */
  function Cut(s: seq<Node>, x: int): seq<Node> {
    if s == [] then []
    else if s[0].x + s[0].width <= x then Cut(s[1..], x)
    else if s[0].x < x then [Node(x, s[0].y, s[0].width - (x - s[0].x))] + s[1..]
    else s
  }

  lemma {:induction false} CutTiled(s: seq<Node>, from: int, to: int, x: int)
    requires Tiled(s, from, to) && from <= x <= to
    ensures Tiled(Cut(s, x), x, to)
    ensures forall c | x <= c < to :: At(Cut(s, x), c) == At(s, c)
  {
    TiledOrder(s, from, to);
    if s != [] {
      if s[0].x + s[0].width <= x {
        CutTiled(s[1..], from + s[0].width, to, x);
      } else if s[0].x < x {
        var n := Node(x, s[0].y, s[0].width - (x - s[0].x));
        assert ([n] + s[1..])[1..] == s[1..];
      }
    }
  }

  lemma {:induction false} CutHeights(s: seq<Node>, x: int, lo: int, hi: int)
    requires Heights(s, lo, hi)
    ensures Heights(Cut(s, x), lo, hi)
  {
    if s != [] && s[0].x + s[0].width <= x {
      CutHeights(s[1..], x, lo, hi);
    }
  }

  /** A tiling with the columns x..x + w raised to y, where x is the start of node i. */
  function Raise(s: seq<Node>, i: nat, w: int, y: int): seq<Node>
    requires i < |s|
  {
    s[..i] + [Node(s[i].x, y, w)] + Cut(s[i..], s[i].x + w)
  }

  lemma RaiseHead(t: seq<Node>, x: int, w: int, y: int, to: int)
    requires Tiled(t, x, to) && w > 0 && x + w <= to
    ensures Tiled([Node(x, y, w)] + Cut(t, x + w), x, to)
    ensures forall c | x <= c < to :: At([Node(x, y, w)] + Cut(t, x + w), c) == if c < x + w then y else At(t, c)
  {
    CutTiled(t, x, to, x + w);
    var r := [Node(x, y, w)] + Cut(t, x + w);
    assert r[1..] == Cut(t, x + w);
    hide Cut;
    forall c | x <= c < to
      ensures At(r, c) == if c < x + w then y else At(t, c)
    {
      if c >= x + w {
        assert At(Cut(t, x + w), c) == At(t, c);
      }
    }
  }

  lemma RaiseTiled(s: seq<Node>, i: nat, w: int, y: int, from: int, to: int)
    requires Tiled(s, from, to) && i < |s| && w > 0 && s[i].x + w <= to
    ensures Tiled(Raise(s, i, w, y), from, to)
    ensures forall c | from <= c < to :: At(Raise(s, i, w, y), c) == if s[i].x <= c < s[i].x + w then y else At(s, c)
  {
    hide Tiled, Cut;
    var x := s[i].x;
    TiledSplit(s, i, from, to);
    RaiseHead(s[i..], x, w, y, to);
    TiledAppend(s[..i], [Node(x, y, w)] + Cut(s[i..], x + w), from, x, to);
    TiledAppend(s[..i], s[i..], from, x, to);
    assert s[..i] + s[i..] == s;
    assert Raise(s, i, w, y) == s[..i] + ([Node(x, y, w)] + Cut(s[i..], x + w));
    if i == 0 {
      EmptyTiled(from, x, s[..i]);
    }
    forall c | from <= c < to
      ensures At(Raise(s, i, w, y), c) == if x <= c < x + w then y else At(s, c)
    {
      if c >= x {
        assert At([Node(x, y, w)] + Cut(s[i..], x + w), c) == if c < x + w then y else At(s[i..], c);
        assert At(s[..i] + s[i..], c) == At(s[i..], c);
      }
    }
  }

  lemma EmptyTiled(from: int, to: int, s: seq<Node>)
    requires Tiled(s, from, to) && s == []
    ensures from == to
  {
  }

  lemma RaiseHeights(s: seq<Node>, i: nat, w: int, y: int, lo: int, hi: int)
    requires Heights(s, lo, hi) && i < |s| && lo <= y <= hi
    ensures Heights(Raise(s, i, w, y), lo, hi)
  {
    CutHeights(s[i..], s[i].x + w, lo, hi);
  }

  // ---- Merging neighbours

  /** Node i swallows the one after it. */
  function MergeAt(s: seq<Node>, i: nat): seq<Node>
    requires i + 1 < |s|
  {
    s[..i] + [s[i].(width := s[i].width + s[i + 1].width)] + s[i + 2..]
  }

  lemma MergeAtTiled(s: seq<Node>, i: nat, from: int, to: int)
    requires Tiled(s, from, to) && i + 1 < |s| && s[i].y == s[i + 1].y
    ensures Tiled(MergeAt(s, i), from, to)
    ensures forall c :: At(MergeAt(s, i), c) == At(s, c)
  {
    TiledSplit(s, i, from, to);
    hide Tiled, At;
    var r := s[i..];
    var m := MergeAt(r, 0);
    MergeHead(r, s[i].x, to);
    TiledAppend(s[..i], r, from, s[i].x, to);
    TiledAppend(s[..i], m, from, s[i].x, to);
    assert s[..i] + r == s && s[..i] + m == MergeAt(s, i);
  }

  lemma MergeHead(r: seq<Node>, from: int, to: int)
    requires Tiled(r, from, to) && |r| >= 2 && r[0].y == r[1].y
    ensures Tiled(MergeAt(r, 0), from, to)
    ensures forall c :: At(MergeAt(r, 0), c) == At(r, c)
  {
    var m := MergeAt(r, 0);
    assert r[1..][1..] == r[2..] && m[1..] == r[2..];
  }

  /** No two neighbours have the same height. */
  predicate Merged(s: seq<Node>) {
    forall j | 0 <= j < |s| - 1 :: s[j].y != s[j + 1].y
  }

  lemma MergedTail(s: seq<Node>)
    requires Merged(s) && s != []
    ensures Merged(s[1..]) && (|s| > 1 ==> s[1].y != s[0].y)
  {
    forall j | 0 <= j < |s[1..]| - 1
      ensures s[1..][j].y != s[1..][j + 1].y
    {
      assert s[j + 1].y != s[j + 2].y;
    }
  }

  /** The first segment of a merged skyline ends where the height changes for the first time. */
  lemma HeadEnds(s: seq<Node>, from: int, to: int)
    requires Tiled(s, from, to) && Merged(s) && s != [] && from + s[0].width < to
    ensures At(s, from + s[0].width) != s[0].y
  {
    MergedTail(s);
    TiledOrder(s[1..], from + s[0].width, to);
  }

  lemma HeadNotShorter(s: seq<Node>, t: seq<Node>, from: int, to: int)
    requires Tiled(s, from, to) && Tiled(t, from, to) && Merged(s) && s != [] && t != []
    requires forall c | from <= c < to :: At(s, c) == At(t, c)
    ensures s[0].y == t[0].y && s[0].width >= t[0].width
  {
    TiledOrder(s, from, to);
    TiledOrder(t, from, to);
    assert At(s, from) == At(t, from);
    if s[0].width < t[0].width {
      HeadEnds(s, from, to);
    }
  }

  /** Heights determine a merged skyline. */
  lemma {:induction false} MergedUnique(s: seq<Node>, t: seq<Node>, from: int, to: int)
    requires Tiled(s, from, to) && Tiled(t, from, to) && Merged(s) && Merged(t)
    requires forall c | from <= c < to :: At(s, c) == At(t, c)
    ensures s == t
  {
    TiledOrder(s, from, to);
    TiledOrder(t, from, to);
    if s != [] && t != [] {
      HeadNotShorter(s, t, from, to);
      HeadNotShorter(t, s, from, to);
      MergedTail(s);
      MergedTail(t);
      var mid := from + s[0].width;
      forall c | mid <= c < to
        ensures At(s[1..], c) == At(t[1..], c)
      {
        assert At(s, c) == At(t, c);
      }
      hide At, Merged;
      MergedUnique(s[1..], t[1..], mid, to);
      assert s == [s[0]] + s[1..] && t == [t[0]] + t[1..];
    }
  }

  // ---- The height at which a rectangle comes to rest

  /** The highest point of the skyline over the columns x..x + w. */
  ghost function MaxAt(s: seq<Node>, x: int, w: int): int
    requires w > 0
    decreases w
  {
    if w == 1 then At(s, x)
    else
      var m := MaxAt(s, x, w - 1);
      if At(s, x + w - 1) > m then At(s, x + w - 1) else m
  }

  lemma {:induction false} MaxAtIsMax(s: seq<Node>, x: int, w: int)
    requires w > 0
    ensures forall c | x <= c < x + w :: At(s, c) <= MaxAt(s, x, w)
    ensures exists c :: x <= c < x + w && At(s, c) == MaxAt(s, x, w)
    decreases w
  {
    if w == 1 {
      assert At(s, x) == MaxAt(s, x, w);
    } else {
      MaxAtIsMax(s, x, w - 1);
      var c :| x <= c < x + (w - 1) && At(s, c) == MaxAt(s, x, w - 1);
      assert x <= c < x + w && At(s, c) == MaxAt(s, x, w - 1);
      assert At(s, x + w - 1) <= MaxAt(s, x, w);
    }
  }

  /** A run of columns of the same height. */
  lemma {:induction false} MaxAtRun(s: seq<Node>, x: int, w: int, n: int, y: int)
    requires w > 0 && n > 0 && forall c | x + w <= c < x + w + n :: At(s, c) == y
    ensures MaxAt(s, x, w + n) == if y > MaxAt(s, x, w) then y else MaxAt(s, x, w)
    decreases n
  {
    assert At(s, x + w + n - 1) == y;
    if n > 1 {
      MaxAtRun(s, x, w, n - 1, y);
    }
  }

  lemma {:induction false} MaxAtFlat(s: seq<Node>, x: int, w: int, y: int)
    requires w > 0 && forall c | x <= c < x + w :: At(s, c) == y
    ensures MaxAt(s, x, w) == y
    decreases w
  {
    assert At(s, x + w - 1) == y;
    if w > 1 {
      MaxAtFlat(s, x, w - 1, y);
    }
  }

  /** The columns of node i have its height. */
  lemma {:induction false} AtNode(s: seq<Node>, i: nat, from: int, to: int)
    requires Tiled(s, from, to) && i < |s|
    ensures forall c | s[i].x <= c < s[i].x + s[i].width :: At(s, c) == s[i].y
  {
    if i > 0 {
      AtNode(s[1..], i - 1, from + s[0].width, to);
      TiledSplit(s[1..], i - 1, from + s[0].width, to);
    }
  }

  /** Where node i starts, or where the last node ends. */
  function Edge(s: seq<Node>, i: nat, to: int): int
    requires i <= |s|
  {
    if i < |s| then s[i].x else to
  }

  lemma EdgeNext(s: seq<Node>, i: nat, from: int, to: int)
    requires Tiled(s, from, to) && i < |s|
    ensures Edge(s, i + 1, to) == s[i].x + s[i].width && s[i].width > 0
  {
    TiledSplit(s, i, from, to);
    var t := s[i..];
    assert t[0] == s[i];
    if i + 1 < |s| {
      assert t[1..][0] == s[i + 1];
    }
  }
}
