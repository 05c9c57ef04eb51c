/** Turning TrueType points into vertices in place (stbtt__GetGlyphShapeTT, stb_truetype.h).
    The points stand at the end of a buffer with room for two more vertices a contour; the outline is written from
    its start. A contour is drawn by its points, an on-curve point being implied between two control points, and is
    led back to where it started. What must not happen is that a vertex is written over a point that is still to be
    read. */
module GlyphShape {
  import opened Bits

  type int16 = x: int | -0x8000 <= x < 0x8000

  const VMOVE: byte := 1
  const VLINE: byte := 2
  const VCURVE: byte := 3

  /** A point of the font, with its flags in kind, or a vertex of the outline. */
  datatype Vertex = Vertex(kind: byte, x: int16, y: int16, cx: int16, cy: int16)

  /** On the curve, not a control point. */
  predicate On(p: Vertex) { p.kind % 2 == 1 }

  function Mid(a: int16, b: int16): int16 { (a + b) / 2 }

  function Line(x: int16, y: int16): Vertex { Vertex(VLINE, x, y, 0, 0) }

  /** A quadratic curve to x, y with the control point c. */
  function Curve(x: int16, y: int16, c: Vertex): Vertex { Vertex(VCURVE, x, y, c.x, c.y) }

  // --------------------------------------------------------- specification

  /** A contour whose first point is off the curve needs a second one to find where it starts. */
  predicate GoodContour(pts: seq<Vertex>) {
    |pts| >= 1 && (!On(pts[0]) ==> |pts| >= 2)
  }

  /** The points that are used up to find the start of the contour. */
  function Used(pts: seq<Vertex>): (k: nat)
    requires GoodContour(pts)
    ensures 1 <= k <= |pts|
  {
    if !On(pts[0]) && On(pts[1]) then 2 else 1
  }

  /** Where the contour starts: its first point on the curve, or between two that are off it. */
  function StartX(pts: seq<Vertex>): int16
    requires GoodContour(pts)
  {
    if On(pts[0]) then pts[0].x else if On(pts[1]) then pts[1].x else Mid(pts[0].x, pts[1].x)
  }

  function StartY(pts: seq<Vertex>): int16
    requires GoodContour(pts)
  {
    if On(pts[0]) then pts[0].y else if On(pts[1]) then pts[1].y else Mid(pts[0].y, pts[1].y)
  }

  /** Point k - 1 is a control point whose curve is still open. */
  predicate Open(pts: seq<Vertex>, k: nat)
    requires GoodContour(pts) && k <= |pts|
  {
    k > Used(pts) && !On(pts[k - 1])
  }

  /** What point k adds to the outline. */
  function Emit(pts: seq<Vertex>, k: nat): seq<Vertex>
    requires GoodContour(pts) && Used(pts) <= k < |pts|
  {
    var p := pts[k];
    if On(p) then [if Open(pts, k) then Curve(p.x, p.y, pts[k - 1]) else Line(p.x, p.y)]
    else if Open(pts, k) then [Curve(Mid(pts[k - 1].x, p.x), Mid(pts[k - 1].y, p.y), pts[k - 1])]
    else []
  }

  /** The outline of the first k points. */
  function Drawn(pts: seq<Vertex>, k: nat): seq<Vertex>
    requires GoodContour(pts) && Used(pts) <= k <= |pts|
  {
    if k == Used(pts) then [Vertex(VMOVE, StartX(pts), StartY(pts), 0, 0)]
    else Drawn(pts, k - 1) + Emit(pts, k - 1)
  }

  /** What leads back to the start. */
  function Closing(pts: seq<Vertex>): seq<Vertex>
    requires GoodContour(pts)
  {
    var last := pts[|pts| - 1];
    var sx, sy := StartX(pts), StartY(pts);
    if On(pts[0]) then
      [if Open(pts, |pts|) then Curve(sx, sy, last) else Line(sx, sy)]
    else
      (if Open(pts, |pts|) then [Curve(Mid(last.x, pts[0].x), Mid(last.y, pts[0].y), last)] else [])
      + [Curve(sx, sy, pts[0])]
  }

  function Contour(pts: seq<Vertex>): seq<Vertex>
    requires GoodContour(pts)
  {
    Drawn(pts, |pts|) + Closing(pts)
  }

  /** The first point of contour j. */
  function First(ends: seq<nat>, j: nat): nat
    requires j <= |ends|
  {
    if j == 0 then 0 else ends[j - 1] + 1
  }

  /** Contour ends rise strictly to the last point. */
  ghost predicate EndsOk(ends: seq<nat>, n: nat) {
    && |ends| >= 1 && ends[|ends| - 1] + 1 == n
    && forall j :: 0 <= j < |ends| - 1 ==> ends[j] < ends[j + 1]
  }

  lemma {:induction false} FirstRises(ends: seq<nat>, n: nat, j: nat)
    requires EndsOk(ends, n) && j < |ends|
    ensures First(ends, j) < First(ends, j + 1) <= n
    decreases |ends| - j
  {
    if j + 1 < |ends| {
      FirstRises(ends, n, j + 1);
    }
  }

  function ContourPoints(pts: seq<Vertex>, ends: seq<nat>, j: nat): seq<Vertex>
    requires j < |ends| && First(ends, j) <= First(ends, j + 1) <= |pts|
  {
    pts[First(ends, j)..First(ends, j + 1)]
  }

  ghost predicate GoodAt(pts: seq<Vertex>, ends: seq<nat>, j: nat) {
    && j < |ends| && First(ends, j) < First(ends, j + 1) <= |pts|
    && GoodContour(ContourPoints(pts, ends, j))
  }

  ghost predicate GoodGlyph(pts: seq<Vertex>, ends: seq<nat>) {
    EndsOk(ends, |pts|) && forall j: nat :: j < |ends| ==> GoodAt(pts, ends, j)
  }

  /** The outline of the first j contours. */
  ghost function Outline(pts: seq<Vertex>, ends: seq<nat>, j: nat): seq<Vertex>
    requires GoodGlyph(pts, ends) && j <= |ends|
  {
    if j == 0 then []
    else
      assert GoodAt(pts, ends, j - 1);
      Outline(pts, ends, j - 1) + Contour(ContourPoints(pts, ends, j - 1))
  }

  /** Every point has added at most one vertex, and an open control point none yet. */
  lemma {:induction false} DrawnLength(pts: seq<Vertex>, k: nat)
    requires GoodContour(pts) && Used(pts) <= k <= |pts|
    ensures 1 <= |Drawn(pts, k)| <= 1 + (k - Used(pts)) - (if Open(pts, k) then 1 else 0)
    ensures Drawn(pts, k)[0] == Vertex(VMOVE, StartX(pts), StartY(pts), 0, 0)
    ensures forall i :: 1 <= i < |Drawn(pts, k)| ==> Drawn(pts, k)[i].kind != VMOVE
  {
    if k > Used(pts) {
      DrawnLength(pts, k - 1);
    }
  }

  /** A contour starts with the only move and ends where it started, with at most one vertex more than points. */
  lemma ContourCloses(pts: seq<Vertex>)
    requires GoodContour(pts)
    ensures var c := Contour(pts);
      && 2 <= |c| <= |pts| + 1
      && c[0].kind == VMOVE && (forall i :: 1 <= i < |c| ==> c[i].kind != VMOVE)
      && c[|c| - 1].x == c[0].x == StartX(pts) && c[|c| - 1].y == c[0].y == StartY(pts)
  {
    DrawnLength(pts, |pts|);
    hide Drawn;
    var d, e := Drawn(pts, |pts|), Closing(pts);
    var c := Contour(pts);
    assert c == d + e && c[0] == d[0] && c[|c| - 1] == e[|e| - 1];
    assert forall i :: 0 <= i < |e| ==> e[i].kind != VMOVE;
    forall i | 1 <= i < |c| ensures c[i].kind != VMOVE {
      assert c[i] == if i < |d| then d[i] else e[i - |d|];
    }
  }

  /** So a glyph has at most as many vertices as points and contours. */
  lemma {:induction false} OutlineLength(pts: seq<Vertex>, ends: seq<nat>, j: nat)
    requires GoodGlyph(pts, ends) && j <= |ends|
    ensures First(ends, j) <= |pts| && |Outline(pts, ends, j)| <= First(ends, j) + j
  {
    hide Contour, GoodContour;
    if j > 0 {
      OutlineLength(pts, ends, j - 1);
      assert GoodAt(pts, ends, j - 1);
      ContourCloses(ContourPoints(pts, ends, j - 1));
    }
  }

  // ------------------------------------- the outline by the TrueType rules

  function Midpoint(a: Vertex, b: Vertex): Vertex { Vertex(1, Mid(a.x, b.x), Mid(a.y, b.y), 0, 0) }

  /** The points with the implied ones: between two control points lies a point of the curve. */
  function WithImplied(l: seq<Vertex>): seq<Vertex> {
    if |l| <= 1 then l
    else if !On(l[0]) && !On(l[1]) then [l[0], Midpoint(l[0], l[1])] + WithImplied(l[1..])
    else [l[0]] + WithImplied(l[1..])
  }

  /** Lines to the points of the curve, and curves where a control point comes before one. */
  function Trace(l: seq<Vertex>): seq<Vertex> {
    if l == [] then []
    else if On(l[0]) then [Line(l[0].x, l[0].y)] + Trace(l[1..])
    else if |l| == 1 then []
    else [Curve(l[1].x, l[1].y, l[0])] + Trace(l[2..])
  }

  /** The way round the contour from its start to its start. */
  function Ring(pts: seq<Vertex>): (l: seq<Vertex>)
    requires GoodContour(pts)
  {
    pts[Used(pts)..] + (if On(pts[0]) then [] else [pts[0]]) + [Vertex(1, StartX(pts), StartY(pts), 0, 0)]
  }

  /** The control point whose curve is open after k points. */
  function Pending(pts: seq<Vertex>, k: nat): seq<Vertex>
    requires GoodContour(pts) && Used(pts) <= k <= |pts|
  {
    if Open(pts, k) then [pts[k - 1]] else []
  }

  lemma ImpliedFirst(p: Vertex, l: seq<Vertex>)
    requires l != []
    ensures WithImplied([p] + l) ==
      if !On(p) && !On(l[0]) then [p] + ([Midpoint(p, l[0])] + WithImplied(l)) else [p] + WithImplied(l)
  {
    assert ([p] + l)[1..] == l;
    assert [p, Midpoint(p, l[0])] + WithImplied(l) == [p] + ([Midpoint(p, l[0])] + WithImplied(l));
  }

  lemma TraceOn(p: Vertex, l: seq<Vertex>)
    requires On(p)
    ensures Trace([p] + l) == [Line(p.x, p.y)] + Trace(l)
  {
    assert ([p] + l)[1..] == l;
  }

  lemma TraceOff(q: Vertex, p: Vertex, l: seq<Vertex>)
    requires !On(q)
    ensures Trace([q] + ([p] + l)) == [Curve(p.x, p.y, q)] + Trace(l)
  {
    assert ([q] + ([p] + l))[2..] == l;
  }

  /** What point p adds when q is pending, and what is pending then. */
  lemma TraceStep(q: seq<Vertex>, p: Vertex, r: seq<Vertex>)
    requires |q| <= 1 && (q != [] ==> !On(q[0])) && r != []
    ensures Trace(WithImplied(q + ([p] + r))) ==
      (if On(p) then [if q != [] then Curve(p.x, p.y, q[0]) else Line(p.x, p.y)]
       else if q != [] then [Curve(Mid(q[0].x, p.x), Mid(q[0].y, p.y), q[0])]
       else []) + Trace(WithImplied((if On(p) then [] else [p]) + r))
  {
    hide Trace, WithImplied, Curve, Mid, Line;
    assert [] + r == r;
    if q == [] {
      assert q + ([p] + r) == [p] + r;
      if On(p) {
        ImpliedFirst(p, r);
        TraceOn(p, WithImplied(r));
      }
    } else {
      PendingStep(q[0], p, r);
      assert q == [q[0]];
    }
  }

  lemma PendingStep(q: Vertex, p: Vertex, r: seq<Vertex>)
    requires !On(q) && r != []
    ensures Trace(WithImplied([q] + ([p] + r))) ==
      if On(p) then [Curve(p.x, p.y, q)] + Trace(WithImplied(r))
      else [Curve(Mid(q.x, p.x), Mid(q.y, p.y), q)] + Trace(WithImplied([p] + r))
  {
    hide Trace, WithImplied, Curve, Mid;
    ImpliedFirst(q, [p] + r);
    if On(p) {
      ImpliedFirst(p, r);
      TraceOff(q, p, WithImplied(r));
    } else {
      TraceOff(q, Midpoint(q, p), WithImplied([p] + r));
    }
  }

  /** What is drawn after k points, and what the rest of the way round adds. */
  lemma {:induction false} RingFrom(pts: seq<Vertex>, k: nat)
    requires GoodContour(pts) && Used(pts) <= k <= |pts|
    ensures var rest := Pending(pts, k) + Ring(pts)[k - Used(pts)..];
      Contour(pts) == Drawn(pts, k) + Trace(WithImplied(rest))
    decreases |pts| - k
  {
    hide Trace, WithImplied, Closing, Emit, Pending;
    if k == |pts| {
      RingCloses(pts);
    } else {
      RingFrom(pts, k + 1);
      RingStep(pts, k);
    }
  }

  lemma RingStep(pts: seq<Vertex>, k: nat)
    requires GoodContour(pts) && Used(pts) <= k < |pts|
    ensures var u := Used(pts);
      Trace(WithImplied(Pending(pts, k) + Ring(pts)[k - u..]))
      == Emit(pts, k) + Trace(WithImplied(Pending(pts, k + 1) + Ring(pts)[k + 1 - u..]))
  {
    var u := Used(pts);
    var r := Ring(pts)[k + 1 - u..];
    assert Ring(pts)[k - u..] == [pts[k]] + r;
    hide Trace, WithImplied, Ring, Curve, Mid, Line;
    TraceStep(Pending(pts, k), pts[k], r);
  }

  lemma RingCloses(pts: seq<Vertex>)
    requires GoodContour(pts)
    ensures Closing(pts) == Trace(WithImplied(Pending(pts, |pts|) + Ring(pts)[|pts| - Used(pts)..]))
  {
    var n := |pts|;
    var start := Vertex(1, StartX(pts), StartY(pts), 0, 0);
    var q := Pending(pts, n);
    OneTrace(start);
    if On(pts[0]) {
      assert Ring(pts)[n - Used(pts)..] == [start];
      hide Ring, Trace, WithImplied, Mid;
      if Open(pts, n) {
        TwoTrace(pts[n - 1], start);
        assert q + [start] == [pts[n - 1], start];
      } else {
        assert q + [start] == [start];
      }
    } else {
      assert Ring(pts)[n - Used(pts)..] == [pts[0]] + [start];
      hide Ring, Trace, WithImplied, Mid;
      TwoTrace(pts[0], start);
      assert [pts[0]] + [start] == [pts[0], start];
      if Open(pts, n) {
        PendingStep(pts[n - 1], pts[0], [start]);
      } else {
        assert q + ([pts[0]] + [start]) == [pts[0], start];
      }
    }
  }

  lemma OneTrace(p: Vertex)
    requires On(p)
    ensures Trace(WithImplied([p])) == [Line(p.x, p.y)]
  {
    assert [p][1..] == [];
  }

  lemma TwoTrace(q: Vertex, p: Vertex)
    requires !On(q) && On(p)
    ensures Trace(WithImplied([q, p])) == [Curve(p.x, p.y, q)]
  {
    assert [q, p][1..] == [p] && [q] + [p] == [q, p] && [q, p][2..] == [];
  }

  /** The outline is the way round the contour with the implied points, traced from the start. */
  lemma ContourTraces(pts: seq<Vertex>)
    requires GoodContour(pts)
    ensures Contour(pts) == [Vertex(VMOVE, StartX(pts), StartY(pts), 0, 0)] + Trace(WithImplied(Ring(pts)))
  {
    RingFrom(pts, Used(pts));
    assert Pending(pts, Used(pts)) == [] && [] + Ring(pts)[0..] == Ring(pts);
  }

  /** A midpoint is halfway, rounded down. */
  lemma MidHalf(a: int16, b: int16)
    ensures 2 * Mid(a, b) <= a + b <= 2 * Mid(a, b) + 1
  {
  }

  /** The contour starts at the first point that is on the curve, an implied one included. */
  lemma StartPoint(pts: seq<Vertex>)
    requires GoodContour(pts)
    ensures var l := WithImplied(pts); var k := if On(pts[0]) then 0 else 1;
      k < |l| && On(l[k]) && StartX(pts) == l[k].x && StartY(pts) == l[k].y
  {
    if |pts| > 1 {
      WithImpliedFirst(pts[1..]);
    }
  }

  lemma WithImpliedFirst(l: seq<Vertex>)
    requires l != []
    ensures WithImplied(l) != [] && WithImplied(l)[0] == l[0]
  {
  }

  /** The control points, in order. */
  function Controls(l: seq<Vertex>): seq<(int16, int16)> {
    if l == [] then [] else (if On(l[0]) then [] else [(l[0].x, l[0].y)]) + Controls(l[1..])
  }

  /** The control points of the curves, in order. */
  function CurveControls(vs: seq<Vertex>): seq<(int16, int16)> {
    if vs == [] then []
    else (if vs[0].kind == VCURVE then [(vs[0].cx, vs[0].cy)] else []) + CurveControls(vs[1..])
  }

  lemma {:induction false} ImpliedControls(l: seq<Vertex>)
    ensures Controls(WithImplied(l)) == Controls(l)
  {
    if |l| > 1 {
      ImpliedControls(l[1..]);
      var w := WithImplied(l[1..]);
      if !On(l[0]) && !On(l[1]) {
        var m := Midpoint(l[0], l[1]);
        assert ([l[0], m] + w)[1..] == [m] + w && ([m] + w)[1..] == w;
      } else {
        assert ([l[0]] + w)[1..] == w;
      }
    }
  }

  /** Control points stand alone, and not at the end. */
  ghost predicate Alternates(l: seq<Vertex>) {
    forall k :: 0 <= k < |l| && !On(l[k]) ==> k + 1 < |l| && On(l[k + 1])
  }

  lemma {:induction false} ImpliedAlternates(l: seq<Vertex>)
    requires l != [] && On(l[|l| - 1])
    ensures Alternates(WithImplied(l)) && WithImplied(l) != [] && WithImplied(l)[0] == l[0]
  {
    if |l| > 1 {
      ImpliedAlternates(l[1..]);
    }
  }

  lemma {:induction false} TraceControls(l: seq<Vertex>)
    requires Alternates(l)
    ensures CurveControls(Trace(l)) == Controls(l)
    decreases |l|
  {
    if l != [] {
      if On(l[0]) {
        AlternatesLater(l, 1);
        TraceControls(l[1..]);
        hide Alternates, Trace;
        TraceOn(l[0], l[1..]);
        assert l == [l[0]] + l[1..];
        CurveControlsFirst(Line(l[0].x, l[0].y), Trace(l[1..]));
      } else {
        assert On(l[1]);
        AlternatesLater(l, 2);
        TraceControls(l[2..]);
        hide Alternates, Trace;
        TraceOff(l[0], l[1], l[2..]);
        assert l == [l[0]] + ([l[1]] + l[2..]) && l[1..][1..] == l[2..];
        CurveControlsFirst(Curve(l[1].x, l[1].y, l[0]), Trace(l[2..]));
        ControlsTwo(l);
      }
    }
  }

  lemma AlternatesLater(l: seq<Vertex>, i: nat)
    requires Alternates(l) && i <= |l|
    ensures Alternates(l[i..])
  {
    forall k | 0 <= k < |l[i..]| && !On(l[i..][k])
      ensures k + 1 < |l[i..]| && On(l[i..][k + 1])
    {
      assert !On(l[i + k]);
    }
  }

  lemma CurveControlsFirst(v: Vertex, vs: seq<Vertex>)
    ensures CurveControls([v] + vs) == (if v.kind == VCURVE then [(v.cx, v.cy)] else []) + CurveControls(vs)
  {
    assert ([v] + vs)[1..] == vs;
  }

  lemma ControlsTwo(l: seq<Vertex>)
    requires |l| >= 2 && !On(l[0]) && On(l[1])
    ensures Controls(l) == [(l[0].x, l[0].y)] + Controls(l[2..])
  {
    assert l[1..][1..] == l[2..] && [] + Controls(l[2..]) == Controls(l[2..]);
  }

  /** Every control point of the contour is that of exactly one curve, in the order of the way round. */
  lemma ContourControls(pts: seq<Vertex>)
    requires GoodContour(pts)
    ensures CurveControls(Contour(pts)) == Controls(Ring(pts))
  {
    ContourTraces(pts);
    var l := Ring(pts);
    ImpliedControls(l);
    ImpliedAlternates(l);
    hide WithImplied, Trace, Contour, Ring;
    TraceControls(WithImplied(l));
    var move := Vertex(VMOVE, StartX(pts), StartY(pts), 0, 0);
    assert ([move] + Trace(WithImplied(l)))[1..] == Trace(WithImplied(l));
  }

  // --------------------------------------------------------------- decoder

  /** What the decoder remembers of the contour it is in. */
  datatype Pen = Pen(wasOff: bool, startOff: bool, sx: int16, sy: int16, scx: int16, scy: int16, cx: int16, cy: int16)

  /** The pen after the first k points of a contour. */
  ghost predicate PenAt(pen: Pen, pts: seq<Vertex>, k: nat)
    requires GoodContour(pts) && Used(pts) <= k <= |pts|
  {
    && pen.startOff == !On(pts[0]) && pen.sx == StartX(pts) && pen.sy == StartY(pts)
    && (pen.startOff ==> pen.scx == pts[0].x && pen.scy == pts[0].y)
    && pen.wasOff == Open(pts, k)
    && (pen.wasOff ==> pen.cx == pts[k - 1].x && pen.cy == pts[k - 1].y)
  }

  /** The points from i on are still in the buffer, at their places from off on. */
  ghost predicate Intact(s: seq<Vertex>, pts: seq<Vertex>, off: nat, i: nat) {
    && |s| == off + |pts|
    && forall k :: i <= k < |pts| ==> s[off + k] == pts[k]
  }

  /** Write vertices one after the other. A place before point i is free. */
  method Write(vs: array<Vertex>, num: nat, v: Vertex, ghost pts: seq<Vertex>, ghost off: nat, ghost i: nat)
    requires num < vs.Length && num < off + i && Intact(vs[..], pts, off, i)
    modifies vs
    ensures vs[..num + 1] == old(vs[..num]) + [v]
    ensures Intact(vs[..], pts, off, i)
  {
    ghost var s := vs[..];
    vs[num] := v;
    assert vs[..] == s[num := v];
    assert vs[..num] == s[..num];
  }

  /** stbtt__close_shape. */
  method CloseShape(vs: array<Vertex>, num: nat, pen: Pen, ghost c: seq<Vertex>,
                    ghost pts: seq<Vertex>, ghost off: nat, ghost i: nat) returns (num': nat)
    requires GoodContour(c) && PenAt(pen, c, |c|)
    requires num + |Closing(c)| <= off + i && off + i <= vs.Length && Intact(vs[..], pts, off, i)
    modifies vs
    ensures num' == num + |Closing(c)| && vs[..num'] == old(vs[..num]) + Closing(c)
    ensures Intact(vs[..], pts, off, i)
  {
    hide Intact;
    num' := num;
    if pen.startOff {
      if pen.wasOff {
        Write(vs, num', Vertex(VCURVE, Mid(pen.cx, pen.scx), Mid(pen.cy, pen.scy), pen.cx, pen.cy), pts, off, i);
        num' := num' + 1;
      }
      Write(vs, num', Vertex(VCURVE, pen.sx, pen.sy, pen.scx, pen.scy), pts, off, i);
      num' := num' + 1;
    } else {
      if pen.wasOff {
        Write(vs, num', Vertex(VCURVE, pen.sx, pen.sy, pen.cx, pen.cy), pts, off, i);
      } else {
        Write(vs, num', Vertex(VLINE, pen.sx, pen.sy, 0, 0), pts, off, i);
      }
      num' := num' + 1;
    }
  }

  lemma DrawnStarts(c: seq<Vertex>)
    requires GoodContour(c)
    ensures Drawn(c, Used(c)) == [Vertex(VMOVE, StartX(c), StartY(c), 0, 0)]
  {
  }

  /** The first point of a contour: find the start and move there. Reading point i + 1 is safe because the contour
      has it. */
  method StartContour(vs: array<Vertex>, num: nat, ghost c: seq<Vertex>, ghost pts: seq<Vertex>, off: nat, i: nat)
    returns (pen: Pen, i': nat)
    requires GoodContour(c) && i + |c| <= |pts| && pts[i..i + |c|] == c
    requires num < off + i && |pts| + off == vs.Length && Intact(vs[..], pts, off, i)
    modifies vs
    ensures i' == i + Used(c) - 1 && PenAt(pen, c, Used(c))
    ensures vs[..num + 1] == old(vs[..num]) + Drawn(c, Used(c))
    ensures Intact(vs[..], pts, off, i' + 1)
  {
    hide Drawn;
    var p := vs[off + i];
    assert p == vs[..][off + i] == c[0];
    i' := i;
    var startOff := !On(p);
    var sx, sy := p.x, p.y;
    if startOff {
      var q := vs[off + i + 1];
      assert q == vs[..][off + i + 1] == pts[i + 1] == c[1];
      if !On(q) {
        sx, sy := Mid(p.x, q.x), Mid(p.y, q.y);
      } else {
        sx, sy := q.x, q.y;
        i' := i + 1;
      }
    }
    Write(vs, num, Vertex(VMOVE, sx, sy, 0, 0), pts, off, i);
    pen := Pen(false, startOff, sx, sy, p.x, p.y, 0, 0);
    DrawnStarts(c);
  }

  /** Another point of the contour. */
  method NextPoint(vs: array<Vertex>, num: nat, pen: Pen, ghost c: seq<Vertex>, ghost k: nat,
                   ghost pts: seq<Vertex>, off: nat, i: nat) returns (num': nat, pen': Pen)
    requires GoodContour(c) && Used(c) <= k < |c| && PenAt(pen, c, k)
    requires i < |pts| && pts[i] == c[k]
    requires num < off + i && |pts| + off == vs.Length && Intact(vs[..], pts, off, i)
    modifies vs
    ensures PenAt(pen', c, k + 1)
    ensures num' == num + |Emit(c, k)| && vs[..num'] == old(vs[..num]) + Emit(c, k)
    ensures Intact(vs[..], pts, off, i + 1)
  {
    var p := vs[off + i];
    assert p == vs[..][off + i] == c[k];
    num', pen' := num, pen;
    if !On(p) {
      if pen.wasOff {
        Write(vs, num, Vertex(VCURVE, Mid(pen.cx, p.x), Mid(pen.cy, p.y), pen.cx, pen.cy), pts, off, i);
        num' := num + 1;
      }
      pen' := pen.(cx := p.x, cy := p.y, wasOff := true);
    } else {
      if pen.wasOff {
        Write(vs, num, Vertex(VCURVE, p.x, p.y, pen.cx, pen.cy), pts, off, i);
      } else {
        Write(vs, num, Line(p.x, p.y), pts, off, i);
      }
      num' := num + 1;
      pen' := pen.(wasOff := false);
    }
  }

  // ------------------------------------------------------------- main loop

  /** Inside contour j, k of whose points are drawn. */
  ghost predicate Inside(out: seq<Vertex>, pen: Pen, pts: seq<Vertex>, ends: seq<nat>, j: nat, k: nat) {
    && GoodGlyph(pts, ends) && j < |ends| && GoodAt(pts, ends, j)
    && var c := ContourPoints(pts, ends, j);
    && Used(c) <= k <= |c| && PenAt(pen, c, k)
    && out == Outline(pts, ends, j) + Drawn(c, k)
  }

  lemma InsideLength(out: seq<Vertex>, pen: Pen, pts: seq<Vertex>, ends: seq<nat>, j: nat, k: nat)
    requires Inside(out, pen, pts, ends, j, k)
    ensures |out| < First(ends, j) + k + j + 1
    ensures var c := ContourPoints(pts, ends, j); |out| + |Closing(c)| <= First(ends, j) + |c| + j + 1
  {
    hide Outline;
    OutlineLength(pts, ends, j);
    DrawnLength(ContourPoints(pts, ends, j), k);
  }

  /** Where contour j is in the points. */
  lemma ContourPlace(pts: seq<Vertex>, ends: seq<nat>, j: nat)
    requires GoodGlyph(pts, ends) && j < |ends|
    ensures GoodAt(pts, ends, j)
    ensures var c := ContourPoints(pts, ends, j); var i := First(ends, j);
      i + |c| == First(ends, j + 1) <= |pts| && pts[i..i + |c|] == c && forall k :: 0 <= k < |c| ==> c[k] == pts[i + k]
  {
    hide GoodContour;
    assert GoodAt(pts, ends, j);
  }

  lemma InsideMeans(out: seq<Vertex>, pen: Pen, pts: seq<Vertex>, ends: seq<nat>, j: nat, k: nat)
    requires Inside(out, pen, pts, ends, j, k)
    ensures GoodAt(pts, ends, j)
    ensures var c := ContourPoints(pts, ends, j);
      GoodContour(c) && Used(c) <= k <= |c| && PenAt(pen, c, k) && out == Outline(pts, ends, j) + Drawn(c, k)
  {
    hide Outline, Drawn, PenAt;
  }

  lemma InsideStarts(out: seq<Vertex>, pen: Pen, pts: seq<Vertex>, ends: seq<nat>, j: nat)
    requires GoodGlyph(pts, ends) && j < |ends| && GoodAt(pts, ends, j)
    requires var c := ContourPoints(pts, ends, j);
      PenAt(pen, c, Used(c)) && out == Outline(pts, ends, j) + Drawn(c, Used(c))
    ensures Inside(out, pen, pts, ends, j, Used(ContourPoints(pts, ends, j)))
  {
    hide Outline, Drawn, PenAt;
  }

  lemma NoOutline(pts: seq<Vertex>, ends: seq<nat>)
    requires GoodGlyph(pts, ends)
    ensures Outline(pts, ends, 0) == []
  {
  }

  lemma GoodIsGood(pts: seq<Vertex>, ends: seq<nat>, j: nat)
    requires GoodAt(pts, ends, j)
    ensures GoodContour(ContourPoints(pts, ends, j))
  {
  }

  lemma OutlineGrows(pts: seq<Vertex>, ends: seq<nat>, j: nat)
    requires GoodGlyph(pts, ends) && j < |ends| && GoodAt(pts, ends, j)
    ensures var c := ContourPoints(pts, ends, j);
      Outline(pts, ends, j + 1) == Outline(pts, ends, j) + (Drawn(c, |c|) + Closing(c))
  {
    hide Drawn, Closing;
  }

  lemma EmitsFew(pts: seq<Vertex>, k: nat)
    requires GoodContour(pts) && Used(pts) <= k < |pts|
    ensures |Emit(pts, k)| <= 1
  {
  }

  lemma GoodEnds(pts: seq<Vertex>, ends: seq<nat>)
    requires GoodGlyph(pts, ends)
    ensures EndsOk(ends, |pts|)
  {
  }

  lemma FirstNext(ends: seq<nat>, j: nat)
    requires j < |ends| || j == 0
    ensures First(ends, 0) == 0
    ensures j < |ends| ==> First(ends, j + 1) == ends[j] + 1
  {
  }

  lemma AllIntact(s: seq<Vertex>, off: nat)
    requires off <= |s|
    ensures Intact(s, s[off..], off, 0)
  {
  }

  /** The end of contour j - 1 and the start of contour j. */
  method NewContour(vs: array<Vertex>, num: nat, pen: Pen, ghost pts: seq<Vertex>, ends: seq<nat>, j: nat, off: nat,
                    i: nat)
    returns (num': nat, pen': Pen, i': nat)
    requires GoodGlyph(pts, ends) && j < |ends| && i == First(ends, j) && num <= vs.Length
    requires off == 2 * |ends| && vs.Length == |pts| + off && Intact(vs[..], pts, off, i)
    requires j == 0 ==> num == 0
    requires j > 0 ==> Inside(vs[..num], pen, pts, ends, j - 1, First(ends, j) - First(ends, j - 1))
    modifies vs
    ensures num' <= vs.Length && i <= i' < First(ends, j + 1)
    ensures Inside(vs[..num'], pen', pts, ends, j, i' + 1 - First(ends, j))
    ensures Intact(vs[..], pts, off, i' + 1)
  {
    hide *;
    num' := num;
    if j > 0 {
      assert First(ends, j - 1 + 1) == First(ends, j);
      ContourPlace(pts, ends, j - 1);
      num' := CloseContour(vs, num, pen, pts, ends, j - 1, off);
    } else {
      NoOutline(pts, ends);
      assert vs[..0] == [];
    }
    ContourPlace(pts, ends, j);
    ghost var c := ContourPoints(pts, ends, j);
    GoodIsGood(pts, ends, j);
    OutlineLength(pts, ends, j);
    pen', i' := StartContour(vs, num', c, pts, off, i);
    num' := num' + 1;
    InsideStarts(vs[..num'], pen', pts, ends, j);
  }

  method CloseContour(vs: array<Vertex>, num: nat, pen: Pen, ghost pts: seq<Vertex>, ends: seq<nat>, ghost j: nat,
                      ghost off: nat)
    returns (num': nat)
    requires GoodGlyph(pts, ends) && j < |ends| && num <= vs.Length && First(ends, j) <= First(ends, j + 1)
    requires off == 2 * |ends| && vs.Length == |pts| + off && Intact(vs[..], pts, off, First(ends, j + 1))
    requires Inside(vs[..num], pen, pts, ends, j, First(ends, j + 1) - First(ends, j))
    modifies vs
    ensures num' <= vs.Length && vs[..num'] == Outline(pts, ends, j + 1)
    ensures Intact(vs[..], pts, off, First(ends, j + 1))
  {
    hide *;
    ContourPlace(pts, ends, j);
    ghost var c := ContourPoints(pts, ends, j);
    ghost var out := vs[..num];
    InsideLength(out, pen, pts, ends, j, |c|);
    InsideMeans(out, pen, pts, ends, j, |c|);
    num' := CloseShape(vs, num, pen, c, pts, off, First(ends, j + 1));
    assert vs[..num'] == Outline(pts, ends, j) + (Drawn(c, |c|) + Closing(c));
    OutlineGrows(pts, ends, j);
  }

  /** One more point inside contour j. */
  method Inner(vs: array<Vertex>, num: nat, pen: Pen, ghost pts: seq<Vertex>, ends: seq<nat>, ghost j: nat, off: nat,
               i: nat)
    returns (num': nat, pen': Pen)
    requires GoodGlyph(pts, ends) && j < |ends| && First(ends, j) < i < First(ends, j + 1) && num <= vs.Length
    requires off == 2 * |ends| && vs.Length == |pts| + off && Intact(vs[..], pts, off, i)
    requires Inside(vs[..num], pen, pts, ends, j, i - First(ends, j))
    modifies vs
    ensures num' <= vs.Length && Inside(vs[..num'], pen', pts, ends, j, i + 1 - First(ends, j))
    ensures Intact(vs[..], pts, off, i + 1)
  {
    hide *;
    ContourPlace(pts, ends, j);
    ghost var c := ContourPoints(pts, ends, j);
    ghost var k := i - First(ends, j);
    ghost var out := vs[..num];
    InsideLength(out, pen, pts, ends, j, k);
    InsideMeans(out, pen, pts, ends, j, k);
    num', pen' := NextPoint(vs, num, pen, c, k, pts, off, i);
    EmitsFew(c, k);
    InsideGrows(out, vs[..num'], pen', pts, ends, j, k);
  }

  lemma InsideGrows(out: seq<Vertex>, out': seq<Vertex>, pen': Pen, pts: seq<Vertex>, ends: seq<nat>, j: nat, k: nat)
    requires GoodGlyph(pts, ends) && j < |ends| && GoodAt(pts, ends, j)
    requires var c := ContourPoints(pts, ends, j);
      Used(c) <= k < |c| && PenAt(pen', c, k + 1) && out == Outline(pts, ends, j) + Drawn(c, k)
        && out' == out + Emit(c, k)
    ensures Inside(out', pen', pts, ends, j, k + 1)
  {
    hide Outline, Emit, PenAt;
    var c := ContourPoints(pts, ends, j);
    assert Drawn(c, k + 1) == Drawn(c, k) + Emit(c, k);
  }

  lemma LastContour(ends: seq<nat>, n: nat, j: nat)
    requires EndsOk(ends, n) && j <= |ends|
    ensures |ends| >= 1 && First(ends, j) <= n && (First(ends, j) == n <==> j == |ends|)
  {
    if j < |ends| {
      FirstRises(ends, n, j);
    }
  }

  /** The points are at the end of the buffer; the outline is written from its start, over points that were read. */
  method Convert(vs: array<Vertex>, ends: seq<nat>, n: nat) returns (num: nat)
    requires vs.Length == n + 2 * |ends| && GoodGlyph(vs[2 * |ends|..], ends)
    modifies vs
    ensures num <= n + |ends| && vs[..num] == Outline(old(vs[2 * |ends|..]), ends, |ends|)
  {
    hide *;
    var off := 2 * |ends|;
    ghost var pts := vs[off..];
    GoodEnds(pts, ends);
    FirstNext(ends, 0);
    AllIntact(vs[..], off);
    LastContour(ends, n, 0);
    num := 0;
    var i, j, nextMove := 0, 0, 0;
    var pen := Pen(false, false, 0, 0, 0, 0, 0, 0);
    while i < n
      invariant i <= n && j <= |ends| && num <= vs.Length
      invariant nextMove == First(ends, j) && i <= nextMove
      invariant j == 0 ==> i == 0 && num == 0 && nextMove == 0
      invariant j > 0 ==> First(ends, j - 1) < i && Inside(vs[..num], pen, pts, ends, j - 1, i - First(ends, j - 1))
      invariant Intact(vs[..], pts, off, i)
      decreases n - i
    {
      LastContour(ends, n, j);
      if nextMove == i {
        FirstRises(ends, n, j);
        num, pen, i := NewContour(vs, num, pen, pts, ends, j, off, i);
        nextMove := 1 + ends[j];
        FirstNext(ends, j);
        j := j + 1;
      } else {
        num, pen := Inner(vs, num, pen, pts, ends, j - 1, off, i);
      }
      i := i + 1;
    }
    LastContour(ends, n, j);
    num := CloseContour(vs, num, pen, pts, ends, j - 1, off);
    OutlineLength(pts, ends, |ends|);
  }
}
