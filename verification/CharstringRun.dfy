/** The charstring interpreter, run once to count and once to emit (stb_truetype.h).
    The C code relies on both passes taking the same path: the second one stores into an allocation of the size that
    the first one counted. Here both refine one function of the charstring, in which the mode does not occur, and
    the storing mode asks for room for what that function draws. */
module CharstringRun {
  import opened Bits
  import opened Charstring

  /** A vertex as it is stored, in 16-bit fields. */
  function Stored(v: Vertex): Vertex {
    Vertex(v.kind, Wrap16(v.x), Wrap16(v.y), Wrap16(v.cx), Wrap16(v.cy), Wrap16(v.cx1), Wrap16(v.cy1))
  }

  ghost predicate StoredAs(a: seq<Vertex>, out: seq<Vertex>) {
    |a| == |out| && forall k :: 0 <= k < |out| ==> a[k] == Stored(out[k])
  }

  /** The coordinates that the bounding box takes in: the vertex and, for a cubic, its control points. */
  function Xs(out: seq<Vertex>): seq<int> {
    if out == [] then []
    else
      var v := out[|out| - 1];
      Xs(out[..|out| - 1]) + (if v.kind == VCUBIC then [v.x, v.cx, v.cx1] else [v.x])
  }

  function Ys(out: seq<Vertex>): seq<int> {
    if out == [] then []
    else
      var v := out[|out| - 1];
      Ys(out[..|out| - 1]) + (if v.kind == VCUBIC then [v.y, v.cy, v.cy1] else [v.y])
  }

  /** lo..hi is the least range that holds all the values. */
  ghost predicate Spans(vals: seq<int>, lo: int, hi: int) {
    vals != [] ==> lo in vals && hi in vals && forall v :: v in vals ==> lo <= v <= hi
  }

  lemma SpansMore(vals: seq<int>, lo: int, hi: int, v: int)
    requires Spans(vals, lo, hi)
    ensures Spans(vals + [v], if v < lo || vals == [] then v else lo, if v > hi || vals == [] then v else hi)
  {
    var all := vals + [v];
    assert all[|vals|] == v;
    assert forall u :: u in all <==> u in vals || u == v;
  }

  lemma {:induction false} XsEmpty(out: seq<Vertex>)
    ensures Xs(out) == [] <==> out == []
    ensures Ys(out) == [] <==> out == []
  {
  }

  lemma RunGrows(font: Font, st: State, pen: Pen)
    requires StateOk(st)
    ensures pen.out <= Run(font, st, pen).1.out
    decreases Level(st, 0), Level(st, 1), Level(st, 2), Level(st, 3), Level(st, 4), Level(st, 5),
      Level(st, 6), Level(st, 7), Level(st, 8), Level(st, 9), Level(st, 10)
  {
    hide Draw, Step;
    if Left(st.b) > 0 && Step(font, st).Next? {
      var next := Step(font, st);
      StepDescends(font, st);
      DrawGrows(pen, next.path);
      RunGrows(font, next.st, Draw(pen, next.path));
    }
  }

  class Ctx {
    /** Whether this pass counts vertices and takes their bounds, or stores them. */
    const bounds: bool
    const vertices: array<Vertex>
    var started: bool
    var firstX: real
    var firstY: real
    var x: real
    var y: real
    var minX: int
    var maxX: int
    var minY: int
    var maxY: int
    var num: nat
    /** All the vertices so far, as the charstring draws them. */
    ghost var out: seq<Vertex>

    ghost predicate Valid()
      reads this, vertices
    {
      && num == |out|
      && (bounds ==> (started <==> out != []) && Spans(Xs(out), minX, maxX) && Spans(Ys(out), minY, maxY))
      && (!bounds ==> num <= vertices.Length && StoredAs(vertices[..num], out))
    }

    ghost function TracePen(): Pen
      reads this
    {
      Pen(x, y, firstX, firstY, out)
    }

    /** There is room for the vertices that are still to come. */
    ghost predicate Room(p: Pen) {
      !bounds ==> |p.out| <= vertices.Length
    }

    constructor (bounds: bool, vertices: array<Vertex>)
      ensures Valid() && TracePen() == NewPen() && this.bounds == bounds && this.vertices == vertices
    {
      this.bounds, this.vertices := bounds, vertices;
      started, firstX, firstY, x, y := false, 0.0, 0.0, 0.0, 0.0;
      minX, maxX, minY, maxY, num, out := 0, 0, 0, 0, 0, [];
    }

    /** stbtt__track_vertex. */
    method Track(px: int, py: int, ghost xs: seq<int>, ghost ys: seq<int>)
      requires (started <==> xs != []) && (started <==> ys != []) && Spans(xs, minX, maxX) && Spans(ys, minY, maxY)
      modifies this`started, this`minX, this`maxX, this`minY, this`maxY
      ensures started && Spans(xs + [px], minX, maxX) && Spans(ys + [py], minY, maxY)
    {
      SpansMore(xs, minX, maxX, px);
      SpansMore(ys, minY, maxY, py);
      hide Spans;
      if px > maxX || !started { maxX := px; }
      if py > maxY || !started { maxY := py; }
      if px < minX || !started { minX := px; }
      if py < minY || !started { minY := py; }
      started := true;
    }

    /** The counting half of stbtt__csctx_v. */
    method TrackAll(v: Vertex)
      requires Valid() && bounds
      modifies this`started, this`minX, this`maxX, this`minY, this`maxY
      ensures started && Spans(Xs(out + [v]), minX, maxX) && Spans(Ys(out + [v]), minY, maxY)
    {
      hide Spans, Xs, Ys;
      ghost var xs, ys := Xs(out), Ys(out);
      XsEmpty(out);
      Track(v.x, v.y, xs, ys);
      if v.kind == VCUBIC {
        Track(v.cx, v.cy, xs + [v.x], ys + [v.y]);
        Track(v.cx1, v.cy1, xs + [v.x] + [v.cx], ys + [v.y] + [v.cy]);
        assert xs + [v.x] + [v.cx] + [v.cx1] == xs + [v.x, v.cx, v.cx1];
        assert ys + [v.y] + [v.cy] + [v.cy1] == ys + [v.y, v.cy, v.cy1];
      }
      CoordsGrow(out, v);
    }

    /** stbtt__csctx_v. */
    method Add(v: Vertex)
      requires Valid() && (!bounds ==> num < vertices.Length)
      modifies this`started, this`minX, this`maxX, this`minY, this`maxY, this`num, this`out, vertices
      ensures Valid() && out == old(out) + [v]
    {
      hide Spans, Xs, Ys;
      if bounds {
        TrackAll(v);
      } else {
        ghost var before := vertices[..num];
        vertices[num] := Stored(v);
        assert vertices[..num + 1] == before + [Stored(v)];
      }
      num := num + 1;
      out := out + [v];
    }

    method CloseShape()
      requires Valid() && Room(Closed(TracePen()))
      modifies this, vertices
      ensures Valid() && TracePen() == Closed(old(TracePen()))
    {
      hide Trunc;
      if firstX != x || firstY != y {
        Add(Vertex(VLINE, Trunc(firstX), Trunc(firstY), 0, 0, 0, 0));
      }
    }

    /** stbtt__csctx_rmove_to, rline_to and rccurve_to. */
    method Segment(g: Seg)
      requires Valid() && Room(Apply(TracePen(), g))
      modifies this, vertices
      ensures Valid() && TracePen() == Apply(old(TracePen()), g)
    {
      hide Trunc, Spans, Xs, Ys, StoredAs;
      match g
      case Move(dx, dy) =>
        CloseShape();
        x, y := x + dx, y + dy;
        firstX, firstY := x, y;
        Add(Vertex(VMOVE, Trunc(x), Trunc(y), 0, 0, 0, 0));
      case Line(dx, dy) =>
        x, y := x + dx, y + dy;
        Add(Vertex(VLINE, Trunc(x), Trunc(y), 0, 0, 0, 0));
      case Cubic(dx1, dy1, dx2, dy2, dx3, dy3) =>
        var cx1, cy1 := x + dx1, y + dy1;
        var cx2, cy2 := cx1 + dx2, cy1 + dy2;
        x, y := cx2 + dx3, cy2 + dy3;
        Add(Vertex(VCUBIC, Trunc(x), Trunc(y), Trunc(cx1), Trunc(cy1), Trunc(cx2), Trunc(cy2)));
    }
  }

  lemma CoordsGrow(out: seq<Vertex>, v: Vertex)
    ensures Xs(out + [v]) == Xs(out) + (if v.kind == VCUBIC then [v.x, v.cx, v.cx1] else [v.x])
    ensures Ys(out + [v]) == Ys(out) + (if v.kind == VCUBIC then [v.y, v.cy, v.cy1] else [v.y])
  {
    assert (out + [v])[..|out|] == out;
  }

  // ------------------------------------------------------------- operators

  lemma DrawFirst(p: Pen, g: Seg, rest: seq<Seg>)
    ensures Draw(p, [g] + rest) == Draw(Apply(p, g), rest)
    ensures |Apply(p, g).out| <= |Draw(p, [g] + rest).out|
  {
    assert ([g] + rest)[1..] == rest;
    DrawGrows(Apply(p, g), rest);
  }

  lemma DrawNone(p: Pen)
    ensures Draw(p, []) == p
  {
  }

  /** Draw the first segment of a path; goal is the pen at the end of the path. */
  method Emit(c: Ctx, g: Seg, ghost rest: seq<Seg>, ghost goal: Pen)
    requires c.Valid() && c.Room(goal) && Draw(c.TracePen(), [g] + rest) == goal
    modifies c, c.vertices
    ensures c.Valid() && Draw(c.TracePen(), rest) == goal
  {
    hide Draw, Apply;
    DrawFirst(c.TracePen(), g, rest);
    c.Segment(g);
  }

  lemma Cons(g: Seg, a: seq<Seg>, rest: seq<Seg>)
    ensures [g] + a + rest == [g] + (a + rest)
  {
  }

  method EmitLines(c: Ctx, s: seq<real>, end: nat, ghost rest: seq<Seg>, ghost goal: Pen) returns (i: nat)
    requires end <= |s| && c.Valid() && c.Room(goal) && Draw(c.TracePen(), Lines(s, 0, end) + rest) == goal
    modifies c, c.vertices
    ensures c.Valid() && Draw(c.TracePen(), rest) == goal && i == Groups(end, 2)
  {
    hide Draw;
    i := 0;
    while i + 1 < end
      invariant c.Valid() && Draw(c.TracePen(), Lines(s, i, end) + rest) == goal
      invariant i <= end && i + Groups(end - i, 2) == Groups(end, 2)
      decreases end - i
    {
      Cons(Line(s[i], s[i + 1]), Lines(s, i + 2, end), rest);
      Emit(c, Line(s[i], s[i + 1]), Lines(s, i + 2, end) + rest, goal);
      i := i + 2;
    }
    assert [] + rest == rest;
  }

  method EmitCurves(c: Ctx, s: seq<real>, end: nat, ghost rest: seq<Seg>, ghost goal: Pen) returns (i: nat)
    requires end <= |s| && c.Valid() && c.Room(goal) && Draw(c.TracePen(), Curves(s, 0, end) + rest) == goal
    modifies c, c.vertices
    ensures c.Valid() && Draw(c.TracePen(), rest) == goal && i == Groups(end, 6)
  {
    hide Draw;
    i := 0;
    while i + 5 < end
      invariant c.Valid() && Draw(c.TracePen(), Curves(s, i, end) + rest) == goal
      invariant i <= end && i + Groups(end - i, 6) == Groups(end, 6)
      decreases end - i
    {
      var g := Cubic(s[i], s[i + 1], s[i + 2], s[i + 3], s[i + 4], s[i + 5]);
      Cons(g, Curves(s, i + 6, end), rest);
      Emit(c, g, Curves(s, i + 6, end) + rest, goal);
      i := i + 6;
    }
    assert [] + rest == rest;
  }

  /** hlineto and vlineto: one loop entered in two places. */
  method EmitSteps(c: Ctx, s: seq<real>, first: bool, ghost goal: Pen)
    requires c.Valid() && c.Room(goal) && Draw(c.TracePen(), Steps(s, 0, first)) == goal
    modifies c, c.vertices
    ensures c.Valid() && c.TracePen() == goal
  {
    hide Draw;
    var i, horizontal := 0, first;
    while i < |s|
      invariant 0 <= i && c.Valid() && Draw(c.TracePen(), Steps(s, i, horizontal)) == goal
    {
      Emit(c, if horizontal then Line(s[i], 0.0) else Line(0.0, s[i]), Steps(s, i + 1, !horizontal), goal);
      i, horizontal := i + 1, !horizontal;
    }
    DrawNone(c.TracePen());
  }

  /** hvcurveto and vhcurveto: one loop entered in two places. */
  method EmitBends(c: Ctx, s: seq<real>, first: bool, ghost goal: Pen)
    requires c.Valid() && c.Room(goal) && Draw(c.TracePen(), Bends(s, 0, first)) == goal
    modifies c, c.vertices
    ensures c.Valid() && c.TracePen() == goal
  {
    hide Draw;
    var i, horizontal := 0, first;
    while i + 3 < |s|
      invariant 0 <= i && c.Valid() && Draw(c.TracePen(), Bends(s, i, horizontal)) == goal
    {
      var free := if |s| - i == 5 then s[i + 4] else 0.0;
      var g := if horizontal then Cubic(s[i], 0.0, s[i + 1], s[i + 2], free, s[i + 3])
               else Cubic(0.0, s[i], s[i + 1], s[i + 2], s[i + 3], free);
      Emit(c, g, Bends(s, i + 4, !horizontal), goal);
      i, horizontal := i + 4, !horizontal;
    }
    DrawNone(c.TracePen());
  }

  /** vvcurveto and hhcurveto. */
  method EmitWaves(c: Ctx, s: seq<real>, horizontal: bool, ghost goal: Pen)
    requires |s| >= 4 && c.Valid() && c.Room(goal)
    requires Draw(c.TracePen(), Waves(s, |s| % 2, if |s| % 2 == 1 then s[0] else 0.0, horizontal)) == goal
    modifies c, c.vertices
    ensures c.Valid() && c.TracePen() == goal
  {
    hide Draw;
    var i, f := 0, 0.0;
    if |s| % 2 == 1 {
      f, i := s[0], 1;
    }
    while i + 3 < |s|
      invariant 0 <= i && c.Valid() && Draw(c.TracePen(), Waves(s, i, f, horizontal)) == goal
    {
      var g := if horizontal then Cubic(s[i], f, s[i + 1], s[i + 2], s[i + 3], 0.0)
               else Cubic(f, s[i], s[i + 1], s[i + 2], 0.0, s[i + 3]);
      Emit(c, g, Waves(s, i + 4, 0.0, horizontal), goal);
      i, f := i + 4, 0.0;
    }
    DrawNone(c.TracePen());
  }

  /** One segment and nothing after it. */
  method EmitOne(c: Ctx, g: Seg, ghost goal: Pen)
    requires c.Valid() && c.Room(goal) && Draw(c.TracePen(), [g]) == goal
    modifies c, c.vertices
    ensures c.Valid() && c.TracePen() == goal
  {
    hide Draw, Apply;
    assert [g] + [] == [g];
    Emit(c, g, [], goal);
    DrawNone(c.TracePen());
  }

  /** rcurveline and rlinecurve. Both groups of operands are there, so neither of the later checks fails. */
  method EmitMixed(c: Ctx, op: byte, s: seq<real>, ghost goal: Pen)
    requires (op == 0x18 || op == 0x19) && |s| >= 8 && c.Valid() && c.Room(goal)
    requires Draw(c.TracePen(), PathOf(op, s)) == goal
    modifies c, c.vertices
    ensures c.Valid() && c.TracePen() == goal
  {
    hide Draw, Lines, Curves;
    if op == 0x18 {
      ghost var j := Groups(|s| - 2, 6);
      var i := EmitCurves(c, s, |s| - 2, [Line(s[j], s[j + 1])], goal);
      EmitOne(c, Line(s[i], s[i + 1]), goal);
    } else {
      ghost var j := Groups(|s| - 6, 2);
      var i := EmitLines(c, s, |s| - 6, [Cubic(s[j], s[j + 1], s[j + 2], s[j + 3], s[j + 4], s[j + 5])], goal);
      EmitOne(c, Cubic(s[i], s[i + 1], s[i + 2], s[i + 3], s[i + 4], s[i + 5]), goal);
    }
  }

  /** The path operators. */
  method EmitPath(c: Ctx, op: byte, s: seq<real>, ghost goal: Pen)
    requires (IsMove(op) || IsPath(op)) && |s| >= Needs(op) && c.Valid() && c.Room(goal)
    requires Draw(c.TracePen(), PathOf(op, s)) == goal
    modifies c, c.vertices
    ensures c.Valid() && c.TracePen() == goal
  {
    hide Draw, Lines, Curves, Steps, Bends, Waves, Groups;
    if IsMove(op) {
      var n := |s|;
      var g := if op == 0x15 then Move(s[n - 2], s[n - 1])
               else if op == 0x04 then Move(0.0, s[n - 1])
               else Move(s[n - 1], 0.0);
      EmitOne(c, g, goal);
    } else if op == 0x05 {
      assert Lines(s, 0, |s|) + [] == Lines(s, 0, |s|);
      var _ := EmitLines(c, s, |s|, [], goal);
      DrawNone(c.TracePen());
    } else if op == 0x08 {
      assert Curves(s, 0, |s|) + [] == Curves(s, 0, |s|);
      var _ := EmitCurves(c, s, |s|, [], goal);
      DrawNone(c.TracePen());
    } else if op == 0x06 || op == 0x07 {
      EmitSteps(c, s, op == 0x06, goal);
    } else if op == 0x1E || op == 0x1F {
      EmitBends(c, s, op == 0x1F, goal);
    } else if op == 0x18 || op == 0x19 {
      EmitMixed(c, op, s, goal);
    } else {
      EmitWaves(c, s, op == 0x1B, goal);
    }
  }

  /** The flex operators: always two curves, whatever the flex depth. */
  method EmitFlex(c: Ctx, op: byte, s: seq<real>, ghost goal: Pen)
    requires 0x22 <= op <= 0x25 && |s| >= FlexNeeds(op) && c.Valid() && c.Room(goal)
    requires Draw(c.TracePen(), FlexOf(op, s)) == goal
    modifies c, c.vertices
    ensures c.Valid() && c.TracePen() == goal
  {
    hide Draw;
    var a, b;
    if op == 0x22 {
      a := Cubic(s[0], 0.0, s[1], s[2], s[3], 0.0);
      b := Cubic(s[4], 0.0, s[5], -s[2], s[6], 0.0);
    } else if op == 0x23 {
      a := Cubic(s[0], s[1], s[2], s[3], s[4], s[5]);
      b := Cubic(s[6], s[7], s[8], s[9], s[10], s[11]);
    } else if op == 0x24 {
      a := Cubic(s[0], s[1], s[2], s[3], s[4], 0.0);
      b := Cubic(s[5], 0.0, s[6], s[7], s[8], -(s[1] + s[3] + s[7]));
    } else {
      var dx6, dy6 := s[10], s[10];
      var dx, dy := s[0] + s[2] + s[4] + s[6] + s[8], s[1] + s[3] + s[5] + s[7] + s[9];
      if Abs(dx) > Abs(dy) {
        dy6 := -dy;
      } else {
        dx6 := -dx;
      }
      a := Cubic(s[0], s[1], s[2], s[3], s[4], s[5]);
      b := Cubic(s[6], s[7], s[8], s[9], dx6, dy6);
    }
    assert FlexOf(op, s) == [a] + [b];
    Emit(c, a, [b], goal);
    EmitOne(c, b, goal);
  }

  // ------------------------------------------------------------- main loop

  /** stbtt__buf_get8. */
  method Get8(b: Buf) returns (v: byte, b': Buf)
    requires BufOk(b)
    ensures v == Peek(b) && b' == Past(b, 1)
  {
    if b.cursor >= |b.data| {
      return 0, b;
    }
    return b.data[b.cursor], b.(cursor := b.cursor + 1);
  }

  /** stbtt__buf_get. */
  method GetWord(b: Buf, n: nat) returns (v: nat, b': Buf)
    requires BufOk(b)
    ensures v == Word(b, n) && b' == Past(b, n)
  {
    v, b' := 0, b;
    for i: nat := 0 to n
      invariant v == Word(b, i) && b' == Past(b, i)
    {
      var d;
      d, b' := Get8(b');
      v := v * 0x100 + d;
    }
  }

  /** An operand that starts with b0, the byte before b: stbtt__cff_int, or a 16.16 number. */
  method GetNumber(b0: byte, b: Buf) returns (f: real, b': Buf)
    requires BufOk(b) && (b0 == 28 || b0 >= 32)
    ensures f == Number(b0, b) && b' == Past(b, NumberLength(b0))
  {
    hide Word;
    b' := b;
    if b0 == 255 {
      var v;
      v, b' := GetWord(b, 4);
      f := Wrap32(v) as real / 65536.0;
    } else if b0 == 28 {
      var v;
      v, b' := GetWord(b, 2);
      f := Wrap16(v) as real;
    } else if b0 <= 246 {
      f := (b0 - 139) as real;
    } else {
      var d;
      d, b' := Get8(b);
      f := (if b0 <= 250 then (b0 - 247) * 256 + d + 108 else -(b0 - 251) * 256 - d - 108) as real;
    }
  }

  datatype Status = Going | Stopped | Finished

  /** What one turn of the interpreter's loop leaves behind. */
  ghost predicate Turned(font: Font, st: State, p: Pen, status: Status, st': State, p': Pen)
    requires StateOk(st) && Left(st.b) > 0
  {
    match Step(font, st)
    case Fail => status == Stopped && p' == p
    case End => status == Finished && p' == p
    case Next(next, path) => status == Going && st' == next && p' == Draw(p, path)
  }

  /** The pen once this turn is over: what there must be room for. */
  ghost function Ahead(font: Font, st: State, p: Pen): Pen
    requires StateOk(st) && Left(st.b) > 0
  {
    if Step(font, st).Next? then Draw(p, Step(font, st).path) else p
  }

  method TurnFlex(font: Font, st: State, c: Ctx) returns (status: Status, st': State)
    requires StateOk(st) && Left(st.b) > 0 && Peek(st.b) == 0x0C && c.Valid() && c.Room(Ahead(font, st, c.TracePen()))
    modifies c, c.vertices
    ensures c.Valid() && Turned(font, st, old(c.TracePen()), status, st', c.TracePen())
  {
    hide Draw, FlexOf, Peek, Past, PathOf;
    var b1, b := Get8(Past(st.b, 1));
    if !(0x22 <= b1 <= 0x25) || |st.s| < FlexNeeds(b1) {
      return Stopped, st;
    }
    ghost var goal := Draw(c.TracePen(), FlexOf(b1, st.s));
    EmitFlex(c, b1, st.s, goal);
    return Going, st.(b := b, s := []);
  }

  method TurnPath(font: Font, st: State, c: Ctx) returns (status: Status, st': State)
    requires StateOk(st) && Left(st.b) > 0 && (IsMove(Peek(st.b)) || IsPath(Peek(st.b)))
    requires c.Valid() && c.Room(Ahead(font, st, c.TracePen()))
    modifies c, c.vertices
    ensures c.Valid() && Turned(font, st, old(c.TracePen()), status, st', c.TracePen())
  {
    hide Draw, PathOf, Peek, Past, Needs;
    var op, b := Get8(st.b);
    if |st.s| < Needs(op) {
      return Stopped, st;
    }
    ghost var goal := Draw(c.TracePen(), PathOf(op, st.s));
    EmitPath(c, op, st.s, goal);
    return Going, st.(b := b, s := [], inHeader := st.inHeader && !IsMove(op));
  }

  /** The operators that draw nothing. */
  method TurnOther(font: Font, st: State) returns (status: Status, st': State)
    requires StateOk(st) && Left(st.b) > 0 && !IsMove(Peek(st.b)) && !IsPath(Peek(st.b)) && Peek(st.b) != 0x0C
    ensures forall p :: Turned(font, st, p, status, st', p)
  {
    hide Draw, PathOf, Peek, Past, Number, FlexOf;
    var op, b := Get8(st.b);
    var n := |st.s|;
    forall p ensures Draw(p, []) == p { DrawNone(p); }
    if op == 0x13 || op == 0x14 {
      var bits := if st.inHeader then st.maskbits + n / 2 else st.maskbits;
      return Going, st.(b := Past(b, (bits + 7) / 8), s := [], inHeader := false, maskbits := bits);
    } else if op == 0x01 || op == 0x03 || op == 0x12 || op == 0x17 {
      return Going, st.(b := b, s := [], maskbits := st.maskbits + n / 2);
    } else if op == 0x0A || op == 0x1D {
      status, st' := TurnCall(font, st, b, op);
    } else if op == 0x0B {
      var h := |st.calls|;
      if h == 0 {
        return Stopped, st;
      }
      return Going, st.(b := st.calls[h - 1], calls := st.calls[..h - 1]);
    } else if op == 0x0E {
      return Finished, st;
    } else if (op != 28 && op < 32) || n >= MAX_OPERANDS {
      return Stopped, st;
    } else {
      var f, b' := GetNumber(op, b);
      return Going, st.(b := b', s := st.s + [f]);
    }
  }

  /** callsubr and callgsubr. */
  method TurnCall(font: Font, st: State, b: Buf, op: byte) returns (status: Status, st': State)
    requires StateOk(st)
    ensures match Call(font, st, b, op)
            case Next(next, path) => status == Going && st' == next
            case _ => status == Stopped
  {
    var sp := |st.s|;
    if sp < 1 || |st.calls| >= MAX_CALLS {
      return Stopped, st;
    }
    var body := Subr(if op == 0x0A then LocalSubrs(font) else font.gsubrs, Trunc(st.s[sp - 1]));
    if |body| == 0 {
      return Stopped, st;
    }
    return Going, st.(b := Buf(body, 0), calls := st.calls + [b], s := st.s[..sp - 1]);
  }

  /** The run from here is one step and the run from there, and the pen only gains vertices. */
  lemma RunStep(font: Font, st: State, p: Pen)
    requires StateOk(st) && Left(st.b) > 0
    ensures var o := Step(font, st);
      && (o.Fail? ==> Run(font, st, p) == (false, p))
      && (o.End? ==> Run(font, st, p) == (true, Closed(p)))
      && (o.Next? ==> StateOk(o.st) && Descends(st, o.st) && Run(font, st, p) == Run(font, o.st, Draw(p, o.path)))
    ensures |Ahead(font, st, p).out| <= |Run(font, st, p).1.out|
  {
    hide Step, Descends, Draw, Closed;
    if Step(font, st).Next? {
      StepDescends(font, st);
      RunGrows(font, Step(font, st).st, Draw(p, Step(font, st).path));
    } else {
      RunGrows(font, st, p);
    }
  }

  lemma StateBufOk(st: State)
    requires StateOk(st)
    ensures BufOk(st.b)
  {
  }

  lemma RunsOut(font: Font, st: State, p: Pen)
    requires StateOk(st) && Left(st.b) == 0
    ensures Run(font, st, p) == (false, p)
  {
  }

  lemma GlyphRuns(font: Font, glyph: nat)
    requires glyph < |font.charstrings|
    ensures Glyph(font, glyph) == Run(font, Start(font, glyph), NewPen())
  {
  }

  lemma HasRoom(c: Ctx, p: Pen)
    requires c.bounds || |p.out| <= c.vertices.Length
    ensures c.Room(p)
  {
  }

  /** One turn of the loop. */
  method Turn(font: Font, st: State, c: Ctx) returns (status: Status, st': State)
    requires StateOk(st) && Left(st.b) > 0 && c.Valid() && c.Room(Ahead(font, st, c.TracePen()))
    modifies c, c.vertices
    ensures c.Valid() && Turned(font, st, old(c.TracePen()), status, st', c.TracePen())
  {
    hide *;
    StateBufOk(st);
    var op, _ := Get8(st.b);
    if IsMove(op) || IsPath(op) {
      status, st' := TurnPath(font, st, c);
    } else if op == 0x0C {
      status, st' := TurnFlex(font, st, c);
    } else {
      status, st' := TurnOther(font, st);
    }
  }

  /** What the turn means for the run. */
  lemma TurnRuns(font: Font, st: State, p: Pen, status: Status, st': State, p': Pen)
    requires StateOk(st) && Left(st.b) > 0 && Turned(font, st, p, status, st', p')
    ensures status == Stopped ==> Run(font, st, p) == (false, p')
    ensures status == Finished ==> Run(font, st, p) == (true, Closed(p'))
    ensures status == Going ==> StateOk(st') && Descends(st, st') && Run(font, st, p) == Run(font, st', p')
  {
    hide Run, Step, Descends, StateOk, Draw, Closed, Ahead;
    RunStep(font, st, p);
  }

  /** stbtt__run_charstring. It draws what the charstring means, if there is room for it, and it always ends. */
  method RunCharstring(font: Font, glyph: nat, c: Ctx) returns (ok: bool)
    requires glyph < |font.charstrings| && c.Valid() && c.Room(Run(font, Start(font, glyph), c.TracePen()).1)
    modifies c, c.vertices
    ensures c.Valid() && (ok, c.TracePen()) == Run(font, Start(font, glyph), old(c.TracePen()))
  {
    hide Run, Step, Turned, Closed, Ahead;
    var st := Start(font, glyph);
    ghost var goal := Run(font, st, c.TracePen());
    while Left(st.b) > 0
      invariant StateOk(st) && c.Valid() && Run(font, st, c.TracePen()) == goal
      decreases Level(st, 0), Level(st, 1), Level(st, 2), Level(st, 3), Level(st, 4), Level(st, 5),
        Level(st, 6), Level(st, 7), Level(st, 8), Level(st, 9), Level(st, 10)
    {
      RunStep(font, st, c.TracePen());
      ghost var p := c.TracePen();
      var status, st' := Turn(font, st, c);
      TurnRuns(font, st, p, status, st', c.TracePen());
      if status == Stopped {
        return false;
      }
      if status == Finished {
        c.CloseShape();
        return true;
      }
      st := st';
    }
    RunsOut(font, st, c.TracePen());
    return false;
  }

  /** stbtt__GetGlyphShapeT2: count, allocate, emit. The second pass takes the same path, so the
      allocation is just large enough and is filled. */
  method GetGlyphShape(font: Font, glyph: nat) returns (num: nat, vertices: array<Vertex>)
    requires glyph < |font.charstrings|
    ensures var (ok, pen) := Glyph(font, glyph);
      if ok then num == vertices.Length == |pen.out| && StoredAs(vertices[..], pen.out) else num == 0
  {
    hide *;
    ghost var goal := Glyph(font, glyph);
    GlyphRuns(font, glyph);
    vertices := new Vertex[0];
    var count := new Ctx(true, vertices);
    HasRoom(count, goal.1);
    var ok := RunCharstring(font, glyph, count);
    if !ok {
      return 0, vertices;
    }
    Counted(count);
    vertices := new Vertex[count.num];
    var output := new Ctx(false, vertices);
    HasRoom(output, goal.1);
    ok := RunCharstring(font, glyph, output);
    Counted(output);
    assert vertices[..output.num] == vertices[..];
    return output.num, vertices;
  }

  lemma Counted(c: Ctx)
    requires c.Valid()
    ensures c.num == |c.TracePen().out|
    ensures !c.bounds ==> c.num <= c.vertices.Length && StoredAs(c.vertices[..c.num], c.TracePen().out)
    ensures c.bounds ==> Spans(Xs(c.TracePen().out), c.minX, c.maxX) && Spans(Ys(c.TracePen().out), c.minY, c.maxY)
  {
  }

  /** stbtt__GetGlyphInfoT2: the number of vertices and the box that just holds them and their control points. */
  method GetGlyphInfo(font: Font, glyph: nat) returns (num: nat, x0: int, y0: int, x1: int, y1: int)
    requires glyph < |font.charstrings|
    ensures var (ok, pen) := Glyph(font, glyph);
      if ok then num == |pen.out| && Spans(Xs(pen.out), x0, x1) && Spans(Ys(pen.out), y0, y1)
      else num == x0 == y0 == x1 == y1 == 0
  {
    hide *;
    ghost var goal := Glyph(font, glyph);
    GlyphRuns(font, glyph);
    var none := new Vertex[0];
    var c := new Ctx(true, none);
    HasRoom(c, goal.1);
    var ok := RunCharstring(font, glyph, c);
    Counted(c);
    if !ok {
      return 0, 0, 0, 0, 0;
    }
    return c.num, c.minX, c.minY, c.maxX, c.maxY;
  }
}
