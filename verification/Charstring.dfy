/** What a Type 2 charstring means: the path that it draws (stbtt__run_charstring, stb_truetype.h). */
module Charstring {
  import opened Bits
  import opened Wrappers

  // --------------------------------------------------------------- buffers

  /** A range of the font's bytes and the place of the next one. */
  datatype Buf = Buf(data: seq<byte>, cursor: nat)

  predicate BufOk(b: Buf) { b.cursor <= |b.data| }

  function Left(b: Buf): (n: nat)
    requires BufOk(b)
  {
    |b.data| - b.cursor
  }

  /** The next byte, or 0 at the end. */
  function Peek(b: Buf): byte
    requires BufOk(b)
  {
    if Left(b) > 0 then b.data[b.cursor] else 0
  }

  /** The buffer with up to n bytes read. */
  function Past(b: Buf, n: nat): (r: Buf)
    requires BufOk(b)
    ensures BufOk(r) && r.data == b.data && Left(r) == if n <= Left(b) then Left(b) - n else 0
  {
    b.(cursor := if b.cursor + n <= |b.data| then b.cursor + n else |b.data|)
  }

  /** The big-endian number in the next n bytes. */
  function Word(b: Buf, n: nat): nat
    requires BufOk(b)
  {
    if n == 0 then 0 else Word(b, n - 1) * 0x100 + Peek(Past(b, n - 1))
  }

  function Wrap16(v: int): (r: int)
    ensures -0x8000 <= r < 0x8000
  {
    (v + 0x8000) % 0x1_0000 - 0x8000
  }

  function Wrap32(v: int): (r: int)
    ensures -0x8000_0000 <= r < 0x8000_0000
  {
    (v + 0x8000_0000) % 0x1_0000_0000 - 0x8000_0000
  }

  /** How many more bytes the number that starts with b0 takes. */
  function NumberLength(b0: byte): nat {
    if b0 == 255 then 4 else if b0 == 28 then 2 else if b0 >= 247 then 1 else 0
  }

  /** The number that starts with b0 and continues in b. */
  function Number(b0: byte, b: Buf): real
    requires BufOk(b)
  {
    if b0 == 255 then Wrap32(Word(b, 4)) as real / 65536.0
    else if b0 == 28 then Wrap16(Word(b, 2)) as real
    else if b0 >= 251 then (-(b0 - 251) * 256 - Peek(b) - 108) as real
    else if b0 >= 247 then ((b0 - 247) * 256 + Peek(b) + 108) as real
    else (b0 - 139) as real
  }

  // ----------------------------------------------------------------- paths

  /** A step of the path, relative to where the pen is. */
  datatype Seg =
    | Move(dx: real, dy: real)
    | Line(dx: real, dy: real)
    | Cubic(dx1: real, dy1: real, dx2: real, dy2: real, dx3: real, dy3: real)

  function Lines(s: seq<real>, i: nat, end: int): seq<Seg>
    requires end <= |s|
    decreases end - i
  {
    if i + 1 >= end then [] else [Line(s[i], s[i + 1])] + Lines(s, i + 2, end)
  }

  /** Alternately horizontal and vertical lines. */
  function Steps(s: seq<real>, i: nat, horizontal: bool): seq<Seg>
    decreases |s| - i
  {
    if i >= |s| then []
    else [if horizontal then Line(s[i], 0.0) else Line(0.0, s[i])] + Steps(s, i + 1, !horizontal)
  }

  function Curves(s: seq<real>, i: nat, end: int): seq<Seg>
    requires end <= |s|
    decreases end - i
  {
    if i + 5 >= end then []
    else [Cubic(s[i], s[i + 1], s[i + 2], s[i + 3], s[i + 4], s[i + 5])] + Curves(s, i + 6, end)
  }

  /** Curves that start alternately horizontal and vertical and end the other way; the last one may end anyhow. */
  function Bends(s: seq<real>, i: nat, horizontal: bool): seq<Seg>
    decreases |s| - i
  {
    if i + 3 >= |s| then []
    else
      var free := if |s| - i == 5 then s[i + 4] else 0.0;
      [if horizontal then Cubic(s[i], 0.0, s[i + 1], s[i + 2], free, s[i + 3])
       else Cubic(0.0, s[i], s[i + 1], s[i + 2], s[i + 3], free)] + Bends(s, i + 4, !horizontal)
  }

  /** Curves that start and end horizontal, or vertical; the first one may start off by f. */
  function Waves(s: seq<real>, i: nat, f: real, horizontal: bool): seq<Seg>
    decreases |s| - i
  {
    if i + 3 >= |s| then []
    else
      [if horizontal then Cubic(s[i], f, s[i + 1], s[i + 2], s[i + 3], 0.0)
       else Cubic(f, s[i], s[i + 1], s[i + 2], 0.0, s[i + 3])] + Waves(s, i + 4, 0.0, horizontal)
  }

  predicate IsMove(op: byte) { op == 0x15 || op == 0x04 || op == 0x16 }

  predicate IsPath(op: byte) {
    op == 0x05 || op == 0x06 || op == 0x07 || op == 0x08 || 0x18 <= op <= 0x1B || op == 0x1E || op == 0x1F
  }

  /** The operands that a path operator needs. */
  function Needs(op: byte): nat {
    if op == 0x04 || op == 0x16 || op == 0x06 || op == 0x07 then 1
    else if op == 0x15 || op == 0x05 then 2
    else if op == 0x08 then 6
    else if op == 0x18 || op == 0x19 then 8
    else 4
  }

  /** The index after all whole groups of k that fit in limit. */
  function Groups(limit: nat, k: nat): (i: nat)
    requires k > 0
    ensures i <= limit
  {
    if limit < k then 0 else k + Groups(limit - k, k)
  }

  /** The path that an operator draws with the operands s. */
  function PathOf(op: byte, s: seq<real>): seq<Seg>
    requires (IsMove(op) || IsPath(op)) && |s| >= Needs(op)
  {
    var n := |s|;
    if op == 0x15 then [Move(s[n - 2], s[n - 1])]
    else if op == 0x04 then [Move(0.0, s[n - 1])]
    else if op == 0x16 then [Move(s[n - 1], 0.0)]
    else if op == 0x05 then Lines(s, 0, n)
    else if op == 0x06 then Steps(s, 0, true)
    else if op == 0x07 then Steps(s, 0, false)
    else if op == 0x1F then Bends(s, 0, true)
    else if op == 0x1E then Bends(s, 0, false)
    else if op == 0x08 then Curves(s, 0, n)
    else if op == 0x18 then
      var i := Groups(n - 2, 6);
      Curves(s, 0, n - 2) + [Line(s[i], s[i + 1])]
    else if op == 0x19 then
      var i := Groups(n - 6, 2);
      Lines(s, 0, n - 6) + [Cubic(s[i], s[i + 1], s[i + 2], s[i + 3], s[i + 4], s[i + 5])]
    else Waves(s, n % 2, if n % 2 == 1 then s[0] else 0.0, op == 0x1B)
  }

  function FlexNeeds(op: byte): nat {
    if op == 0x22 then 7 else if op == 0x23 then 13 else if op == 0x24 then 9 else 11
  }

  function Abs(x: real): real { if x < 0.0 then -x else x }

  /** The two curves that a flex operator draws. */
  function FlexOf(op: byte, s: seq<real>): seq<Seg>
    requires 0x22 <= op <= 0x25 && |s| >= FlexNeeds(op)
  {
    if op == 0x22 then
      [Cubic(s[0], 0.0, s[1], s[2], s[3], 0.0), Cubic(s[4], 0.0, s[5], -s[2], s[6], 0.0)]
    else if op == 0x23 then
      [Cubic(s[0], s[1], s[2], s[3], s[4], s[5]), Cubic(s[6], s[7], s[8], s[9], s[10], s[11])]
    else if op == 0x24 then
      [Cubic(s[0], s[1], s[2], s[3], s[4], 0.0), Cubic(s[5], 0.0, s[6], s[7], s[8], -(s[1] + s[3] + s[7]))]
    else
      var dx := s[0] + s[2] + s[4] + s[6] + s[8];
      var dy := s[1] + s[3] + s[5] + s[7] + s[9];
      var wide := Abs(dx) > Abs(dy);
      [Cubic(s[0], s[1], s[2], s[3], s[4], s[5]),
       Cubic(s[6], s[7], s[8], s[9], if wide then s[10] else -dx, if wide then -dy else s[10])]
  }

  // -------------------------------------------------------------- vertices

  const VMOVE: byte := 1
  const VLINE: byte := 2
  const VCUBIC: byte := 4

  datatype Vertex = Vertex(kind: byte, x: int, y: int, cx: int, cy: int, cx1: int, cy1: int)

  /** The pen: where it is, where the subpath started, and the vertices so far. */
  datatype Pen = Pen(x: real, y: real, firstX: real, firstY: real, out: seq<Vertex>)

  /** The conversion of a float to an int. */
  function Trunc(r: real): int { if r >= 0.0 then r.Floor else -((-r).Floor) }

  function Closed(p: Pen): Pen {
    if p.firstX != p.x || p.firstY != p.y then
      p.(out := p.out + [Vertex(VLINE, Trunc(p.firstX), Trunc(p.firstY), 0, 0, 0, 0)])
    else p
  }

  function Apply(p: Pen, g: Seg): Pen {
    match g
    case Move(dx, dy) =>
      var q := Closed(p);
      var x, y := p.x + dx, p.y + dy;
      Pen(x, y, x, y, q.out + [Vertex(VMOVE, Trunc(x), Trunc(y), 0, 0, 0, 0)])
    case Line(dx, dy) =>
      var x, y := p.x + dx, p.y + dy;
      p.(x := x, y := y, out := p.out + [Vertex(VLINE, Trunc(x), Trunc(y), 0, 0, 0, 0)])
    case Cubic(dx1, dy1, dx2, dy2, dx3, dy3) =>
      var cx1, cy1 := p.x + dx1, p.y + dy1;
      var cx2, cy2 := cx1 + dx2, cy1 + dy2;
      var x, y := cx2 + dx3, cy2 + dy3;
      p.(x := x, y := y,
         out := p.out + [Vertex(VCUBIC, Trunc(x), Trunc(y), Trunc(cx1), Trunc(cy1), Trunc(cx2), Trunc(cy2))])
  }

  function Draw(p: Pen, path: seq<Seg>): Pen
    decreases |path|
  {
    if path == [] then p else Draw(Apply(p, path[0]), path[1..])
  }

  /** Drawing only adds vertices. */
  lemma {:induction false} DrawGrows(p: Pen, path: seq<Seg>)
    ensures p.out <= Draw(p, path).out
    decreases |path|
  {
    if path != [] {
      assert p.out <= Apply(p, path[0]).out;
      hide Apply;
      DrawGrows(Apply(p, path[0]), path[1..]);
    }
  }

  // ----------------------------------------------------------- interpreter

  /** The charstrings of a font and its subroutines; cid holds a CID font's own for the glyph. */
  datatype Font = Font(charstrings: seq<seq<byte>>, subrs: seq<seq<byte>>, gsubrs: seq<seq<byte>>,
                       cid: Option<seq<seq<byte>>>)

  function LocalSubrs(font: Font): seq<seq<byte>> {
    if font.cid.Some? then font.cid.value else font.subrs
  }

  function Bias(count: nat): int {
    if count >= 33900 then 32768 else if count >= 1240 then 1131 else 107
  }

  /** A subroutine by its biased number, or no bytes. */
  function Subr(index: seq<seq<byte>>, n: int): seq<byte> {
    var i := n + Bias(|index|);
    if i < 0 || i >= |index| then [] else index[i]
  }

  const MAX_CALLS: nat := 10
  const MAX_OPERANDS: nat := 48

  /** The bytes being read, the callers waiting, the operands, and the hints counted so far. */
  datatype State = State(b: Buf, calls: seq<Buf>, s: seq<real>, inHeader: bool, maskbits: nat)

  predicate StateOk(st: State) {
    && BufOk(st.b) && |st.calls| <= MAX_CALLS && |st.s| <= MAX_OPERANDS
    && forall k :: 0 <= k < |st.calls| ==> BufOk(st.calls[k])
  }

  datatype Outcome = Fail | End | Next(st: State, path: seq<Seg>)

  function Call(font: Font, st: State, b: Buf, op: byte): Outcome
    requires StateOk(st)
  {
    var n := |st.s|;
    if n < 1 || |st.calls| >= MAX_CALLS then Fail
    else
      var body := Subr(if op == 0x0A then LocalSubrs(font) else font.gsubrs, Trunc(st.s[n - 1]));
      if body == [] then Fail
      else Next(st.(b := Buf(body, 0), calls := st.calls + [b], s := st.s[..n - 1]), [])
  }

  function Flex(st: State, b: Buf): Outcome
    requires BufOk(b)
  {
    var op := Peek(b);
    if 0x22 <= op <= 0x25 && |st.s| >= FlexNeeds(op) then Next(st.(b := Past(b, 1), s := []), FlexOf(op, st.s))
    else Fail
  }

  /** One operator or operand. */
  function Step(font: Font, st: State): Outcome
    requires StateOk(st) && Left(st.b) > 0
  {
    var op := Peek(st.b);
    var b := Past(st.b, 1);
    var n := |st.s|;
    if op == 0x13 || op == 0x14 then
      var bits := if st.inHeader then st.maskbits + n / 2 else st.maskbits;
      Next(st.(b := Past(b, (bits + 7) / 8), s := [], inHeader := false, maskbits := bits), [])
    else if op == 0x01 || op == 0x03 || op == 0x12 || op == 0x17 then
      Next(st.(b := b, s := [], maskbits := st.maskbits + n / 2), [])
    else if IsMove(op) || IsPath(op) then
      if n < Needs(op) then Fail
      else Next(st.(b := b, s := [], inHeader := st.inHeader && !IsMove(op)), PathOf(op, st.s))
    else if op == 0x0A || op == 0x1D then Call(font, st, b, op)
    else if op == 0x0B then
      if st.calls == [] then Fail
      else Next(st.(b := st.calls[|st.calls| - 1], calls := st.calls[..|st.calls| - 1]), [])
    else if op == 0x0E then End
    else if op == 0x0C then Flex(st, b)
    else if op != 28 && op < 32 then Fail
    else if n >= MAX_OPERANDS then Fail
    else Next(st.(b := Past(b, NumberLength(op)), s := st.s + [Number(op, b)]), [])
  }

  // ------------------------------------------------------------ termination

  /** The bytes left, and one more, at call depth k; 0 where there is no call. */
  function Level(st: State, k: nat): nat
    requires StateOk(st)
  {
    if k < |st.calls| then Left(st.calls[k]) + 1
    else if k == |st.calls| then Left(st.b) + 1
    else 0
  }

  /** A step lowers the bytes left at the depth it happens at, or drops that depth, and leaves those below. */
  ghost predicate Lowers(st: State, st': State, d: nat)
    requires StateOk(st) && StateOk(st')
  {
    d <= MAX_CALLS && Level(st', d) < Level(st, d) && forall k: nat :: k < d ==> Level(st', k) == Level(st, k)
  }

  /** The levels from the outermost call inwards, in lexicographic order. */
  ghost predicate Descends(st: State, st': State)
    requires StateOk(st) && StateOk(st')
  {
    (Level(st', 0) < Level(st, 0) || (Level(st', 0) == Level(st, 0) &&
    (Level(st', 1) < Level(st, 1) || (Level(st', 1) == Level(st, 1) &&
    (Level(st', 2) < Level(st, 2) || (Level(st', 2) == Level(st, 2) &&
    (Level(st', 3) < Level(st, 3) || (Level(st', 3) == Level(st, 3) &&
    (Level(st', 4) < Level(st, 4) || (Level(st', 4) == Level(st, 4) &&
    (Level(st', 5) < Level(st, 5) || (Level(st', 5) == Level(st, 5) &&
    (Level(st', 6) < Level(st, 6) || (Level(st', 6) == Level(st, 6) &&
    (Level(st', 7) < Level(st, 7) || (Level(st', 7) == Level(st, 7) &&
    (Level(st', 8) < Level(st, 8) || (Level(st', 8) == Level(st, 8) &&
    (Level(st', 9) < Level(st, 9) || (Level(st', 9) == Level(st, 9) &&
    (Level(st', 10) < Level(st, 10))))))))))))))))))))))
  }

  lemma LowersDescends(st: State, st': State, d: nat)
    requires StateOk(st) && StateOk(st') && Lowers(st, st', d)
    ensures Descends(st, st')
  {
    hide Level;
  }

  lemma CallLowers(font: Font, st: State, b: Buf, op: byte)
    requires StateOk(st) && Left(st.b) > 0 && b == Past(st.b, 1) && Call(font, st, b, op).Next?
    ensures StateOk(Call(font, st, b, op).st) && Lowers(st, Call(font, st, b, op).st, |st.calls|)
  {
    hide Subr;
  }

  lemma FlexLowers(st: State, b: Buf)
    requires StateOk(st) && Left(st.b) > 0 && b == Past(st.b, 1) && Flex(st, b).Next?
    ensures StateOk(Flex(st, b).st) && Lowers(st, Flex(st, b).st, |st.calls|)
  {
    hide FlexOf;
  }

  lemma StepLowers(font: Font, st: State)
    requires StateOk(st) && Left(st.b) > 0 && Step(font, st).Next?
    ensures StateOk(Step(font, st).st) && Lowers(st, Step(font, st).st, |st.calls|)
  {
    hide PathOf, Number, Call, Flex;
    var op, b := Peek(st.b), Past(st.b, 1);
    if op == 0x0A || op == 0x1D {
      CallLowers(font, st, b, op);
    } else if op == 0x0C {
      FlexLowers(st, b);
    }
  }

  /** Every step descends, so every run ends. */
  lemma StepDescends(font: Font, st: State)
    requires StateOk(st) && Left(st.b) > 0 && Step(font, st).Next?
    ensures StateOk(Step(font, st).st) && Descends(st, Step(font, st).st)
  {
    hide Step, Descends, Lowers;
    StepLowers(font, st);
    LowersDescends(st, Step(font, st).st, |st.calls|);
  }

  /** The whole run: whether it reached the end of the glyph, and the pen then. */
  function Run(font: Font, st: State, pen: Pen): (r: (bool, Pen))
    requires StateOk(st)
    decreases Level(st, 0), Level(st, 1), Level(st, 2), Level(st, 3), Level(st, 4), Level(st, 5),
      Level(st, 6), Level(st, 7), Level(st, 8), Level(st, 9), Level(st, 10)
  {
    if Left(st.b) == 0 then (false, pen)
    else
      match Step(font, st)
      case Fail => (false, pen)
      case End => (true, Closed(pen))
      case Next(st', path) =>
        StepDescends(font, st);
        Run(font, st', Draw(pen, path))
  }

  function Start(font: Font, glyph: nat): (st: State)
    requires glyph < |font.charstrings|
    ensures StateOk(st)
  {
    State(Buf(font.charstrings[glyph], 0), [], [], true, 0)
  }

  function NewPen(): Pen { Pen(0.0, 0.0, 0.0, 0.0, []) }

  /** What a glyph draws. */
  function Glyph(font: Font, glyph: nat): (bool, Pen)
    requires glyph < |font.charstrings|
  {
    Run(font, Start(font, glyph), NewPen())
  }
}
