/** Laws of charstring runs: numbers, subroutine calls and closed contours. */
module CharstringCalls {
  import opened Bits
  import opened Charstring

  // ---------------------------------------------------------------- numbers

  /** A number from -32768 to 32767 in the shortest encoding of the Type 2 charstring format. */
  function Encode(v: int): (e: seq<byte>)
    requires -0x8000 <= v < 0x8000
    ensures 1 <= |e| <= 3
  {
    if -107 <= v <= 107 then [v + 139]
    else if 108 <= v <= 1131 then [(v - 108) / 256 + 247, (v - 108) % 256]
    else if -1131 <= v <= -108 then [(-v - 108) / 256 + 251, (-v - 108) % 256]
    else [28, v % 0x1_0000 / 0x100, v % 0x100]
  }

  /** The unread bytes. */
  function Rest(b: Buf): seq<byte>
    requires BufOk(b)
  {
    b.data[b.cursor..]
  }

  /** The next bytes of b are e. */
  predicate Begins(b: Buf, e: seq<byte>)
    requires BufOk(b)
  {
    |e| <= Left(b) && Rest(b)[..|e|] == e
  }

  lemma BeginsAt(b: Buf, e: seq<byte>, k: nat)
    requires BufOk(b) && Begins(b, e) && k < |e|
    ensures Peek(Past(b, k)) == e[k]
  {
    assert Rest(b)[..|e|][k] == b.data[b.cursor + k];
  }

  lemma PastPast(b: Buf, m: nat, n: nat)
    requires BufOk(b)
    ensures Past(Past(b, m), n) == Past(b, m + n)
  {
  }

  lemma WordOfTwo(b: Buf)
    requires BufOk(b)
    ensures Word(b, 2) == Peek(Past(b, 0)) * 0x100 + Peek(Past(b, 1))
  {
    hide Peek, Past;
    assert Word(b, 1) == Peek(Past(b, 0));
  }

  lemma TwoBytes(v: int)
    requires -0x8000 <= v < 0x8000
    ensures Wrap16(v % 0x1_0000 / 0x100 * 0x100 + v % 0x100) == v
  {
    var w := v % 0x1_0000;
    assert w % 0x100 == v % 0x100 by { LowBytes(v); }
    assert w / 0x100 * 0x100 + w % 0x100 == w;
    assert w == if v >= 0 then v else v + 0x1_0000;
  }

  lemma LowBytes(v: int)
    ensures v % 0x1_0000 % 0x100 == v % 0x100
  {
    var q := v / 0x1_0000;
    var w := v - 0x1_0000 * q;
    var p := w / 0x100;
    assert v == 0x100 * (0x100 * q + p) + w % 0x100;
  }

  /** What follows the first byte of an encoded number is read back as the number. */
  lemma NumberRoundTrip(b: Buf, v: int)
    requires BufOk(b) && -0x8000 <= v < 0x8000 && Begins(b, Encode(v))
    ensures Number(Peek(b), Past(b, 1)) == v as real && 1 + NumberLength(Peek(b)) == |Encode(v)|
    ensures Peek(b) >= 32 || Peek(b) == 28
  {
    var e := Encode(v);
    BeginsAt(b, e, 0);
    assert Past(b, 0) == b;
    if |e| == 2 {
      BeginsAt(b, e, 1);
      TwoByteNumber(v);
      hide Encode, Past, Peek, Word;
    } else if |e| == 3 {
      BeginsAt(b, e, 1);
      BeginsAt(b, e, 2);
      PastPast(b, 1, 0);
      PastPast(b, 1, 1);
      WordOfTwo(Past(b, 1));
      TwoBytes(v);
      ThreeByteNumber(v);
      hide Encode, Past, Peek, Word, Wrap16;
    }
  }

  function TwoByte(b0: int, b1: int): int {
    if b0 < 251 then (b0 - 247) * 256 + b1 + 108 else -(b0 - 251) * 256 - b1 - 108
  }

  lemma TwoByteNumber(v: int)
    requires 108 <= v <= 1131 || -1131 <= v <= -108
    ensures |Encode(v)| == 2 && 247 <= Encode(v)[0] < 255 && TwoByte(Encode(v)[0], Encode(v)[1]) == v
  {
    var w := (if v > 0 then v else -v) - 108;
    assert 0 <= w / 256 <= 3 && w / 256 * 256 + w % 256 == w;
  }

  lemma ThreeByteNumber(v: int)
    requires -0x8000 <= v < 0x8000 && |Encode(v)| == 3
    ensures Encode(v) == [28, v % 0x1_0000 / 0x100, v % 0x100]
  {
  }

  /** A step on an encoded number pushes it. */
  lemma NumberPushed(font: Font, st: State, v: int)
    requires StateOk(st) && -0x8000 <= v < 0x8000 && Begins(st.b, Encode(v)) && |st.s| < MAX_OPERANDS
    ensures Left(st.b) > 0
    ensures Step(font, st) == Next(st.(b := Past(st.b, |Encode(v)|), s := st.s + [v as real]), [])
  {
    NumberRoundTrip(st.b, v);
    PastPast(st.b, 1, NumberLength(Peek(st.b)));
    hide Encode, Number, NumberLength, Past, PathOf, Call, Flex;
  }

  /** Every subroutine of an index has a number that can be pushed; two bytes are enough for each of up to 2263, and the
      numbers of others name nothing. */
  lemma SubrNumbers(index: seq<seq<byte>>, i: nat)
    requires |index| <= 0x1_0000
    ensures i < |index| ==> Subr(index, i - Bias(|index|)) == index[i] && -0x8000 <= i - Bias(|index|) < 0x8000
    ensures i < |index| <= 2263 ==> |Encode(i - Bias(|index|))| <= 2
    ensures i >= |index| ==> Subr(index, i - Bias(|index|)) == []
  {
  }

  /** A hint mask has a bit for every pair of operands of the stem operators so far, those that stand before the first
      mask included, and whole bytes. */
  lemma MaskBytes(font: Font, st: State)
    requires StateOk(st) && Left(st.b) > 0 && (Peek(st.b) == 0x13 || Peek(st.b) == 0x14)
    ensures Step(font, st).Next? && var st' := Step(font, st).st;
      && st'.maskbits == (if st.inHeader then st.maskbits + |st.s| / 2 else st.maskbits)
      && !st'.inHeader && st'.s == []
      && exists n: nat :: 8 * n >= st'.maskbits && 8 * n < st'.maskbits + 8 && st'.b == Past(Past(st.b, 1), n)
  {
    var bits := if st.inHeader then st.maskbits + |st.s| / 2 else st.maskbits;
    var n := (bits + 7) / 8;
    assert 8 * n >= bits && 8 * n < bits + 8;
    hide Past, Peek, PathOf, Call, Flex, Number;
    assert Step(font, st).st.b == Past(Past(st.b, 1), n);
  }

  lemma StemsCounted(font: Font, st: State)
    requires StateOk(st) && Left(st.b) > 0 && Peek(st.b) in {0x01, 0x03, 0x12, 0x17}
    ensures Step(font, st).Next? && Step(font, st).st.maskbits == st.maskbits + |st.s| / 2 && Step(font, st).st.s == []
  {
    hide Past, Peek, PathOf, Call, Flex, Number;
  }

  // ---------------------------------------------------------------- closing

  /** Where the contour that vertex j belongs to started. */
  function StartAt(out: seq<Vertex>, j: nat): (int, int)
    requires j < |out|
  {
    if out[j].kind == VMOVE then (out[j].x, out[j].y) else if j == 0 then (0, 0) else StartAt(out, j - 1)
  }

  lemma {:induction false} StartKept(out: seq<Vertex>, more: seq<Vertex>, j: nat)
    requires j < |out|
    ensures StartAt(out + more, j) == StartAt(out, j)
  {
    if out[j].kind != VMOVE && j > 0 {
      StartKept(out, more, j - 1);
    }
  }

  predicate Comes(out: seq<Vertex>, j: nat)
    requires j < |out|
  {
    (out[j].x, out[j].y) == StartAt(out, j)
  }

  /** Every contour but the last leads back to its start. */
  ghost predicate ClosedBefore(out: seq<Vertex>) {
    forall j: nat | j + 1 < |out| && out[j + 1].kind == VMOVE :: Comes(out, j)
  }

  /** The pen knows where its contour started and where it is. */
  ghost predicate PenOk(p: Pen) {
    && ClosedBefore(p.out)
    && if p.out == [] then p.x == p.firstX == 0.0 && p.y == p.firstY == 0.0
       else
         var n := |p.out| - 1;
         StartAt(p.out, n) == (Trunc(p.firstX), Trunc(p.firstY)) && (p.out[n].x, p.out[n].y) == (Trunc(p.x), Trunc(p.y))
  }

  lemma AddOther(out: seq<Vertex>, v: Vertex)
    requires ClosedBefore(out) && v.kind != VMOVE
    ensures ClosedBefore(out + [v])
    ensures StartAt(out + [v], |out|) == if out == [] then (0, 0) else StartAt(out, |out| - 1)
  {
    forall j: nat | j + 1 < |out + [v]| && (out + [v])[j + 1].kind == VMOVE
      ensures Comes(out + [v], j)
    {
      assert Comes(out, j);
      StartKept(out, [v], j);
    }
    if out != [] {
      StartKept(out, [v], |out| - 1);
    }
  }

  lemma AddMove(out: seq<Vertex>, v: Vertex)
    requires ClosedBefore(out) && v.kind == VMOVE && (out != [] ==> Comes(out, |out| - 1))
    ensures ClosedBefore(out + [v])
    ensures StartAt(out + [v], |out|) == (v.x, v.y)
  {
    forall j: nat | j + 1 < |out + [v]| && (out + [v])[j + 1].kind == VMOVE
      ensures Comes(out + [v], j)
    {
      assert j < |out| - 1 ==> Comes(out, j);
      StartKept(out, [v], j);
    }
  }

  /** Closing leads back to the start. */
  lemma ClosedComes(p: Pen)
    requires PenOk(p)
    ensures ClosedBefore(Closed(p).out) && (Closed(p).out != [] ==> Comes(Closed(p).out, |Closed(p).out| - 1))
  {
    hide ClosedBefore, Trunc;
    if p.firstX != p.x || p.firstY != p.y {
      var v := Vertex(VLINE, Trunc(p.firstX), Trunc(p.firstY), 0, 0, 0, 0);
      AddOther(p.out, v);
      assert (p.out + [v])[|p.out|] == v;
    }
  }

  lemma ApplyOk(p: Pen, g: Seg)
    requires PenOk(p)
    ensures PenOk(Apply(p, g))
  {
    hide ClosedBefore, Trunc, StartAt;
    var q := Apply(p, g);
    var v := q.out[|q.out| - 1];
    if g.Move? {
      ClosedComes(p);
      AddMove(Closed(p).out, v);
    } else {
      TruncZero();
      AddOther(p.out, v);
    }
  }

  lemma TruncZero()
    ensures Trunc(0.0) == 0
  {
  }

  lemma {:induction false} DrawOk(p: Pen, path: seq<Seg>)
    requires PenOk(p)
    ensures PenOk(Draw(p, path))
    decreases |path|
  {
    if path != [] {
      hide PenOk, Apply;
      ApplyOk(p, path[0]);
      DrawOk(Apply(p, path[0]), path[1..]);
    }
  }

  lemma {:induction false} RunCloses(font: Font, st: State, pen: Pen)
    requires StateOk(st) && PenOk(pen) && Run(font, st, pen).0
    ensures var out := Run(font, st, pen).1.out; ClosedBefore(out) && (out != [] ==> Comes(out, |out| - 1))
    decreases Level(st, 0), Level(st, 1), Level(st, 2), Level(st, 3), Level(st, 4), Level(st, 5),
      Level(st, 6), Level(st, 7), Level(st, 8), Level(st, 9), Level(st, 10)
  {
    hide PenOk, Step, Level, ClosedBefore, Comes, Closed, Draw;
    if Step(font, st).End? {
      ClosedComes(pen);
    } else {
      StepDescends(font, st);
      DrawOk(pen, Step(font, st).path);
      RunCloses(font, Step(font, st).st, Draw(pen, Step(font, st).path));
    }
  }

  /** Every contour of a glyph leads back to its start. */
  lemma GlyphCloses(font: Font, glyph: nat)
    requires glyph < |font.charstrings| && Glyph(font, glyph).0
    ensures var out := Glyph(font, glyph).1.out;
      forall j: nat | j < |out| && (j + 1 == |out| || out[j + 1].kind == VMOVE) :: Comes(out, j)
  {
    hide Run;
    assert PenOk(NewPen());
    RunCloses(font, Start(font, glyph), NewPen());
  }

  // ------------------------------------------------------------------ calls

  /** The bytes that the operator or number at the cursor takes. */
  function TokenLength(st: State): nat
    requires StateOk(st)
  {
    var op := Peek(st.b);
    if op == 0x13 || op == 0x14 then
      1 + ((if st.inHeader then st.maskbits + |st.s| / 2 else st.maskbits) + 7) / 8
    else if op == 0x0C then 2
    else if op == 28 || op >= 32 then 1 + NumberLength(op)
    else 1
  }

  /** The next n bytes are the same. */
  ghost predicate Alike(a: Buf, b: Buf, n: nat)
    requires BufOk(a) && BufOk(b)
  {
    forall k: nat | k < n :: Peek(Past(a, k)) == Peek(Past(b, k))
  }

  lemma {:induction false} WordAlike(a: Buf, b: Buf, i: nat, n: nat)
    requires BufOk(a) && BufOk(b) && Alike(a, b, i + n)
    ensures Word(Past(a, i), n) == Word(Past(b, i), n)
  {
    if n > 0 {
      hide Peek, Past;
      WordAlike(a, b, i, n - 1);
      PastPast(a, i, n - 1);
      PastPast(b, i, n - 1);
      assert Peek(Past(a, i + (n - 1))) == Peek(Past(b, i + (n - 1)));
    }
  }

  lemma NumberAlike(a: Buf, b: Buf, op: byte)
    requires BufOk(a) && BufOk(b) && Alike(a, b, 1 + NumberLength(op))
    ensures Number(op, Past(a, 1)) == Number(op, Past(b, 1))
  {
    hide Peek, Past, Word, Wrap16, Wrap32;
    if op == 255 {
      WordAlike(a, b, 1, 4);
    } else if op == 28 {
      WordAlike(a, b, 1, 2);
    } else if op >= 247 {
      assert Peek(Past(a, 1)) == Peek(Past(b, 1));
    }
  }

  /** The same operands, header flag and hint count. */
  predicate SameStack(sa: State, sb: State) {
    sa.s == sb.s && sa.inHeader == sb.inHeader && sa.maskbits == sb.maskbits
  }

  /** The outcomes are the same, but for the buffers, which move past n bytes. */
  predicate SameStep(sa: State, oa: Outcome, sb: State, ob: Outcome, n: nat)
    requires StateOk(sa) && StateOk(sb)
  {
    && (oa.Fail? <==> ob.Fail?) && (oa.End? <==> ob.End?)
    && (oa.Next? ==> oa.path == ob.path && SameStack(oa.st, ob.st)
                     && oa.st.b == Past(sa.b, n) && ob.st.b == Past(sb.b, n)
                     && oa.st.calls == sa.calls && ob.st.calls == sb.calls)
  }

  /** What is neither a call nor a return looks at no other byte than its own. */
  lemma StepAlike(font: Font, sa: State, sb: State)
    requires StateOk(sa) && StateOk(sb) && Left(sa.b) > 0 && Left(sb.b) > 0 && SameStack(sa, sb)
    requires Alike(sa.b, sb.b, if Peek(sa.b) == 0x13 || Peek(sa.b) == 0x14 then 1 else TokenLength(sa))
    requires Peek(sa.b) !in {0x0A, 0x1D, 0x0B}
    ensures SameStep(sa, Step(font, sa), sb, Step(font, sb), TokenLength(sa))
  {
    var op := Peek(sa.b);
    assert Past(sa.b, 0) == sa.b && Past(sb.b, 0) == sb.b;
    assert op == Peek(sb.b);
    if op == 0x13 || op == 0x14 {
      MaskAlike(font, sa, sb);
    } else if op == 0x0C {
      FlexAlike(font, sa, sb);
    } else if op == 28 || op >= 32 {
      PushAlike(font, sa, sb);
    } else {
      PlainAlike(font, sa, sb);
    }
  }

  lemma MaskAlike(font: Font, sa: State, sb: State)
    requires StateOk(sa) && StateOk(sb) && Left(sa.b) > 0 && Left(sb.b) > 0 && SameStack(sa, sb)
    requires Peek(sa.b) == Peek(sb.b) && (Peek(sa.b) == 0x13 || Peek(sa.b) == 0x14)
    ensures SameStep(sa, Step(font, sa), sb, Step(font, sb), TokenLength(sa))
  {
    var n := ((if sa.inHeader then sa.maskbits + |sa.s| / 2 else sa.maskbits) + 7) / 8;
    PastPast(sa.b, 1, n);
    PastPast(sb.b, 1, n);
    hide Peek, Past, Left, PathOf, Call, Flex, Number;
  }

  lemma FlexAlike(font: Font, sa: State, sb: State)
    requires StateOk(sa) && StateOk(sb) && Left(sa.b) > 0 && Left(sb.b) > 0 && SameStack(sa, sb)
    requires Peek(sa.b) == Peek(sb.b) == 0x0C && Alike(sa.b, sb.b, 2)
    ensures SameStep(sa, Step(font, sa), sb, Step(font, sb), TokenLength(sa))
  {
    PastPast(sa.b, 1, 1);
    PastPast(sb.b, 1, 1);
    assert Peek(Past(sa.b, 1)) == Peek(Past(sb.b, 1));
    hide Peek, Past, Left, PathOf, Call, Number, FlexOf;
  }

  lemma PushAlike(font: Font, sa: State, sb: State)
    requires StateOk(sa) && StateOk(sb) && Left(sa.b) > 0 && Left(sb.b) > 0 && SameStack(sa, sb)
    requires Peek(sa.b) == Peek(sb.b) && (Peek(sa.b) == 28 || Peek(sa.b) >= 32)
    requires Alike(sa.b, sb.b, 1 + NumberLength(Peek(sa.b)))
    ensures SameStep(sa, Step(font, sa), sb, Step(font, sb), TokenLength(sa))
  {
    var n := NumberLength(Peek(sa.b));
    PastPast(sa.b, 1, n);
    PastPast(sb.b, 1, n);
    NumberAlike(sa.b, sb.b, Peek(sa.b));
    hide Peek, Past, Left, PathOf, Call, Flex, Number, NumberLength, Alike;
  }

  lemma PlainAlike(font: Font, sa: State, sb: State)
    requires StateOk(sa) && StateOk(sb) && Left(sa.b) > 0 && Left(sb.b) > 0 && SameStack(sa, sb)
    requires Peek(sa.b) == Peek(sb.b) && Peek(sa.b) < 32 && Peek(sa.b) !in {0x0A, 0x1D, 0x0B, 0x0C, 0x13, 0x14, 28}
    ensures SameStep(sa, Step(font, sa), sb, Step(font, sb), TokenLength(sa))
  {
    hide Peek, Past, Left, PathOf, Call, Flex, Number;
  }

  // ---- Buffers with the same bytes left

  /** The buffer at call depth k. */
  function At(st: State, k: nat): Buf
    requires k <= |st.calls|
  {
    if k < |st.calls| then st.calls[k] else st.b
  }

  predicate RestAt(sa: State, i: nat, sb: State, j: nat)
    requires StateOk(sa) && StateOk(sb) && i <= |sa.calls| && j <= |sb.calls|
  {
    Rest(At(sa, i)) == Rest(At(sb, j))
  }

  /** The same bytes are left at every depth. */
  ghost predicate Same(sa: State, sb: State) {
    && StateOk(sa) && StateOk(sb) && SameStack(sa, sb) && |sa.calls| == |sb.calls|
    && forall k: nat | k <= |sa.calls| :: RestAt(sa, k, sb, k)
  }

  lemma RestAlike(a: Buf, b: Buf, n: nat)
    requires BufOk(a) && BufOk(b) && Rest(a) == Rest(b)
    ensures Left(a) == Left(b) && Alike(a, b, n) && Rest(Past(a, n)) == Rest(Past(b, n)) && Peek(a) == Peek(b)
  {
    assert Left(a) == |Rest(a)| && Left(b) == |Rest(b)|;
    forall k: nat | k < n
      ensures Peek(Past(a, k)) == Peek(Past(b, k))
    {
      if k < Left(a) {
        assert Rest(a)[k] == a.data[a.cursor + k] && Rest(b)[k] == b.data[b.cursor + k];
      }
    }
    if Left(a) > 0 {
      assert Rest(a)[0] == a.data[a.cursor] && Rest(b)[0] == b.data[b.cursor];
    }
    RestPast(a, n);
    RestPast(b, n);
  }

  lemma RestPast(b: Buf, n: nat)
    requires BufOk(b)
    ensures Rest(Past(b, n)) == if n <= Left(b) then Rest(b)[n..] else []
  {
  }

  /** States that have the same bytes left do the same step. */
  lemma SameNext(font: Font, sa: State, sb: State)
    requires Same(sa, sb) && Left(sa.b) > 0
    ensures Left(sb.b) > 0
    ensures var oa, ob := Step(font, sa), Step(font, sb);
      && (oa.Fail? <==> ob.Fail?) && (oa.End? <==> ob.End?) && (oa.Next? ==> oa.path == ob.path && Same(oa.st, ob.st))
  {
    assert RestAt(sa, |sa.calls|, sb, |sb.calls|);
    RestAlike(sa.b, sb.b, TokenLength(sa));
    var op := Peek(sa.b);
    if op == 0x0A || op == 0x1D {
      SameCall(font, sa, sb);
    } else if op == 0x0B {
      SameReturn(font, sa, sb);
    } else {
      AlikeLess(sa.b, sb.b, TokenLength(sa));
      SamePlain(font, sa, sb);
    }
  }

  lemma AlikeLess(a: Buf, b: Buf, n: nat)
    requires BufOk(a) && BufOk(b) && Alike(a, b, n) && n >= 1
    ensures Alike(a, b, 1)
  {
  }

  lemma SamePlain(font: Font, sa: State, sb: State)
    requires Same(sa, sb) && Left(sa.b) > 0 && Left(sb.b) > 0 && Peek(sa.b) !in {0x0A, 0x1D, 0x0B}
    requires Alike(sa.b, sb.b, TokenLength(sa)) && Alike(sa.b, sb.b, 1)
    requires Rest(Past(sa.b, TokenLength(sa))) == Rest(Past(sb.b, TokenLength(sa)))
    ensures var oa, ob := Step(font, sa), Step(font, sb);
      && (oa.Fail? <==> ob.Fail?) && (oa.End? <==> ob.End?) && (oa.Next? ==> oa.path == ob.path && Same(oa.st, ob.st))
  {
    hide Step, TokenLength, Past, Peek, Alike;
    StepAlike(font, sa, sb);
    var oa, ob := Step(font, sa), Step(font, sb);
    if oa.Next? {
      StepOk(font, sa);
      StepOk(font, sb);
      forall k: nat | k <= |sa.calls|
        ensures RestAt(oa.st, k, ob.st, k)
      {
        assert RestAt(sa, k, sb, k);
      }
    }
  }

  lemma StepOk(font: Font, st: State)
    requires StateOk(st) && Left(st.b) > 0 && Step(font, st).Next?
    ensures StateOk(Step(font, st).st)
  {
    hide Step, Lowers;
    StepLowers(font, st);
  }

  lemma CallIs(font: Font, st: State)
    requires StateOk(st) && Left(st.b) > 0 && (Peek(st.b) == 0x0A || Peek(st.b) == 0x1D)
    ensures Step(font, st) == Call(font, st, Past(st.b, 1), Peek(st.b))
  {
    hide Call, Past, Peek, Left;
  }

  lemma ReturnIs(font: Font, st: State)
    requires StateOk(st) && Left(st.b) > 0 && Peek(st.b) == 0x0B
    ensures Step(font, st) == if st.calls == [] then Fail
      else Next(st.(b := st.calls[|st.calls| - 1], calls := st.calls[..|st.calls| - 1]), [])
  {
    hide Past, Peek, Left, Call;
  }

  lemma SameCall(font: Font, sa: State, sb: State)
    requires Same(sa, sb) && Left(sa.b) > 0 && Left(sb.b) > 0 && Peek(sa.b) == Peek(sb.b)
    requires Peek(sa.b) == 0x0A || Peek(sa.b) == 0x1D
    ensures var oa, ob := Step(font, sa), Step(font, sb);
      && (oa.Fail? <==> ob.Fail?) && (oa.End? <==> ob.End?) && (oa.Next? ==> oa.path == ob.path && Same(oa.st, ob.st))
  {
    CallIs(font, sa);
    CallIs(font, sb);
    var oa, ob := Step(font, sa), Step(font, sb);
    hide Step, Subr;
    if oa.Next? {
      assert RestAt(sa, |sa.calls|, sb, |sb.calls|);
      RestAlike(sa.b, sb.b, 1);
      StepOk(font, sa);
      StepOk(font, sb);
      hide Past, Rest, Peek, StateOk;
      forall k: nat | k <= |oa.st.calls|
        ensures RestAt(oa.st, k, ob.st, k)
      {
        assert k < |sa.calls| ==> RestAt(sa, k, sb, k);
      }
    }
  }

  lemma SameReturn(font: Font, sa: State, sb: State)
    requires Same(sa, sb) && Left(sa.b) > 0 && Left(sb.b) > 0 && Peek(sa.b) == Peek(sb.b) == 0x0B
    ensures var oa, ob := Step(font, sa), Step(font, sb);
      && (oa.Fail? <==> ob.Fail?) && (oa.End? <==> ob.End?) && (oa.Next? ==> oa.path == ob.path && Same(oa.st, ob.st))
  {
    ReturnIs(font, sa);
    ReturnIs(font, sb);
    var oa, ob := Step(font, sa), Step(font, sb);
    hide Step;
    if oa.Next? {
      StepOk(font, sa);
      StepOk(font, sb);
      hide Past, Rest, Peek, StateOk;
      forall k: nat | k <= |oa.st.calls|
        ensures RestAt(oa.st, k, ob.st, k)
      {
        assert RestAt(sa, k, sb, k);
      }
    }
  }

  /** What a run draws depends on the bytes that are left only. */
  lemma {:induction false} SameRun(font: Font, sa: State, sb: State, pen: Pen)
    requires Same(sa, sb)
    ensures Run(font, sa, pen) == Run(font, sb, pen)
    decreases Level(sa, 0), Level(sa, 1), Level(sa, 2), Level(sa, 3), Level(sa, 4), Level(sa, 5),
      Level(sa, 6), Level(sa, 7), Level(sa, 8), Level(sa, 9), Level(sa, 10)
  {
    hide Step, Level, Closed, Draw, RestAt;
    SameLeft(sa, sb);
    if Left(sa.b) > 0 {
      SameNext(font, sa, sb);
      if Step(font, sa).Next? {
        StepDescends(font, sa);
        hide Same;
        SameRun(font, Step(font, sa).st, Step(font, sb).st, Draw(pen, Step(font, sa).path));
      }
    }
  }

  lemma SameLeft(sa: State, sb: State)
    requires Same(sa, sb)
    ensures Left(sa.b) == Left(sb.b)
  {
    assert RestAt(sa, |sa.calls|, sb, |sb.calls|);
    assert Left(sa.b) == |Rest(sa.b)| && Left(sb.b) == |Rest(sb.b)|;
  }

  // ---- A call and the bytes of the subroutine in its place

  /** The run stays in the subroutine at depth d until its last byte, a return, is reached. */
  ghost predicate Returns(font: Font, st: State, d: nat)
    requires StateOk(st)
    decreases Level(st, 0), Level(st, 1), Level(st, 2), Level(st, 3), Level(st, 4), Level(st, 5),
      Level(st, 6), Level(st, 7), Level(st, 8), Level(st, 9), Level(st, 10)
  {
    && d <= |st.calls| && Left(st.b) > 0
    && if |st.calls| == d && Left(st.b) == 1 then Peek(st.b) == 0x0B
       else Step(font, st).Next? && (StepDescends(font, st); Returns(font, Step(font, st).st, d))
  }

  /** sb has in one buffer what sa has at depths d and d - 1: the rest of the subroutine without the return, and what
      follows the call. */
  ghost predicate Inlined(sa: State, sb: State, d: nat) {
    && StateOk(sa) && StateOk(sb) && SameStack(sa, sb) && 1 <= d <= |sa.calls| == |sb.calls| + 1
    && Joined(Rest(At(sa, d)), Rest(At(sa, d - 1)), Rest(At(sb, d - 1)))
    && (forall k: nat | k < d - 1 :: RestAt(sa, k, sb, k))
    && (forall k: nat | d <= k < |sa.calls| :: Deeper(sa, sb, k))
  }

  predicate Deeper(sa: State, sb: State, k: nat)
    requires StateOk(sa) && StateOk(sb) && k < |sa.calls| == |sb.calls| + 1
  {
    RestAt(sa, k + 1, sb, k)
  }

  predicate Joined(body: seq<byte>, rest: seq<byte>, all: seq<byte>) {
    |body| > 0 && body[|body| - 1] == 0x0B && all == body[..|body| - 1] + rest
  }

  lemma RestBytes(b: Buf, k: nat)
    requires BufOk(b)
    ensures |Rest(b)| == Left(b) && Peek(Past(b, k)) == if k < Left(b) then Rest(b)[k] else 0
  {
  }

  /** The bytes of the subroutine are the next ones of what is read in its place. */
  lemma JoinedAlike(a: Buf, rest: seq<byte>, b: Buf, n: nat)
    requires BufOk(a) && BufOk(b) && Joined(Rest(a), rest, Rest(b)) && n < Left(a)
    ensures Alike(a, b, n) && n <= Left(b) && Joined(Rest(Past(a, n)), rest, Rest(Past(b, n)))
    ensures n > 0 ==> Peek(a) == Peek(b)
  {
    RestBytes(a, 0);
    RestBytes(b, 0);
    forall k: nat | k < n
      ensures Peek(Past(a, k)) == Peek(Past(b, k))
    {
      RestBytes(a, k);
      RestBytes(b, k);
    }
    if n > 0 {
      assert Past(a, 0) == a && Past(b, 0) == b;
      assert Peek(Past(a, 0)) == Peek(Past(b, 0));
    }
    hide Peek, Alike;
    JoinedPast(a, rest, b, n);
  }

  lemma JoinedPast(a: Buf, rest: seq<byte>, b: Buf, n: nat)
    requires BufOk(a) && BufOk(b) && Joined(Rest(a), rest, Rest(b)) && n < Left(a) == |Rest(a)| && Left(b) == |Rest(b)|
    ensures n <= Left(b) && Joined(Rest(Past(a, n)), rest, Rest(Past(b, n)))
  {
    var body := Rest(a);
    RestPast(a, n);
    RestPast(b, n);
    hide Rest, Past;
    JoinedDrop(body, rest, n);
  }

  lemma JoinedDrop(body: seq<byte>, rest: seq<byte>, n: nat)
    requires n < |body| && body[|body| - 1] == 0x0B
    ensures Joined(body[n..], rest, (body[..|body| - 1] + rest)[n..])
  {
    assert (body[..|body| - 1] + rest)[n..] == body[n..|body| - 1] + rest;
    assert body[n..][..|body[n..]| - 1] == body[n..|body| - 1];
  }

  /** The next token of n bytes is the same for both, and what is left fits again. */
  ghost predicate Tops(sa: State, sb: State, d: nat, n: nat)
    requires Inlined(sa, sb, d)
  {
    && Alike(sa.b, sb.b, n) && Peek(sa.b) == Peek(sb.b) && Left(sb.b) > 0
    && if |sa.calls| == d then Joined(Rest(Past(sa.b, n)), Rest(At(sa, d - 1)), Rest(Past(sb.b, n)))
       else Rest(Past(sa.b, n)) == Rest(Past(sb.b, n))
  }

  lemma TopsAlike(sa: State, sb: State, d: nat, n: nat)
    requires Inlined(sa, sb, d) && Left(sa.b) > 0 && n > 0 && (|sa.calls| == d ==> n < Left(sa.b))
    ensures Tops(sa, sb, d, n)
  {
    if |sa.calls| == d {
      JoinedAlike(sa.b, Rest(At(sa, d - 1)), sb.b, n);
    } else {
      assert Deeper(sa, sb, |sa.calls| - 1);
      RestAlike(sa.b, sb.b, n);
    }
  }

  /** Returns goes on. */
  lemma ReturnsNext(font: Font, st: State, d: nat)
    requires StateOk(st) && Returns(font, st, d) && !(|st.calls| == d && Left(st.b) == 1)
    ensures Left(st.b) > 0 && Step(font, st).Next? && StateOk(Step(font, st).st) && Returns(font, Step(font, st).st, d)
    ensures |Step(font, st).st.calls| >= d && Left(Step(font, st).st.b) > 0 && |st.calls| >= d
  {
    hide Step, Level;
    StepDescends(font, st);
  }

  ghost predicate Together(font: Font, sa: State, sb: State, d: nat)
    requires StateOk(sa) && StateOk(sb) && Left(sa.b) > 0 && Left(sb.b) > 0
  {
    var oa, ob := Step(font, sa), Step(font, sb);
    oa.Next? && ob.Next? && oa.path == ob.path && Inlined(oa.st, ob.st, d)
  }

  lemma InlinedPlain(font: Font, sa: State, sb: State, d: nat)
    requires Inlined(sa, sb, d) && Left(sa.b) > 0 && Step(font, sa).Next? && Peek(sa.b) !in {0x0A, 0x1D, 0x0B}
    requires Tops(sa, sb, d, TokenLength(sa))
    ensures Together(font, sa, sb, d)
  {
    var n := TokenLength(sa);
    AlikeLess(sa.b, sb.b, n);
    hide Step, TokenLength, Past, Peek, Alike;
    StepAlike(font, sa, sb);
    StepOk(font, sa);
    StepOk(font, sb);
    var ta, tb := Step(font, sa).st, Step(font, sb).st;
    hide Rest, Joined, SameStack;
    MovedTops(sa, ta, sb, tb, d);
  }

  /** Both tops moved on, and nothing else changed. */
  lemma MovedTops(sa: State, ta: State, sb: State, tb: State, d: nat)
    requires Inlined(sa, sb, d) && StateOk(ta) && StateOk(tb) && SameStack(ta, tb)
    requires ta.calls == sa.calls && tb.calls == sb.calls
    requires if |sa.calls| == d then Joined(Rest(ta.b), Rest(At(sa, d - 1)), Rest(tb.b)) else Rest(ta.b) == Rest(tb.b)
    ensures Inlined(ta, tb, d)
  {
    hide Rest, Joined, SameStack, StateOk;
    forall k: nat | k < d - 1
      ensures RestAt(ta, k, tb, k)
    {
      assert RestAt(sa, k, sb, k);
    }
    forall k: nat | d <= k < |ta.calls|
      ensures Deeper(ta, tb, k)
    {
      assert Deeper(sa, sb, k);
    }
  }

  lemma InlinedCall(font: Font, sa: State, sb: State, d: nat)
    requires Inlined(sa, sb, d) && Left(sa.b) > 0 && Step(font, sa).Next? && (Peek(sa.b) == 0x0A || Peek(sa.b) == 0x1D)
    requires Tops(sa, sb, d, 1)
    ensures Together(font, sa, sb, d)
  {
    CallIs(font, sa);
    CallIs(font, sb);
    hide Step, Subr;
    StepOk(font, sa);
    StepOk(font, sb);
    var ta, tb := Step(font, sa).st, Step(font, sb).st;
    hide Past, Peek, Rest, Alike, Joined;
    PushedTops(sa, ta, sb, tb, d);
  }

  lemma PushedTops(sa: State, ta: State, sb: State, tb: State, d: nat)
    requires Inlined(sa, sb, d) && StateOk(ta) && StateOk(tb) && SameStack(ta, tb) && ta.b == tb.b
    requires |ta.calls| == |sa.calls| + 1 && ta.calls[..|sa.calls|] == sa.calls
    requires |tb.calls| == |sb.calls| + 1 && tb.calls[..|sb.calls|] == sb.calls
    requires BufOk(ta.calls[|sa.calls|]) && BufOk(tb.calls[|sb.calls|])
    requires var (ba, bb) := (ta.calls[|sa.calls|], tb.calls[|sb.calls|]);
      if |sa.calls| == d then Joined(Rest(ba), Rest(At(sa, d - 1)), Rest(bb)) else Rest(ba) == Rest(bb)
    ensures Inlined(ta, tb, d)
  {
    hide Rest, Joined, SameStack, StateOk;
    assert forall k: nat | k < |sa.calls| :: ta.calls[k] == ta.calls[..|sa.calls|][k];
    assert forall k: nat | k < |sb.calls| :: tb.calls[k] == tb.calls[..|sb.calls|][k];
    forall k: nat | k < d - 1
      ensures RestAt(ta, k, tb, k)
    {
      assert RestAt(sa, k, sb, k);
    }
    forall k: nat | d <= k < |ta.calls|
      ensures Deeper(ta, tb, k)
    {
      if k < |sa.calls| {
        assert Deeper(sa, sb, k);
      }
    }
  }

  lemma InlinedReturn(font: Font, sa: State, sb: State, d: nat)
    requires Inlined(sa, sb, d) && Left(sa.b) > 0 && Left(sb.b) > 0 && Peek(sa.b) == Peek(sb.b) == 0x0B
    requires |sa.calls| > d
    ensures Together(font, sa, sb, d)
  {
    ReturnIs(font, sa);
    ReturnIs(font, sb);
    hide Step;
    StepOk(font, sa);
    StepOk(font, sb);
    var ta, tb := Step(font, sa).st, Step(font, sb).st;
    hide Past, Peek, Rest, Joined, SameStack, StateOk;
    forall k: nat | k < d - 1
      ensures RestAt(ta, k, tb, k)
    {
      assert RestAt(sa, k, sb, k);
    }
    forall k: nat | d <= k < |ta.calls|
      ensures Deeper(ta, tb, k)
    {
      assert Deeper(sa, sb, k);
    }
    if |sa.calls| > d + 1 {
      assert At(ta, d) == At(sa, d) && At(tb, d - 1) == At(sb, d - 1);
    }
  }

  /** Inside the subroutine both runs do the same. */
  lemma InlinedNext(font: Font, sa: State, sb: State, d: nat)
    requires Inlined(sa, sb, d) && Returns(font, sa, d) && !(|sa.calls| == d && Left(sa.b) == 1)
    ensures Left(sa.b) > 0 && Left(sb.b) > 0 && Together(font, sa, sb, d)
  {
    hide Returns, Step, Joined;
    ReturnsNext(font, sa, d);
    var op := Peek(sa.b);
    TopsAlike(sa, sb, d, 1);
    if op == 0x0A || op == 0x1D {
      hide Tops, Inlined;
      InlinedCall(font, sa, sb, d);
    } else if op == 0x0B {
      ReturnIs(font, sa);
      hide Inlined;
      InlinedReturn(font, sa, sb, d);
    } else {
      TokenFits(font, sa);
      TopsAlike(sa, sb, d, TokenLength(sa));
      hide Tops, Inlined;
      InlinedPlain(font, sa, sb, d);
    }
  }

  /** A token after which bytes are left was not cut short. */
  lemma TokenFits(font: Font, st: State)
    requires StateOk(st) && Left(st.b) > 0 && Peek(st.b) !in {0x0A, 0x1D, 0x0B} && Step(font, st).Next?
    ensures Step(font, st).st.b == Past(st.b, TokenLength(st)) && Step(font, st).st.calls == st.calls
    ensures Left(Step(font, st).st.b) > 0 ==> TokenLength(st) < Left(st.b)
    ensures TokenLength(st) > 0
  {
    RestAlike(st.b, st.b, TokenLength(st));
    AlikeLess(st.b, st.b, TokenLength(st));
    hide Step;
    StepAlike(font, st, st);
  }

  /** The return at the end of the subroutine leads to where the other run is already. */
  lemma InlinedEnd(font: Font, sa: State, sb: State, d: nat)
    requires Inlined(sa, sb, d) && |sa.calls| == d && Left(sa.b) == 1 && Peek(sa.b) == 0x0B
    ensures Step(font, sa).Next? && Step(font, sa).path == [] && Same(Step(font, sa).st, sb)
  {
    ReturnIs(font, sa);
    hide Step;
    StepOk(font, sa);
    var ta := Step(font, sa).st;
    assert |Rest(sa.b)| == 1 && Rest(sa.b)[..0] == [];
    assert [] + Rest(At(sa, d - 1)) == Rest(At(sa, d - 1));
    hide Past, Peek, Rest, SameStack, StateOk;
    forall k: nat | k <= |ta.calls|
      ensures RestAt(ta, k, sb, k)
    {
      if k < d - 1 {
        assert RestAt(sa, k, sb, k);
      }
    }
  }

  lemma {:induction false} InlinedRun(font: Font, sa: State, sb: State, d: nat, pen: Pen)
    requires Inlined(sa, sb, d) && Returns(font, sa, d)
    ensures Run(font, sa, pen) == Run(font, sb, pen)
    decreases Level(sa, 0), Level(sa, 1), Level(sa, 2), Level(sa, 3), Level(sa, 4), Level(sa, 5),
      Level(sa, 6), Level(sa, 7), Level(sa, 8), Level(sa, 9), Level(sa, 10)
  {
    hide Step, Level, Closed, Inlined, Same;
    InlinedOk(sa, sb, d);
    if |sa.calls| == d && Left(sa.b) == 1 {
      InlinedEnd(font, sa, sb, d);
      SameRun(font, Step(font, sa).st, sb, pen);
    } else {
      InlinedNext(font, sa, sb, d);
      ReturnsNext(font, sa, d);
      hide Draw, Returns;
      StepDescends(font, sa);
      InlinedRun(font, Step(font, sa).st, Step(font, sb).st, d, Draw(pen, Step(font, sa).path));
    }
  }

  lemma InlinedOk(sa: State, sb: State, d: nat)
    requires Inlined(sa, sb, d)
    ensures StateOk(sa) && StateOk(sb)
  {
  }

  /** The state with the bytes of the subroutine, but for its return, in the place of the call. */
  function InPlace(st: State, body: seq<byte>): (st': State)
    requires StateOk(st) && Left(st.b) > 0 && |st.s| > 0 && |body| > 0
    ensures StateOk(st')
  {
    st.(b := Buf(body[..|body| - 1] + Rest(Past(st.b, 1)), 0), s := st.s[..|st.s| - 1])
  }

  /** A call of a subroutine that comes to the return at its end draws what the bytes of the subroutine would draw in
      the place of the call. */
  lemma CallInlines(font: Font, st: State, pen: Pen)
    requires StateOk(st) && Left(st.b) > 0 && (Peek(st.b) == 0x0A || Peek(st.b) == 0x1D) && Step(font, st).Next?
    requires var st1 := Step(font, st).st;
      StateOk(st1) && Left(st1.b) > 0 && st1.b.data[|st1.b.data| - 1] == 0x0B && Returns(font, st1, |st.calls| + 1)
    ensures |st.s| > 0 && Run(font, st, pen) == Run(font, InPlace(st, Step(font, st).st.b.data), pen)
  {
    CallIs(font, st);
    hide Step, Returns, Subr;
    StepOk(font, st);
    var st1 := Step(font, st).st;
    var st2 := InPlace(st, st1.b.data);
    hide Past, Peek;
    PlaceInlined(st, st1, st2);
    InlinedRun(font, st1, st2, |st.calls| + 1, pen);
  }

  lemma PlaceInlined(st: State, st1: State, st2: State)
    requires StateOk(st) && StateOk(st1) && Left(st1.b) > 0 && st1.b.data[|st1.b.data| - 1] == 0x0B && st1.b.cursor == 0
    requires Left(st.b) > 0 && |st.s| > 0 && st2 == InPlace(st, st1.b.data)
    requires st1 == st.(b := st1.b, calls := st.calls + [Past(st.b, 1)], s := st.s[..|st.s| - 1])
    ensures Inlined(st1, st2, |st.calls| + 1)
  {
    assert Rest(st1.b) == st1.b.data && Rest(st2.b) == st2.b.data;
    hide Rest, Past;
    forall k: nat | k < |st.calls|
      ensures RestAt(st1, k, st2, k)
    {
    }
  }
}
