/** What the path operators of a Type 2 charstring draw, segment by segment, and where that leads. */
module CharstringPaths {
  import opened Bits
  import opened Charstring

  // ----------------------------------------------------- segment by segment

  /** How many segments an operator draws with n operands. */
  function SegCount(op: byte, n: nat): nat
    requires (IsMove(op) || IsPath(op)) && n >= Needs(op)
  {
    if IsMove(op) then 1
    else if op == 0x05 then n / 2
    else if op == 0x06 || op == 0x07 then n
    else if op == 0x08 then n / 6
    else if op == 0x18 then (n - 2) / 6 + 1
    else if op == 0x19 then (n - 6) / 2 + 1
    else n / 4
  }

  /** The six operands from i on, as a curve. */
  function CurveAt(s: seq<real>, i: nat): Seg
    requires i + 6 <= |s|
  {
    Cubic(s[i], s[i + 1], s[i + 2], s[i + 3], s[i + 4], s[i + 5])
  }

  /** The four operands from i on, as a curve that starts along one axis and ends along the other, but for free. */
  function BendAt(s: seq<real>, i: nat, horizontal: bool, free: real): Seg
    requires i + 4 <= |s|
  {
    if horizontal then Cubic(s[i], 0.0, s[i + 1], s[i + 2], free, s[i + 3])
    else Cubic(0.0, s[i], s[i + 1], s[i + 2], s[i + 3], free)
  }

  /** The four operands from i on, as a curve that starts and ends along the same axis, but for f. */
  function WaveAt(s: seq<real>, i: nat, horizontal: bool, f: real): Seg
    requires i + 4 <= |s|
  {
    if horizontal then Cubic(s[i], f, s[i + 1], s[i + 2], s[i + 3], 0.0)
    else Cubic(f, s[i], s[i + 1], s[i + 2], 0.0, s[i + 3])
  }

  /** The k-th segment that an operator draws, as the format lists the operands. */
  function SegAt(op: byte, s: seq<real>, k: nat): Seg
    requires (IsMove(op) || IsPath(op)) && |s| >= Needs(op) && k < SegCount(op, |s|)
  {
    var n := |s|;
    if op == 0x15 then Move(s[n - 2], s[n - 1])
    else if op == 0x04 then Move(0.0, s[n - 1])
    else if op == 0x16 then Move(s[n - 1], 0.0)
    else if op == 0x05 then Line(s[2 * k], s[2 * k + 1])
    else if op == 0x06 then (if k % 2 == 0 then Line(s[k], 0.0) else Line(0.0, s[k]))
    else if op == 0x07 then (if k % 2 == 0 then Line(0.0, s[k]) else Line(s[k], 0.0))
    else if op == 0x08 then CurveAt(s, 6 * k)
    else if op == 0x18 then (if k < (n - 2) / 6 then CurveAt(s, 6 * k) else Line(s[6 * k], s[6 * k + 1]))
    else if op == 0x19 then (if k < (n - 6) / 2 then Line(s[2 * k], s[2 * k + 1]) else CurveAt(s, 2 * k))
    else if op == 0x1E || op == 0x1F then BendSeg(s, k, (k % 2 == 0) == (op == 0x1F))
    else WaveSeg(s, k, op == 0x1B)
  }

  function BendSeg(s: seq<real>, k: nat, horizontal: bool): Seg
    requires k < |s| / 4
  {
    BendAt(s, 4 * k, horizontal, if |s| == 4 * k + 5 then s[4 * k + 4] else 0.0)
  }

  function WaveSeg(s: seq<real>, k: nat, horizontal: bool): Seg
    requires k < |s| / 4
  {
    OddAndFours(|s|);
    WaveAt(s, |s| % 2 + 4 * k, horizontal, if k == 0 && |s| % 2 == 1 then s[0] else 0.0)
  }

  lemma OddAndFours(n: nat)
    ensures 4 * (n / 4) + n % 2 <= n && (n - n % 2) / 4 == n / 4
  {
    var q, r := n / 4, n % 4;
    assert n == 4 * q + r;
    OddOrEven(2 * q);
    OddOrEven(2 * q + 1);
    if r == 0 || r == 1 {
      assert n - n % 2 == 4 * q;
    } else {
      assert n - n % 2 == 4 * q + 2;
    }
  }

  lemma OddOrEven(x: nat)
    ensures (2 * x) % 2 == 0 && (2 * x + 1) % 2 == 1
  {
  }

  lemma {:induction false} LinesAt(s: seq<real>, i: nat, end: int, k: nat)
    requires i <= end <= |s|
    ensures |Lines(s, i, end)| == (end - i) / 2
    ensures k < (end - i) / 2 ==> Lines(s, i, end)[k] == Line(s[i + 2 * k], s[i + 2 * k + 1])
    decreases end - i
  {
    if i + 1 < end {
      LinesAt(s, i + 2, end, if k > 0 then k - 1 else 0);
    }
  }

  lemma {:induction false} StepsAt(s: seq<real>, i: nat, horizontal: bool, k: nat)
    requires i <= |s|
    ensures |Steps(s, i, horizontal)| == |s| - i
    ensures i + k < |s| ==>
      Steps(s, i, horizontal)[k] == if (k % 2 == 0) == horizontal then Line(s[i + k], 0.0) else Line(0.0, s[i + k])
    decreases |s| - i
  {
    if i < |s| {
      StepsAt(s, i + 1, !horizontal, if k > 0 then k - 1 else 0);
    }
  }

  lemma {:induction false} CurvesAt(s: seq<real>, i: nat, end: int, k: nat)
    requires i <= end <= |s|
    ensures |Curves(s, i, end)| == (end - i) / 6
    ensures k < (end - i) / 6 ==> Curves(s, i, end)[k] == CurveAt(s, i + 6 * k)
    decreases end - i
  {
    if i + 5 < end {
      CurvesAt(s, i + 6, end, if k > 0 then k - 1 else 0);
    }
  }

  lemma {:induction false} BendsAt(s: seq<real>, i: nat, horizontal: bool, k: nat)
    requires i <= |s|
    ensures |Bends(s, i, horizontal)| == (|s| - i) / 4
    ensures k < (|s| - i) / 4 ==>
      Bends(s, i, horizontal)[k] == BendAt(s, i + 4 * k, (k % 2 == 0) == horizontal,
                                           if |s| - i == 4 * k + 5 then s[i + 4 * k + 4] else 0.0)
    decreases |s| - i
  {
    if i + 3 < |s| {
      BendsAt(s, i + 4, !horizontal, if k > 0 then k - 1 else 0);
    }
  }

  lemma {:induction false} WavesAt(s: seq<real>, i: nat, f: real, horizontal: bool, k: nat)
    requires i <= |s|
    ensures |Waves(s, i, f, horizontal)| == (|s| - i) / 4
    ensures k < (|s| - i) / 4 ==>
      Waves(s, i, f, horizontal)[k] == WaveAt(s, i + 4 * k, horizontal, if k == 0 then f else 0.0)
    decreases |s| - i
  {
    if i + 3 < |s| {
      WavesAt(s, i + 4, 0.0, horizontal, if k > 0 then k - 1 else 0);
    }
  }

  lemma {:induction false} GroupsOfSix(limit: nat)
    ensures Groups(limit, 6) == limit / 6 * 6
  {
    if limit >= 6 {
      GroupsOfSix(limit - 6);
    }
  }

  lemma {:induction false} GroupsOfTwo(limit: nat)
    ensures Groups(limit, 2) == limit / 2 * 2
  {
    if limit >= 2 {
      GroupsOfTwo(limit - 2);
    }
  }

  lemma LineOpAt(op: byte, s: seq<real>, k: nat)
    requires (IsMove(op) || op == 0x05 || op == 0x06 || op == 0x07 || op == 0x08) && |s| >= Needs(op)
    ensures |PathOf(op, s)| == SegCount(op, |s|)
    ensures k < SegCount(op, |s|) ==> PathOf(op, s)[k] == SegAt(op, s, k)
  {
    hide Lines, Steps, Curves, Bends, Waves, CurveAt;
    if op == 0x05 {
      LinesAt(s, 0, |s|, k);
    } else if op == 0x08 {
      CurvesAt(s, 0, |s|, k);
    } else if !IsMove(op) {
      StepsAt(s, 0, op == 0x06, k);
    }
  }

  lemma CurvesThenLine(s: seq<real>, k: nat)
    requires |s| >= 8
    ensures |PathOf(0x18, s)| == SegCount(0x18, |s|)
    ensures k < SegCount(0x18, |s|) ==> PathOf(0x18, s)[k] == SegAt(0x18, s, k)
  {
    hide Lines, Steps, Curves, Bends, Waves, CurveAt, Groups;
    GroupsOfSix(|s| - 2);
    CurvesAt(s, 0, |s| - 2, k);
  }

  lemma LinesThenCurve(s: seq<real>, k: nat)
    requires |s| >= 8
    ensures |PathOf(0x19, s)| == SegCount(0x19, |s|)
    ensures k < SegCount(0x19, |s|) ==> PathOf(0x19, s)[k] == SegAt(0x19, s, k)
  {
    hide Lines, Steps, Curves, Bends, Waves, Groups;
    GroupsOfTwo(|s| - 6);
    LinesAt(s, 0, |s| - 6, k);
  }

  lemma BendOpAt(op: byte, s: seq<real>, k: nat)
    requires (op == 0x1E || op == 0x1F) && |s| >= 4
    ensures |PathOf(op, s)| == SegCount(op, |s|)
    ensures k < SegCount(op, |s|) ==> PathOf(op, s)[k] == SegAt(op, s, k)
  {
    hide Bends, BendAt;
    BendsAt(s, 0, op == 0x1F, k);
  }

  lemma WaveOpAt(op: byte, s: seq<real>, k: nat)
    requires (op == 0x1A || op == 0x1B) && |s| >= 4
    ensures |PathOf(op, s)| == SegCount(op, |s|)
    ensures k < SegCount(op, |s|) ==> PathOf(op, s)[k] == SegAt(op, s, k)
  {
    hide Waves, WaveAt;
    WavesAt(s, |s| % 2, if |s| % 2 == 1 then s[0] else 0.0, op == 0x1B, k);
    OddAndFours(|s|);
  }

  /** Every operator draws the segments that the format lists, in order. */
  lemma PathIs(op: byte, s: seq<real>, k: nat)
    requires (IsMove(op) || IsPath(op)) && |s| >= Needs(op)
    ensures |PathOf(op, s)| == SegCount(op, |s|)
    ensures k < SegCount(op, |s|) ==> PathOf(op, s)[k] == SegAt(op, s, k)
  {
    hide PathOf, SegAt, SegCount;
    if op == 0x18 {
      CurvesThenLine(s, k);
    } else if op == 0x19 {
      LinesThenCurve(s, k);
    } else if IsMove(op) || op <= 0x08 {
      LineOpAt(op, s, k);
    } else if op == 0x1E || op == 0x1F {
      BendOpAt(op, s, k);
    } else {
      WaveOpAt(op, s, k);
    }
  }

  // ------------------------------------------------- where the path leads

  datatype Axis = X | Y | Unused

  function Part(g: Seg, a: Axis): real {
    match g
    case Move(dx, dy) => if a.X? then dx else dy
    case Line(dx, dy) => if a.X? then dx else dy
    case Cubic(dx1, dy1, dx2, dy2, dx3, dy3) => if a.X? then dx1 + dx2 + dx3 else dy1 + dy2 + dy3
  }

  /** How far the first k segments lead along an axis. */
  function Lead(path: seq<Seg>, k: nat, a: Axis): real
    requires k <= |path|
  {
    if k == 0 then 0.0 else Lead(path, k - 1, a) + Part(path[k - 1], a)
  }

  lemma {:induction false} LeadLater(path: seq<Seg>, k: nat, a: Axis)
    requires k < |path|
    ensures Lead(path, k + 1, a) == Part(path[0], a) + Lead(path[1..], k, a)
  {
    if k > 0 {
      LeadLater(path, k - 1, a);
    }
  }

  lemma ApplyMoves(p: Pen, g: Seg)
    ensures Apply(p, g).x == p.x + Part(g, X) && Apply(p, g).y == p.y + Part(g, Y)
  {
  }

  /** Drawing a path moves the pen by the sum of its segments. */
  lemma {:induction false} DrawMoves(p: Pen, path: seq<Seg>)
    ensures Draw(p, path).x == p.x + Lead(path, |path|, X) && Draw(p, path).y == p.y + Lead(path, |path|, Y)
    decreases |path|
  {
    if path != [] {
      hide Apply, Part;
      ApplyMoves(p, path[0]);
      DrawMoves(Apply(p, path[0]), path[1..]);
      LeadLater(path, |path| - 1, X);
      LeadLater(path, |path| - 1, Y);
    }
  }

  /** Operands that alternate between the axes. */
  function Parity(i: nat, first: Axis, second: Axis): Axis { if i % 2 == 0 then first else second }

  /** The axis of operand i of the four of a bend: it starts along one axis and ends along the other. */
  function BendAxis(j: nat, horizontal: bool): Axis {
    if j == 0 then (if horizontal then X else Y)
    else if j == 1 then X
    else if j == 2 then Y
    else if horizontal then Y else X
  }

  function WaveAxis(j: nat, horizontal: bool): Axis {
    if j == 1 then X else if j == 2 then Y else if horizontal then X else Y
  }

  /** The axis that the format gives to operand i of n, if it uses it. */
  function AxisOf(op: byte, n: nat, i: nat): Axis
    requires (IsMove(op) || IsPath(op)) && n >= Needs(op) && i < n
  {
    if op == 0x15 then (if i == n - 1 then Y else if i == n - 2 then X else Unused)
    else if op == 0x04 then (if i == n - 1 then Y else Unused)
    else if op == 0x16 then (if i == n - 1 then X else Unused)
    else if op == 0x05 then (if i < n / 2 * 2 then Parity(i, X, Y) else Unused)
    else if op == 0x06 then Parity(i, X, Y)
    else if op == 0x07 then Parity(i, Y, X)
    else if op == 0x08 then (if i < n / 6 * 6 then Parity(i, X, Y) else Unused)
    else if op == 0x18 then (if i < (n - 2) / 6 * 6 + 2 then Parity(i, X, Y) else Unused)
    else if op == 0x19 then (if i < (n - 6) / 2 * 2 + 6 then Parity(i, X, Y) else Unused)
    else if op == 0x1E || op == 0x1F then
      if i < n / 4 * 4 then BendAxis(i % 4, (i / 4 % 2 == 0) == (op == 0x1F))
      else if n % 4 == 1 then (if ((n / 4 - 1) % 2 == 0) == (op == 0x1F) then X else Y)
      else Unused
    else if i < n % 2 then (if op == 0x1B then Y else X)
    else if i - n % 2 < n / 4 * 4 then WaveAxis((i - n % 2) % 4, op == 0x1B)
    else Unused
  }

  /** What operand i adds along an axis. */
  function Share(op: byte, s: seq<real>, i: nat, a: Axis): real
    requires (IsMove(op) || IsPath(op)) && |s| >= Needs(op)
  {
    if i < |s| && AxisOf(op, |s|, i) == a then s[i] else 0.0
  }

  /** The sum of the first m operands that belong to an axis. */
  function OperandSum(op: byte, s: seq<real>, m: nat, a: Axis): real
    requires (IsMove(op) || IsPath(op)) && |s| >= Needs(op)
  {
    if m == 0 then 0.0 else OperandSum(op, s, m - 1, a) + Share(op, s, m - 1, a)
  }

  /** The operands that the first k segments take. */
  function Taken(op: byte, n: nat, k: nat): nat
    requires (IsMove(op) || IsPath(op)) && n >= Needs(op)
  {
    if k == 0 then 0
    else if IsMove(op) then n
    else if op == 0x05 then 2 * k
    else if op == 0x06 || op == 0x07 then k
    else if op == 0x08 then 6 * k
    else if op == 0x18 then (if k <= (n - 2) / 6 then 6 * k else 6 * (k - 1) + 2)
    else if op == 0x19 then (if k <= (n - 6) / 2 then 2 * k else 2 * (k - 1) + 6)
    else if op == 0x1E || op == 0x1F then (if n == 4 * k + 1 then n else 4 * k)
    else n % 2 + 4 * k
  }

  lemma SumTwo(op: byte, s: seq<real>, m: nat, a: Axis)
    requires (IsMove(op) || IsPath(op)) && |s| >= Needs(op)
    ensures OperandSum(op, s, m + 1, a) == OperandSum(op, s, m, a) + Share(op, s, m, a)
    ensures OperandSum(op, s, m + 2, a) == OperandSum(op, s, m, a) + Share(op, s, m, a) + Share(op, s, m + 1, a)
  {
    hide Share;
    assert OperandSum(op, s, m + 1, a) == OperandSum(op, s, m, a) + Share(op, s, m, a);
  }

  lemma SumFour(op: byte, s: seq<real>, m: nat, a: Axis)
    requires (IsMove(op) || IsPath(op)) && |s| >= Needs(op)
    ensures OperandSum(op, s, m + 4, a) == OperandSum(op, s, m, a) + Share(op, s, m, a) + Share(op, s, m + 1, a)
      + Share(op, s, m + 2, a) + Share(op, s, m + 3, a)
  {
    hide Share, OperandSum;
    SumTwo(op, s, m, a);
    SumTwo(op, s, m + 2, a);
  }

  lemma SumSix(op: byte, s: seq<real>, m: nat, a: Axis)
    requires (IsMove(op) || IsPath(op)) && |s| >= Needs(op)
    ensures OperandSum(op, s, m + 6, a) == OperandSum(op, s, m, a) + Share(op, s, m, a) + Share(op, s, m + 1, a)
      + Share(op, s, m + 2, a) + Share(op, s, m + 3, a) + Share(op, s, m + 4, a) + Share(op, s, m + 5, a)
  {
    hide Share, OperandSum;
    SumFour(op, s, m, a);
    SumTwo(op, s, m + 4, a);
  }

  /** The first used operands alternate between x and y. */
  predicate Alternate(op: byte, s: seq<real>, i: nat)
    requires (IsMove(op) || IsPath(op)) && |s| >= Needs(op)
  {
    i < |s| && AxisOf(op, |s|, i) == if i % 2 == 0 then X else Y
  }

  /** Two operands from an even place on, as a line. */
  lemma LineTakes(op: byte, s: seq<real>, m: nat, a: Axis)
    requires (IsMove(op) || IsPath(op)) && |s| >= Needs(op) && a != Unused
    requires m % 2 == 0 && Alternate(op, s, m) && Alternate(op, s, m + 1)
    ensures OperandSum(op, s, m + 2, a) == OperandSum(op, s, m, a) + Part(Line(s[m], s[m + 1]), a)
  {
    hide OperandSum, AxisOf;
    SumTwo(op, s, m, a);
  }

  /** Six operands from an even place on, as a curve. */
  lemma CurveTakes(op: byte, s: seq<real>, m: nat, a: Axis)
    requires (IsMove(op) || IsPath(op)) && |s| >= Needs(op) && a != Unused
    requires m % 2 == 0 && m + 6 <= |s| && forall i: nat | m <= i < m + 6 :: Alternate(op, s, i)
    ensures OperandSum(op, s, m + 6, a) == OperandSum(op, s, m, a) + Part(CurveAt(s, m), a)
  {
    hide OperandSum, AxisOf;
    assert Alternate(op, s, m) && Alternate(op, s, m + 1) && Alternate(op, s, m + 2);
    assert Alternate(op, s, m + 3) && Alternate(op, s, m + 4) && Alternate(op, s, m + 5);
    SumSix(op, s, m, a);
  }

  /** Four operands, as a bend and as a wave. */
  lemma BendTakes(op: byte, s: seq<real>, m: nat, horizontal: bool, a: Axis)
    requires (IsMove(op) || IsPath(op)) && |s| >= Needs(op) && a != Unused && m + 4 <= |s|
    requires AxisOf(op, |s|, m) == BendAxis(0, horizontal) && AxisOf(op, |s|, m + 1) == BendAxis(1, horizontal)
    requires AxisOf(op, |s|, m + 2) == BendAxis(2, horizontal) && AxisOf(op, |s|, m + 3) == BendAxis(3, horizontal)
    ensures OperandSum(op, s, m + 4, a) == OperandSum(op, s, m, a) + Part(BendAt(s, m, horizontal, 0.0), a)
  {
    hide OperandSum, AxisOf;
    SumFour(op, s, m, a);
  }

  lemma WaveTakes(op: byte, s: seq<real>, m: nat, horizontal: bool, a: Axis)
    requires (IsMove(op) || IsPath(op)) && |s| >= Needs(op) && a != Unused && m + 4 <= |s|
    requires AxisOf(op, |s|, m) == WaveAxis(0, horizontal) && AxisOf(op, |s|, m + 1) == WaveAxis(1, horizontal)
    requires AxisOf(op, |s|, m + 2) == WaveAxis(2, horizontal) && AxisOf(op, |s|, m + 3) == WaveAxis(3, horizontal)
    ensures OperandSum(op, s, m + 4, a) == OperandSum(op, s, m, a) + Part(WaveAt(s, m, horizontal, 0.0), a)
  {
    hide OperandSum, AxisOf;
    SumFour(op, s, m, a);
  }

  /** A segment takes the next operands, each along the axis that the format gives it. */
  ghost predicate Takes(op: byte, s: seq<real>, k: nat, a: Axis)
    requires (IsMove(op) || IsPath(op)) && |s| >= Needs(op) && k < SegCount(op, |s|)
  {
    OperandSum(op, s, Taken(op, |s|, k + 1), a) == OperandSum(op, s, Taken(op, |s|, k), a) + Part(SegAt(op, s, k), a)
  }

  lemma MoveTakes(op: byte, s: seq<real>, a: Axis)
    requires IsMove(op) && |s| >= Needs(op) && a != Unused
    ensures Takes(op, s, 0, a)
  {
    var n := |s|;
    var before := if op == 0x15 then n - 2 else n - 1;
    NoneTaken(op, s, before, a);
    SumTwo(op, s, before, a);
    hide OperandSum;
  }

  /** The operands before those of a move are not used. */
  lemma {:induction false} NoneTaken(op: byte, s: seq<real>, m: nat, a: Axis)
    requires IsMove(op) && |s| >= Needs(op) && a != Unused && m <= if op == 0x15 then |s| - 2 else |s| - 1
    ensures OperandSum(op, s, m, a) == 0.0
  {
    if m > 0 {
      NoneTaken(op, s, m - 1, a);
    }
  }

  lemma LinesTake(s: seq<real>, k: nat, a: Axis)
    requires |s| >= 2 && a != Unused && k < |s| / 2
    ensures Takes(0x05, s, k, a)
  {
    hide OperandSum, Part;
    Evens(k);
    assert 2 * k + 1 < |s| / 2 * 2;
    LineTakes(0x05, s, 2 * k, a);
  }

  lemma StepsTake(op: byte, s: seq<real>, k: nat, a: Axis)
    requires (op == 0x06 || op == 0x07) && a != Unused && k < |s|
    ensures Takes(op, s, k, a)
  {
    hide OperandSum;
    SumTwo(op, s, k, a);
  }

  lemma CurvesTake(s: seq<real>, k: nat, a: Axis)
    requires |s| >= 6 && a != Unused && k < |s| / 6
    ensures Takes(0x08, s, k, a)
  {
    hide OperandSum, CurveAt, Part;
    Evens(k);
    CurveTakes(0x08, s, 6 * k, a);
  }

  lemma Evens(k: nat)
    ensures (6 * k) % 2 == 0 && (2 * k) % 2 == 0
  {
    assert 6 * k == 2 * (3 * k);
  }

  lemma CurveLineTakes(s: seq<real>, k: nat, a: Axis)
    requires |s| >= 8 && a != Unused && k < SegCount(0x18, |s|)
    ensures Takes(0x18, s, k, a)
  {
    hide OperandSum, CurveAt, Part;
    Evens(k);
    if k < (|s| - 2) / 6 {
      CurveTakes(0x18, s, 6 * k, a);
    } else {
      LineTakes(0x18, s, 6 * k, a);
    }
  }

  lemma LineCurveTakes(s: seq<real>, k: nat, a: Axis)
    requires |s| >= 8 && a != Unused && k < SegCount(0x19, |s|)
    ensures Takes(0x19, s, k, a)
  {
    hide OperandSum, CurveAt, Part;
    Evens(k);
    if k < (|s| - 6) / 2 {
      LineTakes(0x19, s, 2 * k, a);
    } else {
      CurveTakes(0x19, s, 2 * k, a);
    }
  }

  /** The axes of the four operands of bend k. */
  lemma BendAxes(op: byte, n: nat, k: nat, j: nat)
    requires (op == 0x1E || op == 0x1F) && n >= 4 && k < n / 4 && j < 4
    ensures 4 * k + j < n && AxisOf(op, n, 4 * k + j) == BendAxis(j, (k % 2 == 0) == (op == 0x1F))
  {
    Quarter(k, j);
    assert 4 * k + j < n / 4 * 4;
  }

  lemma Quarter(k: nat, j: nat)
    requires j < 4
    ensures (4 * k + j) / 4 == k && (4 * k + j) % 4 == j
  {
  }

  lemma BendsTake(op: byte, s: seq<real>, k: nat, a: Axis)
    requires (op == 0x1E || op == 0x1F) && |s| >= 4 && a != Unused && k < |s| / 4
    ensures Takes(op, s, k, a)
  {
    BendTaken(op, s, k);
    hide *;
    BendSums(op, s, k, (k % 2 == 0) == (op == 0x1F), a);
    TakesIs(op, s, k, a);
  }

  lemma BendSums(op: byte, s: seq<real>, k: nat, h: bool, a: Axis)
    requires (op == 0x1E || op == 0x1F) && |s| >= 4 && a != Unused && k < |s| / 4
    requires h == ((k % 2 == 0) == (op == 0x1F))
    ensures var m := 4 * k; var free := if |s| == m + 5 then s[m + 4] else 0.0;
      OperandSum(op, s, if |s| == m + 5 then m + 5 else m + 4, a)
      == OperandSum(op, s, m, a) + Part(BendAt(s, m, h, free), a)
  {
    hide *;
    BendAxes(op, |s|, k, 0);
    BendAxes(op, |s|, k, 1);
    BendAxes(op, |s|, k, 2);
    BendAxes(op, |s|, k, 3);
    if |s| == 4 * k + 5 {
      FreeShare(op, s, k, a);
    }
    BendPart(op, s, 4 * k, h, a);
  }

  lemma TakesIs(op: byte, s: seq<real>, k: nat, a: Axis)
    requires (IsMove(op) || IsPath(op)) && |s| >= Needs(op) && k < SegCount(op, |s|)
    requires OperandSum(op, s, Taken(op, |s|, k + 1), a)
          == OperandSum(op, s, Taken(op, |s|, k), a) + Part(SegAt(op, s, k), a)
    ensures Takes(op, s, k, a)
  {
  }

  /** Four operands as a bend, or five. */
  lemma BendPart(op: byte, s: seq<real>, m: nat, h: bool, a: Axis)
    requires (op == 0x1E || op == 0x1F) && |s| >= 4 && a != Unused && m + 4 <= |s|
    requires AxisOf(op, |s|, m) == BendAxis(0, h) && AxisOf(op, |s|, m + 1) == BendAxis(1, h)
    requires AxisOf(op, |s|, m + 2) == BendAxis(2, h) && AxisOf(op, |s|, m + 3) == BendAxis(3, h)
    requires |s| == m + 5 ==> Share(op, s, m + 4, a) == if a == (if h then X else Y) then s[m + 4] else 0.0
    ensures var free := if |s| == m + 5 then s[m + 4] else 0.0;
      OperandSum(op, s, if |s| == m + 5 then m + 5 else m + 4, a)
      == OperandSum(op, s, m, a) + Part(BendAt(s, m, h, free), a)
  {
    assert IsPath(op) && Needs(op) == 4;
    hide *;
    BendTakes(op, s, m, h, a);
    if |s| == m + 5 {
      SumTwo(op, s, m + 4, a);
      BendFree(s, m, h, s[m + 4], a);
    }
  }

  lemma BendTaken(op: byte, s: seq<real>, k: nat)
    requires (op == 0x1E || op == 0x1F) && |s| >= 4 && k < |s| / 4
    ensures Taken(op, |s|, k) == 4 * k
    ensures Taken(op, |s|, k + 1) == if |s| == 4 * k + 5 then 4 * k + 5 else 4 * k + 4
    ensures SegAt(op, s, k) ==
      BendAt(s, 4 * k, (k % 2 == 0) == (op == 0x1F), if |s| == 4 * k + 5 then s[4 * k + 4] else 0.0)
  {
    hide BendAt;
  }

  lemma BendFree(s: seq<real>, i: nat, horizontal: bool, free: real, a: Axis)
    requires i + 4 <= |s| && a != Unused
    ensures Part(BendAt(s, i, horizontal, free), a) ==
      Part(BendAt(s, i, horizontal, 0.0), a) + (if a == (if horizontal then X else Y) then free else 0.0)
  {
  }

  /** The last bend may take a fifth operand, which goes across its end. */
  lemma FreeShare(op: byte, s: seq<real>, k: nat, a: Axis)
    requires (op == 0x1E || op == 0x1F) && |s| == 4 * k + 5 && a != Unused
    ensures Share(op, s, 4 * k + 4, a) ==
      if a == (if (k % 2 == 0) == (op == 0x1F) then X else Y) then s[4 * k + 4] else 0.0
  {
    assert |s| / 4 == k + 1 && |s| % 4 == 1;
  }

  lemma WaveAxes(op: byte, n: nat, k: nat, j: nat)
    requires (op == 0x1A || op == 0x1B) && n >= 4 && k < n / 4 && j < 4
    ensures n % 2 + 4 * k + j < n && AxisOf(op, n, n % 2 + 4 * k + j) == WaveAxis(j, op == 0x1B)
  {
    Quarter(k, j);
    OddAndFours(n);
    assert 4 * k + j < n / 4 * 4;
    assert n % 2 + 4 * k + j - n % 2 == 4 * k + j;
  }

  lemma WavesTake(op: byte, s: seq<real>, k: nat, a: Axis)
    requires (op == 0x1A || op == 0x1B) && |s| >= 4 && a != Unused && k < |s| / 4
    ensures Takes(op, s, k, a)
  {
    WaveTaken(op, s, k);
    WaveAxes(op, |s|, k, 0);
    WaveAxes(op, |s|, k, 1);
    WaveAxes(op, |s|, k, 2);
    WaveAxes(op, |s|, k, 3);
    if k == 0 {
      WaveFirst(op, s, a);
    }
    hide *;
    WaveTakes(op, s, |s| % 2 + 4 * k, op == 0x1B, a);
    TakesIs(op, s, k, a);
  }

  lemma WaveTaken(op: byte, s: seq<real>, k: nat)
    requires (op == 0x1A || op == 0x1B) && |s| >= 4 && k < |s| / 4
    ensures Taken(op, |s|, k) == if k == 0 then 0 else |s| % 2 + 4 * k
    ensures Taken(op, |s|, k + 1) == |s| % 2 + 4 * k + 4
    ensures |s| % 2 + 4 * k + 4 <= |s| && SegAt(op, s, k) ==
      WaveAt(s, |s| % 2 + 4 * k, op == 0x1B, if k == 0 && |s| % 2 == 1 then s[0] else 0.0)
  {
    hide WaveAt;
    OddAndFours(|s|);
  }

  /** An operand before the first wave goes across its start. */
  lemma WaveFirst(op: byte, s: seq<real>, a: Axis)
    requires (op == 0x1A || op == 0x1B) && |s| >= 4 && a != Unused
    ensures var m := |s| % 2; m + 4 <= |s| && var f := if m == 1 then s[0] else 0.0;
      OperandSum(op, s, 0, a) + Part(WaveAt(s, m, op == 0x1B, f), a)
      == OperandSum(op, s, m, a) + Part(WaveAt(s, m, op == 0x1B, 0.0), a)
  {
    SumTwo(op, s, 0, a);
    assert OperandSum(op, s, 0, a) == 0.0;
    hide OperandSum;
  }

  lemma SegTakes(op: byte, s: seq<real>, k: nat, a: Axis)
    requires (IsMove(op) || IsPath(op)) && |s| >= Needs(op) && a != Unused && k < SegCount(op, |s|)
    ensures Takes(op, s, k, a)
  {
    hide Takes;
    if IsMove(op) {
      MoveTakes(op, s, a);
    } else if op == 0x08 {
      CurvesTake(s, k, a);
    } else if op == 0x18 {
      CurveLineTakes(s, k, a);
    } else if op == 0x19 {
      LineCurveTakes(s, k, a);
    } else if op == 0x1E || op == 0x1F {
      BendsTake(op, s, k, a);
    } else if op == 0x1A || op == 0x1B {
      WavesTake(op, s, k, a);
    } else if op == 0x05 {
      LinesTake(s, k, a);
    } else {
      StepsTake(op, s, k, a);
    }
  }

  lemma {:induction false} LeadIs(op: byte, s: seq<real>, k: nat, a: Axis)
    requires (IsMove(op) || IsPath(op)) && |s| >= Needs(op) && a != Unused && k <= SegCount(op, |s|)
    ensures k <= |PathOf(op, s)| && Lead(PathOf(op, s), k, a) == OperandSum(op, s, Taken(op, |s|, k), a)
  {
    hide PathOf, SegAt, Part, SegCount;
    PathIs(op, s, 0);
    if k > 0 {
      LeadIs(op, s, k - 1, a);
      PathIs(op, s, k - 1);
      hide Taken, OperandSum;
      SegTakes(op, s, k - 1, a);
    }
  }

  /** The operands past those that the segments take are not used. */
  lemma {:induction false} RestUnused(op: byte, s: seq<real>, t: nat, m: nat, a: Axis)
    requires (IsMove(op) || IsPath(op)) && |s| >= Needs(op) && a != Unused
    requires t == Taken(op, |s|, SegCount(op, |s|)) <= m <= |s|
    ensures OperandSum(op, s, m, a) == OperandSum(op, s, t, a)
  {
    hide AxisOf, Taken, SegCount;
    if m > t {
      RestUnused(op, s, t, m - 1, a);
      PastTaken(op, |s|, m - 1);
    }
  }

  lemma PastTaken(op: byte, n: nat, i: nat)
    requires (IsMove(op) || IsPath(op)) && n >= Needs(op) && Taken(op, n, SegCount(op, n)) <= i < n
    ensures AxisOf(op, n, i) == Unused
  {
  }

  lemma AllTaken(op: byte, n: nat)
    requires (IsMove(op) || IsPath(op)) && n >= Needs(op)
    ensures Taken(op, n, SegCount(op, n)) <= n
  {
    OddAndFours(n);
    if op == 0x05 || op == 0x19 {
      assert 2 * (n / 2) <= n;
    } else if op == 0x08 {
      assert 6 * (n / 6) <= n;
    } else if op == 0x18 {
      assert 6 * ((n - 2) / 6) <= n - 2;
    }
  }

  /** A path operator moves the pen by the sum of the operands that the format gives to each axis. */
  lemma OperatorMoves(op: byte, s: seq<real>, p: Pen)
    requires (IsMove(op) || IsPath(op)) && |s| >= Needs(op)
    ensures var q := Draw(p, PathOf(op, s));
      q.x == p.x + OperandSum(op, s, |s|, X) && q.y == p.y + OperandSum(op, s, |s|, Y)
  {
    hide PathOf, OperandSum, Taken, SegCount;
    DrawMoves(p, PathOf(op, s));
    PathIs(op, s, 0);
    AllTaken(op, |s|);
    LeadIs(op, s, SegCount(op, |s|), X);
    LeadIs(op, s, SegCount(op, |s|), Y);
    RestUnused(op, s, Taken(op, |s|, SegCount(op, |s|)), |s|, X);
    RestUnused(op, s, Taken(op, |s|, SegCount(op, |s|)), |s|, Y);
  }

  // ------------------------------------------------- tangents and the flexes

  /** Bend k of hvcurveto starts horizontal and ends vertical for even k, and the other way round for odd k; with
      vhcurveto it is the reverse. Only the last one may end askew, by a fifth operand. */
  lemma BendTangents(op: byte, s: seq<real>, k: nat)
    requires (op == 0x1E || op == 0x1F) && |s| >= 4 && k < |s| / 4
    ensures k < |PathOf(op, s)| && PathOf(op, s)[k].Cubic? && var g := PathOf(op, s)[k];
      if (k % 2 == 0) == (op == 0x1F)
      then g.dy1 == 0.0 && g.dx1 == s[4 * k] && g.dx3 == if |s| == 4 * k + 5 then s[4 * k + 4] else 0.0
      else g.dx1 == 0.0 && g.dy1 == s[4 * k] && g.dy3 == if |s| == 4 * k + 5 then s[4 * k + 4] else 0.0
  {
    hide PathOf;
    PathIs(op, s, k);
  }

  lemma LeadOfTwo(path: seq<Seg>, a: Axis)
    requires |path| == 2
    ensures Lead(path, 2, a) == Part(path[0], a) + Part(path[1], a)
  {
    hide Part;
    assert Lead(path, 1, a) == Part(path[0], a);
  }

  /** hflex and hflex1 draw two curves that are flat where they meet and come back to the starting line; flex1 comes
      back in the direction in which its first five points have moved less; flex moves by all its operands. */
  lemma FlexReturns(op: byte, s: seq<real>)
    requires 0x22 <= op <= 0x25 && |s| >= FlexNeeds(op)
    ensures var path := FlexOf(op, s); |path| == 2 && path[0].Cubic? && path[1].Cubic?
    ensures var path := FlexOf(op, s); var (x, y) := (Lead(path, 2, X), Lead(path, 2, Y));
      && (op == 0x22 ==> y == 0.0 && x == s[0] + s[1] + s[3] + s[4] + s[5] + s[6])
      && (op == 0x24 ==> y == 0.0 && x == s[0] + s[2] + s[4] + s[5] + s[6] + s[8])
      && (op == 0x23 ==> x == s[0] + s[2] + s[4] + s[6] + s[8] + s[10] && y == s[1] + s[3] + s[5] + s[7] + s[9] + s[11])
      && (op == 0x25 ==>
           var dx, dy := s[0] + s[2] + s[4] + s[6] + s[8], s[1] + s[3] + s[5] + s[7] + s[9];
           if Abs(dx) > Abs(dy) then y == 0.0 && x == dx + s[10] else x == 0.0 && y == dy + s[10])
    ensures op == 0x22 || op == 0x24 ==> var path := FlexOf(op, s);
      path[0].dy3 == 0.0 && path[1].dy1 == 0.0
  {
    LeadOfTwo(FlexOf(op, s), X);
    LeadOfTwo(FlexOf(op, s), Y);
    hide Lead;
  }
}
