/** Looking up a pc in a table of nested address ranges and reporting inlined calls (libbacktrace, base.c). */
module AddrLookup {
  import opened BacktraceSort
  import opened Bits
  import opened SegmentPerm
  import opened Wrappers

  const PC_MAX: nat := 0xFFFF_FFFF_FFFF_FFFF

  type Name = seq<byte>

  /** A function of the debug information; callerFile and callerLine are its call site when it was inlined. */
  datatype Function = Function(name: Name, callerFile: Name, callerLine: int, table: seq<Range>)

  datatype Callee = NoFunction | Calls(target: Function)

  /** low <= pc < high belongs to the callee. */
  datatype Range = Range(low: nat, high: nat, callee: Callee)

  // ---------------------------------------------------------------- order

  function Strcmp(a: Name, b: Name): int {
    if a == [] then (if b == [] then 0 else -1)
    else if b == [] then 1
    else if a[0] != b[0] then a[0] as int - b[0] as int
    else Strcmp(a[1..], b[1..])
  }

  lemma {:induction false} StrcmpFlip(a: Name, b: Name)
    ensures Strcmp(a, b) == -Strcmp(b, a)
    ensures Strcmp(a, b) == 0 <==> a == b
  {
    if a != [] && b != [] && a[0] == b[0] {
      StrcmpFlip(a[1..], b[1..]);
      assert a == [a[0]] + a[1..] && b == [b[0]] + b[1..];
    }
  }

  lemma {:induction false} StrcmpTrans(a: Name, b: Name, c: Name)
    requires Strcmp(a, b) <= 0 && Strcmp(b, c) <= 0
    ensures Strcmp(a, c) <= 0
  {
    if a != [] && b != [] && c != [] && a[0] == b[0] == c[0] {
      StrcmpTrans(a[1..], b[1..], c[1..]);
    }
  }

  function NameOf(r: Range): Name {
    if r.callee.NoFunction? then [] else r.callee.target.name
  }

  /** function_addrs_compare: by low, then the larger high first, then by name. */
  function Compare(a: Range, b: Range): int {
    if a.low < b.low then -1
    else if a.low > b.low then 1
    else if a.high < b.high then 1
    else if a.high > b.high then -1
    else Strcmp(NameOf(a), NameOf(b))
  }

  /** Ranges are totally preordered, and only equal keys tie. */
  lemma CompareIsOrder()
    ensures IsOrder(Compare)
    ensures forall a, b :: Compare(a, b) == 0 <==> a.low == b.low && a.high == b.high && NameOf(a) == NameOf(b)
  {
    forall a: Range, b: Range
      ensures Compare(a, b) > 0 <==> Compare(b, a) < 0
      ensures Compare(a, b) == 0 <==> a.low == b.low && a.high == b.high && NameOf(a) == NameOf(b)
    {
      StrcmpFlip(NameOf(a), NameOf(b));
    }
    forall a: Range, b: Range, c: Range | Compare(a, b) <= 0 && Compare(b, c) <= 0
      ensures Compare(a, c) <= 0
    {
      CompareTrans(a, b, c);
    }
  }

  lemma CompareTrans(a: Range, b: Range, c: Range)
    requires Compare(a, b) <= 0 && Compare(b, c) <= 0
    ensures Compare(a, c) <= 0
  {
    hide Strcmp;
    if a.low == b.low == c.low && a.high == b.high == c.high {
      StrcmpTrans(NameOf(a), NameOf(b), NameOf(c));
    }
  }

  // --------------------------------------------------------------- lookup

  /** n ranges in order and the sentinel after them. */
  ghost predicate Table(t: seq<Range>, n: nat) {
    && |t| == n + 1 && t[n].low == PC_MAX
    && (forall i :: 0 <= i < n ==> t[i].low <= PC_MAX)
    && Sorted(t, Compare, 0, n)
  }

  lemma TableLength(t: seq<Range>, n: nat)
    requires Table(t, n)
    ensures |t| == n + 1 && t[n].low == PC_MAX
  {
  }

  lemma SortedIsTable(s: seq<Range>, t: seq<Range>, n: nat)
    requires |s| == n + 1 && s[n].low == PC_MAX && forall i :: 0 <= i < n ==> s[i].low <= PC_MAX
    requires Perm(s, t, 0, n) && Sorted(t, Compare, 0, n)
    ensures Table(t, n)
  {
    hide Perm, Sorted, Compare;
    PermLength(s, t, 0, n);
    PermOutside(s, t, 0, n, n);
    forall i: nat | i < n ensures t[i].low <= PC_MAX {
      var j := PermElement(s, t, 0, n, i);
    }
  }

  /** Write the sentinel after the last range and sort the ranges before it. */
  method FinishTable(a: array<Range>) returns (ghost depth: nat)
    requires a.Length >= 1 && forall i :: 0 <= i < a.Length - 1 ==> a[i].low <= PC_MAX
    modifies a
    ensures Table(a[..], a.Length - 1)
    ensures a[a.Length - 1] == Range(PC_MAX, PC_MAX, NoFunction)
    ensures multiset(a[..a.Length - 1]) == multiset(old(a[..a.Length - 1]))
    ensures Pow2(depth) <= Max(a.Length - 1, 1)
  {
    hide Sorted, Table, Compare, Pow2, Max, IsOrder;
    var n := a.Length - 1;
    a[n] := Range(PC_MAX, PC_MAX, NoFunction);
    ghost var s := a[..];
    assert s[0..n] == old(a[..n]);
    CompareIsOrder();
    depth := QSort(a, Compare, 0, n);
    SortedIsTable(s, a[..], n);
    assert a[..][0..n] == a[..n];
    PermOutside(s, a[..], 0, n, n);
  }

  /** What a linear scan for pc looks for: of the ranges with the greatest low not above pc, the
      one with the smallest high above pc, and the last of those that are the same range. */
  ghost predicate Innermost(t: seq<Range>, n: nat, pc: nat, i: nat)
    requires n <= |t|
  {
    && i < n && t[i].low <= pc < t[i].high
    && (forall j :: 0 <= j < n && t[j].low <= pc ==> t[j].low <= t[i].low)
    && (forall j :: 0 <= j < n && t[j].low == t[i].low && pc < t[j].high ==>
          t[i].high < t[j].high || (t[i].high == t[j].high && j <= i))
  }

  lemma InnermostBelow(t: seq<Range>, n: nat, pc: nat, i: nat)
    requires n <= |t| && Innermost(t, n, pc, i)
    ensures i < n
  {
  }

  lemma InnermostUnique(t: seq<Range>, n: nat, pc: nat, i: nat, j: nat)
    requires n <= |t| && Innermost(t, n, pc, i) && Innermost(t, n, pc, j)
    ensures i == j
  {
    assert t[i].low == t[j].low;
  }

  lemma LowsRise(t: seq<Range>, n: nat, i: nat, j: nat)
    requires Table(t, n) && i <= j <= n
    ensures t[i].low <= t[j].low
    ensures i < j < n && t[i].low == t[j].low ==> t[i].high >= t[j].high
  {
    if i < j < n {
      assert Compare(t[i], t[j]) <= 0;
    }
  }

  /** function_addrs_search, on entry i. */
  function Search(t: seq<Range>, pc: nat, i: nat): int
    requires i + 1 < |t|
  {
    if pc < t[i].low then -1
    else if pc > t[i + 1].low then 1
    else 0
  }

  /** The C library's bsearch: an entry that compares equal, if there is one. */
  method BSearch(t: seq<Range>, n: nat, pc: nat) returns (r: Option<nat>)
    requires Table(t, n)
    ensures r.Some? ==> r.value < n && Search(t, pc, r.value) == 0
    ensures r.None? ==> forall i: nat :: i < n ==> Search(t, pc, i) != 0
  {
    hide Table;
    TableLength(t, n);
    var l: nat, u: nat := 0, n;
    while l < u
      invariant l <= u <= n
      invariant forall i: nat :: i < l ==> Search(t, pc, i) > 0
      invariant forall i: nat :: u <= i < n ==> Search(t, pc, i) < 0
    {
      var m := (l + u) / 2;
      var c := Search(t, pc, m);
      if c == 0 {
        return Some(m);
      }
      forall i: nat | i < n && (if c < 0 then m <= i else i <= m)
        ensures if c < 0 then Search(t, pc, i) < 0 else Search(t, pc, i) > 0
      {
        SearchMonotone(t, n, pc, i, m);
      }
      if c < 0 {
        u := m;
      } else {
        l := m + 1;
      }
    }
    return None;
  }

  lemma SearchMonotone(t: seq<Range>, n: nat, pc: nat, i: nat, m: nat)
    requires Table(t, n) && i < n && m < n
    ensures m <= i && Search(t, pc, m) < 0 ==> Search(t, pc, i) < 0
    ensures i <= m && Search(t, pc, m) > 0 ==> Search(t, pc, i) > 0
  {
    hide Table;
    TableLength(t, n);
    if m <= i {
      LowsRise(t, n, m, i);
    }
    if i <= m {
      LowsRise(t, n, i, m);
      LowsRise(t, n, i + 1, m + 1);
    }
  }

  /** Some entry compares equal exactly when some range starts at or below pc. */
  lemma {:induction false} SearchFinds(t: seq<Range>, n: nat, pc: nat, k: nat) returns (i: nat)
    requires Table(t, n) && pc < PC_MAX && k < n && t[k].low <= pc
    ensures i < n && Search(t, pc, i) == 0
    decreases n - k
  {
    hide Sorted, Compare;
    i := k;
    if t[k + 1].low < pc {
      i := SearchFinds(t, n, pc, k + 1);
    }
  }

  /** The last entry that starts at or below pc. */
  ghost predicate LastStart(t: seq<Range>, n: nat, pc: nat, p: nat)
    requires n < |t|
  {
    p < n && t[p].low <= pc < t[p + 1].low
  }

  lemma LastStartBelow(t: seq<Range>, n: nat, pc: nat, p: nat)
    requires n < |t| && LastStart(t, n, pc, p)
    ensures p < n
  {
  }

  lemma LastStartMeans(t: seq<Range>, n: nat, pc: nat, p: nat, j: nat)
    requires Table(t, n) && LastStart(t, n, pc, p) && j < n
    ensures t[j].low <= pc <==> j <= p
    ensures j <= p ==> t[j].low <= t[p].low
    ensures j <= p && t[j].low == t[p].low ==> t[j].high >= t[p].high
  {
    hide Table;
    TableLength(t, n);
    if j <= p {
      LowsRise(t, n, j, p);
    } else {
      LowsRise(t, n, p + 1, j);
    }
  }

  lemma FoundIsInnermost(t: seq<Range>, n: nat, pc: nat, p: nat, q: nat)
    requires Table(t, n) && LastStart(t, n, pc, p) && q <= p
    requires t[q].low == t[p].low && pc < t[q].high
    requires forall k :: q < k <= p ==> t[k].high <= pc
    ensures Innermost(t, n, pc, q)
  {
    hide Table;
    TableLength(t, n);
    forall j: nat | j < n && t[j].low <= pc
      ensures t[j].low <= t[q].low && j <= p
      ensures t[j].low == t[q].low && j <= q ==> t[j].high >= t[q].high
    {
      LastStartMeans(t, n, pc, p, j);
      LastStartMeans(t, n, pc, p, q);
      if j <= q {
        LowsRise(t, n, j, q);
      }
    }
  }

  lemma NothingInnermost(t: seq<Range>, n: nat, pc: nat, p: nat, q: nat, i: nat)
    requires Table(t, n) && LastStart(t, n, pc, p) && q <= p
    requires t[q].low == t[p].low && (q == 0 || t[q - 1].low < t[q].low)
    requires forall k :: q <= k <= p ==> t[k].high <= pc
    ensures !Innermost(t, n, pc, i)
  {
    hide Table;
    TableLength(t, n);
    if Innermost(t, n, pc, i) {
      LastStartMeans(t, n, pc, p, i);
      assert t[p].low <= t[i].low;
      if i < q {
        LowsRise(t, n, i, q - 1);
        assert false;
      }
      assert false;
    }
  }

  /** The search of report_inlined_functions and dwarf_lookup_pc: bisect, walk forward over equal
      starts, then walk back to the first range that holds pc. It returns what a linear scan would. */
  method FindRange(t: seq<Range>, n: nat, pc: nat) returns (r: Option<nat>)
    requires Table(t, n) && pc < PC_MAX
    ensures r.Some? ==> Innermost(t, n, pc, r.value)
    ensures r.None? ==> forall i :: !Innermost(t, n, pc, i)
  {
    hide Table, Sorted, Compare;
    TableLength(t, n);
    var found := BSearch(t, n, pc);
    if found.None? {
      forall i ensures !Innermost(t, n, pc, i) {
        if Innermost(t, n, pc, i) {
          var k := SearchFinds(t, n, pc, i);
          assert false;
        }
      }
      return None;
    }
    var p := found.value;
    while pc == t[p + 1].low
      invariant p < n && t[p].low <= pc <= t[p + 1].low
      decreases n - p
    {
      LowsRise(t, n, p + 1, p + 2);
      p := p + 1;
    }
    r := WalkBack(t, n, pc, p);
  }

  /** From the last range that starts at or below pc, walk back over the ranges with its start. */
  method WalkBack(t: seq<Range>, n: nat, pc: nat, last: nat) returns (r: Option<nat>)
    requires Table(t, n) && LastStart(t, n, pc, last)
    ensures r.Some? ==> Innermost(t, n, pc, r.value)
    ensures r.None? ==> forall i :: !Innermost(t, n, pc, i)
  {
    hide Table, LastStart, Innermost;
    TableLength(t, n);
    LastStartBelow(t, n, pc, last);
    var p: nat := last;
    while true
      invariant p <= last && t[p].low == t[last].low
      invariant forall k :: p < k <= last ==> t[k].high <= pc
      decreases p
    {
      if pc < t[p].high {
        FoundIsInnermost(t, n, pc, last, p);
        return Some(p);
      }
      if p == 0 || t[p - 1].low < t[p].low {
        forall i ensures !Innermost(t, n, pc, i) { NothingInnermost(t, n, pc, last, p, i); }
        return None;
      }
      LowsRise(t, n, p - 1, p);
      p := p - 1;
    }
  }

  // --------------------------------------------------------- inlined calls

  /** The tables of f and of every function inlined into it are sorted and end in a sentinel. */
  ghost predicate Valid(f: Function)
    decreases f
  {
    f.table != [] ==>
      && Table(f.table, |f.table| - 1)
      && forall i :: 0 <= i < |f.table| - 1 ==> f.table[i].callee.Calls? && Valid(f.table[i].callee.target)
  }

  /** The range of f's table that a linear scan for pc selects. */
  ghost predicate Selects(f: Function, pc: nat, i: nat) {
    i < |f.table| - 1 && pc < PC_MAX && Innermost(f.table, |f.table| - 1, pc, i)
  }

  /** The functions inlined into one another at pc, the innermost first and f itself last. */
  ghost predicate Chain(f: Function, pc: nat, fs: seq<Function>)
    decreases |fs|
  {
    && fs != [] && fs[|fs| - 1] == f
    && if exists i: nat :: Selects(f, pc, i) then
         exists i: nat :: Selects(f, pc, i) && f.table[i].callee.Calls?
           && Chain(f.table[i].callee.target, pc, fs[..|fs| - 1])
       else
         |fs| == 1
  }

  /** One call of the callback. */
  datatype Frame = Frame(name: Name, file: Name, line: int)

  /** The frames for a chain: the innermost is at the line-table position, and each other one at the
      place where the one before it was called. */
  function Frames(fs: seq<Function>, file: Name, line: int): seq<Frame>
  {
    seq(|fs|, k requires 0 <= k < |fs| =>
      if k == 0 then Frame(fs[0].name, file, line)
      else Frame(fs[k].name, fs[k - 1].callerFile, fs[k - 1].callerLine))
  }

  /** The callback saw the frames in order up to the first for which it returned non-zero. */
  ghost predicate Delivered(frames: seq<Frame>, verdict: Frame -> int, seen: seq<Frame>, ret: int) {
    && seen <= frames
    && (forall k :: 0 <= k < |seen| - 1 ==> verdict(seen[k]) == 0)
    && (ret == 0 ==> seen == frames && (seen != [] ==> verdict(seen[|seen| - 1]) == 0))
    && (ret != 0 ==> seen != [] && verdict(seen[|seen| - 1]) == ret)
  }

  lemma SelectsUnique(f: Function, pc: nat, i: nat, j: nat)
    requires Selects(f, pc, i) && Selects(f, pc, j)
    ensures i == j
  {
    InnermostUnique(f.table, |f.table| - 1, pc, i, j);
  }

  /** The chain is determined by the function and the pc. */
  lemma {:induction false} ChainUnique(f: Function, pc: nat, fs: seq<Function>, gs: seq<Function>)
    requires Chain(f, pc, fs) && Chain(f, pc, gs)
    ensures fs == gs
    decreases |fs|
  {
    hide Innermost;
    if exists i: nat :: Selects(f, pc, i) {
      var i: nat :| Selects(f, pc, i) && f.table[i].callee.Calls?
        && Chain(f.table[i].callee.target, pc, fs[..|fs| - 1]);
      var j: nat :| Selects(f, pc, j) && f.table[j].callee.Calls?
        && Chain(f.table[j].callee.target, pc, gs[..|gs| - 1]);
      SelectsUnique(f, pc, i, j);
      ChainUnique(f.table[i].callee.target, pc, fs[..|fs| - 1], gs[..|gs| - 1]);
    }
    assert fs == fs[..|fs| - 1] + [f] && gs == gs[..|gs| - 1] + [f];
  }

  lemma ChainEnds(f: Function, pc: nat)
    requires forall i: nat :: !Selects(f, pc, i)
    ensures Chain(f, pc, [f])
  {
  }

  lemma ChainExtends(f: Function, pc: nat, i: nat, fs: seq<Function>)
    requires Selects(f, pc, i) && i < |f.table| && f.table[i].callee.Calls? && Chain(f.table[i].callee.target, pc, fs)
    ensures Chain(f, pc, fs + [f])
  {
    assert (fs + [f])[..|fs|] == fs;
  }

  lemma ChainLast(f: Function, pc: nat, fs: seq<Function>)
    requires Chain(f, pc, fs)
    ensures fs != [] && fs[|fs| - 1] == f
  {
  }

  lemma FramesGrow(fs: seq<Function>, f: Function, file: Name, line: int)
    requires fs != []
    ensures |Frames(fs, file, line)| == |fs|
    ensures Frames(fs + [f], file, line)
         == Frames(fs, file, line) + [Frame(f.name, fs[|fs| - 1].callerFile, fs[|fs| - 1].callerLine)]
  {
  }

  lemma DeliverMore(frames: seq<Frame>, verdict: Frame -> int, seen: seq<Frame>, fr: Frame)
    requires Delivered(frames, verdict, seen, 0)
    ensures Delivered(frames + [fr], verdict, seen + [fr], verdict(fr))
  {
  }

  lemma DeliverLess(frames: seq<Frame>, verdict: Frame -> int, seen: seq<Frame>, ret: int, fr: Frame)
    requires Delivered(frames, verdict, seen, ret) && ret != 0
    ensures Delivered(frames + [fr], verdict, seen, ret)
  {
  }

  lemma ValidNested(f: Function, i: nat)
    requires Valid(f) && f.table != [] && i < |f.table| - 1
    ensures Table(f.table, |f.table| - 1)
    ensures f.table[i].callee.Calls? && Valid(f.table[i].callee.target) && f.table[i].callee.target < f
  {
  }

  /** The range of f's table to descend into, if any. */
  method Select(f: Function, pc: nat) returns (r: Option<nat>)
    requires Valid(f) && pc <= PC_MAX
    ensures r.Some? ==> Selects(f, pc, r.value) && r.value < |f.table| - 1
    ensures r.None? ==> forall i: nat :: !Selects(f, pc, i)
  {
    hide Table, Innermost;
    if f.table == [] || pc == PC_MAX {
      return None;
    }
    assert Table(f.table, |f.table| - 1);
    r := FindRange(f.table, |f.table| - 1, pc);
    if r.Some? {
      InnermostBelow(f.table, |f.table| - 1, pc, r.value);
    }
  }

  /** What a report of the calls inlined into f has done when it ends. */
  ghost predicate Reported(f: Function, pc: nat, file: Name, line: int, verdict: Frame -> int, ret: int,
                           file': Name, line': int, seen: seq<Frame>, fs: seq<Function>) {
    && Chain(f, pc, fs)
    && fs != [] && Delivered(Frames(fs[..|fs| - 1], file, line), verdict, seen, ret)
    && (ret == 0 ==> Frames(fs, file, line)[|fs| - 1] == Frame(f.name, file', line'))
  }

  lemma ReportedNone(f: Function, pc: nat, file: Name, line: int, verdict: Frame -> int)
    requires forall i: nat :: !Selects(f, pc, i)
    ensures Reported(f, pc, file, line, verdict, 0, file, line, [], [f])
  {
    hide Chain;
    ChainEnds(f, pc);
    assert [f][..0] == [];
  }

  lemma ReportedStop(f: Function, pc: nat, i: nat, file: Name, line: int, verdict: Frame -> int, ret: int,
                     file': Name, line': int, seen: seq<Frame>, gs: seq<Function>)
    requires Selects(f, pc, i) && i < |f.table| && f.table[i].callee.Calls?
    requires Reported(f.table[i].callee.target, pc, file, line, verdict, ret, file', line', seen, gs) && ret != 0
    ensures Reported(f, pc, file, line, verdict, ret, file', line', seen, gs + [f])
  {
    hide Chain, Delivered, Frames, Selects;
    ChainLast(f.table[i].callee.target, pc, gs);
    ChainExtends(f, pc, i, gs);
    assert (gs + [f])[..|gs|] == gs;
    FramesInit(gs, file, line);
    DeliverLess(Frames(gs[..|gs| - 1], file, line), verdict, seen, ret, Frames(gs, file, line)[|gs| - 1]);
  }

  lemma ReportedGo(f: Function, pc: nat, i: nat, file: Name, line: int, verdict: Frame -> int,
                   file': Name, line': int, seen: seq<Frame>, gs: seq<Function>)
    requires Selects(f, pc, i) && i < |f.table| && f.table[i].callee.Calls?
    requires Reported(f.table[i].callee.target, pc, file, line, verdict, 0, file', line', seen, gs)
    ensures var g := f.table[i].callee.target;
            var fr := Frame(g.name, file', line');
            Reported(f, pc, file, line, verdict, verdict(fr), g.callerFile, g.callerLine, seen + [fr], gs + [f])
  {
    hide Chain, Delivered, Frames, Selects;
    var g := f.table[i].callee.target;
    var fr := Frame(g.name, file', line');
    ChainLast(g, pc, gs);
    ChainExtends(f, pc, i, gs);
    assert (gs + [f])[..|gs|] == gs;
    FramesInit(gs, file, line);
    FramesGrow(gs, f, file, line);
    DeliverMore(Frames(gs[..|gs| - 1], file, line), verdict, seen, fr);
  }

  lemma FramesInit(fs: seq<Function>, file: Name, line: int)
    requires fs != []
    ensures |Frames(fs, file, line)| == |fs|
    ensures Frames(fs, file, line) == Frames(fs[..|fs| - 1], file, line) + [Frames(fs, file, line)[|fs| - 1]]
  {
  }

  /** report_inlined_functions: report every call inlined into f at pc, innermost first, until the
      callback returns non-zero. seen lists the callback's calls; fs is the chain of functions. */
  method ReportInlined(pc: nat, f: Function, file: Name, line: int, verdict: Frame -> int)
    returns (ret: int, file': Name, line': int, seen: seq<Frame>, ghost fs: seq<Function>)
    requires Valid(f) && pc <= PC_MAX
    ensures Reported(f, pc, file, line, verdict, ret, file', line', seen, fs)
    decreases f
  {
    hide *;
    var p := Select(f, pc);
    if p.None? {
      ReportedNone(f, pc, file, line, verdict);
      return 0, file, line, [], [f];
    }
    ValidNested(f, p.value);
    var inlined := f.table[p.value].callee.target;
    ret, file', line', seen, fs := ReportInlined(pc, inlined, file, line, verdict);
    if ret != 0 {
      ReportedStop(f, pc, p.value, file, line, verdict, ret, file', line', seen, fs);
    } else {
      ReportedGo(f, pc, p.value, file, line, verdict, file', line', seen, fs);
      var frame := Frame(inlined.name, file', line');
      ret := verdict(frame);
      seen := seen + [frame];
      file', line' := inlined.callerFile, inlined.callerLine;
    }
    fs := fs + [f];
  }

  /** The search can miss a range that holds pc: past the end of a nested range, the enclosing one is not looked at. */
  lemma OuterTailMissed(f: Function) returns (t: seq<Range>)
    ensures Table(t, 2) && t[0].low <= 50 < t[0].high
    ensures forall i: nat :: !Innermost(t, 2, 50, i)
  {
    t := [Range(0, 100, Calls(f)), Range(10, 20, Calls(f)), Range(PC_MAX, PC_MAX, NoFunction)];
    assert t[1].low == 10 && t[1].high == 20;
    forall i: nat ensures !Innermost(t, 2, 50, i) {
      if i < 2 && t[i].low == 10 {
        assert t[i].high == 20;
      }
    }
  }

  lemma {:induction false} LastStartExists(t: seq<Range>, n: nat, pc: nat, k: nat) returns (p: nat)
    requires Table(t, n) && pc < PC_MAX && k < n && t[k].low <= pc
    ensures LastStart(t, n, pc, p)
    decreases n - k
  {
    hide Sorted, Compare;
    p := k;
    if t[k + 1].low <= pc {
      p := LastStartExists(t, n, pc, k + 1);
    }
  }

  /** The last range up to p that has p's start and holds pc. */
  lemma {:induction false} LastHolder(t: seq<Range>, pc: nat, p: nat, j: nat) returns (q: nat)
    requires j <= p < |t| && t[j].low == t[p].low && pc < t[j].high
    requires forall k :: j <= k <= p ==> t[k].low == t[p].low
    ensures j <= q <= p && t[q].low == t[p].low && pc < t[q].high
    ensures forall k :: q < k <= p ==> t[k].high <= pc
    decreases p - j
  {
    if k: nat :| j < k <= p && pc < t[k].high {
      q := LastHolder(t, pc, p, k);
    } else {
      q := j;
    }
  }

  lemma HolderIsFound(t: seq<Range>, n: nat, pc: nat, p: nat, j: nat) returns (q: nat)
    requires Table(t, n) && LastStart(t, n, pc, p) && j < n
    requires t[j].low == t[p].low && pc < t[j].high
    ensures Innermost(t, n, pc, q)
  {
    hide Table, Innermost;
    TableLength(t, n);
    LastStartMeans(t, n, pc, p, j);
    forall k: nat | j <= k <= p ensures t[k].low == t[p].low {
      LowsRise(t, n, j, k);
      LowsRise(t, n, k, p);
    }
    q := LastHolder(t, pc, p, j);
    FoundIsInnermost(t, n, pc, p, q);
  }

  /** k has the greatest start not above pc, and every range with that start has ended by pc. */
  ghost predicate EndedBy(t: seq<Range>, n: nat, pc: nat, k: nat)
    requires n <= |t|
  {
    && k < n && t[k].low <= pc
    && forall j: nat :: j < n && t[j].low <= pc ==> t[j].low <= t[k].low && (t[j].low == t[k].low ==> t[j].high <= pc)
  }

  /** Exactly when a pc that is at or past the start of some range is not found: the ranges with the
      greatest start not above it have all ended, whether or not an enclosing range holds it. */
  lemma MissedIff(t: seq<Range>, n: nat, pc: nat, h: nat)
    requires Table(t, n) && pc < PC_MAX && h < n && t[h].low <= pc
    ensures (forall i: nat :: !Innermost(t, n, pc, i)) <==> (exists k: nat :: EndedBy(t, n, pc, k))
  {
    hide Table;
    TableLength(t, n);
    if k: nat :| EndedBy(t, n, pc, k) {
      forall i: nat ensures !Innermost(t, n, pc, i) { }
    } else {
      var p := LastStartExists(t, n, pc, h);
      var j := NotEnded(t, n, pc, p);
      var q := HolderIsFound(t, n, pc, p, j);
    }
  }

  lemma NotEnded(t: seq<Range>, n: nat, pc: nat, p: nat) returns (j: nat)
    requires Table(t, n) && LastStart(t, n, pc, p) && !EndedBy(t, n, pc, p)
    ensures j < n && t[j].low == t[p].low && pc < t[j].high
  {
    hide Table;
    TableLength(t, n);
    j :| j < n && t[j].low <= pc && !(t[j].low <= t[p].low && (t[j].low == t[p].low ==> t[j].high <= pc));
    LastStartMeans(t, n, pc, p, j);
  }
}
