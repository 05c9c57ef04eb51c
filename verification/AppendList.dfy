/** The lock-free list of libbacktrace: append by walking to the last link and swapping it from NULL. */
module AppendList {
  // Any number of threads append nodes while others walk the list to read it.

  import opened Wrappers

  type Node = nat
  type Tid = nat

  /** A link: the list head, or the next field of a node. */
  datatype Cell = Head | NextOf(node: Node)

  /** Where a thread is. at and from count the nodes that were published when the link was read as NULL, and when
      the reader started. */
  datatype Pc =
    | Idle
    | Walking(node: Node, cell: Cell)
    | Swapping(node: Node, cell: Cell, at: nat)
    | Reading(cell: Cell, seen: seq<Node>, from: nat)
    | HasRead(seen: seq<Node>, from: nat)

  /** links holds the links that are not NULL; log is the history of appends. */
  datatype State = State(links: map<Cell, Node>, pcs: map<Tid, Pc>, log: seq<Node>)

  function Link(s: State, c: Cell): Option<Node> { if c in s.links then Some(s.links[c]) else None }

  function PcOf(s: State, t: Tid): Pc { if t in s.pcs then s.pcs[t] else Idle }

  function SetPc(s: State, t: Tid, pc: Pc): State { s.(pcs := s.pcs[t := pc]) }

  predicate Appending(pc: Pc) { pc.Walking? || pc.Swapping? }

  // ---- The steps

  /** A node that is not in the list and that no other thread is appending. */
  ghost predicate Fresh(s: State, n: Node) {
    n !in s.log && NextOf(n) !in s.links && forall t: Tid :: Appending(PcOf(s, t)) ==> PcOf(s, t).node != n
  }

  ghost predicate StartAppend(s: State, s': State, t: Tid, n: Node) {
    PcOf(s, t).Idle? && Fresh(s, n) && s' == SetPc(s, t, Walking(n, Head))
  }

  /** Loads the link: goes to the next one, or tries to swap a NULL. */
  predicate Walk(s: State, s': State, t: Tid) {
    var pc := PcOf(s, t);
    pc.Walking?
    && match Link(s, pc.cell)
       case Some(n) => s' == SetPc(s, t, Walking(pc.node, NextOf(n)))
       case None => s' == SetPc(s, t, Swapping(pc.node, pc.cell, |s.log|))
  }

  /** Compare-and-swap of the link from NULL: the node is published, or the walk starts again. */
  predicate Swap(s: State, s': State, t: Tid) {
    var pc := PcOf(s, t);
    pc.Swapping?
    && match Link(s, pc.cell)
       case None => s' == SetPc(s, t, Idle).(links := s.links[pc.cell := pc.node], log := s.log + [pc.node])
       case Some(_) => s' == SetPc(s, t, Walking(pc.node, Head))
  }

  predicate StartRead(s: State, s': State, t: Tid) {
    PcOf(s, t).Idle? && s' == SetPc(s, t, Reading(Head, [], |s.log|))
  }

  predicate Read(s: State, s': State, t: Tid) {
    var pc := PcOf(s, t);
    pc.Reading?
    && match Link(s, pc.cell)
       case Some(n) => s' == SetPc(s, t, Reading(NextOf(n), pc.seen + [n], pc.from))
       case None => s' == SetPc(s, t, HasRead(pc.seen, pc.from))
  }

  predicate EndRead(s: State, s': State, t: Tid) {
    PcOf(s, t).HasRead? && s' == SetPc(s, t, Idle)
  }

  ghost predicate StepOf(s: State, s': State, t: Tid, n: Node) {
    StartAppend(s, s', t, n) || Walk(s, s', t) || Swap(s, s', t) || StartRead(s, s', t) || Read(s, s', t)
    || EndRead(s, s', t)
  }

  ghost predicate Step(s: State, s': State) {
    exists t: Tid, n: Node :: StepOf(s, s', t, n)
  }

  ghost predicate Init(s: State) {
    s.links == map[] && s.pcs == map[] && s.log == []
  }

  // ---- The invariant

  ghost predicate Distinct(log: seq<Node>) {
    forall i, j | 0 <= i < j < |log| :: log[i] != log[j]
  }

  /** The link that follows the first i nodes. */
  function CellAfter(log: seq<Node>, i: nat): Cell
    requires i <= |log|
  {
    if i == 0 then Head else NextOf(log[i - 1])
  }

  predicate Links(links: map<Cell, Node>, c: Cell, n: Node) { c in links && links[c] == n }

  /** The links are exactly those of the list log. */
  ghost predicate Chain(links: map<Cell, Node>, log: seq<Node>) {
    && (forall i: nat {:trigger CellAfter(log, i)} | i < |log| :: Links(links, CellAfter(log, i), log[i]))
    && CellAfter(log, |log|) !in links && (forall n | NextOf(n) in links :: n in log)
  }

  /** The link a thread has reached is the head or that of a published node. */
  predicate Reached(log: seq<Node>, c: Cell) {
    c.Head? || c.node in log
  }

  lemma ReachedAt(log: seq<Node>, c: Cell) returns (i: nat)
    requires Reached(log, c)
    ensures i <= |log| && c == CellAfter(log, i)
  {
    if c.Head? {
      i := 0;
    } else {
      var j :| 0 <= j < |log| && log[j] == c.node;
      i := j + 1;
    }
  }

  ghost predicate Local(log: seq<Node>, pc: Pc) {
    match pc
    case Idle => true
    case Walking(n, c) => n !in log && Reached(log, c)
    case Swapping(n, c, at) => n !in log && at <= |log| && c == CellAfter(log, at)
    case Reading(c, seen, from) => seen <= log && c == CellAfter(log, |seen|) && from <= |log|
    case HasRead(seen, from) => seen <= log && from <= |seen|
  }

  ghost predicate Inv(s: State) {
    && Distinct(s.log) && Chain(s.links, s.log)
    && (forall t: Tid :: Local(s.log, PcOf(s, t)))
    && (forall t: Tid, u: Tid | t != u && Appending(PcOf(s, t)) && Appending(PcOf(s, u)) ::
          PcOf(s, t).node != PcOf(s, u).node)
  }

  /** Only the last link is NULL. */
  lemma LinkAt(s: State, i: nat)
    requires Chain(s.links, s.log) && i <= |s.log|
    ensures Link(s, CellAfter(s.log, i)) == if i < |s.log| then Some(s.log[i]) else None
  {
  }

  lemma CellsApart(log: seq<Node>, i: nat)
    requires Distinct(log) && i < |log|
    ensures CellAfter(log, i) != CellAfter(log, |log|)
  {
  }

  lemma ChainAppend(links: map<Cell, Node>, log: seq<Node>, n: Node)
    requires Chain(links, log) && Distinct(log) && n !in log
    ensures Chain(links[CellAfter(log, |log|) := n], log + [n]) && Distinct(log + [n])
  {
    var log', links' := log + [n], links[CellAfter(log, |log|) := n];
    forall i: nat | i < |log'|
      ensures Links(links', CellAfter(log', i), log'[i])
    {
      assert CellAfter(log', i) == CellAfter(log, i);
      if i < |log| {
        CellsApart(log, i);
      }
    }
  }

  /** What a thread knows stays true when another node is appended. */
  lemma LocalGrows(log: seq<Node>, pc: Pc, n: Node)
    requires Local(log, pc) && (Appending(pc) ==> pc.node != n)
    ensures Local(log + [n], pc)
  {
  }

  /** A step that changes no link. */
  lemma QuietStep(s: State, s': State, t: Tid)
    requires Inv(s) && s' == SetPc(s, t, PcOf(s', t)) && Local(s.log, PcOf(s', t))
    requires Appending(PcOf(s', t)) ==>
      (Appending(PcOf(s, t)) && PcOf(s', t).node == PcOf(s, t).node) || Fresh(s, PcOf(s', t).node)
    ensures Inv(s')
  {
    forall u: Tid
      ensures Local(s'.log, PcOf(s', u))
    {
      assert u != t ==> PcOf(s', u) == PcOf(s, u);
    }
    hide Local, Distinct, Chain;
    forall u: Tid, v: Tid | u != v && Appending(PcOf(s', u)) && Appending(PcOf(s', v))
      ensures PcOf(s', u).node != PcOf(s', v).node
    {
      assert u != t ==> PcOf(s', u) == PcOf(s, u);
      assert v != t ==> PcOf(s', v) == PcOf(s, v);
    }
  }

  lemma WalkKeeps(s: State, s': State, t: Tid)
    requires Inv(s) && Walk(s, s', t)
    ensures Inv(s')
  {
    var pc := PcOf(s, t);
    assert Local(s.log, pc);
    var i := ReachedAt(s.log, pc.cell);
    LinkAt(s, i);
    hide Inv, Chain, Distinct;
    QuietStep(s, s', t);
  }

  /** The swap succeeds exactly when nothing was appended since the link was read as NULL. */
  lemma SwapKeeps(s: State, s': State, t: Tid)
    requires Inv(s) && Swap(s, s', t)
    ensures Inv(s')
    ensures s'.log == (if |s.log| == PcOf(s, t).at then s.log + [PcOf(s, t).node] else s.log)
  {
    var pc := PcOf(s, t);
    assert Local(s.log, pc);
    LinkAt(s, pc.at);
    if pc.at == |s.log| {
      Publish(s, s', t);
    } else {
      hide Inv, Chain, Distinct;
      QuietStep(s, s', t);
    }
  }

  lemma Publish(s: State, s': State, t: Tid)
    requires Inv(s) && PcOf(s, t).Swapping? && PcOf(s, t).at == |s.log|
    requires var pc := PcOf(s, t);
      s' == SetPc(s, t, Idle).(links := s.links[pc.cell := pc.node], log := s.log + [pc.node])
    ensures Inv(s')
  {
    var pc := PcOf(s, t);
    assert Local(s.log, pc);
    ChainAppend(s.links, s.log, pc.node);
    hide Chain, Distinct, Local;
    forall u: Tid
      ensures Local(s'.log, PcOf(s', u))
    {
      if u == t {
        LocalIdle(s'.log);
      } else {
        assert PcOf(s', u) == PcOf(s, u);
        LocalGrows(s.log, PcOf(s, u), pc.node);
      }
    }
    forall u: Tid, v: Tid | u != v && Appending(PcOf(s', u)) && Appending(PcOf(s', v))
      ensures PcOf(s', u).node != PcOf(s', v).node
    {
      assert PcOf(s', u) == PcOf(s, u) && PcOf(s', v) == PcOf(s, v);
    }
  }

  lemma LocalIdle(log: seq<Node>)
    ensures Local(log, Idle)
  {
  }

  lemma ReadKeeps(s: State, s': State, t: Tid)
    requires Inv(s) && Read(s, s', t)
    ensures Inv(s')
  {
    var pc := PcOf(s, t);
    assert Local(s.log, pc);
    LinkAt(s, |pc.seen|);
    hide Inv, Chain, Distinct;
    QuietStep(s, s', t);
  }

  /** Every step of every thread keeps the invariant, the log only grows, and a set link never changes. */
  lemma StepKeeps(s: State, s': State)
    requires Inv(s) && Step(s, s')
    ensures Inv(s') && s.log <= s'.log
    ensures forall c :: Link(s, c).Some? ==> Link(s', c) == Link(s, c)
  {
    var t: Tid, n: Node :| StepOf(s, s', t, n);
    if StartAppend(s, s', t, n) {
      assert Head == CellAfter(s.log, 0);
      QuietStep(s, s', t);
    } else if Walk(s, s', t) {
      WalkKeeps(s, s', t);
    } else if Swap(s, s', t) {
      SwapKeeps(s, s', t);
    } else if Read(s, s', t) {
      ReadKeeps(s, s', t);
    } else {
      QuietStep(s, s', t);
    }
  }

  // ---- Whole runs

  ghost predicate Run(states: seq<State>) {
    |states| > 0 && Init(states[0]) && forall i | 0 <= i < |states| - 1 :: Step(states[i], states[i + 1])
  }

  lemma {:induction false} RunKeeps(states: seq<State>)
    requires Run(states)
    ensures forall i | 0 <= i < |states| :: Inv(states[i])
    ensures forall i, j | 0 <= i <= j < |states| :: states[i].log <= states[j].log
  {
    var n := |states| - 1;
    hide Inv, Step;
    if n == 0 {
      InitInv(states[0]);
    } else {
      RunKeeps(states[..n]);
      assert states[..n][n - 1] == states[n - 1] && Step(states[n - 1], states[n]);
      StepKeeps(states[n - 1], states[n]);
    }
  }

  lemma InitInv(s: State)
    requires Init(s)
    ensures Inv(s)
  {
  }

  /** The nodes from a link on, following at most n links. */
  function Follow(s: State, c: Cell, n: nat): seq<Node>
    decreases n
  {
    if n == 0 || Link(s, c).None? then [] else [Link(s, c).value] + Follow(s, NextOf(Link(s, c).value), n - 1)
  }

  /** In every state of every run the list ends, and holds each appended node exactly once, in order. */
  lemma {:induction false} ListIsLog(s: State, i: nat, n: nat)
    requires Inv(s) && i <= |s.log| <= i + n
    ensures Follow(s, CellAfter(s.log, i), n) == s.log[i..]
    decreases n
  {
    LinkAt(s, i);
    hide Inv, Chain;
    if i < |s.log| {
      ListIsLog(s, i + 1, n - 1);
      assert NextOf(s.log[i]) == CellAfter(s.log, i + 1);
      assert s.log[i..] == [s.log[i]] + s.log[i + 1..];
    }
  }

  /** A reader that has come to the end has seen every node published before it started, each once and in order. */
  lemma ReaderSeesAll(s: State, t: Tid)
    requires Inv(s) && PcOf(s, t).HasRead?
    ensures PcOf(s, t).seen <= s.log && s.log[..PcOf(s, t).from] <= PcOf(s, t).seen && Distinct(PcOf(s, t).seen)
  {
    assert Local(s.log, PcOf(s, t));
  }

  predicate InRead(pc: Pc) { pc.Reading? || pc.HasRead? }

  function FromOf(pc: Pc): nat
    requires InRead(pc)
  {
    pc.from
  }

  /** A step inside a read does not change what it started from. */
  lemma StepFrom(s: State, s': State, t: Tid)
    requires Step(s, s') && InRead(PcOf(s, t)) && InRead(PcOf(s', t))
    ensures FromOf(PcOf(s', t)) == FromOf(PcOf(s, t))
  {
    var u: Tid, n: Node :| StepOf(s, s', u, n);
    if u != t {
      assert PcOf(s', t) == PcOf(s, t);
    }
  }

  /** Thread t starts to read in state i and is still at it, or has come to the end, in state j. */
  ghost predicate ReadsFrom(states: seq<State>, t: Tid, i: nat, j: nat) {
    && i < j < |states| && StartRead(states[i], states[i + 1], t)
    && forall k {:trigger states[k]} :: i < k <= j ==> InRead(PcOf(states[k], t))
  }

  lemma {:induction false} FromKept(states: seq<State>, t: Tid, i: nat, j: nat)
    requires Run(states) && ReadsFrom(states, t, i, j)
    ensures FromOf(PcOf(states[j], t)) == |states[i].log|
    decreases j
  {
    hide Step, Init;
    if j > i + 1 {
      FromKept(states, t, i, j - 1);
      assert Step(states[j - 1], states[j - 1 + 1]);
      StepFrom(states[j - 1], states[j], t);
    }
  }

  /** In every run, a reader that has come to the end saw every node published before it started, no node twice,
      and only nodes that are in the list now. */
  lemma ReaderSeesAllBefore(states: seq<State>, t: Tid, i: nat, j: nat)
    requires Run(states) && ReadsFrom(states, t, i, j) && PcOf(states[j], t).HasRead?
    ensures var seen := PcOf(states[j], t).seen;
      states[i].log <= seen <= states[j].log && Distinct(seen)
  {
    hide Step, Init, Inv, Run, ReadsFrom;
    RunKeeps(states);
    FromKept(states, t, i, j);
    ReaderBounds(states, t, i, j);
    ReaderSeesAll(states[j], t);
    var seen := PcOf(states[j], t).seen;
    assert states[i].log == states[j].log[..|states[i].log|];
  }

  lemma ReaderBounds(states: seq<State>, t: Tid, i: nat, j: nat)
    requires ReadsFrom(states, t, i, j)
    ensures i < j < |states|
  {
  }
}
