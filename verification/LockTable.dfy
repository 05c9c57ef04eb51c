/** The compare-and-swap emulation of libatomic_ops: a table of 16 spin locks, hashed by address. */
module LockTable {
  // Any number of threads run the steps below in any order; every step is one atomic access.

  const HASH_SIZE: nat := 16

  type Addr = nat
  type Tid = nat

  /** AO_HASH. */
  function Hash(a: Addr): (h: nat)
    ensures h < HASH_SIZE
  {
    (a / 4096) % HASH_SIZE
  }

  /** AO_fetch_compare_and_swap_emulation, AO_compare_double_and_swap_double_emulation, AO_store_full_emulation. */
  datatype Op =
    | Cas(addr: Addr, old1: int, new1: int)
    | Cas2(addr: Addr, old1: int, old2: int, new1: int, new2: int)
    | Store(addr: Addr, new1: int)

  /** The second word of a double. */
  function Second(a: Addr): Addr { a + 8 }

  /** The words of the operation lie on one page. A double may be at any word of the page but the last. */
  predicate OnePage(op: Op) {
    op.Cas2? ==> op.addr % 4096 < 4088
  }

  predicate Touches(op: Op, w: Addr) {
    w == op.addr || (op.Cas2? && w == Second(op.addr))
  }

  type Memory = map<Addr, int>

  function Get(m: Memory, a: Addr): int { if a in m then m[a] else 0 }

  /** Where a thread is: idle, spinning for its lock, or in the critical section after some of its accesses. */
  datatype Pc =
    | Idle
    | Waiting(op: Op)
    | Locked(op: Op)                            // holds the lock, nothing read yet
    | Read1(op: Op, val1: int)                  // has read the first word
    | Read2(op: Op, val2: int)                  // has found the first word of a double as expected, and read the second
    | Write2(op: Op)                            // has written the first word of a double
    | Done(op: Op, result: int)                 // about to release the lock

  /** An operation that has returned, and what it returned. */
  datatype Event = Event(tid: Tid, op: Op, result: int)

  datatype State = State(locks: map<nat, Tid>, mem: Memory, pcs: map<Tid, Pc>, history: seq<Event>)

  function PcOf(s: State, t: Tid): Pc { if t in s.pcs then s.pcs[t] else Idle }

  function SetPc(s: State, t: Tid, pc: Pc): State { s.(pcs := s.pcs[t := pc]) }

  // ---- The steps of the emulation

  predicate Start(s: State, s': State, t: Tid, op: Op) {
    PcOf(s, t).Idle? && op.addr % 8 == 0 && s' == SetPc(s, t, Waiting(op))
  }

  /** test-and-set: takes the lock if it was clear, and spins otherwise. */
  predicate TestAndSet(s: State, s': State, t: Tid) {
    var pc := PcOf(s, t);
    pc.Waiting?
    && var h := Hash(pc.op.addr);
       if h in s.locks then s' == s else s' == SetPc(s, t, Locked(pc.op)).(locks := s.locks[h := t])
  }

  /** The first access in the critical section. */
  predicate First(s: State, s': State, t: Tid) {
    var pc := PcOf(s, t);
    pc.Locked?
    && match pc.op
       case Store(a, v) => s' == SetPc(s, t, Done(pc.op, 0)).(mem := s.mem[a := v])
       case Cas(a, _, _) => s' == SetPc(s, t, Read1(pc.op, Get(s.mem, a)))
       case Cas2(a, _, _, _, _) => s' == SetPc(s, t, Read1(pc.op, Get(s.mem, a)))
  }

  /** What follows the first read: the conditional store of a single word, or the second read for a double whose
      first word is as expected. */
  predicate Next(s: State, s': State, t: Tid) {
    var pc := PcOf(s, t);
    pc.Read1?
    && match pc.op
       case Cas(a, o, n) =>
         s' == SetPc(s, t, Done(pc.op, pc.val1)).(mem := if pc.val1 == o then s.mem[a := n] else s.mem)
       case Cas2(a, o1, _, _, _) =>
         s' == SetPc(s, t, if pc.val1 == o1 then Read2(pc.op, Get(s.mem, Second(a))) else Done(pc.op, 0))
       case Store(_, _) => false
  }

  /** The first store of a double, when its second word is as expected too. */
  predicate FirstStore(s: State, s': State, t: Tid) {
    var pc := PcOf(s, t);
    pc.Read2? && pc.op.Cas2?
    && s' == if pc.val2 == pc.op.old2 then SetPc(s, t, Write2(pc.op)).(mem := s.mem[pc.op.addr := pc.op.new1])
             else SetPc(s, t, Done(pc.op, 0))
  }

  predicate SecondStore(s: State, s': State, t: Tid) {
    var pc := PcOf(s, t);
    pc.Write2? && pc.op.Cas2? && s' == SetPc(s, t, Done(pc.op, 1)).(mem := s.mem[Second(pc.op.addr) := pc.op.new2])
  }

  predicate Release(s: State, s': State, t: Tid) {
    var pc := PcOf(s, t);
    pc.Done?
    && s' == SetPc(s, t, Idle).(locks := s.locks - {Hash(pc.op.addr)},
                                history := s.history + [Event(t, pc.op, pc.result)])
  }

  ghost predicate Step(s: State, s': State) {
    exists t: Tid, op: Op :: StepOf(s, s', t, op)
  }

  predicate StepOf(s: State, s': State, t: Tid, op: Op) {
    Start(s, s', t, op) || TestAndSet(s, s', t) || Access(s, s', t) || Release(s, s', t)
  }

  /** A step in the critical section. */
  predicate Access(s: State, s': State, t: Tid) {
    First(s, s', t) || Next(s, s', t) || FirstStore(s, s', t) || SecondStore(s, s', t)
  }

  ghost predicate Init(s: State) {
    s.locks == map[] && s.pcs == map[] && s.history == []
  }

  // ---- The specification: every operation is one atomic step

  /** The memory after the operation, and what it returns. */
  function Atomic(m: Memory, op: Op): (Memory, int) {
    match op
    case Store(a, v) => (m[a := v], 0)
    case Cas(a, o, n) => (if Get(m, a) == o then m[a := n] else m, Get(m, a))
    case Cas2(a, o1, o2, n1, n2) =>
      if Get(m, a) == o1 && Get(m, Second(a)) == o2 then (m[a := n1][Second(a) := n2], 1) else (m, 0)
  }

  /** The history in its own order is what the atomic operations do from memory m0, and m is where it ends. */
  ghost predicate Sequential(m0: Memory, history: seq<Event>, m: Memory)
    decreases |history|
  {
    if history == [] then forall a: Addr :: Get(m, a) == Get(m0, a)
    else
      var n := |history| - 1;
      exists mid: Memory :: Sequential(m0, history[..n], mid) && Reaches(mid, history[n], m)
  }

  ghost predicate Reaches(mid: Memory, e: Event, m: Memory) {
    var (m', r) := Atomic(mid, e.op);
    r == e.result && forall a: Addr :: Get(m, a) == Get(m', a)
  }

  // ---- The invariant: m is the memory as the finished operations left it

  predicate InSection(pc: Pc) { pc.Locked? || pc.Read1? || pc.Read2? || pc.Write2? || pc.Done? }

  /** What a thread in its critical section knows about the words it works on. */
  ghost predicate Local(mem: Memory, m: Memory, pc: Pc) {
    match pc
    case Idle => true
    case Waiting(op) => OnePage(op)
    case Locked(op) => OnePage(op) && Untouched(mem, m, op)
    case Read1(op, v) => OnePage(op) && Untouched(mem, m, op) && v == Get(m, op.addr) && !op.Store?
    case Read2(op, v) =>
      OnePage(op) && op.Cas2? && Untouched(mem, m, op) && Get(m, op.addr) == op.old1 && v == Get(m, Second(op.addr))
    case Write2(op) =>
      OnePage(op) && op.Cas2? && Get(m, op.addr) == op.old1 && Get(m, Second(op.addr)) == op.old2
      && Get(mem, op.addr) == op.new1
    case Done(op, r) => OnePage(op) && r == Atomic(m, op).1 && Untouched(mem, Atomic(m, op).0, op)
  }

  ghost predicate Untouched(mem: Memory, m: Memory, op: Op) {
    Get(mem, op.addr) == Get(m, op.addr) && (op.Cas2? ==> Get(mem, Second(op.addr)) == Get(m, Second(op.addr)))
  }

  /** Each lock is held by the one thread that is in a critical section for it. */
  ghost predicate Owned(s: State) {
    && (forall h | h in s.locks :: InSection(PcOf(s, s.locks[h])) && Hash(PcOf(s, s.locks[h]).op.addr) == h)
    && (forall t: Tid | InSection(PcOf(s, t)) :: Holds(s, Hash(PcOf(s, t).op.addr), t))
  }

  predicate Holds(s: State, h: nat, t: Tid) { h in s.locks && s.locks[h] == t }

  /** Some thread in its critical section works on word w. */
  predicate Busy(s: State, w: Addr) {
    Hash(w) in s.locks && var pc := PcOf(s, s.locks[Hash(w)]); InSection(pc) && Touches(pc.op, w)
  }

  ghost predicate Inv(m0: Memory, s: State, m: Memory) {
    && Sequential(m0, s.history, m) && Owned(s)
    && (forall t: Tid :: Local(s.mem, m, PcOf(s, t)))
    && (forall w: Addr | !Busy(s, w) :: Get(s.mem, w) == Get(m, w))
  }

  /** The two words of a double at address a share a lock exactly when they are on one page. */
  lemma OneLockIff(a: Addr)
    ensures Hash(a) == Hash(Second(a)) <==> a % 4096 < 4088
  {
    var q, r := a / 4096, a % 4096;
    assert Second(a) == 4096 * q + (r + 8);
    assert Second(a) / 4096 == if r < 4088 then q else q + 1;
  }

  /** All words of an operation that stays on one page hash to one lock. */
  lemma OneLock(op: Op, w: Addr)
    requires OnePage(op) && Touches(op, w)
    ensures Hash(w) == Hash(op.addr)
  {
    hide Hash;
    if op.Cas2? {
      OneLockIff(op.addr);
    }
  }

  lemma OwnerOf(s: State, t: Tid, w: Addr)
    requires Owned(s) && InSection(PcOf(s, t)) && OnePage(PcOf(s, t).op) && Touches(PcOf(s, t).op, w)
    ensures Holds(s, Hash(w), t)
  {
    OneLock(PcOf(s, t).op, w);
  }

  /** No word is worked on by two threads in critical sections. */
  lemma WordsApart(s: State, t: Tid, u: Tid, w: Addr)
    requires Owned(s) && InSection(PcOf(s, t)) && InSection(PcOf(s, u)) && t != u
    requires OnePage(PcOf(s, t).op) && OnePage(PcOf(s, u).op)
    ensures !(Touches(PcOf(s, t).op, w) && Touches(PcOf(s, u).op, w))
  {
    if Touches(PcOf(s, t).op, w) && Touches(PcOf(s, u).op, w) {
      OwnerOf(s, t, w);
      OwnerOf(s, u, w);
    }
  }

  /** What a thread knows depends on its own words only. */
  lemma LocalFrame(mem: Memory, m: Memory, mem': Memory, m': Memory, pc: Pc)
    requires Local(mem, m, pc)
    requires InSection(pc) ==> forall w | Touches(pc.op, w) :: Get(mem', w) == Get(mem, w) && Get(m', w) == Get(m, w)
    ensures Local(mem', m', pc)
  {
    if InSection(pc) {
      assert Touches(pc.op, pc.op.addr) && (pc.op.Cas2? ==> Touches(pc.op, Second(pc.op.addr)));
    }
  }

  /** An atomic operation changes its own words only. */
  lemma AtomicFrame(m: Memory, op: Op, w: Addr)
    requires !Touches(op, w)
    ensures Get(Atomic(m, op).0, w) == Get(m, w)
  {
  }

  /** A step that stays inside the critical section of t and writes its own words only. */
  lemma SectionStep(m0: Memory, s: State, s': State, t: Tid, m: Memory)
    requires Inv(m0, s, m) && InSection(PcOf(s, t))
    requires s'.locks == s.locks && s'.history == s.history && s'.pcs == s.pcs[t := PcOf(s', t)]
    requires InSection(PcOf(s', t)) && PcOf(s', t).op == PcOf(s, t).op && Local(s'.mem, m, PcOf(s', t))
    requires forall w | !Touches(PcOf(s, t).op, w) :: Get(s'.mem, w) == Get(s.mem, w)
    ensures Inv(m0, s', m)
  {
    forall u: Tid
      ensures Local(s'.mem, m, PcOf(s', u))
    {
      if u != t {
        assert PcOf(s', u) == PcOf(s, u) && Local(s.mem, m, PcOf(s, t)) && Local(s.mem, m, PcOf(s, u));
        if InSection(PcOf(s, u)) {
          forall w | Touches(PcOf(s, u).op, w)
            ensures Get(s'.mem, w) == Get(s.mem, w)
          {
            WordsApart(s, t, u, w);
          }
        }
        LocalFrame(s.mem, m, s'.mem, m, PcOf(s, u));
      }
    }
    OwnedKept(s, s', t);
    forall w: Addr | !Busy(s', w)
      ensures Get(s'.mem, w) == Get(m, w)
    {
      BusyOwn(s, t, w, m);
    }
  }

  lemma OwnedKept(s: State, s': State, t: Tid)
    requires Owned(s) && InSection(PcOf(s, t)) && s'.locks == s.locks && s'.pcs == s.pcs[t := PcOf(s', t)]
    requires InSection(PcOf(s', t)) && PcOf(s', t).op == PcOf(s, t).op
    ensures Owned(s') && forall w :: Busy(s', w) == Busy(s, w)
  {
    forall u: Tid | InSection(PcOf(s', u))
      ensures Holds(s', Hash(PcOf(s', u).op.addr), u)
    {
      assert Holds(s, Hash(PcOf(s, u).op.addr), u);
    }
  }

  lemma BusyOwn(s: State, t: Tid, w: Addr, m: Memory)
    requires Owned(s) && InSection(PcOf(s, t)) && Local(s.mem, m, PcOf(s, t))
    ensures Touches(PcOf(s, t).op, w) ==> Busy(s, w)
  {
    if Touches(PcOf(s, t).op, w) {
      OneLock(PcOf(s, t).op, w);
      assert Holds(s, Hash(PcOf(s, t).op.addr), t);
    }
  }

  // ---- Every step keeps the invariant; only a release moves the memory of the specification

  /** Every operation under way stays on one page. */
  ghost predicate OnPages(s: State) {
    forall t: Tid :: !PcOf(s, t).Idle? ==> OnePage(PcOf(s, t).op)
  }

  lemma StartKeeps(m0: Memory, s: State, s': State, t: Tid, op: Op, m: Memory)
    requires Inv(m0, s, m) && Start(s, s', t, op) && OnPages(s')
    ensures Inv(m0, s', m)
  {
    assert PcOf(s', t) == Waiting(op);
    OutsideStep(m0, s, s', t, m);
  }

  /** A step of t that is not in a critical section before or after. */
  lemma OutsideStep(m0: Memory, s: State, s': State, t: Tid, m: Memory)
    requires Inv(m0, s, m) && !InSection(PcOf(s, t)) && !InSection(PcOf(s', t))
    requires s' == SetPc(s, t, PcOf(s', t)) && Local(s.mem, m, PcOf(s', t))
    ensures Inv(m0, s', m)
  {
    forall u: Tid
      ensures Local(s'.mem, m, PcOf(s', u))
    {
      assert u != t ==> PcOf(s', u) == PcOf(s, u);
    }
    forall u: Tid | InSection(PcOf(s', u))
      ensures Holds(s', Hash(PcOf(s', u).op.addr), u)
    {
      assert Holds(s, Hash(PcOf(s, u).op.addr), u);
    }
    forall w: Addr | !Busy(s', w)
      ensures Get(s'.mem, w) == Get(m, w)
    {
      assert Busy(s', w) == Busy(s, w);
    }
  }

  lemma LockKeeps(m0: Memory, s: State, s': State, t: Tid, m: Memory)
    requires Inv(m0, s, m) && TestAndSet(s, s', t)
    ensures Inv(m0, s', m)
  {
    var op := PcOf(s, t).op;
    var h := Hash(op.addr);
    if h !in s.locks {
      assert Local(s.mem, m, Waiting(op));
      FreeWords(m0, s, op, m);
      forall u: Tid
        ensures Local(s'.mem, m, PcOf(s', u))
      {
        assert u != t ==> PcOf(s', u) == PcOf(s, u);
      }
      LockOwned(s, s', t);
      forall w: Addr | !Busy(s', w)
        ensures Get(s'.mem, w) == Get(m, w)
      {
        assert Busy(s, w) ==> Busy(s', w);
      }
    }
  }

  /** With its lock clear, the words of an operation are as the finished operations left them. */
  lemma FreeWords(m0: Memory, s: State, op: Op, m: Memory)
    requires Inv(m0, s, m) && OnePage(op) && Hash(op.addr) !in s.locks
    ensures Untouched(s.mem, m, op)
  {
    assert !Busy(s, op.addr);
    if op.Cas2? {
      OneLock(op, Second(op.addr));
      assert !Busy(s, Second(op.addr));
    }
  }

  lemma LockOwned(s: State, s': State, t: Tid)
    requires Owned(s) && TestAndSet(s, s', t) && Hash(PcOf(s, t).op.addr) !in s.locks
    ensures Owned(s')
  {
    forall u: Tid | InSection(PcOf(s', u))
      ensures Holds(s', Hash(PcOf(s', u).op.addr), u)
    {
      if u != t {
        assert PcOf(s', u) == PcOf(s, u) && Holds(s, Hash(PcOf(s, u).op.addr), u);
      }
    }
    forall h | h in s'.locks
      ensures InSection(PcOf(s', s'.locks[h])) && Hash(PcOf(s', s'.locks[h]).op.addr) == h
    {
      if h in s.locks {
        assert InSection(PcOf(s, s.locks[h]));
      }
    }
  }

  lemma AccessKeeps(m0: Memory, s: State, s': State, t: Tid, m: Memory)
    requires Inv(m0, s, m) && Access(s, s', t)
    ensures Inv(m0, s', m)
  {
    assert Local(s.mem, m, PcOf(s, t));
    AccessLocal(s, s', t, m);
    SectionStep(m0, s, s', t, m);
  }

  lemma AccessLocal(s: State, s': State, t: Tid, m: Memory)
    requires Local(s.mem, m, PcOf(s, t)) && Access(s, s', t)
    ensures InSection(PcOf(s, t)) && InSection(PcOf(s', t)) && PcOf(s', t).op == PcOf(s, t).op
    ensures Local(s'.mem, m, PcOf(s', t)) && s'.pcs == s.pcs[t := PcOf(s', t)]
    ensures s'.locks == s.locks && s'.history == s.history
    ensures forall w | !Touches(PcOf(s, t).op, w) :: Get(s'.mem, w) == Get(s.mem, w)
  {
  }

  lemma ReleaseKeeps(m0: Memory, s: State, s': State, t: Tid, m: Memory) returns (m': Memory)
    requires Inv(m0, s, m) && Release(s, s', t)
    ensures Inv(m0, s', m')
    ensures (m', PcOf(s, t).result) == Atomic(m, PcOf(s, t).op)
  {
    var pc := PcOf(s, t);
    var op := pc.op;
    assert Local(s.mem, m, pc);
    m' := Atomic(m, op).0;
    assert s'.history[..|s'.history| - 1] == s.history && Reaches(m, Event(t, op, pc.result), m');
    assert Sequential(m0, s'.history, m');
    ReleaseOwned(s, s', t);
    forall u: Tid
      ensures Local(s'.mem, m', PcOf(s', u))
    {
      if u != t {
        ReleaseLocal(m0, s, t, u, m);
        assert PcOf(s', u) == PcOf(s, u);
      }
    }
    forall w: Addr | !Busy(s', w)
      ensures Get(s'.mem, w) == Get(m', w)
    {
      ReleaseWords(m0, s, s', t, w, m);
    }
  }

  lemma ReleaseLocal(m0: Memory, s: State, t: Tid, u: Tid, m: Memory)
    requires Inv(m0, s, m) && InSection(PcOf(s, t)) && u != t
    ensures Local(s.mem, Atomic(m, PcOf(s, t).op).0, PcOf(s, u))
  {
    assert Local(s.mem, m, PcOf(s, t)) && Local(s.mem, m, PcOf(s, u));
    if InSection(PcOf(s, u)) {
      forall w | Touches(PcOf(s, u).op, w)
        ensures Get(Atomic(m, PcOf(s, t).op).0, w) == Get(m, w)
      {
        WordsApart(s, t, u, w);
        AtomicFrame(m, PcOf(s, t).op, w);
      }
    }
    LocalFrame(s.mem, m, s.mem, Atomic(m, PcOf(s, t).op).0, PcOf(s, u));
  }

  lemma ReleaseOwned(s: State, s': State, t: Tid)
    requires Owned(s) && Release(s, s', t)
    ensures Owned(s')
  {
    var h := Hash(PcOf(s, t).op.addr);
    assert Holds(s, h, t);
    forall u: Tid | InSection(PcOf(s', u))
      ensures Holds(s', Hash(PcOf(s', u).op.addr), u)
    {
      assert u != t && Holds(s, Hash(PcOf(s, u).op.addr), u);
    }
    forall g | g in s'.locks
      ensures InSection(PcOf(s', s'.locks[g])) && Hash(PcOf(s', s'.locks[g]).op.addr) == g
    {
      assert g in s.locks && Hash(PcOf(s, s.locks[g]).op.addr) == g;
    }
  }

  lemma ReleaseWords(m0: Memory, s: State, s': State, t: Tid, w: Addr, m: Memory)
    requires Inv(m0, s, m) && Release(s, s', t) && !Busy(s', w)
    ensures Get(s.mem, w) == Get(Atomic(m, PcOf(s, t).op).0, w)
  {
    var op := PcOf(s, t).op;
    assert Local(s.mem, m, PcOf(s, t));
    if !Touches(op, w) {
      AtomicFrame(m, op, w);
      assert Holds(s, Hash(op.addr), t);
      assert !Busy(s, w);
    }
  }

  /** Only a release adds to the history. */
  lemma SameHistory(s: State, s': State, t: Tid, op: Op)
    requires StepOf(s, s', t, op)
    ensures Release(s, s', t) || s'.history == s.history
  {
  }

  /** Every step of every thread keeps the invariant. The memory of the specification stays the same, or takes the
      one atomic step of the operation that returns. */
  lemma StepKeeps(m0: Memory, s: State, s': State, m: Memory) returns (m': Memory)
    requires Inv(m0, s, m) && Step(s, s') && OnPages(s')
    ensures Inv(m0, s', m')
    ensures if s'.history == s.history then m' == m
            else |s'.history| == |s.history| + 1 && var e := s'.history[|s.history|]; (m', e.result) == Atomic(m, e.op)
  {
    var t: Tid, op: Op :| StepOf(s, s', t, op);
    hide Inv, OnPages, Start, TestAndSet, Access;
    SameHistory(s, s', t, op);
    m' := m;
    if Start(s, s', t, op) {
      StartKeeps(m0, s, s', t, op, m);
    } else if TestAndSet(s, s', t) {
      LockKeeps(m0, s, s', t, m);
    } else if Release(s, s', t) {
      m' := ReleaseKeeps(m0, s, s', t, m);
    } else {
      AccessKeeps(m0, s, s', t, m);
    }
  }

  // ---- Whole runs

  ghost predicate Run(states: seq<State>) {
    |states| > 0 && Init(states[0]) && forall i | 0 <= i < |states| - 1 :: Step(states[i], states[i + 1])
  }

  /** After any run, the operations that have returned did what they would have done one after the other. */
  lemma {:induction false} RunIsSequential(states: seq<State>) returns (m: Memory)
    requires Run(states) && forall i | 0 <= i < |states| :: OnPages(states[i])
    ensures Inv(states[0].mem, states[|states| - 1], m)
    ensures Sequential(states[0].mem, states[|states| - 1].history, m)
  {
    var n := |states| - 1;
    if n == 0 {
      m := states[0].mem;
      InitInv(states[0]);
    } else {
      var before := RunIsSequential(states[..n]);
      assert states[..n][n - 1] == states[n - 1] && Step(states[n - 1], states[n]) && OnPages(states[n]);
      hide Step, OnPages;
      m := StepKeeps(states[0].mem, states[n - 1], states[n], before);
    }
  }

  lemma InitInv(s: State)
    requires Init(s)
    ensures Inv(s.mem, s, s.mem)
  {
  }

  /** With no operation under way, the memory is the one that the operations in sequence leave. */
  lemma QuietMemory(m0: Memory, s: State, m: Memory, w: Addr)
    requires Inv(m0, s, m) && forall t: Tid :: PcOf(s, t).Idle?
    ensures Get(s.mem, w) == Get(m, w)
  {
    assert !Busy(s, w);
  }

  // ---- What holds of the locks, whatever the operations

  /** Where a thread can be in an operation. */
  predicate Shaped(pc: Pc) {
    (pc.Read1? ==> !pc.op.Store?) && (pc.Read2? || pc.Write2? ==> pc.op.Cas2?)
  }

  ghost predicate Locking(s: State) {
    Owned(s) && forall t: Tid :: Shaped(PcOf(s, t))
  }

  lemma LockingStep(s: State, s': State)
    requires Locking(s) && Step(s, s')
    ensures Locking(s')
  {
    var t: Tid, op: Op :| StepOf(s, s', t, op);
    hide Owned;
    forall u: Tid
      ensures Shaped(PcOf(s', u))
    {
      assert Shaped(PcOf(s, t)) && Shaped(PcOf(s, u));
      ShapedStep(s, s', t, u, op);
    }
    LockingOwned(s, s', t, op);
  }

  lemma ShapedStep(s: State, s': State, t: Tid, u: Tid, op: Op)
    requires StepOf(s, s', t, op) && Shaped(PcOf(s, t)) && Shaped(PcOf(s, u))
    ensures Shaped(PcOf(s', u))
  {
    assert u != t ==> PcOf(s', u) == PcOf(s, u);
  }

  lemma LockingOwned(s: State, s': State, t: Tid, op: Op)
    requires Owned(s) && StepOf(s, s', t, op)
    ensures Owned(s')
  {
    hide Owned;
    if Start(s, s', t, op) {
      StartOwned(s, s', t, op);
    } else if TestAndSet(s, s', t) {
      if Hash(PcOf(s, t).op.addr) !in s.locks {
        LockOwned(s, s', t);
      }
    } else if Release(s, s', t) {
      ReleaseOwned(s, s', t);
    } else {
      OwnedKept(s, s', t);
    }
  }

  lemma StartOwned(s: State, s': State, t: Tid, op: Op)
    requires Owned(s) && Start(s, s', t, op)
    ensures Owned(s')
  {
    forall u: Tid | InSection(PcOf(s', u))
      ensures Holds(s', Hash(PcOf(s', u).op.addr), u)
    {
      assert Holds(s, Hash(PcOf(s, u).op.addr), u);
    }
  }

  /** In every state of every run, on whatever addresses, the locks are held as they should be. */
  lemma {:induction false} RunLocking(states: seq<State>)
    requires Run(states)
    ensures Locking(states[|states| - 1])
  {
    var n := |states| - 1;
    if n > 0 {
      RunLocking(states[..n]);
      assert states[..n][n - 1] == states[n - 1] && Step(states[n - 1], states[n]);
      hide Step, Locking;
      LockingStep(states[n - 1], states[n]);
    }
  }

  /** Two threads are never in the critical section of one lock, and a waiting thread holds no lock. */
  lemma MutualExclusion(s: State, t: Tid, u: Tid)
    requires Locking(s) && InSection(PcOf(s, t))
    ensures InSection(PcOf(s, u)) && Hash(PcOf(s, u).op.addr) == Hash(PcOf(s, t).op.addr) ==> u == t
    ensures PcOf(s, u).Waiting? ==> forall h | h in s.locks :: s.locks[h] != u
  {
    assert Holds(s, Hash(PcOf(s, t).op.addr), t);
    if InSection(PcOf(s, u)) {
      assert Holds(s, Hash(PcOf(s, u).op.addr), u);
    }
  }

  /** The holder of a lock can always go on, so no thread waits for one that waits. */
  lemma HolderMoves(s: State, h: nat)
    requires Locking(s) && h in s.locks
    ensures exists s' :: Step(s, s') && PcOf(s', s.locks[h]) != PcOf(s, s.locks[h])
  {
    var t := s.locks[h];
    var pc := PcOf(s, t);
    assert Shaped(pc);
    var s' := HolderNext(s, t);
    assert StepOf(s, s', t, pc.op);
  }

  /** The next state of a thread in its critical section. */
  function HolderNext(s: State, t: Tid): (s': State)
    requires InSection(PcOf(s, t)) && Shaped(PcOf(s, t))
    ensures Access(s, s', t) || Release(s, s', t)
    ensures PcOf(s', t) != PcOf(s, t)
  {
    match PcOf(s, t)
    case Locked(op) =>
      if op.Store? then SetPc(s, t, Done(op, 0)).(mem := s.mem[op.addr := op.new1])
      else SetPc(s, t, Read1(op, Get(s.mem, op.addr)))
    case Read1(op, v) =>
      if op.Cas? then SetPc(s, t, Done(op, v)).(mem := if v == op.old1 then s.mem[op.addr := op.new1] else s.mem)
      else SetPc(s, t, if v == op.old1 then Read2(op, Get(s.mem, Second(op.addr))) else Done(op, 0))
    case Read2(op, v) =>
      if v == op.old2 then SetPc(s, t, Write2(op)).(mem := s.mem[op.addr := op.new1]) else SetPc(s, t, Done(op, 0))
    case Write2(op) => SetPc(s, t, Done(op, 1)).(mem := s.mem[Second(op.addr) := op.new2])
    case Done(op, r) =>
      SetPc(s, t, Idle).(locks := s.locks - {Hash(op.addr)}, history := s.history + [Event(t, op, r)])
  }
}
