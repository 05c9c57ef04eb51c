/** Exactly when the double compare-and-swap emulation is atomic: when its two words are on one page. */
module TornDouble {
  import opened LockTable

  /** Some order of the operations that have returned explains their results and the memory. */
  ghost predicate Explained(m0: Memory, history: seq<Event>, mem: Memory) {
    exists order: seq<Event> :: multiset(order) == multiset(history) && Sequential(m0, order, mem)
  }

  /** No operation is under way at the end of the run. */
  ghost predicate EndsQuiet(states: seq<State>) {
    Run(states) && Quiet(states[|states| - 1])
  }

  ghost predicate Quiet(s: State) {
    forall t: Tid :: PcOf(s, t).Idle?
  }

  /** Every double in the state is on one page, or at address a. */
  ghost predicate DoublesAt(s: State, a: Addr) {
    forall t: Tid :: !PcOf(s, t).Idle? ==> OnePage(PcOf(s, t).op) || PcOf(s, t).op.addr == a
  }

  /** A run in which no double but those at a may cross a page, up to a state with nothing under way. */
  ghost predicate QuietRun(states: seq<State>, a: Addr) {
    EndsQuiet(states) && forall i | 0 <= i < |states| :: DoublesAt(states[i], a)
  }

  ghost predicate RunExplained(states: seq<State>) {
    |states| > 0 && Explained(states[0].mem, states[|states| - 1].history, states[|states| - 1].mem)
  }

  // ---- On one page

  lemma {:induction false} SequentialSame(m0: Memory, history: seq<Event>, m: Memory, mem: Memory)
    requires Sequential(m0, history, m) && forall w: Addr :: Get(mem, w) == Get(m, w)
    ensures Sequential(m0, history, mem)
  {
    if history != [] {
      var n := |history| - 1;
      var mid: Memory :| Sequential(m0, history[..n], mid) && Reaches(mid, history[n], m);
      assert Reaches(mid, history[n], mem);
    }
  }

  /** With every double on one page, the operations are explained by the order in which they returned. */
  lemma OnePageExplained(states: seq<State>)
    requires EndsQuiet(states) && forall i | 0 <= i < |states| :: OnPages(states[i])
    ensures RunExplained(states)
  {
    hide Run, OnPages;
    assert |states| > 0 by { RunStarts(states); }
    var m := RunIsSequential(states);
    var last := states[|states| - 1];
    forall w: Addr
      ensures Get(last.mem, w) == Get(m, w)
    {
      QuietMemory(states[0].mem, last, m, w);
    }
    SequentialSame(states[0].mem, last.history, m, last.mem);
  }

  lemma RunStarts(states: seq<State>)
    requires Run(states)
    ensures |states| > 0
  {
  }

  // ---- Across the end of a page

  function TheCas(a: Addr): Op { Cas2(a, 0, 0, 1, 1) }

  function TheStore(a: Addr): Op { Store(Second(a), 5) }

  /** From zero memory, thread 0 reads both words of a double and stores the first; thread 1 stores to the second word,
      from start to end; thread 0 stores the second word and returns. */
  function Torn(a: Addr, k: nat): State {
    var c, w, h, g := TheCas(a), TheStore(a), Hash(a), Hash(Second(a));
    if k == 0 then State(map[], map[], map[], [])
    else if k == 1 then State(map[], map[], map[0 := Waiting(c)], [])
    else if k == 2 then State(map[h := 0], map[], map[0 := Locked(c)], [])
    else if k == 3 then State(map[h := 0], map[], map[0 := Read1(c, 0)], [])
    else if k == 4 then State(map[h := 0], map[], map[0 := Read2(c, 0)], [])
    else if k == 5 then State(map[h := 0], map[a := 1], map[0 := Write2(c)], [])
    else if k == 6 then State(map[h := 0], map[a := 1], map[0 := Write2(c), 1 := Waiting(w)], [])
    else if k == 7 then State(map[h := 0, g := 1], map[a := 1], map[0 := Write2(c), 1 := Locked(w)], [])
    else if k == 8 then
      State(map[h := 0, g := 1], map[a := 1, Second(a) := 5], map[0 := Write2(c), 1 := Done(w, 0)], [])
    else if k == 9 then
      State(map[h := 0], map[a := 1, Second(a) := 5], map[0 := Write2(c), 1 := Idle], [Event(1, w, 0)])
    else if k == 10 then
      State(map[h := 0], map[a := 1, Second(a) := 1], map[0 := Done(c, 1), 1 := Idle], [Event(1, w, 0)])
    else State(map[], map[a := 1, Second(a) := 1], map[0 := Idle, 1 := Idle], [Event(1, w, 0), Event(0, c, 1)])
  }

  lemma TornStarts(a: Addr)
    requires a % 4096 == 4088
    ensures StepOf(Torn(a, 0), Torn(a, 1), 0, TheCas(a))
    ensures StepOf(Torn(a, 5), Torn(a, 6), 1, TheStore(a))
  {
    var q := a / 4096;
    assert a == 8 * (512 * q + 511);
    assert a % 8 == 0 && Second(a) % 8 == 0;
  }

  lemma TornLocks(a: Addr)
    requires Hash(a) != Hash(Second(a))
    ensures StepOf(Torn(a, 1), Torn(a, 2), 0, TheCas(a))
    ensures StepOf(Torn(a, 6), Torn(a, 7), 1, TheStore(a))
  {
    hide Hash;
    assert TestAndSet(Torn(a, 1), Torn(a, 2), 0);
    assert TestAndSet(Torn(a, 6), Torn(a, 7), 1);
  }

  lemma TornReads(a: Addr)
    ensures StepOf(Torn(a, 2), Torn(a, 3), 0, TheCas(a))
    ensures StepOf(Torn(a, 3), Torn(a, 4), 0, TheCas(a))
  {
    hide Hash;
    assert First(Torn(a, 2), Torn(a, 3), 0);
    assert Next(Torn(a, 3), Torn(a, 4), 0);
  }

  lemma TornWrites(a: Addr)
    ensures StepOf(Torn(a, 4), Torn(a, 5), 0, TheCas(a))
    ensures StepOf(Torn(a, 9), Torn(a, 10), 0, TheCas(a))
  {
    hide Hash;
    assert FirstStore(Torn(a, 4), Torn(a, 5), 0);
    assert SecondStore(Torn(a, 9), Torn(a, 10), 0);
  }

  lemma TornStore(a: Addr)
    ensures StepOf(Torn(a, 7), Torn(a, 8), 1, TheStore(a))
  {
    hide Hash;
    assert First(Torn(a, 7), Torn(a, 8), 1);
  }

  lemma TornStored(a: Addr)
    requires Hash(a) != Hash(Second(a))
    ensures StepOf(Torn(a, 8), Torn(a, 9), 1, TheStore(a))
  {
    hide Hash;
    var h, g := Hash(a), Hash(Second(a));
    assert map[h := 0, g := 1] - {g} == map[h := 0];
    assert Release(Torn(a, 8), Torn(a, 9), 1);
  }

  lemma TornReturns(a: Addr)
    ensures StepOf(Torn(a, 10), Torn(a, 11), 0, TheCas(a))
  {
    hide Hash;
    assert Release(Torn(a, 10), Torn(a, 11), 0);
  }

  lemma TornSteps(a: Addr, k: nat)
    requires a % 4096 == 4088 && k < 11
    ensures Step(Torn(a, k), Torn(a, k + 1))
  {
    hide Torn, StepOf, Hash;
    OneLockIff(a);
    TornStarts(a);
    TornLocks(a);
    TornReads(a);
    TornWrites(a);
    TornStore(a);
    TornStored(a);
    TornReturns(a);
    assert k == 0 || k == 1 || k == 2 || k == 3 || k == 4 || k == 5 || k == 6 || k == 7 || k == 8 || k == 9 || k == 10;
  }

  function TornRun(a: Addr): seq<State> {
    seq(12, k requires 0 <= k < 12 => Torn(a, k))
  }

  lemma TornIsRun(a: Addr)
    requires a % 4096 == 4088
    ensures QuietRun(TornRun(a), a)
  {
    hide Torn, Step, Hash;
    var states := TornRun(a);
    forall i | 0 <= i < |states| - 1
      ensures Step(states[i], states[i + 1])
    {
      TornSteps(a, i);
    }
    TornEnds(a);
    forall i | 0 <= i < |states|
      ensures DoublesAt(states[i], a)
    {
      TornDoubles(a, i);
    }
  }

  lemma TornEnds(a: Addr)
    ensures Init(Torn(a, 0)) && Quiet(Torn(a, 11))
  {
    hide Hash;
  }

  lemma TornDoubles(a: Addr, k: nat)
    ensures DoublesAt(Torn(a, k), a)
  {
    hide Hash;
  }

  /** No order explains it: after the store the double would fail, and before it the store would have the last word. */
  lemma TornUnexplained(a: Addr, order: seq<Event>)
    requires multiset(order) == multiset(Torn(a, 11).history)
    ensures !Sequential(map[], order, Torn(a, 11).mem)
  {
    hide Hash;
    var e, f := Event(1, TheStore(a), 0), Event(0, TheCas(a), 1);
    var m := map[a := 1, Second(a) := 1];
    assert Torn(a, 11).history == [e, f] && Torn(a, 11).mem == m;
    TwoOrders(order, e, f);
    if Sequential(map[], order, m) {
      TornOrder(a, order, m);
    }
  }

  lemma TornOrder(a: Addr, order: seq<Event>, m: Memory)
    requires Sequential(map[], order, m) && |order| == 2
    ensures order != [Event(1, TheStore(a), 0), Event(0, TheCas(a), 1)]
    ensures order == [Event(0, TheCas(a), 1), Event(1, TheStore(a), 0)] ==> Get(m, Second(a)) == 5
  {
    hide Sequential, Hash;
    var mid := LastOf(map[], order, m);
    var none := LastOf(map[], order[..1], mid);
    NoneOf(map[], none);
    assert order[..1][..0] == [];
  }

  lemma LastOf(m0: Memory, history: seq<Event>, m: Memory) returns (mid: Memory)
    requires Sequential(m0, history, m) && history != []
    ensures Sequential(m0, history[..|history| - 1], mid) && Reaches(mid, history[|history| - 1], m)
  {
    var n := |history| - 1;
    mid :| Sequential(m0, history[..n], mid) && Reaches(mid, history[n], m);
  }

  lemma NoneOf(m0: Memory, m: Memory)
    ensures Sequential(m0, [], m) ==> forall w: Addr :: Get(m, w) == Get(m0, w)
  {
  }

  lemma TwoOrders(order: seq<Event>, e: Event, f: Event)
    requires multiset(order) == multiset([e, f])
    ensures order == [e, f] || order == [f, e]
  {
    assert |order| == |multiset(order)| == 2;
    assert order == [order[0], order[1]];
    assert order[0] in multiset(order) && order[1] in multiset(order);
    if order[0] == order[1] {
      assert multiset(order) == multiset{order[0], order[0]};
      assert multiset([e, f]) == multiset{e, f};
      assert e in multiset(order) && f in multiset(order);
    }
  }

  /** With every double but those at a on one page, and a in its page, every operation is on one page. */
  lemma InPage(states: seq<State>, a: Addr)
    requires QuietRun(states, a) && a % 4096 < 4088
    ensures RunExplained(states)
  {
    hide EndsQuiet, RunExplained;
    forall i | 0 <= i < |states|
      ensures OnPages(states[i])
    {
      assert DoublesAt(states[i], a);
      OpsOnPage(states[i], a);
    }
    OnePageExplained(states);
  }

  lemma OpsOnPage(s: State, a: Addr)
    requires DoublesAt(s, a) && a % 4096 < 4088
    ensures OnPages(s)
  {
  }

  /** The only word whose successor is on another page is the last one. */
  lemma LastWord(a: Addr)
    requires a % 8 == 0 && a % 4096 >= 4088
    ensures a % 4096 == 4088
  {
    var q, r, k := a / 4096, a % 4096, a / 8;
    assert a == 4096 * q + r && a == 8 * k;
    assert r == 8 * (k - 512 * q);
  }

  lemma NotExplained(a: Addr)
    ensures |TornRun(a)| == 12 && !RunExplained(TornRun(a))
  {
    hide Sequential;
    var states := TornRun(a);
    assert states[0].mem == map[] && states[11] == Torn(a, 11);
    forall order: seq<Event> | multiset(order) == multiset(states[11].history)
      ensures !Sequential(map[], order, states[11].mem)
    {
      TornUnexplained(a, order);
    }
  }

  /** A double at a is atomic in every run exactly when it does not cross the end of a page. */
  lemma AtomicIff(a: Addr)
    requires a % 8 == 0
    ensures (forall states :: QuietRun(states, a) ==> RunExplained(states)) <==> a % 4096 < 4088
  {
    hide QuietRun, RunExplained;
    if a % 4096 < 4088 {
      forall states | QuietRun(states, a)
        ensures RunExplained(states)
      {
        InPage(states, a);
      }
    } else {
      LastWord(a);
      TornIsRun(a);
      NotExplained(a);
    }
  }
}
