/** Which requests AO_malloc can meet from its heap. */
module AoServed {
  import opened Bits
  import opened AoMalloc

  /** Some run on the heap ends with a block of the requested size in the hands of the program. */
  ghost predicate Served(heap: nat, sz: nat) {
    exists states: seq<State> :: Serves(states, heap, sz)
  }

  ghost predicate Serves(states: seq<State>, heap: nat, sz: nat) {
    Run(states) && states[0].heap == heap && HasLive(states[|states| - 1], sz)
  }

  ghost predicate HasLive(s: State, sz: nat) {
    exists base: nat :: IsLive(s, base) && s.place[base].sz == sz
  }

  /** A run of any number of steps on the heap, with thread 0 where pc says at its end. */
  ghost predicate Reached(states: seq<State>, heap: nat, pc: Pc) {
    |states| > 0 && Run(states) && states[0].heap == heap && states[|states| - 1].heap == heap
    && PcOf(states[|states| - 1], 0) == pc
  }

  lemma Extend(states: seq<State>, s': State, n: nat)
    requires Run(states) && StepOf(states[|states| - 1], s', 0, n)
    ensures Run(states + [s'])
  {
    hide StepOf, Init;
    var states' := states + [s'];
    assert Step(states[|states| - 1], s');
    forall i | 0 <= i < |states'| - 1
      ensures Step(states'[i], states'[i + 1])
    {
      if i < |states| - 1 {
        assert Step(states[i], states[i + 1]);
      }
    }
  }

  /** The list for a fresh request is empty, and the thread goes to get a chunk. */
  lemma Ask(heap: nat, sz: nat, log: nat) returns (states: seq<State>)
    requires heap > 0 && sz <= CHUNK - WORD && log == LogFor(sz)
    ensures Reached(states, heap, Loading(sz, log)) && states[|states| - 1].ptr == 0
  {
    hide LogFor;
    var s0 := State(heap, 0, map[], map[], map[], [], map[], map[]);
    var s1 := SetPc(s0, 0, Popping(sz, log));
    var s2 := SetPc(s1, 0, Loading(sz, log));
    assert StartMalloc(s0, s1, 0, sz);
    assert Pop(s1, s2, 0);
    Extend([s0], s1, sz);
    Extend([s0] + [s1], s2, 0);
    states := [s0] + [s1] + [s2];
  }

  /** The first chunk is there to be taken. */
  lemma TakeFirst(before: seq<State>, heap: nat, sz: nat, log: nat) returns (states: seq<State>)
    requires heap > 0 && Reached(before, heap, Loading(sz, log)) && before[|before| - 1].ptr == 0
    ensures Reached(states, heap, Adding(sz, log, RoundUp(heap), ALIGNMENT - WORD))
  {
    hide Run, RoundUp;
    var mine := RoundUp(heap);
    var s0 := before[|before| - 1];
    var s1 := SetPc(s0, 0, Aligning(sz, log, 0));
    var s2 := SetPc(s1, 0, Taking(sz, log, mine)).(ptr := mine);
    var s3 := SetPc(s2, 0, Adding(sz, log, mine, ALIGNMENT - WORD)).(ptr := mine + CHUNK, chunks := s2.chunks + [mine]);
    assert Load(s0, s1, 0);
    assert Align(s1, s2, 0);
    assert Take(s2, s3, 0);
    Extend(before, s1, 0);
    Extend(before + [s1], s2, 0);
    Extend(before + [s1] + [s2], s3, 0);
    states := before + [s1] + [s2] + [s3];
  }

  /** Cutting up a chunk comes to its end, with a block in the list if there is one already or room for one more. */
  lemma {:induction false} CutUp(before: seq<State>, heap: nat, sz: nat, log: nat, c: nat, ofs: nat)
      returns (states: seq<State>)
    requires Reached(before, heap, Adding(sz, log, c, ofs))
    requires ofs + Pow2(log) <= CHUNK || FreeList(before[|before| - 1], log) != []
    ensures Reached(states, heap, Popping(sz, log)) && FreeList(states[|states| - 1], log) != []
    decreases CHUNK - ofs
  {
    hide Run, Pow2;
    var s := before[|before| - 1];
    if ofs + Pow2(log) <= CHUNK {
      var s' := Cut(s);
      Extend(before, s', 0);
      Pow2Positive(log);
      states := CutUp(before + [s'], heap, sz, log, c, ofs + Pow2(log));
    } else {
      var s' := SetPc(s, 0, Popping(sz, log));
      assert Add(s, s', 0, 0);
      Extend(before, s', 0);
      states := before + [s'];
    }
  }

  lemma Pow2Positive(log: nat)
    ensures Pow2(log) > 0
  {
  }

  /** The state after thread 0 has cut a block off its chunk. */
  function Cut(s: State): (s': State)
    requires PcOf(s, 0).Adding? && PcOf(s, 0).ofs + Pow2(PcOf(s, 0).log) <= CHUNK
    ensures Add(s, s', 0, 0) && FreeList(s', PcOf(s, 0).log) != []
    ensures s'.heap == s.heap && PcOf(s', 0) == PcOf(s, 0).(ofs := PcOf(s, 0).ofs + Pow2(PcOf(s, 0).log))
  {
    var pc := PcOf(s, 0);
    var base := pc.chunk + pc.ofs;
    SetPc(s, 0, pc.(ofs := pc.ofs + Pow2(pc.log))).(
      free := s.free[pc.log := [base] + FreeList(s, pc.log)], header := s.header[base := 0],
      blocks := s.blocks[base := Block(pc.log, pc.chunk)], place := s.place[base := InList(pc.log)])
  }

  /** With a block in the list, the request is met. */
  lemma PopLive(before: seq<State>, heap: nat, sz: nat, log: nat)
    requires Reached(before, heap, Popping(sz, log)) && FreeList(before[|before| - 1], log) != []
    ensures Served(heap, sz)
  {
    hide Run;
    var s := before[|before| - 1];
    var list := FreeList(s, log);
    var s1 := SetPc(s, 0, Heading(sz, log, list[0])).(free := s.free[log := list[1..]],
                                                      place := s.place[list[0] := With(0)]);
    var s2 := SetPc(s1, 0, Idle).(header := s1.header[list[0] := log], place := s1.place[list[0] := Live(sz)]);
    assert Pop(s, s1, 0);
    assert WriteHeader(s1, s2, 0);
    Extend(before, s1, 0);
    Extend(before + [s1], s2, 0);
    assert IsLive(s2, list[0]);
    assert Serves(before + [s1] + [s2], heap, sz);
  }

  lemma ServedSmall(states: seq<State>, heap: nat, sz: nat)
    requires Serves(states, heap, sz)
    ensures sz + WORD <= CHUNK / 2
  {
    hide Run, Inv;
    RunStarts(states);
    RunKeeps(states);
    var s := states[|states| - 1];
    var base: nat :| IsLive(s, base) && s.place[base].sz == sz;
    LargestServed(s, base);
  }

  lemma RunStarts(states: seq<State>)
    requires Run(states)
    ensures |states| > 0
  {
  }

  /** A request can be met from the heap exactly when it takes half of a chunk at most, header included. */
  lemma ServedIff(heap: nat, sz: nat)
    requires heap > 0
    ensures Served(heap, sz) <==> sz + WORD <= CHUNK / 2
  {
    hide Run, Inv, Reached, Suits, LogFor, Pow2;
    if Served(heap, sz) {
      var states: seq<State> :| Serves(states, heap, sz);
      ServedSmall(states, heap, sz);
    }
    if sz + WORD <= CHUNK / 2 {
      LogForSuits(sz);
      FirstBlockFits(sz, LogFor(sz));
      var asked := Ask(heap, sz, LogFor(sz));
      var taken := TakeFirst(asked, heap, sz, LogFor(sz));
      var cut := CutUp(taken, heap, sz, LogFor(sz), RoundUp(heap), ALIGNMENT - WORD);
      PopLive(cut, heap, sz, LogFor(sz));
    }
  }

  // ---- Reuse

  ghost predicate Path(states: seq<State>) {
    |states| > 0 && forall i | 0 <= i < |states| - 1 :: Step(states[i], states[i + 1])
  }

  lemma Longer(states: seq<State>, s': State, t: Tid, n: nat)
    requires Path(states) && StepOf(states[|states| - 1], s', t, n)
    ensures Path(states + [s'])
  {
    hide StepOf;
    var states' := states + [s'];
    assert Step(states[|states| - 1], s');
    forall i | 0 <= i < |states'| - 1
      ensures Step(states'[i], states'[i + 1])
    {
      if i < |states| - 1 {
        assert Step(states[i], states[i + 1]);
      }
    }
  }

  /** What AO_free leaves: the block is at the head of its list. */
  ghost predicate Freed(s: State, s': State, t: Tid, base: nat, log: nat) {
    && PcOf(s', t).Idle? && s'.chunks == s.chunks && s'.blocks == s.blocks && s'.ptr == s.ptr
    && FreeList(s', log) == [base] + FreeList(s, log)
  }

  /** Freeing a live block, with nobody else in between. */
  lemma FreeBlock(s: State, t: Tid, base: nat) returns (states: seq<State>)
    requires Inv(s) && PcOf(s, t).Idle? && IsLive(s, base)
    ensures base in s.blocks && Path(states) && states[0] == s
    ensures Freed(s, states[|states| - 1], t, base, s.blocks[base].log)
  {
    LiveBlock(s, base);
    hide Inv, StepOf;
    var log := s.blocks[base].log;
    var s1 := SetPc(s, t, Freeing(base)).(place := s.place[base := With(t)]);
    var s2 := SetPc(s1, t, Pushing(base, log));
    var s3 := SetPc(s2, t, Idle).(free := s.free[log := [base] + FreeList(s, log)], header := s.header[base := 0],
                                  place := s2.place[base := InList(log)]);
    FreeSteps(s, s1, s2, s3, t, base, log);
    assert Path([s]);
    Longer([s], s1, t, base);
    Longer([s] + [s1], s2, t, 0);
    Longer([s] + [s1] + [s2], s3, t, 0);
    states := [s] + [s1] + [s2] + [s3];
  }

  lemma FreeSteps(s: State, s1: State, s2: State, s3: State, t: Tid, base: nat, log: nat)
    requires PcOf(s, t).Idle? && IsLive(s, base) && Header(s, base) == log
    requires s1 == SetPc(s, t, Freeing(base)).(place := s.place[base := With(t)])
    requires s2 == SetPc(s1, t, Pushing(base, log))
    requires s3 == SetPc(s2, t, Idle).(free := s.free[log := [base] + FreeList(s, log)],
                                       header := s.header[base := 0], place := s2.place[base := InList(log)])
    ensures StepOf(s, s1, t, base) && StepOf(s1, s2, t, 0) && StepOf(s2, s3, t, 0)
  {
    assert StartFree(s, s1, t, base);
    assert ReadHeader(s1, s2, t);
    assert Push(s2, s3, t, 0);
  }

  /** A request for the size of the list takes the block at its head. */
  lemma TakeHead(before: seq<State>, t: Tid, sz: nat, log: nat, base: nat) returns (states: seq<State>)
    requires Path(before) && sz <= CHUNK - WORD && log == LogFor(sz)
    requires var s := before[|before| - 1]; PcOf(s, t).Idle? && FreeList(s, log) != [] && FreeList(s, log)[0] == base
    ensures Path(states) && before <= states
    ensures var (s, s') := (before[|before| - 1], states[|states| - 1]);
      IsLive(s', base) && s'.place[base].sz == sz && s'.chunks == s.chunks && s'.blocks == s.blocks && s'.ptr == s.ptr
  {
    hide LogFor, StepOf;
    var s := before[|before| - 1];
    var list := FreeList(s, log);
    var s1 := SetPc(s, t, Popping(sz, log));
    var s2 := SetPc(s1, t, Heading(sz, log, base)).(free := s.free[log := list[1..]],
                                                    place := s.place[base := With(t)]);
    var s3 := SetPc(s2, t, Idle).(header := s2.header[base := log], place := s2.place[base := Live(sz)]);
    TakeSteps(s, s1, s2, s3, t, sz, log, base);
    Longer(before, s1, t, sz);
    Longer(before + [s1], s2, t, 0);
    Longer(before + [s1] + [s2], s3, t, 0);
    states := before + [s1] + [s2] + [s3];
  }

  lemma TakeSteps(s: State, s1: State, s2: State, s3: State, t: Tid, sz: nat, log: nat, base: nat)
    requires PcOf(s, t).Idle? && sz <= CHUNK - WORD && log == LogFor(sz)
    requires FreeList(s, log) != [] && FreeList(s, log)[0] == base && s1 == SetPc(s, t, Popping(sz, log))
    requires s2 == SetPc(s1, t, Heading(sz, log, base)).(free := s.free[log := FreeList(s, log)[1..]],
                                                         place := s.place[base := With(t)])
    requires s3 == SetPc(s2, t, Idle).(header := s2.header[base := log], place := s2.place[base := Live(sz)])
    ensures StepOf(s, s1, t, sz) && StepOf(s1, s2, t, 0) && StepOf(s2, s3, t, 0)
  {
    hide LogFor;
    assert StartMalloc(s, s1, t, sz);
    assert Pop(s1, s2, t);
    assert WriteHeader(s2, s3, t);
  }

  /** A block that is freed can be had again: the next request of its size gets it, and no chunk is taken for that. */
  lemma Reused(s: State, t: Tid, base: nat, sz: nat) returns (states: seq<State>)
    requires Inv(s) && PcOf(s, t).Idle? && IsLive(s, base) && base in s.blocks
    requires sz <= CHUNK - WORD && LogFor(sz) == s.blocks[base].log
    ensures Path(states) && states[0] == s && exists i :: 0 <= i < |states| && base in FreeList(states[i], LogFor(sz))
    ensures var s' := states[|states| - 1];
      IsLive(s', base) && s'.place[base].sz == sz && s'.chunks == s.chunks && s'.ptr == s.ptr && s'.blocks == s.blocks
  {
    hide Inv, LogFor, Step;
    var freed := FreeBlock(s, t, base);
    states := TakeHead(freed, t, sz, LogFor(sz), base);
    assert states[|freed| - 1] == freed[|freed| - 1];
  }

  // ---- The whole heap

  /** Some run on the heap hands out n chunks. */
  ghost predicate Yields(heap: nat, n: nat) {
    exists states: seq<State> :: HandsOut(states, heap, n)
  }

  ghost predicate HandsOut(states: seq<State>, heap: nat, n: nat) {
    |states| > 0 && Run(states) && states[0].heap == heap && |states[|states| - 1].chunks| == n
  }

  /** A run in which threads below n have each taken a chunk, and nothing was put into a list yet. */
  ghost predicate Took(states: seq<State>, heap: nat, n: nat) {
    |states| > 0 && Run(states) && states[0].heap == heap && var s := states[|states| - 1];
    s.heap == heap && s.free == map[] && |s.chunks| == n && s.ptr == (if n == 0 then 0 else ChunkAt(heap, n))
    && PcOf(s, n).Idle? && forall t: Tid | t >= n :: PcOf(s, t).Idle?
  }

  lemma ExtendBy(states: seq<State>, s': State, t: Tid, n: nat)
    requires Run(states) && StepOf(states[|states| - 1], s', t, n)
    ensures Run(states + [s']) && (states + [s'])[0] == states[0]
  {
    hide StepOf, Init;
    var states' := states + [s'];
    assert Step(states[|states| - 1], s');
    forall i | 0 <= i < |states'| - 1
      ensures Step(states'[i], states'[i + 1])
    {
      if i < |states| - 1 {
        assert Step(states[i], states[i + 1]);
      }
    }
  }

  lemma TakeNext(before: seq<State>, heap: nat, n: nat) returns (states: seq<State>)
    requires heap > 0 && Took(before, heap, n) && ChunkAt(heap, n) + CHUNK <= heap + HEAP_SIZE
    ensures Took(states, heap, n + 1)
  {
    hide Run, LogFor;
    var s0 := before[|before| - 1];
    var log, mine := LogFor(0), ChunkAt(heap, n);
    var s1 := SetPc(s0, n, Popping(0, log));
    var s2 := SetPc(s1, n, Loading(0, log));
    var s3 := SetPc(s2, n, Aligning(0, log, s0.ptr));
    var s4 := SetPc(s3, n, Taking(0, log, mine)).(ptr := mine);
    var s5 := SetPc(s4, n, Adding(0, log, mine, ALIGNMENT - WORD)).(ptr := mine + CHUNK, chunks := s4.chunks + [mine]);
    AskSteps(s0, s1, s2, s3, n, log);
    ChunkStep(s3, s4, s5, n, log, mine);
    ExtendBy(before, s1, n, 0);
    ExtendBy(before + [s1], s2, n, 0);
    ExtendBy(before + [s1] + [s2], s3, n, 0);
    ExtendBy(before + [s1] + [s2] + [s3], s4, n, 0);
    ExtendBy(before + [s1] + [s2] + [s3] + [s4], s5, n, 0);
    states := before + [s1] + [s2] + [s3] + [s4] + [s5];
    assert ChunkAt(heap, n + 1) == mine + CHUNK;
    hide StepOf;
    assert states[0] == before[0];
    assert forall t: Tid | t >= n + 1 :: PcOf(s5, t) == PcOf(s0, t);
  }

  lemma AskSteps(s0: State, s1: State, s2: State, s3: State, t: Tid, log: nat)
    requires PcOf(s0, t).Idle? && s0.free == map[] && log == LogFor(0)
    requires s1 == SetPc(s0, t, Popping(0, log)) && s2 == SetPc(s1, t, Loading(0, log))
    requires s3 == SetPc(s2, t, Aligning(0, log, s0.ptr))
    ensures StepOf(s0, s1, t, 0) && StepOf(s1, s2, t, 0) && StepOf(s2, s3, t, 0)
  {
    hide LogFor;
    assert StartMalloc(s0, s1, t, 0);
    assert Pop(s1, s2, t);
    assert Load(s2, s3, t);
  }

  /** The pointer is at the n-th chunk, or still to be set, and the chunk is in the heap. */
  lemma ChunkStep(s3: State, s4: State, s5: State, t: Tid, log: nat, mine: nat)
    requires PcOf(s3, t) == Aligning(0, log, s3.ptr) && s3.heap > 0
    requires exists n: nat ::
      mine == ChunkAt(s3.heap, n) && s3.ptr == (if n == 0 then 0 else mine)
    requires mine + CHUNK <= s3.heap + HEAP_SIZE
    requires s4 == SetPc(s3, t, Taking(0, log, mine)).(ptr := mine)
    requires s5 == SetPc(s4, t, Adding(0, log, mine, ALIGNMENT - WORD)).(ptr := mine + CHUNK,
                                                                       chunks := s4.chunks + [mine])
    ensures StepOf(s3, s4, t, 0) && StepOf(s4, s5, t, 0)
  {
    var n: nat :| mine == ChunkAt(s3.heap, n) && s3.ptr == (if n == 0 then 0 else mine);
    ChunkRounded(s3.heap, n);
    hide RoundUp, ChunkAt;
    assert Align(s3, s4, t);
    assert Take(s4, s5, t);
  }

  lemma ChunkRounded(heap: nat, n: nat)
    ensures RoundUp(ChunkAt(heap, n)) == ChunkAt(heap, n) >= heap && ChunkAt(heap, 0) == RoundUp(heap)
  {
    assert ChunkAt(heap, n) == RoundUp(heap) + ALIGNMENT * (4096 * n);
    ModSum(RoundUp(heap), 4096 * n);
  }

  lemma {:induction false} TakeMany(heap: nat, n: nat) returns (states: seq<State>)
    requires heap > 0 && (n > 0 ==> ChunkAt(heap, n) <= heap + HEAP_SIZE)
    ensures Took(states, heap, n)
  {
    if n == 0 {
      states := [State(heap, 0, map[], map[], map[], [], map[], map[])];
    } else {
      assert ChunkAt(heap, n) == ChunkAt(heap, n - 1) + CHUNK;
      states := TakeMany(heap, n - 1);
      states := TakeNext(states, heap, n - 1);
    }
  }

  /** The heap hands out n chunks in some run exactly when they fit behind its first aligned address: none is lost. */
  lemma YieldsIff(heap: nat, n: nat)
    requires heap > 0
    ensures Yields(heap, n) <==> n == 0 || ChunkAt(heap, n) <= heap + HEAP_SIZE
  {
    hide Run, ChunkAt, Inv;
    if Yields(heap, n) {
      var states: seq<State> :| HandsOut(states, heap, n);
      RunKeeps(states);
      HeapKept(states);
      if n > 0 {
        ChunksFit(states[|states| - 1]);
      }
    }
    if n == 0 || ChunkAt(heap, n) <= heap + HEAP_SIZE {
      var states := TakeMany(heap, n);
      assert HandsOut(states, heap, n);
    }
  }

  lemma {:induction false} HeapKept(states: seq<State>)
    requires Run(states)
    ensures |states| > 0 && states[|states| - 1].heap == states[0].heap
  {
    var n := |states| - 1;
    if n > 0 {
      HeapKept(states[..n]);
      assert states[..n][n - 1] == states[n - 1] && Step(states[n - 1], states[n]);
      hide Run;
    }
  }

  lemma ChunksFit(s: State)
    requires Inv(s) && s.chunks != []
    ensures ChunkAt(s.heap, |s.chunks|) <= s.heap + HEAP_SIZE
  {
    var n := |s.chunks| - 1;
    assert s.chunks[n] == ChunkAt(s.heap, n);
    assert ChunkAt(s.heap, n + 1) == ChunkAt(s.heap, n) + CHUNK;
  }
}
