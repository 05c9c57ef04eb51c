/** AO_malloc and AO_free of libatomic_ops: an allocator with one stack of free blocks per power of two. */
module AoMalloc {
  // Any number of threads run the steps below in any order; every step is one atomic access, and the stacks of
  // free blocks are atomic.

  import opened Bits

  const LOG_MAX_SIZE: nat := 16
  const CHUNK: nat := 0x10000
  const ALIGNMENT: nat := 16
  const WORD: nat := 8
  const HEAP_SIZE: nat := 34 * CHUNK

  type Tid = nat

  /** Rounds an address up to ALIGNMENT. */
  function RoundUp(a: nat): (r: nat)
    ensures r % ALIGNMENT == 0 && a <= r < a + ALIGNMENT
    ensures a % ALIGNMENT == 0 ==> r == a
  {
    (a + ALIGNMENT - 1) / ALIGNMENT * ALIGNMENT
  }

  /** The log of the block for a request of sz bytes: msb (sz + header - 1). */
  function LogFor(sz: nat): nat { Log2(sz + WORD - 1) + 1 }

  datatype Pc =
    | Idle
    | Popping(sz: nat, log: nat)                             // about to pop a free block
    | Loading(sz: nat, log: nat)                             // get_chunk: about to load the heap pointer
    | Aligning(sz: nat, log: nat, initial: nat)              // has loaded it
    | Taking(sz: nat, log: nat, mine: nat)                   // about to swap it past the chunk
    | Adding(sz: nat, log: nat, chunk: nat, ofs: nat)        // add_chunk_as: pushing the blocks of its chunk
    | Heading(sz: nat, log: nat, base: nat)                  // has popped a block, about to write its header
    | Freeing(base: nat)                                     // AO_free: about to read the header
    | Pushing(base: nat, log: nat)                           // about to push the block

  /** A block that was cut from a chunk. */
  datatype Block = Block(log: nat, chunk: nat)

  /** Where a block is. */
  datatype Place = InList(log: nat) | Live(sz: nat) | With(tid: Tid)

  /** ptr, free, header and pcs are the program's; the other fields record what has happened: the chunks that
      get_chunk has handed out, the blocks cut from them, and where each block is. */
  datatype State = State(heap: nat, ptr: nat, free: map<nat, seq<nat>>, header: map<nat, nat>, pcs: map<Tid, Pc>,
                         chunks: seq<nat>, blocks: map<nat, Block>, place: map<nat, Place>)

  function PcOf(s: State, t: Tid): Pc { if t in s.pcs then s.pcs[t] else Idle }

  function SetPc(s: State, t: Tid, pc: Pc): State { s.(pcs := s.pcs[t := pc]) }

  function FreeList(s: State, log: nat): seq<nat> { if log in s.free then s.free[log] else [] }

  function Header(s: State, base: nat): nat { if base in s.header then s.header[base] else 0 }

  // ---- The steps

  predicate StartMalloc(s: State, s': State, t: Tid, sz: nat) {
    PcOf(s, t).Idle? && sz <= CHUNK - WORD && s' == SetPc(s, t, Popping(sz, LogFor(sz)))
  }

  /** AO_stack_pop. */
  predicate Pop(s: State, s': State, t: Tid) {
    var pc := PcOf(s, t);
    pc.Popping?
    && var list := FreeList(s, pc.log);
       if list == [] then s' == SetPc(s, t, Loading(pc.sz, pc.log))
       else s' == SetPc(s, t, Heading(pc.sz, pc.log, list[0])).(free := s.free[pc.log := list[1..]],
                                                                place := s.place[list[0] := With(t)])
  }

  predicate Load(s: State, s': State, t: Tid) {
    var pc := PcOf(s, t);
    pc.Loading? && s' == SetPc(s, t, Aligning(pc.sz, pc.log, s.ptr))
  }

  /** Rounds the pointer up, and swaps it if that changed it; another thread may have done so first. */
  predicate Align(s: State, s': State, t: Tid) {
    var pc := PcOf(s, t);
    pc.Aligning?
    && var mine := RoundUp(if pc.initial == 0 then s.heap else pc.initial);
       s' == SetPc(s, t, Taking(pc.sz, pc.log, mine)).(
               ptr := if pc.initial != mine && s.ptr == pc.initial then mine else s.ptr)
  }

  /** Gives up when the heap is used up; otherwise swaps the pointer past the chunk, or starts again. */
  predicate Take(s: State, s': State, t: Tid) {
    var pc := PcOf(s, t);
    pc.Taking?
    && if pc.mine < s.heap || pc.mine > s.heap + HEAP_SIZE - CHUNK then s' == SetPc(s, t, Idle)
       else if s.ptr == pc.mine then
         s' == SetPc(s, t, Adding(pc.sz, pc.log, pc.mine, ALIGNMENT - WORD)).(ptr := pc.mine + CHUNK,
                                                                            chunks := s.chunks + [pc.mine])
       else s' == SetPc(s, t, Loading(pc.sz, pc.log))
  }

  /** AO_stack_push of the next block of the chunk; the link overwrites the first word of the block. */
  predicate Add(s: State, s': State, t: Tid, link: nat) {
    var pc := PcOf(s, t);
    pc.Adding?
    && if pc.ofs + Pow2(pc.log) <= CHUNK then
         var base := pc.chunk + pc.ofs;
         s' == SetPc(s, t, pc.(ofs := pc.ofs + Pow2(pc.log))).(
                 free := s.free[pc.log := [base] + FreeList(s, pc.log)], header := s.header[base := link],
                 blocks := s.blocks[base := Block(pc.log, pc.chunk)], place := s.place[base := InList(pc.log)])
       else s' == SetPc(s, t, Popping(pc.sz, pc.log))
  }

  /** Writes the header and hands the block to the program. */
  predicate WriteHeader(s: State, s': State, t: Tid) {
    var pc := PcOf(s, t);
    pc.Heading?
    && s' == SetPc(s, t, Idle).(header := s.header[pc.base := pc.log], place := s.place[pc.base := Live(pc.sz)])
  }

  /** The program frees a block that it was given. */
  predicate StartFree(s: State, s': State, t: Tid, base: nat) {
    PcOf(s, t).Idle? && base in s.place && s.place[base].Live?
    && s' == SetPc(s, t, Freeing(base)).(place := s.place[base := With(t)])
  }

  predicate ReadHeader(s: State, s': State, t: Tid) {
    var pc := PcOf(s, t);
    pc.Freeing? && s' == SetPc(s, t, Pushing(pc.base, Header(s, pc.base)))
  }

  predicate Push(s: State, s': State, t: Tid, link: nat) {
    var pc := PcOf(s, t);
    pc.Pushing?
    && s' == SetPc(s, t, Idle).(free := s.free[pc.log := [pc.base] + FreeList(s, pc.log)],
                                header := s.header[pc.base := link], place := s.place[pc.base := InList(pc.log)])
  }

  /** One step of thread t; n is the size requested, the block freed, or the link that a push stores. */
  predicate StepOf(s: State, s': State, t: Tid, n: nat) {
    StartMalloc(s, s', t, n) || Pop(s, s', t) || Load(s, s', t) || Align(s, s', t) || Take(s, s', t)
    || Add(s, s', t, n) || WriteHeader(s, s', t) || StartFree(s, s', t, n) || ReadHeader(s, s', t) || Push(s, s', t, n)
  }

  ghost predicate Step(s: State, s': State) {
    exists t: Tid, n: nat :: StepOf(s, s', t, n)
  }

  ghost predicate Init(s: State) {
    s.heap > 0 && s.ptr == 0 && s.free == map[] && s.pcs == map[] && s.chunks == [] && s.blocks == map[]
    && s.place == map[]
  }

  // ---- The invariant

  /** The i-th chunk starts here. */
  function ChunkAt(heap: nat, i: nat): nat { RoundUp(heap) + i * CHUNK }

  /** The heap pointer is past the chunks handed out, and the chunks are in the heap. */
  ghost predicate Chunks(heap: nat, ptr: nat, chunks: seq<nat>) {
    && heap > 0 && (if ptr == 0 then chunks == [] else ptr == ChunkAt(heap, |chunks|))
    && forall i: nat | i < |chunks| ::
         chunks[i] == ChunkAt(heap, i) && heap <= chunks[i] && chunks[i] + CHUNK <= heap + HEAP_SIZE
  }

  /** A block lies in its chunk, after the word that aligns what follows the headers. */
  predicate InChunk(base: nat, b: Block) {
    b.log <= LOG_MAX_SIZE && b.chunk + (ALIGNMENT - WORD) <= base && base + Pow2(b.log) <= b.chunk + CHUNK
    && (b.log >= 4 ==> (base + WORD) % ALIGNMENT == 0)
  }

  predicate ApartBlocks(base: nat, b: Block, base': nat, b': Block) {
    base + Pow2(b.log) <= base' || base' + Pow2(b'.log) <= base
  }

  ghost predicate Blocks(blocks: map<nat, Block>, chunks: seq<nat>) {
    && (forall p | p in blocks :: InChunk(p, blocks[p]) && blocks[p].chunk in chunks)
    && (forall p, q | p in blocks && q in blocks && p != q :: ApartBlocks(p, blocks[p], q, blocks[q]))
  }

  /** The free list of each size holds blocks of that size, each once. */
  ghost predicate Listed(s: State) {
    forall log: nat :: ListOk(FreeList(s, log), log, s.blocks, s.place)
  }

  ghost predicate ListOk(list: seq<nat>, log: nat, blocks: map<nat, Block>, place: map<nat, Place>) {
    && (forall i: nat | i < |list| :: InListOk(list[i], log, blocks, place))
    && (forall i, j | 0 <= i < j < |list| :: list[i] != list[j])
  }

  predicate InListOk(base: nat, log: nat, blocks: map<nat, Block>, place: map<nat, Place>) {
    base in blocks && base in place && blocks[base].log == log && place[base] == InList(log)
  }

  /** The block for a request is the smallest one that holds it and its header. */
  predicate Suits(sz: nat, log: nat) {
    log <= LOG_MAX_SIZE && sz + WORD <= Pow2(log) && (log > 0 ==> Pow2(log - 1) < sz + WORD)
  }

  /** A block in the hands of the program has the header that AO_free will read. */
  predicate LiveOk(s: State, base: nat) {
    base in s.place && s.place[base].Live? ==>
      base in s.blocks && Header(s, base) == s.blocks[base].log && Suits(s.place[base].sz, s.blocks[base].log)
  }

  predicate Mine(s: State, t: Tid, base: nat, log: nat) {
    base in s.blocks && base in s.place && s.place[base] == With(t) && s.blocks[base].log == log
  }

  ghost predicate Local(s: State, t: Tid) {
    match PcOf(s, t)
    case Idle => true
    case Popping(sz, log) => Suits(sz, log)
    case Loading(sz, log) => Suits(sz, log)
    case Aligning(sz, log, _) => Suits(sz, log)
    case Taking(sz, log, _) => Suits(sz, log)
    case Adding(sz, log, c, ofs) =>
      Suits(sz, log) && c in s.chunks && ALIGNMENT - WORD <= ofs && (log >= 4 ==> (c + ofs + WORD) % ALIGNMENT == 0)
      && forall p | p in s.blocks && s.blocks[p].chunk == c :: p + Pow2(s.blocks[p].log) <= c + ofs
    case Heading(sz, log, base) => Suits(sz, log) && Mine(s, t, base, log)
    case Freeing(base) => Mine(s, t, base, Header(s, base))
    case Pushing(base, log) => Mine(s, t, base, log)
  }

  /** A chunk is cut up by one thread only. */
  ghost predicate OwnChunks(s: State) {
    forall t: Tid, u: Tid | t != u && PcOf(s, t).Adding? && PcOf(s, u).Adding? :: PcOf(s, t).chunk != PcOf(s, u).chunk
  }

  ghost predicate Sound(s: State) {
    && Chunks(s.heap, s.ptr, s.chunks) && Blocks(s.blocks, s.chunks) && Listed(s) && OwnChunks(s)
    && OnlyBlocksPlaced(s) && (forall p: nat :: LiveOk(s, p)) && (forall t: Tid :: Local(s, t))
  }

  ghost predicate OnlyBlocksPlaced(s: State) {
    forall p | p in s.place :: p in s.blocks
  }

  // ---- What a step of one thread leaves alone

  /** Nothing that thread u relies on is touched by a step of t. */
  ghost predicate Undisturbed(s: State, s': State, t: Tid) {
    && (forall u: Tid | u != t :: PcOf(s', u) == PcOf(s, u))
    && (forall c | c in s.chunks :: c in s'.chunks)
    && (forall p | p in s.blocks :: p in s'.blocks && s'.blocks[p] == s.blocks[p])
    && (forall p | p in s'.blocks && p !in s.blocks :: PcOf(s, t).Adding? && s'.blocks[p].chunk == PcOf(s, t).chunk)
    && (forall p, u: Tid | u != t && p in s.place && s.place[p] == With(u) && p in s.blocks ::
          p in s'.place && s'.place[p] == With(u) && Header(s', p) == Header(s, p))
  }

  lemma OthersKept(s: State, s': State, t: Tid, u: Tid)
    requires Local(s, u) && u != t && Undisturbed(s, s', t) && OwnChunks(s)
    ensures Local(s', u)
  {
    assert PcOf(s', u) == PcOf(s, u);
  }

  lemma OwnChunksKept(s: State, s': State, t: Tid)
    requires OwnChunks(s) && forall u: Tid | u != t :: PcOf(s', u) == PcOf(s, u)
    requires PcOf(s', t).Adding? ==> PcOf(s, t).Adding? && PcOf(s', t).chunk == PcOf(s, t).chunk
    ensures OwnChunks(s')
  {
    forall u: Tid, v: Tid | u != v && PcOf(s', u).Adding? && PcOf(s', v).Adding?
      ensures PcOf(s', u).chunk != PcOf(s', v).chunk
    {
      assert PcOf(s, u).Adding? && PcOf(s, v).Adding?;
    }
  }

  lemma AllLocal(s: State, s': State, t: Tid)
    requires (forall u: Tid :: Local(s, u)) && OwnChunks(s) && Undisturbed(s, s', t) && Local(s', t)
    ensures forall u: Tid :: Local(s', u)
  {
    hide Undisturbed, Local, OwnChunks;
    forall u: Tid
      ensures Local(s', u)
    {
      if u != t {
        OthersKept(s, s', t, u);
      }
    }
  }

  /** A step that changes only where thread t is, and perhaps the heap pointer. */
  lemma QuietStep(s: State, s': State, t: Tid)
    requires Sound(s) && s' == SetPc(s, t, PcOf(s', t)).(ptr := s'.ptr) && Chunks(s'.heap, s'.ptr, s'.chunks)
    requires Local(s', t) && !PcOf(s', t).Adding?
    ensures Sound(s')
  {
    forall u: Tid
      ensures Local(s', u)
    {
      if u != t {
        OthersKept(s, s', t, u);
      }
    }
    OwnChunksKept(s, s', t);
    hide Blocks, Chunks, Local, OwnChunks, ListOk;
    forall log: nat
      ensures ListOk(FreeList(s', log), log, s'.blocks, s'.place)
    {
      assert ListOk(FreeList(s, log), log, s.blocks, s.place);
    }
    forall p: nat
      ensures LiveOk(s', p)
    {
      assert LiveOk(s, p);
    }
  }

  /** LogFor picks the smallest power of two that holds the request and its header. */
  lemma LogForSuits(sz: nat)
    requires sz <= CHUNK - WORD
    ensures Suits(sz, LogFor(sz))
  {
    var x := sz + WORD - 1;
    var k := Log2(x);
    Log2Bounds(x);
    Sixteen();
    assert Pow2(k + 1) == 2 * Pow2(k);
    hide Pow2, Log2;
    if k >= LOG_MAX_SIZE {
      Pow2Mono(LOG_MAX_SIZE, k);
    }
  }

  lemma Sixteen()
    ensures Pow2(15) == 0x8000 && Pow2(16) == 0x10000
  {
    assert Pow2(8) == 256 && Pow2(12) == 4096;
  }

  lemma RoundedChunk(heap: nat, ptr: nat, chunks: seq<nat>)
    requires Chunks(heap, ptr, chunks)
    ensures Chunks(heap, RoundUp(if ptr == 0 then heap else ptr), chunks)
    ensures ptr != 0 ==> RoundUp(ptr) == ptr
  {
    var i := |chunks|;
    assert ChunkAt(heap, i) % ALIGNMENT == 0 by {
      assert ChunkAt(heap, i) == RoundUp(heap) + ALIGNMENT * (4096 * i);
      ModSum(RoundUp(heap), 4096 * i);
    }
    if ptr == 0 {
      assert ChunkAt(heap, 0) == RoundUp(heap);
    }
  }

  lemma ModSum(a: nat, k: nat)
    requires a % ALIGNMENT == 0
    ensures (a + ALIGNMENT * k) % ALIGNMENT == 0
  {
    var q := a / ALIGNMENT;
    assert a + ALIGNMENT * k == ALIGNMENT * (q + k);
  }

  lemma QuietKeeps(s: State, s': State, t: Tid, n: nat)
    requires Sound(s)
    requires StartMalloc(s, s', t, n) || Load(s, s', t) || Align(s, s', t) || ReadHeader(s, s', t)
    ensures Sound(s')
  {
    assert Local(s, t);
    if StartMalloc(s, s', t, n) {
      LogForSuits(n);
    } else if Align(s, s', t) {
      RoundedChunk(s.heap, s.ptr, s.chunks);
    }
    hide Blocks, Listed, Chunks, OwnChunks, LogFor, Pow2;
    QuietStep(s, s', t);
  }

  // ---- Taking a chunk

  lemma TakeChunk(heap: nat, ptr: nat, chunks: seq<nat>)
    requires Chunks(heap, ptr, chunks) && ptr >= heap && ptr <= heap + HEAP_SIZE - CHUNK
    ensures Chunks(heap, ptr + CHUNK, chunks + [ptr]) && ptr !in chunks
  {
    assert ChunkAt(heap, |chunks| + 1) == ChunkAt(heap, |chunks|) + CHUNK;
    forall i: nat | i < |chunks|
      ensures chunks[i] != ptr
    {
      assert chunks[i] == ChunkAt(heap, i);
    }
  }

  lemma ChunkAligned(heap: nat, ptr: nat, chunks: seq<nat>, c: nat)
    requires Chunks(heap, ptr, chunks) && c in chunks
    ensures c % ALIGNMENT == 0
  {
    var i :| 0 <= i < |chunks| && chunks[i] == c;
    assert c == ChunkAt(heap, i) == RoundUp(heap) + ALIGNMENT * (4096 * i);
    ModSum(RoundUp(heap), 4096 * i);
  }

  lemma TakeKeeps(s: State, s': State, t: Tid)
    requires Sound(s) && Take(s, s', t)
    ensures Sound(s')
  {
    assert Local(s, t);
    if PcOf(s', t).Adding? {
      TakeSucceeds(s, s', t);
    } else {
      hide Blocks, Listed, Chunks, OwnChunks, LogFor, Pow2;
      QuietStep(s, s', t);
    }
  }

  lemma TakeSucceeds(s: State, s': State, t: Tid)
    requires Sound(s) && Take(s, s', t) && PcOf(s', t).Adding?
    ensures Sound(s')
  {
    hide Undisturbed, Chunks, LogFor, Blocks, Listed, Local, OwnChunks, LiveOk, OnlyBlocksPlaced;
    TakeFits(s, s', t);
    Unmoved(s, s');
    TakenLocal(s, s', t);
    TakenOwn(s, s', t);
    TakeUndisturbed(s, s', t);
    AllLocal(s, s', t);
    PlacedKept(s, s');
  }

  lemma TakeFits(s: State, s': State, t: Tid)
    requires Chunks(s.heap, s.ptr, s.chunks) && Take(s, s', t) && PcOf(s', t).Adding?
    ensures Chunks(s'.heap, s'.ptr, s'.chunks) && PcOf(s, t).mine !in s.chunks && s.chunks <= s'.chunks
  {
    TakeChunk(s.heap, s.ptr, s.chunks);
  }

  lemma TakeUndisturbed(s: State, s': State, t: Tid)
    requires Take(s, s', t)
    ensures Undisturbed(s, s', t)
  {
  }

  lemma PlacedKept(s: State, s': State)
    requires OnlyBlocksPlaced(s) && s'.place == s.place && s'.blocks == s.blocks
    ensures OnlyBlocksPlaced(s')
  {
  }

  lemma TakenOwn(s: State, s': State, t: Tid)
    requires Sound(s) && Take(s, s', t) && PcOf(s', t).Adding? && PcOf(s, t).mine !in s.chunks
    ensures OwnChunks(s')
  {
    hide Chunks, LogFor, Blocks, Listed, Local, LiveOk;
    forall u: Tid, v: Tid | u != v && PcOf(s', u).Adding? && PcOf(s', v).Adding?
      ensures PcOf(s', u).chunk != PcOf(s', v).chunk
    {
      AddingOld(s, u);
      AddingOld(s, v);
    }
  }

  lemma AddingOld(s: State, t: Tid)
    requires Local(s, t)
    ensures PcOf(s, t).Adding? ==> PcOf(s, t).chunk in s.chunks
  {
  }

  lemma TakenLocal(s: State, s': State, t: Tid)
    requires Sound(s) && Take(s, s', t) && PcOf(s', t).Adding? && PcOf(s, t).mine !in s.chunks
    requires Chunks(s'.heap, s'.ptr, s'.chunks)
    ensures Local(s', t)
  {
    hide Chunks, LogFor, Pow2, Listed, Blocks, LiveOk, OwnChunks, OnlyBlocksPlaced;
    var c := PcOf(s, t).mine;
    assert Local(s, t);
    ChunkAligned(s'.heap, s'.ptr, s'.chunks, c);
    NoBlocksYet(s, c);
  }

  lemma NoBlocksYet(s: State, c: nat)
    requires Blocks(s.blocks, s.chunks) && c !in s.chunks
    ensures forall p | p in s.blocks :: s.blocks[p].chunk != c
  {
  }

  /** The lists and the live blocks are as they were. */
  lemma Unmoved(s: State, s': State)
    requires Blocks(s.blocks, s.chunks) && Listed(s) && forall p: nat :: LiveOk(s, p)
    requires s'.free == s.free && s'.header == s.header && s'.blocks == s.blocks && s'.place == s.place
    requires s.chunks <= s'.chunks
    ensures Blocks(s'.blocks, s'.chunks) && Listed(s') && forall p: nat :: LiveOk(s', p)
  {
    assert forall c | c in s.chunks :: c in s'.chunks;
    assert forall log: nat :: FreeList(s', log) == FreeList(s, log);
    forall p: nat
      ensures LiveOk(s', p)
    {
      assert LiveOk(s, p);
    }
  }

  // ---- Moving a block from one place to another

  /** Only block base has moved, and only its header may have changed. */
  ghost predicate Moved(s: State, s': State, t: Tid, base: nat, to: Place) {
    && s'.heap == s.heap && s'.ptr == s.ptr && s'.chunks == s.chunks && s'.blocks == s.blocks
    && s'.pcs == s.pcs[t := PcOf(s', t)] && s'.place == s.place[base := to]
    && (forall p: nat | p != base :: Header(s', p) == Header(s, p))
  }

  /** A block that is in no list and in no other thread's hands can be moved. */
  lemma MoveKeeps(s: State, s': State, t: Tid, base: nat, to: Place)
    requires Sound(s) && Moved(s, s', t, base, to) && base in s.blocks
    requires forall u: Tid | u != t :: base in s.place ==> s.place[base] != With(u)
    requires Listed(s') && LiveOk(s', base) && Local(s', t) && !PcOf(s', t).Adding?
    ensures Sound(s')
  {
    hide Blocks, Chunks, LogFor, Pow2, ListOk, Listed;
    forall u: Tid
      ensures Local(s', u)
    {
      if u != t {
        OthersKept(s, s', t, u);
      }
    }
    OwnChunksKept(s, s', t);
    forall p: nat
      ensures LiveOk(s', p)
    {
      assert LiveOk(s, p);
    }
  }

  lemma ListKept(list: seq<nat>, log: nat, blocks: map<nat, Block>, place: map<nat, Place>, base: nat, to: Place)
    requires ListOk(list, log, blocks, place) && base !in list
    ensures ListOk(list, log, blocks, place[base := to])
  {
    forall i: nat | i < |list|
      ensures InListOk(list[i], log, blocks, place[base := to])
    {
      assert InListOk(list[i], log, blocks, place);
    }
  }

  /** A block that is not in a list's place is not in the list. */
  lemma NotListed(s: State, log: nat, base: nat)
    requires Listed(s) && (base in s.place ==> s.place[base] != InList(log))
    ensures base !in FreeList(s, log)
  {
    var list := FreeList(s, log);
    assert ListOk(list, log, s.blocks, s.place);
    forall i: nat | i < |list|
      ensures list[i] != base
    {
      assert InListOk(list[i], log, s.blocks, s.place);
    }
  }

  lemma PopListed(s: State, s': State, t: Tid)
    requires Listed(s) && Pop(s, s', t) && FreeList(s, PcOf(s, t).log) != []
    ensures Listed(s')
  {
    var log := PcOf(s, t).log;
    var list := FreeList(s, log);
    assert ListOk(list, log, s.blocks, s.place) && InListOk(list[0], log, s.blocks, s.place);
    hide ListOk;
    forall l: nat
      ensures ListOk(FreeList(s', l), l, s'.blocks, s'.place)
    {
      if l == log {
        PopTail(list, log, s.blocks, s.place, With(t));
      } else {
        NotListed(s, l, list[0]);
        assert ListOk(FreeList(s, l), l, s.blocks, s.place);
        ListKept(FreeList(s, l), l, s.blocks, s.place, list[0], With(t));
      }
    }
  }

  lemma PopTail(list: seq<nat>, log: nat, blocks: map<nat, Block>, place: map<nat, Place>, to: Place)
    requires ListOk(list, log, blocks, place) && list != []
    ensures ListOk(list[1..], log, blocks, place[list[0] := to])
  {
    forall i: nat | i < |list[1..]|
      ensures InListOk(list[1..][i], log, blocks, place[list[0] := to])
    {
      assert InListOk(list[i + 1], log, blocks, place);
    }
  }

  lemma PopKeeps(s: State, s': State, t: Tid)
    requires Sound(s) && Pop(s, s', t)
    ensures Sound(s')
  {
    hide Blocks, Chunks, OwnChunks, LogFor, Pow2, OnlyBlocksPlaced, Listed, ListOk;
    assert Local(s, t);
    var log := PcOf(s, t).log;
    if FreeList(s, log) == [] {
      QuietStep(s, s', t);
    } else {
      FirstListed(s, log);
      PopListed(s, s', t);
      MoveKeeps(s, s', t, FreeList(s, log)[0], With(t));
    }
  }

  lemma FirstListed(s: State, log: nat)
    requires Listed(s) && FreeList(s, log) != []
    ensures InListOk(FreeList(s, log)[0], log, s.blocks, s.place)
  {
    assert ListOk(FreeList(s, log), log, s.blocks, s.place);
  }

  /** A push of a block that is in no list. */
  lemma PushListed(s: State, s': State, log: nat, base: nat)
    requires Listed(s) && base in s'.blocks && s'.blocks[base].log == log
    requires forall l: nat :: base in s.place ==> s.place[base] != InList(l)
    requires s'.free == s.free[log := [base] + FreeList(s, log)] && s'.place == s.place[base := InList(log)]
    requires forall p | p in s.blocks :: p in s'.blocks && s'.blocks[p] == s.blocks[p]
    ensures Listed(s')
  {
    forall l: nat
      ensures ListOk(FreeList(s', l), l, s'.blocks, s'.place)
    {
      NotListed(s, l, base);
      var list := FreeList(s, l);
      assert ListOk(list, l, s.blocks, s.place);
      ListKept(list, l, s.blocks, s.place, base, InList(log));
      ListGrows(list, l, s.blocks, s'.blocks, s'.place);
      if l == log {
        PushHead(list, l, s'.blocks, s'.place, base);
      }
    }
  }

  lemma ListGrows(list: seq<nat>, log: nat, blocks: map<nat, Block>, blocks': map<nat, Block>, place: map<nat, Place>)
    requires ListOk(list, log, blocks, place)
    requires forall p | p in blocks :: p in blocks' && blocks'[p] == blocks[p]
    ensures ListOk(list, log, blocks', place)
  {
    forall i: nat | i < |list|
      ensures InListOk(list[i], log, blocks', place)
    {
      assert InListOk(list[i], log, blocks, place);
    }
  }

  lemma PushHead(list: seq<nat>, log: nat, blocks: map<nat, Block>, place: map<nat, Place>, base: nat)
    requires ListOk(list, log, blocks, place) && base !in list && InListOk(base, log, blocks, place)
    ensures ListOk([base] + list, log, blocks, place)
  {
    var list' := [base] + list;
    forall i: nat | i < |list'|
      ensures InListOk(list'[i], log, blocks, place)
    {
      if i > 0 { assert InListOk(list[i - 1], log, blocks, place); }
    }
  }

  lemma PushKeeps(s: State, s': State, t: Tid, link: nat)
    requires Sound(s) && Push(s, s', t, link)
    ensures Sound(s')
  {
    var pc := PcOf(s, t);
    assert Local(s, t);
    PushListed(s, s', pc.log, pc.base);
    hide Blocks, Listed, Chunks, OwnChunks, LogFor, Pow2, ListOk;
    MoveKeeps(s, s', t, pc.base, InList(pc.log));
  }

  /** A block in no list stays in no list. */
  lemma ListsKept(s: State, s': State, base: nat, to: Place)
    requires Listed(s) && s'.free == s.free && s'.blocks == s.blocks && s'.place == s.place[base := to]
    requires forall l: nat :: base in s.place ==> s.place[base] != InList(l)
    ensures Listed(s')
  {
    forall l: nat
      ensures ListOk(FreeList(s', l), l, s'.blocks, s'.place)
    {
      NotListed(s, l, base);
      assert ListOk(FreeList(s, l), l, s.blocks, s.place);
      ListKept(FreeList(s, l), l, s.blocks, s.place, base, to);
    }
  }

  lemma HandOverKeeps(s: State, s': State, t: Tid)
    requires Sound(s) && WriteHeader(s, s', t)
    ensures Sound(s')
  {
    var pc := PcOf(s, t);
    assert Local(s, t);
    ListsKept(s, s', pc.base, Live(pc.sz));
    hide Blocks, Listed, Chunks, OwnChunks, LogFor, Pow2, ListOk;
    MoveKeeps(s, s', t, pc.base, Live(pc.sz));
  }

  lemma StartFreeKeeps(s: State, s': State, t: Tid, base: nat)
    requires Sound(s) && StartFree(s, s', t, base)
    ensures Sound(s')
  {
    assert LiveOk(s, base);
    ListsKept(s, s', base, With(t));
    hide Blocks, Listed, Chunks, OwnChunks, LogFor, Pow2, ListOk;
    MoveKeeps(s, s', t, base, With(t));
  }

  // ---- Cutting a block from a chunk

  lemma ChunksApart(heap: nat, ptr: nat, chunks: seq<nat>, c: nat, d: nat)
    requires Chunks(heap, ptr, chunks) && c in chunks && d in chunks && c != d
    ensures c + CHUNK <= d || d + CHUNK <= c
  {
    var i: nat :| i < |chunks| && chunks[i] == c;
    var j: nat :| j < |chunks| && chunks[j] == d;
    assert c == ChunkAt(heap, i) && d == ChunkAt(heap, j);
  }

  /** A new block is apart from all blocks there are. */
  lemma NewBlockApart(s: State, t: Tid, p: nat)
    requires Sound(s) && PcOf(s, t).Adding? && p in s.blocks
    requires PcOf(s, t).ofs + Pow2(PcOf(s, t).log) <= CHUNK
    ensures var pc := PcOf(s, t);
      p != pc.chunk + pc.ofs && ApartBlocks(p, s.blocks[p], pc.chunk + pc.ofs, Block(pc.log, pc.chunk))
  {
    var pc := PcOf(s, t);
    assert Local(s, t);
    assert InChunk(p, s.blocks[p]);
    if s.blocks[p].chunk != pc.chunk {
      ChunksApart(s.heap, s.ptr, s.chunks, s.blocks[p].chunk, pc.chunk);
    }
  }

  /** A new block lies in its chunk. */
  lemma NewBlockFits(s: State, t: Tid)
    requires Sound(s) && PcOf(s, t).Adding? && PcOf(s, t).ofs + Pow2(PcOf(s, t).log) <= CHUNK
    ensures var pc := PcOf(s, t);
      InChunk(pc.chunk + pc.ofs, Block(pc.log, pc.chunk)) && pc.chunk in s.chunks && pc.chunk + pc.ofs !in s.blocks
  {
    var pc := PcOf(s, t);
    assert Local(s, t);
    if pc.chunk + pc.ofs in s.blocks {
      NewBlockApart(s, t, pc.chunk + pc.ofs);
    }
  }

  lemma AddBlocks(s: State, s': State, t: Tid, link: nat)
    requires Sound(s) && Add(s, s', t, link) && PcOf(s', t).Adding?
    ensures Blocks(s'.blocks, s'.chunks) && PcOf(s, t).chunk + PcOf(s, t).ofs !in s.blocks
  {
    hide Pow2, Chunks, Listed, OwnChunks, LiveOk, Local, InChunk, ApartBlocks, OnlyBlocksPlaced;
    var pc := PcOf(s, t);
    var base := pc.chunk + pc.ofs;
    NewBlockFits(s, t);
    forall p, q | p in s'.blocks && q in s'.blocks && p != q
      ensures ApartBlocks(p, s'.blocks[p], q, s'.blocks[q])
    {
      if p == base {
        NewBlockApart(s, t, q);
        ApartSymmetric(q, s.blocks[q], base, Block(pc.log, pc.chunk));
      } else if q == base {
        NewBlockApart(s, t, p);
      }
    }
  }

  lemma ApartSymmetric(p: nat, b: Block, q: nat, c: Block)
    requires ApartBlocks(p, b, q, c)
    ensures ApartBlocks(q, c, p, b)
  {
  }

  lemma StrideAligned(a: nat, log: nat)
    requires log >= 4 && a % ALIGNMENT == 0
    ensures (a + Pow2(log)) % ALIGNMENT == 0
  {
    var k := Pow2(log - 4);
    assert Pow2(log) == 16 * k by {
      assert Pow2(log) == 2 * Pow2(log - 1) && Pow2(log - 1) == 2 * Pow2(log - 2);
      assert Pow2(log - 2) == 2 * Pow2(log - 3) && Pow2(log - 3) == 2 * k;
    }
    ModSum(a, k);
  }

  lemma AddLocal(s: State, s': State, t: Tid, link: nat)
    requires Sound(s) && Add(s, s', t, link) && PcOf(s', t).Adding?
    ensures Local(s', t)
  {
    hide Chunks, Listed, OwnChunks, LiveOk, Blocks, Pow2, OnlyBlocksPlaced;
    var pc := PcOf(s, t);
    assert Local(s, t);
    if pc.log >= 4 {
      StrideAligned(pc.chunk + pc.ofs + WORD, pc.log);
    }
    var base := pc.chunk + pc.ofs;
    forall p | p in s'.blocks && s'.blocks[p].chunk == pc.chunk
      ensures p + Pow2(s'.blocks[p].log) <= base + Pow2(pc.log)
    {
      if p != base {
        assert p in s.blocks && s.blocks[p] == s'.blocks[p];
      }
    }
  }

  lemma AddKeeps(s: State, s': State, t: Tid, link: nat)
    requires Sound(s) && Add(s, s', t, link)
    ensures Sound(s')
  {
    assert Local(s, t);
    if PcOf(s', t).Adding? {
      AddBlocks(s, s', t, link);
      AddLocal(s, s', t, link);
      AddFrame(s, s', t, link);
    } else {
      hide Blocks, Listed, Chunks, OwnChunks, LogFor, Pow2;
      QuietStep(s, s', t);
    }
  }

  lemma AddFrame(s: State, s': State, t: Tid, link: nat)
    requires Sound(s) && Add(s, s', t, link) && PcOf(s', t).Adding?
    requires Blocks(s'.blocks, s'.chunks) && Local(s', t) && PcOf(s, t).chunk + PcOf(s, t).ofs !in s.blocks
    ensures Sound(s')
  {
    hide Blocks, Chunks, LogFor, Pow2, ListOk, Listed, Local;
    var pc := PcOf(s, t);
    var base := pc.chunk + pc.ofs;
    PushListed(s, s', pc.log, base);
    AddUndisturbed(s, s', t, link);
    hide Undisturbed;
    AllLocal(s, s', t);
    OwnChunksKept(s, s', t);
    hide OwnChunks;
    forall p: nat
      ensures LiveOk(s', p)
    {
      assert LiveOk(s, p);
    }
  }

  lemma AddUndisturbed(s: State, s': State, t: Tid, link: nat)
    requires OnlyBlocksPlaced(s) && Add(s, s', t, link) && PcOf(s', t).Adding?
    requires PcOf(s, t).chunk + PcOf(s, t).ofs !in s.blocks
    ensures Undisturbed(s, s', t)
  {
    hide Pow2;
  }

  // ---- No block is lost

  /** The thread holds the block in its hands. */
  predicate Has(pc: Pc, base: nat) {
    (pc.Heading? || pc.Freeing? || pc.Pushing?) && pc.base == base
  }

  /** A block is where it is said to be: in the list of its size, with the program, or in the hands of a thread. */
  predicate Home(s: State, base: nat)
    requires base in s.place
  {
    match s.place[base]
    case InList(log) => base in FreeList(s, log)
    case Live(_) => true
    case With(t) => Has(PcOf(s, t), base)
  }

  ghost predicate Conserved(s: State) {
    && (forall p | p in s.blocks :: p in s.place)
    && (forall p | p in s.place :: Home(s, p))
  }

  /** A step of t that moves no block. */
  lemma QuietHome(s: State, s': State, t: Tid)
    requires Conserved(s) && s'.free == s.free && s'.place == s.place && s'.blocks == s.blocks
    requires s'.pcs == s.pcs[t := PcOf(s', t)] && forall p: nat :: Has(PcOf(s, t), p) ==> Has(PcOf(s', t), p)
    ensures Conserved(s')
  {
    forall p | p in s'.place
      ensures Home(s', p)
    {
      assert Home(s, p);
    }
  }

  lemma PopHome(s: State, s': State, t: Tid)
    requires Conserved(s) && Pop(s, s', t) && FreeList(s, PcOf(s, t).log) != []
    requires FreeList(s, PcOf(s, t).log)[0] in s.place
    ensures Conserved(s')
  {
    var log := PcOf(s, t).log;
    var list := FreeList(s, log);
    forall p | p in s'.place
      ensures Home(s', p)
    {
      if p != list[0] {
        assert Home(s, p);
        assert list == [list[0]] + list[1..];
      }
    }
  }

  lemma AddHome(s: State, s': State, t: Tid, link: nat)
    requires Conserved(s) && Add(s, s', t, link) && PcOf(s', t).Adding?
    ensures Conserved(s')
  {
    hide Pow2;
    forall p | p in s'.place
      ensures Home(s', p)
    {
      if p != PcOf(s, t).chunk + PcOf(s, t).ofs {
        assert Home(s, p);
      }
    }
  }

  lemma HandOverHome(s: State, s': State, t: Tid)
    requires Conserved(s) && WriteHeader(s, s', t)
    ensures Conserved(s')
  {
    forall p | p in s'.place
      ensures Home(s', p)
    {
      if p != PcOf(s, t).base {
        assert Home(s, p);
      }
    }
  }

  lemma StartFreeHome(s: State, s': State, t: Tid, base: nat)
    requires Conserved(s) && StartFree(s, s', t, base)
    ensures Conserved(s')
  {
    forall p | p in s'.place
      ensures Home(s', p)
    {
      if p != base {
        assert Home(s, p);
      }
    }
  }

  lemma PushHome(s: State, s': State, t: Tid, link: nat)
    requires Conserved(s) && Push(s, s', t, link)
    ensures Conserved(s')
  {
    forall p | p in s'.place
      ensures Home(s', p)
    {
      if p != PcOf(s, t).base {
        assert Home(s, p);
      }
    }
  }

  lemma PopConserves(s: State, s': State, t: Tid)
    requires Sound(s) && Conserved(s) && Pop(s, s', t)
    ensures Conserved(s')
  {
    if FreeList(s, PcOf(s, t).log) == [] {
      QuietHome(s, s', t);
    } else {
      hide Chunks, Blocks, OwnChunks, Local, ListOk;
      FirstListed(s, PcOf(s, t).log);
      PopHome(s, s', t);
    }
  }

  lemma OtherConserves(s: State, s': State, t: Tid, n: nat)
    requires Conserved(s)
    requires StartMalloc(s, s', t, n) || Load(s, s', t) || Align(s, s', t) || Take(s, s', t) || ReadHeader(s, s', t)
    ensures Conserved(s')
  {
    hide LogFor, RoundUp, Home;
    QuietHome(s, s', t);
  }

  lemma StepConserves(s: State, s': State, t: Tid, n: nat)
    requires Sound(s) && Conserved(s) && StepOf(s, s', t, n)
    ensures Conserved(s')
  {
    hide Sound, Conserved;
    if Pop(s, s', t) {
      PopConserves(s, s', t);
    } else if Add(s, s', t, n) {
      AddConserves(s, s', t, n);
    } else if WriteHeader(s, s', t) {
      HandOverHome(s, s', t);
    } else if StartFree(s, s', t, n) {
      StartFreeHome(s, s', t, n);
    } else if Push(s, s', t, n) {
      PushHome(s, s', t, n);
    } else {
      OtherConserves(s, s', t, n);
    }
  }

  lemma AddConserves(s: State, s': State, t: Tid, link: nat)
    requires Conserved(s) && Add(s, s', t, link)
    ensures Conserved(s')
  {
    hide Pow2, Home;
    if PcOf(s', t).Adding? {
      AddHome(s, s', t, link);
    } else {
      QuietHome(s, s', t);
    }
  }

  // ---- Every step and every run

  /** What holds of every state: nothing overlaps, and nothing is lost. */
  ghost predicate Inv(s: State) {
    Sound(s) && Conserved(s)
  }

  lemma StepSound(s: State, s': State, t: Tid, n: nat)
    requires Sound(s) && StepOf(s, s', t, n)
    ensures Sound(s')
  {
    hide Sound;
    if Pop(s, s', t) {
      PopKeeps(s, s', t);
    } else if Take(s, s', t) {
      TakeKeeps(s, s', t);
    } else if Add(s, s', t, n) {
      AddKeeps(s, s', t, n);
    } else if WriteHeader(s, s', t) {
      HandOverKeeps(s, s', t);
    } else if StartFree(s, s', t, n) {
      StartFreeKeeps(s, s', t, n);
    } else if Push(s, s', t, n) {
      PushKeeps(s, s', t, n);
    } else {
      QuietKeeps(s, s', t, n);
    }
  }

  lemma StepKeeps(s: State, s': State)
    requires Inv(s) && Step(s, s')
    ensures Inv(s')
  {
    hide Sound, Conserved, StepOf;
    var t: Tid, n: nat :| StepOf(s, s', t, n);
    StepSound(s, s', t, n);
    StepConserves(s, s', t, n);
  }

  ghost predicate Run(states: seq<State>) {
    |states| > 0 && Init(states[0]) && forall i | 0 <= i < |states| - 1 :: Step(states[i], states[i + 1])
  }

  lemma {:induction false} RunKeeps(states: seq<State>)
    requires Run(states)
    ensures forall i | 0 <= i < |states| :: Inv(states[i])
  {
    var n := |states| - 1;
    hide Inv, Step;
    if n == 0 {
      InitInv(states[0]);
    } else {
      RunKeeps(states[..n]);
      assert states[..n][n - 1] == states[n - 1] && Step(states[n - 1], states[n]);
      StepKeeps(states[n - 1], states[n]);
    }
  }

  lemma InitInv(s: State)
    requires Init(s)
    ensures Inv(s)
  {
  }

  // ---- What this means for the program

  /** get_chunk never hands out a chunk twice; chunks are aligned, in the heap, and apart. */
  lemma ChunksSafe(s: State, i: nat, j: nat)
    requires Inv(s) && i < j < |s.chunks|
    ensures s.chunks[i] + CHUNK <= s.chunks[j]
    ensures s.chunks[i] % ALIGNMENT == 0 && s.heap <= s.chunks[i] && s.chunks[j] + CHUNK <= s.heap + HEAP_SIZE
  {
    ChunkAligned(s.heap, s.ptr, s.chunks, s.chunks[i]);
    assert s.chunks[i] == ChunkAt(s.heap, i) && s.chunks[j] == ChunkAt(s.heap, j);
  }

  predicate IsLive(s: State, base: nat) { base in s.place && s.place[base].Live? }

  /** What the program gets for a request: its bytes are inside a block of the least power of two that holds them and
      the header, and aligned unless the request was empty. */
  lemma LiveBlock(s: State, base: nat)
    requires Inv(s) && IsLive(s, base)
    ensures base in s.blocks && Header(s, base) == s.blocks[base].log
    ensures var sz := s.place[base].sz; var log := s.blocks[base].log;
      sz + WORD <= Pow2(log) && (log > 0 ==> Pow2(log - 1) < sz + WORD) && (sz > 0 ==> (base + WORD) % ALIGNMENT == 0)
      && s.heap <= base && base + Pow2(log) <= s.heap + HEAP_SIZE
  {
    assert LiveOk(s, base) && InChunk(base, s.blocks[base]);
    var c, log := s.blocks[base].chunk, s.blocks[base].log;
    var i: nat :| i < |s.chunks| && s.chunks[i] == c;
    hide Blocks, Listed, OwnChunks, Local;
    if log < 4 {
      Pow2Mono(log, 3);
      assert Pow2(3) == 8;
    }
  }

  /** Two live blocks never overlap. */
  lemma LiveApart(s: State, p: nat, q: nat)
    requires Inv(s) && IsLive(s, p) && IsLive(s, q) && p != q
    ensures p in s.blocks && q in s.blocks && ApartBlocks(p, s.blocks[p], q, s.blocks[q])
  {
    assert LiveOk(s, p) && LiveOk(s, q);
  }

  /** A block in a free list has the size of the list, and no live block overlaps it. */
  lemma FreeApart(s: State, log: nat, i: nat, p: nat)
    requires Inv(s) && i < |FreeList(s, log)| && IsLive(s, p)
    ensures var f := FreeList(s, log)[i];
      f in s.blocks && s.blocks[f].log == log && p in s.blocks && p != f
      && ApartBlocks(p, s.blocks[p], f, s.blocks[f])
  {
    assert LiveOk(s, p);
    assert ListOk(FreeList(s, log), log, s.blocks, s.place);
    assert InListOk(FreeList(s, log)[i], log, s.blocks, s.place);
    hide Listed, Chunks, OwnChunks, Local;
  }

  /** A chunk has no room for a block as large as itself, after the aligning word, so only requests of up to 32760
      bytes are ever met. */
  lemma LargestServed(s: State, base: nat)
    requires Inv(s) && IsLive(s, base)
    ensures s.place[base].sz + WORD <= CHUNK / 2
  {
    assert LiveOk(s, base) && InChunk(base, s.blocks[base]);
    FirstBlockFits(s.place[base].sz, s.blocks[base].log);
  }

  /** The first block of a fresh chunk has room in it exactly when the request and its header take half of a chunk at
      most. */
  lemma FirstBlockFits(sz: nat, log: nat)
    requires Suits(sz, log)
    ensures (ALIGNMENT - WORD) + Pow2(log) <= CHUNK <==> sz + WORD <= CHUNK / 2
  {
    Sixteen();
    if log < 16 {
      Pow2Mono(log, 15);
    }
  }

  /** With all threads idle, every block is with the program or in the list of its size. */
  lemma NoneLost(s: State, base: nat)
    requires Inv(s) && (forall t: Tid :: PcOf(s, t).Idle?) && base in s.blocks
    ensures base in s.place && (IsLive(s, base) || base in FreeList(s, s.blocks[base].log))
  {
    hide Sound;
    assert Home(s, base);
    if s.place[base].InList? {
      ListLog(s, s.place[base].log, base);
    }
  }

  lemma ListLog(s: State, log: nat, base: nat)
    requires Inv(s) && base in FreeList(s, log)
    ensures base in s.blocks && s.blocks[base].log == log
  {
    hide Blocks, Chunks, OwnChunks, Local, Conserved;
    assert ListOk(FreeList(s, log), log, s.blocks, s.place);
    var i: nat :| i < |FreeList(s, log)| && FreeList(s, log)[i] == base;
    assert InListOk(FreeList(s, log)[i], log, s.blocks, s.place);
  }

  // ---- msb

  const MSBS: seq<nat> := [0, 1, 2, 2, 3, 3, 3, 3, 4, 4, 4, 4, 4, 4, 4, 4]

  /** msb of x, with the convention of ffs: the least significant bit is number one. */
  function MsbOf(x: nat): nat { if x == 0 then 0 else Log2(x) + 1 }

  /** Halves the number of bits that are left: shifts out the low k of 2k bits when there are more. */
  method MsbStep(s: nat, result: nat, k: nat) returns (s': nat, result': nat)
    requires s < Pow2(2 * k)
    ensures s' < Pow2(k) && (s > 0 ==> s' > 0) && (s == 0 ==> s' == 0)
    ensures MsbOf(s') + result' == MsbOf(s) + result
  {
    ShrRange(s, k, 2 * k);
    ShrRange(s, k, k);
    if Shr(s, k) != 0 {
      Log2Shr(s, k);
      return Shr(s, k), result + k;
    }
    return s, result;
  }

  lemma SmallMsb(s: nat)
    requires s < 16
    ensures MSBS[s] == MsbOf(s)
  {
    if s >= 2 { assert Log2(s) == 1 + Log2(s / 2); }
    if s >= 4 { assert Log2(s / 2) == 1 + Log2(s / 4); }
    if s >= 8 { assert Log2(s / 4) == 1 + Log2(s / 8); }
  }

  /** The position of the most significant set bit of a 64-bit number, counting from one; zero for zero. */
  method Msb(size: nat) returns (result: nat)
    requires size < Pow2(64)
    ensures result == MsbOf(size)
  {
    Widths();
    hide Pow2;
    var s := size;
    result := 0;
    if s >= 256 {
      s, result := MsbStep(s, result, 32);
      s, result := MsbStep(s, result, 16);
      s, result := MsbStep(s, result, 8);
    }
    s, result := MsbStep(s, result, 4);
    SmallMsb(s);
    result := result + MSBS[s];
  }

  lemma Widths()
    ensures Pow2(2 * 32) == Pow2(64) && Pow2(2 * 16) == Pow2(32) && Pow2(2 * 8) == Pow2(16)
    ensures Pow2(2 * 4) == Pow2(8) == 256 && Pow2(4) == 16
  {
    assert 2 * 32 == 64 && 2 * 16 == 32 && 2 * 8 == 16 && 2 * 4 == 8;
    Small();
    hide Pow2;
  }

  lemma Small()
    ensures Pow2(8) == 256 && Pow2(4) == 16
  {
  }

  /** What AO_malloc computes with msb is the log of the model, the least power of two that holds the request and its
      header. */
  lemma LogForIsMsb(sz: nat)
    ensures LogFor(sz) == MsbOf(sz + WORD - 1)
    ensures sz <= CHUNK - WORD ==> Suits(sz, MsbOf(sz + WORD - 1))
  {
    if sz <= CHUNK - WORD {
      LogForSuits(sz);
    }
  }
}
