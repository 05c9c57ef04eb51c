/** elf_zstd_build_fse: building an FSE decoding table (section 4.1.1 of RFC 8878). */
module FseTable {
  // The symbols of a normalised distribution are spread over the table, then the states of each are numbered.

  import opened Bits
  import opened Counting
  import opened FseWalk

  /** One cell of the decoding table. */
  datatype Cell = Cell(symbol: nat, bits: nat, base: nat)

  const MAX_SYMBOLS: nat := 256

  /** The number of cells of a symbol; -1 stands for a probability below one cell. */
  function Cells(n: int): nat { if n >= 0 then n else 1 }

  function Total(norm: seq<int>, i: nat): nat
    requires i <= |norm|
  {
    if i == 0 then 0 else Total(norm, i - 1) + Cells(norm[i - 1])
  }

  /** How many of the first i symbols have a probability below one cell. */
  function LowCount(norm: seq<int>, i: nat): nat
    requires i <= |norm|
  {
    if i == 0 then 0 else LowCount(norm, i - 1) + (if norm[i - 1] < 0 then 1 else 0)
  }

  /** The number of cells of the other ones. */
  function Cum(norm: seq<int>, i: nat): nat
    requires i <= |norm|
  {
    if i == 0 then 0 else Cum(norm, i - 1) + (if norm[i - 1] < 0 then 0 else norm[i - 1])
  }

  lemma {:induction false} TotalSplit(norm: seq<int>, i: nat)
    requires i <= |norm|
    ensures Total(norm, i) == LowCount(norm, i) + Cum(norm, i)
  {
    if i > 0 {
      TotalSplit(norm, i - 1);
    }
  }

  lemma {:induction false} Monotone(norm: seq<int>, i: nat, j: nat)
    requires i <= j <= |norm|
    ensures LowCount(norm, i) <= LowCount(norm, j) && Cum(norm, i) <= Cum(norm, j)
    ensures i < j && norm[i] < 0 ==> LowCount(norm, i) + 1 <= LowCount(norm, j)
    ensures i < j && norm[i] >= 0 ==> Cum(norm, i) + norm[i] <= Cum(norm, j)
  {
    if i < j {
      Monotone(norm, i, j - 1);
    }
  }

  /** A distribution that fills a table of 2^k cells. */
  ghost predicate Normalised(norm: seq<int>, k: nat) {
    && 5 <= k <= 9 && |norm| <= MAX_SYMBOLS && (forall i | 0 <= i < |norm| :: norm[i] >= -1)
    && Total(norm, |norm|) == Pow2(k)
  }

  /** The last cell that the walk may fill: those above it belong to the improbable symbols. */
  function High(norm: seq<int>, k: nat): int {
    Pow2(k) - 1 - LowCount(norm, |norm|)
  }

  lemma {:induction false} CountUpdate(cells: seq<int>, p: nat, v: int, s: int, n: nat)
    requires p < |cells| && n <= |cells|
    ensures Count(cells[p := v], s, n) ==
            Count(cells, s, n) + (if p < n && v == s then 1 else 0) - (if p < n && cells[p] == s then 1 else 0)
  {
    if n > 0 {
      CountUpdate(cells, p, v, s, n - 1);
    }
  }

  lemma {:induction false} CountSome(cells: seq<int>, s: int, n: nat) returns (x: nat)
    requires n <= |cells| && Count(cells, s, n) > 0
    ensures x < n && cells[x] == s
  {
    if cells[n - 1] == s {
      x := n - 1;
    } else {
      x := CountSome(cells, s, n - 1);
    }
  }

  lemma {:induction false} CountAt(cells: seq<int>, x: nat, n: nat)
    requires x < n <= |cells|
    ensures Count(cells, cells[x], x) < Count(cells, cells[x], n)
  {
    if x < n - 1 {
      CountAt(cells, x, n - 1);
    }
  }

  lemma {:induction false} CountConst(cells: seq<int>, v: int, s: int, n: nat)
    requires n <= |cells| && forall x | 0 <= x < n :: cells[x] == v
    ensures Count(cells, s, n) == if s == v then n else 0
  {
    if n > 0 {
      CountConst(cells, v, s, n - 1);
    }
  }

  /** How many of the first u steps of the walk land at or below high. */
  function Writes(k: nat, high: int, u: nat): nat {
    if u == 0 then 0 else Writes(k, high, u - 1) + (if Pos(k, u - 1) <= high then 1 else 0)
  }

  // ---- Where the symbols go

  /** The symbol in turn for the w-th cell of the walk. */
  predicate Turn(norm: seq<int>, s: int, w: nat) {
    0 <= s < |norm| && Cum(norm, s) <= w < Cum(norm, s) + norm[s]
  }

  /** The improbable symbols among the first i hold one cell each, counting down from the last cell. */
  ghost predicate LowPlaced(cells: seq<int>, norm: seq<int>, k: nat, i: nat) {
    && i <= |norm| && |cells| == Pow2(k) && LowCount(norm, i) <= Pow2(k)
    && forall s | 0 <= s < i && norm[s] < 0 :: LowCell(cells, norm, k, s) == s
  }

  function LowCell(cells: seq<int>, norm: seq<int>, k: nat, s: nat): int
    requires s < |norm| && |cells| == Pow2(k)
  {
    var c := Pow2(k) - 1 - LowCount(norm, s);
    if 0 <= c then cells[c] else -1
  }

  /** Every step below t of the walk that lands at or below high has placed the symbol in turn. */
  ghost predicate WalkPlaced(cells: seq<int>, norm: seq<int>, k: nat, high: int, t: nat) {
    && |cells| == Pow2(k)
    && forall u: nat | u < t && Pos(k, u) <= high :: Turn(norm, cells[Pos(k, u)], Writes(k, high, u))
  }

  /** The symbol of every cell: the low cells, the walk, and the right number of cells for every symbol. */
  ghost predicate Spread(cells: seq<int>, norm: seq<int>, k: nat) {
    && LowPlaced(cells, norm, k, |norm|)
    && WalkPlaced(cells, norm, k, High(norm, k), Pow2(k))
    && (forall x | 0 <= x < |cells| :: 0 <= cells[x] < |norm|)
    && (forall s | 0 <= s < |norm| :: Count(cells, s, |cells|) == Cells(norm[s]))
  }

  /** The cells of the table that have been given a symbol; cells holds -1 for the others. */
  ghost predicate Shows(table: seq<Cell>, cells: seq<int>) {
    && |table| == |cells|
    && forall x | 0 <= x < |cells| :: cells[x] >= 0 ==> table[x].symbol == cells[x]
  }

  // ---- First loop: improbable symbols

  ghost predicate LowState(cells: seq<int>, norm: seq<int>, k: nat, i: nat, high: int) {
    && LowPlaced(cells, norm, k, i) && high == Pow2(k) - 1 - LowCount(norm, i)
    && (forall x | 0 <= x < |cells| :: if x <= high then cells[x] == -1 else 0 <= cells[x] < i)
    && (forall s | 0 <= s < |norm| :: Count(cells, s, |cells|) == if s < i && norm[s] < 0 then 1 else 0)
    && Count(cells, -1, |cells|) == high + 1
  }

  lemma LowRoom(norm: seq<int>, k: nat, i: nat)
    requires Normalised(norm, k) && i < |norm| && norm[i] < 0
    ensures LowCount(norm, i) < Pow2(k)
  {
    TotalSplit(norm, |norm|);
    Monotone(norm, i, |norm|);
  }

  lemma LowCellStep(cells: seq<int>, norm: seq<int>, k: nat, i: nat, high: nat, s: nat)
    requires s <= i < |norm| && norm[s] < 0 && |cells| == Pow2(k) && high == Pow2(k) - 1 - LowCount(norm, i)
    ensures LowCell(cells[high := i as int], norm, k, s) == if s < i then LowCell(cells, norm, k, s) else i
  {
    Monotone(norm, s, i);
  }

  lemma LowPlacedStep(cells: seq<int>, norm: seq<int>, k: nat, i: nat, high: nat)
    requires i < |norm| && norm[i] < 0 && LowPlaced(cells, norm, k, i) && high == Pow2(k) - 1 - LowCount(norm, i)
    ensures LowPlaced(cells[high := i as int], norm, k, i + 1)
  {
    assert LowCount(norm, i + 1) == LowCount(norm, i) + 1;
    hide LowCell, LowCount;
    forall s | 0 <= s < i + 1 && norm[s] < 0
      ensures LowCell(cells[high := i as int], norm, k, s) == s
    {
      LowCellStep(cells, norm, k, i, high, s);
    }
  }

  lemma LowStep(cells: seq<int>, norm: seq<int>, k: nat, i: nat, high: nat)
    requires i < |norm| && norm[i] < 0 && LowState(cells, norm, k, i, high)
    ensures LowState(cells[high := i as int], norm, k, i + 1, high - 1)
  {
    var cells' := cells[high := i as int];
    LowPlacedStep(cells, norm, k, i, high);
    assert LowCount(norm, i + 1) == LowCount(norm, i) + 1 && |cells'| == |cells| == Pow2(k) && cells[high] == -1;
    hide Count, LowPlaced, LowCount;
    forall s | 0 <= s < |norm|
      ensures Count(cells', s, |cells'|) == if s < i + 1 && norm[s] < 0 then 1 else 0
    {
      CountUpdate(cells, high, i, s, |cells|);
    }
    CountUpdate(cells, high, i, -1, |cells|);
  }

  lemma LowSkip(cells: seq<int>, norm: seq<int>, k: nat, i: nat, high: int)
    requires i < |norm| && norm[i] >= 0 && LowState(cells, norm, k, i, high)
    ensures LowState(cells, norm, k, i + 1, high)
  {
    hide LowCell, Count;
    assert LowCount(norm, i + 1) == LowCount(norm, i);
    hide LowCount;
    forall s | 0 <= s < |norm|
      ensures Count(cells, s, |cells|) == if s < i + 1 && norm[s] < 0 then 1 else 0
    {
    }
  }

  /** Gives the improbable symbols their cells, from the last cell down, and every symbol its first state. */
  method PlaceLow(norm: seq<int>, k: nat, next: array<uint16>, table: array<Cell>)
    returns (high: int, ghost cells: seq<int>)
    requires Normalised(norm, k) && |norm| <= next.Length && table.Length == Pow2(k)
    modifies next, table
    ensures LowState(cells, norm, k, |norm|, high) && Shows(table[..], cells)
    ensures forall s | 0 <= s < |norm| :: next[s] == Cells(norm[s])
  {
    hide LowState, Normalised, Pow2, Shows;
    cells := LowStart(table[..], norm, k);
    high := Pow2(k) - 1;
    for i: nat := 0 to |norm|
      invariant LowState(cells, norm, k, i, high) && Shows(table[..], cells)
      invariant |cells| == Pow2(k) && -1 <= high < Pow2(k)
      invariant forall s | 0 <= s < i :: next[s] == Cells(norm[s])
    {
      CellsFit(norm, k, i);
      LowBounds(cells, norm, k, i, high);
      if norm[i] >= 0 {
        LowSkip(cells, norm, k, i, high);
        next[i] := norm[i];
      } else {
        LowStep(cells, norm, k, i, high);
        cells := PlaceCell(table, cells, high, i);
        high := high - 1;
        next[i] := 1;
      }
    }
  }

  /** Gives cell p to symbol i. */
  method PlaceCell(table: array<Cell>, ghost cells: seq<int>, p: nat, i: nat) returns (ghost cells': seq<int>)
    requires p < |cells| && Shows(table[..], cells)
    modifies table
    ensures cells' == cells[p := i as int] && Shows(table[..], cells')
  {
    table[p] := table[p].(symbol := i);
    cells' := cells[p := i as int];
  }

  /** At first no cell has been given a symbol. */
  lemma LowStart(table: seq<Cell>, norm: seq<int>, k: nat) returns (cells: seq<int>)
    requires |table| == Pow2(k)
    ensures |cells| == Pow2(k) && LowState(cells, norm, k, 0, Pow2(k) - 1) && Shows(table, cells)
  {
    cells := seq(Pow2(k), _ => -1);
    forall s
      ensures Count(cells, s, |cells|) == if s == -1 then |cells| else 0
    {
      CountConst(cells, -1, s, |cells|);
    }
  }

  lemma LowBounds(cells: seq<int>, norm: seq<int>, k: nat, i: nat, high: int)
    requires Normalised(norm, k) && i < |norm| && LowState(cells, norm, k, i, high)
    ensures norm[i] < 0 ==> 0 <= high
    ensures -1 <= high < Pow2(k)
  {
    if norm[i] < 0 {
      LowRoom(norm, k, i);
    }
  }

  lemma CellsFit(norm: seq<int>, k: nat, i: nat)
    requires Normalised(norm, k) && i < |norm|
    ensures Cells(norm[i]) <= Pow2(k) <= 512
  {
    TotalSplit(norm, |norm|);
    Monotone(norm, i, |norm|);
    Pow2Mono(k, 9);
    assert Pow2(9) == 512 by { assert Pow2(8) == 256; }
    assert Pow2(k) >= 1;
  }

  // ---- Second loop: the walk

  /** The cells of symbol s when the walk has placed j cells of symbol i. */
  function Placed(norm: seq<int>, s: nat, i: nat, j: nat): int
    requires s < |norm|
  {
    if norm[s] < 0 then 1 else if s < i then norm[s] else if s == i then j else 0
  }

  ghost predicate Counts(cells: seq<int>, norm: seq<int>, i: nat, j: nat) {
    && i <= |norm|
    && (forall s: nat | s < |norm| :: Count(cells, s, |cells|) == Placed(norm, s, i, j))
    && Count(cells, -1, |cells|) + Cum(norm, i) + j == Cum(norm, |norm|)
    && (forall x | 0 <= x < |cells| :: -1 <= cells[x] < |norm|)
  }

  /** What is left of the walk lands on empty cells. */
  ghost predicate Ahead(cells: seq<int>, k: nat, high: int, t: nat) {
    && |cells| == Pow2(k) && t <= Pow2(k)
    && (forall u: nat | t <= u < Pow2(k) && Pos(k, u) <= high :: cells[Pos(k, u)] == -1)
    && (forall x | 0 <= x < |cells| && high < x :: cells[x] >= 0)
  }

  ghost predicate WalkState(cells: seq<int>, norm: seq<int>, k: nat, high: int, i: nat, j: nat, t: nat) {
    && Counts(cells, norm, i, j) && Ahead(cells, k, high, t)
    && LowPlaced(cells, norm, k, |norm|) && WalkPlaced(cells, norm, k, high, t)
    && Writes(k, high, t) == Cum(norm, i) + j && high == High(norm, k)
  }

  lemma CountsStep(cells: seq<int>, norm: seq<int>, i: nat, j: nat, p: nat)
    requires Counts(cells, norm, i, j) && i < |norm| && norm[i] >= 0 && p < |cells| && cells[p] == -1
    ensures Counts(cells[p := i as int], norm, i, j + 1)
  {
    var cells' := cells[p := i as int];
    hide Count;
    forall s: nat | s < |norm|
      ensures Count(cells', s, |cells'|) == Placed(norm, s, i, j + 1)
    {
      CountUpdate(cells, p, i, s, |cells|);
    }
    CountUpdate(cells, p, i, -1, |cells|);
  }

  lemma CountsNext(cells: seq<int>, norm: seq<int>, i: nat, j: nat)
    requires Counts(cells, norm, i, j) && i < |norm| && (if norm[i] < 0 then j == 0 else j == norm[i])
    ensures Counts(cells, norm, i + 1, 0)
  {
    hide Count;
    forall s: nat | s < |norm|
      ensures Count(cells, s, |cells|) == Placed(norm, s, i + 1, 0)
    {
      assert Count(cells, s, |cells|) == Placed(norm, s, i, j);
    }
  }

  lemma AheadStep(cells: seq<int>, k: nat, high: int, t: nat, v: nat)
    requires k >= 4 && Ahead(cells, k, high, t) && t < Pow2(k) && Pos(k, t) <= high
    ensures Ahead(cells[Pos(k, t) := v as int], k, high, t + 1)
  {
    forall u: nat | t + 1 <= u < Pow2(k) && Pos(k, u) <= high
      ensures cells[Pos(k, t) := v as int][Pos(k, u)] == -1
    {
      PosInjective(k, t, u);
    }
  }

  lemma WalkPlacedStep(cells: seq<int>, norm: seq<int>, k: nat, high: int, t: nat, v: nat)
    requires k >= 4 && WalkPlaced(cells, norm, k, high, t) && t < Pow2(k)
    requires Turn(norm, v, Writes(k, high, t))
    ensures WalkPlaced(cells[Pos(k, t) := v as int], norm, k, high, t + 1)
  {
    var cells' := cells[Pos(k, t) := v as int];
    hide Writes, Turn;
    forall u: nat | u < t + 1 && Pos(k, u) <= high
      ensures Turn(norm, cells'[Pos(k, u)], Writes(k, high, u))
    {
      if u < t {
        PosInjective(k, u, t);
      }
    }
  }

  /** A cell below high is above none of the low cells. */
  lemma LowPlacedKept(cells: seq<int>, norm: seq<int>, k: nat, p: nat, v: int)
    requires LowPlaced(cells, norm, k, |norm|) && p <= High(norm, k) && p < |cells|
    ensures LowPlaced(cells[p := v], norm, k, |norm|)
  {
    forall s | 0 <= s < |norm| && norm[s] < 0
      ensures LowCell(cells[p := v], norm, k, s) == s
    {
      assert LowCell(cells, norm, k, s) == s;
      Monotone(norm, s, |norm|);
    }
  }

  lemma WalkStep(cells: seq<int>, norm: seq<int>, k: nat, high: int, i: nat, j: nat, t: nat)
    requires k >= 4 && WalkState(cells, norm, k, high, i, j, t) && t < Pow2(k) && Pos(k, t) <= high
    requires i < |norm| && j < norm[i]
    ensures WalkState(cells[Pos(k, t) := i as int], norm, k, high, i, j + 1, t + 1)
  {
    hide LowPlaced, Pos, Count, Cum;
    CountsStep(cells, norm, i, j, Pos(k, t));
    AheadStep(cells, k, high, t, i);
    WalkPlacedStep(cells, norm, k, high, t, i);
    LowPlacedKept(cells, norm, k, Pos(k, t), i);
  }

  lemma WalkOver(cells: seq<int>, norm: seq<int>, k: nat, high: int, i: nat, j: nat, t: nat)
    requires WalkState(cells, norm, k, high, i, j, t) && t < Pow2(k) && Pos(k, t) > high
    ensures WalkState(cells, norm, k, high, i, j, t + 1)
  {
    hide LowPlaced, Counts, Turn;
  }

  lemma WalkStart(cells: seq<int>, norm: seq<int>, k: nat, high: int)
    requires Normalised(norm, k) && LowState(cells, norm, k, |norm|, high)
    ensures WalkState(cells, norm, k, high, 0, 0, 0)
    ensures high >= -1
  {
    TotalSplit(norm, |norm|);
    hide Count, Cum, LowCount, LowPlaced;
    assert Cum(norm, 0) == 0 by { CumNone(norm); }
    assert Counts(cells, norm, 0, 0);
  }

  lemma CumNone(norm: seq<int>)
    ensures Cum(norm, 0) == 0
  {
  }

  /** A walk that has come round has placed a symbol in every cell up to high. */
  lemma AllReached(cells: seq<int>, norm: seq<int>, k: nat, high: int, x: nat)
    requires k >= 4 && WalkPlaced(cells, norm, k, high, Pow2(k)) && x < |cells| && x <= high
    ensures cells[x] >= 0
  {
    var u := PosSurjective(k, x);
    assert Turn(norm, cells[Pos(k, u)], Writes(k, high, u));
  }

  lemma NoneEmpty(cells: seq<int>, x: nat)
    requires x < |cells| && Count(cells, -1, |cells|) == 0
    ensures cells[x] != -1
  {
    if cells[x] == -1 {
      CountAt(cells, x, |cells|);
    }
  }

  /** As long as a symbol lacks cells, the walk has not come round. */
  lemma StillWalking(cells: seq<int>, norm: seq<int>, k: nat, high: int, i: nat, j: nat, t: nat)
    requires k >= 4 && WalkState(cells, norm, k, high, i, j, t) && i < |norm| && j < norm[i]
    ensures t < Pow2(k) && high >= 0
  {
    Monotone(norm, i, |norm|);
    var x := CountSome(cells, -1, |cells|);
    if t == Pow2(k) {
      AllReached(cells, norm, k, high, x);
    }
  }

  /** A walk with no cell left to fill has come round to cell 0. */
  lemma WalkBack(cells: seq<int>, norm: seq<int>, k: nat, high: int, t: nat)
    requires WalkState(cells, norm, k, high, |norm|, 0, t) && Count(cells, -1, |cells|) == 0
    requires high >= 0 ==> Pos(k, t) <= high
    requires high < 0 ==> t == 0
    ensures Pos(k, t) == 0
  {
    hide LowPlaced, WalkPlaced, Counts, Count;
    if high >= 0 && t < Pow2(k) {
      NoneEmpty(cells, Pos(k, t));
    } else if high >= 0 {
      PosReturns(k);
    }
  }

  /** Once every symbol has its cells, the walk is back at cell 0. */
  lemma WalkDone(cells: seq<int>, norm: seq<int>, k: nat, high: int, t: nat)
    requires WalkState(cells, norm, k, high, |norm|, 0, t)
    requires high >= 0 ==> Pos(k, t) <= high
    requires high < 0 ==> t == 0
    ensures Pos(k, t) == 0 && Spread(cells, norm, k)
  {
    hide Pos, Pow2, LowPlaced, Turn, Writes, Count;
    WalkBack(cells, norm, k, high, t);
    forall x | 0 <= x < |cells|
      ensures 0 <= cells[x] < |norm|
    {
      NoneEmpty(cells, x);
    }
    forall s | 0 <= s < |norm|
      ensures Count(cells, s, |cells|) == Cells(norm[s])
    {
      assert Count(cells, s, |cells|) == Placed(norm, s, |norm|, 0);
    }
  }

  /** The next cell of the walk at or below high. */
  method Advance(norm: seq<int>, k: nat, high: int, pos: nat, ghost cells: seq<int>, ghost i: nat, ghost j: nat,
                 ghost t: nat)
    returns (pos': nat, ghost t': nat)
    requires k >= 4 && WalkState(cells, norm, k, high, i, j, t) && 0 < t <= Pow2(k) && high >= 0
    requires pos == Pos(k, t - 1)
    ensures WalkState(cells, norm, k, high, i, j, t') && t' <= Pow2(k) && pos' == Pos(k, t') <= high
  {
    hide WalkState, Pow2, Step;
    t' := t;
    pos' := (pos + Step(k)) % Pow2(k);
    while pos' > high
      invariant WalkState(cells, norm, k, high, i, j, t') && t' <= Pow2(k) && pos' == Pos(k, t')
      decreases Pow2(k) - t'
    {
      if t' == Pow2(k) {
        PosReturns(k);
      }
      WalkOver(cells, norm, k, high, i, j, t');
      t' := t' + 1;
      pos' := (pos' + Step(k)) % Pow2(k);
    }
  }

  /** Gives symbol i the next cell of the walk. */
  method PlaceNext(norm: seq<int>, k: nat, high: int, pos: nat, i: nat, table: array<Cell>, ghost cells: seq<int>,
                   ghost j: nat, ghost t: nat)
    returns (pos': nat, ghost cells': seq<int>, ghost t': nat)
    requires k >= 4 && WalkState(cells, norm, k, high, i, j, t) && i < |norm| && j < norm[i] && pos == Pos(k, t)
    requires high >= 0 ==> pos <= high
    requires Shows(table[..], cells)
    modifies table
    ensures WalkState(cells', norm, k, high, i, j + 1, t') && pos' == Pos(k, t') && Shows(table[..], cells')
    ensures 0 <= pos' <= high
  {
    StillWalking(cells, norm, k, high, i, j, t);
    WalkStep(cells, norm, k, high, i, j, t);
    WalkSize(cells, norm, k, high, i, j, t);
    hide WalkState, Shows, Pos, Pow2;
    cells' := PlaceCell(table, cells, pos, i);
    pos', t' := Advance(norm, k, high, pos, cells', i, j + 1, t + 1);
  }

  lemma WalkSize(cells: seq<int>, norm: seq<int>, k: nat, high: int, i: nat, j: nat, t: nat)
    requires WalkState(cells, norm, k, high, i, j, t)
    ensures |cells| == Pow2(k) && t <= Pow2(k)
  {
  }

  lemma WalkNext(cells: seq<int>, norm: seq<int>, k: nat, high: int, i: nat, j: nat, t: nat)
    requires WalkState(cells, norm, k, high, i, j, t)
    requires i < |norm| && (if norm[i] < 0 then j == 0 else j == norm[i])
    ensures WalkState(cells, norm, k, high, i + 1, 0, t)
  {
    CountsNext(cells, norm, i, j);
    hide Counts, Ahead, LowPlaced, WalkPlaced;
  }

  /** Gives symbol i all its cells. */
  method PlaceSymbol(norm: seq<int>, k: nat, high: int, pos: nat, i: nat, table: array<Cell>, ghost cells: seq<int>,
                     ghost t: nat)
    returns (pos': nat, ghost cells': seq<int>, ghost t': nat)
    requires k >= 4 && WalkState(cells, norm, k, high, i, 0, t) && i < |norm| && pos == Pos(k, t)
    requires (high >= 0 ==> pos <= high) && (high < 0 ==> t == 0) && Shows(table[..], cells)
    modifies table
    ensures WalkState(cells', norm, k, high, i + 1, 0, t') && pos' == Pos(k, t') && Shows(table[..], cells')
    ensures (high >= 0 ==> pos' <= high) && (high < 0 ==> t' == 0)
  {
    hide WalkState, Shows, Pos, Pow2;
    pos', cells', t' := pos, cells, t;
    var n := if norm[i] < 0 then 0 else norm[i];
    for j: nat := 0 to n
      invariant WalkState(cells', norm, k, high, i, j, t') && pos' == Pos(k, t') && Shows(table[..], cells')
      invariant (high >= 0 ==> pos' <= high) && (high < 0 ==> t' == 0)
    {
      pos', cells', t' := PlaceNext(norm, k, high, pos', i, table, cells', j, t');
    }
    WalkNext(cells', norm, k, high, i, n, t');
  }

  /** Spreads the other symbols over the cells that are left; pos is back at 0 when all have been placed. */
  method SpreadSymbols(norm: seq<int>, k: nat, high: int, table: array<Cell>, ghost cells0: seq<int>)
    returns (pos: nat, ghost cells: seq<int>)
    requires Normalised(norm, k) && LowState(cells0, norm, k, |norm|, high) && Shows(table[..], cells0)
    modifies table
    ensures pos == 0 && Spread(cells, norm, k) && Shows(table[..], cells)
  {
    assert k >= 4;
    WalkStart(cells0, norm, k, high);
    FirstPos(k);
    hide *;
    ghost var t;
    pos, cells, t := PlaceSymbols(norm, k, high, table, cells0);
    WalkDone(cells, norm, k, high, t);
  }

  method PlaceSymbols(norm: seq<int>, k: nat, high: int, table: array<Cell>, ghost cells0: seq<int>)
    returns (pos: nat, ghost cells: seq<int>, ghost t: nat)
    requires k >= 4 && WalkState(cells0, norm, k, high, 0, 0, 0) && Pos(k, 0) == 0 && Shows(table[..], cells0)
    modifies table
    ensures WalkState(cells, norm, k, high, |norm|, 0, t) && pos == Pos(k, t) && Shows(table[..], cells)
    ensures (high >= 0 ==> pos <= high) && (high < 0 ==> t == 0)
  {
    hide *;
    pos, cells, t := 0, cells0, 0;
    for i: nat := 0 to |norm|
      invariant WalkState(cells, norm, k, high, i, 0, t) && pos == Pos(k, t) && Shows(table[..], cells)
      invariant (high >= 0 ==> pos <= high) && (high < 0 ==> t == 0)
    {
      pos, cells, t := PlaceSymbol(norm, k, high, pos, i, table, cells, t);
    }
  }

  lemma FirstPos(k: nat)
    ensures Pos(k, 0) == 0
  {
  }

  // ---- Third loop: numbering the states

  /** The state number of cell i: the states of a symbol with c cells are c to 2c - 1, in table order. */
  function StateOf(cells: seq<int>, norm: seq<int>, i: nat): nat
    requires i < |cells| && 0 <= cells[i] < |norm|
  {
    Cells(norm[cells[i]]) + Count(cells, cells[i], i)
  }

  /** A cell for state number x: the values that lead to it are the 2^bits ones from base on. */
  ghost predicate CellFor(c: Cell, x: nat, k: nat) {
    x > 0 && Log2(x) <= k && c.bits == k - Log2(x) && c.base + Pow2(k) == Shl(x, c.bits)
  }

  ghost predicate Numbered(table: seq<Cell>, cells: seq<int>, norm: seq<int>, k: nat, n: nat) {
    && |table| == |cells| == Pow2(k) && n <= |cells| && (forall x | 0 <= x < |cells| :: 0 <= cells[x] < |norm|)
    && (forall i: nat | i < |cells| :: table[i].symbol == cells[i])
    && (forall i: nat | i < n :: CellFor(table[i], StateOf(cells, norm, i), k))
  }

  lemma StateBounds(cells: seq<int>, norm: seq<int>, k: nat, i: nat)
    requires Normalised(norm, k) && Spread(cells, norm, k) && i < |cells|
    ensures Cells(norm[cells[i]]) > 0
    ensures Cells(norm[cells[i]]) <= StateOf(cells, norm, i) < 2 * Cells(norm[cells[i]]) <= 2 * Pow2(k)
  {
    CellsFit(norm, k, cells[i]);
    hide Normalised;
    CountAt(cells, i, |cells|);
  }

  lemma StateLog(x: nat, k: nat)
    requires 0 < x < 2 * Pow2(k)
    ensures Log2(x) <= k
    ensures Pow2(k) <= Shl(x, k - Log2(x)) < 2 * Pow2(k)
  {
    var h := Log2(x);
    Log2Bounds(x);
    if k < h {
      Pow2Mono(k, h);
    }
    ShlBounds(x, h, k - h);
    assert h + (k - h) == k;
  }

  /** next holds the state number that the next cell of each symbol gets. */
  ghost predicate NextStates(next: seq<uint16>, cells: seq<int>, norm: seq<int>, i: nat) {
    && |norm| <= |next| && i <= |cells|
    && forall s | 0 <= s < |norm| :: next[s] == Cells(norm[s]) + Count(cells, s, i)
  }

  /** The state number of cell i, and what numbering the cell changes. */
  lemma NumberStep(table: seq<Cell>, next: seq<uint16>, cells: seq<int>, norm: seq<int>, k: nat, i: nat)
    requires Normalised(norm, k) && Spread(cells, norm, k) && Numbered(table, cells, norm, k, i) && i < |cells|
    requires NextStates(next, cells, norm, i)
    ensures 0 <= table[i].symbol < |norm| <= |next|
    ensures 0 < next[table[i].symbol] < 2 * Pow2(k) <= 1024
    ensures NextStates(next[table[i].symbol := next[table[i].symbol] + 1], cells, norm, i + 1)
    ensures next[table[i].symbol] == StateOf(cells, norm, i)
  {
    StateBounds(cells, norm, k, i);
    CellsFit(norm, k, cells[i]);
    hide Normalised, Spread, Cells, Pow2;
  }

  lemma NumberedStep(table: seq<Cell>, cells: seq<int>, norm: seq<int>, k: nat, i: nat, c: Cell)
    requires Numbered(table, cells, norm, k, i) && i < |cells|
    requires c.symbol == table[i].symbol && CellFor(c, StateOf(cells, norm, i), k)
    ensures Numbered(table[i := c], cells, norm, k, i + 1)
  {
    hide CellFor, StateOf;
  }

  /** The cell for state number x of a symbol. */
  function NumberedCell(sym: nat, x: nat, k: nat): (c: Cell)
    requires 0 < x < 2 * Pow2(k)
    ensures c.symbol == sym && CellFor(c, x, k) && c.base < Pow2(k)
  {
    StateLog(x, k);
    Cell(sym, k - Log2(x), Shl(x, k - Log2(x)) - Pow2(k))
  }

  /** Numbers the states of every symbol. */
  method AssignStates(norm: seq<int>, k: nat, next: array<uint16>, table: array<Cell>, ghost cells: seq<int>)
    returns (ok: bool)
    requires Normalised(norm, k) && Spread(cells, norm, k) && Shows(table[..], cells)
    requires |norm| <= next.Length && forall s | 0 <= s < |norm| :: next[s] == Cells(norm[s])
    modifies next, table
    ensures ok && Numbered(table[..], cells, norm, k, Pow2(k))
  {
    SpreadCells(table[..], next[..], cells, norm, k);
    hide *;
    ok := NumberCells(norm, k, next, table, cells);
  }

  method NumberCells(norm: seq<int>, k: nat, next: array<uint16>, table: array<Cell>, ghost cells: seq<int>)
    returns (ok: bool)
    requires Normalised(norm, k) && Spread(cells, norm, k) && table.Length == |cells| == Pow2(k)
    requires Numbered(table[..], cells, norm, k, 0) && NextStates(next[..], cells, norm, 0)
    modifies next, table
    ensures ok && Numbered(table[..], cells, norm, k, Pow2(k))
  {
    hide *;
    for i: nat := 0 to table.Length
      invariant Numbered(table[..], cells, norm, k, i) && NextStates(next[..], cells, norm, i)
    {
      ok := NumberCell(norm, k, next, table, cells, i);
      if !ok {
        return;
      }
    }
    return true;
  }

  /** Numbers the state of cell i. */
  method NumberCell(norm: seq<int>, k: nat, next: array<uint16>, table: array<Cell>, ghost cells: seq<int>, i: nat)
    returns (ok: bool)
    requires Normalised(norm, k) && Spread(cells, norm, k) && i < table.Length == |cells|
    requires Numbered(table[..], cells, norm, k, i) && NextStates(next[..], cells, norm, i)
    modifies next, table
    ensures ok && Numbered(table[..], cells, norm, k, i + 1) && NextStates(next[..], cells, norm, i + 1)
  {
    ghost var table0, next0 := table[..], next[..];
    NumberStep(table0, next0, cells, norm, k, i);
    hide *;
    var sym := table[i].symbol;
    var state: nat := next[sym];
    if state == 0 {
      return false;
    }
    next[sym] := next[sym] + 1;
    assert next[..] == next0[sym := next0[sym] + 1];
    var c := NumberedCell(sym, state, k);
    NumberedStep(table0, cells, norm, k, i, c);
    table[i] := c;
    assert table[..] == table0[i := c];
    return true;
  }

  lemma SpreadCells(table: seq<Cell>, next: seq<uint16>, cells: seq<int>, norm: seq<int>, k: nat)
    requires Spread(cells, norm, k) && Shows(table, cells)
    requires |norm| <= |next| && forall s | 0 <= s < |norm| :: next[s] == Cells(norm[s])
    ensures Numbered(table, cells, norm, k, 0) && |table| == |cells| == Pow2(k) && NextStates(next, cells, norm, 0)
  {
  }

  /** elf_zstd_build_fse: for a normalised distribution it succeeds, every cell holds the symbol that the walk puts
      there, and the states of every symbol are numbered. */
  method BuildFse(norm: seq<int>, k: nat, next: array<uint16>, table: array<Cell>)
    returns (ok: bool, ghost cells: seq<int>)
    requires Normalised(norm, k) && |norm| <= next.Length && table.Length == Pow2(k)
    modifies next, table
    ensures ok && Spread(cells, norm, k) && Numbered(table[..], cells, norm, k, Pow2(k))
  {
    hide Normalised, Spread, Shows, LowState, Numbered;
    var high, pos;
    high, cells := PlaceLow(norm, k, next, table);
    pos, cells := SpreadSymbols(norm, k, high, table, cells);
    if pos != 0 {
      return false, cells;
    }
    ok := AssignStates(norm, k, next, table, cells);
  }
}