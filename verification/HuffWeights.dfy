/** The weight part of elf_zstd_read_huff: from Huffman weights to a decoding table (section 4.2.1 of RFC 8878). */
module HuffWeights {
  import opened Bits
  import opened Counting

  const MAX_WEIGHT: nat := 12
  const MAX_TABLE_BITS: nat := 11

  /** The number of table entries that a symbol of weight w owns. */
  function Entries(w: nat): nat { if w == 0 then 0 else Pow2(w - 1) }

  /** The entries of the first n symbols. */
  function Mask(ws: seq<nat>, n: nat): nat
    requires n <= |ws|
  {
    if n == 0 then 0 else Mask(ws, n - 1) + Entries(ws[n - 1])
  }

  /** Those of weight less than w. */
  function Lower(ws: seq<nat>, w: nat, n: nat): nat
    requires n <= |ws|
  {
    if n == 0 then 0 else Lower(ws, w, n - 1) + (if ws[n - 1] < w then Entries(ws[n - 1]) else 0)
  }

  /** Those of weight w. */
  function Equal(ws: seq<nat>, w: nat, n: nat): nat
    requires n <= |ws|
  {
    if n == 0 then 0 else Equal(ws, w, n - 1) + (if ws[n - 1] == w then Entries(w) else 0)
  }

  /** The first entry of symbol s: symbols are sorted by weight, and in symbol order within a weight. */
  function Start(ws: seq<nat>, s: nat): nat
    requires s < |ws|
  {
    Lower(ws, ws[s], |ws|) + Equal(ws, ws[s], s)
  }

  predicate Owns(ws: seq<nat>, s: nat, e: nat) {
    s < |ws| && ws[s] > 0 && Start(ws, s) <= e < Start(ws, s) + Entries(ws[s])
  }

  // ---- The runs of the symbols

  lemma {:induction false} LowerStep(ws: seq<nat>, w: nat, n: nat)
    requires n <= |ws|
    ensures Lower(ws, w + 1, n) == Lower(ws, w, n) + Equal(ws, w, n)
  {
    if n > 0 {
      LowerStep(ws, w, n - 1);
    }
  }

  lemma {:induction false} LowerMono(ws: seq<nat>, v: nat, w: nat)
    requires v <= w
    ensures Lower(ws, v, |ws|) <= Lower(ws, w, |ws|)
  {
    if v < w {
      LowerMono(ws, v, w - 1);
      LowerStep(ws, w - 1, |ws|);
    }
  }

  lemma {:induction false} LowerAll(ws: seq<nat>, w: nat, n: nat)
    requires n <= |ws| && forall i | 0 <= i < n :: ws[i] < w
    ensures Lower(ws, w, n) == Mask(ws, n)
  {
    if n > 0 {
      LowerAll(ws, w, n - 1);
    }
  }

  lemma {:induction false} EqualMono(ws: seq<nat>, w: nat, m: nat, n: nat)
    requires m < n <= |ws| && ws[m] == w
    ensures Equal(ws, w, m) + Entries(w) <= Equal(ws, w, n)
  {
    if m < n - 1 {
      EqualMono(ws, w, m, n - 1);
    }
  }

  /** The runs of two symbols do not meet. */
  lemma RunsDisjoint(ws: seq<nat>, s: nat, t: nat, e: nat)
    requires Owns(ws, s, e) && Owns(ws, t, e)
    ensures s == t
  {
    if ws[s] < ws[t] {
      RunsOrdered(ws, s, t, e);
    } else if ws[t] < ws[s] {
      RunsOrdered(ws, t, s, e);
    } else if s < t {
      EqualMono(ws, ws[s], s, t);
    } else if t < s {
      EqualMono(ws, ws[s], t, s);
    }
  }

  lemma RunsOrdered(ws: seq<nat>, s: nat, t: nat, e: nat)
    requires Owns(ws, s, e) && t < |ws| && ws[s] < ws[t]
    ensures e < Start(ws, t)
  {
    EqualMono(ws, ws[s], s, |ws|);
    LowerStep(ws, ws[s], |ws|);
    LowerMono(ws, ws[s] + 1, ws[t]);
  }

  /** The symbol of weight w that owns the e-th entry of that weight. */
  lemma {:induction false} FindEqual(ws: seq<nat>, w: nat, n: nat, e: nat) returns (s: nat)
    requires n <= |ws| && e < Equal(ws, w, n)
    ensures s < n && ws[s] == w && Equal(ws, w, s) <= e < Equal(ws, w, s) + Entries(w)
  {
    if e < Equal(ws, w, n - 1) {
      s := FindEqual(ws, w, n - 1, e);
    } else {
      s := n - 1;
    }
  }

  lemma {:induction false} FindLower(ws: seq<nat>, w: nat, e: nat) returns (s: nat)
    requires e < Lower(ws, w, |ws|)
    ensures Owns(ws, s, e)
  {
    s := 0;
    if w == 0 {
      LowerOfZero(ws, |ws|);
    } else {
      LowerStep(ws, w - 1, |ws|);
      if e < Lower(ws, w - 1, |ws|) {
        s := FindLower(ws, w - 1, e);
      } else {
        s := FindEqual(ws, w - 1, |ws|, e - Lower(ws, w - 1, |ws|));
      }
    }
  }

  lemma {:induction false} LowerOfZero(ws: seq<nat>, n: nat)
    requires n <= |ws|
    ensures Lower(ws, 0, n) == 0
  {
    if n > 0 {
      LowerOfZero(ws, n - 1);
    }
  }

  /** Weights whose entries add up to a table of 2^bits entries. */
  ghost predicate Complete(ws: seq<nat>, bits: nat) {
    (forall i | 0 <= i < |ws| :: ws[i] <= bits) && Mask(ws, |ws|) == Pow2(bits)
  }

  /** Every entry is owned by exactly one symbol. */
  lemma RunsCover(ws: seq<nat>, bits: nat, e: nat) returns (s: nat)
    requires Complete(ws, bits) && e < Pow2(bits)
    ensures Owns(ws, s, e)
    ensures forall t: nat | Owns(ws, t, e) :: t == s
  {
    LowerAll(ws, bits + 1, |ws|);
    s := FindLower(ws, bits + 1, e);
    forall t: nat | Owns(ws, t, e)
      ensures t == s
    {
      RunsDisjoint(ws, s, t, e);
    }
  }

  // ---- Runs are aligned, so the table is a prefix code

  lemma {:induction false} LowOfEqual(ws: seq<nat>, w: nat, n: nat, x: nat)
    requires n <= |ws| && w > 0
    ensures Low(x + Equal(ws, w, n), w - 1) == Low(x, w - 1)
  {
    if n > 0 {
      LowOfEqual(ws, w, n - 1, x);
      AddPow(x + Equal(ws, w, n - 1), w - 1, w - 1);
    }
  }

  /** The symbols of weight w or more own a multiple of 2^(w-1) entries. */
  lemma {:induction false} LowOfRest(ws: seq<nat>, w: nat, n: nat, x: nat)
    requires n <= |ws| && w > 0
    ensures Lower(ws, w, n) <= Mask(ws, n)
    ensures Low(x + (Mask(ws, n) - Lower(ws, w, n)), w - 1) == Low(x, w - 1)
  {
    if n > 0 {
      LowOfRest(ws, w, n - 1, x);
      if ws[n - 1] >= w {
        var y := x + (Mask(ws, n - 1) - Lower(ws, w, n - 1));
        AddPow(y, ws[n - 1] - 1, w - 1);
      }
    }
  }

  lemma LowOfPow(m: nat, k: nat)
    requires k <= m
    ensures Low(Pow2(m), k) == 0
  {
    AddPow(0, m, k);
    LowSmall(0, k);
  }

  lemma StartAligned(ws: seq<nat>, bits: nat, s: nat)
    requires Complete(ws, bits) && s < |ws| && ws[s] > 0
    ensures Low(Start(ws, s), ws[s] - 1) == 0
  {
    var w := ws[s];
    LowOfRest(ws, w, |ws|, Lower(ws, w, |ws|));
    LowOfPow(bits, w - 1);
    LowOfEqual(ws, w, s, Lower(ws, w, |ws|));
  }

  /** The code of symbol s: the leading bits + 1 - weight bits of its entries. */
  function CodeOf(ws: seq<nat>, s: nat): nat
    requires s < |ws| && ws[s] > 0
  {
    Shr(Start(ws, s), ws[s] - 1)
  }

  /** A symbol owns exactly the entries that start with its code. */
  lemma OwnsIffCode(ws: seq<nat>, bits: nat, s: nat, e: nat)
    requires Complete(ws, bits) && s < |ws| && ws[s] > 0
    ensures Owns(ws, s, e) <==> Shr(e, ws[s] - 1) == CodeOf(ws, s)
  {
    var k, a := ws[s] - 1, Start(ws, s);
    StartAligned(ws, bits, s);
    ShlShr(a, k);
    ShlShr(e, k);
    if Owns(ws, s, e) {
      LowOfSum(e - a, Shr(a, k), k);
    }
  }

  // ---- Adding up the weights

  ghost predicate Marks(mark: seq<nat>, ws: seq<nat>, n: nat) {
    n <= |ws| && |mark| == MAX_WEIGHT + 1 && forall w: nat | w <= MAX_WEIGHT :: mark[w] == Count(ws, w, n)
  }

  lemma MarkStep(mark: seq<nat>, ws: seq<nat>, n: nat)
    requires Marks(mark, ws, n) && n < |ws| && ws[n] <= MAX_WEIGHT
    ensures Marks(mark[ws[n] := mark[ws[n]] + 1], ws, n + 1)
  {
  }

  /** Counts the weights and adds up their entries; fails on a weight above 12. */
  method SumWeights(ws: seq<nat>, mark: array<nat>) returns (ok: bool, mask: nat)
    requires mark.Length == MAX_WEIGHT + 1
    modifies mark
    ensures ok <==> forall i | 0 <= i < |ws| :: ws[i] <= MAX_WEIGHT
    ensures ok ==> mask == Mask(ws, |ws|) && Marks(mark[..], ws, |ws|)
  {
    forall w | 0 <= w <= MAX_WEIGHT {
      mark[w] := 0;
    }
    mask := 0;
    assert Marks(mark[..], ws, 0);
    hide Marks;
    for i: nat := 0 to |ws|
      invariant forall j | 0 <= j < i :: ws[j] <= MAX_WEIGHT
      invariant mask == Mask(ws, i) && Marks(mark[..], ws, i)
    {
      var w := ws[i];
      if w > MAX_WEIGHT {
        return false, mask;
      }
      ghost var before := mark[..];
      MarkStep(before, ws, i);
      mark[w] := mark[w] + 1;
      assert mark[..] == before[w := before[w] + 1];
      if w > 0 {
        mask := mask + Pow2(w - 1);
      }
    }
    return true, mask;
  }

  /** A power of two is missing to fill the least table with room for more than mask entries, at most 2^11. */
  ghost predicate Completable(mask: nat) {
    mask > 0 && Log2(mask) < MAX_TABLE_BITS && exists n: nat :: Pow2(n) == Pow2(Log2(mask) + 1) - mask
  }

  /** The weight that is left out: the one that completes the sum to a power of two. */
  method LastWeight(mask: nat) returns (ok: bool, bits: nat, last: nat)
    ensures ok ==> mask > 0 && 0 < last <= bits <= MAX_TABLE_BITS && mask + Entries(last) == Pow2(bits)
    ensures ok ==> mask < Pow2(bits) <= 2 * mask
    ensures ok <==> Completable(mask)
  {
    bits, last := 0, 0;
    if mask == 0 {
      return false, bits, last;
    }
    bits := Log2(mask) + 1;
    if bits > MAX_TABLE_BITS {
      return false, bits, last;
    }
    Log2Bounds(mask);
    var left := Pow2(bits) - mask;
    var high := Log2(left);
    Log2Bounds(left);
    if Pow2(high) != left {
      forall n: nat
        ensures Pow2(n) != left
      {
        if Pow2(n) == left { Log2Unique(left, n); }
      }
      return false, bits, last;
    }
    if high >= bits {
      Pow2Mono(bits, high);
    }
    return true, bits, high + 1;
  }

  // ---- The first entry of each weight

  lemma {:induction false} ShlNext(x: nat, k: nat)
    ensures Shl(x + 1, k) == Shl(x, k) + Pow2(k) && Shl(0, k) == 0
  {
    if k > 0 {
      ShlNext(x, k - 1);
    }
  }

  lemma {:induction false} EqualIsShl(ws: seq<nat>, w: nat, n: nat)
    requires n <= |ws| && w > 0
    ensures Equal(ws, w, n) == Shl(Count(ws, w, n), w - 1)
  {
    ShlNext(0, w - 1);
    if n > 0 {
      EqualIsShl(ws, w, n - 1);
      ShlNext(Count(ws, w, n - 1), w - 1);
    }
  }

  /** Below w, mark holds the entries of smaller weights; from w on, still the counts. */
  ghost predicate PartStarts(mark: seq<nat>, ws: seq<nat>, w: nat) {
    |mark| == MAX_WEIGHT + 1
    && forall v: nat | 0 < v <= MAX_WEIGHT ::
         mark[v] == if v < w then Lower(ws, v, |ws|) else Count(ws, v, |ws|)
  }

  lemma LowerOfOne(ws: seq<nat>)
    ensures Lower(ws, 1, |ws|) == 0
  {
    LowerStep(ws, 0, |ws|);
    LowerOfZero(ws, |ws|);
    EqualOfZero(ws, |ws|);
  }

  lemma {:induction false} EqualOfZero(ws: seq<nat>, n: nat)
    requires n <= |ws|
    ensures Equal(ws, 0, n) == 0
  {
    if n > 0 {
      EqualOfZero(ws, n - 1);
    }
  }

  /** Changes mark from counts to the first entry of each weight. */
  method FirstEntries(ghost ws: seq<nat>, bits: nat, mark: array<nat>)
    requires bits <= MAX_TABLE_BITS && mark.Length == MAX_WEIGHT + 1 && Marks(mark[..], ws, |ws|)
    modifies mark
    ensures PartStarts(mark[..], ws, bits + 1)
  {
    LowerOfOne(ws);
    hide Lower, Count;
    var next := 0;
    for i: nat := 0 to bits
      invariant next == Lower(ws, i + 1, |ws|) && PartStarts(mark[..], ws, i + 1)
    {
      assert mark[i + 1] == mark[..][i + 1];
      LowerStep(ws, i + 1, |ws|);
      EqualIsShl(ws, i + 1, |ws|);
      var cur := next;
      next := next + Shl(mark[i + 1], i);
      mark[i + 1] := cur;
    }
  }

  // ---- Filling the table

  /** What the entries of symbol s hold: the symbol, and the length of its code. */
  function TableEntry(s: nat, w: nat, bits: nat): uint16
    requires s < 256 && 0 < w <= bits <= MAX_TABLE_BITS
  {
    s * 256 + (bits + 1 - w)
  }

  ghost predicate FilledTo(table: seq<uint16>, ws: seq<nat>, bits: nat, n: nat) {
    && n <= |ws| <= 256 && bits <= MAX_TABLE_BITS && Complete(ws, bits)
    && forall s: nat, e: nat | s < n && Owns(ws, s, e) :: e < |table| && table[e] == TableEntry(s, ws[s], bits)
  }

  ghost predicate StartsAt(mark: seq<nat>, ws: seq<nat>, bits: nat, n: nat) {
    |mark| == MAX_WEIGHT + 1 && n <= |ws|
    && forall w: nat | 0 < w <= bits <= MAX_TABLE_BITS :: mark[w] == Lower(ws, w, |ws|) + Equal(ws, w, n)
  }

  lemma RunInTable(ws: seq<nat>, bits: nat, s: nat)
    requires Complete(ws, bits) && s < |ws| && ws[s] > 0
    ensures Start(ws, s) + Entries(ws[s]) <= Pow2(bits)
  {
    EqualMono(ws, ws[s], s, |ws|);
    LowerStep(ws, ws[s], |ws|);
    LowerMono(ws, ws[s] + 1, bits + 1);
    LowerAll(ws, bits + 1, |ws|);
  }

  lemma FillStep(old': seq<uint16>, table: seq<uint16>, ws: seq<nat>, bits: nat, n: nat)
    requires FilledTo(old', ws, bits, n) && n < |ws| && ws[n] > 0 && |table| == |old'| >= Pow2(bits)
    requires forall e: nat | e < |table| ::
      table[e] == if Owns(ws, n, e) then TableEntry(n, ws[n], bits) else old'[e]
    ensures FilledTo(table, ws, bits, n + 1)
  {
    hide Mask, Start, Entries;
    forall s: nat, e: nat | s < n + 1 && Owns(ws, s, e)
      ensures e < |table| && table[e] == TableEntry(s, ws[s], bits)
    {
      if s < n {
        if Owns(ws, n, e) { RunsDisjoint(ws, s, n, e); }
      } else {
        RunInTable(ws, bits, n);
        OwnsBelow(ws, n, e);
      }
    }
  }

  lemma OwnsBelow(ws: seq<nat>, s: nat, e: nat)
    requires Owns(ws, s, e)
    ensures e < Start(ws, s) + Entries(ws[s])
  {
  }

  /** Stores the run of symbol i. */
  method FillRun(table: array<uint16>, start: nat, length: nat, tval: uint16)
    requires start + length <= table.Length
    modifies table
    ensures forall e: nat | e < table.Length ::
      table[e] == if start <= e < start + length then tval else old(table[e])
  {
    for j: nat := 0 to length
      invariant forall e: nat | e < table.Length ::
        table[e] == if start <= e < start + j then tval else old(table[e])
    {
      table[start + j] := tval;
    }
  }

  method FillSymbol(ws: seq<nat>, bits: nat, i: nat, mark: array<nat>, table: array<uint16>)
    requires mark.Length == MAX_WEIGHT + 1 && table.Length >= Pow2(bits) && i < |ws|
    requires FilledTo(table[..], ws, bits, i) && StartsAt(mark[..], ws, bits, i)
    modifies mark, table
    ensures FilledTo(table[..], ws, bits, i + 1) && StartsAt(mark[..], ws, bits, i + 1)
  {
    var w := ws[i];
    if w == 0 {
      ZeroStep(table[..], mark[..], ws, bits, i);
      return;
    }
    ghost var old', mark0 := table[..], mark[..];
    StartOf(mark0, old', ws, bits, i);
    assert mark[w] == mark0[w];
    RunInTable(ws, bits, i);
    hide FilledTo, StartsAt, Start, Pow2;
    var length := Pow2(w - 1);
    FillRun(table, mark[w], length, TableEntry(i, w, bits));
    mark[w] := mark[w] + length;
    assert forall e: nat | e < table.Length ::
      table[..][e] == if Owns(ws, i, e) then TableEntry(i, ws[i], bits) else old'[e];
    FillStep(old', table[..], ws, bits, i);
    assert mark[..] == mark0[w := mark0[w] + length];
    StartsStep(mark0, ws, bits, i);
  }

  lemma StartOf(mark: seq<nat>, table: seq<uint16>, ws: seq<nat>, bits: nat, i: nat)
    requires FilledTo(table, ws, bits, i) && StartsAt(mark, ws, bits, i) && i < |ws| && ws[i] > 0
    ensures 0 < ws[i] <= bits <= MAX_TABLE_BITS && |ws| <= 256 && Complete(ws, bits) && mark[ws[i]] == Start(ws, i)
  {
  }

  lemma StartsStep(mark: seq<nat>, ws: seq<nat>, bits: nat, i: nat)
    requires StartsAt(mark, ws, bits, i) && i < |ws| && 0 < ws[i] <= MAX_WEIGHT
    ensures StartsAt(mark[ws[i] := mark[ws[i]] + Entries(ws[i])], ws, bits, i + 1)
  {
  }

  lemma ZeroStep(table: seq<uint16>, mark: seq<nat>, ws: seq<nat>, bits: nat, i: nat)
    requires FilledTo(table, ws, bits, i) && StartsAt(mark, ws, bits, i) && i < |ws| && ws[i] == 0
    ensures FilledTo(table, ws, bits, i + 1) && StartsAt(mark, ws, bits, i + 1)
  {
    assert forall e: nat :: !Owns(ws, i, e);
    hide Complete, Start, Lower;
  }

  // ---- The whole table

  /** The weights that the table builder accepts: none above 12, one more weight completes them, that makes fewer
      than 257 of them, and at least two have the longest code. */
  ghost predicate Acceptable(ws: seq<nat>) {
    && |ws| < 256 && (forall i | 0 <= i < |ws| :: ws[i] <= MAX_WEIGHT) && Completable(Mask(ws, |ws|))
    && forall last: nat | Mask(ws, |ws|) + Entries(last) == Pow2(Log2(Mask(ws, |ws|)) + 1) ::
         Count(ws + [last], 1, |ws| + 1) >= 2
  }

  lemma {:induction false} MaskPrefix(ws: seq<nat>, x: nat, n: nat)
    requires n <= |ws|
    ensures Mask(ws + [x], n) == Mask(ws, n)
  {
    if n > 0 {
      MaskPrefix(ws, x, n - 1);
    }
  }

  lemma {:induction false} CountPrefix(ws: seq<nat>, x: nat, w: nat, n: nat)
    requires n <= |ws|
    ensures Count(ws + [x], w, n) == Count(ws, w, n)
  {
    if n > 0 {
      CountPrefix(ws, x, w, n - 1);
    }
  }

  lemma {:induction false} MaskAt(ws: seq<nat>, i: nat, n: nat)
    requires i < n <= |ws|
    ensures Entries(ws[i]) <= Mask(ws, n)
  {
    if i < n - 1 {
      MaskAt(ws, i, n - 1);
    }
  }

  /** With the last weight the weights are complete. */
  lemma CompleteWith(ws: seq<nat>, last: nat, bits: nat)
    requires 0 < last <= bits && Mask(ws, |ws|) + Entries(last) == Pow2(bits) && Mask(ws, |ws|) < Pow2(bits)
    ensures Complete(ws + [last], bits)
  {
    var all := ws + [last];
    MaskPrefix(ws, last, |ws|);
    hide Pow2;
    forall i | 0 <= i < |all|
      ensures all[i] <= bits
    {
      if i < |ws| {
        WeightBound(ws, i, bits);
      }
    }
  }

  lemma WeightBound(ws: seq<nat>, i: nat, bits: nat)
    requires i < |ws| && Mask(ws, |ws|) < Pow2(bits)
    ensures ws[i] <= bits
  {
    MaskAt(ws, i, |ws|);
    if ws[i] > bits {
      Pow2Mono(bits, ws[i] - 1);
    }
  }

  /** Complete weights have an even number of longest codes. */
  lemma EvenOnes(ws: seq<nat>, bits: nat)
    requires Complete(ws, bits) && bits > 0
    ensures Count(ws, 1, |ws|) % 2 == 0
  {
    LowOfRest(ws, 2, |ws|, Lower(ws, 2, |ws|));
    LowOfPow(bits, 1);
    LowerStep(ws, 1, |ws|);
    LowerOfOne(ws);
    EqualIsShl(ws, 1, |ws|);
    assert Low(Count(ws, 1, |ws|), 1) == Count(ws, 1, |ws|) % 2;
  }

  lemma EntriesUnique(a: nat, b: nat)
    requires Entries(a) == Entries(b) > 0
    ensures a == b
  {
    Log2Unique(Entries(a), a - 1);
    Log2Unique(Entries(b), b - 1);
  }

  /** Fills the table from complete weights. */
  method FillTable(ws: seq<nat>, bits: nat, mark: array<nat>, table: array<uint16>)
    requires |ws| <= 256 && bits <= MAX_TABLE_BITS && Complete(ws, bits) && table.Length >= Pow2(bits)
    requires mark.Length == MAX_WEIGHT + 1 && Marks(mark[..], ws, |ws|)
    modifies mark, table
    ensures FilledTo(table[..], ws, bits, |ws|)
  {
    hide Complete, Marks, PartStarts, FilledTo, StartsAt, Pow2;
    FirstEntries(ws, bits, mark);
    FillStart(mark[..], table[..], ws, bits);
    for i: nat := 0 to |ws|
      invariant FilledTo(table[..], ws, bits, i) && StartsAt(mark[..], ws, bits, i)
    {
      FillSymbol(ws, bits, i, mark, table);
    }
  }

  lemma FillStart(mark: seq<nat>, table: seq<uint16>, ws: seq<nat>, bits: nat)
    requires |ws| <= 256 && bits <= MAX_TABLE_BITS && Complete(ws, bits) && PartStarts(mark, ws, bits + 1)
    ensures FilledTo(table, ws, bits, 0) && StartsAt(mark, ws, bits, 0)
  {
  }

  /** From the weights that were read, all but the last: the table of a complete prefix code. */
  method BuildHuffTable(weights: seq<nat>, mark: array<nat>, table: array<uint16>)
    returns (ok: bool, bits: nat, all: seq<nat>)
    requires mark.Length == MAX_WEIGHT + 1 && table.Length == 2048
    modifies mark, table
    ensures ok ==> |all| == |weights| + 1 && weights < all && FilledTo(table[..], all, bits, |all|)
    ensures ok <==> Acceptable(weights)
  {
    hide Marks, Complete, Mask, Count, Log2, Pow2, FilledTo, Completable;
    bits, all := 0, [];
    var mask, last;
    ok, mask := SumWeights(weights, mark);
    if !ok {
      return;
    }
    ok, bits, last := LastWeight(mask);
    if !ok || |weights| >= 256 {
      ok := false;
      return;
    }
    all := weights + [last];
    ghost var mark0 := mark[..];
    CompleteWith(weights, last, bits);
    EvenOnes(all, bits);
    MarksWithLast(mark0, weights, last);
    LastOnly(mask, bits, last);
    mark[last] := mark[last] + 1;
    assert mark[..] == mark0[last := mark0[last] + 1];
    MarkOne(mark[..], all);
    assert mark[1] == mark[..][1];
    if mark[1] < 2 || mark[1] % 2 != 0 {
      ok := false;
      return;
    }
    TableRoom(bits);
    FillTable(all, bits, mark, table);
  }

  lemma TableRoom(bits: nat)
    requires bits <= MAX_TABLE_BITS
    ensures Pow2(bits) <= 2048
  {
    Pow2Mono(bits, 11);
    assert Pow2(8) == 256 && Pow2(11) == 2048;
  }

  lemma MarkOne(mark: seq<nat>, ws: seq<nat>)
    requires Marks(mark, ws, |ws|)
    ensures |mark| == MAX_WEIGHT + 1 && mark[1] == Count(ws, 1, |ws|)
  {
  }

  lemma MarksWithLast(mark: seq<nat>, ws: seq<nat>, last: nat)
    requires Marks(mark, ws, |ws|) && last <= MAX_WEIGHT
    ensures Marks(mark[last := mark[last] + 1], ws + [last], |ws| + 1)
  {
    forall w: nat | w <= MAX_WEIGHT
      ensures Count(ws + [last], w, |ws|) == Count(ws, w, |ws|)
    {
      CountPrefix(ws, last, w, |ws|);
    }
    MarkStep(mark, ws + [last], |ws|);
  }

  /** The last weight is determined by the sum of the others. */
  lemma LastOnly(mask: nat, bits: nat, last: nat)
    requires mask > 0 && 0 < last && mask + Entries(last) == Pow2(bits) && mask < Pow2(bits) <= 2 * mask
    ensures bits == Log2(mask) + 1
    ensures forall x: nat | mask + Entries(x) == Pow2(Log2(mask) + 1) :: x == last
  {
    Log2Unique(mask, bits - 1);
    forall x: nat | mask + Entries(x) == Pow2(Log2(mask) + 1)
      ensures x == last
    {
      EntriesUnique(x, last);
    }
  }

  /** Every index into the finished table starts with exactly one code, and its entry is that symbol's. */
  lemma EntryDecodes(table: seq<uint16>, ws: seq<nat>, bits: nat, e: nat) returns (s: nat)
    requires FilledTo(table, ws, bits, |ws|) && e < Pow2(bits)
    ensures s < |ws| && 0 < ws[s] <= bits && e < |table| && table[e] == TableEntry(s, ws[s], bits)
    ensures forall t: nat | t < |ws| && ws[t] > 0 :: Shr(e, ws[t] - 1) == CodeOf(ws, t) <==> t == s
  {
    s := RunsCover(ws, bits, e);
    forall t: nat | t < |ws| && ws[t] > 0
      ensures Shr(e, ws[t] - 1) == CodeOf(ws, t) <==> t == s
    {
      OwnsIffCode(ws, bits, t, e);
    }
  }
}
