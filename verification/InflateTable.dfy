/** elf_zlib_inflate_table: the two-level Huffman decoding table, and the lookup that reads it. */
module InflateTable {
  import opened Bits
  import opened Counting
  import opened HuffmanCode

  const TABLE_SIZE: nat := 1024
  const PRIMARY: nat := 0x100
  /** Room for code lengths in the work area: 286 literal/length codes and 30 distance codes. */
  const MAX_CODES: nat := 316

  // An entry is nine bits of value, three bits of size and a bit that marks a secondary table.

  function ValueOf(t: uint16): (v: nat) ensures v < 512 { t % 512 }

  function BitsOf(t: uint16): (b: nat) ensures b < 8 { (t / 512) % 8 }

  predicate IsSecondary(t: uint16) { (t / 4096) % 2 == 1 }

  function Entry(value: nat, bits: nat, secondary: bool): (t: uint16)
    requires value < 512 && bits < 8
    ensures ValueOf(t) == value && BitsOf(t) == bits && IsSecondary(t) == secondary
    ensures t == 0 <==> value == 0 && bits == 0 && !secondary
  {
    value + bits * 512 + (if secondary then 4096 else 0)
  }

  /** The entry that stands for symbol s with a code of length len. */
  function SymbolEntry(s: nat, len: nat): uint16
    requires s < 512 && 0 < len <= MAX_BITS
  {
    Entry(s, if len <= 8 then len - 1 else len - 8, false)
  }

  datatype Decoded = Decoded(symbol: nat, length: nat)

  /** Decode one symbol from the unread bits. */
  function Lookup(table: seq<uint16>, val: nat): Decoded
    requires |table| == TABLE_SIZE
  {
    var t := table[Index(val)];
    var b := BitsOf(t);
    if !IsSecondary(t) then Decoded(ValueOf(t), b + 1)
    else
      var t' := table[SecondIndex(ValueOf(t), Shr(val, 8), b)];
      Decoded(ValueOf(t'), BitsOf(t') + 8)
  }

  function Index(val: nat): (p: nat)
    ensures p < PRIMARY
  {
    Pow2Of8();
    Low(val, 8)
  }

  function SecondIndex(offset: nat, rest: nat, b: nat): (p: nat)
    requires offset < 512 && b < 8
    ensures PRIMARY <= p < TABLE_SIZE
  {
    Pow2Of8();
    Pow2Mono(b, 8);
    offset + PRIMARY + Low(rest, b)
  }

  /** The table decodes every bit string that starts with a canonical code. */
  ghost predicate Decodes(table: seq<uint16>, lens: seq<nat>)
    requires |table| == TABLE_SIZE
  {
    forall s: nat, v: nat :: Matches(lens, s, v) ==> Lookup(table, v) == Decoded(s, lens[s])
  }

  // ---- Counting the lengths and linking the symbols of each length

  /** The rank of symbol x among those with its length. */
  function Rank(lens: seq<nat>, x: nat): nat
    requires x < |lens|
  {
    Count(lens, lens[x], x)
  }

  ghost predicate IsNext(lens: seq<nat>, n: nat, x: nat, y: nat)
    requires x < n <= |lens|
  {
    y < n && lens[y] == lens[x] && Rank(lens, y) == Rank(lens, x) + 1
  }

  /** start and next thread the first n symbols by length, in order. */
  ghost predicate Linked(lens: seq<nat>, n: nat, count: seq<uint16>, start: seq<uint16>, next: seq<uint16>) {
    && n <= |lens| <= |next| && |count| == |start| == 16
    && (forall j: nat | j < 16 :: count[j] == Count(lens, j, n))
    && (forall j: nat | j < 16 && count[j] > 0 :: start[j] < n && lens[start[j]] == j && Rank(lens, start[j]) == 0)
    && (forall x: nat {:trigger next[x]} | x < n && Rank(lens, x) + 1 < Count(lens, lens[x], n) ::
          IsNext(lens, n, x, next[x]))
  }

  /** prev holds the latest symbol of each length. */
  ghost predicate Latest(lens: seq<nat>, n: nat, count: seq<uint16>, prev: seq<uint16>) {
    && n <= |lens| && |count| == |prev| == 16
    && forall j: nat | j < 16 && count[j] > 0 ::
      prev[j] < n && lens[prev[j]] == j && Rank(lens, prev[j]) + 1 == count[j]
  }

  /** start' and next' are start and next after symbol n has been appended to the list of its length. */
  ghost predicate Appended(lens: seq<nat>, n: nat, count: seq<uint16>, start: seq<uint16>, prev: seq<uint16>,
                           next: seq<uint16>, start': seq<uint16>, next': seq<uint16>)
    requires Linked(lens, n, count, start, next) && Latest(lens, n, count, prev)
    requires n < |lens| <= MAX_CODES && lens[n] < 16
  {
    if count[lens[n]] == 0 then start' == start[lens[n] := n as uint16] && next' == next
    else start' == start && next' == next[prev[lens[n]] := n as uint16]
  }

  /** The effect of linking n after p, the latest symbol of its length, on the link of symbol x. */
  lemma NextStep(lens: seq<nat>, n: nat, p: nat, next: seq<uint16>, x: nat)
    requires p < n < |lens| <= |next| && n < 0x10000 && x <= n
    requires lens[p] == lens[n] && Rank(lens, p) + 1 == Rank(lens, n)
    requires x < n && Rank(lens, x) + 1 < Count(lens, lens[x], n) ==> IsNext(lens, n, x, next[x])
    requires Rank(lens, x) + 1 < Count(lens, lens[x], n + 1)
    ensures IsNext(lens, n + 1, x, next[p := n as uint16][x])
  {
    if lens[x] == lens[n] && Rank(lens, x) + 1 == Rank(lens, n) {
      RankUnique(lens, x, p);
    }
  }

  lemma LinkStep(lens: seq<nat>, n: nat, count: seq<uint16>, start: seq<uint16>, prev: seq<uint16>, next: seq<uint16>,
                 start': seq<uint16>, next': seq<uint16>)
    requires Linked(lens, n, count, start, next) && Latest(lens, n, count, prev)
    requires n < |lens| <= MAX_CODES && lens[n] < 16 && count[lens[n]] < MAX_CODES
    requires Appended(lens, n, count, start, prev, next, start', next')
    ensures Linked(lens, n + 1, count[lens[n] := count[lens[n]] + 1], start', next')
  {
    forall x: nat | x < n + 1 && Rank(lens, x) + 1 < Count(lens, lens[x], n + 1)
      ensures IsNext(lens, n + 1, x, next'[x])
    {
      if count[lens[n]] > 0 {
        NextStep(lens, n, prev[lens[n]], next, x);
      } else {
        assert IsNext(lens, n, x, next[x]);
      }
    }
  }

  lemma LatestStep(lens: seq<nat>, n: nat, count: seq<uint16>, start: seq<uint16>, prev: seq<uint16>, next: seq<uint16>)
    requires Linked(lens, n, count, start, next) && Latest(lens, n, count, prev)
    requires n < |lens| <= MAX_CODES && lens[n] < 16 && count[lens[n]] < MAX_CODES
    ensures Latest(lens, n + 1, count[lens[n] := count[lens[n]] + 1], prev[lens[n] := n as uint16])
  {
  }

  lemma LatestAt(lens: seq<nat>, n: nat, count: seq<uint16>, start: seq<uint16>, prev: seq<uint16>, next: seq<uint16>,
                 j: nat)
    requires Linked(lens, n, count, start, next) && Latest(lens, n, count, prev) && j < 16
    ensures count[j] == Count(lens, j, n)
    ensures count[j] > 0 ==> prev[j] < n
  {
  }

  lemma LinkedEmpty(lens: seq<nat>, count: seq<uint16>, start: seq<uint16>, prev: seq<uint16>, next: seq<uint16>)
    requires |lens| <= |next| && |count| == |start| == |prev| == 16 && forall j | 0 <= j < 16 :: count[j] == 0
    ensures Linked(lens, 0, count, start, next) && Latest(lens, 0, count, prev)
  {
  }

  lemma RankUnique(lens: seq<nat>, x: nat, y: nat)
    requires x < |lens| && y < |lens| && lens[x] == lens[y]
    requires Rank(lens, x) == Rank(lens, y)
    ensures x == y
  {
    if x < y {
      CountStrict(lens, lens[x], x, y);
    } else if y < x {
      CountStrict(lens, lens[x], y, x);
    }
  }

  /** Appends symbol i to the list of its length. */
  method LinkSymbol(codes: seq<nat>, i: nat, count: array<uint16>, start: array<uint16>, prev: array<uint16>,
                    next: array<uint16>)
    requires i < |codes| <= MAX_CODES && codes[i] < 16
    requires count.Length == start.Length == prev.Length == 16 && |codes| <= next.Length
    requires count != start && count != prev && count != next && start != prev && start != next && prev != next
    requires Linked(codes, i, count[..], start[..], next[..]) && Latest(codes, i, count[..], prev[..])
    modifies count, start, prev, next
    ensures Linked(codes, i + 1, count[..], start[..], next[..])
    ensures Latest(codes, i + 1, count[..], prev[..])
  {
    var c := codes[i];
    ghost var count0, start0, prev0, next0 := count[..], start[..], prev[..], next[..];
    LatestAt(codes, i, count0, start0, prev0, next0, c);
    hide Linked, Latest;
    if count[c] == 0 {
      start[c] := i;
      assert start[..] == start0[c := i as uint16];
    } else {
      next[prev[c]] := i;
      assert next[..] == next0[prev0[c] := i as uint16];
    }
    prev[c] := i;
    assert prev[..] == prev0[c := i as uint16];
    count[c] := count[c] + 1;
    assert count[..] == count0[c := count0[c] + 1];
    LinkStep(codes, i, count0, start0, prev0, next0, start[..], next[..]);
    LatestStep(codes, i, count0, start0, prev0, next0);
  }

  /** Counts the codes of each length and links the symbols that share one. */
  method LinkByLength(codes: seq<nat>, next: array<uint16>)
    returns (ok: bool, count: array<uint16>, start: array<uint16>)
    requires |codes| <= MAX_CODES && |codes| <= next.Length
    modifies next
    ensures fresh(count) && fresh(start) && count.Length == start.Length == 16
    ensures ok <==> forall i | 0 <= i < |codes| :: codes[i] < 16
    ensures ok ==> Linked(codes, |codes|, count[..], start[..], next[..])
  {
    hide Linked, Latest;
    count := new uint16[16](_ => 0);
    start := new uint16[16];
    var prev := new uint16[16];
    LinkedEmpty(codes, count[..], start[..], prev[..], next[..]);
    for i := 0 to |codes|
      invariant forall x | 0 <= x < i :: codes[x] < 16
      invariant Linked(codes, i, count[..], start[..], next[..])
      invariant Latest(codes, i, count[..], prev[..])
    {
      if codes[i] >= 16 {
        return false, count, start;
      }
      LinkSymbol(codes, i, count, start, prev, next);
    }
    return true, count, start;
  }

  // ---- Filling entries at a stride

  /** table with tval at base + x for every x below limit whose low j bits are first. */
  ghost predicate Filled(old': seq<uint16>, table: seq<uint16>, base: nat, limit: nat, first: nat, j: nat,
                         tval: uint16) {
    && |old'| == |table|
    && forall x: nat | x < |table| ::
         table[x] == if InStride(x, base, limit, first, j) then tval else old'[x]
  }

  predicate InStride(x: nat, base: nat, limit: nat, first: nat, j: nat) {
    base <= x < base + limit && Low(x - base, j) == first
  }

  /** Stores tval in every entry that the code selects, whatever the bits after it; fails on a used entry. */
  method FillStride(table: array<uint16>, base: nat, limit: nat, first: nat, j: nat, tval: uint16) returns (ok: bool)
    requires base + limit <= table.Length && first < Pow2(j)
    modifies table
    ensures ok ==> Filled(old(table[..]), table[..], base, limit, first, j, tval)
    ensures ok <==> forall x: nat | x < table.Length && InStride(x, base, limit, first, j) :: old(table[x]) == 0
  {
    var ind := first;
    LowSmall(first, j);
    forall x: nat | x < base + ind
      ensures !InStride(x, base, limit, first, j)
    {
      if x >= base { LowLess(x - base, j); }
    }
    while ind < limit
      invariant Low(ind, j) == first
      invariant forall x: nat | x < table.Length ::
          table[x] == if InStride(x, base, limit, first, j) && x < base + ind then tval else old(table[x])
      invariant forall x: nat | x < base + ind && InStride(x, base, limit, first, j) :: old(table[x]) == 0
    {
      if table[base + ind] != 0 {
        return false;
      }
      table[base + ind] := tval;
      AddPow(ind, j, j);
      forall x: nat | InStride(x, base, limit, first, j) && base + ind <= x < base + ind + Pow2(j)
        ensures x == base + ind
      {
        LowGap(x - base, ind, j);
      }
      ind := ind + Pow2(j);
    }
    return true;
  }

  // ---- Codes of up to eight bits: the primary table

  /** Symbol s comes before the i-th symbol of length j in code order. */
  predicate Before(lens: seq<nat>, s: nat, j: nat, i: nat) {
    s < |lens| && 0 < lens[s] && (lens[s] < j || (lens[s] == j && Rank(lens, s) < i))
  }

  /** Every primary entry whose index starts with the code of s stands for s. */
  ghost predicate DirectEntries(table: seq<uint16>, lens: seq<nat>, s: nat)
    requires |table| == TABLE_SIZE
  {
    s < |lens| && s < 512 && 0 < lens[s] <= 8
    && forall ind: nat | ind < PRIMARY && Matches(lens, s, ind) :: table[ind] == SymbolEntry(s, lens[s])
  }

  ghost predicate DirectTable(table: seq<uint16>, lens: seq<nat>, j: nat, i: nat) {
    && |table| == TABLE_SIZE && |lens| <= MAX_CODES && j <= 9
    && (j == 9 ==> i == 0)
    && (forall ind: nat | ind < PRIMARY :: !IsSecondary(table[ind]))
    && (forall s: nat | Before(lens, s, j, i) :: DirectEntries(table, lens, s))
  }

  /** Once the entries of a new symbol are in, those of the earlier ones are still there. */
  lemma DirectStep(old': seq<uint16>, table: seq<uint16>, lens: seq<nat>, s: nat, s': nat)
    requires Fits(lens) && |old'| == TABLE_SIZE && |lens| <= MAX_CODES
    requires s < |lens| && 0 < lens[s] <= 8 && s != s'
    requires Filled(old', table, 0, PRIMARY, Rev(lens[s], Code(lens, s)), lens[s], SymbolEntry(s, lens[s]))
    requires DirectEntries(old', lens, s')
    ensures DirectEntries(table, lens, s')
  {
    forall ind: nat | ind < PRIMARY && Matches(lens, s', ind)
      ensures table[ind] == SymbolEntry(s', lens[s'])
    {
      if InStride(ind, 0, PRIMARY, Rev(lens[s], Code(lens, s)), lens[s]) {
        PrefixFree(lens, s, s', ind);
      }
    }
  }

  lemma DirectTableStep(old': seq<uint16>, table: seq<uint16>, lens: seq<nat>, s: nat)
    requires s < |lens| && 0 < lens[s] <= 8
    requires Fits(lens) && DirectTable(old', lens, lens[s], Rank(lens, s))
    requires Filled(old', table, 0, PRIMARY, Rev(lens[s], Code(lens, s)), lens[s], SymbolEntry(s, lens[s]))
    ensures DirectTable(table, lens, lens[s], Rank(lens, s) + 1)
  {
    forall s': nat | Before(lens, s', lens[s], Rank(lens, s) + 1)
      ensures DirectEntries(table, lens, s')
    {
      if lens[s'] == lens[s] && Rank(lens, s') == Rank(lens, s) {
        RankUnique(lens, s, s');
      } else {
        assert Before(lens, s', lens[s], Rank(lens, s));
        DirectStep(old', table, lens, s, s');
      }
    }
  }

  lemma DirectTableEmpty(table: seq<uint16>, lens: seq<nat>)
    requires |table| == TABLE_SIZE && |lens| <= MAX_CODES && forall x | 0 <= x < TABLE_SIZE :: table[x] == 0
    ensures DirectTable(table, lens, 1, 0)
  {
  }

  /** With no symbol of length j left, the next length can start. */
  lemma DirectTableNext(table: seq<uint16>, lens: seq<nat>, j: nat)
    requires j <= 8 && DirectTable(table, lens, j, Count(lens, j, |lens|))
    ensures DirectTable(table, lens, j + 1, 0)
  {
    forall s: nat | Before(lens, s, j + 1, 0)
      ensures DirectEntries(table, lens, s)
    {
      if lens[s] == j {
        CountStrict(lens, j, s, |lens|);
      }
      assert Before(lens, s, j, Count(lens, j, |lens|));
    }
  }

  /** Some symbol that was stored before the i-th one of length j has a code that index ind starts with. */
  ghost predicate HasOwner(lens: seq<nat>, j: nat, i: nat, ind: nat) {
    exists s: nat :: Before(lens, s, j, i) && Matches(lens, s, ind)
  }

  /** Only indices that start with a stored code are in use. */
  ghost predicate Owned(table: seq<uint16>, lens: seq<nat>, j: nat, i: nat) {
    && |table| == TABLE_SIZE && (forall ind: nat | ind < PRIMARY && table[ind] != 0 :: HasOwner(lens, j, i, ind))
    && forall x: nat | PRIMARY <= x < TABLE_SIZE :: table[x] == 0
  }

  lemma OwnedStep(old': seq<uint16>, table: seq<uint16>, lens: seq<nat>, s: nat)
    requires s < |lens| && 0 < lens[s] <= 8 && |lens| <= MAX_CODES && Owned(old', lens, lens[s], Rank(lens, s))
    requires Filled(old', table, 0, PRIMARY, Rev(lens[s], Code(lens, s)), lens[s], SymbolEntry(s, lens[s]))
    ensures Owned(table, lens, lens[s], Rank(lens, s) + 1)
  {
    hide Rev, Code, Low, Rank;
    forall ind: nat | ind < PRIMARY && table[ind] != 0
      ensures HasOwner(lens, lens[s], Rank(lens, s) + 1, ind)
    {
      if InStride(ind, 0, PRIMARY, Rev(lens[s], Code(lens, s)), lens[s]) {
        assert Before(lens, s, lens[s], Rank(lens, s) + 1) && Matches(lens, s, ind);
      } else {
        var t: nat :| Before(lens, t, lens[s], Rank(lens, s)) && Matches(lens, t, ind);
        assert Before(lens, t, lens[s], Rank(lens, s) + 1);
      }
    }
  }

  lemma OwnedEmpty(table: seq<uint16>, lens: seq<nat>)
    requires |table| == TABLE_SIZE && forall x | 0 <= x < TABLE_SIZE :: table[x] == 0
    ensures Owned(table, lens, 1, 0)
  {
  }

  /** With no symbol of length j left, the owners are those of shorter or equal length. */
  lemma OwnedNext(table: seq<uint16>, lens: seq<nat>, j: nat)
    requires Owned(table, lens, j, Count(lens, j, |lens|))
    ensures Owned(table, lens, j + 1, 0)
  {
    hide Count, Matches;
    forall ind: nat | ind < PRIMARY && table[ind] != 0
      ensures HasOwner(lens, j + 1, 0, ind)
    {
      var t: nat :| Before(lens, t, j, Count(lens, j, |lens|)) && Matches(lens, t, ind);
      assert Before(lens, t, j + 1, 0);
    }
  }

  /** The codes being prefix-free, the indices that start with a new code are not in use. */
  lemma NoClash(table: seq<uint16>, lens: seq<nat>, s: nat, x: nat)
    requires Fits(lens) && s < |lens| && 0 < lens[s] <= 8 && Owned(table, lens, lens[s], Rank(lens, s)) && x < |table|
    requires InStride(x, 0, PRIMARY, Rev(lens[s], Code(lens, s)), lens[s])
    ensures table[x] == 0
  {
    hide Rev, Code, Low, Rank, Fits;
    if table[x] != 0 {
      assert HasOwner(lens, lens[s], Rank(lens, s), x);
      var t: nat :| Before(lens, t, lens[s], Rank(lens, s)) && Matches(lens, t, x);
      PrefixFree(lens, s, t, x);
    }
  }

  /** Lengths that fit have at most 2^j codes of length j. */
  lemma CountFits(lens: seq<nat>, j: nat)
    requires Fits(lens) && 0 < j <= MAX_BITS
    ensures Count(lens, j, |lens|) <= Pow2(j)
  {
    EndBound(lens, j);
    EndFromFirst(lens, j);
  }

  lemma RevIncStep(j: nat, code: nat)
    requires j > 0
    ensures Low(code, j - 1) + Pow2(j - 1) < Pow2(j)
    ensures RevInc(j, Low(code, j)) ==
      if Shr(code, j - 1) % 2 == 1 then RevInc(j - 1, Low(code, j - 1)) else Low(code, j - 1) + Pow2(j - 1)
  {
    LowTop(code, j - 1);
  }

  /** The next code in reverse: find the most significant clear bit, set it, clear those above. */
  method NextCode(code: nat, j: nat) returns (code': nat)
    requires 0 < j && code < Pow2(j)
    ensures code' == RevInc(j, code)
  {
    // k is the position of incr, plus one
    var k := j;
    LowSmall(code, j);
    while k > 0 && Shr(code, k - 1) % 2 == 1
      invariant k <= j && RevInc(j, code) == RevInc(k, Low(code, k))
    {
      RevIncStep(k, code);
      k := k - 1;
    }
    if k == 0 {
      code' := 0;
    } else {
      RevIncStep(k, code);
      code' := Low(code, k - 1) + Pow2(k - 1);
    }
  }

  /** Stores the entries of symbol val, whose code has at most eight bits. */
  method StoreDirect(codes: seq<nat>, val: nat, table: array<uint16>, code: nat) returns (ok: bool)
    requires val < |codes| <= MAX_CODES && 0 < codes[val] <= 8 && table.Length == TABLE_SIZE
    requires code == Rev(codes[val], Code(codes, val))
    requires Fits(codes) ==> DirectTable(table[..], codes, codes[val], Rank(codes, val))
    requires Fits(codes) ==> Owned(table[..], codes, codes[val], Rank(codes, val))
    modifies table
    ensures Fits(codes) ==> ok && DirectTable(table[..], codes, codes[val], Rank(codes, val) + 1)
    ensures Fits(codes) ==> Owned(table[..], codes, codes[val], Rank(codes, val) + 1)
  {
    hide DirectTable, Owned, Filled, Fits, Rev, Low, Code, Rank;
    if val >= 512 {
      return false;
    }
    ghost var table0 := table[..];
    ok := FillStride(table, 0, PRIMARY, code, codes[val], Entry(val, codes[val] - 1, false));
    if Fits(codes) {
      forall x: nat | x < table.Length && InStride(x, 0, PRIMARY, code, codes[val])
        ensures table0[x] == 0
      {
        NoClash(table0, codes, val, x);
      }
      DirectTableStep(table0, table[..], codes, val);
      OwnedStep(table0, table[..], codes, val);
    }
  }

  /** next leads from each symbol of length j to the one after it. */
  ghost predicate Threads(lens: seq<nat>, next: seq<uint16>) {
    && |lens| <= |next|
    && forall x: nat {:trigger next[x]} | x < |lens| && Rank(lens, x) + 1 < Count(lens, lens[x], |lens|) ::
         IsNext(lens, |lens|, x, next[x])
  }

  /** Stores the entries of the codes of length j, for j at most 8. */
  method FillLength(codes: seq<nat>, j: nat, count: uint16, start: uint16, next: array<uint16>, table: array<uint16>,
                    code: nat) returns (ok: bool, code': nat)
    requires 0 < j <= 8 && 0 < |codes| <= MAX_CODES && table.Length == TABLE_SIZE
    requires table != next && Threads(codes, next[..]) && 0 < count == Count(codes, j, |codes|)
    requires start < |codes| && codes[start] == j && Rank(codes, start) == 0
    requires code == Rev(j, First(codes, j))
    requires Fits(codes) ==> DirectTable(table[..], codes, j, 0) && Owned(table[..], codes, j, 0)
    modifies table
    ensures ok ==> code' == Rev(j, End(codes, |codes|, j))
    ensures Fits(codes) ==> ok && DirectTable(table[..], codes, j + 1, 0) && Owned(table[..], codes, j + 1, 0)
  {
    hide DirectTable, Owned, Fits, Rev, RevInc, Pow2;
    code' := code;
    var val: nat := start;
    for i: nat := 0 to count
      invariant val < |codes| && codes[val] == j
      invariant i < count ==> Rank(codes, val) == i
      invariant code' == Rev(j, First(codes, j) + i)
      invariant Fits(codes) ==> DirectTable(table[..], codes, j, i) && Owned(table[..], codes, j, i)
    {
      ok := StoreDirect(codes, val, table, code');
      if !ok {
        return;
      }
      if i + 1 < count {
        assert next[..][val] == next[val];
        val := next[val];
      }
      RevIncCorrect(j, First(codes, j) + i);
      code' := NextCode(code', j);
    }
    ok := true;
    if Fits(codes) {
      DirectTableNext(table[..], codes, j);
      OwnedNext(table[..], codes, j);
    }
  }

  lemma LinkedCounts(lens: seq<nat>, count: seq<uint16>, start: seq<uint16>, next: seq<uint16>)
    requires Linked(lens, |lens|, count, start, next)
    ensures |count| == |start| == 16 && forall j: nat | j < 16 :: count[j] == Count(lens, j, |lens|)
  {
  }

  /** Appending a zero bit to a code does not change its reversal. */
  lemma FirstFromEnd(lens: seq<nat>, j: nat)
    requires j > 0
    ensures Rev(j, First(lens, j)) == Rev(j - 1, End(lens, |lens|, j - 1))
    ensures Count(lens, j, |lens|) == 0 ==> Rev(j, End(lens, |lens|, j)) == Rev(j, First(lens, j))
    ensures j == 1 ==> Rev(j, First(lens, j)) == 0
  {
  }

  lemma LinkedAt(lens: seq<nat>, count: seq<uint16>, start: seq<uint16>, next: seq<uint16>, j: nat)
    requires Linked(lens, |lens|, count, start, next) && j < 16
    ensures count[j] == Count(lens, j, |lens|) && Threads(lens, next)
    ensures count[j] > 0 ==> start[j] < |lens| && lens[start[j]] == j && Rank(lens, start[j]) == 0
  {
  }

  method ClearTable(ghost codes: seq<nat>, table: array<uint16>)
    requires table.Length == TABLE_SIZE && |codes| <= MAX_CODES
    modifies table
    ensures DirectTable(table[..], codes, 1, 0) && Owned(table[..], codes, 1, 0)
  {
    forall x: nat | x < TABLE_SIZE {
      table[x] := 0;
    }
    DirectTableEmpty(table[..], codes);
    OwnedEmpty(table[..], codes);
  }

  /** Stores the codes of up to eight bits; code' is the next code, still in reverse. */
  method FillPrimary(codes: seq<nat>, count: array<uint16>, start: array<uint16>, next: array<uint16>,
                     table: array<uint16>) returns (ok: bool, code: nat)
    requires |codes| <= MAX_CODES && table.Length == TABLE_SIZE && table != next && table != count && table != start
    requires count.Length == start.Length == 16
    requires Linked(codes, |codes|, count[..], start[..], next[..])
    modifies table
    ensures ok ==> code == Rev(8, End(codes, |codes|, 8))
    ensures Fits(codes) ==> ok && DirectTable(table[..], codes, 9, 0) && Owned(table[..], codes, 9, 0)
  {
    hide DirectTable, Owned, Linked, Threads, Rev, End, Count, Fits;
    ghost var count0, start0, next0 := count[..], start[..], next[..];
    ClearTable(codes, table);
    code := 0;
    FirstFromEnd(codes, 1);
    for j: nat := 1 to 9
      invariant count[..] == count0 && start[..] == start0 && next[..] == next0
      invariant code == Rev(j - 1, End(codes, |codes|, j - 1))
      invariant Fits(codes) ==> DirectTable(table[..], codes, j, 0) && Owned(table[..], codes, j, 0)
    {
      if Fits(codes) {
        CountFits(codes, j);
      }
      FirstFromEnd(codes, j);
      LinkedAt(codes, count0, start0, next0, j);
      assert count[j] == count0[j] && start[j] == start0[j];
      if count[j] != 0 {
        if count[j] > Pow2(j) {
          return false, code;
        }
        ok, code := FillLength(codes, j, count[j], start[j], next, table, code);
        if !ok {
          return;
        }
      } else if Fits(codes) {
        DirectTableNext(table[..], codes, j);
        OwnedNext(table[..], codes, j);
      }
    }
    ok := true;
  }

  // ---- The first code of each longer length

  /** Adds 2^k to a j-bit number held in reverse: the carry runs down from bit j - k - 1. */
  method AddReversedBit(code: nat, n: nat) returns (code': nat)
    ensures Shr(code', n) == Shr(code, n)
    ensures Low(code', n) == RevInc(n, Low(code, n))
  {
    code' := code;
    hide Shr, Low;
    for m: nat := n downto 0
      invariant Shr(code', n) == Shr(code, n) && Low(code', n) == Low(code', m)
      invariant RevInc(n, Low(code, n)) == RevInc(m, Low(code', m))
    {
      LowTop(code', m);
      if Shr(code', m) % 2 == 0 {
        AddBit(code', m, n);
        code' := code' + Pow2(m);
        return;
      }
      ClearBit(code', m, n);
      code' := code' - Pow2(m);
      LowTop(code', m);
    }
  }

  lemma ClearBit(code: nat, m: nat, n: nat)
    requires m < n && Shr(code, m) % 2 == 1
    ensures code >= Pow2(m)
    ensures Shr(code - Pow2(m), m) % 2 == 0
    ensures Low(code - Pow2(m), m) == Low(code, m)
    ensures Low(code - Pow2(m), n) == Low(code, n) - Pow2(m)
    ensures Shr(code - Pow2(m), n) == Shr(code, n)
  {
    LowTop(code, m);
    AddPow(code - Pow2(m), m, m);
    assert Pow2(m) + (code - Pow2(m)) == code && Pow2(0) == 1;
    AddBit(code - Pow2(m), m, n);
  }

  /** One step of the addition below: bit k of the addend. */
  lemma AddBitStep(k: nat, n: nat)
    ensures Low(n, k) <= n && Low(n, k + 1) <= n
    ensures Shr(n - Low(n, k), k) == Shr(n, k)
    ensures Low(n, k + 1) == Low(n, k) + (if Shr(n, k) % 2 == 1 then Pow2(k) else 0)
  {
    LowLess(n, k);
    LowLess(n, k + 1);
    LowTop(n, k);
    ReplaceLow(n, k, 0);
  }

  /** Adds jcnt to the code c of length j, modulo 2^j, with the code held in reverse. */
  method ReverseAdd(code: nat, jcnt: nat, j: nat, ghost c: nat) returns (ok: bool, code': nat)
    requires code == Rev(j, c)
    ensures ok <==> jcnt < Pow2(j)
    ensures ok ==> code' == Rev(j, c + jcnt)
  {
    hide Rev, Low, Shr, Pow2;
    code' := code;
    var left := jcnt;
    LowLess(jcnt, 0);
    LowOfNone(jcnt);
    for k: nat := 0 to j
      invariant Low(jcnt, k) <= jcnt && left == jcnt - Low(jcnt, k)
      invariant code' == Rev(j, c + Low(jcnt, k))
    {
      AddBitStep(k, jcnt);
      if Shr(left, k) % 2 == 1 {
        var c' := c + Low(jcnt, k);
        var next := AddReversedBit(code', j - k);
        RevAddPow(j, k, c');
        LowShrExt(next, Rev(j, c' + Pow2(k)), j - k);
        code' := next;
        left := left - Pow2(k);
      }
    }
    LowLess(jcnt, j);
    ok := left == 0;
  }

  lemma LowOfNone(v: nat)
    ensures Low(v, 0) == 0
  {
  }

  /** There are fewer symbols than codes of nine or more bits. */
  lemma FewCodes(lens: seq<nat>, j: nat)
    requires |lens| <= MAX_CODES && j >= 9
    ensures Count(lens, j, |lens|) < Pow2(j)
  {
    Pow2Mono(9, j);
    assert Pow2(9) == 512 by { Pow2Of8(); }
  }

  /** The first code of each length above eight, in reverse. There always is one. */
  method FirstCodes(codes: seq<nat>, count: array<uint16>, code0: nat) returns (ok: bool, firstcode: array<nat>)
    requires |codes| <= MAX_CODES && count.Length == 16
    requires forall j: nat | j < 16 :: count[j] == Count(codes, j, |codes|)
    requires code0 == Rev(8, End(codes, |codes|, 8))
    ensures fresh(firstcode) && firstcode.Length == 7
    ensures ok && forall j: nat | 9 <= j < 16 && count[j] > 0 :: firstcode[j - 9] == Rev(j, First(codes, j))
  {
    hide Rev, End, Count, Pow2;
    firstcode := new nat[7];
    var code := code0;
    for j: nat := 9 to 16
      invariant code == Rev(j - 1, End(codes, |codes|, j - 1))
      invariant forall i: nat | 9 <= i < j && count[i] > 0 :: firstcode[i - 9] == Rev(i, First(codes, i))
    {
      FirstFromEnd(codes, j);
      EndFromFirst(codes, j);
      if count[j] != 0 {
        firstcode[j - 9] := code;
        FewCodes(codes, j);
        ok, code := ReverseAdd(code, count[j], j, First(codes, j));
        if !ok {
          return;
        }
      }
    }
    ok := true;
  }

  lemma EndFromFirst(lens: seq<nat>, j: nat)
    requires j > 0
    ensures End(lens, |lens|, j) == First(lens, j) + Count(lens, j, |lens|)
  {
  }

  // ---- Codes of more than eight bits: the secondary tables

  /** Whatever follows the code of s, its two table steps end in the entry of s. */
  ghost predicate LongEntries(table: seq<uint16>, lens: seq<nat>, s: nat)
    requires |table| == TABLE_SIZE
  {
    s < |lens| && s < 512 && 8 < lens[s] <= MAX_BITS
    && var c := Rev(lens[s], Code(lens, s));
       var t := table[Index(c)];
       IsSecondary(t) && lens[s] - 8 <= BitsOf(t)
       && forall rest: nat {:trigger SecondIndex(ValueOf(t), rest, BitsOf(t))} | Low(rest, lens[s] - 8) == Shr(c, 8) ::
            table[SecondIndex(ValueOf(t), rest, BitsOf(t))] == SymbolEntry(s, lens[s])
  }

  /** Symbol s is stored before the i-th symbol of length j: long codes are stored longest first. */
  predicate StoredLong(lens: seq<nat>, s: nat, j: nat, i: nat) {
    s < |lens| && 8 < lens[s] <= MAX_BITS && (j < lens[s] || (lens[s] == j && Rank(lens, s) < i))
  }

  ghost predicate LongTable(table: seq<uint16>, lens: seq<nat>, j: nat, i: nat) {
    && |table| == TABLE_SIZE && |lens| <= MAX_CODES
    && (forall s: nat | s < |lens| && 0 < lens[s] <= 8 :: DirectEntries(table, lens, s))
    && (forall s: nat | StoredLong(lens, s, j, i) :: LongEntries(table, lens, s))
  }

  /** A primary entry that the code of a long symbol selects belongs to no short symbol. */
  lemma OpenKeepsDirect(table: seq<uint16>, lens: seq<nat>, s: nat, s': nat, t: uint16)
    requires Fits(lens) && |table| == TABLE_SIZE
    requires s < |lens| && 8 < lens[s] <= MAX_BITS && DirectEntries(table, lens, s')
    ensures DirectEntries(table[Index(Rev(lens[s], Code(lens, s))) := t], lens, s')
  {
    var code := Rev(lens[s], Code(lens, s));
    if Matches(lens, s', Index(code)) {
      LowSplit(code, lens[s'], 8 - lens[s']);
      assert lens[s'] + (8 - lens[s']) == 8;
      LowSmall(code, lens[s]);
      PrefixFree(lens, s, s', code);
    }
  }

  lemma OpenKeepsLong(table: seq<uint16>, lens: seq<nat>, p: nat, s': nat, t: uint16)
    requires |table| == TABLE_SIZE && p < PRIMARY && table[p] == 0 && LongEntries(table, lens, s')
    ensures LongEntries(table[p := t], lens, s')
  {
  }

  /** Starting a secondary table for the code of s in an unused primary entry. */
  lemma OpenStep(table: seq<uint16>, lens: seq<nat>, s: nat, j: nat, i: nat, t: uint16)
    requires Fits(lens) && LongTable(table, lens, j, i)
    requires s < |lens| && 8 < lens[s] <= MAX_BITS && table[Index(Rev(lens[s], Code(lens, s)))] == 0
    ensures LongTable(table[Index(Rev(lens[s], Code(lens, s))) := t], lens, j, i)
  {
    var p := Index(Rev(lens[s], Code(lens, s)));
    forall s': nat | s' < |lens| && 0 < lens[s'] <= 8
      ensures DirectEntries(table[p := t], lens, s')
    {
      OpenKeepsDirect(table, lens, s, s', t);
    }
    forall s': nat | StoredLong(lens, s', j, i)
      ensures LongEntries(table[p := t], lens, s')
    {
      OpenKeepsLong(table, lens, p, s', t);
    }
  }

  /** The entries that FillStride writes were unused. */
  ghost predicate FreshlyFilled(old': seq<uint16>, table: seq<uint16>, base: nat, limit: nat, first: nat, j: nat,
                                tval: uint16) {
    && Filled(old', table, base, limit, first, j, tval)
    && forall x: nat | x < |old'| && InStride(x, base, limit, first, j) :: old'[x] == 0
  }

  lemma FillKeepsLong(old': seq<uint16>, table: seq<uint16>, base: nat, limit: nat, first: nat, j: nat, tval: uint16,
                      lens: seq<nat>, s': nat)
    requires |old'| == TABLE_SIZE && base >= PRIMARY && FreshlyFilled(old', table, base, limit, first, j, tval)
    requires LongEntries(old', lens, s')
    ensures LongEntries(table, lens, s')
  {
    var c := Rev(lens[s'], Code(lens, s'));
    var t := old'[Index(c)];
    assert table[Index(c)] == t;
    forall rest: nat | Low(rest, lens[s'] - 8) == Shr(c, 8)
      ensures table[SecondIndex(ValueOf(t), rest, BitsOf(t))] == SymbolEntry(s', lens[s'])
    {
      assert old'[SecondIndex(ValueOf(t), rest, BitsOf(t))] == SymbolEntry(s', lens[s']) != 0;
    }
  }

  lemma CellIn(base: nat, x: nat, limit: nat, l: nat)
    requires x < limit
    ensures InStride(base + x, base, limit, Low(x, l), l)
  {
    assert base + x - base == x;
  }

  /** A cell of the secondary table of size 2^b at offset, by the low l bits of what selects it. */
  lemma SecondIn(offset: nat, rest: nat, b: nat, l: nat)
    requires offset < 512 && l <= b < 8
    ensures InStride(SecondIndex(offset, rest, b), PRIMARY + offset, Pow2(b), Low(rest, l), l)
  {
    hide InStride, Low, Pow2;
    LowSplit(rest, l, b - l);
    assert l + (b - l) == b;
    CellIn(PRIMARY + offset, Low(rest, b), Pow2(b), l);
  }

  lemma FillStores(old': seq<uint16>, table: seq<uint16>, lens: seq<nat>, s: nat)
    requires |old'| == TABLE_SIZE && s < |lens| && s < 512 && 8 < lens[s] <= MAX_BITS
    requires var c := Rev(lens[s], Code(lens, s)); var t := old'[Index(c)];
      IsSecondary(t) && lens[s] - 8 <= BitsOf(t)
      && Filled(old', table, PRIMARY + ValueOf(t), Pow2(BitsOf(t)), Shr(c, 8), lens[s] - 8, SymbolEntry(s, lens[s]))
    ensures LongEntries(table, lens, s)
  {
    hide Rev, Code, Low, Shr, Pow2;
    var c := Rev(lens[s], Code(lens, s));
    var t := old'[Index(c)];
    var b, l := BitsOf(t), lens[s] - 8;
    assert table[Index(c)] == t;
    forall rest: nat | Low(rest, l) == Shr(c, 8)
      ensures table[SecondIndex(ValueOf(t), rest, b)] == SymbolEntry(s, lens[s])
    {
      SecondIn(ValueOf(t), rest, b, l);
    }
  }

  lemma FillStep(old': seq<uint16>, table: seq<uint16>, lens: seq<nat>, s: nat)
    requires |old'| == TABLE_SIZE && s < |lens| && s < 512 && 8 < lens[s] <= MAX_BITS
    requires var c := Rev(lens[s], Code(lens, s)); var t := old'[Index(c)];
      IsSecondary(t) && lens[s] - 8 <= BitsOf(t)
      && FreshlyFilled(old', table, PRIMARY + ValueOf(t), Pow2(BitsOf(t)), Shr(c, 8), lens[s] - 8,
                       SymbolEntry(s, lens[s]))
    requires LongTable(old', lens, lens[s], Rank(lens, s))
    ensures LongTable(table, lens, lens[s], Rank(lens, s) + 1)
  {
    var c := Rev(lens[s], Code(lens, s));
    var t := old'[Index(c)];
    FillStores(old', table, lens, s);
    forall s': nat | StoredLong(lens, s', lens[s], Rank(lens, s) + 1)
      ensures LongEntries(table, lens, s')
    {
      if lens[s'] == lens[s] && Rank(lens, s') == Rank(lens, s) {
        RankUnique(lens, s, s');
      } else {
        assert StoredLong(lens, s', lens[s], Rank(lens, s));
        FillKeepsLong(old', table, PRIMARY + ValueOf(t), Pow2(BitsOf(t)), Shr(c, 8), lens[s] - 8,
                      SymbolEntry(s, lens[s]), lens, s');
      }
    }
  }

  // ---- Room for the secondary tables

  /** The code of a long symbol, as its bits are read. */
  function CodeBits(lens: seq<nat>, s: nat): nat
    requires s < |lens| && lens[s] > 0
  {
    Rev(lens[s], Code(lens, s))
  }

  /** s has a long code whose first eight bits are p. */
  predicate InSlot(lens: seq<nat>, s: nat, p: nat) {
    s < |lens| && 8 < lens[s] <= MAX_BITS && Index(CodeBits(lens, s)) == p
  }

  /** How many bits the longest code among the first n symbols has after the eight bits p; 0 if there is none. */
  function SlotBits(lens: seq<nat>, p: nat, n: nat): (b: nat)
    requires n <= |lens|
    ensures b < 8
  {
    if n == 0 then 0
    else if InSlot(lens, n - 1, p) && lens[n - 1] - 8 > SlotBits(lens, p, n - 1) then lens[n - 1] - 8
    else SlotBits(lens, p, n - 1)
  }

  /** The size of the secondary table for the codes that start with the bits p. */
  function SlotSize(lens: seq<nat>, p: nat): nat {
    var b := SlotBits(lens, p, |lens|);
    if b == 0 then 0 else Pow2(b)
  }

  /** The size of all secondary tables for the first m slots. */
  function SlotTotal(lens: seq<nat>, m: nat): nat {
    if m == 0 then 0 else SlotTotal(lens, m - 1) + SlotSize(lens, m - 1)
  }

  /** The secondary tables that the codes need fit behind the 512 offsets that an entry can hold. */
  predicate HasRoom(lens: seq<nat>) {
    SlotTotal(lens, PRIMARY) <= 512
  }

  /** The size of the secondary tables that were started. */
  function StartedTotal(table: seq<uint16>, lens: seq<nat>, m: nat): nat
    requires m <= |table|
  {
    if m == 0 then 0
    else StartedTotal(table, lens, m - 1) + (if IsSecondary(table[m - 1]) then SlotSize(lens, m - 1) else 0)
  }

  lemma {:induction false} SlotBitsMax(lens: seq<nat>, p: nat, n: nat, s: nat)
    requires n <= |lens| && s < n && InSlot(lens, s, p)
    ensures lens[s] - 8 <= SlotBits(lens, p, n)
  {
    hide InSlot;
    if s < n - 1 {
      SlotBitsMax(lens, p, n - 1, s);
    }
  }

  lemma {:induction false} SlotBitsBound(lens: seq<nat>, p: nat, n: nat, m: nat)
    requires n <= |lens| && forall s: nat | s < n && InSlot(lens, s, p) :: lens[s] - 8 <= m
    ensures SlotBits(lens, p, n) <= m
  {
    hide InSlot;
    if n > 0 {
      SlotBitsBound(lens, p, n - 1, m);
    }
  }

  /** What is started and a slot that is not yet make no more than all slots. */
  lemma {:induction false} StartedBound(table: seq<uint16>, lens: seq<nat>, p: nat, m: nat)
    requires m <= |table|
    ensures StartedTotal(table, lens, m) + (if p < m && !IsSecondary(table[p]) then SlotSize(lens, p) else 0)
         <= SlotTotal(lens, m)
  {
    hide SlotSize, IsSecondary;
    if m > 0 {
      StartedBound(table, lens, p, m - 1);
    }
  }

  lemma {:induction false} StartedStep(table: seq<uint16>, lens: seq<nat>, p: nat, t: uint16, m: nat)
    requires m <= |table| && p < |table| && !IsSecondary(table[p]) && IsSecondary(t)
    ensures StartedTotal(table[p := t], lens, m)
      == StartedTotal(table, lens, m) + (if p < m then SlotSize(lens, p) else 0)
  {
    hide SlotSize, IsSecondary;
    if m > 0 {
      StartedStep(table, lens, p, t, m - 1);
    }
  }

  lemma {:induction false} StartedSame(table: seq<uint16>, table': seq<uint16>, lens: seq<nat>, m: nat)
    requires m <= |table| == |table'| && forall p | 0 <= p < m :: table'[p] == table[p]
    ensures StartedTotal(table', lens, m) == StartedTotal(table, lens, m)
  {
    hide SlotSize, IsSecondary;
    if m > 0 {
      StartedSame(table, table', lens, m - 1);
    }
  }

  /** Cell ind of the secondary table of slot p belongs to a symbol that is stored. */
  ghost predicate CellOwned(lens: seq<nat>, j: nat, i: nat, p: nat, ind: nat) {
    exists t: nat ::
      StoredLong(lens, t, j, i) && InSlot(lens, t, p) && Low(ind, lens[t] - 8) == Shr(CodeBits(lens, t), 8)
  }

  /** The secondary table of slot p is as large as its codes need, below next, and in use only where codes are
      stored. */
  ghost predicate TableOk(table: seq<uint16>, lens: seq<nat>, j: nat, i: nat, next: nat, p: nat)
    requires |table| == TABLE_SIZE && PRIMARY + next <= TABLE_SIZE && p < PRIMARY
  {
    var t := table[p];
    && 0 < BitsOf(t) == SlotBits(lens, p, |lens|) && ValueOf(t) + Pow2(BitsOf(t)) <= next
    && forall ind: nat | ind < Pow2(BitsOf(t)) && table[PRIMARY + ValueOf(t) + ind] != 0 ::
      CellOwned(lens, j, i, p, ind)
  }

  /** The secondary tables of two slots do not overlap. */
  predicate TablesApart(t: uint16, u: uint16) {
    ValueOf(t) + Pow2(BitsOf(t)) <= ValueOf(u) || ValueOf(u) + Pow2(BitsOf(u)) <= ValueOf(t)
  }

  /** The secondary tables that were started fill the space up to next, without overlap. */
  ghost predicate Rooms(table: seq<uint16>, lens: seq<nat>, j: nat, i: nat, next: nat) {
    && |table| == TABLE_SIZE && PRIMARY + next <= TABLE_SIZE
    && (forall p: nat | p < PRIMARY && IsSecondary(table[p]) :: TableOk(table, lens, j, i, next, p))
    && (forall p: nat | p < PRIMARY && table[p] != 0 && !IsSecondary(table[p]) :: HasOwner(lens, 9, 0, p))
    && (forall p: nat, q: nat | p < q < PRIMARY && IsSecondary(table[p]) && IsSecondary(table[q]) ::
          TablesApart(table[p], table[q]))
    && (forall x: nat | PRIMARY + next <= x < TABLE_SIZE :: table[x] == 0)
    && next == StartedTotal(table, lens, PRIMARY)
  }

  /** A primary entry in use by a short code is not the one that a long code selects. */
  lemma SlotNotDirect(lens: seq<nat>, s: nat, p: nat)
    requires Fits(lens) && InSlot(lens, s, p)
    ensures !HasOwner(lens, 9, 0, p)
  {
    hide Rev, Code, Fits, Low, Rank;
    if HasOwner(lens, 9, 0, p) {
      var t: nat :| Before(lens, t, 9, 0) && Matches(lens, t, p);
      var c := CodeBits(lens, s);
      LowSplit(c, lens[t], 8 - lens[t]);
      assert lens[t] + (8 - lens[t]) == 8;
      LowSmall(c, lens[s]);
      PrefixFree(lens, s, t, c);
    }
  }

  lemma LongerStarted(table: seq<uint16>, lens: seq<nat>, t: nat, p: nat, j: nat, i: nat)
    requires LongTable(table, lens, j, i) && InSlot(lens, t, p)
    ensures lens[t] > j ==> IsSecondary(table[p])
  {
    hide Rank, Index;
    if lens[t] > j {
      assert StoredLong(lens, t, j, i);
      assert LongEntries(table, lens, t);
    }
  }

  /** The longest code of a slot is stored first: as long as none is, a symbol of length j has the slot's size. */
  lemma SlotUnstarted(table: seq<uint16>, lens: seq<nat>, s: nat, p: nat)
    requires s < |lens| && InSlot(lens, s, p) && LongTable(table, lens, lens[s], Rank(lens, s)) && table[p] == 0
    ensures SlotBits(lens, p, |lens|) == lens[s] - 8
  {
    hide SlotBits, Rank, Index;
    forall t: nat | t < |lens| && InSlot(lens, t, p)
      ensures lens[t] <= lens[s]
    {
      LongerStarted(table, lens, t, p, lens[s], Rank(lens, s));
    }
    SlotBitsBound(lens, p, |lens|, lens[s] - 8);
    SlotBitsMax(lens, p, |lens|, s);
  }

  /** What the code of s finds in its primary entry: a large enough table, or nothing and room for one. */
  lemma CanSelect(table: seq<uint16>, lens: seq<nat>, s: nat, p: nat, next: nat)
    requires Fits(lens) && HasRoom(lens) && s < |lens| && InSlot(lens, s, p)
    requires LongTable(table, lens, lens[s], Rank(lens, s)) && Rooms(table, lens, lens[s], Rank(lens, s), next)
    ensures p < PRIMARY && (table[p] == 0 ==> next < 512)
    ensures table[p] != 0 ==> IsSecondary(table[p]) && lens[s] - 8 <= BitsOf(table[p])
  {
    hide SlotBits, LongTable, Rank, StartedTotal, SlotTotal, HasOwner, Fits;
    SlotNotDirect(lens, s, p);
    SlotBitsMax(lens, p, |lens|, s);
    if table[p] == 0 {
      StartedBound(table, lens, p, PRIMARY);
      SlotUnstarted(table, lens, s, p);
    } else {
      assert TableOk(table, lens, lens[s], Rank(lens, s), next, p);
    }
  }

  lemma RoomsStart(table: seq<uint16>, lens: seq<nat>)
    requires Owned(table, lens, 9, 0) && forall ind: nat | ind < PRIMARY :: !IsSecondary(table[ind])
    requires forall x: nat | PRIMARY <= x < TABLE_SIZE :: table[x] == 0
    ensures Rooms(table, lens, MAX_BITS, 0, 0)
  {
    hide HasOwner, IsSecondary, SlotSize;
    NoneStarted(table, lens, PRIMARY);
  }

  lemma {:induction false} NoneStarted(table: seq<uint16>, lens: seq<nat>, m: nat)
    requires m <= |table| && forall p: nat | p < m :: !IsSecondary(table[p])
    ensures StartedTotal(table, lens, m) == 0
  {
    hide IsSecondary, SlotSize;
    if m > 0 {
      NoneStarted(table, lens, m - 1);
    }
  }

  lemma TableOkKept(table: seq<uint16>, table': seq<uint16>, lens: seq<nat>, j: nat, i: nat, next: nat, next': nat,
                    p: nat)
    requires |table| == |table'| == TABLE_SIZE && PRIMARY + next <= TABLE_SIZE && p < PRIMARY
    requires next <= next' && PRIMARY + next' <= TABLE_SIZE
    requires TableOk(table, lens, j, i, next, p) && table'[p] == table[p]
    requires forall x: nat | PRIMARY <= x < TABLE_SIZE :: table'[x] == table[x]
    ensures TableOk(table', lens, j, i, next', p)
  {
    hide CellOwned, SlotBits;
  }

  /** A table that was just started is empty and as large as its slot needs. */
  lemma TableOkNew(table: seq<uint16>, lens: seq<nat>, j: nat, i: nat, next: nat, p: nat, b: nat)
    requires |table| == TABLE_SIZE && next < 512 && 0 < b < 8 && p < PRIMARY
    requires SlotBits(lens, p, |lens|) == b && table[p] == Entry(next, b, true)
    requires forall x: nat | PRIMARY + next <= x < TABLE_SIZE :: table[x] == 0
    ensures PRIMARY + next + Pow2(b) <= TABLE_SIZE && TableOk(table, lens, j, i, next + Pow2(b), p)
  {
    hide CellOwned, SlotBits, Pow2;
    Pow2Mono(b, 7);
    Pow2Of7();
  }

  /** Starting the secondary table of slot p at next. */
  lemma RoomsOpen(table: seq<uint16>, lens: seq<nat>, j: nat, i: nat, next: nat, p: nat, b: nat)
    requires Rooms(table, lens, j, i, next) && p < PRIMARY && table[p] == 0 && next < 512 && 0 < b < 8
    requires SlotBits(lens, p, |lens|) == b
    ensures Rooms(table[p := Entry(next, b, true)], lens, j, i, next + Pow2(b))
  {
    hide HasOwner, SlotBits, Pow2, StartedTotal, TableOk;
    var t := Entry(next, b, true);
    var table' := table[p := t];
    TableOkNew(table', lens, j, i, next, p, b);
    forall q: nat | q < PRIMARY && IsSecondary(table'[q])
      ensures TableOk(table', lens, j, i, next + Pow2(b), q)
    {
      if q != p {
        TableOkKept(table, table', lens, j, i, next, next + Pow2(b), q);
      }
    }
    forall q: nat, r: nat | q < r < PRIMARY && IsSecondary(table'[q]) && IsSecondary(table'[r])
      ensures TablesApart(table'[q], table'[r])
    {
      OpenApart(table, lens, j, i, next, p, b, q, r);
    }
    assert !IsSecondary(table[p]);
    StartedStep(table, lens, p, t, PRIMARY);
    assert SlotSize(lens, p) == Pow2(b);
  }

  lemma OpenApart(table: seq<uint16>, lens: seq<nat>, j: nat, i: nat, next: nat, p: nat, b: nat, q: nat, r: nat)
    requires Rooms(table, lens, j, i, next) && p < PRIMARY && next < 512 && 0 < b < 8 && q < r < PRIMARY
    requires q != p ==> IsSecondary(table[q])
    requires r != p ==> IsSecondary(table[r])
    ensures var table' := table[p := Entry(next, b, true)]; TablesApart(table'[q], table'[r])
  {
    hide HasOwner, SlotBits, Pow2, StartedTotal, CellOwned;
    if q == p {
      assert TableOk(table, lens, j, i, next, r);
    } else if r == p {
      assert TableOk(table, lens, j, i, next, q);
    }
  }

  /** The bits p and then ind start with the code of s if ind starts with the rest of that code. */
  lemma SlotMatches(lens: seq<nat>, s: nat, p: nat, ind: nat)
    requires InSlot(lens, s, p) && Low(ind, lens[s] - 8) == Shr(CodeBits(lens, s), 8)
    ensures Matches(lens, s, p + Shl(ind, 8))
  {
    hide Low, Shr, Shl, Rev, Code, Pow2;
    var v, c := p + Shl(ind, 8), CodeBits(lens, s);
    Pow2Of8();
    LowOfSum(p, ind, 8);
    LowCat(v, 8, lens[s] - 8);
    ShlShr(c, 8);
    assert 8 + (lens[s] - 8) == lens[s];
  }

  /** A cell of a secondary table belongs to one symbol at most. */
  lemma CellClash(lens: seq<nat>, s: nat, t: nat, p: nat, ind: nat)
    requires Fits(lens) && InSlot(lens, s, p) && InSlot(lens, t, p)
    requires Low(ind, lens[s] - 8) == Shr(CodeBits(lens, s), 8) && Low(ind, lens[t] - 8) == Shr(CodeBits(lens, t), 8)
    ensures s == t
  {
    hide Low, Shr, Shl, CodeBits, InSlot, Matches, Fits;
    SlotMatches(lens, s, p, ind);
    SlotMatches(lens, t, p, ind);
    PrefixFree(lens, s, t, p + Shl(ind, 8));
  }

  /** The cells that the code of s selects in the secondary table of its slot are not in use. */
  lemma NoClashLong(table: seq<uint16>, lens: seq<nat>, s: nat, p: nat, next: nat, x: nat)
    requires Fits(lens) && s < |lens| && InSlot(lens, s, p) && Rooms(table, lens, lens[s], Rank(lens, s), next)
    requires p < PRIMARY && lens[s] > 8 && IsSecondary(table[p]) && x < TABLE_SIZE
    requires InStride(x, PRIMARY + ValueOf(table[p]), Pow2(BitsOf(table[p])), Shr(CodeBits(lens, s), 8), lens[s] - 8)
    ensures table[x] == 0
  {
    hide Low, Shr, CodeBits, InSlot, Fits, Rank, HasOwner, StartedTotal, SlotBits, Pow2;
    var ind := x - (PRIMARY + ValueOf(table[p]));
    assert TableOk(table, lens, lens[s], Rank(lens, s), next, p);
    if table[x] != 0 {
      assert CellOwned(lens, lens[s], Rank(lens, s), p, ind);
      var t: nat :| StoredLong(lens, t, lens[s], Rank(lens, s)) && InSlot(lens, t, p)
                    && Low(ind, lens[t] - 8) == Shr(CodeBits(lens, t), 8);
      CellClash(lens, s, t, p, ind);
    }
  }

  /** With the slot's table in use, the cells that the code of s selects are free. */
  lemma SlotFree(table: seq<uint16>, lens: seq<nat>, s: nat, p: nat, next: nat, cur: Current, code: nat)
    requires Fits(lens) && s < |lens| && InSlot(lens, s, p) && Rooms(table, lens, lens[s], Rank(lens, s), next)
    requires p < PRIMARY && lens[s] > 8 && InUse(cur, table, lens[s]) && cur.primary == p && code == CodeBits(lens, s)
    ensures forall x: nat |
      x < TABLE_SIZE && InStride(x, PRIMARY + cur.secondary, Pow2(cur.bits), Shr(code, 8), lens[s] - 8) :: table[x] == 0
  {
    hide Fits, InSlot, Rooms, Rank, CodeBits, Pow2, Shr, InStride;
    forall x: nat | x < TABLE_SIZE && InStride(x, PRIMARY + cur.secondary, Pow2(cur.bits), Shr(code, 8), lens[s] - 8)
      ensures table[x] == 0
    {
      NoClashLong(table, lens, s, p, next, x);
    }
  }

  lemma CellOwnedMore(lens: seq<nat>, j: nat, i: nat, p: nat, ind: nat)
    requires CellOwned(lens, j, i, p, ind)
    ensures CellOwned(lens, j, i + 1, p, ind)
    ensures j > 0 ==> CellOwned(lens, j - 1, 0, p, ind)
  {
    hide Low, Shr, CodeBits, InSlot, Rank;
    var t: nat :| StoredLong(lens, t, j, i) && InSlot(lens, t, p) && Low(ind, lens[t] - 8) == Shr(CodeBits(lens, t), 8);
    assert StoredLong(lens, t, j, i + 1);
    assert j > 0 ==> StoredLong(lens, t, j - 1, 0);
  }

  /** The table that the code of s was stored in. */
  lemma TableOkFilled(old': seq<uint16>, table: seq<uint16>, lens: seq<nat>, s: nat, p: nat, next: nat)
    requires |old'| == TABLE_SIZE && PRIMARY + next <= TABLE_SIZE && p < PRIMARY
    requires s < |lens| && s < 512 && 8 < lens[s] <= MAX_BITS && InSlot(lens, s, p)
    requires TableOk(old', lens, lens[s], Rank(lens, s), next, p)
    requires Filled(old', table, PRIMARY + ValueOf(old'[p]), Pow2(BitsOf(old'[p])), Shr(CodeBits(lens, s), 8),
                    lens[s] - 8, SymbolEntry(s, lens[s]))
    ensures TableOk(table, lens, lens[s], Rank(lens, s) + 1, next, p)
  {
    hide Low, Shr, CodeBits, InSlot, Rank, SlotBits, Pow2, CellOwned;
    var t := old'[p];
    var base, first := PRIMARY + ValueOf(t), Shr(CodeBits(lens, s), 8);
    assert table[p] == t;
    forall ind: nat {:trigger CellOwned(lens, lens[s], Rank(lens, s) + 1, p, ind)} | ind < Pow2(BitsOf(t))
      && table[base + ind] != 0
      ensures CellOwned(lens, lens[s], Rank(lens, s) + 1, p, ind)
    {
      if InStride(base + ind, base, Pow2(BitsOf(t)), first, lens[s] - 8) {
        assert base + ind - base == ind;
        OwnsCell(lens, s, p, ind);
      } else {
        CellOwnedMore(lens, lens[s], Rank(lens, s), p, ind);
      }
    }
  }

  lemma OwnsCell(lens: seq<nat>, s: nat, p: nat, ind: nat)
    requires InSlot(lens, s, p) && Low(ind, lens[s] - 8) == Shr(CodeBits(lens, s), 8)
    ensures CellOwned(lens, lens[s], Rank(lens, s) + 1, p, ind)
  {
    hide Low, Shr, CodeBits, Rank, Index;
    assert StoredLong(lens, s, lens[s], Rank(lens, s) + 1);
  }

  /** Another table. */
  lemma TableOkBeside(old': seq<uint16>, table: seq<uint16>, lens: seq<nat>, s: nat, p: nat, q: nat, next: nat)
    requires |old'| == TABLE_SIZE && PRIMARY + next <= TABLE_SIZE && s < |lens| && s < 512 && 8 < lens[s] <= MAX_BITS
    requires p < PRIMARY && q < PRIMARY && TablesApart(old'[p], old'[q])
    requires TableOk(old', lens, lens[s], Rank(lens, s), next, q)
    requires Filled(old', table, PRIMARY + ValueOf(old'[p]), Pow2(BitsOf(old'[p])), Shr(CodeBits(lens, s), 8),
                    lens[s] - 8, SymbolEntry(s, lens[s]))
    ensures TableOk(table, lens, lens[s], Rank(lens, s) + 1, next, q)
  {
    hide Low, Shr, CodeBits, Rank, SlotBits, Pow2, CellOwned;
    var t := old'[q];
    assert table[q] == t;
    forall ind: nat {:trigger CellOwned(lens, lens[s], Rank(lens, s) + 1, q, ind)}
      | ind < Pow2(BitsOf(t)) && table[PRIMARY + ValueOf(t) + ind] != 0
      ensures CellOwned(lens, lens[s], Rank(lens, s) + 1, q, ind)
    {
      CellOwnedMore(lens, lens[s], Rank(lens, s), q, ind);
    }
  }

  /** Storing the code of s in the secondary table of its slot. */
  lemma RoomsFill(old': seq<uint16>, table: seq<uint16>, lens: seq<nat>, s: nat, p: nat, next: nat)
    requires s < |lens| && s < 512 && InSlot(lens, s, p) && Rooms(old', lens, lens[s], Rank(lens, s), next)
    requires p < PRIMARY && IsSecondary(old'[p])
    requires Filled(old', table, PRIMARY + ValueOf(old'[p]), Pow2(BitsOf(old'[p])), Shr(CodeBits(lens, s), 8),
                    lens[s] - 8, SymbolEntry(s, lens[s]))
    ensures Rooms(table, lens, lens[s], Rank(lens, s) + 1, next)
  {
    FillOutside(old', table, lens, s, p, next);
    hide Filled, TableOk, HasOwner, InSlot, Rank, Pow2, Shr, CodeBits, SlotBits;
    StartedSame(old', table, lens, PRIMARY);
    forall q: nat | q < PRIMARY && IsSecondary(table[q])
      ensures TableOk(table, lens, lens[s], Rank(lens, s) + 1, next, q)
    {
      if q == p {
        TableOkFilled(old', table, lens, s, p, next);
      } else {
        assert TablesApart(old'[p], old'[q]);
        TableOkBeside(old', table, lens, s, p, q, next);
      }
    }
  }

  lemma FillOutside(old': seq<uint16>, table: seq<uint16>, lens: seq<nat>, s: nat, p: nat, next: nat)
    requires s < |lens| && s < 512 && InSlot(lens, s, p) && Rooms(old', lens, lens[s], Rank(lens, s), next)
    requires p < PRIMARY && IsSecondary(old'[p])
    requires Filled(old', table, PRIMARY + ValueOf(old'[p]), Pow2(BitsOf(old'[p])), Shr(CodeBits(lens, s), 8),
                    lens[s] - 8, SymbolEntry(s, lens[s]))
    ensures |table| == TABLE_SIZE && forall x: nat | x < PRIMARY :: table[x] == old'[x]
    ensures forall x: nat | PRIMARY + next <= x < TABLE_SIZE :: table[x] == 0
    ensures 8 < lens[s] <= MAX_BITS
  {
    hide HasOwner, Rank, Pow2, Shr, CodeBits, SlotBits, CellOwned, StartedTotal, Low, Index;
    assert TableOk(old', lens, lens[s], Rank(lens, s), next, p);
  }

  lemma RoomsNext(table: seq<uint16>, lens: seq<nat>, j: nat, i: nat, next: nat)
    requires j > 0 && Rooms(table, lens, j, i, next)
    ensures Rooms(table, lens, j - 1, 0, next)
  {
    hide HasOwner, CellOwned, SlotBits, Pow2, StartedTotal;
    forall p: nat | p < PRIMARY && IsSecondary(table[p])
      ensures TableOk(table, lens, j - 1, 0, next, p)
    {
      assert TableOk(table, lens, j, i, next, p);
      TableOkNext(table, lens, j, i, next, p);
    }
  }

  lemma TableOkNext(table: seq<uint16>, lens: seq<nat>, j: nat, i: nat, next: nat, p: nat)
    requires j > 0 && |table| == TABLE_SIZE && PRIMARY + next <= TABLE_SIZE && p < PRIMARY
    requires TableOk(table, lens, j, i, next, p)
    ensures TableOk(table, lens, j - 1, 0, next, p)
  {
    hide CellOwned, SlotBits, Pow2;
    var t := table[p];
    forall ind: nat {:trigger CellOwned(lens, j - 1, 0, p, ind)}
      | ind < Pow2(BitsOf(t)) && table[PRIMARY + ValueOf(t) + ind] != 0
      ensures CellOwned(lens, j - 1, 0, p, ind)
    {
      CellOwnedMore(lens, j, i, p, ind);
    }
  }

  /** Selecting a secondary table for the code of s, started or not. */
  lemma RoomsSelected(table: seq<uint16>, table': seq<uint16>, lens: seq<nat>, s: nat, p: nat, next: nat, next': nat)
    requires s < |lens| && InSlot(lens, s, p) && p < PRIMARY && 8 < lens[s] <= MAX_BITS
    requires LongTable(table, lens, lens[s], Rank(lens, s)) && Rooms(table, lens, lens[s], Rank(lens, s), next)
    requires (table' == table && next' == next)
          || (table[p] == 0 && next < 512 && table' == table[p := Entry(next, lens[s] - 8, true)]
              && next' == next + Pow2(lens[s] - 8))
    ensures Rooms(table', lens, lens[s], Rank(lens, s), next')
  {
    hide Rooms, LongTable, Rank, InSlot, Pow2;
    LongTableSize(table, lens, lens[s], Rank(lens, s));
    if table' != table {
      SlotUnstarted(table, lens, s, p);
      RoomsOpen(table, lens, lens[s], Rank(lens, s), next, p, lens[s] - 8);
    }
  }

  /** Offsets that are multiples of the size at hand stay so, and do not pass 512. */
  lemma AlignedStep(next: nat, b: nat)
    requires next < 512 && Low(next, b) == 0 && b <= 9
    ensures next + Pow2(b) <= 512 && Low(next + Pow2(b), b) == 0
  {
    hide Low, Pow2;
    assert Pow2(9) == 512 by { Pow2Of9(); }
    AddPow(0, 9, b);
    AddPow(next, b, b);
    LowOfZero(b);
    if 512 < next + Pow2(b) {
      LowGap(512, next, b);
    }
  }

  lemma Pow2Of9()
    ensures Pow2(9) == 512
  {
    Pow2Of8();
  }

  lemma {:induction false} LowOfZero(b: nat)
    ensures Low(0, b) == 0
  {
    if b > 0 {
      LowOfZero(b - 1);
    }
  }

  lemma AlignedLess(next: nat, b: nat)
    requires Low(next, b + 1) == 0
    ensures Low(next, b) == 0
  {
    LowTop(next, b);
  }

  lemma {:induction false} SlotWitness(lens: seq<nat>, p: nat, n: nat) returns (s: nat)
    requires n <= |lens| && SlotBits(lens, p, n) > 0
    ensures s < n && InSlot(lens, s, p)
  {
    hide InSlot;
    if InSlot(lens, n - 1, p) {
      s := n - 1;
    } else {
      s := SlotWitness(lens, p, n - 1);
    }
  }

  /** In the end exactly the slots that long codes select have a secondary table, of the size of their longest code. */
  lemma SlotStarted(table: seq<uint16>, lens: seq<nat>, next: nat, p: nat)
    requires LongTable(table, lens, 8, 0) && Rooms(table, lens, 8, 0, next) && p < PRIMARY
    ensures |table| == TABLE_SIZE && (IsSecondary(table[p]) <==> exists s: nat :: InSlot(lens, s, p))
    ensures IsSecondary(table[p]) ==> BitsOf(table[p]) == SlotBits(lens, p, |lens|)
  {
    hide LongTable, SlotBits, HasOwner, CellOwned, StartedTotal, InSlot, TablesApart, IsSecondary;
    LongTableSize(table, lens, 8, 0);
    if IsSecondary(table[p]) {
      assert TableOk(table, lens, 8, 0, next, p);
      var s := SlotWitness(lens, p, |lens|);
    } else {
      forall s: nat
        ensures !InSlot(lens, s, p)
      {
        if InSlot(lens, s, p) {
          InSlotLong(lens, s, p);
          LongerStarted(table, lens, s, p, 8, 0);
        }
      }
    }
  }

  lemma InSlotLong(lens: seq<nat>, s: nat, p: nat)
    requires InSlot(lens, s, p)
    ensures s < |lens| && lens[s] > 8
  {
  }

  /** So the secondary tables take the space that HasRoom asks for. */
  lemma {:induction false} AllStarted(table: seq<uint16>, lens: seq<nat>, next: nat, m: nat)
    requires LongTable(table, lens, 8, 0) && Rooms(table, lens, 8, 0, next) && m <= PRIMARY
    ensures |table| == TABLE_SIZE && StartedTotal(table, lens, m) == SlotTotal(lens, m)
  {
    hide LongTable, SlotBits, IsSecondary, Rooms, InSlot;
    LongTableSize(table, lens, 8, 0);
    if m > 0 {
      AllStarted(table, lens, next, m - 1);
      SlotStarted(table, lens, next, m - 1);
      if SlotBits(lens, m - 1, |lens|) > 0 {
        var s := SlotWitness(lens, m - 1, |lens|);
        assert IsSecondary(table[m - 1]);
      }
    }
  }

  lemma LongTableSize(table: seq<uint16>, lens: seq<nat>, j: nat, i: nat)
    requires LongTable(table, lens, j, i)
    ensures |table| == TABLE_SIZE
  {
  }

  /** The secondary table in use while codes of length j are stored: none yet, or the one primary points to. */
  datatype Current = Current(primary: nat, secondary: nat, bits: nat)

  ghost predicate InUse(cur: Current, table: seq<uint16>, j: nat) {
    && |table| == TABLE_SIZE && cur.primary <= PRIMARY
    && (cur.primary < PRIMARY ==>
          var t := table[cur.primary];
          IsSecondary(t) && ValueOf(t) == cur.secondary && BitsOf(t) == cur.bits && j - 8 <= cur.bits)
  }

  /** Finds or starts the secondary table for primary index p. */
  method SelectSecondary(table: array<uint16>, p: nat, j: nat, cur: Current, nextSecondary: nat)
    returns (ok: bool, cur': Current, nextSecondary': nat)
    requires table.Length == TABLE_SIZE && p < PRIMARY && 8 < j <= MAX_BITS && InUse(cur, table[..], j)
    modifies table
    ensures ok ==> InUse(cur', table[..], j) && cur'.primary == p
    ensures ok <==> p == cur.primary || (if old(table[p]) == 0 then nextSecondary < 512
                                         else IsSecondary(old(table[p])) && j - 8 <= BitsOf(old(table[p])))
    ensures ok && p != cur.primary && old(table[p]) == 0 ==>
      table[..] == old(table[..])[p := Entry(nextSecondary, j - 8, true)]
        && nextSecondary' == nextSecondary + Pow2(j - 8)
    ensures !ok || p == cur.primary || old(table[p]) != 0 ==>
      table[..] == old(table[..]) && nextSecondary' == nextSecondary
  {
    if p == cur.primary {
      return true, cur, nextSecondary;
    }
    var t := table[p];
    if t == 0 {
      if nextSecondary >= 512 {
        return false, cur, nextSecondary;
      }
      table[p] := Entry(nextSecondary, j - 8, true);
      return true, Current(p, nextSecondary, j - 8), nextSecondary + Pow2(j - 8);
    }
    if !IsSecondary(t) || BitsOf(t) < j - 8 {
      return false, cur, nextSecondary;
    }
    return true, Current(p, ValueOf(t), BitsOf(t)), nextSecondary;
  }

  /** Stores symbol val, whose code has more than eight bits. */
  method StoreLong(codes: seq<nat>, val: nat, table: array<uint16>, code: nat, cur: Current, nextSecondary: nat)
    returns (ok: bool, cur': Current, nextSecondary': nat)
    requires val < |codes| <= MAX_CODES && 8 < codes[val] <= MAX_BITS && table.Length == TABLE_SIZE
    requires code == Rev(codes[val], Code(codes, val))
    requires InUse(cur, table[..], codes[val])
    requires Fits(codes) ==> LongTable(table[..], codes, codes[val], Rank(codes, val))
    requires Fits(codes) ==> Rooms(table[..], codes, codes[val], Rank(codes, val), nextSecondary)
    requires nextSecondary <= 512 && Low(nextSecondary, codes[val] - 8) == 0
    modifies table
    ensures ok ==> InUse(cur', table[..], codes[val])
    ensures ok ==> nextSecondary' <= 512 && Low(nextSecondary', codes[val] - 8) == 0
    ensures ok && Fits(codes) ==> LongTable(table[..], codes, codes[val], Rank(codes, val) + 1)
    ensures ok && Fits(codes) ==> Rooms(table[..], codes, codes[val], Rank(codes, val) + 1, nextSecondary')
    ensures Fits(codes) && HasRoom(codes) ==> ok
  {
    hide LongTable, Rooms, Low, Shr, Pow2, Rev, Code, Rank, Fits, HasRoom, Filled, CodeBits;
    var j, p := codes[val], Index(code);
    ghost var table0 := table[..];
    InItsSlot(codes, val, code);
    if Fits(codes) && HasRoom(codes) {
      CanSelect(table0, codes, val, p, nextSecondary);
    }
    ok, cur', nextSecondary' := SelectSecondary(table, p, j, cur, nextSecondary);
    if !ok {
      return;
    }
    ghost var table1 := table[..];
    if table1 != table0 {
      AlignedStep(nextSecondary, j - 8);
    }
    if Fits(codes) {
      RoomsSelected(table0, table1, codes, val, p, nextSecondary, nextSecondary');
      if table1 != table0 {
        OpenStep(table0, codes, val, j, Rank(codes, val), table1[p]);
      }
      SlotFree(table1, codes, val, p, nextSecondary', cur', code);
    }
    ShrBound(code, j);
    Pow2Mono(cur'.bits, 7);
    Pow2Of7();
    ok := FillStride(table, PRIMARY + cur'.secondary, Pow2(cur'.bits), Shr(code, 8), j - 8, Entry(val, j - 8, false));
    if !ok {
      return;
    }
    assert table[..][p] == table1[p];
    if Fits(codes) {
      FillStep(table1, table[..], codes, val);
      RoomsFill(table1, table[..], codes, val, p, nextSecondary');
    }
  }

  lemma InItsSlot(lens: seq<nat>, s: nat, code: nat)
    requires s < |lens| && 8 < lens[s] <= MAX_BITS && code == Rev(lens[s], Code(lens, s))
    ensures InSlot(lens, s, Index(code)) && CodeBits(lens, s) == code
  {
  }

  lemma Pow2Of7()
    ensures Pow2(7) == 128
  {
  }

  lemma ShrBound(code: nat, j: nat)
    requires 8 <= j && code < Pow2(j)
    ensures Shr(code, 8) < Pow2(j - 8)
  {
    LowSmall(code, j);
    LowSplit(code, 8, j - 8);
    assert 8 + (j - 8) == j;
  }

  lemma LongTableStart(table: seq<uint16>, lens: seq<nat>)
    requires DirectTable(table, lens, 9, 0)
    ensures LongTable(table, lens, MAX_BITS, 0)
  {
    forall s: nat | s < |lens| && 0 < lens[s] <= 8
      ensures DirectEntries(table, lens, s)
    {
      assert Before(lens, s, 9, 0);
    }
  }

  lemma LongTableNext(table: seq<uint16>, lens: seq<nat>, j: nat)
    requires 8 < j <= MAX_BITS && LongTable(table, lens, j, Count(lens, j, |lens|))
    ensures LongTable(table, lens, j - 1, 0)
  {
    forall s: nat | StoredLong(lens, s, j - 1, 0)
      ensures LongEntries(table, lens, s)
    {
      if lens[s] == j {
        CountStrict(lens, j, s, |lens|);
      }
      assert StoredLong(lens, s, j, Count(lens, j, |lens|));
    }
  }

  /** Stores the entries of the codes of length j, for j above 8. */
  method FillLongLength(codes: seq<nat>, j: nat, count: uint16, start: uint16, next: array<uint16>,
                        table: array<uint16>, code: nat, nextSecondary: nat) returns (ok: bool, nextSecondary': nat)
    requires 8 < j <= MAX_BITS && 0 < |codes| <= MAX_CODES && table.Length == TABLE_SIZE
    requires table != next && Threads(codes, next[..]) && 0 < count == Count(codes, j, |codes|)
    requires start < |codes| && codes[start] == j && Rank(codes, start) == 0
    requires code == Rev(j, First(codes, j))
    requires Fits(codes) ==> LongTable(table[..], codes, j, 0) && Rooms(table[..], codes, j, 0, nextSecondary)
    requires nextSecondary <= 512 && Low(nextSecondary, j - 8) == 0
    modifies table
    ensures ok && Fits(codes) ==>
      LongTable(table[..], codes, j - 1, 0) && Rooms(table[..], codes, j - 1, 0, nextSecondary')
    ensures ok ==> nextSecondary' <= 512 && Low(nextSecondary', j - 8) == 0
    ensures Fits(codes) && HasRoom(codes) ==> ok
  {
    hide LongTable, Rooms, Low, Shr, Pow2, HasRoom, Fits, InUse;
    NoneInUse(table[..], j);
    var code', cur := code, Current(PRIMARY, 0, 0);
    nextSecondary' := nextSecondary;
    var val: nat := start;
    for i: nat := 0 to count
      invariant val < |codes| && codes[val] == j
      invariant i < count ==> Rank(codes, val) == i
      invariant code' == Rev(j, First(codes, j) + i)
      invariant InUse(cur, table[..], j)
      invariant nextSecondary' <= 512 && Low(nextSecondary', j - 8) == 0
      invariant Fits(codes) ==> LongTable(table[..], codes, j, i) && Rooms(table[..], codes, j, i, nextSecondary')
    {
      ok, cur, nextSecondary' := StoreLong(codes, val, table, code', cur, nextSecondary');
      if !ok {
        return;
      }
      if i + 1 < count {
        assert next[..][val] == next[val];
        val := next[val];
      }
      RevIncCorrect(j, First(codes, j) + i);
      code' := NextCode(code', j);
    }
    ok := true;
    if Fits(codes) {
      LongTableNext(table[..], codes, j);
      RoomsNext(table[..], codes, j, count as nat, nextSecondary');
    }
  }

  lemma NoneInUse(table: seq<uint16>, j: nat)
    requires |table| == TABLE_SIZE
    ensures InUse(Current(PRIMARY, 0, 0), table, j)
  {
  }

  /** Stores the codes of more than eight bits, the longest first: smaller secondary tables may be
      embedded in larger ones. */
  method FillSecondaries(codes: seq<nat>, count: array<uint16>, start: array<uint16>, next: array<uint16>,
                         firstcode: array<nat>, table: array<uint16>) returns (ok: bool)
    requires |codes| <= MAX_CODES && table.Length == TABLE_SIZE && table != next && table != count && table != start
    requires count.Length == start.Length == 16 && firstcode.Length == 7
    requires Linked(codes, |codes|, count[..], start[..], next[..])
    requires forall j: nat | 9 <= j < 16 && count[j] > 0 :: firstcode[j - 9] == Rev(j, First(codes, j))
    requires Fits(codes) ==> DirectTable(table[..], codes, 9, 0) && Owned(table[..], codes, 9, 0)
    modifies table
    ensures ok && Fits(codes) ==> LongTable(table[..], codes, 8, 0)
    ensures Fits(codes) ==> (ok <==> HasRoom(codes))
  {
    hide LongTable, Rooms, DirectTable, Owned, Linked, Threads, Rev, Count, End, Low, Fits, HasRoom;
    if Fits(codes) {
      LongTableStart(table[..], codes);
      RoomsBegin(table[..], codes);
    }
    LowOfZero(8);
    ghost var count0, start0, next0 := count[..], start[..], next[..];
    var nextSecondary := 0;
    for j: nat := 16 downto 9
      invariant count[..] == count0 && start[..] == start0 && next[..] == next0
      invariant nextSecondary <= 512 && Low(nextSecondary, j - 8) == 0
      invariant Fits(codes) ==>
        LongTable(table[..], codes, j - 1, 0) && Rooms(table[..], codes, j - 1, 0, nextSecondary)
    {
      LinkedAt(codes, count0, start0, next0, j);
      assert count[j] == count0[j] && start[j] == start0[j];
      AlignedLess(nextSecondary, j - 8);
      if count[j] != 0 {
        ok, nextSecondary := FillLongLength(codes, j, count[j], start[j], next, table, firstcode[j - 9], nextSecondary);
        if !ok {
          return;
        }
      } else if Fits(codes) {
        LongTableNext(table[..], codes, j);
        RoomsNext(table[..], codes, j, 0, nextSecondary);
      }
    }
    ok := true;
    if Fits(codes) {
      RoomsEnd(table[..], codes, nextSecondary);
    }
  }

  lemma RoomsBegin(table: seq<uint16>, lens: seq<nat>)
    requires DirectTable(table, lens, 9, 0) && Owned(table, lens, 9, 0)
    ensures Rooms(table, lens, MAX_BITS, 0, 0)
  {
    hide Rooms, HasOwner, DirectEntries;
    RoomsStart(table, lens);
  }

  /** All tables started within the 512 offsets are all that the codes need. */
  lemma RoomsEnd(table: seq<uint16>, lens: seq<nat>, next: nat)
    requires LongTable(table, lens, 8, 0) && Rooms(table, lens, 8, 0, next) && next <= 512
    ensures HasRoom(lens)
  {
    hide LongTable, TableOk, HasOwner, StartedTotal, SlotTotal;
    AllStarted(table, lens, next, PRIMARY);
  }

  // ---- The finished table

  lemma DirectDecodes(table: seq<uint16>, lens: seq<nat>, s: nat, v: nat)
    requires |table| == TABLE_SIZE && DirectEntries(table, lens, s) && Matches(lens, s, v)
    ensures Lookup(table, v) == Decoded(s, lens[s])
  {
    LowSplit(v, lens[s], 8 - lens[s]);
    assert lens[s] + (8 - lens[s]) == 8;
    assert Matches(lens, s, Index(v));
  }

  lemma LongDecodes(table: seq<uint16>, lens: seq<nat>, s: nat, v: nat)
    requires |table| == TABLE_SIZE && LongEntries(table, lens, s) && Matches(lens, s, v)
    ensures Lookup(table, v) == Decoded(s, lens[s])
  {
    var l, c := lens[s], Rev(lens[s], Code(lens, s));
    LowSplit(v, 8, l - 8);
    assert 8 + (l - 8) == l;
    assert Index(v) == Index(c);
    var t := table[Index(c)];
    assert table[SecondIndex(ValueOf(t), Shr(v, 8), BitsOf(t))] == SymbolEntry(s, l);
  }

  lemma TableDecodes(table: seq<uint16>, lens: seq<nat>)
    requires LongTable(table, lens, 8, 0)
    ensures Decodes(table, lens)
  {
    forall s: nat, v: nat | Matches(lens, s, v)
      ensures Lookup(table, v) == Decoded(s, lens[s])
    {
      if lens[s] <= 8 {
        DirectDecodes(table, lens, s, v);
      } else {
        assert StoredLong(lens, s, 8, 0);
        LongDecodes(table, lens, s, v);
      }
    }
  }

  /** Builds the decoding table for the code lengths. For lengths that are not over-subscribed, a table that is
      built decodes every canonical code, whatever bits follow it. */
  method BuildTable(codes: seq<nat>, next: array<uint16>, table: array<uint16>) returns (ok: bool)
    requires |codes| <= MAX_CODES && |codes| <= next.Length && table.Length == TABLE_SIZE && next != table
    modifies next, table
    ensures ok ==> forall i | 0 <= i < |codes| :: codes[i] <= MAX_BITS
    ensures ok && Fits(codes) ==> Decodes(table[..], codes)
    ensures Fits(codes) ==> (ok <==> HasRoom(codes) && forall i | 0 <= i < |codes| :: codes[i] <= MAX_BITS)
  {
    hide Owned, HasRoom, Fits, Linked, DirectTable, LongTable, Decodes;
    var count, start, firstcode, code;
    ok, count, start := LinkByLength(codes, next);
    if !ok {
      return;
    }
    ghost var count0, start0, next0 := count[..], start[..], next[..];
    LinkedCounts(codes, count0, start0, next0);
    ok, code := FillPrimary(codes, count, start, next, table);
    if !ok {
      return;
    }
    assert count[..] == count0 && start[..] == start0 && next[..] == next0;
    assert forall j: nat | j < 16 :: count[j] == count0[j];
    ok, firstcode := FirstCodes(codes, count, code);
    if !ok {
      return;
    }
    assert count[..] == count0 && start[..] == start0 && next[..] == next0;
    ok := FillSecondaries(codes, count, start, next, firstcode, table);
    if ok && Fits(codes) {
      TableDecodes(table[..], codes);
    }
  }

  lemma {:induction false} SmallTables(lens: seq<nat>, m: nat)
    requires forall i | 0 <= i < |lens| :: lens[i] <= 9
    ensures SlotTotal(lens, m) <= 2 * m
  {
    hide SlotBits, InSlot;
    if m > 0 {
      SmallTables(lens, m - 1);
      SlotBitsBound(lens, m - 1, |lens|, 1);
      assert Pow2(0) == 1 && Pow2(1) == 2;
    }
  }

  /** Codes of at most nine bits, such as the fixed ones, always have room. */
  lemma NineHasRoom(lens: seq<nat>)
    requires forall i | 0 <= i < |lens| :: lens[i] <= 9
    ensures HasRoom(lens)
  {
    SmallTables(lens, PRIMARY);
  }
}
