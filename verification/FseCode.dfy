/** Coding with a finished FSE table: decoding undoes encoding (section 4.1 of RFC 8878). */
module FseCode {
  import opened Bits
  import opened Counting
  import opened FseTable

  /** A finished decoding table. */
  ghost predicate IsTable(table: seq<Cell>, cells: seq<int>, norm: seq<int>, k: nat) {
    Normalised(norm, k) && Spread(cells, norm, k) && Numbered(table, cells, norm, k, Pow2(k))
  }

  predicate HasCells(norm: seq<int>, s: nat) {
    s < |norm| && Cells(norm[s]) > 0
  }

  /** Drop low bits of S until it is a state number of a symbol with c cells: the state and the bits dropped. */
  function Renorm(S: nat, c: nat): (r: (nat, nat))
    requires 0 < c <= S
    ensures c <= r.0 < 2 * c && Shr(S, r.1) == r.0
  {
    if S < 2 * c then (S, 0)
    else
      var (x, n) := Renorm(S / 2, c);
      (x, n + 1)
  }

  lemma {:induction false} ShrLess(S: nat, n: nat)
    ensures Shr(S, n) <= S
    ensures n > 0 ==> 2 * Shr(S, n) <= S
  {
    if n > 0 {
      ShrLess(S / 2, n - 1);
    }
  }

  /** There is only one way to drop bits from S and end among the state numbers. */
  lemma {:induction false} RenormUnique(S: nat, c: nat, n: nat)
    requires 0 < c <= Shr(S, n) < 2 * c && c <= S
    ensures Renorm(S, c) == (Shr(S, n), n)
  {
    ShrLess(S, n);
    if n == 0 {
    } else if S < 2 * c {
    } else {
      RenormUnique(S / 2, c, n - 1);
    }
  }

  /** State numbers between 2^k and 2^(k+1) lose exactly their excess bits. */
  lemma {:induction false} ShrLog(S: nat, k: nat, n: nat)
    requires Pow2(k) <= S < 2 * Pow2(k) && Shr(S, n) > 0
    ensures n <= k && Log2(Shr(S, n)) == k - n
  {
    if n == 0 {
      Log2Unique(S, k);
    } else {
      ShrLess(S / 2, n - 1);
      if k > 0 {
        ShrLog(S / 2, k - 1, n - 1);
      }
    }
  }

  /** The cell that is the r-th one of symbol s. */
  function CellOf(cells: seq<int>, s: int, r: nat, n: nat): (i: nat)
    requires n <= |cells| && r < Count(cells, s, n)
    ensures i < n && cells[i] == s && Count(cells, s, i) == r
  {
    if cells[n - 1] == s && Count(cells, s, n - 1) == r then n - 1 else CellOf(cells, s, r, n - 1)
  }

  lemma CellUnique(cells: seq<int>, i: nat, j: nat)
    requires i < |cells| && j < |cells| && cells[i] == cells[j]
    requires Count(cells, cells[i], i) == Count(cells, cells[i], j)
    ensures i == j
  {
    if i < j {
      CountAt(cells, i, j);
    } else if j < i {
      CountAt(cells, j, i);
    }
  }

  /** The values that lead to cell i. */
  predicate InCell(c: Cell, v: nat) {
    c.base <= v < c.base + Pow2(c.bits)
  }

  /** A cell for state number x takes exactly the values that shift to x. */
  lemma InCellIff(c: Cell, x: nat, k: nat, v: nat)
    requires CellFor(c, x, k)
    ensures InCell(c, v) <==> Shr(v + Pow2(k), c.bits) == x
    ensures InCell(c, v) ==> v == c.base + Low(v + Pow2(k), c.bits)
  {
    var S := v + Pow2(k);
    if InCell(c, v) {
      LowOfSum(v - c.base, x, c.bits);
      assert v - c.base + Shl(x, c.bits) == S;
    }
    ShlShr(S, c.bits);
  }

  /** The cell from which a decoder that has just read symbol s can go on to value v. */
  function EncodeCell(cells: seq<int>, norm: seq<int>, k: nat, s: nat, v: nat): (i: nat)
    requires HasCells(norm, s) && Count(cells, s, |cells|) == Cells(norm[s]) <= Pow2(k)
    ensures i < |cells| && cells[i] == s
    ensures StateOf(cells, norm, i) == Renorm(v + Pow2(k), Cells(norm[s])).0
  {
    CellOf(cells, s, Renorm(v + Pow2(k), Cells(norm[s])).0 - Cells(norm[s]), |cells|)
  }

  /** What a finished table says about cell i. */
  lemma TableAt(table: seq<Cell>, cells: seq<int>, norm: seq<int>, k: nat, i: nat)
    requires IsTable(table, cells, norm, k) && i < |cells|
    ensures i < |table| && 0 <= cells[i] == table[i].symbol < |norm| && HasCells(norm, table[i].symbol)
    ensures Cells(norm[cells[i]]) <= StateOf(cells, norm, i) < 2 * Cells(norm[cells[i]])
    ensures CellFor(table[i], StateOf(cells, norm, i), k)
  {
    StateBounds(cells, norm, k, i);
  }

  lemma TableSize(table: seq<Cell>, cells: seq<int>, norm: seq<int>, k: nat)
    requires IsTable(table, cells, norm, k)
    ensures |table| == |cells| == Pow2(k)
  {
  }

  lemma TableSymbol(table: seq<Cell>, cells: seq<int>, norm: seq<int>, k: nat, s: nat)
    requires IsTable(table, cells, norm, k) && s < |norm|
    ensures |table| == |cells| == Pow2(k) && Count(cells, s, |cells|) == Cells(norm[s]) <= Pow2(k)
  {
    CellsFit(norm, k, s);
  }

  /** The cell that the encoder picks takes v, and its missing bits are the low bits of v. */
  lemma EncodeCellTakes(table: seq<Cell>, cells: seq<int>, norm: seq<int>, k: nat, s: nat, v: nat)
    requires IsTable(table, cells, norm, k) && HasCells(norm, s) && v < Pow2(k)
    ensures Count(cells, s, |cells|) == Cells(norm[s]) <= Pow2(k) == |table| == |cells|
    ensures var c := table[EncodeCell(cells, norm, k, s, v)];
      c.symbol == s && InCell(c, v) && v == c.base + Low(v + Pow2(k), c.bits)
  {
    hide IsTable, Spread, InCell, CellFor, Pow2, Count, StateOf, EncodeCell;
    TableSymbol(table, cells, norm, k, s);
    var i := EncodeCell(cells, norm, k, s, v);
    TableAt(table, cells, norm, k, i);
    var S := v + Pow2(k);
    var (x, n) := Renorm(S, Cells(norm[s]));
    ShrLog(S, k, n);
    CellForBits(table[i], x, k);
    InCellIff(table[i], x, k, v);
  }

  lemma CellForBits(c: Cell, x: nat, k: nat)
    requires CellFor(c, x, k)
    ensures x > 0 && c.bits == k - Log2(x)
  {
  }

  /** It is the only cell of the symbol that takes v. */
  lemma OneCellTakes(table: seq<Cell>, cells: seq<int>, norm: seq<int>, k: nat, v: nat, i: nat)
    requires IsTable(table, cells, norm, k) && i < |table| && InCell(table[i], v) && v < Pow2(k)
    ensures HasCells(norm, table[i].symbol)
    ensures Count(cells, table[i].symbol, |cells|) == Cells(norm[table[i].symbol]) <= Pow2(k)
    ensures i == EncodeCell(cells, norm, k, table[i].symbol, v)
  {
    hide IsTable, Spread, InCell, CellFor, Pow2, Shr, EncodeCell, Count;
    TableSize(table, cells, norm, k);
    TableAt(table, cells, norm, k, i);
    var s := table[i].symbol;
    TableSymbol(table, cells, norm, k, s);
    InCellIff(table[i], StateOf(cells, norm, i), k, v);
    RenormUnique(v + Pow2(k), Cells(norm[s]), table[i].bits);
    CellUnique(cells, i, EncodeCell(cells, norm, k, s, v));
  }

  /** Cell i of symbol s leads to v. */
  predicate Takes(table: seq<Cell>, s: nat, i: nat, v: nat) {
    i < |table| && table[i].symbol == s && InCell(table[i], v)
  }

  /** For each symbol, the ranges of its cells partition the state values. */
  lemma RangesPartition(table: seq<Cell>, cells: seq<int>, norm: seq<int>, k: nat, s: nat, v: nat)
    requires IsTable(table, cells, norm, k) && HasCells(norm, s) && v < Pow2(k)
    ensures exists i: nat :: Takes(table, s, i, v)
    ensures forall i: nat, j: nat :: Takes(table, s, i, v) && Takes(table, s, j, v) ==> i == j
  {
    hide InCell, IsTable, EncodeCell, Spread, Count, Pow2;
    EncodeCellTakes(table, cells, norm, k, s, v);
    assert Takes(table, s, EncodeCell(cells, norm, k, s, v), v);
    forall i: nat, j: nat | Takes(table, s, i, v) && Takes(table, s, j, v)
      ensures i == j
    {
      OneCellTakes(table, cells, norm, k, v, i);
      OneCellTakes(table, cells, norm, k, v, j);
    }
  }

  // ---- Whole messages

  function ToBits(v: nat, n: nat): (r: seq<bool>)
    ensures |r| == n
  {
    if n == 0 then [] else [v % 2 == 1] + ToBits(v / 2, n - 1)
  }

  function FromBits(b: seq<bool>): nat {
    if b == [] then 0 else (if b[0] then 1 else 0) + 2 * FromBits(b[1..])
  }

  lemma {:induction false} BitsRoundTrip(v: nat, n: nat)
    ensures FromBits(ToBits(v, n)) == Low(v, n)
  {
    if n > 0 {
      BitsRoundTrip(v / 2, n - 1);
    }
  }

  ghost predicate Encodable(msg: seq<nat>, norm: seq<int>) {
    forall i | 0 <= i < |msg| :: HasCells(norm, msg[i])
  }

  /** The state to start decoding from, and the bits to read, so that msg comes out and the state ends in last. */
  ghost function Encode(table: seq<Cell>, cells: seq<int>, norm: seq<int>, k: nat, msg: seq<nat>, last: nat)
    : (r: (nat, seq<bool>))
    requires IsTable(table, cells, norm, k) && Encodable(msg, norm) && last < Pow2(k)
    ensures r.0 < Pow2(k)
  {
    if msg == [] then (last, [])
    else
      var (v, bits) := Encode(table, cells, norm, k, msg[1..], last);
      EncodeCellTakes(table, cells, norm, k, msg[0], v);
      var i := EncodeCell(cells, norm, k, msg[0], v);
      (i, ToBits(v + Pow2(k), table[i].bits) + bits)
  }

  datatype Output = Output(msg: seq<nat>, state: nat, rest: seq<bool>)

  /** Decoding n symbols: put out the symbol of the cell, read its bits, and go to base plus those bits. */
  function Decode(table: seq<Cell>, state: nat, bits: seq<bool>, n: nat): Output
    decreases n
  {
    if n == 0 || state >= |table| || table[state].bits > |bits| then Output([], state, bits)
    else
      var c := table[state];
      var r := Decode(table, c.base + FromBits(bits[..c.bits]), bits[c.bits..], n - 1);
      Output([c.symbol] + r.msg, r.state, r.rest)
  }

  /** One symbol decoded. */
  lemma DecodeStep(table: seq<Cell>, state: nat, v: nat, S: nat, bits: seq<bool>, n: nat)
    requires state < |table| && n > 0 && v == table[state].base + Low(S, table[state].bits)
    ensures var r := Decode(table, v, bits, n - 1);
      Decode(table, state, ToBits(S, table[state].bits) + bits, n)
        == Output([table[state].symbol] + r.msg, r.state, r.rest)
  {
    var c := table[state];
    var field := ToBits(S, c.bits);
    BitsRoundTrip(S, c.bits);
    assert (field + bits)[..c.bits] == field && (field + bits)[c.bits..] == bits;
  }

  /** One symbol encoded. */
  lemma EncodeStep(table: seq<Cell>, cells: seq<int>, norm: seq<int>, k: nat, msg: seq<nat>, last: nat)
    requires IsTable(table, cells, norm, k) && Encodable(msg, norm) && last < Pow2(k) && msg != []
    ensures var (v, bits) := Encode(table, cells, norm, k, msg[1..], last);
      var (i, all) := Encode(table, cells, norm, k, msg, last);
      i < |table| && table[i].symbol == msg[0] && v == table[i].base + Low(v + Pow2(k), table[i].bits)
      && all == ToBits(v + Pow2(k), table[i].bits) + bits
  {
    hide IsTable, EncodeCell, InCell, HasCells, Pow2, Count, ToBits;
    var (v, bits) := Encode(table, cells, norm, k, msg[1..], last);
    assert HasCells(norm, msg[0]);
    EncodeCellTakes(table, cells, norm, k, msg[0], v);
  }

  /** Decoding inverts encoding, whatever follows the encoded bits. */
  lemma {:induction false} RoundTrip(table: seq<Cell>, cells: seq<int>, norm: seq<int>, k: nat, msg: seq<nat>,
                                     last: nat, more: seq<bool>)
    requires IsTable(table, cells, norm, k) && Encodable(msg, norm) && last < Pow2(k)
    ensures var (start, bits) := Encode(table, cells, norm, k, msg, last);
      Decode(table, start, bits + more, |msg|) == Output(msg, last, more)
  {
    hide *;
    if msg == [] {
      EmptyRoundTrip(table, cells, norm, k, last, more);
    } else {
      TailEncodable(msg, norm);
      RoundTrip(table, cells, norm, k, msg[1..], last, more);
      EncodeStep(table, cells, norm, k, msg, last);
      var (v, bits) := Encode(table, cells, norm, k, msg[1..], last);
      var (i, all) := Encode(table, cells, norm, k, msg, last);
      DecodeStep(table, i, v, v + Pow2(k), bits + more, |msg|);
      assert all + more == ToBits(v + Pow2(k), table[i].bits) + (bits + more);
      assert [msg[0]] + msg[1..] == msg;
    }
  }

  lemma EmptyRoundTrip(table: seq<Cell>, cells: seq<int>, norm: seq<int>, k: nat, last: nat, more: seq<bool>)
    requires IsTable(table, cells, norm, k) && last < Pow2(k)
    ensures var (start, bits) := Encode(table, cells, norm, k, [], last);
      Decode(table, start, bits + more, 0) == Output([], last, more)
  {
    assert [] + more == more;
  }

  lemma TailEncodable(msg: seq<nat>, norm: seq<int>)
    requires Encodable(msg, norm) && msg != []
    ensures Encodable(msg[1..], norm)
  {
  }
}
