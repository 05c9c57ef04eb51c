/** The edge sort of the glyph rasteriser (stbtt__sort_edges, stb_truetype.h).
    The quicksort stops at parts of 12 edges, and may also leave single edges out of place; the insertion sort
    that follows makes the order. What the quicksort has to do is lose nothing, stay in bounds although its scans
    test no index, and not recurse deeply. */
module EdgeSort {
  import opened Bits
  import opened Halving
  import opened SegmentPerm

  datatype Edge = Edge(x0: real, y0: real, x1: real, y1: real, invert: bool)

  predicate Before(a: Edge, b: Edge) { a.y0 < b.y0 }

  ghost predicate SortedEdges(s: seq<Edge>, lo: nat, hi: nat) {
    lo <= hi <= |s| && forall i, j :: lo <= i < j < hi ==> s[i].y0 <= s[j].y0
  }

  method SwapEdges(p: array<Edge>, i: nat, j: nat, ghost lo: nat, ghost hi: nat)
    requires lo <= i < hi <= p.Length && lo <= j < hi
    modifies p
    ensures p[..] == old(p[..])[i := old(p[j])][j := old(p[i])]
    ensures Perm(old(p[..]), p[..], lo, hi)
  {
    SwapPerm(p[..], lo, hi, i, j);
    p[i], p[j] := p[j], p[i];
    assert p[..] == old(p[..])[i := old(p[j])][j := old(p[i])];
  }

  // -------------------------------------------------------- insertion sort

  /** The elements below i are sorted, with a gap at j that t, the element taken from i, is to fill. */
  ghost predicate Gap(s: seq<Edge>, t: Edge, lo: nat, i: nat, j: nat) {
    && lo <= j <= i < |s|
    && (forall x, y :: lo <= x < y <= i && x != j && y != j ==> s[x].y0 <= s[y].y0)
    && (forall y :: j < y <= i ==> t.y0 < s[y].y0)
  }

  lemma GapMoves(s: seq<Edge>, t: Edge, lo: nat, i: nat, j: nat)
    requires Gap(s, t, lo, i, j) && j > lo && Before(t, s[j - 1])
    ensures Gap(s[j := s[j - 1]], t, lo, i, j - 1)
  {
  }

  lemma GapFilled(s: seq<Edge>, t: Edge, lo: nat, i: nat, j: nat)
    requires Gap(s, t, lo, i, j) && (j == lo || !Before(t, s[j - 1]))
    ensures SortedEdges(s[j := t], lo, i + 1)
  {
  }

  lemma GapOpens(s: seq<Edge>, lo: nat, i: nat)
    requires SortedEdges(s, lo, i) && i < |s|
    ensures Gap(s, s[i], lo, i, i)
  {
  }

  lemma GapSwap(s: seq<Edge>, t: Edge, j: nat)
    requires 0 < j < |s|
    ensures var u := s[j := t]; u[j := u[j - 1]][j - 1 := u[j]] == s[j := s[j - 1]][j - 1 := t]
  {
  }

  /** Moving the gap does not change what is there once it is filled. */
  lemma GapPerm(x0: seq<Edge>, s: seq<Edge>, t: Edge, lo: nat, hi: nat, j: nat)
    requires lo < j < hi <= |s| && Perm(x0, s[j := t], lo, hi)
    ensures Perm(x0, s[j := s[j - 1]][j - 1 := t], lo, hi)
  {
    hide Perm;
    var u := s[j := t];
    SwapPerm(u, lo, hi, j, j - 1);
    GapSwap(s, t, j);
    PermTrans(x0, u, u[j := u[j - 1]][j - 1 := u[j]], lo, hi);
  }

  /** Insert the element at i among the sorted elements before it. */
  method Insert(p: array<Edge>, lo: nat, i: nat, ghost hi: nat)
    requires lo <= i < hi <= p.Length && SortedEdges(p[..], lo, i)
    modifies p
    ensures SortedEdges(p[..], lo, i + 1) && Perm(old(p[..]), p[..], lo, hi)
  {
    hide *;
    ghost var x0 := p[..];
    var t := p[i];
    var j := i;
    GapOpens(x0, lo, i);
    PermRefl(x0, lo, hi);
    assert x0[i := t] == x0;
    while j > lo
      invariant lo <= j <= i
      invariant Gap(p[..], t, lo, i, j)
      invariant Perm(x0, p[..][j := t], lo, hi)
      invariant j == i ==> p[..] == x0
    {
      if !Before(t, p[j - 1]) {
        break;
      }
      ghost var s := p[..];
      GapMoves(s, t, lo, i, j);
      GapPerm(x0, s, t, lo, hi, j);
      p[j] := p[j - 1];
      assert p[..] == s[j := s[j - 1]];
      j := j - 1;
    }
    ghost var s := p[..];
    GapFilled(s, t, lo, i, j);
    if i != j {
      p[j] := t;
    }
    assert p[..] == s[j := t];
  }

  lemma SortedStarts(s: seq<Edge>, lo: nat, hi: nat)
    requires lo <= hi <= lo + 1 && hi <= |s|
    ensures SortedEdges(s, lo, hi)
  {
  }

  method InsertionSort(p: array<Edge>, lo: nat, n: nat)
    requires lo + n <= p.Length
    modifies p
    ensures SortedEdges(p[..], lo, lo + n) && Perm(old(p[..]), p[..], lo, lo + n)
  {
    hide Perm, SortedEdges;
    ghost var x0 := p[..];
    PermRefl(x0, lo, lo + n);
    if n == 0 {
      SortedStarts(x0, lo, lo);
      return;
    }
    var i := 1;
    SortedStarts(x0, lo, lo + 1);
    while i < n
      invariant 1 <= i <= n
      invariant SortedEdges(p[..], lo, lo + i)
      invariant Perm(x0, p[..], lo, lo + n)
    {
      ghost var s := p[..];
      Insert(p, lo, lo + i, lo + n);
      PermTrans(x0, s, p[..], lo, lo + n);
      i := i + 1;
    }
  }

  // -------------------------------------------------------------- quicksort

  /** p[lo] is the pivot, and some element after it is not before it: the sentinel of the first scan. */
  ghost predicate Guarded(s: seq<Edge>, lo: nat, i: nat, hi: nat) {
    lo < i <= hi <= |s| && exists k :: i <= k < hi && s[k].y0 >= s[lo].y0
  }

  predicate Between(a: Edge, b: Edge, c: Edge) {
    a.y0 <= b.y0 <= c.y0 || c.y0 <= b.y0 <= a.y0
  }

  /** Bring the median of the first, the middle and the last element to the middle. */
  method MedianToMiddle(p: array<Edge>, lo: nat, m: nat, last: nat)
    requires lo < m < last < p.Length
    modifies p
    ensures Perm(old(p[..]), p[..], lo, last + 1)
    ensures Between(p[lo], p[m], p[last])
  {
    hide Perm;
    var c01 := Before(p[lo], p[m]);
    var c12 := Before(p[m], p[last]);
    PermRefl(p[..], lo, last + 1);
    if c01 != c12 {
      var c := Before(p[lo], p[last]);
      var z := if c == c12 then lo else last;
      SwapEdges(p, z, m, lo, last + 1);
    }
  }

  lemma MedianGuards(s: seq<Edge>, u: seq<Edge>, lo: nat, m: nat, last: nat)
    requires lo < m < last < |s| && Between(s[lo], s[m], s[last])
    requires u == s[lo := s[m]][m := s[lo]]
    ensures Between(u[m], u[lo], u[last]) && Guarded(u, lo, lo + 1, last + 1)
  {
    assert u[m].y0 >= u[lo].y0 || u[last].y0 >= u[lo].y0;
  }

  /** Bring the median of the first, the middle and the last element to the front. */
  method MedianToFront(p: array<Edge>, lo: nat, n: nat)
    requires n > 12 && lo + n <= p.Length
    modifies p
    ensures Perm(old(p[..]), p[..], lo, lo + n)
    ensures Between(p[lo + n / 2], p[lo], p[lo + n - 1])
    ensures Guarded(p[..], lo, lo + 1, lo + n)
  {
    hide *;
    MedianToPivot(p, lo, lo + n / 2, lo + n - 1);
  }

  method MedianToPivot(p: array<Edge>, lo: nat, m: nat, last: nat)
    requires lo < m < last < p.Length
    modifies p
    ensures Perm(old(p[..]), p[..], lo, last + 1)
    ensures Between(p[m], p[lo], p[last]) && Guarded(p[..], lo, lo + 1, last + 1)
  {
    hide *;
    ghost var x0 := p[..];
    MedianToMiddle(p, lo, m, last);
    ghost var s := p[..];
    SwapEdges(p, lo, m, lo, last + 1);
    PermTrans(x0, s, p[..], lo, last + 1);
    MedianGuards(s, p[..], lo, m, last);
  }

  /** Between the scans: the elements before i are not after the pivot, those after j not before it,
      and the scan upwards will meet an element that stops it. */
  ghost predicate Scanning(s: seq<Edge>, lo: nat, i: nat, j: nat, hi: nat) {
    && lo < i <= j + 1 <= hi <= |s|
    && (forall k :: lo < k < i ==> s[k].y0 <= s[lo].y0)
    && (forall k :: j < k < hi ==> s[k].y0 >= s[lo].y0)
    && Guarded(s, lo, i, hi)
  }

  /** Scan up to the first element that is not before the pivot: the sentinel keeps it in bounds. */
  method ScanUp(p: array<Edge>, lo: nat, from: nat, j: nat, hi: nat) returns (i: nat)
    requires hi <= p.Length && Scanning(p[..], lo, from, j, hi)
    ensures from <= i < hi && i <= j + 1 && !Before(p[i], p[lo])
    ensures forall k :: from <= k < i ==> p[k].y0 < p[lo].y0
  {
    i := from;
    assert forall k :: 0 <= k < hi ==> p[..][k] == p[k];
    while true
      invariant from <= i < hi && i <= j + 1
      invariant forall k :: from <= k < i ==> p[k].y0 < p[lo].y0
      decreases hi - i
    {
      if !Before(p[i], p[lo]) {
        break;
      }
      i := i + 1;
    }
  }

  /** Scan down to the first element that the pivot is not before; the pivot itself stops it. */
  method ScanDown(p: array<Edge>, lo: nat, from: nat) returns (j: nat)
    requires lo <= from < p.Length
    ensures lo <= j <= from && !Before(p[lo], p[j])
    ensures forall k :: j < k <= from ==> p[lo].y0 < p[k].y0
  {
    j := from;
    while true
      invariant lo <= j <= from
      invariant forall k :: j < k <= from ==> p[lo].y0 < p[k].y0
      decreases j
    {
      if !Before(p[lo], p[j]) {
        break;
      }
      j := j - 1;
    }
  }

  lemma ScanStarts(s: seq<Edge>, lo: nat, hi: nat)
    requires Guarded(s, lo, lo + 1, hi) && lo + 2 <= hi
    ensures Scanning(s, lo, lo + 1, hi - 1, hi)
  {
  }

  /** Exchanging a pair that the scans stopped at keeps the partition, and leaves the next scan a sentinel. */
  lemma ScanSwaps(s: seq<Edge>, u: seq<Edge>, lo: nat, i0: nat, j0: nat, i: nat, j: nat, hi: nat)
    requires Scanning(s, lo, i0, j0, hi) && i0 <= i < j <= j0 < hi
    requires forall k :: i0 <= k < i ==> s[k].y0 < s[lo].y0
    requires forall k :: j < k <= j0 ==> s[lo].y0 < s[k].y0
    requires s[i].y0 >= s[lo].y0 >= s[j].y0
    requires u == s[i := s[j]][j := s[i]]
    ensures Scanning(u, lo, i + 1, j - 1, hi)
  {
    assert u[j].y0 >= u[lo].y0;
  }

  /** Where the partition ends: nothing from the cut on is before anything up to it. */
  ghost predicate Cut(s: seq<Edge>, lo: nat, i: nat, j: nat, hi: nat) {
    && lo <= j <= i <= j + 1 <= hi <= |s|
    && (forall k :: lo <= k <= j ==> s[k].y0 <= s[lo].y0)
    && (forall k :: i <= k < hi ==> s[k].y0 >= s[lo].y0)
  }

  lemma ScanEnds(s: seq<Edge>, lo: nat, i0: nat, j0: nat, i: nat, j: nat, hi: nat)
    requires Scanning(s, lo, i0, j0, hi) && i0 <= i < hi && i <= j0 + 1 && lo <= j <= j0 && j <= i
    requires forall k :: i0 <= k < i ==> s[k].y0 < s[lo].y0
    requires forall k :: j < k <= j0 ==> s[lo].y0 < s[k].y0
    requires s[i].y0 >= s[lo].y0 >= s[j].y0
    ensures Cut(s, lo, i, j, hi)
  {
    if i - 1 > lo {
      assert s[i - 1].y0 <= s[lo].y0;
    }
  }

  lemma NotBefore(a: Edge, b: Edge)
    requires !Before(a, b)
    ensures a.y0 >= b.y0
  {
  }

  method SwapStopped(ghost x0: seq<Edge>, p: array<Edge>, lo: nat, ghost i0: nat, ghost j0: nat, i: nat, j: nat,
                     ghost hi: nat)
    requires hi <= p.Length && Scanning(p[..], lo, i0, j0, hi) && i0 <= i < j <= j0 < hi && lo < i0
    requires forall k :: i0 <= k < i ==> p[k].y0 < p[lo].y0
    requires forall k :: j < k <= j0 ==> p[lo].y0 < p[k].y0
    requires p[i].y0 >= p[lo].y0 >= p[j].y0
    requires Perm(x0, p[..], lo, hi)
    modifies p
    ensures Perm(x0, p[..], lo, hi) && Scanning(p[..], lo, i + 1, j - 1, hi)
  {
    hide *;
    ghost var s := p[..];
    SwapEdges(p, i, j, lo, hi);
    PermTrans(x0, s, p[..], lo, hi);
    ScanSwaps(s, p[..], lo, i0, j0, i, j, hi);
  }

  /** Partition p at lo..lo+n around the median of three. Every index read is inside the part. */
  method PartitionEdges(p: array<Edge>, lo: nat, n: nat) returns (i: nat, j: nat)
    requires n > 12 && lo + n <= p.Length
    modifies p
    ensures Perm(old(p[..]), p[..], lo, lo + n)
    ensures Cut(p[..], lo, i, j, lo + n) && lo < i
  {
    hide *;
    ghost var x0 := p[..];
    var hi := lo + n;
    MedianToFront(p, lo, n);
    ScanStarts(p[..], lo, hi);
    i := lo + 1;
    j := hi - 1;
    while true
      invariant lo < i <= j + 1 <= hi
      invariant Perm(x0, p[..], lo, hi)
      invariant Scanning(p[..], lo, i, j, hi)
      decreases j - i
    {
      ghost var s := p[..];
      var i' := ScanUp(p, lo, i, j, hi);
      var j' := ScanDown(p, lo, j);
      NotBefore(s[i'], s[lo]);
      NotBefore(s[lo], s[j']);
      if i' >= j' {
        ScanEnds(s, lo, i, j, i', j', hi);
        return i', j';
      }
      SwapStopped(x0, p, lo, i, j, i', j', hi);
      i, j := i' + 1, j' - 1;
    }
  }

  lemma CutBounds(s: seq<Edge>, lo: nat, i: nat, j: nat, hi: nat)
    requires Cut(s, lo, i, j, hi)
    ensures lo <= j <= i <= j + 1 <= hi <= |s|
  {
  }

  /** Nothing in the part from lo to hi is lost, and the recursion, which takes the smaller side, is
      at most as deep as the logarithm of the count. */
  method QuickSort(p: array<Edge>, lo: nat, n: nat) returns (ghost depth: nat)
    requires lo + n <= p.Length
    modifies p
    ensures Perm(old(p[..]), p[..], lo, lo + n)
    ensures Pow2(depth) <= Max(n, 1)
    decreases n
  {
    hide *;
    ghost var x0 := p[..];
    var b, c := lo, n;
    depth := 0;
    PermRefl(x0, lo, lo + n);
    DepthStarts(n);
    while c > 12
      invariant lo <= b && b + c <= lo + n && c <= n
      invariant Perm(x0, p[..], lo, lo + n)
      invariant Pow2(depth) <= Max(n, 1)
      decreases c
    {
      ghost var s := p[..];
      var i, j := PartitionEdges(p, b, c);
      CutBounds(p[..], b, i, j, b + c);
      ghost var t := p[..];
      ghost var d;
      var left, right := j - b, b + c - i;
      ghost var size := c;
      if left < right {
        d := QuickSort(p, b, left);
        DeeperFits(d, left, c);
        PassPerm(x0, s, t, p[..], lo, lo + n, b, b + c, b, b + left);
        b, c := i, right;
      } else {
        d := QuickSort(p, i, right);
        DeeperFits(d, right, c);
        PassPerm(x0, s, t, p[..], lo, lo + n, b, b + c, i, i + right);
        c := left;
      }
      DepthGrows(depth, d + 1, size, n);
      depth := Max(depth, d + 1);
    }
  }

  lemma PassPerm(x0: seq<Edge>, s: seq<Edge>, t: seq<Edge>, u: seq<Edge>, lo: nat, hi: nat,
                 b: nat, e: nat, b': nat, e': nat)
    requires Perm(x0, s, lo, hi) && Perm(s, t, b, e) && Perm(t, u, b', e')
    requires lo <= b <= b' && e' <= e <= hi <= |x0|
    ensures Perm(x0, u, lo, hi)
  {
    hide *;
    PermLength(x0, s, lo, hi);
    PermLength(s, t, b, e);
    PermWiden(s, t, b, e, lo, hi);
    PermTrans(x0, s, t, lo, hi);
    PermWiden(t, u, b', e', lo, hi);
    PermTrans(x0, t, u, lo, hi);
  }

  /** stbtt__sort_edges: the quicksort stops short of sorting, the insertion sort finishes. */
  method SortEdges(p: array<Edge>, n: nat) returns (ghost depth: nat)
    requires n <= p.Length
    modifies p
    ensures SortedEdges(p[..], 0, n)
    ensures Perm(old(p[..]), p[..], 0, n)
    ensures Pow2(depth) <= Max(n, 1)
  {
    hide *;
    ghost var x0 := p[..];
    depth := QuickSort(p, 0, n);
    ghost var s := p[..];
    InsertionSort(p, 0, n);
    PermTrans(x0, s, p[..], 0, n);
  }
}
