/** The in-place quicksort of libbacktrace (backtrace_qsort, base.c).
    It takes its pivot from the middle, moves smaller elements to the front, calls itself for the smaller side and
    loops for the larger one. Sortedness is carried by the pairs of elements that are not yet in order: they all
    lie in the part that is left. */
module BacktraceSort {
  import opened Bits
  import opened Halving
  import opened SegmentPerm

  /** What a comparison function must be for the order to make sense: antisymmetric and transitive. */
  ghost predicate IsOrder<T(!new)>(cmp: (T, T) -> int) {
    && (forall x, y :: cmp(x, y) > 0 <==> cmp(y, x) < 0)
    && (forall x, y, z :: cmp(x, y) <= 0 && cmp(y, z) <= 0 ==> cmp(x, z) <= 0)
  }

  /** Every pair of s at lo..hi is in order. */
  ghost predicate Sorted<T>(s: seq<T>, cmp: (T, T) -> int, lo: nat, hi: nat) {
    && lo <= hi <= |s|
    && forall i, j :: lo <= i < j < hi ==> cmp(s[i], s[j]) <= 0
  }

  /** Every pair of s at lo..hi is in order, except perhaps the pairs inside b..e. */
  ghost predicate SortedOutside<T>(s: seq<T>, cmp: (T, T) -> int, lo: nat, hi: nat, b: nat, e: nat) {
    && lo <= b <= e <= hi <= |s|
    && forall i, j :: lo <= i < j < hi && !(b <= i && j < e) ==> cmp(s[i], s[j]) <= 0
  }

  /** As SortedOutside, with two parts left to sort, on either side of p. */
  ghost predicate SplitAt<T>(s: seq<T>, cmp: (T, T) -> int, lo: nat, hi: nat, b: nat, p: nat, e: nat) {
    && lo <= b <= p < e <= hi <= |s|
    && forall i, j :: lo <= i < j < hi && !(b <= i && j < p) && !(p < i && j < e) ==> cmp(s[i], s[j]) <= 0
  }

  /** The pivot at p is above all of b..p and not above anything in p..e. */
  ghost predicate Parted<T>(s: seq<T>, cmp: (T, T) -> int, b: nat, p: nat, e: nat) {
    && b <= p < e <= |s|
    && (forall k :: b <= k < p ==> cmp(s[p], s[k]) > 0)
    && (forall k :: p < k < e ==> cmp(s[p], s[k]) <= 0)
  }

  /** Where an element of a rearranged sequence came from. */
  lemma Origin<T>(s: seq<T>, t: seq<T>, b: nat, e: nat, i: nat) returns (j: nat)
    requires Perm(s, t, b, e) && i < |s|
    ensures j < |s| && s[j] == t[i]
    ensures if b <= i < e then b <= j < e else j == i
  {
    hide *;
    PermLength(s, t, b, e);
    if b <= i < e {
      j := PermElement(s, t, b, e, i);
    } else {
      PermOutside(s, t, b, e, i);
      j := i;
    }
  }

  lemma PartedBounds<T>(s: seq<T>, cmp: (T, T) -> int, b: nat, p: nat, e: nat)
    requires Parted(s, cmp, b, p, e)
    ensures b <= p < e <= |s|
  {
  }

  lemma PartPair<T(!new)>(s: seq<T>, cmp: (T, T) -> int, b: nat, p: nat, e: nat, i: nat, j: nat)
    requires IsOrder(cmp) && Parted(s, cmp, b, p, e)
    requires b <= i < j < e && i <= p <= j
    ensures cmp(s[i], s[j]) <= 0
  {
    var below := cmp(s[p], s[i]);
    var above := cmp(s[p], s[j]);
    assert cmp(s[i], s[p]) <= 0;
    assert cmp(s[p], s[j]) <= 0;
  }

  /** Partitioning the unsorted part leaves two unsorted parts. */
  lemma PartSplits<T(!new)>(s: seq<T>, t: seq<T>, cmp: (T, T) -> int, lo: nat, hi: nat, b: nat, p: nat, e: nat)
    requires IsOrder(cmp) && SortedOutside(s, cmp, lo, hi, b, e)
    requires Perm(s, t, b, e) && Parted(t, cmp, b, p, e)
    ensures SplitAt(t, cmp, lo, hi, b, p, e)
  {
    hide IsOrder, Perm, Parted;
    PartedBounds(t, cmp, b, p, e);
    PermLength(s, t, b, e);
    forall i, j | lo <= i < j < hi && !(b <= i && j < p) && !(p < i && j < e)
      ensures cmp(t[i], t[j]) <= 0
    {
      if b <= i && j < e {
        PartPair(t, cmp, b, p, e, i, j);
      } else {
        var x := Origin(s, t, b, e, i);
        var y := Origin(s, t, b, e, j);
      }
    }
  }

  /** Sorting the left part leaves the right one. */
  lemma LeftSorted<T>(s: seq<T>, t: seq<T>, cmp: (T, T) -> int, lo: nat, hi: nat, b: nat, p: nat, e: nat)
    requires SplitAt(s, cmp, lo, hi, b, p, e)
    requires Perm(s, t, b, p) && Sorted(t, cmp, b, p)
    ensures SortedOutside(t, cmp, lo, hi, p + 1, e)
  {
    hide Perm;
    PermLength(s, t, b, p);
    forall i, j | lo <= i < j < hi && !(p + 1 <= i && j < e)
      ensures cmp(t[i], t[j]) <= 0
    {
      if b <= i && j < p {
      } else {
        var x := Origin(s, t, b, p, i);
        var y := Origin(s, t, b, p, j);
      }
    }
  }

  /** Sorting the right part leaves the left one. */
  lemma RightSorted<T>(s: seq<T>, t: seq<T>, cmp: (T, T) -> int, lo: nat, hi: nat, b: nat, p: nat, e: nat)
    requires SplitAt(s, cmp, lo, hi, b, p, e)
    requires Perm(s, t, p + 1, e) && Sorted(t, cmp, p + 1, e)
    ensures SortedOutside(t, cmp, lo, hi, b, p)
  {
    hide Perm;
    PermLength(s, t, p + 1, e);
    forall i, j | lo <= i < j < hi && !(b <= i && j < p)
      ensures cmp(t[i], t[j]) <= 0
    {
      if p + 1 <= i && j < e {
      } else {
        var x := Origin(s, t, p + 1, e, i);
        var y := Origin(s, t, p + 1, e, j);
      }
    }
  }

  method Swap<T>(a: array<T>, i: nat, j: nat, ghost lo: nat, ghost hi: nat)
    requires lo <= i < hi <= a.Length && lo <= j < hi
    modifies a
    ensures a[..] == old(a[..])[i := old(a[j])][j := old(a[i])]
    ensures Perm(old(a[..]), a[..], lo, hi)
  {
    SwapPerm(a[..], lo, hi, i, j);
    a[i], a[j] := a[j], a[i];
    assert a[..] == old(a[..])[i := old(a[j])][j := old(a[i])];
  }

  /** The pivot is at b, the smaller elements at b+1..=m, the others at m+1..i. */
  ghost predicate Parting<T>(s: seq<T>, cmp: (T, T) -> int, b: nat, m: nat, i: nat) {
    && b <= m < i <= |s|
    && (forall k :: b < k <= m ==> cmp(s[b], s[k]) > 0)
    && (forall k :: m < k < i ==> cmp(s[b], s[k]) <= 0)
  }

  lemma PartingSmall<T>(s: seq<T>, t: seq<T>, cmp: (T, T) -> int, b: nat, m: nat, i: nat)
    requires Parting(s, cmp, b, m, i) && i < |s| && cmp(s[b], s[i]) > 0
    requires t == s[m + 1 := s[i]][i := s[m + 1]]
    ensures Parting(t, cmp, b, m + 1, i + 1)
  {
  }

  lemma PartingDone<T>(s: seq<T>, t: seq<T>, cmp: (T, T) -> int, b: nat, m: nat, e: nat)
    requires Parting(s, cmp, b, m, e)
    requires t == s[b := s[m]][m := s[b]]
    ensures Parted(t, cmp, b, m, e)
  {
  }

  lemma PartingStart<T>(s: seq<T>, cmp: (T, T) -> int, b: nat)
    requires b < |s|
    ensures Parting(s, cmp, b, b, b + 1)
  {
  }

  lemma PartingLarge<T>(s: seq<T>, cmp: (T, T) -> int, b: nat, m: nat, i: nat)
    requires Parting(s, cmp, b, m, i) && i < |s| && cmp(s[b], s[i]) <= 0
    ensures Parting(s, cmp, b, m, i + 1)
  {
  }

  /** Move the small element at i below the boundary. */
  method TakeSmall<T>(a: array<T>, cmp: (T, T) -> int, b: nat, m: nat, i: nat, ghost e: nat)
    requires b <= m < i < e <= a.Length && Parting(a[..], cmp, b, m, i) && cmp(a[b], a[i]) > 0
    modifies a
    ensures Perm(old(a[..]), a[..], b, e) && a[b] == old(a[b])
    ensures Parting(a[..], cmp, b, m + 1, i + 1)
  {
    hide *;
    if i != m + 1 {
      Swap(a, m + 1, i, b, e);
    } else {
      PermRefl(a[..], b, e);
      assert a[..] == a[..][m + 1 := a[i]][i := a[m + 1]];
    }
    PartingSmall(old(a[..]), a[..], cmp, b, m, i);
  }

  /** Put the pivot between the two parts. */
  method PlacePivot<T>(a: array<T>, cmp: (T, T) -> int, b: nat, m: nat, e: nat)
    requires b <= m < e <= a.Length && Parting(a[..], cmp, b, m, e)
    modifies a
    ensures Perm(old(a[..]), a[..], b, e) && a[m] == old(a[b])
    ensures Parted(a[..], cmp, b, m, e)
  {
    hide *;
    if m > b {
      Swap(a, b, m, b, e);
    } else {
      PermRefl(a[..], b, e);
      assert a[..] == a[..][b := a[m]][m := a[b]];
    }
    PartingDone(old(a[..]), a[..], cmp, b, m, e);
  }

  /** Partition a at b..e around its middle element; the pivot ends at m. */
  method Partition<T>(a: array<T>, cmp: (T, T) -> int, b: nat, e: nat) returns (m: nat)
    requires b + 2 <= e <= a.Length
    modifies a
    ensures b <= m < e && Perm(old(a[..]), a[..], b, e)
    ensures Parted(a[..], cmp, b, m, e)
    ensures a[m] == old(a[b + (e - b) / 2])
  {
    hide *;
    ghost var x0 := a[..];
    var mid := b + (e - b) / 2;
    ghost var pivot := a[mid];
    Swap(a, b, mid, b, e);
    m := b;
    var i := b + 1;
    PartingStart(a[..], cmp, b);
    while i < e
      invariant b <= m < i <= e
      invariant a[b] == pivot
      invariant Perm(x0, a[..], b, e)
      invariant Parting(a[..], cmp, b, m, i)
    {
      if cmp(a[b], a[i]) > 0 {
        ghost var s := a[..];
        TakeSmall(a, cmp, b, m, i, e);
        PermTrans(x0, s, a[..], b, e);
        m := m + 1;
      } else {
        PartingLarge(a[..], cmp, b, m, i);
      }
      i := i + 1;
    }
    ghost var s := a[..];
    PlacePivot(a, cmp, b, m, e);
    PermTrans(x0, s, a[..], b, e);
  }

  lemma TrivialSorted<T>(s: seq<T>, cmp: (T, T) -> int, lo: nat, hi: nat, b: nat, e: nat)
    requires SortedOutside(s, cmp, lo, hi, b, e) && e - b < 2
    ensures Sorted(s, cmp, lo, hi)
  {
  }

  lemma TrivialStart<T>(s: seq<T>, cmp: (T, T) -> int, lo: nat, hi: nat)
    requires lo <= hi <= |s|
    ensures SortedOutside(s, cmp, lo, hi, lo, hi)
  {
  }

  /** What one pass of the loop does: sort the smaller part, leave the larger. */
  lemma PassKeeps<T(!new)>(x0: seq<T>, s: seq<T>, t: seq<T>, u: seq<T>, cmp: (T, T) -> int,
                           lo: nat, hi: nat, b: nat, p: nat, e: nat, left: bool)
    requires IsOrder(cmp) && SortedOutside(s, cmp, lo, hi, b, e) && lo <= b <= p < e <= hi <= |s|
    requires Perm(x0, s, lo, hi) && Perm(s, t, b, e) && Parted(t, cmp, b, p, e)
    requires left ==> Perm(t, u, b, p) && Sorted(u, cmp, b, p)
    requires !left ==> Perm(t, u, p + 1, e) && Sorted(u, cmp, p + 1, e)
    ensures Perm(x0, u, lo, hi)
    ensures left ==> SortedOutside(u, cmp, lo, hi, p + 1, e)
    ensures !left ==> SortedOutside(u, cmp, lo, hi, b, p)
  {
    hide *;
    PermLength(s, t, b, e);
    PartSplits(s, t, cmp, lo, hi, b, p, e);
    PermWiden(s, t, b, e, lo, hi);
    PermTrans(x0, s, t, lo, hi);
    if left {
      LeftSorted(t, u, cmp, lo, hi, b, p, e);
      PermWiden(t, u, b, p, lo, hi);
    } else {
      RightSorted(t, u, cmp, lo, hi, b, p, e);
      PermWiden(t, u, p + 1, e, lo, hi);
    }
    PermTrans(x0, t, u, lo, hi);
  }

  /** Sort a at lo..hi. The recursive call takes the smaller part and the loop the larger, so depth,
      the number of calls below this one, is at most the logarithm of the count. */
  method QSort<T(!new)>(a: array<T>, cmp: (T, T) -> int, lo: nat, hi: nat) returns (ghost depth: nat)
    requires IsOrder(cmp) && lo <= hi <= a.Length
    modifies a
    ensures Perm(old(a[..]), a[..], lo, hi)
    ensures Sorted(a[..], cmp, lo, hi)
    ensures Pow2(depth) <= Max(hi - lo, 1)
    decreases hi - lo
  {
    hide *;
    ghost var x0 := a[..];
    var b, e := lo, hi;
    depth := 0;
    PermRefl(x0, lo, hi);
    TrivialStart(x0, cmp, lo, hi);
    DepthStarts(hi - lo);
    while e - b >= 2
      invariant lo <= b <= e <= hi
      invariant Perm(x0, a[..], lo, hi)
      invariant SortedOutside(a[..], cmp, lo, hi, b, e)
      invariant Pow2(depth) <= Max(hi - lo, 1)
      decreases e - b
    {
      ghost var s := a[..];
      var p := Partition(a, cmp, b, e);
      ghost var t := a[..];
      ghost var d;
      var count, mid := e - b, p - b;
      var left := 2 * mid < count;
      if left {
        d := QSort(a, cmp, b, p);
        DeeperFits(d, mid, count);
      } else {
        d := QSort(a, cmp, p + 1, e);
        DeeperFits(d, count - (mid + 1), count);
      }
      PassKeeps(x0, s, t, a[..], cmp, lo, hi, b, p, e, left);
      if left {
        b := p + 1;
      } else {
        e := p;
      }
      DepthGrows(depth, d + 1, count, hi - lo);
      depth := Max(depth, d + 1);
    }
    TrivialSorted(a[..], cmp, lo, hi, b, e);
  }
}
