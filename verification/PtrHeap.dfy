/**
  The indexed binary heap of `libcperciva/datastruct/ptrheap.c`.

  An element is an opaque pointer of type `T`.  Every element is told its position through the
  `setreccookie` callback; the map `rc` is what those callbacks have last recorded.  `compar` is
  passed to each operation because its verdict depends on records that the caller may have changed
  since the previous operation.
 */
module PtrHeap {
  import opened Bytes
  import opened Unfolding

  /** The demand on `compar` for the pointers that are in the heap: a total preorder. */
  ghost predicate TotalPreorder<T(!new)>(compar: (T, T) -> int, s: set<T>) {
    && (forall x, y :: x in s && y in s ==> (compar(x, y) <= 0 || compar(y, x) <= 0))
    && (forall x, y :: x in s && y in s ==> (compar(x, y) > 0 <==> compar(y, x) < 0))
    && (forall x, y, z {:trigger Chain(x, y, z)} ::
          Chain(x, y, z) && x in s && y in s && z in s && compar(x, y) <= 0 && compar(y, z) <= 0 ==> compar(x, z) <= 0)
  }

  /** Always true; naming it is how a proof asks for transitivity through `y`. */
  ghost predicate Chain<T>(x: T, y: T, z: T) {
    true
  }

  lemma Transitive<T(!new)>(compar: (T, T) -> int, s: seq<T>, i: nat, j: nat, k: nat)
    requires TotalPreorder(compar, Elements(s)) && i < |s| && j < |s| && k < |s|
    requires compar(s[i], s[j]) <= 0 && compar(s[j], s[k]) <= 0
    ensures compar(s[i], s[k]) <= 0
  {
    assert s[i] in Elements(s) && s[j] in Elements(s) && s[k] in Elements(s) && Chain(s[i], s[j], s[k]);
  }

  lemma Total<T(!new)>(compar: (T, T) -> int, s: seq<T>, i: nat, j: nat)
    requires TotalPreorder(compar, Elements(s)) && i < |s| && j < |s|
    ensures compar(s[i], s[j]) <= 0 || compar(s[j], s[i]) <= 0
    ensures compar(s[i], s[j]) > 0 <==> compar(s[j], s[i]) < 0
  {
    assert s[i] in Elements(s) && s[j] in Elements(s);
  }

  function Parent(j: int): (p: int)
    ensures j > 0 ==> 0 <= p < j
  {
    (j - 1) / 2
  }

  /** Heap order between every one of the first `m` elements and its parent. */
  ghost predicate Ordered<T>(elems: seq<T>, m: nat, compar: (T, T) -> int)
    requires m <= |elems|
  {
    forall j :: 0 < j < m ==> compar(elems[Parent(j)], elems[j]) <= 0
  }

  /** Heap order below every parent from position `lo` on. */
  ghost predicate OrderedFrom<T>(elems: seq<T>, m: nat, lo: nat, compar: (T, T) -> int)
    requires m <= |elems|
  {
    forall j :: 0 < j < m && Parent(j) >= lo ==> compar(elems[Parent(j)], elems[j]) <= 0
  }

  /** The same except between position `i` and its children; `i`'s parent is below `i`'s children. */
  ghost predicate OrderedExceptBelow<T>(elems: seq<T>, m: nat, lo: nat, compar: (T, T) -> int, i: nat)
    requires m <= |elems|
  {
    && (forall j :: 0 < j < m && lo <= Parent(j) != i ==> compar(elems[Parent(j)], elems[j]) <= 0)
    && (forall j :: 0 < j < m && Parent(j) == i && i > 0 && Parent(i) >= lo ==> compar(elems[Parent(i)], elems[j]) <= 0)
  }

  /** Heap order except between position `i` and its parent; `i`'s parent is below `i`'s children. */
  ghost predicate OrderedExceptAbove<T>(elems: seq<T>, m: nat, compar: (T, T) -> int, i: nat)
    requires m <= |elems|
  {
    && (forall j :: 0 < j < m && j != i ==> compar(elems[Parent(j)], elems[j]) <= 0)
    && (forall j :: 0 < j < m && Parent(j) == i && i > 0 ==> compar(elems[Parent(i)], elems[j]) <= 0)
  }

  ghost predicate Distinct<T>(elems: seq<T>, m: nat)
    requires m <= |elems|
  {
    forall i, j :: 0 <= i < j < m ==> elems[i] != elems[j]
  }

  /** Of the element at position `i`, a different one is below only there, and only if it is not above as well. */
  ghost predicate TopsOnly<T>(elems: seq<T>, i: nat)
    requires i < |elems|
  {
    forall j :: 0 < j < |elems| && elems[Parent(j)] == elems[i] != elems[j] ==>
      Parent(j) == i && (i == 0 || elems[Parent(i)] != elems[i])
  }

  /** Of the element at position `i`, a different one is above only there, and only if it is not below as well. */
  ghost predicate EndsOnly<T>(elems: seq<T>, i: nat)
    requires i < |elems|
  {
    forall j :: 0 < j < |elems| && elems[j] == elems[i] != elems[Parent(j)] ==>
      j == i && forall k :: 0 < k < |elems| && Parent(k) == i ==> elems[k] != elems[i]
  }

  /** An element that is there once is such an element. */
  lemma OnceIsEnough<T>(elems: seq<T>, i: nat)
    requires i < |elems| && forall j :: 0 <= j < |elems| && j != i ==> elems[j] != elems[i]
    ensures TopsOnly(elems, i) && EndsOnly(elems, i)
  {
  }

  /** Each of the first `m` elements was last told an index of its own, the last one it has. */
  ghost predicate LastTold<T>(elems: seq<T>, m: nat, rc: map<T, nat>)
    requires m <= |elems|
  {
    forall i :: 0 <= i < m ==> elems[i] in rc && i <= rc[elems[i]] < m && elems[rc[elems[i]]] == elems[i]
  }

  /** Each of the first `m` elements was last told its own index. */
  ghost predicate Positions<T>(elems: seq<T>, m: nat, rc: map<T, nat>)
    requires m <= |elems|
  {
    forall i :: 0 <= i < m ==> elems[i] in rc && rc[elems[i]] == i
  }

  /** The first `m` of the elements are a heap, and if `known` its elements know their positions. */
  ghost predicate HeapPrefix<T(!new)>(elems: seq<T>, m: nat, rc: map<T, nat>, compar: (T, T) -> int, known: bool) {
    && m <= |elems|
    && TotalPreorder(compar, Elements(elems))
    && Ordered(elems, m, compar)
    && Tracked(elems, m, rc, known)
  }

  ghost function Elements<T>(elems: seq<T>): set<T> {
    set x | x in elems
  }

  /** The root of an ordered heap is a least element. */
  lemma {:induction false} RootIsLeast<T(!new)>(elems: seq<T>, m: nat, compar: (T, T) -> int, j: nat)
    requires j < m <= |elems|
    requires Ordered(elems, m, compar) && TotalPreorder(compar, Elements(elems))
    ensures compar(elems[0], elems[j]) <= 0
  {
    if j == 0 {
      assert elems[0] in Elements(elems);
    } else {
      RootIsLeast(elems, m, compar, Parent(j));
      Transitive(compar, elems, 0, Parent(j), j);
    }
  }

  /** `t` permutes the first `m` elements of `s` and agrees with it beyond them. */
  ghost predicate Rearranged<T>(s: seq<T>, t: seq<T>, m: nat)
    requires m <= |s|
  {
    |t| == |s| && t[m..] == s[m..] && multiset(t[..m]) == multiset(s[..m]) && Elements(t) == Elements(s)
  }

  function Swapped<T>(s: seq<T>, i: nat, j: nat): (t: seq<T>)
    requires i < |s| && j < |s|
    ensures |t| == |s|
  {
    s[i := s[j]][j := s[i]]
  }

  lemma SwapRearranges<T>(s: seq<T>, i: nat, j: nat, m: nat)
    requires i < m <= |s| && j < m
    ensures Rearranged(s, Swapped(s, i, j), m)
  {
    var t := Swapped(s, i, j);
    assert t[..m] == s[..m][i := s[j]][j := s[i]];
    forall x | x in s
      ensures x in t
    {
      var k :| 0 <= k < |s| && s[k] == x;
      assert t[if k == i then j else if k == j then i else k] == x;
    }
  }

  lemma RearrangedTrans<T>(s: seq<T>, t: seq<T>, u: seq<T>, m: nat)
    requires m <= |s| && Rearranged(s, t, m) && Rearranged(t, u, m)
    ensures Rearranged(s, u, m)
  {
  }

  /** If `known`, the first `m` elements are distinct and each knows its position. */
  ghost predicate Tracked<T>(s: seq<T>, m: nat, rc: map<T, nat>, known: bool)
    requires m <= |s|
  {
    known ==> Distinct(s, m) && Positions(s, m, rc)
  }

  /** What the record cookies are after swapping positions `i` and `j`. */
  function SwappedCookies<T>(s: seq<T>, i: nat, j: nat, rc: map<T, nat>, advise: bool): map<T, nat>
    requires i < |s| && j < |s|
  {
    if advise then rc[s[j] := i][s[i] := j] else rc
  }

  lemma SwapKeepsTracked<T>(s: seq<T>, i: nat, j: nat, m: nat, rc: map<T, nat>, advise: bool, known: bool)
    requires i < m <= |s| && j < m && Tracked(s, m, rc, known) && (known ==> advise)
    ensures Tracked(Swapped(s, i, j), m, SwappedCookies(s, i, j, rc, advise), known)
    ensures known ==> SwappedCookies(s, i, j, rc, advise).Keys == rc.Keys
  {
  }

  /** One step of sifting up moves the only possible violation to the parent. */
  lemma SiftUpStep<T(!new)>(s: seq<T>, i: nat, m: nat, compar: (T, T) -> int)
    requires 0 < i < m <= |s|
    requires TotalPreorder(compar, Elements(s)) && OrderedExceptAbove(s, m, compar, i)
    requires compar(s[i], s[Parent(i)]) < 0
    ensures OrderedExceptAbove(Swapped(s, i, Parent(i)), m, compar, Parent(i))
  {
    var p := Parent(i);
    var t := Swapped(s, i, p);
    forall j | 0 < j < m && j != p
      ensures compar(t[Parent(j)], t[j]) <= 0
    {
      if j == i {
        assert t[i] == s[p] && t[p] == s[i];
      } else if Parent(j) == i {
        assert t[i] == s[p] && t[j] == s[j];
      } else if Parent(j) == p {
        assert t[p] == s[i] && t[j] == s[j];
        Transitive(compar, s, i, p, j);
      } else {
        assert t[Parent(j)] == s[Parent(j)] && t[j] == s[j];
      }
    }
    forall j | 0 < j < m && Parent(j) == p && p > 0
      ensures compar(t[Parent(p)], t[j]) <= 0
    {
      assert t[Parent(p)] == s[Parent(p)] && compar(s[Parent(p)], s[p]) <= 0;
      if j != i {
        Transitive(compar, s, Parent(p), p, j);
      }
    }
  }

  /** The child of `i` that sifting down would choose, or `i` itself. */
  function LeastChild<T>(s: seq<T>, i: nat, n: nat, compar: (T, T) -> int): (k: nat)
    requires i < n <= |s|
    ensures k < n && (k == i || Parent(k) == i)
  {
    var k := if 2 * i + 1 < n && compar(s[i], s[2 * i + 1]) > 0 then 2 * i + 1 else i;
    if 2 * i + 2 < n && compar(s[k], s[2 * i + 2]) > 0 then 2 * i + 2 else k
  }

  /**
    The chosen child is below its sibling, and it is never the stale copy that a deletion leaves at
    the end of the range: that copy compares equal to the element being sifted.
   */
  lemma LeastChildIsLeast<T(!new)>(s: seq<T>, i: nat, m: nat, compar: (T, T) -> int)
    requires i < m <= |s| <= m + 1 && TotalPreorder(compar, Elements(s))
    requires m < |s| ==> s[m] == s[i]
    ensures var k := LeastChild(s, i, |s|, compar);
      && k < m
      && (k != i ==> compar(s[i], s[k]) > 0)
      && (forall j :: 0 < j < m && Parent(j) == i ==> compar(s[k], s[j]) <= 0)
  {
    Total(compar, s, i, i);
    var l, r := 2 * i + 1, 2 * i + 2;
    if r < |s| {
      Total(compar, s, i, r);
      Total(compar, s, l, r);
      Total(compar, s, i, l);
      Total(compar, s, l, l);
      Total(compar, s, r, r);
      if compar(s[i], s[l]) > 0 && compar(s[l], s[r]) > 0 && compar(s[i], s[r]) <= 0 {
        Transitive(compar, s, i, r, l);
      }
      if compar(s[i], s[l]) <= 0 && compar(s[i], s[r]) > 0 {
        Transitive(compar, s, r, i, l);
      }
    } else if l < |s| {
      Total(compar, s, i, l);
      Total(compar, s, l, l);
    }
  }

  /** One step of sifting down moves the only possible violation to the chosen child. */
  lemma SiftDownStep<T(!new)>(s: seq<T>, i: nat, k: nat, m: nat, lo: nat, compar: (T, T) -> int)
    requires lo <= i < m <= |s| && k < m && Parent(k) == i && k > 0
    requires TotalPreorder(compar, Elements(s)) && OrderedExceptBelow(s, m, lo, compar, i)
    requires compar(s[i], s[k]) > 0
    requires forall j :: 0 < j < m && Parent(j) == i ==> compar(s[k], s[j]) <= 0
    ensures OrderedExceptBelow(Swapped(s, k, i), m, lo, compar, k)
  {
    var t := Swapped(s, k, i);
    forall j | 0 < j < m && lo <= Parent(j) != k
      ensures compar(t[Parent(j)], t[j]) <= 0
    {
      if j == k {
        Total(compar, s, i, k);
      } else if j == i {
        assert t[i] == s[k] && t[Parent(i)] == s[Parent(i)];
      } else {
        assert t[j] == s[j];
      }
    }
    forall j | 0 < j < m && Parent(j) == k
      ensures compar(t[Parent(k)], t[j]) <= 0
    {
      assert t[i] == s[k] && t[j] == s[j];
    }
  }

  /**
    What holds while the element now at `i` is being sifted down among the first `m` elements.  When
    a deletion is under way one more position is in range: the stale copy of that same element.
   */
  ghost predicate SiftingDown<T(!new)>(s0: seq<T>, s: seq<T>, m: nat, lo: nat, compar: (T, T) -> int, i: nat) {
    && lo <= i < m <= |s0| <= m + 1
    && Rearranged(s0, s, m)
    && OrderedExceptBelow(s, m, lo, compar, i)
    && TotalPreorder(compar, Elements(s))
    && (m < |s| ==> s[m] == s[i])
  }

  lemma SiftDown<T(!new)>(s0: seq<T>, s: seq<T>, m: nat, lo: nat, compar: (T, T) -> int, i: nat)
    requires SiftingDown(s0, s, m, lo, compar, i)
    ensures var k := LeastChild(s, i, |s|, compar);
      k < m && if k == i then OrderedFrom(s, m, lo, compar) else SiftingDown(s0, Swapped(s, k, i), m, lo, compar, k)
  {
    LeastChildIsLeast(s, i, m, compar);
    var k := LeastChild(s, i, |s|, compar);
    if k != i {
      SwapRearranges(s, k, i, m);
      RearrangedTrans(s0, s, Swapped(s, k, i), m);
      SiftDownStep(s, i, k, m, lo, compar);
      assert m < |s| ==> Swapped(s, k, i)[m] == Swapped(s, k, i)[k];
    }
  }

  /** What holds while the element now at `i` is being sifted up among the first `m` elements. */
  ghost predicate SiftingUp<T(!new)>(s0: seq<T>, s: seq<T>, rc: map<T, nat>, m: nat, compar: (T, T) -> int, i: nat,
                                     known: bool) {
    && i < m <= |s0|
    && Rearranged(s0, s, m)
    && OrderedExceptAbove(s, m, compar, i)
    && TotalPreorder(compar, Elements(s))
    && Tracked(s, m, rc, known)
  }

  lemma SiftUp<T(!new)>(s0: seq<T>, s: seq<T>, rc: map<T, nat>, m: nat, compar: (T, T) -> int, i: nat, known: bool)
    requires SiftingUp(s0, s, rc, m, compar, i, known) && i > 0 && compar(s[i], s[Parent(i)]) < 0
    ensures SiftingUp(s0, Swapped(s, i, Parent(i)), SwappedCookies(s, i, Parent(i), rc, true), m, compar, Parent(i),
                      known)
    ensures known ==> SwappedCookies(s, i, Parent(i), rc, true).Keys == rc.Keys
  {
    SwapRearranges(s, i, Parent(i), m);
    RearrangedTrans(s0, s, Swapped(s, i, Parent(i)), m);
    SwapKeepsTracked(s, i, Parent(i), m, rc, true, known);
    SiftUpStep(s, i, m, compar);
  }

  lemma SiftedUp<T(!new)>(s0: seq<T>, s: seq<T>, rc: map<T, nat>, m: nat, compar: (T, T) -> int, i: nat, known: bool)
    requires SiftingUp(s0, s, rc, m, compar, i, known)
    requires i == 0 || compar(s[i], s[Parent(i)]) >= 0
    ensures HeapPrefix(s, m, rc, compar, known)
  {
    forall j | 0 < j < m
      ensures compar(s[Parent(j)], s[j]) <= 0
    {
      Total(compar, s, i, Parent(j));
    }
  }

  /** The first `m` elements are a heap, except that the one at `pos` has to go up or down. */
  ghost predicate Misplaced<T(!new)>(s: seq<T>, rc: map<T, nat>, m: nat, compar: (T, T) -> int, pos: nat, known: bool)
    requires pos < m <= |s|
  {
    forall x :: x == MISPLACING && About(x) ==>
      if pos > 0 && compar(s[pos], s[Parent(pos)]) < 0 then SiftingUp(s, s, rc, m, compar, pos, known)
      else SiftingDown(s, s, m, 0, compar, pos)
  }

  /** The elements are a heap, except that the last one has to go up. */
  ghost predicate Appending<T(!new)>(t: seq<T>, rc: map<T, nat>, compar: (T, T) -> int, known: bool) {
    && t != []
    && forall x :: x == MISPLACING && About(x) ==> SiftingUp(t, t, rc, |t|, compar, |t| - 1, known)
  }

  lemma WhichWay<T(!new)>(s: seq<T>, rc: map<T, nat>, m: nat, compar: (T, T) -> int, pos: nat, known: bool)
    requires pos < m <= |s| && Misplaced(s, rc, m, compar, pos, known)
    ensures if pos > 0 && compar(s[pos], s[Parent(pos)]) < 0 then SiftingUp(s, s, rc, m, compar, pos, known)
      else SiftingDown(s, s, m, 0, compar, pos)
  {
    assert About(MISPLACING);
  }

  class Heap<T(==, !new)> {
    var elems: seq<T>
    var rc: map<T, nat>

    ghost predicate Valid(compar: (T, T) -> int)
      reads this
    {
      HeapPrefix(elems, |elems|, rc, compar, false)
    }

    /** No pointer is in the heap twice, and each was last told its own index. */
    ghost predicate Known()
      reads this
    {
      Tracked(elems, |elems|, rc, true)
    }

    /** `swap`: exchange two elements and, unless told not to, advise both of their new positions. */
    method Swap(i: nat, j: nat, advise: bool)
      requires i < |elems| && j < |elems|
      modifies this
      ensures elems == Swapped(old(elems), i, j)
      ensures rc == SwappedCookies(old(elems), i, j, old(rc), advise)
    {
      elems := elems[i := elems[j]][j := elems[i]];
      if advise {
        rc := rc[elems[i] := i];
        rc := rc[elems[j] := j];
      }
    }

    /**
      `heapifyup`, on a heap of `m` live elements: the element at `start` may be too small for its
      place.  Elements beyond the live range are never touched.
     */
    method HeapifyUp(start: nat, ghost m: nat, compar: (T, T) -> int, ghost known: bool)
      requires SiftingUp(elems, elems, rc, m, compar, start, known)
      modifies this
      ensures Rearranged(old(elems), elems, m)
      ensures HeapPrefix(elems, m, rc, compar, known)
      ensures known ==> rc.Keys == old(rc.Keys)
    {
      var i: nat := start;
      while i != 0 && compar(elems[i], elems[Parent(i)]) < 0
        invariant SiftingUp(old(elems), elems, rc, m, compar, i, known)
        invariant known ==> rc.Keys == old(rc.Keys)
      {
        SiftUp(old(elems), elems, rc, m, compar, i, known);
        Swap(i, Parent(i), true);
        i := Parent(i);
      }
      SiftedUp(old(elems), elems, rc, m, compar, i, known);
    }

    /**
      `heapify`, called with the whole array as its range: the element at `start` may be too large
      for its place.  If the last position holds a stale copy of that element, only the `m` elements
      before it are live, and the copy stays where it is.
     */
    method Heapify(start: nat, ghost m: nat, ghost lo: nat, compar: (T, T) -> int, advise: bool, ghost known: bool)
      requires SiftingDown(elems, elems, m, lo, compar, start)
      requires Tracked(elems, m, rc, known) && (known ==> advise)
      modifies this
      ensures Rearranged(old(elems), elems, m)
      ensures OrderedFrom(elems, m, lo, compar) && Tracked(elems, m, rc, known)
      ensures TotalPreorder(compar, Elements(elems))
      ensures (known ==> rc.Keys == old(rc.Keys)) && (!advise ==> rc == old(rc))
    {
      var i: nat := start;
      while true
        invariant SiftingDown(old(elems), elems, m, lo, compar, i)
        invariant Tracked(elems, m, rc, known)
        invariant (known ==> rc.Keys == old(rc.Keys)) && (!advise ==> rc == old(rc))
        decreases m - i
      {
        SiftDown(old(elems), elems, m, lo, compar, i);
        var min := LeastChild(elems, i, |elems|, compar);
        if min == i {
          break;
        }
        SwapKeepsTracked(elems, min, i, m, rc, advise, known);
        Swap(min, i, advise);
        i := min;
      }
    }

    /**
      The heap-building loop of `ptrheap_create`: sift down from the last position to the first.  The
      index is unsigned and the loop ends when it wraps; for an empty heap it starts out wrapped.
     */
    method BuildHeap(compar: (T, T) -> int)
      requires |elems| < TWO_64 && TotalPreorder(compar, Elements(elems))
      modifies this
      ensures Rearranged(old(elems), elems, |old(elems)|) && rc == old(rc)
      ensures Ordered(elems, |elems|, compar)
    {
      var n := |elems|;
      var i: nat := Dec64(n);
      while i < n
        invariant i < n || i == SIZE_MAX
        invariant Rearranged(old(elems), elems, n) && rc == old(rc)
        invariant OrderedFrom(elems, n, if i < n then i + 1 else 0, compar)
        decreases if i < n then i + 1 else 0
      {
        ghost var before := elems;
        StartSiftingDown(before, n, i, compar);
        Heapify(i, n, i, compar, false, false);
        RearrangedTrans(old(elems), before, elems, n);
        i := Dec64(i);
      }
    }

    /** `ptrheap_create`: a heap of the given pointers, each advised of its position. */
    constructor Create(ptrs: seq<T>, compar: (T, T) -> int)
      requires |ptrs| < TWO_64 && TotalPreorder(compar, Elements(ptrs))
      ensures Valid(compar) && multiset(elems) == multiset(ptrs) && rc.Keys == Elements(ptrs)
      ensures Distinct(ptrs, |ptrs|) ==> Known()
    {
      elems := ptrs;
      rc := map[];
      new;
      BuildHeap(compar);
      assert elems[..|elems|] == elems && ptrs[..|ptrs|] == ptrs;
      AdviseAll();
      if Distinct(ptrs, |ptrs|) {
        StillDistinct(ptrs, elems);
      }
    }

    /** The closing loop of `ptrheap_create`: tell every element where it is. */
    method AdviseAll()
      requires rc == map[]
      modifies this`rc
      ensures LastTold(elems, |elems|, rc) && rc.Keys == Elements(elems)
      ensures Distinct(elems, |elems|) ==> Known()
    {
      for k := 0 to |elems|
        invariant LastTold(elems, k, rc) && rc.Keys == Elements(elems[..k])
      {
        rc := rc[elems[k] := k];
      }
      assert elems[..|elems|] == elems;
    }

    /** `ptrheap_add`; `canAlloc` is whether the element list can grow. */
    method Add(ptr: T, compar: (T, T) -> int, canAlloc: bool) returns (ok: bool)
      requires Valid(compar) && TotalPreorder(compar, Elements(elems) + {ptr})
      modifies this
      ensures ok == canAlloc
      ensures ok ==> Valid(compar) && multiset(elems) == multiset(old(elems)) + multiset{ptr}
      ensures ok ==> Elements(elems) == old(Elements(elems)) + {ptr}
      ensures ok && old(Known()) && ptr !in old(elems) ==> Known() && rc.Keys == old(rc.Keys) + {ptr}
      ensures !ok ==> elems == old(elems) && rc == old(rc)
    {
      if !canAlloc {
        return false;
      }
      ghost var known := Known() && ptr !in elems;
      Append(ptr, compar, known);
      SiftLast(compar, known);
      Added(old(elems), ptr, elems);
      return true;
    }

    /** Put the new element at the end and tell it so. */
    method Append(ptr: T, ghost compar: (T, T) -> int, ghost known: bool)
      requires Tracked(elems, |elems|, rc, known) && Ordered(elems, |elems|, compar) && (known ==> ptr !in elems)
      requires TotalPreorder(compar, Elements(elems) + {ptr})
      modifies this
      ensures elems == old(elems) + [ptr] && rc == old(rc)[ptr := |old(elems)|]
      ensures Appending(elems, rc, compar, known)
    {
      Appended(elems, ptr, rc, compar, known);
      elems := elems + [ptr];
      rc := rc[ptr := |elems| - 1];
    }

    /** Sift the last element up. */
    method SiftLast(compar: (T, T) -> int, ghost known: bool)
      requires Appending(elems, rc, compar, known)
      modifies this
      ensures Rearranged(old(elems), elems, |old(elems)|) && HeapPrefix(elems, |elems|, rc, compar, known)
      ensures known ==> rc.Keys == old(rc.Keys)
    {
      assert About(MISPLACING);
      HeapifyUp(|elems| - 1, |elems|, compar, known);
    }

    /** `ptrheap_getmin`: a least element, or nothing exactly when the heap is empty. */
    method GetMin(ghost compar: (T, T) -> int) returns (r: Option<T>)
      requires Valid(compar)
      ensures r.None? <==> elems == []
      ensures r.Some? ==> r.value == elems[0]
      ensures r.Some? ==> forall x :: x in elems ==> compar(r.value, x) <= 0
    {
      if |elems| == 0 {
        return None;
      }
      forall x | x in elems
        ensures compar(elems[0], x) <= 0
      {
        var j :| 0 <= j < |elems| && elems[j] == x;
        RootIsLeast(elems, |elems|, compar, j);
      }
      return Some(elems[0]);
    }

    /**
      The middle of `ptrheap_delete`: sift the element that has just been moved to `pos` whichever
      way it has to go.  Its stale copy is still at the end of the array, within the sifted range.
     */
    method SiftMoved(pos: nat, ghost m: nat, compar: (T, T) -> int, ghost known: bool)
      requires pos < m == |elems| - 1 && Tracked(elems, m, rc, known) && Misplaced(elems, rc, m, compar, pos, known)
      modifies this
      ensures Rearranged(old(elems), elems, m) && HeapPrefix(elems, m, rc, compar, known)
      ensures known ==> rc.Keys == old(rc.Keys)
    {
      WhichWay(elems, rc, m, compar, pos, known);
      if pos > 0 && compar(elems[pos], elems[Parent(pos)]) < 0 {
        MoveUp(pos, m, compar, known);
      } else {
        Heapify(pos, m, 0, compar, true, known);
      }
    }

    /** The moved element is smaller than its parent: exchange them and go on from there. */
    method MoveUp(pos: nat, ghost m: nat, compar: (T, T) -> int, ghost known: bool)
      requires 0 < pos < m <= |elems| && SiftingUp(elems, elems, rc, m, compar, pos, known)
      requires compar(elems[pos], elems[Parent(pos)]) < 0
      modifies this
      ensures Rearranged(old(elems), elems, m) && HeapPrefix(elems, m, rc, compar, known)
      ensures known ==> rc.Keys == old(rc.Keys)
    {
      SiftUp(elems, elems, rc, m, compar, pos, known);
      Swap(pos, Parent(pos), true);
      ghost var swapped := elems;
      RestartSiftingUp(old(elems), elems, rc, m, compar, Parent(pos), known);
      HeapifyUp(Parent(pos), m, compar, known);
      RearrangedTrans(old(elems), swapped, elems, m);
    }

    /** `ptrheap_delete`: remove the element whose record cookie is `pos`, wherever it is. */
    method Delete(pos: nat, compar: (T, T) -> int)
      requires Valid(compar) && pos < |elems|
      modifies this
      ensures Valid(compar) && multiset(elems) == multiset(old(elems)) - multiset{old(elems)[pos]}
      ensures old(Known()) ==> Known() && Elements(elems) == old(Elements(elems)) - {old(elems)[pos]}
      ensures old(Known()) ==> rc.Keys == old(rc.Keys)
    {
      ghost var known := Known();
      TakeOut(pos, |elems| - 1, compar, known);
      Shrink(compar, known);
      if known {
        OneLess(old(elems), elems, pos);
      }
    }

    /** All of `ptrheap_delete` but its last line: the place that is given up is the last one. */
    method TakeOut(pos: nat, ghost m: nat, compar: (T, T) -> int, ghost known: bool)
      requires HeapPrefix(elems, |elems|, rc, compar, known) && pos <= m == |elems| - 1
      modifies this
      ensures |elems| == |old(elems)| && HeapPrefix(elems, m, rc, compar, known)
      ensures multiset(elems[..m]) == multiset(old(elems)) - multiset{old(elems)[pos]}
      ensures known ==> rc.Keys == old(rc.Keys)
    {
      if pos != |elems| - 1 {
        MoveLast(pos, m, compar, known);
        SiftMoved(pos, m, compar, known);
      } else {
        LastIsSpare(elems, rc, compar, known);
      }
    }

    /** The end of `ptrheap_delete`: the last place is given up. */
    method Shrink(ghost compar: (T, T) -> int, ghost known: bool)
      requires elems != [] && HeapPrefix(elems, |elems| - 1, rc, compar, known)
      modifies this`elems
      ensures Valid(compar) && (known ==> Known()) && elems == old(elems)[..|old(elems)| - 1]
    {
      DropLast(elems, rc, compar, known);
      elems := elems[..|elems| - 1];
    }

    /** The first step of `ptrheap_delete`: the last element is copied over the one to be deleted. */
    method MoveLast(pos: nat, ghost m: nat, ghost compar: (T, T) -> int, ghost known: bool)
      requires HeapPrefix(elems, |elems|, rc, compar, known) && pos < m == |elems| - 1
      modifies this
      ensures |elems| == |old(elems)| && (known ==> rc.Keys == old(rc.Keys))
      ensures multiset(elems[..m]) == multiset(old(elems)) - multiset{old(elems)[pos]}
      ensures Tracked(elems, m, rc, known) && Misplaced(elems, rc, m, compar, pos, known)
    {
      elems := elems[pos := elems[|elems| - 1]];
      rc := rc[elems[pos] := pos];
      Replaced(old(elems), elems, old(rc), rc, pos, m, compar, known);
    }

    /** `ptrheap_decrease`: restore the heap after the element at `pos` has become smaller. */
    method Decrease(pos: nat, ghost before: (T, T) -> int, compar: (T, T) -> int)
      requires Valid(before) && pos < |elems| && TotalPreorder(compar, Elements(elems))
      requires EndsOnly(elems, pos) && Decreased(before, compar, Elements(elems), elems[pos])
      modifies this
      ensures Valid(compar) && Rearranged(old(elems), elems, |old(elems)|)
      ensures old(Known()) ==> Known() && rc.Keys == old(rc.Keys)
    {
      DecreasedOrder(before, compar, elems, pos);
      HeapifyUp(pos, |elems|, compar, Known());
    }

    /** `ptrheap_increase`: restore the heap after the element at `pos` has become larger. */
    method Increase(pos: nat, ghost before: (T, T) -> int, compar: (T, T) -> int)
      requires Valid(before) && pos < |elems| && TotalPreorder(compar, Elements(elems))
      requires TopsOnly(elems, pos) && Increased(before, compar, Elements(elems), elems[pos])
      modifies this
      ensures Valid(compar) && Rearranged(old(elems), elems, |old(elems)|)
      ensures old(Known()) ==> Known() && rc.Keys == old(rc.Keys)
    {
      IncreasedOrder(before, compar, elems, pos);
      Heapify(pos, |elems|, 0, compar, true, Known());
    }
  }

  /** Only the place of `e` in the order has changed. */
  ghost predicate OthersUnmoved<T(!new)>(before: (T, T) -> int, compar: (T, T) -> int, s: set<T>, e: T) {
    forall x, y :: x in s && y in s && x != e && y != e ==> (before(x, y) <= 0 <==> compar(x, y) <= 0)
  }

  ghost predicate Increased<T(!new)>(before: (T, T) -> int, compar: (T, T) -> int, s: set<T>, e: T) {
    OthersUnmoved(before, compar, s, e) && forall x :: x in s && before(x, e) <= 0 ==> compar(x, e) <= 0
  }

  ghost predicate Decreased<T(!new)>(before: (T, T) -> int, compar: (T, T) -> int, s: set<T>, e: T) {
    OthersUnmoved(before, compar, s, e) && forall x :: x in s && before(e, x) <= 0 ==> compar(e, x) <= 0
  }

  lemma IncreasedOrder<T(!new)>(before: (T, T) -> int, compar: (T, T) -> int, s: seq<T>, i: nat)
    requires i < |s| && TopsOnly(s, i) && Ordered(s, |s|, before) && TotalPreorder(compar, Elements(s))
    requires TotalPreorder(before, Elements(s)) && Increased(before, compar, Elements(s), s[i])
    ensures OrderedExceptBelow(s, |s|, 0, compar, i)
  {
    forall j | 0 < j < |s| && Parent(j) != i
      ensures compar(s[Parent(j)], s[j]) <= 0
    {
      assert s[j] in Elements(s) && s[Parent(j)] in Elements(s);
    }
    forall j | 0 < j < |s| && Parent(j) == i && i > 0
      ensures compar(s[Parent(i)], s[j]) <= 0
    {
      assert s[j] in Elements(s) && s[Parent(i)] in Elements(s);
      Transitive(before, s, Parent(i), i, j);
    }
  }

  lemma DecreasedOrder<T(!new)>(before: (T, T) -> int, compar: (T, T) -> int, s: seq<T>, i: nat)
    requires i < |s| && EndsOnly(s, i) && Ordered(s, |s|, before) && TotalPreorder(compar, Elements(s))
    requires TotalPreorder(before, Elements(s)) && Decreased(before, compar, Elements(s), s[i])
    ensures OrderedExceptAbove(s, |s|, compar, i)
  {
    forall j | 0 < j < |s| && j != i
      ensures compar(s[Parent(j)], s[j]) <= 0
    {
      assert s[j] in Elements(s) && s[Parent(j)] in Elements(s);
    }
    forall j | 0 < j < |s| && Parent(j) == i && i > 0
      ensures compar(s[Parent(i)], s[j]) <= 0
    {
      assert s[j] in Elements(s) && s[Parent(i)] in Elements(s);
      Transitive(before, s, Parent(i), i, j);
    }
  }

  /** The order that puts `e` after everything else, and the one that puts it before. */
  function Last<T(==)>(before: (T, T) -> int, e: T): (T, T) -> int {
    (x, y) => if x == e && y == e then 0 else if x == e then 1 else if y == e then -1 else before(x, y)
  }

  function First<T(==)>(before: (T, T) -> int, e: T): (T, T) -> int {
    (x, y) => if x == e && y == e then 0 else if x == e then -1 else if y == e then 1 else before(x, y)
  }

  lemma LastIsIncreased<T(!new)>(before: (T, T) -> int, s: set<T>, e: T)
    requires TotalPreorder(before, s)
    ensures TotalPreorder(Last(before, e), s) && Increased(before, Last(before, e), s, e)
  {
  }

  lemma FirstIsDecreased<T(!new)>(before: (T, T) -> int, s: set<T>, e: T)
    requires TotalPreorder(before, s)
    ensures TotalPreorder(First(before, e), s) && Decreased(before, First(before, e), s, e)
  {
  }

  /**
    That is the exact condition: only then does every increase of the element leave the heap in order everywhere
    but below position `i`.
   */
  lemma IncreaseExactly<T(!new)>(before: (T, T) -> int, s: seq<T>, i: nat)
    requires i < |s| && Ordered(s, |s|, before) && TotalPreorder(before, Elements(s))
    ensures TopsOnly(s, i) <==> forall compar ::
      TotalPreorder(compar, Elements(s)) && Increased(before, compar, Elements(s), s[i]) ==>
        OrderedExceptBelow(s, |s|, 0, compar, i)
  {
    if TopsOnly(s, i) {
      forall compar: (T, T) -> int | TotalPreorder(compar, Elements(s)) && Increased(before, compar, Elements(s), s[i])
        ensures OrderedExceptBelow(s, |s|, 0, compar, i)
      {
        IncreasedOrder(before, compar, s, i);
      }
    } else {
      LastIsIncreased(before, Elements(s), s[i]);
      assert !OrderedExceptBelow(s, |s|, 0, Last(before, s[i]), i);
    }
  }

  /** And this one for every decrease to leave it in order everywhere but above position `i`. */
  lemma DecreaseExactly<T(!new)>(before: (T, T) -> int, s: seq<T>, i: nat)
    requires i < |s| && Ordered(s, |s|, before) && TotalPreorder(before, Elements(s))
    ensures EndsOnly(s, i) <==> forall compar ::
      TotalPreorder(compar, Elements(s)) && Decreased(before, compar, Elements(s), s[i]) ==>
        OrderedExceptAbove(s, |s|, compar, i)
  {
    if EndsOnly(s, i) {
      forall compar: (T, T) -> int | TotalPreorder(compar, Elements(s)) && Decreased(before, compar, Elements(s), s[i])
        ensures OrderedExceptAbove(s, |s|, compar, i)
      {
        DecreasedOrder(before, compar, s, i);
      }
    } else {
      FirstIsDecreased(before, Elements(s), s[i]);
      assert !OrderedExceptAbove(s, |s|, First(before, s[i]), i);
    }
  }

  lemma RestartSiftingUp<T(!new)>(s0: seq<T>, s: seq<T>, rc: map<T, nat>, m: nat, compar: (T, T) -> int, i: nat,
                                  known: bool)
    requires SiftingUp(s0, s, rc, m, compar, i, known)
    ensures SiftingUp(s, s, rc, m, compar, i, known)
  {
  }

  lemma SmallerPreorder<T(!new)>(compar: (T, T) -> int, s: set<T>, t: set<T>)
    requires TotalPreorder(compar, s) && t <= s
    ensures TotalPreorder(compar, t)
  {
  }

  lemma StartSiftingDown<T(!new)>(s: seq<T>, n: nat, i: nat, compar: (T, T) -> int)
    requires i < n == |s| && TotalPreorder(compar, Elements(s)) && OrderedFrom(s, n, i + 1, compar)
    ensures SiftingDown(s, s, n, i, compar, i)
  {
  }

  lemma Appended<T(!new)>(s: seq<T>, ptr: T, rc: map<T, nat>, compar: (T, T) -> int, known: bool)
    requires Tracked(s, |s|, rc, known) && Ordered(s, |s|, compar) && (known ==> ptr !in s)
    requires TotalPreorder(compar, Elements(s) + {ptr})
    ensures Appending(s + [ptr], rc[ptr := |s|], compar, known)
  {
    var t := s + [ptr];
    assert Elements(t) == Elements(s) + {ptr};
    assert known ==> Distinct(t, |t|);
    assert OrderedExceptAbove(t, |t|, compar, |s|);
  }

  lemma Added<T>(s: seq<T>, ptr: T, t: seq<T>)
    requires Rearranged(s + [ptr], t, |s| + 1)
    ensures multiset(t) == multiset(s) + multiset{ptr} && Elements(t) == Elements(s) + {ptr}
  {
    assert t[..|s| + 1] == t && (s + [ptr])[..|s| + 1] == s + [ptr];
  }

  /** The first `|s| - 1` positions of an array, if they form a heap, are a heap by themselves. */
  lemma DropLast<T(!new)>(s: seq<T>, rc: map<T, nat>, compar: (T, T) -> int, known: bool)
    requires |s| > 0 && HeapPrefix(s, |s| - 1, rc, compar, known)
    ensures HeapPrefix(s[..|s| - 1], |s| - 1, rc, compar, known)
  {
    SmallerPreorder(compar, Elements(s), Elements(s[..|s| - 1]));
  }

  lemma LastIsSpare<T(!new)>(s: seq<T>, rc: map<T, nat>, compar: (T, T) -> int, known: bool)
    requires s != [] && HeapPrefix(s, |s|, rc, compar, known)
    ensures HeapPrefix(s, |s| - 1, rc, compar, known) && multiset(s[..|s| - 1]) == multiset(s) - multiset{s[|s| - 1]}
  {
    assert s == s[..|s| - 1] + [s[|s| - 1]];
  }

  /** In a list without repetitions every element is there once. */
  lemma {:induction false} Count<T>(s: seq<T>, x: T)
    requires Distinct(s, |s|)
    ensures multiset(s)[x] == if x in s then 1 else 0
  {
    if s != [] {
      var m := |s| - 1;
      Count(s[..m], x);
      assert s == s[..m] + [s[m]];
    }
  }

  lemma StillDistinct<T>(s: seq<T>, t: seq<T>)
    requires Distinct(s, |s|) && multiset(s) == multiset(t)
    ensures Distinct(t, |t|)
  {
    forall i, j | 0 <= i < j < |t|
      ensures t[i] != t[j]
    {
      Count(s, t[i]);
      Twice(t, i, j);
    }
  }

  lemma Twice<T>(t: seq<T>, i: nat, j: nat)
    requires i < j < |t|
    ensures t[i] == t[j] ==> multiset(t)[t[i]] >= 2
  {
    assert t == t[..i] + [t[i]] + t[i + 1..j] + [t[j]] + t[j + 1..];
  }

  /** If no element is there twice, taking one out takes it out altogether. */
  lemma OneLess<T>(s: seq<T>, t: seq<T>, pos: nat)
    requires pos < |s| && Distinct(s, |s|) && multiset(t) == multiset(s) - multiset{s[pos]}
    ensures Elements(t) == Elements(s) - {s[pos]}
  {
    forall x
      ensures x in t <==> x in s && x != s[pos]
    {
      Count(s, x);
      assert x in t <==> multiset(t)[x] > 0;
    }
  }

  /** What the first step of a deletion leaves behind. */
  lemma Replaced<T(!new)>(s: seq<T>, t: seq<T>, rc: map<T, nat>, rc': map<T, nat>, pos: nat, m: nat, compar: (T,
                          T) -> int, known: bool)
    requires HeapPrefix(s, |s|, rc, compar, known) && pos < m == |s| - 1
    requires t == s[pos := s[m]] && rc' == rc[s[m] := pos]
    ensures multiset(t[..m]) == multiset(s) - multiset{s[pos]}
    ensures Tracked(t, m, rc', known) && Misplaced(t, rc', m, compar, pos, known) && (known ==> rc'.Keys == rc.Keys)
  {
    ReplacedElements(s, t, pos, m);
    ReplacedTracked(s, t, pos, m, rc, known);
    ReplacedOrder(s, t, pos, m, compar);
    SmallerPreorder(compar, Elements(s), Elements(t));
    GoesOneWay(t, rc', m, compar, pos, known);
  }

  lemma GoesOneWay<T(!new)>(t: seq<T>, rc: map<T, nat>, m: nat, compar: (T, T) -> int, pos: nat, known: bool)
    requires pos < m == |t| - 1 && t[m] == t[pos] && TotalPreorder(compar, Elements(t)) && Tracked(t, m, rc, known)
    requires if pos > 0 && compar(t[pos], t[Parent(pos)]) < 0 then OrderedExceptAbove(t, m, compar, pos)
      else OrderedExceptBelow(t, m, 0, compar, pos)
    ensures Misplaced(t, rc, m, compar, pos, known)
  {
  }

  lemma ReplacedElements<T>(s: seq<T>, t: seq<T>, pos: nat, m: nat)
    requires pos < m == |s| - 1 && t == s[pos := s[m]]
    ensures multiset(t[..m]) == multiset(s) - multiset{s[pos]} && Elements(t) <= Elements(s)
  {
    assert s == s[..m] + [s[m]];
    assert t[..m] == s[..m][pos := s[m]];
  }

  lemma ReplacedTracked<T>(s: seq<T>, t: seq<T>, pos: nat, m: nat, rc: map<T, nat>, known: bool)
    requires pos < m == |s| - 1 && t == s[pos := s[m]] && Tracked(s, |s|, rc, known)
    ensures Tracked(t, m, rc[s[m] := pos], known)
    ensures known ==> rc[s[m] := pos].Keys == rc.Keys
  {
  }

  /** Overwriting position `pos` by the last element leaves at most one misplaced element. */
  lemma ReplacedOrder<T(!new)>(s: seq<T>, t: seq<T>, pos: nat, m: nat, compar: (T, T) -> int)
    requires pos < m == |s| - 1 && t == s[pos := s[m]] && TotalPreorder(compar, Elements(s)) && Ordered(s, |s|, compar)
    ensures if pos > 0 && compar(t[pos], t[Parent(pos)]) < 0 then OrderedExceptAbove(t, m, compar, pos)
      else OrderedExceptBelow(t, m, 0, compar, pos)
  {
    assert forall j :: 0 < j < m && j != pos && Parent(j) != pos ==> t[j] == s[j] && t[Parent(j)] == s[Parent(j)];
    if pos > 0 {
      Total(compar, s, m, Parent(pos));
      forall j | 0 < j < m && Parent(j) == pos
        ensures compar(t[Parent(pos)], t[j]) <= 0
        ensures compar(t[pos], t[Parent(pos)]) < 0 ==> compar(t[pos], t[j]) <= 0
      {
        Transitive(compar, s, Parent(pos), pos, j);
        if compar(t[pos], t[Parent(pos)]) < 0 {
          Transitive(compar, s, m, Parent(pos), j);
        }
      }
    }
  }
}
