/** src/heap_sort.c: heap sort of an array of row pointers.  Every array element carries, with the
    pointer, the contents the callback reads through it. */
module HeapSort {
  import opened SortOrder

  /** The children of i are not above i. */
  ghost predicate Dominates<R, I>(s: seq<Entry<R, I>>, i: nat, end: nat, le: (I, I) -> bool)
    requires i < end <= |s|
  {
    && (2 * i + 1 < end ==> le(s[2 * i + 1].item, s[i].item))
    && (2 * i + 2 < end ==> le(s[2 * i + 2].item, s[i].item))
  }

  /** s[start..end] is part of a heap whose greatest element is on top. */
  ghost predicate Heap<R, I>(s: seq<Entry<R, I>>, start: nat, end: nat, le: (I, I) -> bool)
    requires end <= |s|
  {
    forall i :: start <= i < end ==> Dominates(s, i, end, le)
  }

  /** A heap but for root, whose children are still not above root's parent. */
  ghost predicate HeapBut<R, I>(s: seq<Entry<R, I>>, start: nat, end: nat, root: nat, le: (I, I) -> bool)
    requires end <= |s|
  {
    && (forall i :: start <= i < end && i != root ==> Dominates(s, i, end, le))
    && (forall q :: start <= q < end && (2 * q + 1 == root || 2 * q + 2 == root) ==>
          && (2 * root + 1 < end ==> le(s[2 * root + 1].item, s[q].item))
          && (2 * root + 2 < end ==> le(s[2 * root + 2].item, s[q].item)))
  }

  function Exchanged<T>(s: seq<T>, i: nat, j: nat): (t: seq<T>)
    requires i < |s| && j < |s|
    ensures |t| == |s|
  {
    s[i := s[j]][j := s[i]]
  }

  /** t holds the elements of s, those of the first end among themselves, and the rest in place. */
  ghost predicate Shuffled<T>(s: seq<T>, t: seq<T>, end: nat) {
    && end <= |s| == |t|
    && multiset(t) == multiset(s)
    && multiset(t[..end]) == multiset(s[..end])
    && t[end..] == s[end..]
  }

  lemma SwapElements<T>(s: seq<T>, i: nat, j: nat)
    requires i < |s| && j < |s|
    ensures multiset(Exchanged(s, i, j)) == multiset(s)
  {}

  lemma SwapShuffles<T>(s: seq<T>, i: nat, j: nat, end: nat)
    requires i < end <= |s| && j < end
    ensures Shuffled(s, Exchanged(s, i, j), end)
  {
    SwapElements(s, i, j);
    SwapElements(s[..end], i, j);
    assert Exchanged(s, i, j)[..end] == Exchanged(s[..end], i, j);
  }

  /** Exchanging root with its greater child moves the defect one level down. */
  lemma SiftStep<R, I(!new)>(s: seq<Entry<R, I>>, start: nat, end: nat, root: nat, child: nat, le: (I, I) -> bool)
    requires TotalPreorder(le) && start <= root < end <= |s| && HeapBut(s, start, end, root, le)
    requires child < end && (child == 2 * root + 1 || child == 2 * root + 2)
    requires le(s[root].item, s[child].item)
    requires 2 * root + 1 < end ==> le(s[2 * root + 1].item, s[child].item)
    requires 2 * root + 2 < end ==> le(s[2 * root + 2].item, s[child].item)
    ensures HeapBut(Exchanged(s, root, child), start, end, child, le)
  {
    var t := Exchanged(s, root, child);
    forall i | start <= i < end && i != child ensures Dominates(t, i, end, le) {
      if i != root {
        assert Dominates(s, i, end, le);
      }
    }
    assert Dominates(s, child, end, le);
  }

  /** The two callback questions of the source decide exactly what SiftStep needs. */
  lemma Chosen<R, I(!new)>(s: seq<Entry<R, I>>, start: nat, end: nat, root: nat, cb: (I, I) -> bool,
                           le: (I, I) -> bool, strict: bool)
    requires TotalPreorder(le) && Callback(cb, le, strict)
    requires start <= root && 2 * root + 1 < end <= |s| && HeapBut(s, start, end, root, le)
    ensures var l := 2 * root + 1;
            var child := if l + 1 < end && cb(s[l].item, s[l + 1].item) then l + 1 else l;
            if cb(s[root].item, s[child].item) then
              HeapBut(Exchanged(s, root, child), start, end, child, le)
            else Heap(s, start, end, le)
  {
    var l := 2 * root + 1;
    var child := if l + 1 < end && cb(s[l].item, s[l + 1].item) then l + 1 else l;
    assert le(s[l].item, s[child].item) && (l + 1 < end ==> le(s[l + 1].item, s[child].item));
    if cb(s[root].item, s[child].item) {
      SiftStep(s, start, end, root, child, le);
    } else {
      assert le(s[child].item, s[root].item);
      assert Dominates(s, root, end, le);
    }
  }

  lemma LeafHeap<R, I(!new)>(s: seq<Entry<R, I>>, start: nat, end: nat, root: nat, le: (I, I) -> bool)
    requires end <= |s| && 2 * root + 1 >= end && HeapBut(s, start, end, root, le)
    ensures Heap(s, start, end, le)
  {}

  method Swap<T>(a: array<T>, i: nat, j: nat, ghost end: nat)
    requires i < end <= a.Length && j < end
    modifies a
    ensures a[..] == Exchanged(old(a[..]), i, j)
    ensures Shuffled(old(a[..]), a[..], end)
  {
    SwapShuffles(a[..], i, j, end);
    a[i], a[j] := a[j], a[i];
    assert a[..] == Exchanged(old(a[..]), i, j);
  }

  /** Sinks the element at start until s[start..end] is a heap again. */
  method SiftDown<R, I(!new)>(a: array<Entry<R, I>>, start: nat, end: nat, cb: (I, I) -> bool,
                              ghost le: (I, I) -> bool, ghost strict: bool)
    requires TotalPreorder(le) && Callback(cb, le, strict)
    requires start <= end <= a.Length
    requires forall i :: start < i < end ==> Dominates(a[..], i, end, le)
    modifies a
    ensures Heap(a[..], start, end, le)
    ensures Shuffled(old(a[..]), a[..], end)
  {
    var root := start;
    while root * 2 + 1 < end
      invariant start <= root
      invariant HeapBut(a[..], start, end, root, le)
      invariant Shuffled(old(a[..]), a[..], end)
      decreases end - root
    {
      var child := 2 * root + 1;
      ghost var s := a[..];
      Chosen(s, start, end, root, cb, le, strict);
      if child + 1 < end && cb(a[child].item, a[child + 1].item) {
        child := child + 1;
      }
      if cb(a[root].item, a[child].item) {
        assert HeapBut(Exchanged(s, root, child), start, end, child, le);
        Swap(a, root, child, end);
        assert a[..] == Exchanged(s, root, child);
        root := child;
      } else {
        return;
      }
    }
    LeafHeap(a[..], start, end, root, le);
  }

  /** The top of a heap is its greatest element. */
  lemma {:induction false} TopIsGreatest<R, I(!new)>(s: seq<Entry<R, I>>, end: nat, i: nat, le: (I, I) -> bool)
    requires TotalPreorder(le) && i < end <= |s| && Heap(s, 0, end, le)
    ensures le(s[i].item, s[0].item)
  {
    if i > 0 {
      var q := (i - 1) / 2;
      TopIsGreatest(s, end, q, le);
      assert Dominates(s, q, end, le);
    }
  }

  /** C's division rounds towards zero. */
  function Half(n: int): int {
    if n >= 0 then n / 2 else -((-n) / 2)
  }

  /** From end on everything is in its final place: in order, and nothing before it is greater. */
  ghost predicate Settled<R, I>(s: seq<Entry<R, I>>, end: nat, le: (I, I) -> bool) {
    && end <= |s|
    && Sorted(s[end..], le)
    && forall i, j :: 0 <= i < end <= j < |s| ==> le(s[i].item, s[j].item)
  }

  lemma ShuffleSettled<R, I>(s: seq<Entry<R, I>>, t: seq<Entry<R, I>>, end: nat, le: (I, I) -> bool)
    requires Settled(s, end, le) && Shuffled(s, t, end)
    ensures Settled(t, end, le)
  {
    forall i, j | 0 <= i < end <= j < |t| ensures le(t[i].item, t[j].item) {
      assert t[..end][i] in multiset(t[..end]);
      assert t[i] in s[..end];
      var k :| 0 <= k < end && s[k] == t[i];
      assert t[end..][j - end] == s[end..][j - end];
    }
  }

  /** Swapping the top of the heap behind its last element settles one more place. */
  lemma SwapSettles<R, I(!new)>(s: seq<Entry<R, I>>, end: nat, le: (I, I) -> bool)
    requires TotalPreorder(le) && 0 < end < |s|
    requires Heap(s, 0, end + 1, le) && Settled(s, end + 1, le)
    ensures var t := Exchanged(s, end, 0);
            && Settled(t, end, le)
            && forall i :: 0 < i < end ==> Dominates(t, i, end, le)
  {
    var t := Exchanged(s, end, 0);
    forall i | 0 <= i <= end ensures le(s[i].item, s[0].item) {
      TopIsGreatest(s, end + 1, i, le);
    }
    assert t[end..] == [s[0]] + s[end + 1..];
    forall i | 0 < i < end ensures Dominates(t, i, end, le) {
      assert Dominates(s, i, end + 1, le);
    }
  }

  lemma AllSettled<R, I>(s: seq<Entry<R, I>>, end: nat, le: (I, I) -> bool)
    requires end <= 1 && Settled(s, end, le)
    ensures Sorted(s, le)
  {
    if end == 1 {
      assert forall j :: 1 <= j < |s| ==> s[1..][j - 1] == s[j];
    } else {
      assert s[0..] == s;
    }
  }

  method Heapify<R, I(!new)>(a: array<Entry<R, I>>, cb: (I, I) -> bool, ghost le: (I, I) -> bool, ghost strict: bool)
    requires TotalPreorder(le) && Callback(cb, le, strict)
    modifies a
    ensures Heap(a[..], 0, a.Length, le)
    ensures multiset(a[..]) == multiset(old(a[..]))
  {
    var count: int := a.Length;
    var start := Half(count - 2);
    while start >= 0
      invariant -1 <= start < count || count == 0
      invariant forall i: nat :: start < i < count ==> Dominates(a[..], i, count, le)
      invariant multiset(a[..]) == multiset(old(a[..]))
    {
      SiftDown(a, start, count, cb, le, strict);
      start := start - 1;
    }
  }

  /** Sorts a: a permutation of what was there, in the order the callback asks for. */
  method HeapSort<R, I(!new)>(a: array<Entry<R, I>>, cb: (I, I) -> bool, ghost le: (I, I) -> bool, ghost strict: bool)
    requires TotalPreorder(le) && Callback(cb, le, strict)
    modifies a
    ensures Sorted(a[..], le)
    ensures multiset(a[..]) == multiset(old(a[..]))
  {
    Heapify(a, cb, le, strict);
    var end: int := a.Length - 1;
    while end > 0
      invariant -1 <= end < a.Length
      invariant Heap(a[..], 0, end + 1, le) && Settled(a[..], end + 1, le)
      invariant multiset(a[..]) == multiset(old(a[..]))
    {
      SwapSettles(a[..], end, le);
      Swap(a, end, 0, end + 1);
      ghost var t := a[..];
      SiftDown(a, 0, end, cb, le, strict);
      ShuffleSettled(t, a[..], end, le);
      end := end - 1;
    }
    AllSettled(a[..], end + 1, le);
  }
}
