/** What sorting a table means: the order a callback asks for, the order ties come out in, and the
    bottom-up merge of src/list_sort.c as a function on sequences. */
module SortOrder {

  /** A row seen by a sort: the pointer that moves and the contents the callback compares. */
  datatype Entry<R, I> = Entry(ref: R, item: I)

  ghost predicate TotalPreorder<I(!new)>(le: (I, I) -> bool) {
    && (forall x, y :: le(x, y) || le(y, x))
    && (forall x, y, z :: le(x, y) && le(y, z) ==> le(x, z))
  }

  /** The callback answers "the first argument comes out first".  For ASC it is the strict part of the
      order, for DESC the negation of a strict comparison, that is a non-strict one. */
  ghost predicate Callback<I(!new)>(cb: (I, I) -> bool, le: (I, I) -> bool, strict: bool) {
    forall x, y :: cb(x, y) <==> if strict then !le(y, x) else le(x, y)
  }

  ghost predicate Sorted<R, I>(s: seq<Entry<R, I>>, le: (I, I) -> bool) {
    forall i, j :: 0 <= i < j < |s| ==> le(s[i].item, s[j].item)
  }

  predicate Ties<I>(le: (I, I) -> bool, e: I, x: I) {
    le(e, x) && le(x, e)
  }

  /** The entries of s that tie with e, in the order they stand in s. */
  function TiesOf<R, I>(s: seq<Entry<R, I>>, le: (I, I) -> bool, e: I): seq<Entry<R, I>> {
    if s == [] then []
    else (if Ties(le, e, s[0].item) then [s[0]] else []) + TiesOf(s[1..], le, e)
  }

  function Reverse<T>(s: seq<T>): seq<T> {
    if s == [] then [] else Reverse(s[1..]) + [s[0]]
  }

  /** How a run of tied entries is arranged: kept by a non-strict callback, reversed by a strict one. */
  function TieOrder<T>(s: seq<T>, strict: bool): seq<T> {
    if strict then Reverse(s) else s
  }

  /** out is what a sort of input must produce, as far as the entries tied with e can tell. */
  ghost predicate SortOf<R, I>(input: seq<Entry<R, I>>, out: seq<Entry<R, I>>, le: (I, I) -> bool, strict: bool, e: I) {
    && Sorted(out, le)
    && multiset(out) == multiset(input)
    && TiesOf(out, le, e) == TieOrder(TiesOf(input, le, e), strict)
  }

  // ---------- the merge sort as a function ----------

  function Merge<R, I>(a: seq<Entry<R, I>>, b: seq<Entry<R, I>>, cb: (I, I) -> bool): (r: seq<Entry<R, I>>)
    ensures |r| == |a| + |b|
  {
    if a == [] then b
    else if b == [] then a
    else if cb(a[0].item, b[0].item) then [a[0]] + Merge(a[1..], b, cb)
    else [b[0]] + Merge(a, b[1..], cb)
  }

  function Min(a: nat, b: nat): nat {
    if a < b then a else b
  }

  /** One pass: neighbouring runs of k entries are merged. */
  function Pass<R, I>(s: seq<Entry<R, I>>, k: nat, cb: (I, I) -> bool): (r: seq<Entry<R, I>>)
    requires 0 < k
    ensures |r| == |s|
    decreases |s|
  {
    if s == [] then []
    else
      Merge(s[..Min(k, |s|)], s[Min(k, |s|)..Min(2 * k, |s|)], cb) + Pass(s[Min(2 * k, |s|)..], k, cb)
  }

  /** Passes over runs of k, 2k, 4k, ... until one merge covers everything. */
  function BottomUp<R, I>(s: seq<Entry<R, I>>, k: nat, cb: (I, I) -> bool): (r: seq<Entry<R, I>>)
    requires 0 < k
    ensures |r| == |s|
    decreases |s| - k
  {
    if |s| <= 2 * k then Pass(s, k, cb) else BottomUp(Pass(s, k, cb), 2 * k, cb)
  }

  // ---------- lemmas ----------

  lemma TiesCons<R, I>(x: Entry<R, I>, s: seq<Entry<R, I>>, le: (I, I) -> bool, e: I)
    ensures TiesOf([x] + s, le, e) == (if Ties(le, e, x.item) then [x] else []) + TiesOf(s, le, e)
  {
    assert ([x] + s)[1..] == s;
  }

  lemma {:induction false} TiesOfConcat<R, I>(a: seq<Entry<R, I>>, b: seq<Entry<R, I>>, le: (I, I) -> bool, e: I)
    ensures TiesOf(a + b, le, e) == TiesOf(a, le, e) + TiesOf(b, le, e)
  {
    if a == [] {
      assert a + b == b;
    } else {
      TiesOfConcat(a[1..], b, le, e);
      TiesCons(a[0], a[1..], le, e);
      TiesCons(a[0], a[1..] + b, le, e);
      assert a == [a[0]] + a[1..] && a + b == [a[0]] + (a[1..] + b);
    }
  }

  lemma ReverseConcat<T>(a: seq<T>, b: seq<T>)
    ensures Reverse(a + b) == Reverse(b) + Reverse(a)
  {
    if a == [] {
      assert a + b == b;
    } else {
      assert (a + b)[1..] == a[1..] + b;
      ReverseConcat(a[1..], b);
    }
  }

  lemma NoTies<R, I>(s: seq<Entry<R, I>>, le: (I, I) -> bool, e: I)
    requires forall i :: 0 <= i < |s| ==> !Ties(le, e, s[i].item)
    ensures TiesOf(s, le, e) == []
  {}

  lemma ConsElements<T>(x: T, s: seq<T>)
    ensures multiset([x] + s) == multiset{x} + multiset(s)
  {}

  lemma {:induction false} MergeElements<R, I>(a: seq<Entry<R, I>>, b: seq<Entry<R, I>>, cb: (I, I) -> bool)
    ensures multiset(Merge(a, b, cb)) == multiset(a) + multiset(b)
    decreases |a| + |b|
  {
    if a == [] || b == [] {
    } else if cb(a[0].item, b[0].item) {
      MergeElements(a[1..], b, cb);
      ConsElements(a[0], Merge(a[1..], b, cb));
      ConsElements(a[0], a[1..]);
      assert a == [a[0]] + a[1..];
    } else {
      MergeElements(a, b[1..], cb);
      ConsElements(b[0], Merge(a, b[1..], cb));
      ConsElements(b[0], b[1..]);
      assert b == [b[0]] + b[1..];
    }
  }

  lemma {:induction false} PassElements<R, I>(s: seq<Entry<R, I>>, k: nat, cb: (I, I) -> bool)
    requires 0 < k
    ensures multiset(Pass(s, k, cb)) == multiset(s)
    decreases |s|
  {
    if s != [] {
      var n, m := Min(k, |s|), Min(2 * k, |s|);
      MergeElements(s[..n], s[n..m], cb);
      PassElements(s[m..], k, cb);
      assert s == s[..n] + s[n..m] + s[m..];
    }
  }

  lemma {:induction false} BottomUpElements<R, I>(s: seq<Entry<R, I>>, k: nat, cb: (I, I) -> bool)
    requires 0 < k
    ensures multiset(BottomUp(s, k, cb)) == multiset(s)
    decreases |s| - k
  {
    PassElements(s, k, cb);
    if |s| > 2 * k {
      BottomUpElements(Pass(s, k, cb), 2 * k, cb);
    }
  }

  /** x may stand before everything in s. */
  ghost predicate Below<R, I>(x: I, s: seq<Entry<R, I>>, le: (I, I) -> bool) {
    forall j :: 0 <= j < |s| ==> le(x, s[j].item)
  }

  lemma SortedCons<R, I>(x: Entry<R, I>, s: seq<Entry<R, I>>, le: (I, I) -> bool)
    requires Below(x.item, s, le) && Sorted(s, le)
    ensures Sorted([x] + s, le)
  {}

  lemma SortedTail<R, I>(s: seq<Entry<R, I>>, le: (I, I) -> bool)
    requires s != [] && Sorted(s, le)
    ensures Sorted(s[1..], le) && Below(s[0].item, s[1..], le)
  {}

  lemma BelowTrans<R, I(!new)>(x: I, y: I, s: seq<Entry<R, I>>, le: (I, I) -> bool)
    requires TotalPreorder(le) && le(x, y) && Below(y, s, le)
    ensures Below(x, s, le)
  {}

  lemma {:induction false} MergeBelow<R, I>(x: I, a: seq<Entry<R, I>>, b: seq<Entry<R, I>>, cb: (I, I) -> bool, le: (I, I) -> bool)
    requires Below(x, a, le) && Below(x, b, le)
    ensures Below(x, Merge(a, b, cb), le)
    decreases |a| + |b|
  {
    if a == [] || b == [] {
    } else if cb(a[0].item, b[0].item) {
      MergeBelow(x, a[1..], b, cb, le);
    } else {
      MergeBelow(x, a, b[1..], cb, le);
    }
  }

  lemma {:induction false} MergeSorted<R, I(!new)>(a: seq<Entry<R, I>>, b: seq<Entry<R, I>>, cb: (I, I) -> bool,
                                                   le: (I, I) -> bool, strict: bool)
    requires TotalPreorder(le) && Callback(cb, le, strict)
    requires Sorted(a, le) && Sorted(b, le)
    ensures Sorted(Merge(a, b, cb), le)
    decreases |a| + |b|
  {
    if a == [] || b == [] {
      return;
    }
    SortedTail(a, le);
    SortedTail(b, le);
    var x, y := a[0].item, b[0].item;
    if cb(x, y) {
      BelowTrans(x, y, b[1..], le);
      assert b == [b[0]] + b[1..];
      MergeSorted(a[1..], b, cb, le, strict);
      MergeBelow(x, a[1..], b, cb, le);
      SortedCons(a[0], Merge(a[1..], b, cb), le);
    } else {
      BelowTrans(y, x, a[1..], le);
      assert a == [a[0]] + a[1..];
      MergeSorted(a, b[1..], cb, le, strict);
      MergeBelow(y, a, b[1..], cb, le);
      SortedCons(b[0], Merge(a, b[1..], cb), le);
    }
  }

  /** If e ties with something strictly below all of s, nothing in s ties with e. */
  lemma StrictlyBelow<R, I(!new)>(x: I, s: seq<Entry<R, I>>, le: (I, I) -> bool, e: I)
    requires TotalPreorder(le) && Sorted(s, le) && Ties(le, e, x)
    requires s != [] && !le(s[0].item, x)
    ensures TiesOf(s, le, e) == []
  {
    NoTies(s, le, e);
  }

  lemma PastEmpty<T>(h: seq<T>, p: seq<T>, q: seq<T>)
    requires h == [] || p == []
    ensures h + (p + q) == p + (h + q)
  {}

  /** Merging keeps the ties of the left run first under a non-strict callback and puts them last
      under a strict one. */
  lemma {:induction false} MergeTies<R, I(!new)>(a: seq<Entry<R, I>>, b: seq<Entry<R, I>>, cb: (I, I) -> bool,
                                                 le: (I, I) -> bool, strict: bool, e: I)
    requires TotalPreorder(le) && Callback(cb, le, strict)
    requires Sorted(a, le) && Sorted(b, le)
    ensures TiesOf(Merge(a, b, cb), le, e)
         == if strict then TiesOf(b, le, e) + TiesOf(a, le, e) else TiesOf(a, le, e) + TiesOf(b, le, e)
    decreases |a| + |b|
  {
    if a == [] || b == [] {
      return;
    }
    var x, y := a[0].item, b[0].item;
    if cb(x, y) {
      SortedTail(a, le);
      MergeTies(a[1..], b, cb, le, strict, e);
      TiesCons(a[0], Merge(a[1..], b, cb), le, e);
      if strict {
        if Ties(le, e, x) { StrictlyBelow(x, b, le, e); }
        PastEmpty(if Ties(le, e, x) then [a[0]] else [], TiesOf(b, le, e), TiesOf(a[1..], le, e));
      }
    } else {
      SortedTail(b, le);
      MergeTies(a, b[1..], cb, le, strict, e);
      TiesCons(b[0], Merge(a, b[1..], cb), le, e);
      if !strict {
        if Ties(le, e, y) { StrictlyBelow(y, a, le, e); }
        PastEmpty(if Ties(le, e, y) then [b[0]] else [], TiesOf(a, le, e), TiesOf(b[1..], le, e));
      }
    }
  }

  /** cur is input cut into runs of k entries, each run arranged as ok demands. */
  ghost predicate Runs<T>(input: seq<T>, cur: seq<T>, k: nat, ok: (seq<T>, seq<T>) -> bool)
    requires 0 < k
    decreases |input|
  {
    && |input| == |cur|
    && (input != [] ==>
      var n := Min(k, |input|);
      ok(input[..n], cur[..n]) && Runs(input[n..], cur[n..], k, ok))
  }

  /** SortOf as a relation between a run and its sorted form. */
  ghost function Spec<R, I>(le: (I, I) -> bool, strict: bool, e: I): (seq<Entry<R, I>>, seq<Entry<R, I>>) -> bool {
    (input, out) => SortOf(input, out, le, strict, e)
  }

  lemma {:induction false} SingletonRuns<R, I(!new)>(s: seq<Entry<R, I>>, le: (I, I) -> bool, strict: bool, e: I)
    requires TotalPreorder(le)
    ensures Runs(s, s, 1, Spec(le, strict, e))
    decreases |s|
  {
    if s != [] {
      SingletonRuns(s[1..], le, strict, e);
      var x := s[..1];
      assert x == [s[0]] && x[1..] == [];
      assert TiesOf(x, le, e) == if Ties(le, e, x[0].item) then [x[0]] else [];
      assert Reverse(TiesOf(x, le, e)) == TiesOf(x, le, e);
    }
  }

  /** Two sorted runs side by side are merged into one sorted run. */
  lemma {:induction false} MergeSortOf<R, I(!new)>(ia: seq<Entry<R, I>>, a: seq<Entry<R, I>>,
                                                   ib: seq<Entry<R, I>>, b: seq<Entry<R, I>>,
                                                   cb: (I, I) -> bool, le: (I, I) -> bool, strict: bool, e: I)
    requires TotalPreorder(le) && Callback(cb, le, strict)
    requires SortOf(ia, a, le, strict, e) && SortOf(ib, b, le, strict, e)
    ensures SortOf(ia + ib, Merge(a, b, cb), le, strict, e)
  {
    MergeElements(a, b, cb);
    MergeSorted(a, b, cb, le, strict);
    MergeTies(a, b, cb, le, strict, e);
    TiesOfConcat(ia, ib, le, e);
    ReverseConcat(TiesOf(ia, le, e), TiesOf(ib, le, e));
  }

  /** The first two runs (the second may be short or empty), and what follows them. */
  lemma FirstPair<T>(input: seq<T>, cur: seq<T>, k: nat, ok: (seq<T>, seq<T>) -> bool)
    requires 0 < k && Runs(input, cur, k, ok) && input != [] && ok([], [])
    ensures
      var n, m := Min(k, |input|), Min(2 * k, |input|);
      && ok(input[..n], cur[..n]) && ok(input[n..m], cur[n..m])
      && input[..n] + input[n..m] == input[..m]
      && Runs(input[m..], cur[m..], k, ok)
  {
    var n, m := Min(k, |input|), Min(2 * k, |input|);
    assert input[..n] + input[n..m] == input[..m];
    if n == m {
      assert input[n..m] == [] && cur[n..m] == [];
    } else {
      var i2, c2 := input[n..], cur[n..];
      assert Runs(i2, c2, k, ok) && Min(k, |i2|) == m - n;
      assert i2[..m - n] == input[n..m] && c2[..m - n] == cur[n..m];
      assert i2[m - n..] == input[m..] && c2[m - n..] == cur[m..];
    }
  }

  lemma RunsCons<T>(input: seq<T>, first: seq<T>, rest: seq<T>, k: nat, ok: (seq<T>, seq<T>) -> bool)
    requires 0 < k && input != [] && |first| == Min(k, |input|)
    requires ok(input[..Min(k, |input|)], first) && Runs(input[Min(k, |input|)..], rest, k, ok)
    ensures Runs(input, first + rest, k, ok)
  {
    var n := Min(k, |input|);
    assert (first + rest)[..n] == first && (first + rest)[n..] == rest;
  }

  /** One pass doubles the length of the sorted runs. */
  lemma {:induction false} PassRuns<R, I(!new)>(input: seq<Entry<R, I>>, cur: seq<Entry<R, I>>, k: nat,
                                                cb: (I, I) -> bool, le: (I, I) -> bool, strict: bool, e: I)
    requires 0 < k && TotalPreorder(le) && Callback(cb, le, strict)
    requires Runs(input, cur, k, Spec(le, strict, e))
    ensures Runs(input, Pass(cur, k, cb), 2 * k, Spec(le, strict, e))
    decreases |input|
  {
    if input != [] {
      var ok := Spec<R, I>(le, strict, e);
      var n, m := Min(k, |input|), Min(2 * k, |input|);
      FirstPair(input, cur, k, ok);
      PassRuns(input[m..], cur[m..], k, cb, le, strict, e);
      MergeSortOf(input[..n], cur[..n], input[n..m], cur[n..m], cb, le, strict, e);
      RunsCons(input, Merge(cur[..n], cur[n..m], cb), Pass(cur[m..], k, cb), 2 * k, ok);
    }
  }

  lemma {:induction false} BottomUpSorts<R, I(!new)>(input: seq<Entry<R, I>>, cur: seq<Entry<R, I>>, k: nat,
                                                     cb: (I, I) -> bool, le: (I, I) -> bool, strict: bool, e: I)
    requires 0 < k && TotalPreorder(le) && Callback(cb, le, strict)
    requires Runs(input, cur, k, Spec(le, strict, e))
    ensures SortOf(input, BottomUp(cur, k, cb), le, strict, e)
    decreases |cur| - k
  {
    PassRuns(input, cur, k, cb, le, strict, e);
    var next := Pass(cur, k, cb);
    if |cur| <= 2 * k {
      assert input[..|input|] == input && next[..|input|] == next;
    } else {
      BottomUpSorts(input, next, 2 * k, cb, le, strict, e);
    }
  }

  /** The result of the merge sort: sorted, the same entries, and ties in their old order for a
      non-strict (DESC) callback and in exactly reversed order for a strict (ASC) one. */
  lemma MergeSortCorrect<R, I(!new)>(s: seq<Entry<R, I>>, cb: (I, I) -> bool, le: (I, I) -> bool, strict: bool, e: I)
    requires TotalPreorder(le) && Callback(cb, le, strict)
    ensures SortOf(s, BottomUp(s, 1, cb), le, strict, e)
  {
    SingletonRuns(s, le, strict, e);
    BottomUpSorts(s, s, 1, cb, le, strict, e);
  }

  lemma MultisetSplit<T>(s: seq<T>, i: nat)
    requires i <= |s|
    ensures multiset(s) == multiset(s[..i]) + multiset(s[i..])
  {
    assert s == s[..i] + s[i..];
  }

  lemma SubSize<T>(a: multiset<T>, b: multiset<T>)
    requires a <= b
    ensures |a| <= |b|
  {
    assert b == a + (b - a);
  }

  lemma Escapes<T>(a: multiset<T>, b: multiset<T>) returns (x: T)
    requires |a| > |b|
    ensures a[x] > b[x]
  {
    if a <= b {
      SubSize(a, b);
    }
    x :| x in a && a[x] > b[x];
  }

  lemma Remains<T>(a: multiset<T>, b: multiset<T>, c: multiset<T>, d: multiset<T>, x: T)
    requires a + b == c + d && c[x] > a[x]
    ensures x in b && x in c
  {
    assert (a + b)[x] == a[x] + b[x] && (c + d)[x] == c[x] + d[x];
  }

  /** An element that stands at i or behind in s and not behind i in t. */
  lemma Straddles<T>(s: seq<T>, t: seq<T>, i: nat) returns (k: nat, l: nat)
    requires multiset(s) == multiset(t) && i < |s| && i < |t|
    ensures i <= k < |s| && l <= i && s[k] == t[l]
  {
    MultisetSplit(s, i);
    MultisetSplit(t, i + 1);
    assert |multiset(t[..i + 1])| == i + 1 && |multiset(s[..i])| == i;
    var x := Escapes(multiset(t[..i + 1]), multiset(s[..i]));
    Remains(multiset(s[..i]), multiset(s[i..]), multiset(t[..i + 1]), multiset(t[i + 1..]), x);
    assert x in s[i..] && x in t[..i + 1];
    var j :| 0 <= j < |s[i..]| && s[i..][j] == x;
    k := i + j;
    l :| 0 <= l < |t[..i + 1]| && t[..i + 1][l] == x;
  }

  /** Two orderings of the same entries show ties at every place: whichever algorithm sorts, the
      sequence of sort keys is the same. */
  lemma SortedAlike<R, I(!new)>(s: seq<Entry<R, I>>, t: seq<Entry<R, I>>, le: (I, I) -> bool, i: nat)
    requires TotalPreorder(le) && Sorted(s, le) && Sorted(t, le) && multiset(s) == multiset(t)
    requires i < |s|
    ensures |s| == |t| && le(s[i].item, t[i].item)
  {
    assert |multiset(s)| == |s| && |multiset(t)| == |t|;
    var k, l := Straddles(s, t, i);
    assert le(s[i].item, s[k].item) && le(t[l].item, t[i].item);
  }

  lemma TailTies<R, I>(s: seq<Entry<R, I>>, t: seq<Entry<R, I>>, le: (I, I) -> bool, e: I)
    requires s != [] && t != [] && s[0] == t[0] && TiesOf(s, le, e) == TiesOf(t, le, e)
    ensures TiesOf(s[1..], le, e) == TiesOf(t[1..], le, e)
  {
    var h := if Ties(le, e, s[0].item) then [s[0]] else [];
    assert TiesOf(s, le, e) == h + TiesOf(s[1..], le, e) && TiesOf(t, le, e) == h + TiesOf(t[1..], le, e);
    assert TiesOf(s[1..], le, e) == TiesOf(s, le, e)[|h|..];
    assert TiesOf(t[1..], le, e) == TiesOf(t, le, e)[|h|..];
  }

  /** The first entry is the first of those that tie with it. */
  lemma SameHead<R, I(!new)>(s: seq<Entry<R, I>>, t: seq<Entry<R, I>>, le: (I, I) -> bool)
    requires TotalPreorder(le) && s != [] && t != [] && Ties(le, s[0].item, t[0].item)
    requires TiesOf(s, le, s[0].item) == TiesOf(t, le, s[0].item)
    ensures s[0] == t[0]
  {
    assert TiesOf(s, le, s[0].item)[0] == s[0] && TiesOf(t, le, s[0].item)[0] == t[0];
  }

  lemma HeadElements<T>(s: seq<T>)
    requires s != []
    ensures multiset(s[1..]) == multiset(s) - multiset{s[0]}
  {
    ConsElements(s[0], s[1..]);
    assert s == [s[0]] + s[1..];
  }

  lemma TailElements<T>(s: seq<T>, t: seq<T>)
    requires s != [] && t != [] && s[0] == t[0] && multiset(s) == multiset(t)
    ensures multiset(s[1..]) == multiset(t[1..])
  {
    HeadElements(s);
    HeadElements(t);
  }

  /** SortOf for every e leaves no freedom: the outcome of the merge sort is determined by its input. */
  lemma {:induction false} SortOfUnique<R, I(!new)>(s: seq<Entry<R, I>>, t: seq<Entry<R, I>>, le: (I, I) -> bool)
    requires TotalPreorder(le) && Sorted(s, le) && Sorted(t, le) && multiset(s) == multiset(t)
    requires forall e :: TiesOf(s, le, e) == TiesOf(t, le, e)
    ensures s == t
    decreases |s|
  {
    assert |multiset(s)| == |s| && |multiset(t)| == |t|;
    if s != [] {
      SortedAlike(s, t, le, 0);
      SortedAlike(t, s, le, 0);
      SameHead(s, t, le);
      SortedTail(s, le);
      SortedTail(t, le);
      TailElements(s, t);
      forall e ensures TiesOf(s[1..], le, e) == TiesOf(t[1..], le, e) {
        TailTies(s, t, le, e);
      }
      SortOfUnique(s[1..], t[1..], le);
      assert s == [s[0]] + s[1..] && t == [t[0]] + t[1..];
    }
  }
}
