/** lnf_mem_sort_callback (src/memheap.c:600-655): which order sorting a memory heap asks for. */
module SortCallback {
  import opened Bytes
  import opened FieldList
  import opened MemHeap
  import opened Rows
  import opened SortOrder

  type KeyVal = Item<Data, Data>

  /** The bytes of the sort field. */
  function SortField(sort: SortBy, size: nat, x: KeyVal): Data {
    var d := if sort.place == InKey then x.key else x.val;
    if sort.offset + size <= |d| then d[sort.offset..sort.offset + size] else []
  }

  /** memcmp(a, b) > 0. */
  predicate MemGreater(a: Data, b: Data) {
    a != [] && (b == [] || a[0] > b[0] || (a[0] == b[0] && MemGreater(a[1..], b[1..])))
  }

  predicate IsNumber(kind: Kind) {
    kind != Addr && kind != Mac
  }

  /** The answer of the callback for the sort field's type. */
  predicate Answer(sort: SortBy, kind: Kind, x: KeyVal, y: KeyVal) {
    sort.place != Nowhere &&
    var i1, i2 := SortField(sort, SizeOf(kind), x), SortField(sort, SizeOf(kind), y);
    var ret := if IsNumber(kind) then LeVal(i1) < LeVal(i2) else MemGreater(i1, i2);
    if sort.how == Desc then !ret else ret
  }

  function CallbackFor(sort: SortBy, kind: Kind): (KeyVal, KeyVal) -> bool {
    (x, y) => Answer(sort, kind, x, y)
  }

  /** Rows in the order they come out: numbers ascending for ASC and descending for DESC, addresses the
      other way round. */
  predicate Before(sort: SortBy, kind: Kind, x: KeyVal, y: KeyVal) {
    sort.place == Nowhere ||
    var i1, i2 := SortField(sort, SizeOf(kind), x), SortField(sort, SizeOf(kind), y);
    if IsNumber(kind) then
      if sort.how == Desc then LeVal(i1) >= LeVal(i2) else LeVal(i1) <= LeVal(i2)
    else
      if sort.how == Desc then !MemGreater(i1, i2) else !MemGreater(i2, i1)
  }

  function OrderFor(sort: SortBy, kind: Kind): (KeyVal, KeyVal) -> bool {
    (x, y) => Before(sort, kind, x, y)
  }

  predicate Strict(sort: SortBy) {
    sort.place == Nowhere || sort.how != Desc
  }

  /** Greater means a greater byte at the first place where the two differ. */
  lemma {:induction false} MemGreaterMeans(a: Data, b: Data)
    requires |a| == |b|
    ensures MemGreater(a, b) <==> exists j :: 0 <= j < |a| && a[..j] == b[..j] && a[j] > b[j]
  {
    if a != [] {
      MemGreaterMeans(a[1..], b[1..]);
      if a[0] == b[0] && MemGreater(a[1..], b[1..]) {
        var j :| 0 <= j < |a| - 1 && a[1..][..j] == b[1..][..j] && a[1..][j] > b[1..][j];
        assert a[..j + 1] == [a[0]] + a[1..][..j] && b[..j + 1] == [b[0]] + b[1..][..j];
        assert a[j + 1] > b[j + 1];
      } else if a[0] > b[0] {
        assert a[..0] == b[..0];
      }
      if j :| 0 <= j < |a| && a[..j] == b[..j] && a[j] > b[j] {
        if j > 0 {
          assert a[0] == a[..j][0] == b[..j][0] == b[0];
          assert a[1..][..j - 1] == a[..j][1..] && b[1..][..j - 1] == b[..j][1..];
          assert a[1..][j - 1] > b[1..][j - 1];
        }
      }
    }
  }

  lemma {:induction false} MemOrder(a: Data, b: Data, c: Data)
    ensures !(MemGreater(a, b) && MemGreater(b, a))
    ensures !MemGreater(a, b) && !MemGreater(b, c) ==> !MemGreater(a, c)
  {
    if a != [] && b != [] {
      MemOrder(a[1..], b[1..], if c == [] then [] else c[1..]);
    }
  }

  /** The callback asks for a total preorder, strictly for ASC and non-strictly for DESC. */
  lemma CallbackOrders(sort: SortBy, kind: Kind)
    ensures TotalPreorder(OrderFor(sort, kind))
    ensures Callback(CallbackFor(sort, kind), OrderFor(sort, kind), Strict(sort))
  {
    forall x, y, z
      ensures Before(sort, kind, x, y) || Before(sort, kind, y, x)
      ensures Before(sort, kind, x, y) && Before(sort, kind, y, z) ==> Before(sort, kind, x, z)
    {
      var n := SizeOf(kind);
      MemOrder(SortField(sort, n, x), SortField(sort, n, y), SortField(sort, n, z));
      MemOrder(SortField(sort, n, z), SortField(sort, n, y), SortField(sort, n, x));
    }
    forall x, y ensures Answer(sort, kind, x, y) <==> if Strict(sort) then !Before(sort, kind, y, x) else Before(sort, kind, x, y) {
    }
  }

  /** So a table sorted with it comes out in that order, ties in their old order for DESC and in the
      reverse of it for ASC. */
  lemma MemHeapSorts<R>(sort: SortBy, kind: Kind, w: seq<Entry<R, KeyVal>>, e: KeyVal)
    ensures SortOf(w, BottomUp(w, 1, CallbackFor(sort, kind)), OrderFor(sort, kind), Strict(sort), e)
  {
    CallbackOrders(sort, kind);
    MergeSortCorrect(w, CallbackFor(sort, kind), OrderFor(sort, kind), Strict(sort), e);
  }
}
