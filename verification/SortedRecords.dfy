/** What a sorted memory heap is sorted by: the sort field that lnf_mem_fadd has set, as it stands in the keys
    and values of the records (src/memheap.c:351-470, 600-655, 907-922). */
module SortedRecords {
  import opened Aggregate
  import opened Bytes
  import opened FieldList
  import opened HashTable
  import opened MemHeap
  import opened RecordBuffer
  import opened Rows
  import opened SortCallback
  import opened SortOrder

  type Table = HashTable<Data, Data>

  // ---------- the sort field ----------

  /** The sort field is the one called id in this list. */
  ghost predicate SortsBy(sort: SortBy, fs: seq<Fld>, id: nat) {
    var i := Position(fs, id);
    sort.field == id && i < |fs| && sort.offset == Offset(fs, i)
  }

  lemma {:induction false} PositionKept(fs: seq<Fld>, gs: seq<Fld>, id: nat)
    requires Position(fs, id) < |fs| <= |gs| && forall j :: 0 <= j < |fs| ==> gs[j].id == fs[j].id
    ensures Position(gs, id) == Position(fs, id)
  {
    if fs[0].id != id {
      PositionKept(fs[1..], gs[1..], id);
    }
  }

  lemma {:induction false} PositionLast(fs: seq<Fld>, s: Fld)
    requires Position(fs, s.id) == |fs|
    ensures Position(fs + [s], s.id) == |fs|
  {
    if fs != [] {
      assert (fs + [s])[1..] == fs[1..] + [s];
      PositionLast(fs[1..], s);
    }
  }

  /** A field added with a sort flag becomes the sort field, whether it is new in the list or not. */
  lemma AddedSorts(heap: MemHeap, f: Fld, fs: seq<Fld>, maxsize: nat, place: SortIn, before: SortBy)
    requires f.sorting != NoSort && !Refuses(fs, f, maxsize)
    ensures var gs := AddOrUpdated(fs, f, maxsize); var sort := heap.Sorted(f, Done, gs, place, before);
            SortsBy(sort, gs, f.id) && sort.place == place && sort.how == f.sorting
  {
    if Position(fs, f.id) < |fs| {
      PositionKept(fs, AddOrUpdated(fs, f, maxsize), f.id);
    } else {
      PositionLast(fs, f);
    }
  }

  /** Later calls leave it where it is. */
  lemma {:induction false} SortStays(sort: SortBy, fs: seq<Fld>, id: nat, adds: seq<Fld>, maxsize: int)
    requires SortsBy(sort, fs, id)
    ensures SortsBy(sort, AddAll(fs, adds, maxsize), id)
  {
    if adds != [] {
      var gs, s := AddAll(fs, adds[..|adds| - 1], maxsize), adds[|adds| - 1];
      SortStays(sort, fs, id, adds[..|adds| - 1], maxsize);
      PositionKept(gs, AddOrUpdated(gs, s, maxsize), id);
      AddKeepsOffsets(gs, s, maxsize, Position(gs, id));
    }
  }

  // ---------- what is compared ----------

  /** The bytes in a row that belong to field i of the key or the value list. */
  function FieldOfRow(keys: seq<Fld>, vals: seq<Fld>, place: SortIn, i: nat, x: KeyVal): Data
    requires place != Nowhere && i < |if place == InKey then keys else vals|
    requires |x.key| == Total(keys) && |x.val| == Total(vals)
  {
    match place
    case InKey => Part(keys, x.key, i)
    case InVal => Part(vals, x.val, i)
  }

  ghost predicate Whole(keys: seq<Fld>, vals: seq<Fld>, x: KeyVal) {
    |x.key| == Total(keys) && |x.val| == Total(vals)
  }

  /** A greater byte at the first place where the two differ. */
  ghost predicate Above(a: Data, b: Data) {
    exists j :: 0 <= j < |a| && j < |b| && a[..j] == b[..j] && a[j] > b[j]
  }

  /** The order asked for on the bytes of a field. */
  ghost predicate InOrder(kind: Kind, how: Sorting, a: Data, b: Data) {
    match kind
    case U8 | U16 | U32 | U64 => if how == Desc then LeVal(a) >= LeVal(b) else LeVal(a) <= LeVal(b)
    case Addr | Mac => if how == Desc then !Above(a, b) else !Above(b, a)
  }

  /** The sort field of a heap with these lists is field i, of this type. */
  ghost predicate SortsField(sort: SortBy, keys: seq<Fld>, vals: seq<Fld>, i: nat, kind: Kind) {
    sort.place != Nowhere &&
    var fs := if sort.place == InKey then keys else vals;
    i < |fs| && sort.offset == Offset(fs, i) && fs[i].size == SizeOf(kind)
  }

  lemma ComparesField(sort: SortBy, keys: seq<Fld>, vals: seq<Fld>, i: nat, kind: Kind, x: KeyVal)
    requires SortsField(sort, keys, vals, i, kind) && Whole(keys, vals, x)
    ensures SortField(sort, SizeOf(kind), x) == FieldOfRow(keys, vals, sort.place, i, x)
  {
    if sort.place == InKey {
      OffsetMonotone(keys, i + 1, |keys|);
    } else {
      OffsetMonotone(vals, i + 1, |vals|);
    }
  }

  /** Two rows are in the order of the sort exactly when their sort fields are in the order asked for. */
  lemma BeforeMeans(sort: SortBy, keys: seq<Fld>, vals: seq<Fld>, i: nat, kind: Kind, x: KeyVal, y: KeyVal)
    requires SortsField(sort, keys, vals, i, kind) && Whole(keys, vals, x) && Whole(keys, vals, y)
    ensures Before(sort, kind, x, y)
            <==> InOrder(kind, sort.how, FieldOfRow(keys, vals, sort.place, i, x), FieldOfRow(keys, vals, sort.place, i, y))
  {
    ComparesField(sort, keys, vals, i, kind, x);
    ComparesField(sort, keys, vals, i, kind, y);
    var a, b := FieldOfRow(keys, vals, sort.place, i, x), FieldOfRow(keys, vals, sort.place, i, y);
    MemGreaterMeans(a, b);
    MemGreaterMeans(b, a);
  }

  // ---------- the sorted table ----------

  ghost predicate AllWhole(keys: seq<Fld>, vals: seq<Fld>, s: seq<KeyVal>) {
    forall p :: 0 <= p < |s| ==> Whole(keys, vals, s[p])
  }

  /** The rows come in the order of field i. */
  ghost predicate SortedBy(keys: seq<Fld>, vals: seq<Fld>, place: SortIn, how: Sorting, i: nat, kind: Kind, s: seq<KeyVal>)
    requires place != Nowhere && i < |if place == InKey then keys else vals| && AllWhole(keys, vals, s)
  {
    forall p, q :: 0 <= p < q < |s| ==>
      InOrder(kind, how, FieldOfRow(keys, vals, place, i, s[p]), FieldOfRow(keys, vals, place, i, s[q]))
  }

  lemma SortedOut(sort: SortBy, keys: seq<Fld>, vals: seq<Fld>, i: nat, kind: Kind, s: seq<KeyVal>)
    requires SortsField(sort, keys, vals, i, kind) && AllWhole(keys, vals, s)
    requires forall p, q :: 0 <= p < q < |s| ==> Before(sort, kind, s[p], s[q])
    ensures SortedBy(keys, vals, sort.place, sort.how, i, kind, s)
  {
    forall p, q | 0 <= p < q < |s|
      ensures InOrder(kind, sort.how, FieldOfRow(keys, vals, sort.place, i, s[p]), FieldOfRow(keys, vals, sort.place, i, s[q]))
    {
      BeforeMeans(sort, keys, vals, i, kind, s[p], s[q]);
    }
  }

  function ItemsIn<R>(w: seq<Entry<R, KeyVal>>): (s: seq<KeyVal>)
    ensures |s| == |w| && forall p :: 0 <= p < |w| ==> s[p] == w[p].item
  {
    seq(|w|, p requires 0 <= p < |w| => w[p].item)
  }

  lemma SameItems<R>(w: seq<Entry<R, KeyVal>>, out: seq<Entry<R, KeyVal>>, keys: seq<Fld>, vals: seq<Fld>)
    requires multiset(out) == multiset(w) && AllWhole(keys, vals, ItemsIn(w))
    ensures AllWhole(keys, vals, ItemsIn(out))
  {
    forall p | 0 <= p < |out| ensures Whole(keys, vals, ItemsIn(out)[p]) {
      assert out[p] in multiset(out);
      var j :| 0 <= j < |w| && w[j] == out[p];
      assert ItemsIn(w)[j] == out[p].item;
    }
  }

  /** What the merge sort makes of rows with the callback of the heap is sorted by the sort field. */
  lemma SortsByField<R>(sort: SortBy, keys: seq<Fld>, vals: seq<Fld>, i: nat, kind: Kind, w: seq<Entry<R, KeyVal>>)
    requires SortsField(sort, keys, vals, i, kind) && AllWhole(keys, vals, ItemsIn(w))
    ensures var out := BottomUp(w, 1, CallbackFor(sort, kind));
            AllWhole(keys, vals, ItemsIn(out)) && SortedBy(keys, vals, sort.place, sort.how, i, kind, ItemsIn(out))
  {
    var out := BottomUp(w, 1, CallbackFor(sort, kind));
    MemHeapSorts(sort, kind, w, Item([], []));
    SameItems(w, out, keys, vals);
    forall p, q | 0 <= p < q < |out| ensures Before(sort, kind, ItemsIn(out)[p], ItemsIn(out)[q]) {
      assert OrderFor(sort, kind)(out[p].item, out[q].item);
    }
    SortedOut(sort, keys, vals, i, kind, ItemsIn(out));
  }

  lemma TaggedItems(rows: seq<Row<Data, Data>>, f: Contents<Data, Data>, items: seq<KeyVal>)
    requires Rows.Known(rows, f) && |items| == |rows| && forall p :: 0 <= p < |rows| ==> f[rows[p]] == items[p]
    ensures ItemsIn(Tag(rows, f)) == items
  {}

  /** hash_table_sort with the callback of a heap. */
  method SortRows(table: Table, ghost sort: SortBy, ghost keys: seq<Fld>, ghost vals: seq<Fld>, ghost i: nat, ghost kind: Kind)
    requires table.Valid() && table.compare == CallbackFor(sort, kind) && SortsField(sort, keys, vals, i, kind)
    requires AllWhole(keys, vals, ItemsOf(table.rows))
    modifies table`sfirst, table`rows, table`sorted, table.rows`snext
    ensures table.Valid() && table.model == old(table.model) && multiset(table.rows) == multiset(old(table.rows))
    ensures AllWhole(keys, vals, ItemsOf(table.rows)) && SortedBy(keys, vals, sort.place, sort.how, i, kind, ItemsOf(table.rows))
  {
    ghost var before, items := table.rows, ItemsOf(table.rows);
    ghost var f := table.SortHashed();
    TaggedItems(before, f, items);
    TaggedItems(table.rows, f, ItemsOf(table.rows));
    SortsByField(sort, keys, vals, i, kind, Tag(before, f));
  }

  /** The sort of lnf_mem_first_c on table 0: the rows come out in the order of the sort field, as numbers or
      as bytes, and the table is intact. */
  method SortTable(heap: MemHeap, table: Table, ghost i: nat, ghost kind: Kind)
    requires heap.Valid() && table.Valid() && table.compare == CallbackFor(heap.sort, kind)
    requires SortsField(heap.sort, heap.keys.flds, heap.vals.flds, i, kind)
    requires AllWhole(heap.keys.flds, heap.vals.flds, ItemsOf(table.rows))
    modifies table`sfirst, table`rows, table`sorted, table.rows`snext
    ensures table.Valid() && table.model == old(table.model) && multiset(table.rows) == multiset(old(table.rows))
    ensures AllWhole(heap.keys.flds, heap.vals.flds, ItemsOf(table.rows))
    ensures SortedBy(heap.keys.flds, heap.vals.flds, heap.sort.place, heap.sort.how, i, kind, ItemsOf(table.rows))
  {
    SortRows(table, heap.sort, heap.keys.flds, heap.vals.flds, i, kind);
  }

  // ---------- records ----------

  /** The row a record is written as, outside of fast mode. */
  function RowOf(cat: Catalog, keys: seq<Fld>, vals: seq<Fld>, rec: Record, pairset: nat): KeyVal {
    Item(Key(cat, keys, rec, pairset), WholeBuffer(cat, vals, rec, 0))
  }

  /** What the record contributes to the sort field. */
  function SortedOn(cat: Catalog, keys: seq<Fld>, vals: seq<Fld>, place: SortIn, i: nat, rec: Record, pairset: nat): Data
    requires place != Nowhere && i < |if place == InKey then keys else vals|
  {
    if place == InKey then Contribution(cat, keys[i], rec, pairset) else Contribution(cat, vals[i], rec, 0)
  }

  lemma RowIsWhole(cat: Catalog, keys: seq<Fld>, vals: seq<Fld>, rec: Record, pairset: nat)
    requires RecordOK(cat, rec) && FieldsOK(cat, keys) && FieldsOK(cat, vals)
    ensures Whole(keys, vals, RowOf(cat, keys, vals, rec, pairset))
  {
    BufferSize(cat, keys, |keys|, rec, pairset);
    BufferSize(cat, vals, |vals|, rec, 0);
  }

  /** The field of a row is what its record contributes there. */
  lemma FieldOfRecord(cat: Catalog, keys: seq<Fld>, vals: seq<Fld>, place: SortIn, i: nat, rec: Record, pairset: nat)
    requires RecordOK(cat, rec) && FieldsOK(cat, keys) && FieldsOK(cat, vals)
    requires place != Nowhere && i < |if place == InKey then keys else vals|
    ensures Whole(keys, vals, RowOf(cat, keys, vals, rec, pairset))
    ensures FieldOfRow(keys, vals, place, i, RowOf(cat, keys, vals, rec, pairset)) == SortedOn(cat, keys, vals, place, i, rec, pairset)
  {
    RowIsWhole(cat, keys, vals, rec, pairset);
    if place == InKey {
      BufferPart(cat, keys, |keys|, i, rec, pairset);
    } else {
      BufferPart(cat, vals, |vals|, i, rec, 0);
    }
  }

  /** In a sorted table any two rows that were written from records stand in the order of the records' sort
      fields. */
  lemma RecordsInOrder(cat: Catalog, keys: seq<Fld>, vals: seq<Fld>, place: SortIn, how: Sorting, i: nat, kind: Kind,
                       s: seq<KeyVal>, p: nat, q: nat, r1: Record, p1: nat, r2: Record, p2: nat)
    requires RecordOK(cat, r1) && RecordOK(cat, r2) && FieldsOK(cat, keys) && FieldsOK(cat, vals)
    requires place != Nowhere && i < |if place == InKey then keys else vals| && AllWhole(keys, vals, s)
    requires SortedBy(keys, vals, place, how, i, kind, s) && p < q < |s|
    requires s[p] == RowOf(cat, keys, vals, r1, p1) && s[q] == RowOf(cat, keys, vals, r2, p2)
    ensures InOrder(kind, how, SortedOn(cat, keys, vals, place, i, r1, p1), SortedOn(cat, keys, vals, place, i, r2, p2))
  {
    FieldOfRecord(cat, keys, vals, place, i, r1, p1);
    FieldOfRecord(cat, keys, vals, place, i, r2, p2);
  }
}
