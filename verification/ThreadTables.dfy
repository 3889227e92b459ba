/** The tables of the threads in memory: what a thread does to its hash_table_t is the step that the merge
    protocol makes of it (src/memheap.c:641-649, 852-865). */
module ThreadTables {
  import opened HashTable
  import opened MergeThreads
  import opened Rows
  import opened TableSpec

  /** In list mode h holds the rows of t in order, counts them, and slast is the last one. */
  ghost predicate ShowsRows<K(!new), V(!new)>(h: HashTable<K, V>, t: Table<K, V>)
    reads h, h.rows
  {
    t.List? && h.ListOK() && !h.sorted && ItemsOf(h.rows) == t.rows
  }

  /** In hash mode h stands for the map of t; a table that was merged away has no buckets. */
  ghost predicate ShowsMap<K(!new), V(!new)>(h: HashTable<K, V>, t: Table<K, V>)
    reads h, h.buckets, h.rows
  {
    t.Hash? && h.model == t.m && if h.buckets == null then h.ListOK() && h.rows == [] && t.m == map[] else h.Valid()
  }

  method InsertRow<K(!new), V(!new)>(h: HashTable<K, V>, x: Item<K, V>, ghost s: State<K, V>, ghost t: nat)
    requires Enabled(s, Insert(t, x)) && ShowsRows(h, s.threads[t].table)
    modifies h
    ensures ShowsRows(h, Apply(s, Insert(t, x), h.aggr).threads[t].table)
  {
    var prow := h.InsertList(x.key, x.val);
  }

  method InsertKey<K(!new), V(!new)>(h: HashTable<K, V>, x: Item<K, V>, ghost s: State<K, V>, ghost t: nat)
    requires Enabled(s, Insert(t, x)) && h.buckets != null && ShowsMap(h, s.threads[t].table)
    modifies h, h.buckets, h.rows
    ensures ShowsMap(h, Apply(s, Insert(t, x), h.aggr).threads[t].table)
  {
    var prow := h.InsertHash(x.key, x.val);
  }

  /** Two lists of which neither is empty. */
  method JoinLists<K(!new), V(!new)>(dst: HashTable<K, V>, src: HashTable<K, V>)
    requires dst.ListOK() && src.ListOK() && !dst.sorted && !src.sorted && dst.Apart(src) && src.rows != []
    modifies dst, src, dst.rows`snext
    ensures dst.ListOK() && src.ListOK() && !dst.sorted && !src.sorted
    ensures ItemsOf(dst.rows) == old(ItemsOf(dst.rows) + ItemsOf(src.rows)) && ItemsOf(src.rows) == []
  {
    ghost var was := ItemsOf(dst.rows + src.rows);
    ItemsConcat(dst.rows, src.rows);
    dst.Join(src);
    assert ItemsOf(dst.rows) == was;
  }

  /** In list mode a merge is one call of hash_table_join.  slast of the other table is right afterwards
      because the table that goes over is not empty. */
  method JoinTables<K(!new), V(!new)>(dst: HashTable<K, V>, src: HashTable<K, V>, ghost s: State<K, V>, ghost t: nat, ghost d: nat)
    requires Enabled(s, JoinRows(t)) && s.threads[t].phase == Moving(d) && d != t && dst.Apart(src)
    requires ShowsRows(dst, s.threads[d].table) && ShowsRows(src, s.threads[t].table)
    modifies dst, src, dst.rows`snext
    ensures ShowsRows(dst, Apply(s, JoinRows(t), dst.aggr).threads[d].table)
    ensures ShowsRows(src, Apply(s, JoinRows(t), dst.aggr).threads[t].table)
  {
    JoinLists(dst, src);
  }

  /** In hash mode a merge is one call of hash_table_merge: it does what moving the rows one by one does. */
  method MergeTables<K(!new), V(!new)>(dst: HashTable<K, V>, src: HashTable<K, V>, ghost s: State<K, V>, ghost t: nat, ghost d: nat)
    returns (ghost acts: seq<Action<K, V>>, ghost s': State<K, V>)
    requires MovingMaps(s, t, d) && dst.Apart(src) && dst.aggr == src.aggr
    requires dst.buckets != null && ShowsMap(dst, s.threads[d].table)
    requires src.buckets != null && ShowsMap(src, s.threads[t].table)
    modifies dst, dst.buckets, dst.rows, src
    ensures MovesOf(acts, t) && Run(s, acts, s', dst.aggr) && |s'.threads| == |s.threads|
    ensures ShowsMap(dst, s'.threads[d].table) && ShowsMap(src, s'.threads[t].table)
  {
    acts, s' := MoveAll(s, t, d, dst.aggr);
    AllMoved(s, acts, s', t, d, dst.aggr);
    dst.Merge(src);
  }

  /** When everybody has returned in list mode, table 0 has each written row exactly once, numentries counts
      them and slast is the last of them. */
  lemma FinalRows<K(!new), V(!new)>(s: State<K, V>, acts: seq<Action<K, V>>, s': State<K, V>, op: (V, V) -> V, h: HashTable<K, V>)
    requires Init(s) && Run(s, acts, s', op) && Finished(s') && s'.threads != [] && s.listMode && s'.listMode
    requires ShowsRows(h, s'.threads[0].table)
    ensures multiset(ItemsOf(h.rows)) == multiset(s'.log) && h.numentries == |s'.log| && h.SlastOK()
  {
    FinalList(s, acts, s', op);
  }
}
