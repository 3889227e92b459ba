/** src/hash_table.c: rows on bucket chains (hnext) and on one list of all rows (snext). */
module HashTable {
  import opened SortOrder
  import opened Remainder
  import opened Rows
  import opened Seqs
  import opened TableSpec
  import opened ListSort
  import HeapSort

  /** Names a row, a key or a bucket, so that the invariant is used on it and on nothing else. */
  ghost predicate Use<T>(x: T) { true }

  class HashTable<K(==, !new), V(!new)> {
    const hashOf: K -> nat
    const aggr: (V, V) -> V
    const compare: Compare<K, V>

    var buckets: array?<Row?<K, V>>
    var sfirst: Row?<K, V>
    var slast: Row?<K, V>
    var numentries: nat

    ghost var rows: seq<Row<K, V>>          // in snext order
    ghost var chains: seq<seq<Row<K, V>>>   // per bucket, in hnext order
    ghost var home: map<K, Row<K, V>>       // the row of every key
    ghost var model: map<K, V>              // the map the table stands for
    ghost var sorted: bool                  // slast may be stale

    /** slast is the end of the snext list. */
    ghost predicate SlastOK()
      reads this`slast, this`rows
    {
      if rows == [] then slast == null else slast == rows[|rows| - 1]
    }

    /** The snext list holds every row once, numentries counts it, and slast is its end unless a sort
        has moved the end away. */
    ghost predicate ListOK()
      reads this`sfirst, this`slast, this`numentries, this`rows, this`sorted, rows`snext
    {
      SList(sfirst, rows) && NoDup(rows) && numentries == |rows| && (!sorted ==> SlastOK())
    }

    /** chain is what hangs on bucket b: linked by hnext, without repetition, all of it hashed to b. */
    ghost predicate BucketOK(head: Row?<K, V>, chain: seq<Row<K, V>>, b: nat, n: nat, rs: seq<Row<K, V>>)
      requires 0 < n
      reads rs`hnext
    {
      && (forall i :: 0 <= i < |chain| ==> chain[i] in rs)
      && HLinked(chain) && head == RowAt(chain, 0) && NoDup(chain)
      && (forall i :: 0 <= i < |chain| ==> Slot(chain[i].hash, n) == b)
    }

    /** Every row of rs is on the chain of its hash. */
    ghost predicate Chained(rs: seq<Row<K, V>>)
      reads this`chains
    {
      0 < |chains| && forall r {:trigger Use(r)} :: r in rs ==> r.hash == hashOf(r.key) && r in chains[Slot(r.hash, |chains|)]
    }

    ghost predicate ChainsOn(rs: seq<Row<K, V>>)
      reads this`chains, this`buckets, buckets, rs`hnext
    {
      && buckets != null && 0 < buckets.Length == |chains|
      && (forall b {:trigger Use(b)} :: 0 <= b < |chains| ==> BucketOK(buckets[b], chains[b], b, |chains|, rs))
      && Chained(rs)
    }

    ghost predicate ChainsOK()
      reads this`chains, this`buckets, this`rows, buckets, rows`hnext
    {
      ChainsOn(rows)
    }

    /** A key has one row, and the model shows its value. */
    ghost predicate KeysOn(rs: seq<Row<K, V>>)
      reads this`home, this`model, rs`val
    {
      && home.Keys == model.Keys
      && (forall r {:trigger Use(r)} :: r in rs ==> r.key in home && home[r.key] == r && model[r.key] == r.val)
      && (forall k {:trigger Use(k)} :: k in home ==> home[k] in rs && home[k].key == k)
    }

    ghost predicate KeysOK()
      reads this`rows, this`home, this`model, rows`val
    {
      KeysOn(rows)
    }

    /** A table in hash mode. */
    ghost predicate Valid()
      reads this, buckets, rows
    {
      ListOK() && ChainsOK() && KeysOK()
    }

    lemma BucketAt(b: int, rs: seq<Row<K, V>>)
      requires ChainsOn(rs) && 0 <= b < |chains|
      ensures BucketOK(buckets[b], chains[b], b, |chains|, rs)
    {
      assert Use(b);
    }

    lemma RowChained(r: Row<K, V>, rs: seq<Row<K, V>>)
      requires Chained(rs) && r in rs
      ensures r.hash == hashOf(r.key) && r in chains[Slot(r.hash, |chains|)]
    {
      assert Use(r);
    }

    lemma RowKnown(r: Row<K, V>, rs: seq<Row<K, V>>)
      requires KeysOn(rs) && r in rs
      ensures r.key in home && home[r.key] == r && model[r.key] == r.val
    {
      assert Use(r);
    }

    lemma KeyKnown(k: K, rs: seq<Row<K, V>>)
      requires KeysOn(rs) && k in home
      ensures home[k] in rs && home[k].key == k
    {
      assert Use(k);
    }

    constructor (numbuckets: nat, hashOf: K -> nat, aggr: (V, V) -> V, compare: Compare<K, V>)
      requires 0 < numbuckets
      ensures Valid() && !sorted && rows == [] && model == map[]
      ensures this.hashOf == hashOf && this.aggr == aggr && this.compare == compare
      ensures fresh(buckets) && buckets.Length == numbuckets
    {
      this.hashOf, this.aggr, this.compare := hashOf, aggr, compare;
      var b := new Row?<K, V>[numbuckets](_ => null);
      buckets := b;
      sfirst, slast, numentries := null, null, 0;
      rows, chains, home, model, sorted := [], seq(numbuckets, _ => []), map[], map[], false;
      new;
      forall i | 0 <= i < numbuckets ensures BucketOK(buckets[i], chains[i], i, numbuckets, rows) {
        assert chains[i] == [];
      }
    }

    /** Rows are neither tables nor bucket arrays. */
    lemma OnlyRows(s: seq<Row<K, V>>)
      ensures forall j :: 0 <= j < |s| ==> (s[j] as object) != this && (s[j] as object) != buckets
    {}

    /** The row stored under key, or null when there is none. */
    method Lookup(key: K) returns (row: Row?<K, V>, hash: nat)
      requires Valid()
      ensures hash == hashOf(key)
      ensures row == null <==> key !in model
      ensures row != null ==> row in rows && row == home[key] && row.key == key && row.val == model[key]
    {
      hash := hashOf(key);
      var index := hash % buckets.Length;
      SlotIsRemainder(hash, buckets.Length);
      row := buckets[index];
      ghost var chain, i := chains[index], 0;
      BucketAt(index, rows);
      while row != null
        invariant 0 <= i <= |chain|
        invariant row == RowAt(chain, i)
        invariant forall j :: 0 <= j < i ==> chain[j].key != key
        decreases |chain| - i
      {
        if row.key == key {
          RowKnown(row, rows);
          return;
        }
        row := row.hnext;
        i := i + 1;
      }
      if key in home {
        KeyKnown(key, rows);
        RowChained(home[key], rows);
      }
    }

    twostate lemma KeysKept(row: Row<K, V>)
      requires old(KeysOK()) && row in rows && rows == old(rows) && home == old(home)
      requires forall r {:trigger r.val} :: r in rows && r != row ==> r.val == old(r.val)
      requires model == old(model)[row.key := row.val]
      ensures KeysOK()
    {
      assert Use(row);
      forall r | r in rows ensures r.key in home && home[r.key] == r && model[r.key] == r.val {
        assert Use(r);
      }
      forall k | k in home ensures home[k] in rows && home[k].key == k {
        assert Use(k);
      }
    }

    /** The aggregation callback on a row found under its key. */
    method Aggregate(row: Row<K, V>, val: V)
      requires Valid() && row in rows
      modifies row`val, this`model
      ensures Valid() && model == old(model)[row.key := aggr(old(row.val), val)]
    {
      row.val := aggr(row.val, val);
      model := model[row.key := row.val];
      KeysKept(row);
    }

    /** Puts a new row in front of the snext list. */
    method PushList(prow: Row<K, V>)
      requires ListOK() && prow !in rows && prow.snext == sfirst
      modifies this`sfirst, this`slast, this`numentries, this`rows
      ensures ListOK() && rows == [prow] + old(rows)
    {
      NoDupCons(prow, rows);
      numentries := numentries + 1;
      if sfirst == null {
        slast := prow;
      }
      sfirst := prow;
      rows := [prow] + rows;
    }

    lemma MoreRows(head: Row?<K, V>, chain: seq<Row<K, V>>, b: nat, n: nat, prow: Row<K, V>, rs: seq<Row<K, V>>)
      requires 0 < n && BucketOK(head, chain, b, n, rs)
      ensures BucketOK(head, chain, b, n, [prow] + rs)
    {}

    lemma LongerChain(head: Row?<K, V>, chain: seq<Row<K, V>>, b: nat, n: nat, prow: Row<K, V>, rs: seq<Row<K, V>>)
      requires 0 < n && BucketOK(head, chain, b, n, rs)
      requires prow !in rs && prow.hnext == head && Slot(prow.hash, n) == b
      ensures BucketOK(prow, [prow] + chain, b, n, [prow] + rs)
    {
      NoDupCons(prow, chain);
    }

    /** Puts a new row in front of its bucket chain. */
    method PushChain(prow: Row<K, V>, ghost rs: seq<Row<K, V>>)
      requires ChainsOn(rs) && prow !in rs
      requires prow.hash == hashOf(prow.key) && prow.hnext == buckets[Slot(prow.hash, buckets.Length)]
      modifies buckets, this`chains
      ensures ChainsOn([prow] + rs)
    {
      var index := prow.hash % buckets.Length;
      SlotIsRemainder(prow.hash, buckets.Length);
      ghost var n := |chains|;
      forall b | 0 <= b < n && b != index ensures BucketOK(buckets[b], chains[b], b, n, [prow] + rs) {
        BucketAt(b, rs);
        MoreRows(buckets[b], chains[b], b, n, prow, rs);
      }
      BucketAt(index, rs);
      LongerChain(buckets[index], chains[index], index, n, prow, rs);
      ghost var next := chains[index := [prow] + chains[index]];
      forall r | r in [prow] + rs ensures r.hash == hashOf(r.key) && r in next[Slot(r.hash, n)] {
        if r != prow { RowChained(r, rs); }
      }
      buckets[index] := prow;
      chains := next;
      assert forall b :: 0 <= b < n ==> BucketOK(buckets[b], chains[b], b, n, [prow] + rs);
    }

    /** Hangs a new row on both threads. */
    method LinkNew(prow: Row<K, V>)
      requires ListOK() && ChainsOK() && prow !in rows && prow.hash == hashOf(prow.key)
      requires prow.hnext == buckets[Slot(prow.hash, buckets.Length)] && prow.snext == sfirst
      modifies this`sfirst, this`slast, this`numentries, this`rows, this`chains, buckets
      ensures ListOK() && ChainsOK() && rows == [prow] + old(rows)
    {
      ghost var rs := [prow] + rows;
      PushChain(prow, rows);
      PushList(prow);
      assert rows == rs;
    }

    method SetHome(prow: Row<K, V>, ghost rs: seq<Row<K, V>>)
      requires KeysOn(rs) && prow.key !in home
      modifies this`home, this`model
      ensures KeysOn([prow] + rs)
      ensures home == old(home)[prow.key := prow] && model == old(model)[prow.key := prow.val]
    {
      forall r | r in rs ensures r.key in home && home[r.key] == r && model[r.key] == r.val {
        RowKnown(r, rs);
      }
      forall k | k in home ensures home[k] in rs && home[k].key == k {
        KeyKnown(k, rs);
      }
      home := home[prow.key := prow];
      model := model[prow.key := prow.val];
    }

    /** Registers a new row under a key that is not in the table. */
    method AddRow(prow: Row<K, V>)
      requires Valid() && prow !in rows && prow.key !in home && prow.hash == hashOf(prow.key)
      requires prow.hnext == buckets[Slot(prow.hash, buckets.Length)] && prow.snext == sfirst
      modifies this`sfirst, this`slast, this`numentries, this`rows, this`chains, this`home, this`model, buckets
      ensures Valid() && rows == [prow] + old(rows)
      ensures home == old(home)[prow.key := prow] && model == old(model)[prow.key := prow.val]
    {
      ghost var rs := [prow] + rows;
      OnlyRows(rs);
      SetHome(prow, rows);
      LinkNew(prow);
      assert rows == rs && KeysOn(rs);
    }

    /** A row of its own for a key that is not in the table. */
    method InsertNew(key: K, hash: nat, val: V) returns (prow: Row<K, V>)
      requires Valid() && key !in model && hash == hashOf(key)
      modifies this`sfirst, this`slast, this`numentries, this`rows, this`chains, this`home, this`model, buckets
      ensures Valid() && fresh(prow)
      ensures rows == [prow] + old(rows) && home == old(home)[key := prow]
      ensures model == old(model)[key := val] && prow.key == key
    {
      SlotIsRemainder(hash, buckets.Length);
      prow := new Row(key, hash, val, buckets[hash % buckets.Length], sfirst);
      AddRow(prow);
    }

    /** Rows have come into this table only as new ones. */
    twostate predicate Grown()
      reads this`rows
    {
      forall r :: r in rows ==> r in old(rows) || fresh(r)
    }

    /** Stores val under key: a known key aggregates, a new one gets a row of its own. */
    method InsertHash(key: K, val: V) returns (prow: Row<K, V>)
      requires Valid()
      modifies this, buckets, rows`val
      ensures Valid() && buckets == old(buckets) && sorted == old(sorted)
      ensures model == Put(old(model), key, val, aggr)
      ensures prow.key == key && prow in rows
      ensures key in old(model) ==> rows == old(rows)
      ensures key !in old(model) ==> fresh(prow) && rows == [prow] + old(rows)
      ensures Grown()
    {
      var found, hash := Lookup(key);
      if found != null {
        Aggregate(found, val);
        prow := found;
      } else {
        prow := InsertNew(key, hash, val);
      }
    }

    /** List mode: every write is a row of its own and the buckets are not used. */
    method InsertList(key: K, val: V) returns (prow: Row<K, V>)
      requires ListOK()
      modifies this`sfirst, this`slast, this`numentries, this`rows
      ensures ListOK() && fresh(prow) && rows == [prow] + old(rows)
      ensures ItemsOf(rows) == [Item(key, val)] + old(ItemsOf(rows))
    {
      prow := new Row(key, 0, val, null, sfirst);
      PushList(prow);
    }

    /** None of the rows in s is one of this table's. */
    ghost predicate Foreign(s: seq<Row<K, V>>)
      reads this`rows
    {
      forall j :: 0 <= j < |s| ==> s[j] !in rows
    }

    /** Two tables that share nothing. */
    ghost predicate Apart(ts: HashTable<K, V>)
      reads this`buckets, this`rows, ts`buckets, ts`rows
    {
      this != ts && (buckets == null || buckets != ts.buckets) && Foreign(ts.rows)
    }

    /** src/hash_table.c:285-304: the rows of ts go behind those of this table, in list mode.  An empty
        ts is where the code loses slast. */
    method Join(ts: HashTable<K, V>)
      requires ListOK() && ts.ListOK() && !sorted && !ts.sorted && Apart(ts)
      modifies this, ts, rows`snext
      ensures SList(sfirst, rows) && NoDup(rows) && numentries == |rows|
      ensures rows == old(rows) + old(ts.rows)
      ensures ts.ListOK() && ts.rows == [] && !sorted && !ts.sorted
      ensures SlastOK() <==> old(ts.rows) != [] || old(rows) == []
    {
      forall i | 0 <= i < |rows| - 1 ensures rows[i] != slast {
        Distinct(rows, i, |rows| - 1);
      }
      assert slast != null ==> slast in rows;
      if slast != null {
        slast.snext := ts.sfirst;
      } else {
        sfirst := ts.sfirst;
      }
      numentries := numentries + ts.numentries;
      ts.numentries := 0;
      slast := ts.slast;
      ts.sfirst := null;
      ts.slast := null;
      NoDupConcat(rows, ts.rows);
      SListConcat(sfirst, rows, ts.rows);
      rows := rows + ts.rows;
      ts.rows := [];
    }

    /** The rows in the order a merge walks over them: bucket by bucket from index on. */
    ghost function WalkFrom(index: nat): (s: seq<Item<K, V>>)
      requires ChainsOK()
      reads this`chains, this`buckets, this`rows, buckets, rows
      decreases |chains| - index
    {
      if index >= |chains| then []
      else
        BucketAt(index, rows);
        ItemsOf(chains[index]) + WalkFrom(index + 1)
    }

    /** x is the content of a row in bucket index or behind. */
    ghost predicate Behind(x: Item<K, V>, index: nat)
      reads this`chains, this`home, this`model
    {
      x.key in home && x.key in model && model[x.key] == x.val && 0 < |chains| && index <= Slot(home[x.key].hash, |chains|)
    }

    lemma ChainItems(index: nat)
      requires Valid() && index < |chains|
      ensures var s := ItemsOf(chains[index]);
              && UniqueKeys(s)
              && forall x :: x in s ==> Behind(x, index) && Slot(home[x.key].hash, |chains|) == index
    {
      BucketAt(index, rows);
      var c := chains[index];
      forall i | 0 <= i < |c| ensures c[i].key in home && home[c[i].key] == c[i] && model[c[i].key] == c[i].val {
        RowKnown(c[i], rows);
      }
      forall i, j | 0 <= i < j < |c| ensures c[i].key != c[j].key {
        Distinct(c, i, j);
      }
    }

    lemma {:induction false} WalkBehind(index: nat)
      requires Valid() && index <= |chains|
      ensures forall x :: x in WalkFrom(index) ==> Behind(x, index)
      decreases |chains| - index
    {
      if index < |chains| {
        ChainItems(index);
        WalkBehind(index + 1);
      }
    }

    lemma {:induction false} WalkUnique(index: nat)
      requires Valid() && index <= |chains|
      ensures UniqueKeys(WalkFrom(index))
      decreases |chains| - index
    {
      if index < |chains| {
        ChainItems(index);
        WalkBehind(index + 1);
        WalkUnique(index + 1);
        var s, t := ItemsOf(chains[index]), WalkFrom(index + 1);
        forall i, j | 0 <= i < |s| && 0 <= j < |t| ensures s[i].key != t[j].key {
          assert s[i] in s && t[j] in t;
        }
        UniqueConcat(s, t);
      }
    }

    lemma InConcat<T>(a: seq<T>, b: seq<T>, x: T)
      requires x in a || x in b
      ensures x in a + b
    {}

    lemma InBucket(r: Row<K, V>)
      requires Valid() && r in rows
      ensures var b := Slot(r.hash, |chains|); b < |chains| && Item(r.key, r.val) in ItemsOf(chains[b])
    {
      var b := Slot(r.hash, |chains|);
      RowChained(r, rows);
      var i :| 0 <= i < |chains[b]| && chains[b][i] == r;
      assert ItemsOf(chains[b])[i] == Item(r.key, r.val);
    }

    lemma WalkUnfold(index: nat)
      requires Valid() && index < |chains|
      ensures WalkFrom(index) == ItemsOf(chains[index]) + WalkFrom(index + 1)
    {}

    lemma {:induction false} WalkComplete(index: nat, r: Row<K, V>)
      requires Valid() && r in rows && index <= Slot(r.hash, |chains|)
      ensures Item(r.key, r.val) in WalkFrom(index)
      decreases |chains| - index
    {
      InBucket(r);
      WalkUnfold(index);
      var x := Item(r.key, r.val);
      if index < Slot(r.hash, |chains|) {
        WalkComplete(index + 1, r);
        InConcat(ItemsOf(chains[index]), WalkFrom(index + 1), x);
      } else {
        InConcat(ItemsOf(chains[index]), WalkFrom(index + 1), x);
      }
    }

    /** Writing every row of the walk into another table merges this one into it. */
    lemma WalkMerges(m: map<K, V>)
      requires Valid()
      ensures PutAll(m, WalkFrom(0), aggr) == MergeMaps(m, model, aggr)
    {
      WalkUnique(0);
      WalkBehind(0);
      forall k | k in model ensures Item(k, model[k]) in WalkFrom(0) {
        KeyKnown(k, rows);
        RowKnown(home[k], rows);
        WalkComplete(0, home[k]);
      }
      PutAllMerges(m, WalkFrom(0), model, aggr);
    }

    lemma NextWrite(prow: Row<K, V>, chain: seq<Row<K, V>>, i: nat, goal: map<K, V>)
      requires HLinked(chain) && prow == RowAt(chain, i) && PutFrom(model, ItemsOf(chain), i, aggr) == goal
      ensures i < |chain| && prow.hnext == RowAt(chain, i + 1)
      ensures PutFrom(Put(model, prow.key, prow.val, aggr), ItemsOf(chain), i + 1, aggr) == goal
    {}

    /** One row of another table, the one at place i of its chain, is written into this one; goal is the map
        when the whole chain is. */
    method WalkStep(prow: Row<K, V>, ghost chain: seq<Row<K, V>>, ghost i: nat, ghost goal: map<K, V>) returns (next: Row?<K, V>)
      requires Valid() && Foreign(chain) && HLinked(chain)
      requires prow == RowAt(chain, i) && PutFrom(model, ItemsOf(chain), i, aggr) == goal
      modifies this, buckets, rows`val
      ensures Valid() && Foreign(chain) && HLinked(chain)
      ensures i < |chain| && next == RowAt(chain, i + 1) && PutFrom(model, ItemsOf(chain), i + 1, aggr) == goal
      ensures buckets == old(buckets) && sorted == old(sorted) && Grown()
    {
      OnlyRows(chain);
      NextWrite(prow, chain, i, goal);
      var added := InsertHash(prow.key, prow.val);
      next := prow.hnext;
    }

    lemma WalkEnds(chain: seq<Row<K, V>>, i: nat, goal: map<K, V>)
      requires PutFrom(model, ItemsOf(chain), i, aggr) == goal && i >= |chain|
      ensures model == goal
    {}

    /** Writes the rows of a chain of another table, first to last. */
    method MergeChain(prow0: Row?<K, V>, ghost chain: seq<Row<K, V>>, ghost goal: map<K, V>)
      requires Valid() && Foreign(chain) && HLinked(chain)
      requires prow0 == RowAt(chain, 0) && PutFrom(model, ItemsOf(chain), 0, aggr) == goal
      modifies this, buckets, rows`val
      ensures Valid() && model == goal
      ensures buckets == old(buckets) && sorted == old(sorted) && Grown()
    {
      var prow := prow0;
      ghost var n := 0;
      while prow != null
        invariant Valid() && Foreign(chain) && HLinked(chain)
        invariant prow == RowAt(chain, n) && PutFrom(model, ItemsOf(chain), n, aggr) == goal
        invariant buckets == old(buckets) && sorted == old(sorted) && Grown()
        decreases |chain| - n
      {
        assert forall i :: 0 <= i < |rows| ==> rows[i] in rows;
        prow := WalkStep(prow, chain, n, goal);
        n := n + 1;
      }
      WalkEnds(chain, n, goal);
    }

    /** What hangs on the buckets from index on, as a merge into another table reads it. */
    ghost predicate Source(logs: seq<seq<Item<K, V>>>, index: nat)
      reads this`buckets, this`chains, this`rows, buckets, rows
    {
      && buckets != null && buckets.Length == |chains| == |logs|
      && forall b :: index <= b < |chains| ==>
           && (forall i :: 0 <= i < |chains[b]| ==> chains[b][i] in rows)
           && HLinked(chains[b]) && buckets[b] == RowAt(chains[b], 0) && ItemsOf(chains[b]) == logs[b]
    }

    lemma {:induction false} WalkIsFlat(logs: seq<seq<Item<K, V>>>, index: nat)
      requires Valid() && Source(logs, 0)
      ensures WalkFrom(index) == Flat(logs, index)
      decreases |chains| - index
    {
      if index < |chains| {
        WalkIsFlat(logs, index + 1);
      }
    }

    lemma SourceOf() returns (logs: seq<seq<Item<K, V>>>)
      requires Valid()
      ensures Source(logs, 0)
    {
      logs := [];
      while |logs| < |chains|
        invariant |logs| <= |chains| && forall b :: 0 <= b < |logs| ==> ItemsOf(chains[b]) == logs[b]
      {
        logs := logs + [ItemsOf(chains[|logs|])];
      }
      forall b | 0 <= b < |chains| ensures HLinked(chains[b]) && buckets[b] == RowAt(chains[b], 0)
        ensures forall i :: 0 <= i < |chains[b]| ==> chains[b][i] in rows
      {
        BucketAt(b, rows);
      }
    }

    /** The merge has still to write the rows of ts from bucket index on; goal is the map when it is through. */
    ghost predicate Draining(ts: HashTable<K, V>, logs: seq<seq<Item<K, V>>>, index: nat, goal: map<K, V>)
      reads this`buckets, this`rows, this`model, ts`buckets, ts`chains, ts`rows, ts.buckets, ts.rows
    {
      Apart(ts) && ts.Source(logs, index) && index <= |logs| && PutAll(model, Flat(logs, index), aggr) == goal
    }

    lemma NextBucket(ts: HashTable<K, V>, logs: seq<seq<Item<K, V>>>, index: nat, goal: map<K, V>)
      requires Draining(ts, logs, index, goal) && index < |logs|
      ensures Foreign(ts.chains[index]) && HLinked(ts.chains[index]) && ts.buckets[index] == RowAt(ts.chains[index], 0)
      ensures PutFrom(model, ItemsOf(ts.chains[index]), 0, aggr) == PutAll(model, logs[index], aggr)
      ensures PutAll(PutAll(model, logs[index], aggr), Flat(logs, index + 1), aggr) == goal
    {
      PutAllConcat(model, logs[index], Flat(logs, index + 1), aggr);
      PutFromIsPutAll(model, logs[index], 0, aggr);
      assert logs[index][0..] == logs[index];
    }

    /** The rows of one bucket of ts go over. */
    method MergeBucket(ts: HashTable<K, V>, index: nat, ghost logs: seq<seq<Item<K, V>>>, ghost goal: map<K, V>)
      requires Valid() && Draining(ts, logs, index, goal) && index < |logs|
      modifies this, buckets, rows`val
      ensures Valid() && Draining(ts, logs, index + 1, goal)
      ensures buckets == old(buckets) && sorted == old(sorted) && Grown()
    {
      ghost var next := PutAll(model, logs[index], aggr);
      OnlyRows(ts.rows);
      NextBucket(ts, logs, index, goal);
      MergeChain(ts.buckets[index], ts.chains[index], next);
    }

    lemma Drained(ts: HashTable<K, V>, logs: seq<seq<Item<K, V>>>, index: nat, goal: map<K, V>)
      requires Draining(ts, logs, index, goal) && index >= |logs|
      ensures model == goal
    {}

    /** The buckets of ts one after the other. */
    method MergeBuckets(ts: HashTable<K, V>, ghost logs: seq<seq<Item<K, V>>>, ghost goal: map<K, V>)
      requires Valid() && Draining(ts, logs, 0, goal)
      modifies this, buckets, rows`val
      ensures Valid() && model == goal
      ensures buckets == old(buckets) && sorted == old(sorted)
    {
      var index := 0;
      while index < ts.buckets.Length
        invariant Valid() && Draining(ts, logs, index, goal)
        invariant buckets == old(buckets) && sorted == old(sorted) && Grown()
        decreases |logs| - index
      {
        assert forall i :: 0 <= i < |rows| ==> rows[i] in rows;
        MergeBucket(ts, index, logs, goal);
        index := index + 1;
      }
      Drained(ts, logs, index, goal);
    }

    /** What a merge leaves of its source: no rows and no buckets. */
    method Release()
      modifies this
      ensures ListOK() && rows == [] && buckets == null && model == map[]
    {
      buckets := null;
      numentries, sfirst, slast := 0, null, null;
      rows, model, home := [], map[], map[];
    }

    /** src/hash_table.c:307-343: every row of ts is written into this table, bucket by bucket, and ts
        is left empty and without buckets. */
    method Merge(ts: HashTable<K, V>)
      requires Valid() && ts.Valid() && Apart(ts) && ts.aggr == aggr
      modifies this, buckets, rows`val, ts
      ensures Valid() && model == MergeMaps(old(model), old(ts.model), aggr)
      ensures buckets == old(buckets) && sorted == old(sorted)
      ensures ts.ListOK() && ts.rows == [] && ts.buckets == null && ts.model == map[]
    {
      ghost var logs := ts.SourceOf();
      ts.WalkIsFlat(logs, 0);
      ts.WalkMerges(model);
      MergeBuckets(ts, logs, MergeMaps(model, ts.model, aggr));
      ts.Release();
    }

    /** The contents of all rows, for a sort to look at. */
    ghost function Frozen(): (f: Contents<K, V>)
      reads this`rows, rows`val
      ensures Rows.Frozen(f) && Known(rows, f) && f.Keys == set r | r in rows
    {
      map r | r in rows :: Item(r.key, r.val)
    }

    /** The hash table survives a sort: lookups walk hnext, which no sort touches. */
    twostate lemma SortKeepsChains()
      requires old(Valid()) && multiset(rows) == multiset(old(rows))
      requires chains == old(chains) && home == old(home) && model == old(model)
      requires buckets == old(buckets) && unchanged(buckets)
      requires forall r {:trigger r.hnext} :: r in old(rows) ==> r.hnext == old(r.hnext)
      requires forall r {:trigger r.val} :: r in old(rows) ==> r.val == old(r.val)
      ensures ChainsOK() && KeysOK()
    {
      forall r | r in rows ensures r in old(rows) {
        assert r in multiset(rows);
      }
      forall r | r in old(rows) ensures r in rows {
        assert r in multiset(rows);
      }
      forall r | r in rows
        ensures r.hash == hashOf(r.key) && r in chains[Slot(r.hash, |chains|)] && r.key in home && home[r.key] == r && model[r.key] == r.val
      {
        assert old(Chained(rows)) && Use(r);
      }
      forall k | k in home ensures home[k] in rows && home[k].key == k {
        assert Use(k);
      }
      forall b | 0 <= b < |chains| ensures BucketOK(buckets[b], chains[b], b, |chains|, rows) {
        assert Use(b);
      }
    }

    /** The list now runs from first through out. */
    method Install(first: Row?<K, V>, ghost out: seq<Row<K, V>>)
      requires SList(first, out) && NoDup(out) && multiset(out) == multiset(rows) && numentries == |rows|
      modifies this`sfirst, this`rows, this`sorted
      ensures ListOK() && rows == out && sorted
    {
      assert |multiset(out)| == |multiset(rows)|;
      sfirst, rows, sorted := first, out, true;
    }

    /** src/hash_table.c:245-251: sorts the snext list in place; slast stays where it was. */
    method Sort() returns (ghost f: Contents<K, V>)
      requires ListOK()
      modifies this`sfirst, this`rows, this`sorted, rows`snext
      ensures ListOK() && sorted && multiset(rows) == multiset(old(rows))
      ensures f == old(Frozen()) && Known(rows, f)
      ensures Tag(rows, f) == BottomUp(Tag(old(rows), f), 1, compare)
    {
      f := Frozen();
      var first, out := ListSort.ListSort(sfirst, compare, rows, f);
      Install(first, out);
    }

    /** In hash mode the table is intact after the sort. */
    method SortHashed() returns (ghost f: Contents<K, V>)
      requires Valid()
      modifies this`sfirst, this`rows, this`sorted, rows`snext
      ensures Valid() && model == old(model) && sorted
      ensures f == old(Frozen()) && Known(rows, f) && multiset(rows) == multiset(old(rows))
      ensures Tag(rows, f) == BottomUp(Tag(old(rows), f), 1, compare)
    {
      f := Sort();
      SortKeepsChains();
    }

    /** The snext list copied into an array, in order. */
    method Collect(ghost f: Contents<K, V>) returns (a: array<Entry<Row<K, V>, Item<K, V>>>)
      requires ListOK() && rows != [] && Rows.Frozen(f) && Known(rows, f)
      ensures fresh(a) && a[..] == Tag(rows, f)
    {
      var e := Entry(sfirst, Item(sfirst.key, sfirst.val));
      a := new Entry<Row<K, V>, Item<K, V>>[numentries](_ => e);
      var prow, i := sfirst, 0;
      while prow != null
        invariant i <= |rows| == a.Length && prow == RowAt(rows, i)
        invariant a[..i] == Tag(rows, f)[..i]
        decreases |rows| - i
      {
        a[i] := Entry(prow, Item(prow.key, prow.val));
        prow := prow.snext;
        i := i + 1;
      }
      assert a[..] == a[..i];
    }

    /** Links the rows of the array in its order. */
    method Relink(a: array<Entry<Row<K, V>, Item<K, V>>>, ghost out: seq<Row<K, V>>, ghost f: Contents<K, V>)
      requires out == Refs(a[..]) && out != [] && NoDup(out) && Known(out, f)
      requires |out| == 1 ==> out[0].snext == null
      modifies f.Keys`snext
      ensures SList(out[0], out)
    {
      var n := a.Length;
      var index := 1;
      while index < n
        invariant 1 <= index <= n == |out| && a[..] == old(a[..])
        invariant forall i {:trigger out[i].snext} :: 0 <= i < index - 1 ==> out[i].snext == out[i + 1]
        invariant n == 1 ==> out[0].snext == null
      {
        forall i | 0 <= i < index - 1 ensures out[i] != out[index - 1] {
          Distinct(out, i, index - 1);
        }
        a[index - 1].ref.snext := a[index].ref;
        index := index + 1;
      }
      if index > 1 {
        forall i | 0 <= i < n - 1 ensures out[i] != out[n - 1] {
          Distinct(out, i, n - 1);
        }
        a[index - 1].ref.snext := null;
      }
    }

    /** The list now runs through the array. */
    method RelinkAll(a: array<Entry<Row<K, V>, Item<K, V>>>, ghost f: Contents<K, V>)
      requires ListOK() && rows != [] && f.Keys == set r | r in rows
      requires multiset(Refs(a[..])) == multiset(rows) && NoDup(Refs(a[..])) && Known(Refs(a[..]), f)
      requires a.Length == 1 ==> Refs(a[..]) == rows
      modifies this`sfirst, this`rows, this`sorted, f.Keys`snext
      ensures ListOK() && rows == old(Refs(a[..])) && sorted
    {
      ghost var out := Refs(a[..]);
      SameLength(out, rows);
      Relink(a, out, f);
      Install(a[0].ref, out);
    }

    method SortedArray(ghost f: Contents<K, V>, ghost le: (Item<K, V>, Item<K, V>) -> bool, ghost strict: bool)
      returns (a: array<Entry<Row<K, V>, Item<K, V>>>)
      requires ListOK() && rows != [] && Rows.Frozen(f) && Known(rows, f)
      requires TotalPreorder(le) && Callback(compare, le, strict)
      ensures fresh(a) && multiset(a[..]) == multiset(Tag(rows, f)) && Sorted(a[..], le)
    {
      a := Collect(f);
      HeapSort.HeapSort(a, compare, le, strict);
    }

    lemma SortedRefs(s: Snapshot<K, V>, f: Contents<K, V>)
      requires Known(rows, f) && NoDup(rows) && multiset(s) == multiset(Tag(rows, f)) && rows != []
      ensures multiset(Refs(s)) == multiset(rows) && Known(Refs(s), f) && Tag(Refs(s), f) == s
      ensures NoDup(Refs(s)) && s != [] && (|s| == 1 ==> Refs(s) == rows)
    {
      TagPermuted(s, rows, f);
      assert |multiset(Refs(s))| == |multiset(rows)|;
      NoDupPermuted(rows, Refs(s));
      assert Refs(s)[0] in multiset(rows);
    }

    /** src/hash_table.c:203-242: the same by way of an array and heap sort.  The code reads the first
        array element, so the table must not be empty. */
    method SortHeap(ghost le: (Item<K, V>, Item<K, V>) -> bool, ghost strict: bool) returns (ghost f: Contents<K, V>)
      requires ListOK() && rows != []
      requires TotalPreorder(le) && Callback(compare, le, strict)
      modifies this`sfirst, this`rows, this`sorted, rows`snext
      ensures ListOK() && sorted && multiset(rows) == multiset(old(rows))
      ensures f == old(Frozen()) && Known(rows, f)
      ensures Sorted(Tag(rows, f), le) && multiset(Tag(rows, f)) == multiset(Tag(old(rows), f))
    {
      f := Frozen();
      var a := SortedArray(f, le, strict);
      SortedRefs(a[..], f);
      RelinkAll(a, f);
    }
  }

  /** Whichever of the two sorts is used, the rows come out with the same sequence of sort keys. */
  lemma SortsAgree<K(!new), V(!new)>(w: Snapshot<K, V>, heap: Snapshot<K, V>, cb: Compare<K, V>,
                                     le: (Item<K, V>, Item<K, V>) -> bool, strict: bool, i: nat)
    requires TotalPreorder(le) && Callback(cb, le, strict)
    requires Sorted(heap, le) && multiset(heap) == multiset(w) && i < |heap|
    ensures |BottomUp(w, 1, cb)| == |heap|
    ensures le(heap[i].item, BottomUp(w, 1, cb)[i].item) && le(BottomUp(w, 1, cb)[i].item, heap[i].item)
  {
    MergeSortCorrect(w, cb, le, strict, heap[i].item);
    SortedAlike(heap, BottomUp(w, 1, cb), le, i);
    SortedAlike(BottomUp(w, 1, cb), heap, le, i);
  }
}
