/** What a hash table stands for: a map from keys to aggregated values. */
module TableSpec {
  import opened Rows

  /** One write: a new key keeps its value, a known key aggregates it. */
  function Put<K, V>(m: map<K, V>, k: K, v: V, aggr: (V, V) -> V): map<K, V> {
    m[k := if k in m then aggr(m[k], v) else v]
  }

  function PutAll<K, V>(m: map<K, V>, log: seq<Item<K, V>>, aggr: (V, V) -> V): map<K, V> {
    if log == [] then m
    else
      var last := log[|log| - 1];
      Put(PutAll(m, log[..|log| - 1], aggr), last.key, last.val, aggr)
  }

  lemma {:induction false} PutAllConcat<K, V>(m: map<K, V>, a: seq<Item<K, V>>, b: seq<Item<K, V>>, aggr: (V, V) -> V)
    ensures PutAll(m, a + b, aggr) == PutAll(PutAll(m, a, aggr), b, aggr)
  {
    if b == [] {
      assert a + b == a;
    } else {
      var n := |b| - 1;
      assert (a + b)[..|a| + n] == a + b[..n] && (a + b)[|a| + n] == b[n];
      PutAllConcat(m, a, b[..n], aggr);
    }
  }

  /** The writes of log from position i on. */
  function PutFrom<K, V>(m: map<K, V>, log: seq<Item<K, V>>, i: nat, aggr: (V, V) -> V): map<K, V>
    decreases |log| - i
  {
    if i >= |log| then m else PutFrom(Put(m, log[i].key, log[i].val, aggr), log, i + 1, aggr)
  }

  lemma {:induction false} PutFromIsPutAll<K, V>(m: map<K, V>, log: seq<Item<K, V>>, i: nat, aggr: (V, V) -> V)
    requires i <= |log|
    ensures PutFrom(m, log, i, aggr) == PutAll(m, log[i..], aggr)
    decreases |log| - i
  {
    if i < |log| {
      var x := log[i];
      PutFromIsPutAll(Put(m, x.key, x.val, aggr), log, i + 1, aggr);
      assert log[i..] == [x] + log[i + 1..];
      PutAllConcat(m, [x], log[i + 1..], aggr);
      assert PutAll(m, [x], aggr) == Put(PutAll(m, [], aggr), x.key, x.val, aggr);
    }
  }

  function Flat<T>(logs: seq<seq<T>>, index: nat): seq<T>
    decreases |logs| - index
  {
    if index >= |logs| then [] else logs[index] + Flat(logs, index + 1)
  }

  datatype Option<T> = None | Some(value: T)

  function Get<K, V>(m: map<K, V>, k: K): Option<V> {
    if k in m then Some(m[k]) else None
  }

  lemma SameMap<K(!new), V>(m: map<K, V>, n: map<K, V>)
    requires forall k :: Get(m, k) == Get(n, k)
    ensures m == n
  {
    assert forall k :: k in m ==> Get(m, k) == Get(n, k);
    assert forall k :: k in n ==> Get(m, k) == Get(n, k);
  }

  // ---------- aggregation ----------

  /** Aggregation with a missing left or right operand. */
  function Plus<V>(a: Option<V>, b: Option<V>, aggr: (V, V) -> V): Option<V> {
    if a == None then b else if b == None then a else Some(aggr(a.value, b.value))
  }

  /** The values logged under k, aggregated in the order of the log; None if there are none. */
  function Folded<K(==), V>(log: seq<Item<K, V>>, k: K, aggr: (V, V) -> V): Option<V> {
    if log == [] then None
    else
      var last := log[|log| - 1];
      var before := Folded(log[..|log| - 1], k, aggr);
      if last.key == k then Plus(before, Some(last.val), aggr) else before
  }

  /** A table fed with a log holds under every key the fold of that key's values: the first value as
      it came, every later one aggregated in order, and no key that was not written. */
  lemma {:induction false} PutAllFolds<K, V>(log: seq<Item<K, V>>, k: K, aggr: (V, V) -> V)
    ensures Get(PutAll(map[], log, aggr), k) == Folded(log, k, aggr)
  {
    if log != [] {
      PutAllFolds(log[..|log| - 1], k, aggr);
    }
  }

  // ---------- merging tables ----------

  /** All of src aggregated into dst. */
  function MergeMaps<K, V>(dst: map<K, V>, src: map<K, V>, aggr: (V, V) -> V): map<K, V> {
    map k | k in dst.Keys + src.Keys :: Plus(Get(dst, k), Get(src, k), aggr).value
  }

  predicate UniqueKeys<K(==), V>(s: seq<Item<K, V>>) {
    forall i, j :: 0 <= i < j < |s| ==> s[i].key != s[j].key
  }

  lemma UniqueConcat<K, V>(s: seq<Item<K, V>>, t: seq<Item<K, V>>)
    requires UniqueKeys(s) && UniqueKeys(t)
    requires forall i, j :: 0 <= i < |s| && 0 <= j < |t| ==> s[i].key != t[j].key
    ensures UniqueKeys(s + t)
  {}

  lemma {:induction false} PutAllMisses<K, V>(m: map<K, V>, log: seq<Item<K, V>>, k: K, aggr: (V, V) -> V)
    requires forall i :: 0 <= i < |log| ==> log[i].key != k
    ensures Get(PutAll(m, log, aggr), k) == Get(m, k)
  {
    if log != [] {
      PutAllMisses(m, log[..|log| - 1], k, aggr);
    }
  }

  lemma {:induction false} PutAllHits<K, V>(m: map<K, V>, log: seq<Item<K, V>>, i: nat, aggr: (V, V) -> V)
    requires UniqueKeys(log) && i < |log|
    ensures Get(PutAll(m, log, aggr), log[i].key) == Plus(Get(m, log[i].key), Some(log[i].val), aggr)
  {
    var n := |log| - 1;
    if i == n {
      PutAllMisses(m, log[..n], log[i].key, aggr);
    } else {
      PutAllHits(m, log[..n], i, aggr);
    }
  }

  /** A log that names every entry of src once has the effect of merging src. */
  lemma PutAllMerges<K(!new), V>(m: map<K, V>, log: seq<Item<K, V>>, src: map<K, V>, aggr: (V, V) -> V)
    requires UniqueKeys(log)
    requires forall x :: x in log ==> x.key in src && src[x.key] == x.val
    requires forall k :: k in src ==> Item(k, src[k]) in log
    ensures PutAll(m, log, aggr) == MergeMaps(m, src, aggr)
  {
    forall k ensures Get(PutAll(m, log, aggr), k) == Get(MergeMaps(m, src, aggr), k) {
      if k in src {
        var i :| 0 <= i < |log| && log[i] == Item(k, src[k]);
        PutAllHits(m, log, i, aggr);
      } else {
        PutAllMisses(m, log, k, aggr);
      }
    }
    SameMap(PutAll(m, log, aggr), MergeMaps(m, src, aggr));
  }
}
