/** The rows of a hash table (src/hash_table.h:32-36): contents, and the two links that thread a row
    onto a bucket chain (hnext) and onto the list of all rows (snext). */
module Rows {
  import opened Seqs
  import opened SortOrder

  class Row<K, V> {
    const key: K
    const hash: nat
    var val: V
    var hnext: Row?<K, V>
    var snext: Row?<K, V>

    constructor (key: K, hash: nat, val: V, hnext: Row?<K, V>, snext: Row?<K, V>)
      ensures this.key == key && this.hash == hash && this.val == val
      ensures this.hnext == hnext && this.snext == snext
    {
      this.key, this.hash, this.val, this.hnext, this.snext := key, hash, val, hnext, snext;
    }
  }

  datatype Item<K, V> = Item(key: K, val: V)

  type Snapshot<K, V> = seq<Entry<Row<K, V>, Item<K, V>>>

  /** What the rows of s hold. */
  ghost function ItemsOf<K, V>(s: seq<Row<K, V>>): (r: seq<Item<K, V>>)
    reads s
    ensures |r| == |s|
    ensures forall i :: 0 <= i < |s| ==> r[i] == Item(s[i].key, s[i].val)
  {
    seq(|s|, i requires 0 <= i < |s| reads s => Item(s[i].key, s[i].val))
  }

  lemma ItemsConcat<K, V>(s: seq<Row<K, V>>, t: seq<Row<K, V>>)
    ensures ItemsOf(s + t) == ItemsOf(s) + ItemsOf(t)
  {}

  /** What the rows held when a sort began; the callback sees exactly this as long as Frozen holds. */
  type Contents<K, V> = map<Row<K, V>, Item<K, V>>

  ghost predicate Frozen<K, V>(f: Contents<K, V>)
    reads f.Keys`val
  {
    forall x :: x in f ==> f[x] == Item(x.key, x.val)
  }

  /** Every row of s has its contents in f. */
  ghost predicate Known<K, V>(s: seq<Row<K, V>>, f: Contents<K, V>) {
    forall x :: x in s ==> x in f
  }

  /** The rows of s tagged with their frozen contents. */
  ghost function Tag<K, V>(s: seq<Row<K, V>>, f: Contents<K, V>): (r: Snapshot<K, V>)
    requires Known(s, f)
    ensures |r| == |s|
    ensures forall i :: 0 <= i < |s| ==> r[i] == Entry(s[i], f[s[i]])
  {
    seq(|s|, i requires 0 <= i < |s| => Entry(s[i], f[s[i]]))
  }

  /** The rows of a snapshot. */
  function Refs<R, I>(s: seq<Entry<R, I>>): (r: seq<R>)
    ensures |r| == |s| && forall i :: 0 <= i < |s| ==> r[i] == s[i].ref
  {
    seq(|s|, i requires 0 <= i < |s| => s[i].ref)
  }

  lemma RefsTakeOut<R, I>(s: seq<Entry<R, I>>, j: nat)
    requires j < |s|
    ensures multiset(Refs(s)) == multiset(Refs(Without(s, j))) + multiset{s[j].ref}
  {
    var r := Refs(s);
    assert Without(r, j) == Refs(Without(s, j));
    TakeOut(r, j);
    assert r[j] in multiset(r);
  }

  lemma {:induction false} RefsPermuted<R, I>(s: seq<Entry<R, I>>, t: seq<Entry<R, I>>)
    requires multiset(s) == multiset(t)
    ensures multiset(Refs(s)) == multiset(Refs(t))
    decreases |s|
  {
    SameLength(s, t);
    if s != [] {
      var j := Match(s, 0, t);
      RefsPermuted(Without(s, 0), Without(t, j));
      RefsTakeOut(s, 0);
      RefsTakeOut(t, j);
    }
  }

  /** A permutation of tagged rows is the tagging of the permuted rows. */
  lemma TagPermuted<K, V>(s: Snapshot<K, V>, w: seq<Row<K, V>>, f: Contents<K, V>)
    requires Known(w, f) && multiset(s) == multiset(Tag(w, f))
    ensures multiset(Refs(s)) == multiset(w) && Known(Refs(s), f) && Tag(Refs(s), f) == s
  {
    RefsPermuted(s, Tag(w, f));
    assert Refs(Tag(w, f)) == w;
    forall i | 0 <= i < |s| ensures s[i].ref in f && s[i].item == f[s[i].ref] {
      assert s[i] in multiset(s) && s[i] in Tag(w, f);
    }
  }

  lemma TagUncons<K, V>(s: seq<Row<K, V>>, f: Contents<K, V>)
    requires Known(s, f) && s != []
    ensures Known(s[1..], f) && Known([s[0]], f)
    ensures Tag(s[1..], f) == Tag(s, f)[1..] && Tag([s[0]], f) == [Entry(s[0], f[s[0]])]
  {}

  lemma KnownConcat<K, V>(s: seq<Row<K, V>>, t: seq<Row<K, V>>, f: Contents<K, V>)
    requires Known(s, f) && Known(t, f)
    ensures Known(s + t, f)
  {}

  lemma TagConcat<K, V>(s: seq<Row<K, V>>, t: seq<Row<K, V>>, f: Contents<K, V>)
    requires Known(s + t, f)
    ensures Known(s, f) && Known(t, f)
    ensures Tag(s + t, f) == Tag(s, f) + Tag(t, f)
  {
    assert forall x :: x in s ==> x in s + t;
    assert forall x :: x in t ==> x in s + t;
  }

  /** Names two places of a sequence, so that NoDup is used on them and on nothing else. */
  ghost predicate Places(i: int, j: int) { true }

  ghost predicate NoDup<T>(s: seq<T>) {
    forall i, j {:trigger Places(i, j)} :: 0 <= i < j < |s| ==> s[i] != s[j]
  }

  lemma Distinct<T>(s: seq<T>, i: nat, j: nat)
    requires NoDup(s) && i < j < |s|
    ensures s[i] != s[j]
  {
    assert Places(i, j);
  }

  lemma NoDupConcat<T>(s: seq<T>, t: seq<T>)
    requires NoDup(s) && NoDup(t) && forall x :: x in s ==> x !in t
    ensures NoDup(s + t)
  {
    var w, n := s + t, |s|;
    forall i, j | 0 <= i < j < |w| ensures w[i] != w[j] {
      if j < n {
        Distinct(s, i, j);
      } else if i >= n {
        Distinct(t, i - n, j - n);
      } else {
        assert s[i] in s && t[j - n] in t;
      }
    }
  }

  lemma NoDupCons<T>(x: T, s: seq<T>)
    requires NoDup(s) && x !in s
    ensures NoDup([x] + s)
  {
    NoDupConcat([x], s);
  }

  lemma NoDupTail<T>(s: seq<T>)
    requires NoDup(s) && s != []
    ensures s[0] !in s[1..] && NoDup(s[1..])
  {
    var t := s[1..];
    forall j | 0 <= j < |t| ensures t[j] != s[0] {
      Distinct(s, 0, j + 1);
    }
    forall i, j | 0 <= i < j < |t| ensures t[i] != t[j] {
      Distinct(s, i + 1, j + 1);
    }
  }

  /** No element of m is in it twice. */
  ghost predicate Unique<T>(m: multiset<T>) {
    forall x :: x in m ==> m[x] == 1
  }

  lemma Uncons<T>(s: seq<T>)
    requires s != []
    ensures multiset(s) == multiset{s[0]} + multiset(s[1..])
  {
    assert s == [s[0]] + s[1..];
  }

  lemma {:induction false} NoDupUnique<T>(s: seq<T>)
    requires NoDup(s)
    ensures Unique(multiset(s))
  {
    if s != [] {
      NoDupTail(s);
      NoDupUnique(s[1..]);
      Uncons(s);
    }
  }

  lemma {:induction false} UniqueNoDup<T>(s: seq<T>)
    requires Unique(multiset(s))
    ensures NoDup(s)
  {
    if s != [] {
      Uncons(s);
      var x := s[0];
      assert x in multiset(s) && multiset(s)[x] == 1 + multiset(s[1..])[x];
      forall y | y in multiset(s[1..]) ensures multiset(s[1..])[y] == 1 {
        assert y in multiset(s);
      }
      UniqueNoDup(s[1..]);
      NoDupCons(x, s[1..]);
      assert s == [x] + s[1..];
    }
  }

  lemma NoDupPermuted<T>(s: seq<T>, t: seq<T>)
    requires NoDup(s) && multiset(s) == multiset(t)
    ensures NoDup(t)
  {
    NoDupUnique(s);
    UniqueNoDup(t);
  }

  /** Neighbours in s are linked by snext. */
  ghost predicate Linked<K, V>(s: seq<Row<K, V>>)
    reads s`snext
  {
    forall i {:trigger s[i].snext} :: 0 <= i < |s| - 1 ==> s[i].snext == s[i + 1]
  }

  /** p is the first row of the null-terminated snext list s. */
  ghost predicate SList<K, V>(p: Row?<K, V>, s: seq<Row<K, V>>)
    reads s`snext
  {
    && Linked(s)
    && (if s == [] then p == null else p == s[0] && s[|s| - 1].snext == null)
  }

  ghost function RowAt<K, V>(s: seq<Row<K, V>>, i: nat): Row?<K, V> {
    if i < |s| then s[i] else null
  }

  lemma SListConcat<K, V>(p: Row?<K, V>, s: seq<Row<K, V>>, t: seq<Row<K, V>>)
    requires Linked(s) && (t == [] || SList(t[0], t)) && p == RowAt(s + t, 0)
    requires s != [] ==> s[|s| - 1].snext == RowAt(t, 0)
    ensures SList(p, s + t)
  {
    var w := s + t;
    forall i | 0 <= i < |w| - 1 ensures w[i].snext == w[i + 1] {
      if i < |s| - 1 {
        assert s[i].snext == s[i + 1];
      } else if i >= |s| {
        assert t[i - |s|].snext == t[i - |s| + 1];
      }
    }
  }

  /** s is a null-terminated bucket chain. */
  ghost predicate HLinked<K, V>(s: seq<Row<K, V>>)
    reads s`hnext
  {
    forall i {:trigger s[i].hnext} :: 0 <= i < |s| ==> s[i].hnext == RowAt(s, i + 1)
  }
}
