/** Sums over the rows of a table: what aggregation with SUM conserves. */
module Totals {
  import opened Aggregate
  import opened Bytes
  import opened FieldList
  import Remainder
  import opened Rows
  import opened Seqs
  import opened TableSpec

  /** The sum of g over all values of a table. */
  ghost function Total<K, V>(m: map<K, V>, g: V -> nat): nat
    decreases |m|
  {
    if m == map[] then 0
    else
      var k :| k in m;
      g(m[k]) + Total(m - {k}, g)
  }

  lemma {:induction false} TotalWithout<K, V>(m: map<K, V>, k: K, g: V -> nat)
    requires k in m
    ensures Total(m, g) == g(m[k]) + Total(m - {k}, g)
    decreases |m|
  {
    var j :| j in m && Total(m, g) == g(m[j]) + Total(m - {j}, g);
    if j != k {
      TotalWithout(m - {j}, k, g);
      TotalWithout(m - {k}, j, g);
      assert m - {j} - {k} == m - {k} - {j};
    }
  }

  /** Tables with the same keys and counters have the same sum. */
  lemma {:induction false} TotalSame<K, V, W>(m: map<K, V>, v: map<K, W>, g: V -> nat, g2: W -> nat)
    requires m.Keys == v.Keys && forall k :: k in m ==> g(m[k]) == g2(v[k])
    ensures Total(m, g) == Total(v, g2)
    decreases |m|
  {
    if m == map[] {
      assert v == map[];
    } else {
      assert m.Keys != {};
      var k :| k in m;
      TotalWithout(m, k, g);
      TotalWithout(v, k, g2);
      assert (m - {k}).Keys == (v - {k}).Keys;
      TotalSame(m - {k}, v - {k}, g, g2);
    }
  }

  lemma TotalPut<K, V>(m: map<K, V>, k: K, v: V, g: V -> nat)
    ensures Total(m[k := v], g) + (if k in m then g(m[k]) else 0) == Total(m, g) + g(v)
  {
    TotalWithout(m[k := v], k, g);
    assert m[k := v] - {k} == m - {k};
    if k in m {
      TotalWithout(m, k, g);
    } else {
      assert m - {k} == m;
    }
  }

  function LogTotal<K, V>(log: seq<Item<K, V>>, g: V -> nat): nat {
    if log == [] then 0 else LogTotal(log[..|log| - 1], g) + g(log[|log| - 1].val)
  }

  lemma {:induction false} LogTotalConcat<K, V>(a: seq<Item<K, V>>, b: seq<Item<K, V>>, g: V -> nat)
    ensures LogTotal(a + b, g) == LogTotal(a, g) + LogTotal(b, g)
  {
    if b == [] {
      assert a + b == a;
    } else {
      LogTotalConcat(a, b[..|b| - 1], g);
      assert (a + b)[..|a + b| - 1] == a + b[..|b| - 1];
    }
  }

  lemma LogTotalOne<K, V>(x: Item<K, V>, g: V -> nat)
    ensures LogTotal([x], g) == g(x.val)
  {
    assert [x][..0] == [];
  }

  lemma LogTotalTakeOut<K, V>(log: seq<Item<K, V>>, j: nat, g: V -> nat)
    requires j < |log|
    ensures LogTotal(log, g) == LogTotal(Without(log, j), g) + g(log[j].val)
  {
    var a, x, c := log[..j], [log[j]], log[j + 1..];
    assert log == a + (x + c);
    LogTotalConcat(a, x + c, g);
    LogTotalConcat(x, c, g);
    LogTotalConcat(a, c, g);
    LogTotalOne(log[j], g);
  }

  /** The order of the writes does not matter for their sum. */
  lemma {:induction false} LogTotalPermuted<K, V>(a: seq<Item<K, V>>, b: seq<Item<K, V>>, g: V -> nat)
    requires multiset(a) == multiset(b)
    ensures LogTotal(a, g) == LogTotal(b, g)
    decreases |a|
  {
    SameLength(a, b);
    if a != [] {
      var j := Match(a, 0, b);
      LogTotalTakeOut(a, 0, g);
      LogTotalTakeOut(b, j, g);
      LogTotalPermuted(Without(a, 0), Without(b, j), g);
    }
  }

  // ---------- one summed field ----------

  /** The counter in field i of a value buffer. */
  function Counter(fs: seq<Fld>, i: nat): Data -> nat
    requires i < |fs|
  {
    (d: Data) => if Sized(fs, d) then LeVal(Part(fs, d, i)) else 0
  }

  /** x and y are equal as integers of n bytes. */
  predicate Congruent(x: nat, y: nat, n: nat) {
    LePut(x, n) == LePut(y, n)
  }

  lemma CongruentAdd(x: nat, y: nat, z: nat, n: nat)
    requires Congruent(x, y, n)
    ensures Congruent(x + z, y + z, n)
  {
    PutAdd(x, z, n);
    PutAdd(y, z, n);
  }

  /** Aggregation replaces a counter by its sum with the new one. */
  lemma CounterAdds(fs: seq<Fld>, i: nat, a: Data, b: Data)
    requires i < |fs| && fs[i].op == Sum && Sized(fs, a) && Sized(fs, b)
    ensures Sized(fs, Aggr(fs, a, b))
    ensures Congruent(Counter(fs, i)(Aggr(fs, a, b)), Counter(fs, i)(a) + Counter(fs, i)(b), fs[i].size)
  {
    PartOfAggr(fs, a, b, i);
    PutVal(Part(fs, Aggr(fs, a, b), i));
  }

  ghost predicate ValuesSized<K>(fs: seq<Fld>, m: map<K, Data>) {
    forall k :: k in m ==> Sized(fs, m[k])
  }

  lemma {:induction false} CongruentCancel(x: nat, y: nat, z: nat, n: nat)
    requires Congruent(x + z, y + z, n)
    ensures Congruent(x, y, n)
  {
    if n > 0 {
      assert LePut(x + z, n)[0] == (x + z) % 256 && LePut(y + z, n)[0] == (y + z) % 256;
      assert x % 256 == y % 256;
      var c := (x % 256 + z) / 256;
      assert (x + z) / 256 == x / 256 + c && (y + z) / 256 == y / 256 + c;
      assert LePut(x + z, n)[1..] == LePut(x / 256 + c, n - 1) && LePut(y + z, n)[1..] == LePut(y / 256 + c, n - 1);
      CongruentCancel(x / 256, y / 256, c, n - 1);
    }
  }

  lemma Exchange(t: nat, u: nat, w: nat, a: nat, b: nat, n: nat)
    requires t + a == u + w && Congruent(w, a + b, n)
    ensures Congruent(t, u + b, n)
  {
    CongruentAdd(w, a + b, u, n);
    CongruentCancel(t, u + b, a, n);
  }

  /** A write adds to the sum if aggregation adds. */
  lemma TotalAdd<K, V>(m: map<K, V>, k: K, v: V, aggr: (V, V) -> V, g: V -> nat, n: nat)
    requires k in m ==> Congruent(g(aggr(m[k], v)), g(m[k]) + g(v), n)
    ensures Congruent(Total(Put(m, k, v, aggr), g), Total(m, g) + g(v), n)
  {
    var w := if k in m then aggr(m[k], v) else v;
    TotalPut(m, k, w, g);
    if k in m {
      Exchange(Total(m[k := w], g), Total(m, g), g(w), g(m[k]), g(v), n);
    } else {
      assert Total(m[k := w], g) == Total(m, g) + g(v);
    }
  }

  lemma PutSized<K>(fs: seq<Fld>, m: map<K, Data>, k: K, v: Data)
    requires ValuesSized(fs, m) && Sized(fs, v)
    ensures ValuesSized(fs, Put(m, k, v, AggrFor(fs)))
  {}

  lemma PutConserves<K>(fs: seq<Fld>, i: nat, m: map<K, Data>, k: K, v: Data)
    requires i < |fs| && fs[i].op == Sum && ValuesSized(fs, m) && Sized(fs, v)
    ensures ValuesSized(fs, Put(m, k, v, AggrFor(fs)))
    ensures Congruent(Total(Put(m, k, v, AggrFor(fs)), Counter(fs, i)), Total(m, Counter(fs, i)) + Counter(fs, i)(v), fs[i].size)
  {
    PutSized(fs, m, k, v);
    if k in m {
      CounterAdds(fs, i, m[k], v);
    }
    TotalAdd(m, k, v, AggrFor(fs), Counter(fs, i), fs[i].size);
  }

  /** Whatever the keys: the counters of all rows add up to the counters of all writes, in the width of the
      field. */
  lemma {:induction false} SumConserved<K>(fs: seq<Fld>, i: nat, log: seq<Item<K, Data>>)
    requires i < |fs| && fs[i].op == Sum && forall j :: 0 <= j < |log| ==> Sized(fs, log[j].val)
    ensures ValuesSized(fs, PutAll(map[], log, AggrFor(fs)))
    ensures Congruent(Total(PutAll(map[], log, AggrFor(fs)), Counter(fs, i)), LogTotal(log, Counter(fs, i)), fs[i].size)
  {
    if log != [] {
      var init, last, g := log[..|log| - 1], log[|log| - 1], Counter(fs, i);
      SumConserved(fs, i, init);
      var m := PutAll(map[], init, AggrFor(fs));
      PutConserves(fs, i, m, last.key, last.val);
      CongruentAdd(Total(m, g), LogTotal(init, g), g(last.val), fs[i].size);
    }
  }

  // ---------- what Congruent means ----------

  function Pow256(n: nat): (p: nat)
    ensures p > 0
  {
    if n == 0 then 1 else 256 * Pow256(n - 1)
  }

  lemma ModStep(x: nat, p: nat)
    requires p > 0
    ensures x % (256 * p) == x % 256 + 256 * (x / 256 % p)
  {
    var q, r := x / 256 / p, x / 256 % p;
    assert x / 256 == q * p + r;
    Remainder.ModOf(x, q, 256 * p, x % 256 + 256 * r);
  }

  lemma {:induction false} LowIsMod(x: nat, n: nat)
    ensures LeVal(LePut(x, n)) == x % Pow256(n)
  {
    if n > 0 {
      LowIsMod(x / 256, n - 1);
      assert LePut(x, n)[1..] == LePut(x / 256, n - 1);
      ModStep(x, Pow256(n - 1));
    }
  }

  /** Equality as integers of n bytes is equality modulo 256^n. */
  lemma {:induction false} CongruentMod(x: nat, y: nat, n: nat)
    ensures Congruent(x, y, n) <==> x % Pow256(n) == y % Pow256(n)
  {
    LowIsMod(x, n);
    LowIsMod(y, n);
    if x % Pow256(n) == y % Pow256(n) {
      ValInjective(LePut(x, n), LePut(y, n));
    }
  }
}
