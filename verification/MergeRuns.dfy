/** Complete runs of the merge protocol (src/memheap.c:708-881): whatever the threads have to write, and in
    whatever order they come to it, there is a run that ends with everybody returned. */
module MergeRuns {
  import opened MergeThreads
  import opened Rows
  import opened TableSpec

  // ---------- from any state ----------

  lemma MergeKeeps<K, V>(s: State<K, V>, a: Action<K, V>, op: (V, V) -> V)
    requires Enabled(s, a) && MergeAction(a) && AllWritten(s)
    ensures var s' := Apply(s, a, op);
            AllWritten(s') && s'.log == s.log && |s'.threads| == |s.threads| && s'.listMode == s.listMode
  {}

  /** From every state in which each thread has written, the threads can all get through their merges, and
      nothing is written meanwhile. */
  lemma {:induction false} MergeCompletes<K, V>(s: State<K, V>, op: (V, V) -> V) returns (acts: seq<Action<K, V>>, end: State<K, V>)
    requires Inv(s) && AllWritten(s)
    ensures Run(s, acts, end, op) && Finished(end) && forall i :: 0 <= i < |acts| ==> MergeAction(acts[i])
    ensures end.log == s.log && |end.threads| == |s.threads| && end.listMode == s.listMode
    decreases Weight(s.threads)
  {
    if Finished(s) {
      acts, end := [], s;
    } else {
      var a := Progress(s);
      InvStep(s, a, op);
      MergeActionsDescend(s, a, op);
      MergeKeeps(s, a, op);
      var rest;
      rest, end := MergeCompletes(Apply(s, a, op), op);
      acts := [a] + rest;
      assert acts[1..] == rest;
    }
  }

  // ---------- runs one after the other ----------

  lemma {:induction false} RunConcat<K, V>(s: State<K, V>, a: seq<Action<K, V>>, m: State<K, V>, b: seq<Action<K, V>>,
                                           end: State<K, V>, op: (V, V) -> V)
    requires Run(s, a, m, op) && Run(m, b, end, op)
    ensures Run(s, a + b, end, op)
    decreases |a|
  {
    if a == [] {
      assert a + b == b;
    } else {
      RunConcat(Apply(s, a[0], op), a[1..], m, b, end, op);
      assert (a + b)[1..] == a[1..] + b;
    }
  }

  lemma RunSnoc<K, V>(s: State<K, V>, acts: seq<Action<K, V>>, m: State<K, V>, a: Action<K, V>, op: (V, V) -> V)
    requires Run(s, acts, m, op) && Enabled(m, a)
    ensures Run(s, acts + [a], Apply(m, a, op), op)
  {
    assert [a][1..] == [];
    RunConcat(s, acts, m, [a], Apply(m, a, op), op);
  }

  /** What thread t inserts, in order. */
  function Inserts<K, V>(acts: seq<Action<K, V>>, t: nat): seq<Item<K, V>> {
    if acts == [] then []
    else
      var a := acts[|acts| - 1];
      Inserts(acts[..|acts| - 1], t) + if a.Insert? && a.t == t then [a.item] else []
  }

  lemma {:induction false} InsertsConcat<K, V>(a: seq<Action<K, V>>, b: seq<Action<K, V>>, t: nat)
    ensures Inserts(a + b, t) == Inserts(a, t) + Inserts(b, t)
    decreases |b|
  {
    if b == [] {
      assert a + b == a;
    } else {
      InsertsConcat(a, b[..|b| - 1], t);
      assert (a + b)[..|a + b| - 1] == a + b[..|b| - 1];
    }
  }

  lemma {:induction false} NoInserts<K, V>(acts: seq<Action<K, V>>, t: nat)
    requires forall i :: 0 <= i < |acts| ==> !acts[i].Insert?
    ensures Inserts(acts, t) == []
  {
    if acts != [] {
      NoInserts(acts[..|acts| - 1], t);
    }
  }

  // ---------- taking ids ----------

  /** n threads have an id, nothing is written. */
  function Fresh<K, V>(listMode: bool, n: nat): State<K, V> {
    State(listMode, seq(n, _ => Thread(Empty, Starting, EmptyTable(listMode))), [])
  }

  lemma {:induction false} TakeIds<K, V>(listMode: bool, n: nat, op: (V, V) -> V) returns (acts: seq<Action<K, V>>)
    requires n <= MAX_THREADS
    ensures Run(Fresh(listMode, 0), acts, Fresh(listMode, n), op) && forall i :: 0 <= i < |acts| ==> acts[i] == TakeId
  {
    if n == 0 {
      acts := [];
    } else {
      var before := TakeIds(listMode, n - 1, op);
      var m: State<K, V> := Fresh(listMode, n - 1);
      RunSnoc(Fresh(listMode, 0), before, m, TakeId, op);
      assert Apply(m, TakeId, op).threads == Fresh<K, V>(listMode, n).threads;
      acts := before + [TakeId];
    }
  }

  // ---------- writing ----------

  /** The part of thread t in a log whose i-th item thread who[i] writes. */
  function Part<T>(log: seq<T>, who: seq<nat>, t: nat): seq<T>
    requires |log| == |who|
  {
    if log == [] then []
    else
      var n := |log| - 1;
      Part(log[..n], who[..n], t) + if who[n] == t then [log[n]] else []
  }

  /** log is made of what the threads have to write, each in its own order. */
  ghost predicate Interleaving<T>(work: seq<seq<T>>, log: seq<T>, who: seq<nat>) {
    && |who| == |log| && (forall i :: 0 <= i < |who| ==> who[i] < |work|)
    && forall t :: 0 <= t < |work| ==> Part(log, who, t) == work[t]
  }

  lemma {:induction false} PartHasWriter<T>(log: seq<T>, who: seq<nat>, t: nat)
    requires |log| == |who| && Part(log, who, t) != []
    ensures t in who
  {
    var n := |log| - 1;
    if who[n] != t {
      PartHasWriter(log[..n], who[..n], t);
    }
  }

  /** Every thread has taken its id or is writing. */
  ghost predicate BeforeMerge<K, V>(s: State<K, V>) {
    Inv(s) && forall t :: 0 <= t < |s.threads| ==> s.threads[t].phase in {Starting, Writing}
  }

  /** The threads write log in its order. */
  lemma {:induction false} WriteLog<K, V>(s: State<K, V>, log: seq<Item<K, V>>, who: seq<nat>, op: (V, V) -> V)
    returns (acts: seq<Action<K, V>>, end: State<K, V>)
    requires BeforeMerge(s) && |who| == |log| && forall i :: 0 <= i < |who| ==> who[i] < |s.threads|
    ensures Run(s, acts, end, op) && BeforeMerge(end) && |end.threads| == |s.threads| && end.listMode == s.listMode
    ensures end.log == s.log + log
    ensures forall t :: 0 <= t < |s.threads| && t in who ==> end.threads[t].phase == Writing
    ensures forall t {:trigger Inserts(acts, t)} {:trigger Part(log, who, t)} :: Inserts(acts, t) == Part(log, who, t)
    ensures forall i :: 0 <= i < |acts| && acts[i].Insert? ==> acts[i].item in log
    decreases |log|
  {
    if log == [] {
      acts, end := [], s;
    } else {
      var n := |log| - 1;
      var before, m := WriteLog(s, log[..n], who[..n], op);
      var a := Insert(who[n], log[n]);
      InvStep(m, a, op);
      RunSnoc(s, before, m, a, op);
      acts, end := before + [a], Apply(m, a, op);
      assert log == log[..n] + [log[n]] && who == who[..n] + [who[n]];
      assert acts[..|acts| - 1] == before;
    }
  }

  // ---------- any work ----------

  /** The threads have taken their ids and written all they have to. */
  lemma WorkIsWritten<K, V>(listMode: bool, work: seq<seq<Item<K, V>>>, log: seq<Item<K, V>>, who: seq<nat>, op: (V, V) -> V)
    returns (acts: seq<Action<K, V>>, m: State<K, V>)
    requires |work| <= MAX_THREADS && (forall t :: 0 <= t < |work| ==> work[t] != []) && Interleaving(work, log, who)
    ensures Run(Fresh(listMode, |work|), acts, m, op) && Inv(m) && AllWritten(m)
    ensures |m.threads| == |work| && m.log == log && m.listMode == listMode
    ensures forall t :: 0 <= t < |work| ==> Inserts(acts, t) == work[t]
    ensures forall i :: 0 <= i < |acts| && acts[i].Insert? ==> acts[i].item in log
  {
    acts, m := WriteLog(Fresh(listMode, |work|), log, who, op);
    forall t | 0 <= t < |work| ensures !m.threads[t].phase.Starting? && Inserts(acts, t) == work[t] {
      assert Inserts(acts, t) == Part(log, who, t);
      PartHasWriter(log, who, t);
    }
  }

  /** Of three runs in a row only the second one inserts. */
  lemma OnlySecondInserts<K, V>(a: seq<Action<K, V>>, b: seq<Action<K, V>>, c: seq<Action<K, V>>, t: nat)
    requires forall i :: 0 <= i < |a| ==> !a[i].Insert?
    requires forall i :: 0 <= i < |c| ==> !c[i].Insert?
    ensures Inserts(a + b + c, t) == Inserts(b, t)
  {
    InsertsConcat(a + b, c, t);
    InsertsConcat(a, b, t);
    NoInserts(a, t);
    NoInserts(c, t);
  }

  /** Whatever up to 128 threads have to write, and however their writes interleave, there is a run from the
      start in which each thread writes just its part and in the end all have returned. */
  lemma AnyWorkCompletes<K, V>(listMode: bool, work: seq<seq<Item<K, V>>>, log: seq<Item<K, V>>, who: seq<nat>, op: (V, V) -> V)
    returns (start: State<K, V>, acts: seq<Action<K, V>>, end: State<K, V>)
    requires |work| <= MAX_THREADS && (forall t :: 0 <= t < |work| ==> work[t] != []) && Interleaving(work, log, who)
    ensures Init(start) && start.listMode == listMode && Run(start, acts, end, op) && Finished(end) && end.listMode == listMode
    ensures |end.threads| == |work| && end.log == log
    ensures forall t :: 0 <= t < |work| ==> Inserts(acts, t) == work[t]
    ensures forall i :: 0 <= i < |acts| && acts[i].Insert? ==> acts[i].item in log
  {
    start := Fresh(listMode, 0);
    var taken := TakeIds(listMode, |work|, op);
    var written, w := WorkIsWritten(listMode, work, log, who, op);
    var merged;
    merged, end := MergeCompletes(w, op);
    RunConcat(start, taken, Fresh(listMode, |work|), written, w, op);
    RunConcat(start, taken + written, w, merged, end, op);
    acts := taken + written + merged;
    forall t | 0 <= t < |work| ensures Inserts(acts, t) == work[t] {
      OnlySecondInserts(taken, written, merged, t);
    }
  }

  /** So for an aggregation that commutes and associates the threads can build the table of any log
      together. */
  lemma AnyLogIsBuilt<K(!new), V(!new)>(work: seq<seq<Item<K, V>>>, log: seq<Item<K, V>>, who: seq<nat>, op: (V, V) -> V, ok: V -> bool)
    returns (start: State<K, V>, acts: seq<Action<K, V>>, end: State<K, V>)
    requires Law(op, ok) && ItemsFine(log, ok)
    requires 0 < |work| <= MAX_THREADS && (forall t :: 0 <= t < |work| ==> work[t] != []) && Interleaving(work, log, who)
    ensures Init(start) && Run(start, acts, end, op) && |end.threads| == |work|
    ensures MapOf(end.threads[0].table) == PutAll(map[], log, op)
  {
    start, acts, end := AnyWorkCompletes(false, work, log, who, op);
    FinalTable(start, acts, end, op, ok);
  }
}
