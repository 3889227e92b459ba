/** lnf_mem_merge_threads (src/memheap.c:807-881) and the writes before it, as steps of many threads.
    Every step is one critical section under thread_mutex, one insert of a thread into its own table, or
    one row moved from table to table outside the lock.  A thread is its id, given at its first write. */
module MergeThreads {
  import opened Seqs
  import opened Rows
  import opened TableSpec

  /** src/libnf_internal.h:215-221; LNF_TH_CLEARED is the same number as LNF_TH_MERGED. */
  datatype Status = Empty | Write | Merge | Merging | Merged

  /** Where a thread stands: id taken but nothing inserted; writing; in the partner search; merging its
      table into that of dst; returned from lnf_mem_merge_threads. */
  datatype Phase = Starting | Writing | Waiting | Moving(dst: nat) | Done

  /** A thread's table: a map in hash mode, rows in list mode. */
  datatype Table<K, V> = Hash(m: map<K, V>) | List(rows: seq<Item<K, V>>)

  datatype Thread<K, V> = Thread(status: Status, phase: Phase, table: Table<K, V>)

  /** log is history: all writes of all threads in the order they happened. */
  datatype State<K, V> = State(listMode: bool, threads: seq<Thread<K, V>>, log: seq<Item<K, V>>)

  datatype Action<K, V> =
    | TakeId
    | Insert(t: nat, item: Item<K, V>)
    | CallMerge(t: nat)
    | Pick(t: nat)
    | MoveRow(t: nat, key: K)
    | JoinRows(t: nat)
    | Publish(t: nat)

  const MAX_THREADS := 128

  function EmptyTable<K, V>(listMode: bool): Table<K, V> {
    if listMode then List([]) else Hash(map[])
  }

  function Size<K, V>(t: Table<K, V>): nat {
    match t
    case Hash(m) => |m|
    case List(rows) => |rows|
  }

  function FirstReady(status: seq<Status>, id: nat, i: nat): (r: Option<nat>)
    requires i <= id <= |status|
    ensures r.Some? ==> i <= r.value < id && status[r.value] == Merge
    ensures r.Some? ==> forall j :: i <= j < r.value ==> status[j] != Merge
    ensures r.None? ==> forall j :: i <= j < id ==> status[j] != Merge
    decreases id - i
  {
    if i == id then None else if status[i] == Merge then Some(i) else FirstReady(status, id, i + 1)
  }

  /** The partner search of thread id: the lowest id below it that is ready for a merge, if it is ready
      itself (src/memheap.c:840-848). */
  function Partner(status: seq<Status>, id: nat): (r: Option<nat>)
    requires id < |status|
    ensures r.Some? ==> r.value < id && status[id] == Merge && status[r.value] == Merge
    ensures r.Some? ==> forall i :: 0 <= i < r.value ==> status[i] != Merge
    ensures r.None? ==> status[id] != Merge || forall i :: 0 <= i < id ==> status[i] != Merge
  {
    if status[id] == Merge then FirstReady(status, id, 0) else None
  }

  function Statuses<K, V>(ts: seq<Thread<K, V>>): (r: seq<Status>)
    ensures |r| == |ts| && forall i :: 0 <= i < |ts| ==> r[i] == ts[i].status
  {
    seq(|ts|, i requires 0 <= i < |ts| => ts[i].status)
  }

  predicate Enabled<K(==), V(==)>(s: State<K, V>, a: Action<K, V>) {
    var ts := s.threads;
    match a
    case TakeId => |ts| < MAX_THREADS
    case Insert(t, _) => t < |ts| && ts[t].phase in {Starting, Writing}
    case CallMerge(t) => t < |ts| && ts[t].phase == Writing
    case Pick(t) => t < |ts| && ts[t].phase == Waiting && Partner(Statuses(ts), t).Some?
    case MoveRow(t, k) =>
      t < |ts| && ts[t].phase.Moving? && ts[t].phase.dst < |ts| && ts[t].table.Hash? && ts[ts[t].phase.dst].table.Hash? && k in ts[t].table.m
    case JoinRows(t) =>
      t < |ts| && ts[t].phase.Moving? && ts[t].phase.dst < |ts| && ts[t].table.List? && ts[ts[t].phase.dst].table.List? && ts[t].table.rows != []
    case Publish(t) => t < |ts| && ts[t].phase.Moving? && ts[t].phase.dst < |ts| && Size(ts[t].table) == 0
  }

  function Inserted<K, V>(t: Table<K, V>, x: Item<K, V>, op: (V, V) -> V): Table<K, V> {
    match t
    case Hash(m) => Hash(Put(m, x.key, x.val, op))
    case List(rows) => List([x] + rows)
  }

  function Apply<K, V>(s: State<K, V>, a: Action<K, V>, op: (V, V) -> V): State<K, V>
    requires Enabled(s, a)
  {
    var ts := s.threads;
    match a
    case TakeId => s.(threads := ts + [Thread(Empty, Starting, EmptyTable(s.listMode))])
    case Insert(t, x) =>
      s.(threads := ts[t := Thread(Write, Writing, Inserted(ts[t].table, x, op))], log := s.log + [x])
    case CallMerge(t) => s.(threads := ts[t := ts[t].(status := Merge, phase := if t == 0 then Done else Waiting)])
    case Pick(t) =>
      var d := Partner(Statuses(ts), t).value;
      s.(threads := ts[t := ts[t].(status := Merged, phase := Moving(d))][d := ts[d].(status := Merging)])
    case MoveRow(t, k) =>
      var d, v := ts[t].phase.dst, ts[t].table.m[k];
      s.(threads := ts[t := ts[t].(table := Hash(ts[t].table.m - {k}))]
                      [d := ts[d].(table := Hash(Put(ts[d].table.m, k, v, op)))])
    case JoinRows(t) =>
      var d := ts[t].phase.dst;
      s.(threads := ts[t := ts[t].(table := List([]))]
                      [d := ts[d].(table := List(ts[d].table.rows + ts[t].table.rows))])
    case Publish(t) =>
      var d := ts[t].phase.dst;
      s.(threads := ts[t := ts[t].(status := Merged, phase := Done)][d := ts[d].(status := Merge)])
  }

  predicate Init<K, V>(s: State<K, V>) {
    s.threads == [] && s.log == []
  }

  /** s' is reached from s by the actions acts, each of them possible when its turn comes. */
  ghost predicate Run<K, V>(s: State<K, V>, acts: seq<Action<K, V>>, s': State<K, V>, op: (V, V) -> V)
    decreases |acts|
  {
    if acts == [] then s == s' else Enabled(s, acts[0]) && Run(Apply(s, acts[0], op), acts[1..], s', op)
  }

  // ---------- the invariant ----------

  ghost predicate ThreadOK<K, V>(s: State<K, V>, t: nat)
    requires t < |s.threads|
  {
    var x := s.threads[t];
    && (s.listMode <==> x.table.List?)
    && match x.phase
       case Starting => x.status == Empty && Size(x.table) == 0
       case Writing => x.status == Write && Size(x.table) > 0
       case Waiting => t > 0 && (x.status == Merge || x.status == Merging) && Size(x.table) > 0
       case Moving(d) => d < t && x.status == Merged && s.threads[d].status == Merging
       case Done =>
         if t == 0 then (x.status == Merge || x.status == Merging) && Size(x.table) > 0 else x.status == Merged && Size(x.table) == 0
  }

  /** No two threads merge into the same table, and a table marked MERGING is being merged into. */
  ghost predicate PairsOK<K, V>(ts: seq<Thread<K, V>>) {
    && (forall t, u :: 0 <= t < |ts| && 0 <= u < |ts| && ts[t].phase.Moving? && ts[t].phase == ts[u].phase ==> t == u)
    && (forall d :: 0 <= d < |ts| && ts[d].status == Merging ==> exists t :: 0 <= t < |ts| && ts[t].phase == Moving(d))
  }

  ghost predicate Inv<K, V>(s: State<K, V>) {
    && |s.threads| <= MAX_THREADS
    && (forall t :: 0 <= t < |s.threads| ==> ThreadOK(s, t))
    && PairsOK(s.threads)
  }

  lemma PutSize<K, V>(m: map<K, V>, k: K, v: V, op: (V, V) -> V)
    ensures |m| <= |Put(m, k, v, op)| <= |m| + 1 && |Put(m, k, v, op)| > 0
  {
    var n := Put(m, k, v, op);
    assert n.Keys == m.Keys + {k} && |n| == |n.Keys| && |m| == |m.Keys|;
    if k in m { assert n.Keys == m.Keys; }
  }

  lemma InvTakeId<K, V>(s: State<K, V>, op: (V, V) -> V)
    requires Inv(s) && Enabled(s, TakeId)
    ensures Inv(Apply(s, TakeId, op))
  {
    var s', n := Apply(s, TakeId, op), |s.threads|;
    forall u | 0 <= u < |s'.threads| ensures ThreadOK(s', u) {
      if u < n { assert ThreadOK(s, u); }
    }
    forall d | 0 <= d < |s'.threads| && s'.threads[d].status == Merging
      ensures exists t :: 0 <= t < |s'.threads| && s'.threads[t].phase == Moving(d)
    {
      assert d < n && s.threads[d].status == Merging;
      var t :| 0 <= t < n && s.threads[t].phase == Moving(d);
      assert s'.threads[t].phase == Moving(d);
    }
  }

  /** Thread t has changed, but neither before nor after does it move rows or receive them. */
  lemma SamePairs<K, V>(s: State<K, V>, s': State<K, V>, t: nat)
    requires Inv(s) && t < |s.threads| == |s'.threads| && s'.listMode == s.listMode
    requires forall u :: 0 <= u < |s.threads| && u != t ==> s'.threads[u] == s.threads[u]
    requires !s.threads[t].phase.Moving? && !s'.threads[t].phase.Moving?
    requires s.threads[t].status != Merging && s'.threads[t].status != Merging
    requires ThreadOK(s', t)
    ensures Inv(s')
  {
    forall u | 0 <= u < |s'.threads| ensures ThreadOK(s', u) {
      if u != t { assert ThreadOK(s, u); }
    }
    forall d | 0 <= d < |s'.threads| && s'.threads[d].status == Merging
      ensures exists u :: 0 <= u < |s'.threads| && s'.threads[u].phase == Moving(d)
    {
      var u :| 0 <= u < |s.threads| && s.threads[u].phase == Moving(d);
      assert s'.threads[u].phase == Moving(d);
    }
  }

  lemma InvInsert<K, V>(s: State<K, V>, t: nat, x: Item<K, V>, op: (V, V) -> V)
    requires Inv(s) && Enabled(s, Insert(t, x))
    ensures Inv(Apply(s, Insert(t, x), op))
  {
    var s' := Apply(s, Insert(t, x), op);
    assert ThreadOK(s, t);
    if s.threads[t].table.Hash? { PutSize(s.threads[t].table.m, x.key, x.val, op); }
    SamePairs(s, s', t);
  }

  lemma InvCallMerge<K, V>(s: State<K, V>, t: nat, op: (V, V) -> V)
    requires Inv(s) && Enabled(s, CallMerge(t))
    ensures Inv(Apply(s, CallMerge(t), op))
  {
    var s' := Apply(s, CallMerge(t), op);
    assert ThreadOK(s, t);
    SamePairs(s, s', t);
  }

  lemma PickedThreads<K, V>(s: State<K, V>, t: nat, d: nat, u: nat, op: (V, V) -> V)
    requires Inv(s) && Enabled(s, Pick(t)) && Partner(Statuses(s.threads), t) == Some(d) && u < |s.threads|
    ensures ThreadOK(Apply(s, Pick(t), op), u) && s.threads[u].phase != Moving(d)
  {
    assert ThreadOK(s, t) && ThreadOK(s, d) && ThreadOK(s, u);
  }

  lemma PickedPairs<K, V>(ts: seq<Thread<K, V>>, us: seq<Thread<K, V>>, t: nat, d: nat)
    requires PairsOK(ts) && d < t < |ts| == |us| && us[t].phase == Moving(d) && !ts[t].phase.Moving? && us[t].status != Merging
    requires forall u :: 0 <= u < |ts| ==> ts[u].phase != Moving(d) && (u != t ==> us[u].phase == ts[u].phase)
    requires forall u :: 0 <= u < |ts| && u != t && u != d ==> us[u].status == ts[u].status
    ensures PairsOK(us)
  {
    forall e | 0 <= e < |us| && us[e].status == Merging ensures exists u :: 0 <= u < |us| && us[u].phase == Moving(e) {
      if e != d {
        var u :| 0 <= u < |ts| && ts[u].phase == Moving(e);
        assert us[u].phase == Moving(e);
      }
    }
  }

  lemma InvPick<K, V>(s: State<K, V>, t: nat, op: (V, V) -> V)
    requires Inv(s) && Enabled(s, Pick(t))
    ensures Inv(Apply(s, Pick(t), op))
  {
    var s', d := Apply(s, Pick(t), op), Partner(Statuses(s.threads), t).value;
    forall u | 0 <= u < |s.threads| ensures ThreadOK(s', u) && s.threads[u].phase != Moving(d) {
      PickedThreads(s, t, d, u, op);
    }
    PickedPairs(s.threads, s'.threads, t, d);
  }

  lemma SamePhases<K, V>(ts: seq<Thread<K, V>>, us: seq<Thread<K, V>>)
    requires PairsOK(ts) && |us| == |ts|
    requires forall u :: 0 <= u < |ts| ==> us[u].phase == ts[u].phase && us[u].status == ts[u].status
    ensures PairsOK(us)
  {
    forall e | 0 <= e < |us| && us[e].status == Merging ensures exists u :: 0 <= u < |us| && us[u].phase == Moving(e) {
      var u :| 0 <= u < |ts| && ts[u].phase == Moving(e);
      assert us[u].phase == Moving(e);
    }
  }

  lemma InvMoveRow<K, V>(s: State<K, V>, t: nat, k: K, op: (V, V) -> V)
    requires Inv(s) && Enabled(s, MoveRow(t, k))
    ensures Inv(Apply(s, MoveRow(t, k), op))
  {
    var s', d := Apply(s, MoveRow(t, k), op), s.threads[t].phase.dst;
    assert ThreadOK(s, t) && ThreadOK(s, d);
    PutSize(s.threads[d].table.m, k, s.threads[t].table.m[k], op);
    forall u | 0 <= u < |s'.threads| ensures ThreadOK(s', u) {
      assert ThreadOK(s, u);
    }
    SamePhases(s.threads, s'.threads);
  }

  lemma InvJoinRows<K, V>(s: State<K, V>, t: nat, op: (V, V) -> V)
    requires Inv(s) && Enabled(s, JoinRows(t))
    ensures Inv(Apply(s, JoinRows(t), op))
  {
    var s', d := Apply(s, JoinRows(t), op), s.threads[t].phase.dst;
    assert ThreadOK(s, t) && ThreadOK(s, d);
    forall u | 0 <= u < |s'.threads| ensures ThreadOK(s', u) {
      assert ThreadOK(s, u);
    }
    SamePhases(s.threads, s'.threads);
  }

  lemma PublishedThreads<K, V>(s: State<K, V>, t: nat, u: nat, op: (V, V) -> V)
    requires Inv(s) && Enabled(s, Publish(t)) && u < |s.threads|
    ensures ThreadOK(Apply(s, Publish(t), op), u)
  {
    assert ThreadOK(s, t) && ThreadOK(s, s.threads[t].phase.dst) && ThreadOK(s, u);
  }

  lemma PublishedPairs<K, V>(ts: seq<Thread<K, V>>, us: seq<Thread<K, V>>, t: nat, d: nat)
    requires PairsOK(ts) && d < t < |ts| == |us| && ts[t].phase == Moving(d) && !us[t].phase.Moving?
    requires us[d].status != Merging && us[t].status != Merging
    requires forall u :: 0 <= u < |ts| && u != t ==> us[u].phase == ts[u].phase
    requires forall u :: 0 <= u < |ts| && u != t && u != d ==> us[u].status == ts[u].status
    ensures PairsOK(us)
  {
    forall e | 0 <= e < |us| && us[e].status == Merging ensures exists u :: 0 <= u < |us| && us[u].phase == Moving(e) {
      var u :| 0 <= u < |ts| && ts[u].phase == Moving(e);
      assert us[u].phase == Moving(e);
    }
  }

  lemma InvPublish<K, V>(s: State<K, V>, t: nat, op: (V, V) -> V)
    requires Inv(s) && Enabled(s, Publish(t))
    ensures Inv(Apply(s, Publish(t), op))
  {
    var s', d := Apply(s, Publish(t), op), s.threads[t].phase.dst;
    assert ThreadOK(s, t);
    forall u | 0 <= u < |s.threads| ensures ThreadOK(s', u) {
      PublishedThreads(s, t, u, op);
    }
    PublishedPairs(s.threads, s'.threads, t, d);
  }

  lemma InvStep<K, V>(s: State<K, V>, a: Action<K, V>, op: (V, V) -> V)
    requires Inv(s) && Enabled(s, a)
    ensures Inv(Apply(s, a, op))
  {
    match a {
      case TakeId => InvTakeId(s, op);
      case Insert(t, x) => InvInsert(s, t, x, op);
      case CallMerge(t) => InvCallMerge(s, t, op);
      case Pick(t) => InvPick(s, t, op);
      case MoveRow(t, k) => InvMoveRow(s, t, k, op);
      case JoinRows(t) => InvJoinRows(s, t, op);
      case Publish(t) => InvPublish(s, t, op);
    }
  }

  // ---------- exclusivity ----------

  /** The tables a thread reads or writes outside the lock from where it stands. */
  function Touches<K, V>(s: State<K, V>, t: nat): set<nat>
    requires t < |s.threads|
  {
    match s.threads[t].phase
    case Starting => {t}
    case Writing => {t}
    case Waiting => {}
    case Moving(d) => {t, d}
    case Done => {}
  }

  /** No table is ever used by two threads at once. */
  lemma Exclusive<K, V>(s: State<K, V>, t: nat, u: nat)
    requires Inv(s) && t < |s.threads| && u < |s.threads| && t != u
    ensures Touches(s, t) !! Touches(s, u)
  {
    assert ThreadOK(s, t) && ThreadOK(s, u);
  }

  /** The steps outside the lock. */
  predicate Unlocked<K, V>(a: Action<K, V>) {
    a.Insert? || a.MoveRow? || a.JoinRows?
  }

  /** A step of a thread leaves every table alone that the thread does not touch. */
  lemma OthersUntouched<K, V>(s: State<K, V>, a: Action<K, V>, i: nat, op: (V, V) -> V)
    requires Enabled(s, a) && !a.TakeId? && i < |s.threads| && i !in Touches(s, a.t)
    ensures Apply(s, a, op).threads[i].table == s.threads[i].table
    ensures Unlocked(a) ==> Apply(s, a, op).threads[i] == s.threads[i]
  {}

  /** s2 agrees with s on what t touches. */
  ghost predicate SameFor<K, V>(s: State<K, V>, s2: State<K, V>, t: nat)
    requires t < |s.threads|
  {
    |s2.threads| == |s.threads| && s2.threads[t] == s.threads[t]
    && forall i :: 0 <= i < |s.threads| && i in Touches(s, t) ==> s2.threads[i] == s.threads[i]
  }

  /** A step outside the lock depends on nothing that its thread does not touch: neither whether it is
      possible nor what it does. */
  lemma NothingElseRead<K, V>(s: State<K, V>, s2: State<K, V>, a: Action<K, V>, op: (V, V) -> V)
    requires Unlocked(a) && Enabled(s, a) && SameFor(s, s2, a.t)
    ensures Enabled(s2, a)
    ensures forall i {:trigger Apply(s, a, op).threads[i]} :: 0 <= i < |s.threads| && i in Touches(s, a.t)
              ==> Apply(s2, a, op).threads[i] == Apply(s, a, op).threads[i]
  {
    assert a.t in Touches(s, a.t);
    assert s.threads[a.t].phase.Moving? ==> s.threads[a.t].phase.dst in Touches(s, a.t);
  }

  /** After a step of another thread outside the lock everything that b's thread touches is as before. */
  lemma StillSame<K, V>(s: State<K, V>, a: Action<K, V>, b: Action<K, V>, op: (V, V) -> V)
    requires Inv(s) && Enabled(s, a) && Enabled(s, b) && Unlocked(a) && Unlocked(b) && a.t != b.t
    ensures SameFor(s, Apply(s, a, op), b.t)
  {
    Exclusive(s, a.t, b.t);
    assert a.t in Touches(s, a.t) && b.t in Touches(s, b.t);
    forall i | 0 <= i < |s.threads| && i in Touches(s, b.t) ensures Apply(s, a, op).threads[i] == s.threads[i] {
      OthersUntouched(s, a, i, op);
    }
  }

  /** Both steps are possible, by different threads and outside the lock. */
  ghost predicate Concurrent<K, V>(s: State<K, V>, a: Action<K, V>, b: Action<K, V>) {
    Inv(s) && Enabled(s, a) && Enabled(s, b) && Unlocked(a) && Unlocked(b) && a.t != b.t
  }

  lemma StillEnabled<K, V>(s: State<K, V>, a: Action<K, V>, b: Action<K, V>, op: (V, V) -> V)
    requires Concurrent(s, a, b)
    ensures Enabled(Apply(s, a, op), b) && |Apply(Apply(s, a, op), b, op).threads| == |s.threads|
  {
    StillSame(s, a, b, op);
    NothingElseRead(s, Apply(s, a, op), b, op);
  }

  lemma TouchesSame<K, V>(s: State<K, V>, s2: State<K, V>, t: nat)
    requires t < |s.threads| && SameFor(s, s2, t)
    ensures Touches(s2, t) == Touches(s, t)
  {}

  lemma SameCount<K, V>(s: State<K, V>, a: Action<K, V>, op: (V, V) -> V)
    requires Enabled(s, a) && !a.TakeId?
    ensures |Apply(s, a, op).threads| == |s.threads|
  {}

  /** On a table of a's thread both orders do what a does. */
  lemma CommuteAt<K, V>(s: State<K, V>, a: Action<K, V>, b: Action<K, V>, i: nat, op: (V, V) -> V)
    requires Concurrent(s, a, b) && Enabled(Apply(s, a, op), b) && Enabled(Apply(s, b, op), a)
    requires i < |s.threads| && i in Touches(s, a.t)
    ensures i < |Apply(Apply(s, a, op), b, op).threads| && i < |Apply(Apply(s, b, op), a, op).threads|
    ensures Apply(Apply(s, a, op), b, op).threads[i] == Apply(Apply(s, b, op), a, op).threads[i]
  {
    Exclusive(s, a.t, b.t);
    StillSame(s, a, b, op);
    StillSame(s, b, a, op);
    TouchesSame(s, Apply(s, a, op), b.t);
    SameCount(Apply(s, a, op), b, op);
    SameCount(Apply(s, b, op), a, op);
    NothingElseRead(s, Apply(s, b, op), a, op);
    OthersUntouched(Apply(s, a, op), b, i, op);
  }

  /** On any other table neither does anything. */
  lemma NeitherAt<K, V>(s: State<K, V>, a: Action<K, V>, b: Action<K, V>, i: nat, op: (V, V) -> V)
    requires Concurrent(s, a, b) && Enabled(Apply(s, a, op), b)
    requires i < |s.threads| && i !in Touches(s, a.t) && i !in Touches(s, b.t)
    ensures i < |Apply(Apply(s, a, op), b, op).threads| && Apply(Apply(s, a, op), b, op).threads[i] == s.threads[i]
  {
    StillSame(s, a, b, op);
    OthersUntouched(s, a, i, op);
    OthersUntouched(Apply(s, a, op), b, i, op);
  }

  lemma LogGrows<K, V>(s: State<K, V>, a: Action<K, V>, op: (V, V) -> V)
    requires Enabled(s, a)
    ensures Apply(s, a, op).log == s.log + if a.Insert? then [a.item] else []
  {}

  lemma CommuteLogs<K, V>(s: State<K, V>, a: Action<K, V>, b: Action<K, V>, op: (V, V) -> V)
    requires Enabled(s, a) && Enabled(Apply(s, a, op), b) && Enabled(s, b) && Enabled(Apply(s, b, op), a)
    ensures multiset(Apply(Apply(s, a, op), b, op).log) == multiset(Apply(Apply(s, b, op), a, op).log)
  {
    LogGrows(s, a, op);
    LogGrows(s, b, op);
    LogGrows(Apply(s, a, op), b, op);
    LogGrows(Apply(s, b, op), a, op);
  }

  lemma SameEverywhere<T>(x: seq<T>, y: seq<T>)
    requires |x| == |y| && forall i :: 0 <= i < |x| ==> x[i] == y[i]
    ensures x == y
  {}

  lemma CommuteThreads<K, V>(s: State<K, V>, a: Action<K, V>, b: Action<K, V>, op: (V, V) -> V)
    requires Concurrent(s, a, b) && Enabled(Apply(s, a, op), b) && Enabled(Apply(s, b, op), a)
    ensures Apply(Apply(s, a, op), b, op).threads == Apply(Apply(s, b, op), a, op).threads
  {
    StillEnabled(s, a, b, op);
    StillEnabled(s, b, a, op);
    var x, y := Apply(Apply(s, a, op), b, op).threads, Apply(Apply(s, b, op), a, op).threads;
    forall i | 0 <= i < |x| ensures x[i] == y[i] {
      if i in Touches(s, a.t) {
        CommuteAt(s, a, b, i, op);
      } else if i in Touches(s, b.t) {
        CommuteAt(s, b, a, i, op);
      } else {
        NeitherAt(s, a, b, i, op);
        NeitherAt(s, b, a, i, op);
      }
    }
    SameEverywhere(x, y);
  }

  /** Steps of two threads outside the lock can change places. */
  lemma UnlockedCommute<K, V>(s: State<K, V>, a: Action<K, V>, b: Action<K, V>, op: (V, V) -> V)
    requires Concurrent(s, a, b)
    ensures Enabled(Apply(s, a, op), b) && Enabled(Apply(s, b, op), a)
    ensures Apply(Apply(s, a, op), b, op).threads == Apply(Apply(s, b, op), a, op).threads
    ensures multiset(Apply(Apply(s, a, op), b, op).log) == multiset(Apply(Apply(s, b, op), a, op).log)
  {
    StillEnabled(s, a, b, op);
    StillEnabled(s, b, a, op);
    CommuteThreads(s, a, b, op);
    CommuteLogs(s, a, b, op);
  }

  // ---------- conservation in hash mode ----------

  /** Names three operands, so that a law is used on them and on nothing else. */
  ghost predicate On<V>(a: V, b: V, c: V) { true }

  /** Values that aggregate in any order and grouping; ok says which values are meant. */
  ghost predicate Law<V(!new)>(op: (V, V) -> V, ok: V -> bool) {
    forall a, b, c {:trigger On(a, b, c)} :: ok(a) && ok(b) && ok(c) ==>
      ok(op(a, b)) && op(a, b) == op(b, a) && op(op(a, b), c) == op(a, op(b, c))
  }

  ghost predicate Fine<V>(o: Option<V>, ok: V -> bool) {
    o.Some? ==> ok(o.value)
  }

  function MapOf<K, V>(t: Table<K, V>): map<K, V> {
    match t
    case Hash(m) => m
    case List(_) => map[]
  }

  /** What all tables together hold under k. */
  function Held<K(==), V>(ts: seq<Thread<K, V>>, k: K, op: (V, V) -> V): Option<V> {
    if ts == [] then None
    else Plus(Held(ts[..|ts| - 1], k, op), Get(MapOf(ts[|ts| - 1].table), k), op)
  }

  ghost predicate AllFine<K(!new), V>(ts: seq<Thread<K, V>>, ok: V -> bool) {
    forall t, k :: 0 <= t < |ts| ==> Fine(Get(MapOf(ts[t].table), k), ok)
  }

  lemma PlusLaws<V(!new)>(a: Option<V>, b: Option<V>, c: Option<V>, op: (V, V) -> V, ok: V -> bool)
    requires Law(op, ok) && Fine(a, ok) && Fine(b, ok) && Fine(c, ok)
    ensures Fine(Plus(a, b, op), ok) && Plus(a, b, op) == Plus(b, a, op)
    ensures Plus(Plus(a, b, op), c, op) == Plus(a, Plus(b, c, op), op)
    ensures Plus(Plus(a, b, op), c, op) == Plus(Plus(a, c, op), b, op)
  {
    if a.Some? && b.Some? { assert On(a.value, b.value, b.value); }
    if b.Some? && c.Some? { assert On(b.value, c.value, c.value); }
    if a.Some? && b.Some? && c.Some? {
      var x, y, z := a.value, b.value, c.value;
      assert On(x, y, z) && On(x, z, y) && On(y, z, x);
    }
  }

  ghost predicate ColumnFine<K, V>(ts: seq<Thread<K, V>>, k: K, ok: V -> bool) {
    forall t :: 0 <= t < |ts| ==> Fine(Get(MapOf(ts[t].table), k), ok)
  }

  lemma {:induction false} HeldFine<K, V(!new)>(ts: seq<Thread<K, V>>, k: K, op: (V, V) -> V, ok: V -> bool)
    requires Law(op, ok) && ColumnFine(ts, k, ok)
    ensures Fine(Held(ts, k, op), ok)
  {
    if ts != [] {
      var n := |ts| - 1;
      HeldFine(ts[..n], k, op, ok);
      PlusLaws(Held(ts[..n], k, op), Get(MapOf(ts[n].table), k), None, op, ok);
    }
  }

  lemma {:induction false} HeldSame<K, V>(ts: seq<Thread<K, V>>, us: seq<Thread<K, V>>, k: K, op: (V, V) -> V)
    requires |ts| == |us|
    requires forall t :: 0 <= t < |ts| ==> Get(MapOf(ts[t].table), k) == Get(MapOf(us[t].table), k)
    ensures Held(ts, k, op) == Held(us, k, op)
  {
    if ts != [] {
      HeldSame(ts[..|ts| - 1], us[..|us| - 1], k, op);
    }
  }

  /** Adding v to one table adds it to the whole. */
  lemma {:induction false} HeldAdd<K, V(!new)>(ts: seq<Thread<K, V>>, i: nat, x: Thread<K, V>, k: K, v: Option<V>,
                                               op: (V, V) -> V, ok: V -> bool)
    requires Law(op, ok) && ColumnFine(ts, k, ok) && Fine(v, ok) && i < |ts|
    requires Get(MapOf(x.table), k) == Plus(Get(MapOf(ts[i].table), k), v, op)
    ensures Held(ts[i := x], k, op) == Plus(Held(ts, k, op), v, op)
  {
    var n := |ts| - 1;
    var last := Get(MapOf(ts[n].table), k);
    HeldFine(ts[..n], k, op, ok);
    PlusLaws(Held(ts[..n], k, op), last, v, op, ok);
    if i == n {
      assert ts[i := x][..n] == ts[..n];
    } else {
      HeldAdd(ts[..n], i, x, k, v, op, ok);
      assert ts[i := x][..n] == ts[..n][i := x];
    }
  }

  /** Moving the value under k from table t to table d leaves the whole as it was. */
  lemma HeldMove<K, V(!new)>(ts: seq<Thread<K, V>>, t: nat, x: Thread<K, V>, d: nat, y: Thread<K, V>, k: K,
                             op: (V, V) -> V, ok: V -> bool)
    requires Law(op, ok) && ColumnFine(ts, k, ok) && t < |ts| && d < |ts| && t != d
    requires Get(MapOf(x.table), k) == None
    requires Get(MapOf(y.table), k) == Plus(Get(MapOf(ts[d].table), k), Get(MapOf(ts[t].table), k), op)
    ensures Held(ts[t := x][d := y], k, op) == Held(ts, k, op)
  {
    var v, us := Get(MapOf(ts[t].table), k), ts[t := x];
    assert us[t := ts[t]] == ts;
    HeldAdd(us, t, ts[t], k, v, op, ok);
    HeldAdd(us, d, y, k, v, op, ok);
  }

  /** Conservation: under every key the tables together hold the fold of all that was written. */
  ghost predicate Conserved<K(!new), V>(s: State<K, V>, op: (V, V) -> V, ok: V -> bool) {
    && AllFine(s.threads, ok)
    && (!s.listMode ==> forall k :: Held(s.threads, k, op) == Folded(s.log, k, op))
  }

  ghost predicate ItemsFine<K, V>(log: seq<Item<K, V>>, ok: V -> bool) {
    forall i :: 0 <= i < |log| ==> ok(log[i].val)
  }

  lemma SameTables<K(!new), V(!new)>(s: State<K, V>, s': State<K, V>, op: (V, V) -> V, ok: V -> bool)
    requires Conserved(s, op, ok) && s'.log == s.log && s'.listMode == s.listMode && |s'.threads| == |s.threads|
    requires forall t :: 0 <= t < |s.threads| ==> s'.threads[t].table == s.threads[t].table
    ensures Conserved(s', op, ok)
  {
    if !s.listMode {
      forall k ensures Held(s'.threads, k, op) == Folded(s'.log, k, op) {
        HeldSame(s.threads, s'.threads, k, op);
      }
    }
  }

  lemma ConservedTakeId<K(!new), V(!new)>(s: State<K, V>, op: (V, V) -> V, ok: V -> bool)
    requires Enabled(s, TakeId) && Conserved(s, op, ok)
    ensures Conserved(Apply(s, TakeId, op), op, ok)
  {
    var s' := Apply(s, TakeId, op);
    assert s'.threads[..|s.threads|] == s.threads;
  }

  lemma ConservedInsert<K(!new), V(!new)>(s: State<K, V>, t: nat, x: Item<K, V>, op: (V, V) -> V, ok: V -> bool)
    requires Law(op, ok) && Inv(s) && Enabled(s, Insert(t, x)) && Conserved(s, op, ok) && ok(x.val)
    ensures Conserved(Apply(s, Insert(t, x), op), op, ok)
  {
    var s', ts := Apply(s, Insert(t, x), op), s.threads;
    assert ThreadOK(s, t);
    var y := s'.threads[t];
    assert s'.log[..|s.log|] == s.log;
    forall u, k | 0 <= u < |ts| ensures Fine(Get(MapOf(s'.threads[u].table), k), ok) {
      assert Fine(Get(MapOf(ts[u].table), k), ok);
      PlusLaws(Get(MapOf(ts[u].table), k), Some(x.val), None, op, ok);
    }
    if !s.listMode {
      forall k ensures Held(s'.threads, k, op) == Folded(s'.log, k, op) {
        assert ColumnFine(ts, k, ok);
        HeldAdd(ts, t, y, k, if k == x.key then Some(x.val) else None, op, ok);
      }
    }
  }

  lemma ConservedMove<K(!new), V(!new)>(s: State<K, V>, t: nat, key: K, op: (V, V) -> V, ok: V -> bool)
    requires Law(op, ok) && Inv(s) && Enabled(s, MoveRow(t, key)) && Conserved(s, op, ok)
    ensures Conserved(Apply(s, MoveRow(t, key), op), op, ok)
  {
    var s', ts := Apply(s, MoveRow(t, key), op), s.threads;
    assert ThreadOK(s, t);
    var d := ts[t].phase.dst;
    forall u, k | 0 <= u < |ts| ensures Fine(Get(MapOf(s'.threads[u].table), k), ok) {
      assert Fine(Get(MapOf(ts[u].table), k), ok) && Fine(Get(MapOf(ts[t].table), k), ok);
      PlusLaws(Get(MapOf(ts[u].table), k), Get(MapOf(ts[t].table), k), None, op, ok);
    }
    forall k ensures Held(s'.threads, k, op) == Held(ts, k, op) {
      assert ColumnFine(ts, k, ok);
      if k == key {
        HeldMove(ts, t, s'.threads[t], d, s'.threads[d], k, op, ok);
      } else {
        HeldSame(ts, s'.threads, k, op);
      }
    }
  }

  lemma ConservedStep<K(!new), V(!new)>(s: State<K, V>, a: Action<K, V>, op: (V, V) -> V, ok: V -> bool)
    requires Law(op, ok) && Inv(s) && Enabled(s, a) && Conserved(s, op, ok)
    requires a.Insert? ==> ok(a.item.val)
    ensures Conserved(Apply(s, a, op), op, ok)
  {
    match a {
      case TakeId => ConservedTakeId(s, op, ok);
      case Insert(t, x) => ConservedInsert(s, t, x, op, ok);
      case MoveRow(t, k) => ConservedMove(s, t, k, op, ok);
      case JoinRows(t) => assert ThreadOK(s, t);
      case CallMerge(t) => SameTables(s, Apply(s, a, op), op, ok);
      case Pick(t) => SameTables(s, Apply(s, a, op), op, ok);
      case Publish(t) => SameTables(s, Apply(s, a, op), op, ok);
    }
  }

  // ---------- conservation in list mode ----------

  function RowsIn<K, V>(t: Table<K, V>): seq<Item<K, V>> {
    match t
    case Hash(_) => []
    case List(rows) => rows
  }

  ghost function RowCount<K, V>(x: Item<K, V>): Thread<K, V> -> nat {
    (t: Thread<K, V>) => multiset(RowsIn(t.table))[x]
  }

  /** How often x stands as a row in all tables together. */
  ghost function Copies<K, V>(ts: seq<Thread<K, V>>, x: Item<K, V>): nat {
    Sum(RowCount(x), ts)
  }

  lemma CopiesChange<K, V>(ts: seq<Thread<K, V>>, i: nat, y: Thread<K, V>, x: Item<K, V>)
    requires i < |ts|
    ensures Copies(ts[i := y], x) + multiset(RowsIn(ts[i].table))[x] == Copies(ts, x) + multiset(RowsIn(y.table))[x]
  {
    SumUpdate(RowCount(x), ts, i, y);
  }

  lemma CopiesTwo<K, V>(ts: seq<Thread<K, V>>, t: nat, y: Thread<K, V>, d: nat, z: Thread<K, V>, x: Item<K, V>)
    requires t < |ts| && d < |ts| && t != d
    ensures Copies(ts[t := y][d := z], x) + multiset(RowsIn(ts[t].table))[x] + multiset(RowsIn(ts[d].table))[x]
         == Copies(ts, x) + multiset(RowsIn(y.table))[x] + multiset(RowsIn(z.table))[x]
  {
    CopiesChange(ts, t, y, x);
    CopiesChange(ts[t := y], d, z, x);
  }

  /** No row is lost and none appears twice. */
  ghost predicate RowsKept<K(!new), V(!new)>(s: State<K, V>) {
    s.listMode ==> forall x :: Copies(s.threads, x) == multiset(s.log)[x]
  }

  lemma CopiesPair<K, V>(s: State<K, V>, a: Action<K, V>, t: nat, d: nat, op: (V, V) -> V, x: Item<K, V>)
    requires Enabled(s, a) && t < |s.threads| && d < |s.threads| && t != d
    requires || (a == Pick(t) && Partner(Statuses(s.threads), t) == Some(d))
             || ((a == Publish(t) || a == JoinRows(t)) && s.threads[t].phase == Moving(d))
    ensures Copies(Apply(s, a, op).threads, x) == Copies(s.threads, x)
  {
    var us := Apply(s, a, op).threads;
    CopiesTwo(s.threads, t, us[t], d, us[d], x);
  }

  lemma CopiesOne<K, V>(s: State<K, V>, a: Action<K, V>, op: (V, V) -> V, x: Item<K, V>)
    requires Enabled(s, a) && (a.Insert? || a.CallMerge?) && s.threads[a.t].table.List?
    ensures Copies(Apply(s, a, op).threads, x) + multiset(s.log)[x] == Copies(s.threads, x) + multiset(Apply(s, a, op).log)[x]
  {
    CopiesChange(s.threads, a.t, Apply(s, a, op).threads[a.t], x);
  }

  lemma MovesAreHashed<K, V>(s: State<K, V>, t: nat, k: K)
    requires Inv(s) && Enabled(s, MoveRow(t, k))
    ensures !s.listMode
  {
    assert ThreadOK(s, t);
  }

  lemma CopiesStep<K, V>(s: State<K, V>, a: Action<K, V>, op: (V, V) -> V, x: Item<K, V>)
    requires Inv(s) && Enabled(s, a) && s.listMode
    ensures Copies(Apply(s, a, op).threads, x) + multiset(s.log)[x] == Copies(s.threads, x) + multiset(Apply(s, a, op).log)[x]
  {
    match a {
      case TakeId => assert Apply(s, a, op).threads[..|s.threads|] == s.threads;
      case Insert(t, _) => assert ThreadOK(s, t); CopiesOne(s, a, op, x);
      case CallMerge(t) => assert ThreadOK(s, t); CopiesOne(s, a, op, x);
      case MoveRow(t, k) => MovesAreHashed(s, t, k); assert false;
      case JoinRows(t) => assert ThreadOK(s, t); CopiesPair(s, a, t, s.threads[t].phase.dst, op, x);
      case Pick(t) => CopiesPair(s, a, t, Partner(Statuses(s.threads), t).value, op, x);
      case Publish(t) => assert ThreadOK(s, t); CopiesPair(s, a, t, s.threads[t].phase.dst, op, x);
    }
  }

  lemma RowsKeptStep<K(!new), V(!new)>(s: State<K, V>, a: Action<K, V>, op: (V, V) -> V)
    requires Inv(s) && Enabled(s, a) && RowsKept(s)
    ensures RowsKept(Apply(s, a, op))
  {
    if s.listMode {
      forall x ensures Copies(Apply(s, a, op).threads, x) == multiset(Apply(s, a, op).log)[x] {
        CopiesStep(s, a, op, x);
      }
    }
  }

  /** When a merge starts, neither table is empty: a thread has an id only because it has written.  This
      is what joining lists relies on (src/hash_table.c:299). */
  lemma MergesAreNotEmpty<K, V>(s: State<K, V>, t: nat)
    requires Inv(s) && Enabled(s, Pick(t))
    ensures Size(s.threads[t].table) > 0 && Size(s.threads[Partner(Statuses(s.threads), t).value].table) > 0
  {
    var d := Partner(Statuses(s.threads), t).value;
    assert ThreadOK(s, t) && ThreadOK(s, d);
  }

  // ---------- progress ----------

  /** Every thread that has an id has written something. */
  ghost predicate AllWritten<K, V>(s: State<K, V>) {
    forall t :: 0 <= t < |s.threads| ==> !s.threads[t].phase.Starting?
  }

  ghost predicate Finished<K, V>(s: State<K, V>) {
    forall t :: 0 <= t < |s.threads| ==> s.threads[t].phase == Done
  }

  predicate MergeAction<K, V>(a: Action<K, V>) {
    a.CallMerge? || a.Pick? || a.MoveRow? || a.JoinRows? || a.Publish?
  }

  lemma MoverCanStep<K, V>(s: State<K, V>, t: nat) returns (a: Action<K, V>)
    requires Inv(s) && t < |s.threads| && s.threads[t].phase.Moving?
    ensures MergeAction(a) && Enabled(s, a)
  {
    assert ThreadOK(s, t);
    var d := s.threads[t].phase.dst;
    assert ThreadOK(s, d);
    var x := s.threads[t].table;
    if Size(x) == 0 {
      a := Publish(t);
    } else if x.List? {
      a := JoinRows(t);
    } else {
      assert x.m.Keys != {};
      var k :| k in x.m;
      a := MoveRow(t, k);
    }
  }

  /** No deadlock: once every thread has written, and as long as one has not returned, some thread can call
      lnf_mem_merge_threads or take a step of its merge. */
  lemma Progress<K, V>(s: State<K, V>) returns (a: Action<K, V>)
    requires Inv(s) && AllWritten(s) && !Finished(s)
    ensures MergeAction(a) && Enabled(s, a)
  {
    if u :| 0 <= u < |s.threads| && s.threads[u].phase.Writing? {
      a := CallMerge(u);
    } else if u :| 0 <= u < |s.threads| && s.threads[u].phase.Moving? {
      a := MoverCanStep(s, u);
    } else {
      var t :| 0 <= t < |s.threads| && s.threads[t].phase != Done;
      assert ThreadOK(s, t) && ThreadOK(s, 0);
      // nobody is merging, so thread t and thread 0 are both ready
      a := Pick(t);
    }
  }

  function Rank(p: Phase): nat {
    match p
    case Starting => 3
    case Writing => 3
    case Waiting => 2
    case Moving(_) => 1
    case Done => 0
  }

  /** Rows weigh as much as the id of their table. */
  function Weigh<K, V>(x: Thread<K, V>, t: nat): nat {
    Rank(x.phase) + t * Size(x.table)
  }

  function Weight<K, V>(ts: seq<Thread<K, V>>): nat {
    if ts == [] then 0 else Weight(ts[..|ts| - 1]) + Weigh(ts[|ts| - 1], |ts| - 1)
  }

  lemma {:induction false} WeightChange<K, V>(ts: seq<Thread<K, V>>, i: nat, x: Thread<K, V>)
    requires i < |ts|
    ensures Weight(ts[i := x]) + Weigh(ts[i], i) == Weight(ts) + Weigh(x, i)
  {
    var n := |ts| - 1;
    if i == n {
      assert ts[i := x][..n] == ts[..n];
    } else {
      WeightChange(ts[..n], i, x);
      assert ts[i := x][..n] == ts[..n][i := x];
    }
  }

  lemma WeightTwo<K, V>(ts: seq<Thread<K, V>>, t: nat, x: Thread<K, V>, d: nat, y: Thread<K, V>)
    requires t < |ts| && d < |ts| && t != d
    ensures Weight(ts[t := x][d := y]) + Weigh(ts[t], t) + Weigh(ts[d], d) == Weight(ts) + Weigh(x, t) + Weigh(y, d)
  {
    WeightChange(ts, t, x);
    WeightChange(ts[t := x], d, y);
  }

  lemma JoinDescends(t: nat, d: nat, n: nat, m: nat)
    requires d < t && 0 < n
    ensures t * 0 + d * (m + n) < t * n + d * m
  {
    assert d * (m + n) == d * m + d * n;
  }

  lemma LargerFactor(d: nat, x: nat, y: nat)
    requires x <= y
    ensures d * x <= d * y
  {
    assert d * (y - x) >= 0;
  }

  lemma MoveDescends(t: nat, d: nat, n: nat, m: nat, grown: nat)
    requires d < t && 0 < n && grown <= m + 1
    ensures t * (n - 1) + d * grown < t * n + d * m
  {
    LargerFactor(d, grown, m + 1);
    assert t * (n - 1) == t * n - t && d * (m + 1) == d * m + d;
  }

  lemma PairDescends<K, V>(s: State<K, V>, a: Action<K, V>, t: nat, d: nat, op: (V, V) -> V)
    requires Inv(s) && Enabled(s, a) && t < |s.threads| && d < t
    requires (a == Pick(t) && Partner(Statuses(s.threads), t) == Some(d)) || (a == Publish(t) && s.threads[t].phase == Moving(d))
    ensures Weight(Apply(s, a, op).threads) < Weight(s.threads)
  {
    var us := Apply(s, a, op).threads;
    WeightTwo(s.threads, t, us[t], d, us[d]);
  }

  lemma JoinRowsDescend<K, V>(s: State<K, V>, t: nat, op: (V, V) -> V)
    requires Inv(s) && Enabled(s, JoinRows(t))
    ensures Weight(Apply(s, JoinRows(t), op).threads) < Weight(s.threads)
  {
    var ts, us := s.threads, Apply(s, JoinRows(t), op).threads;
    assert ThreadOK(s, t);
    var d := ts[t].phase.dst;
    WeightTwo(ts, t, us[t], d, us[d]);
    JoinDescends(t, d, |ts[t].table.rows|, |ts[d].table.rows|);
  }

  lemma RemovedSize<K, V>(m: map<K, V>, k: K)
    requires k in m
    ensures |m - {k}| == |m| - 1
  {
    assert (m - {k}).Keys == m.Keys - {k};
  }

  lemma MoveRowDescends<K, V>(s: State<K, V>, t: nat, k: K, op: (V, V) -> V)
    requires Inv(s) && Enabled(s, MoveRow(t, k))
    ensures Weight(Apply(s, MoveRow(t, k), op).threads) < Weight(s.threads)
  {
    var ts, us := s.threads, Apply(s, MoveRow(t, k), op).threads;
    assert ThreadOK(s, t);
    var d := ts[t].phase.dst;
    var src, dst := ts[t].table.m, ts[d].table.m;
    WeightTwo(ts, t, us[t], d, us[d]);
    PutSize(dst, k, src[k], op);
    RemovedSize(src, k);
    MoveDescends(t, d, |src|, |dst|, |Put(dst, k, src[k], op)|);
  }

  /** Every step of the merge protocol makes the whole lighter: rows only move to lower ids. */
  lemma MergeActionsDescend<K, V>(s: State<K, V>, a: Action<K, V>, op: (V, V) -> V)
    requires Inv(s) && Enabled(s, a) && MergeAction(a)
    ensures Weight(Apply(s, a, op).threads) < Weight(s.threads)
  {
    match a {
      case CallMerge(t) =>
        assert ThreadOK(s, t);
        WeightChange(s.threads, t, Apply(s, a, op).threads[t]);
      case Pick(t) => PairDescends(s, a, t, Partner(Statuses(s.threads), t).value, op);
      case Publish(t) => assert ThreadOK(s, t); PairDescends(s, a, t, s.threads[t].phase.dst, op);
      case JoinRows(t) => JoinRowsDescend(s, t, op);
      case MoveRow(t, k) => MoveRowDescends(s, t, k, op);
    }
  }

  /** Every run of the merge protocol ends: it has at most as many steps as the tables weigh. */
  lemma {:induction false} MergeTerminates<K, V>(s: State<K, V>, acts: seq<Action<K, V>>, s': State<K, V>, op: (V, V) -> V)
    requires Inv(s) && Run(s, acts, s', op) && forall i :: 0 <= i < |acts| ==> MergeAction(acts[i])
    ensures |acts| + Weight(s'.threads) <= Weight(s.threads)
    decreases |acts|
  {
    if acts != [] {
      InvStep(s, acts[0], op);
      MergeActionsDescend(s, acts[0], op);
      MergeTerminates(Apply(s, acts[0], op), acts[1..], s', op);
    }
  }

  // ---------- all rows of a table ----------

  /** Every action moves a row out of table t. */
  predicate MovesOf<K, V>(acts: seq<Action<K, V>>, t: nat) {
    forall i :: 0 <= i < |acts| ==> acts[i].MoveRow? && acts[i].t == t
  }

  /** Moving one row first or with all the others is the same. */
  lemma MoveThenMerge<K(!new), V>(dst: map<K, V>, src: map<K, V>, k: K, op: (V, V) -> V)
    requires k in src
    ensures MergeMaps(Put(dst, k, src[k], op), src - {k}, op) == MergeMaps(dst, src, op)
  {
    SameMap(MergeMaps(Put(dst, k, src[k], op), src - {k}, op), MergeMaps(dst, src, op));
  }

  /** Table t is empty, table d holds dst, all else is as in s. */
  function Settled<K, V>(s: State<K, V>, t: nat, d: nat, dst: map<K, V>): State<K, V>
    requires t < |s.threads| && d < |s.threads|
  {
    s.(threads := s.threads[t := s.threads[t].(table := Hash(map[]))][d := s.threads[d].(table := Hash(dst))])
  }

  /** Thread t is moving rows from its map to that of thread d. */
  predicate MovingMaps<K, V>(s: State<K, V>, t: nat, d: nat) {
    t < |s.threads| && d < |s.threads| && d != t && s.threads[t].phase == Moving(d) && s.threads[t].table.Hash? && s.threads[d].table.Hash?
  }

  /** Table d holds both maps. */
  function AfterMerge<K, V>(s: State<K, V>, t: nat, d: nat, op: (V, V) -> V): State<K, V>
    requires MovingMaps(s, t, d)
  {
    Settled(s, t, d, MergeMaps(s.threads[d].table.m, s.threads[t].table.m, op))
  }

  lemma SettledSoon<K, V>(s: State<K, V>, t: nat, d: nat, k: K, dst: map<K, V>, op: (V, V) -> V)
    requires Enabled(s, MoveRow(t, k)) && MovingMaps(s, t, d)
    ensures Settled(Apply(s, MoveRow(t, k), op), t, d, dst) == Settled(s, t, d, dst)
  {
    assert Settled(Apply(s, MoveRow(t, k), op), t, d, dst).threads == Settled(s, t, d, dst).threads;
  }

  lemma MoveKeepsGoal<K(!new), V>(s: State<K, V>, t: nat, d: nat, k: K, op: (V, V) -> V)
    requires Enabled(s, MoveRow(t, k)) && MovingMaps(s, t, d)
    ensures MovingMaps(Apply(s, MoveRow(t, k), op), t, d)
    ensures AfterMerge(Apply(s, MoveRow(t, k), op), t, d, op) == AfterMerge(s, t, d, op)
  {
    var src, dst := s.threads[t].table.m, s.threads[d].table.m;
    MoveThenMerge(dst, src, k, op);
    SettledSoon(s, t, d, k, MergeMaps(dst, src, op), op);
  }

  lemma NothingToMerge<K(!new), V>(s: State<K, V>, t: nat, d: nat, op: (V, V) -> V)
    requires MovingMaps(s, t, d) && Size(s.threads[t].table) == 0
    ensures AfterMerge(s, t, d, op) == s
  {
    var src, dst := s.threads[t].table.m, s.threads[d].table.m;
    assert src == map[];
    SameMap(MergeMaps(dst, src, op), dst);
    assert Settled(s, t, d, dst).threads == s.threads;
  }

  /** Moving all rows of t, in any order, merges its map into that of the other table and touches nothing
      else. */
  lemma {:induction false} AllMoved<K(!new), V>(s: State<K, V>, acts: seq<Action<K, V>>, s': State<K, V>, t: nat, d: nat, op: (V, V) -> V)
    requires MovingMaps(s, t, d) && MovesOf(acts, t) && Run(s, acts, s', op)
    requires t < |s'.threads| && Size(s'.threads[t].table) == 0
    ensures s' == Settled(s, t, d, MergeMaps(s.threads[d].table.m, s.threads[t].table.m, op))
    decreases |acts|
  {
    if acts == [] {
      NothingToMerge(s, t, d, op);
    } else {
      MoveKeepsGoal(s, t, d, acts[0].key, op);
      AllMoved(Apply(s, acts[0], op), acts[1..], s', t, d, op);
      assert s' == AfterMerge(Apply(s, acts[0], op), t, d, op);
    }
  }

  /** The rows of t can be moved one after the other until none is left. */
  lemma {:induction false} MoveAll<K, V>(s: State<K, V>, t: nat, d: nat, op: (V, V) -> V) returns (acts: seq<Action<K, V>>, end: State<K, V>)
    requires MovingMaps(s, t, d)
    ensures MovesOf(acts, t) && Run(s, acts, end, op) && |end.threads| == |s.threads| && Size(end.threads[t].table) == 0
    decreases |s.threads[t].table.m|
  {
    var src := s.threads[t].table.m;
    if |src| == 0 {
      acts, end := [], s;
    } else {
      assert src.Keys != {};
      var k :| k in src;
      assert (src - {k}).Keys == src.Keys - {k};
      var a := MoveRow(t, k);
      acts, end := MoveAll(Apply(s, a, op), t, d, op);
      var rest := acts;
      acts := [a] + rest;
      assert acts[1..] == rest;
    }
  }

  // ---------- whole runs ----------

  ghost predicate WritesFine<K, V>(acts: seq<Action<K, V>>, ok: V -> bool) {
    forall i :: 0 <= i < |acts| && acts[i].Insert? ==> ok(acts[i].item.val)
  }

  /** Safety of every run, whatever the interleaving: the invariant, and nothing lost or counted twice. */
  lemma {:induction false} RunSafe<K(!new), V(!new)>(s: State<K, V>, acts: seq<Action<K, V>>, s': State<K, V>,
                                                     op: (V, V) -> V, ok: V -> bool)
    requires Law(op, ok) && WritesFine(acts, ok) && Run(s, acts, s', op)
    requires Inv(s) && Conserved(s, op, ok) && RowsKept(s)
    ensures Inv(s') && Conserved(s', op, ok) && RowsKept(s')
    decreases |acts|
  {
    if acts != [] {
      InvStep(s, acts[0], op);
      ConservedStep(s, acts[0], op, ok);
      RowsKeptStep(s, acts[0], op);
      RunSafe(Apply(s, acts[0], op), acts[1..], s', op, ok);
    }
  }

  lemma {:induction false} OnlyFirst<K, V>(ts: seq<Thread<K, V>>, k: K, op: (V, V) -> V)
    requires 0 < |ts| && forall t :: 0 < t < |ts| ==> Size(ts[t].table) == 0
    ensures Held(ts, k, op) == Get(MapOf(ts[0].table), k)
    decreases |ts|
  {
    var n := |ts| - 1;
    if n > 0 {
      OnlyFirst(ts[..n], k, op);
      assert MapOf(ts[n].table) == map[];
    } else {
      assert ts[..0] == [];
    }
  }

  lemma {:induction false} OnlyFirstRows<K, V>(ts: seq<Thread<K, V>>, x: Item<K, V>)
    requires 0 < |ts| && forall t :: 0 < t < |ts| ==> Size(ts[t].table) == 0
    ensures Copies(ts, x) == multiset(RowsIn(ts[0].table))[x]
    decreases |ts|
  {
    var n := |ts| - 1;
    if n > 0 {
      OnlyFirstRows(ts[..n], x);
      assert RowsIn(ts[n].table) == [];
    } else {
      assert Sum(RowCount(x), ts[..0]) == 0;
    }
  }

  /** When everybody has returned, table 0 is what one thread would have built from the whole log. */
  lemma FinalTable<K(!new), V(!new)>(s: State<K, V>, acts: seq<Action<K, V>>, s': State<K, V>,
                                     op: (V, V) -> V, ok: V -> bool)
    requires Law(op, ok) && WritesFine(acts, ok) && Init(s) && Run(s, acts, s', op)
    requires Finished(s') && s'.threads != [] && !s.listMode && !s'.listMode
    ensures MapOf(s'.threads[0].table) == PutAll(map[], s'.log, op)
    ensures forall t :: 0 < t < |s'.threads| ==> Size(s'.threads[t].table) == 0
  {
    RunSafe(s, acts, s', op, ok);
    forall t | 0 < t < |s'.threads| ensures Size(s'.threads[t].table) == 0 {
      assert ThreadOK(s', t);
    }
    forall k ensures Get(MapOf(s'.threads[0].table), k) == Get(PutAll(map[], s'.log, op), k) {
      OnlyFirst(s'.threads, k, op);
      PutAllFolds(s'.log, k, op);
    }
    SameMap(MapOf(s'.threads[0].table), PutAll(map[], s'.log, op));
  }

  lemma {:induction false} RunKeepsRows<K(!new), V(!new)>(s: State<K, V>, acts: seq<Action<K, V>>, s': State<K, V>,
                                                          op: (V, V) -> V)
    requires Run(s, acts, s', op) && Inv(s) && RowsKept(s)
    ensures Inv(s') && RowsKept(s')
    decreases |acts|
  {
    if acts != [] {
      InvStep(s, acts[0], op);
      RowsKeptStep(s, acts[0], op);
      RunKeepsRows(Apply(s, acts[0], op), acts[1..], s', op);
    }
  }

  /** The same in list mode: table 0 has every written row exactly once. */
  lemma FinalList<K(!new), V(!new)>(s: State<K, V>, acts: seq<Action<K, V>>, s': State<K, V>, op: (V, V) -> V)
    requires Init(s) && Run(s, acts, s', op)
    requires Finished(s') && s'.threads != [] && s.listMode && s'.listMode
    ensures multiset(RowsIn(s'.threads[0].table)) == multiset(s'.log)
    ensures |RowsIn(s'.threads[0].table)| == |s'.log|
  {
    RunKeepsRows(s, acts, s', op);
    forall t | 0 < t < |s'.threads| ensures Size(s'.threads[t].table) == 0 {
      assert ThreadOK(s', t);
    }
    var rows := RowsIn(s'.threads[0].table);
    forall x ensures multiset(rows)[x] == multiset(s'.log)[x] {
      OnlyFirstRows(s'.threads, x);
    }
    assert multiset(rows) == multiset(s'.log);
    SameLength(rows, s'.log);
  }

  // ---------- order independence ----------

  function Share<K(==), V>(x: Item<K, V>, k: K): Option<V> {
    if x.key == k then Some(x.val) else None
  }

  lemma {:induction false} FoldedFine<K, V(!new)>(log: seq<Item<K, V>>, k: K, op: (V, V) -> V, ok: V -> bool)
    requires Law(op, ok) && ItemsFine(log, ok)
    ensures Fine(Folded(log, k, op), ok)
  {
    if log != [] {
      var n := |log| - 1;
      FoldedFine(log[..n], k, op, ok);
      PlusLaws(Folded(log[..n], k, op), Share(log[n], k), None, op, ok);
    }
  }

  lemma FoldedLast<K, V>(log: seq<Item<K, V>>, k: K, op: (V, V) -> V)
    requires log != []
    ensures Folded(log, k, op) == Plus(Folded(log[..|log| - 1], k, op), Share(log[|log| - 1], k), op)
  {}

  lemma WithoutFine<K, V>(log: seq<Item<K, V>>, j: nat, ok: V -> bool)
    requires ItemsFine(log, ok) && j < |log|
    ensures ItemsFine(Without(log, j), ok)
  {}

  lemma {:induction false} FoldedTakeOut<K, V(!new)>(log: seq<Item<K, V>>, j: nat, k: K, op: (V, V) -> V, ok: V -> bool)
    requires Law(op, ok) && ItemsFine(log, ok) && j < |log|
    ensures Folded(log, k, op) == Plus(Folded(Without(log, j), k, op), Share(log[j], k), op)
    decreases |log|
  {
    var n := |log| - 1;
    if j == n {
      assert Without(log, j) == log[..n];
    } else {
      var rest := Without(log[..n], j);
      FoldedTakeOut(log[..n], j, k, op, ok);
      WithoutLast(log, j);
      WithoutFine(log[..n], j, ok);
      FoldedFine(rest, k, op, ok);
      FoldedLast(log, k, op);
      FoldedLast(Without(log, j), k, op);
      PlusLaws(Folded(rest, k, op), Share(log[j], k), Share(log[n], k), op, ok);
    }
  }

  /** The order of the writes does not matter. */
  lemma {:induction false} FoldedPermuted<K, V(!new)>(a: seq<Item<K, V>>, b: seq<Item<K, V>>, k: K, op: (V, V) -> V, ok: V -> bool)
    requires Law(op, ok) && ItemsFine(a, ok) && ItemsFine(b, ok) && multiset(a) == multiset(b)
    ensures Folded(a, k, op) == Folded(b, k, op)
    decreases |a|
  {
    SameLength(a, b);
    if a != [] {
      var n := |a| - 1;
      var j := Match(a, n, b);
      assert Without(a, n) == a[..n];
      WithoutFine(b, j, ok);
      FoldedPermuted(a[..n], Without(b, j), k, op, ok);
      FoldedTakeOut(b, j, k, op, ok);
    }
  }

  lemma {:induction false} LogFine<K, V>(s: State<K, V>, acts: seq<Action<K, V>>, s': State<K, V>, op: (V, V) -> V, ok: V -> bool)
    requires WritesFine(acts, ok) && Run(s, acts, s', op) && ItemsFine(s.log, ok)
    ensures ItemsFine(s'.log, ok)
    decreases |acts|
  {
    if acts != [] {
      LogFine(Apply(s, acts[0], op), acts[1..], s', op, ok);
    }
  }

  /** Two complete runs that wrote the same items, however scheduled, merged and walked, end with the
      same table. */
  lemma SameWritesSameTable<K(!new), V(!new)>(s: State<K, V>, a: seq<Action<K, V>>, s1: State<K, V>,
                                              b: seq<Action<K, V>>, s2: State<K, V>, op: (V, V) -> V, ok: V -> bool)
    requires Law(op, ok) && Init(s) && !s.listMode && !s1.listMode && !s2.listMode
    requires WritesFine(a, ok) && Run(s, a, s1, op) && Finished(s1) && s1.threads != []
    requires WritesFine(b, ok) && Run(s, b, s2, op) && Finished(s2) && s2.threads != []
    requires multiset(s1.log) == multiset(s2.log)
    ensures MapOf(s1.threads[0].table) == MapOf(s2.threads[0].table)
  {
    FinalTable(s, a, s1, op, ok);
    FinalTable(s, b, s2, op, ok);
    LogFine(s, a, s1, op, ok);
    LogFine(s, b, s2, op, ok);
    forall k ensures Get(PutAll(map[], s1.log, op), k) == Get(PutAll(map[], s2.log, op), k) {
      PutAllFolds(s1.log, k, op);
      PutAllFolds(s2.log, k, op);
      FoldedPermuted(s1.log, s2.log, k, op, ok);
    }
    SameMap(PutAll(map[], s1.log, op), PutAll(map[], s2.log, op));
  }

  // ---------- the critical sections ----------

  /** thread_status and what lnf_mem_merge_threads does to it while holding thread_mutex. */
  class Monitor {
    const threadStatus: array<Status>

    constructor (n: nat)
      ensures fresh(threadStatus) && threadStatus.Length == n
      ensures forall i :: 0 <= i < n ==> threadStatus[i] == Empty
    {
      threadStatus := new Status[n](_ => Empty);
    }

    method Ready(id: nat)
      requires id < threadStatus.Length
      modifies threadStatus
      ensures threadStatus[..] == old(threadStatus[..])[id := Merge]
    {
      threadStatus[id] := Merge;
    }

    /** The partner search; it finds what Partner says and marks both sides. */
    method PickPartner(id: nat) returns (merge: bool, id2: nat)
      requires id < threadStatus.Length
      modifies threadStatus
      ensures merge <==> Partner(old(threadStatus[..]), id).Some?
      ensures merge ==> id2 == Partner(old(threadStatus[..]), id).value
      ensures merge ==> threadStatus[..] == old(threadStatus[..])[id := Merged][id2 := Merging]
      ensures !merge ==> threadStatus[..] == old(threadStatus[..])
    {
      merge, id2 := false, 0;
      var i := 0;
      while i < id
        invariant i <= id && threadStatus[..] == old(threadStatus[..])
        invariant threadStatus[id] == Merge ==> forall j :: 0 <= j < i ==> threadStatus[j] != Merge
      {
        if threadStatus[id] == Merge && threadStatus[i] == Merge {
          id2 := i;
          threadStatus[id] := Merged;
          threadStatus[i] := Merging;
          merge := true;
          break;
        }
        i := i + 1;
      }
    }

    method Publish(id: nat, id2: nat)
      requires id < threadStatus.Length && id2 < id
      modifies threadStatus
      ensures threadStatus[..] == old(threadStatus[..])[id := Merged][id2 := Merge]
    {
      threadStatus[id] := Merged;
      threadStatus[id2] := Merge;
    }
  }
}
