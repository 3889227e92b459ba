/** A run of the threads seen through a function of the values: one field of every row instead of the whole
    row.  The fields that aggregate in any order come out right whatever the others do. */
module MergeViews {
  import opened MergeThreads
  import opened Rows
  import opened TableSpec

  /** On the values that ok admits, op stays among them and h turns it into op2. */
  ghost predicate Carries<V(!new), W>(h: V -> W, op: (V, V) -> V, op2: (W, W) -> W, ok: V -> bool) {
    forall a, b {:trigger op(a, b)} :: ok(a) && ok(b) ==> ok(op(a, b)) && h(op(a, b)) == op2(h(a), h(b))
  }

  function ViewItem<K, V, W>(x: Item<K, V>, h: V -> W): Item<K, W> {
    Item(x.key, h(x.val))
  }

  function ViewLog<K, V, W>(log: seq<Item<K, V>>, h: V -> W): (r: seq<Item<K, W>>)
    ensures |r| == |log| && forall i :: 0 <= i < |log| ==> r[i] == ViewItem(log[i], h)
  {
    seq(|log|, i requires 0 <= i < |log| => ViewItem(log[i], h))
  }

  function ViewMap<K, V, W>(m: map<K, V>, h: V -> W): (r: map<K, W>)
    ensures r.Keys == m.Keys && |r| == |m|
  {
    var r := map k | k in m :: h(m[k]);
    assert r.Keys == m.Keys;
    r
  }

  function ViewTable<K, V, W>(t: Table<K, V>, h: V -> W): Table<K, W> {
    match t
    case Hash(m) => Hash(ViewMap(m, h))
    case List(rows) => List(ViewLog(rows, h))
  }

  function ViewThread<K, V, W>(x: Thread<K, V>, h: V -> W): Thread<K, W> {
    Thread(x.status, x.phase, ViewTable(x.table, h))
  }

  function ViewThreads<K, V, W>(ts: seq<Thread<K, V>>, h: V -> W): (r: seq<Thread<K, W>>)
    ensures |r| == |ts| && forall t :: 0 <= t < |ts| ==> r[t] == ViewThread(ts[t], h)
  {
    seq(|ts|, t requires 0 <= t < |ts| => ViewThread(ts[t], h))
  }

  function ViewState<K, V, W>(s: State<K, V>, h: V -> W): State<K, W> {
    State(s.listMode, ViewThreads(s.threads, h), ViewLog(s.log, h))
  }

  function ViewAction<K, V, W>(a: Action<K, V>, h: V -> W): Action<K, W> {
    match a
    case TakeId => TakeId
    case Insert(t, x) => Insert(t, ViewItem(x, h))
    case CallMerge(t) => CallMerge(t)
    case Pick(t) => Pick(t)
    case MoveRow(t, k) => MoveRow(t, k)
    case JoinRows(t) => JoinRows(t)
    case Publish(t) => Publish(t)
  }

  function ViewActions<K, V, W>(acts: seq<Action<K, V>>, h: V -> W): (r: seq<Action<K, W>>)
    ensures |r| == |acts| && forall i :: 0 <= i < |acts| ==> r[i] == ViewAction(acts[i], h)
  {
    seq(|acts|, i requires 0 <= i < |acts| => ViewAction(acts[i], h))
  }

  // ---------- one step ----------

  ghost predicate MapFine<K, V>(m: map<K, V>, ok: V -> bool) {
    forall k :: k in m ==> ok(m[k])
  }

  lemma ViewPut<K, V(!new), W>(m: map<K, V>, k: K, v: V, h: V -> W, op: (V, V) -> V, op2: (W, W) -> W, ok: V -> bool)
    requires Carries(h, op, op2, ok) && MapFine(m, ok) && ok(v)
    ensures MapFine(Put(m, k, v, op), ok)
    ensures ViewMap(Put(m, k, v, op), h) == Put(ViewMap(m, h), k, h(v), op2)
  {}

  lemma {:induction false} ViewPutAll<K, V(!new), W>(log: seq<Item<K, V>>, h: V -> W, op: (V, V) -> V, op2: (W, W) -> W, ok: V -> bool)
    requires Carries(h, op, op2, ok) && ItemsFine(log, ok)
    ensures MapFine(PutAll(map[], log, op), ok)
    ensures ViewMap(PutAll(map[], log, op), h) == PutAll(map[], ViewLog(log, h), op2)
  {
    if log != [] {
      var init, last := log[..|log| - 1], log[|log| - 1];
      ViewPutAll(init, h, op, op2, ok);
      assert ViewLog(log, h)[..|log| - 1] == ViewLog(init, h);
      ViewPut(PutAll(map[], init, op), last.key, last.val, h, op, op2, ok);
    }
  }

  ghost predicate TablesFine<K, V>(ts: seq<Thread<K, V>>, ok: V -> bool) {
    forall t :: 0 <= t < |ts| ==> MapFine(MapOf(ts[t].table), ok)
  }

  lemma ViewEnabled<K, V, W>(s: State<K, V>, a: Action<K, V>, h: V -> W)
    requires Enabled(s, a)
    ensures Enabled(ViewState(s, h), ViewAction(a, h))
  {
    assert Statuses(ViewThreads(s.threads, h)) == Statuses(s.threads);
  }

  lemma ViewSet<K, V, W>(ts: seq<Thread<K, V>>, t: nat, x: Thread<K, V>, h: V -> W)
    requires t < |ts|
    ensures ViewThreads(ts[t := x], h) == ViewThreads(ts, h)[t := ViewThread(x, h)]
  {}

  lemma ViewSetTwo<K, V, W>(ts: seq<Thread<K, V>>, t: nat, x: Thread<K, V>, d: nat, y: Thread<K, V>, h: V -> W)
    requires t < |ts| && d < |ts|
    ensures ViewThreads(ts[t := x][d := y], h) == ViewThreads(ts, h)[t := ViewThread(x, h)][d := ViewThread(y, h)]
  {
    ViewSet(ts, t, x, h);
    ViewSet(ts[t := x], d, y, h);
  }

  lemma ViewConcat<K, V, W>(a: seq<Item<K, V>>, b: seq<Item<K, V>>, h: V -> W)
    ensures ViewLog(a + b, h) == ViewLog(a, h) + ViewLog(b, h)
  {}

  lemma ViewOne<K, V, W>(x: Item<K, V>, h: V -> W)
    ensures ViewLog([x], h) == [ViewItem(x, h)]
  {}

  lemma ViewInserted<K, V(!new), W>(t: Table<K, V>, x: Item<K, V>, h: V -> W, op: (V, V) -> V, op2: (W, W) -> W, ok: V -> bool)
    requires Carries(h, op, op2, ok) && MapFine(MapOf(t), ok) && ok(x.val)
    ensures MapFine(MapOf(Inserted(t, x, op)), ok)
    ensures ViewTable(Inserted(t, x, op), h) == Inserted(ViewTable(t, h), ViewItem(x, h), op2)
  {
    if t.Hash? {
      ViewPut(t.m, x.key, x.val, h, op, op2, ok);
    } else {
      ViewOne(x, h);
      ViewConcat([x], t.rows, h);
    }
  }

  lemma ViewInsert<K, V(!new), W>(s: State<K, V>, t: nat, x: Item<K, V>, h: V -> W, op: (V, V) -> V, op2: (W, W) -> W, ok: V -> bool)
    requires Carries(h, op, op2, ok) && TablesFine(s.threads, ok) && Enabled(s, Insert(t, x)) && ok(x.val)
    requires Enabled(ViewState(s, h), Insert(t, ViewItem(x, h)))
    ensures TablesFine(Apply(s, Insert(t, x), op).threads, ok)
    ensures Apply(ViewState(s, h), Insert(t, ViewItem(x, h)), op2) == ViewState(Apply(s, Insert(t, x), op), h)
  {
    ViewInserted(s.threads[t].table, x, h, op, op2, ok);
    ViewSet(s.threads, t, Apply(s, Insert(t, x), op).threads[t], h);
    ViewOne(x, h);
    ViewConcat(s.log, [x], h);
  }

  lemma ViewWithout<K, V, W>(m: map<K, V>, k: K, h: V -> W)
    ensures ViewMap(m - {k}, h) == ViewMap(m, h) - {k}
  {}

  lemma FineTwo<K, V>(ts: seq<Thread<K, V>>, t: nat, x: Thread<K, V>, d: nat, y: Thread<K, V>, ok: V -> bool)
    requires TablesFine(ts, ok) && t < |ts| && d < |ts|
    requires MapFine(MapOf(x.table), ok) && MapFine(MapOf(y.table), ok)
    ensures TablesFine(ts[t := x][d := y], ok)
  {}

  lemma ViewMoveRow<K, V(!new), W>(s: State<K, V>, t: nat, k: K, h: V -> W, op: (V, V) -> V, op2: (W, W) -> W, ok: V -> bool)
    requires Carries(h, op, op2, ok) && TablesFine(s.threads, ok) && Enabled(s, MoveRow(t, k))
    requires Enabled(ViewState(s, h), MoveRow(t, k))
    ensures TablesFine(Apply(s, MoveRow(t, k), op).threads, ok)
    ensures Apply(ViewState(s, h), MoveRow(t, k), op2) == ViewState(Apply(s, MoveRow(t, k), op), h)
  {
    var d := s.threads[t].phase.dst;
    var src, dst := s.threads[t].table.m, s.threads[d].table.m;
    assert MapFine(MapOf(s.threads[t].table), ok) && MapFine(MapOf(s.threads[d].table), ok);
    ViewPut(dst, k, src[k], h, op, op2, ok);
    ViewWithout(src, k, h);
    var x, y := s.threads[t].(table := Hash(src - {k})), s.threads[d].(table := Hash(Put(dst, k, src[k], op)));
    ViewSetTwo(s.threads, t, x, d, y, h);
    FineTwo(s.threads, t, x, d, y, ok);
  }

  lemma ViewJoinRows<K, V, W>(s: State<K, V>, t: nat, h: V -> W, op: (V, V) -> V, op2: (W, W) -> W, ok: V -> bool)
    requires TablesFine(s.threads, ok) && Enabled(s, JoinRows(t)) && Enabled(ViewState(s, h), JoinRows(t))
    ensures TablesFine(Apply(s, JoinRows(t), op).threads, ok)
    ensures Apply(ViewState(s, h), JoinRows(t), op2) == ViewState(Apply(s, JoinRows(t), op), h)
  {
    var d := s.threads[t].phase.dst;
    var src, dst := s.threads[t].table.rows, s.threads[d].table.rows;
    ViewConcat(dst, src, h);
    var x := s.threads[t].(table := List([]));
    var y := s.threads[d].(table := List(dst + src));
    assert ViewTable(x.table, h) == List([]);
    ViewSetTwo(s.threads, t, x, d, y, h);
    FineTwo(s.threads, t, x, d, y, ok);
  }

  lemma ViewCallMerge<K, V, W>(s: State<K, V>, t: nat, h: V -> W, op: (V, V) -> V, op2: (W, W) -> W, ok: V -> bool)
    requires TablesFine(s.threads, ok) && Enabled(s, CallMerge(t)) && Enabled(ViewState(s, h), CallMerge(t))
    ensures TablesFine(Apply(s, CallMerge(t), op).threads, ok)
    ensures Apply(ViewState(s, h), CallMerge(t), op2) == ViewState(Apply(s, CallMerge(t), op), h)
  {
    ViewSet(s.threads, t, Apply(s, CallMerge(t), op).threads[t], h);
  }

  lemma ViewPick<K, V, W>(s: State<K, V>, t: nat, h: V -> W, op: (V, V) -> V, op2: (W, W) -> W, ok: V -> bool)
    requires TablesFine(s.threads, ok) && Enabled(s, Pick(t)) && Enabled(ViewState(s, h), Pick(t))
    ensures TablesFine(Apply(s, Pick(t), op).threads, ok)
    ensures Apply(ViewState(s, h), Pick(t), op2) == ViewState(Apply(s, Pick(t), op), h)
  {
    assert Statuses(ViewThreads(s.threads, h)) == Statuses(s.threads);
    var d := Partner(Statuses(s.threads), t).value;
    var x, y := s.threads[t].(status := Merged, phase := Moving(d)), s.threads[d].(status := Merging);
    ViewSetTwo(s.threads, t, x, d, y, h);
    FineTwo(s.threads, t, x, d, y, ok);
  }

  lemma ViewPublish<K, V, W>(s: State<K, V>, t: nat, h: V -> W, op: (V, V) -> V, op2: (W, W) -> W, ok: V -> bool)
    requires TablesFine(s.threads, ok) && Enabled(s, Publish(t)) && Enabled(ViewState(s, h), Publish(t))
    ensures TablesFine(Apply(s, Publish(t), op).threads, ok)
    ensures Apply(ViewState(s, h), Publish(t), op2) == ViewState(Apply(s, Publish(t), op), h)
  {
    var d := s.threads[t].phase.dst;
    var x, y := s.threads[t].(status := Merged, phase := Done), s.threads[d].(status := Merge);
    ViewSetTwo(s.threads, t, x, d, y, h);
    FineTwo(s.threads, t, x, d, y, ok);
  }

  lemma ViewTakeId<K, V, W>(s: State<K, V>, h: V -> W, op: (V, V) -> V, op2: (W, W) -> W, ok: V -> bool)
    requires TablesFine(s.threads, ok) && Enabled(s, TakeId) && Enabled(ViewState(s, h), TakeId)
    ensures TablesFine(Apply(s, TakeId, op).threads, ok)
    ensures Apply(ViewState(s, h), TakeId, op2) == ViewState(Apply(s, TakeId, op), h)
  {
    var s', v' := Apply(s, TakeId, op), Apply(ViewState(s, h), TakeId, op2);
    assert ViewTable(EmptyTable<K, V>(s.listMode), h) == EmptyTable(s.listMode);
    assert v'.threads == ViewThreads(s'.threads, h);
  }

  /** Doing a step and looking at the result is looking first and doing the step on what is seen. */
  lemma ViewStep<K, V(!new), W>(s: State<K, V>, a: Action<K, V>, h: V -> W, op: (V, V) -> V, op2: (W, W) -> W, ok: V -> bool)
    requires Carries(h, op, op2, ok) && TablesFine(s.threads, ok) && Enabled(s, a) && (a.Insert? ==> ok(a.item.val))
    ensures TablesFine(Apply(s, a, op).threads, ok)
    ensures Enabled(ViewState(s, h), ViewAction(a, h))
    ensures Apply(ViewState(s, h), ViewAction(a, h), op2) == ViewState(Apply(s, a, op), h)
  {
    ViewEnabled(s, a, h);
    match a {
      case Insert(t, x) => ViewInsert(s, t, x, h, op, op2, ok);
      case MoveRow(t, k) => ViewMoveRow(s, t, k, h, op, op2, ok);
      case JoinRows(t) => ViewJoinRows(s, t, h, op, op2, ok);
      case TakeId => ViewTakeId(s, h, op, op2, ok);
      case CallMerge(t) => ViewCallMerge(s, t, h, op, op2, ok);
      case Pick(t) => ViewPick(s, t, h, op, op2, ok);
      case Publish(t) => ViewPublish(s, t, h, op, op2, ok);
    }
  }

  // ---------- whole runs ----------

  /** What is seen of a run is a run on what is seen. */
  lemma {:induction false} ViewRun<K, V(!new), W>(s: State<K, V>, acts: seq<Action<K, V>>, s': State<K, V>,
                                                  h: V -> W, op: (V, V) -> V, op2: (W, W) -> W, ok: V -> bool)
    requires Carries(h, op, op2, ok) && TablesFine(s.threads, ok) && WritesFine(acts, ok) && Run(s, acts, s', op)
    ensures TablesFine(s'.threads, ok)
    ensures Run(ViewState(s, h), ViewActions(acts, h), ViewState(s', h), op2)
    decreases |acts|
  {
    if acts != [] {
      ViewStep(s, acts[0], h, op, op2, ok);
      ViewRun(Apply(s, acts[0], op), acts[1..], s', h, op, op2, ok);
      assert ViewActions(acts, h)[1..] == ViewActions(acts[1..], h);
    }
  }

  lemma ViewMapOf<K, V, W>(t: Table<K, V>, h: V -> W)
    ensures MapOf(ViewTable(t, h)) == ViewMap(MapOf(t), h)
  {}

  lemma ViewWrites<K, V(!new), W>(acts: seq<Action<K, V>>, h: V -> W, ok: V -> bool, ok2: W -> bool)
    requires WritesFine(acts, ok) && forall a {:trigger h(a)} :: ok(a) ==> ok2(h(a))
    ensures WritesFine(ViewActions(acts, h), ok2)
  {}

  lemma ViewEnds<K, V, W>(s: State<K, V>, s': State<K, V>, h: V -> W, ok: V -> bool)
    requires Init(s) && Finished(s')
    ensures Init(ViewState(s, h)) && TablesFine(s.threads, ok) && Finished(ViewState(s', h))
  {}

  /** When everybody has returned, table 0 looks as if one thread had written the whole log, as long as what
      is looked at aggregates in any order. */
  lemma FinalView<K(!new), V(!new), W(!new)>(s: State<K, V>, acts: seq<Action<K, V>>, s': State<K, V>, h: V -> W,
                                             op: (V, V) -> V, op2: (W, W) -> W, ok: V -> bool, ok2: W -> bool)
    requires Carries(h, op, op2, ok) && Law(op2, ok2) && forall a {:trigger h(a)} :: ok(a) ==> ok2(h(a))
    requires WritesFine(acts, ok) && Init(s) && Run(s, acts, s', op)
    requires Finished(s') && s'.threads != [] && !s.listMode && !s'.listMode
    ensures ItemsFine(s'.log, ok) && MapFine(MapOf(s'.threads[0].table), ok)
    ensures ViewMap(MapOf(s'.threads[0].table), h) == ViewMap(PutAll(map[], s'.log, op), h)
  {
    ViewEnds(s, s', h, ok);
    ViewWrites(acts, h, ok, ok2);
    ViewRun(s, acts, s', h, op, op2, ok);
    FinalTable(ViewState(s, h), ViewActions(acts, h), ViewState(s', h), op2, ok2);
    LogFine(s, acts, s', op, ok);
    ViewPutAll(s'.log, h, op, op2, ok);
    assert MapFine(MapOf(s'.threads[0].table), ok);
    ViewMapOf(s'.threads[0].table, h);
  }
}
