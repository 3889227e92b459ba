/** The aggregation store as a whole: records written by any threads in any order, merged under the status
    protocol, and what table 0 then says about them. */
module ParallelStore {
  import opened Aggregate
  import opened Bytes
  import opened FastAggr
  import opened FieldList
  import opened MemHeap
  import MergeThreads
  import MergeViews
  import opened RecordBuffer
  import opened Rows
  import opened TableSpec
  import Totals

  type Log = seq<Item<Data, Data>>

  /** All inserts of a sequence of records. */
  function AllWrites(cat: Catalog, keys: seq<Fld>, vals: seq<Fld>, modes: Modes, recs: seq<Record>): Log {
    if recs == [] then []
    else AllWrites(cat, keys, vals, modes, recs[..|recs| - 1]) + Writes(cat, keys, vals, modes, recs[|recs| - 1])
  }

  ghost predicate Readable(cat: Catalog, vals: seq<Fld>, modes: Modes, recs: seq<Record>) {
    && FieldsOK(cat, vals) && (modes.fast ==> vals == FastFields())
    && forall i :: 0 <= i < |recs| ==> RecordOK(cat, recs[i])
  }

  lemma CounterSizes(cat: Catalog)
    requires FieldsOK(cat, FastFields())
    ensures cat.size(FIRST) == cat.size(LAST) == cat.size(DOCTETS) == cat.size(DPKTS) == cat.size(AGGR_FLOWS) == 8
  {
    var fs := FastFields();
    forall i | 0 <= i < 5 ensures cat.size(fs[i].id) == 8 {
      assert FieldOK(cat, fs[i]) && Source(cat, fs[i].id, 0) == fs[i].id;
    }
    assert fs[0].id == FIRST && fs[1].id == LAST && fs[2].id == DOCTETS && fs[3].id == DPKTS && fs[4].id == AGGR_FLOWS;
  }

  /** In fast mode the struct has the bytes the generic buffer would have. */
  lemma SameValue(cat: Catalog, vals: seq<Fld>, modes: Modes, rec: Record)
    requires FieldsOK(cat, vals) && (modes.fast ==> vals == FastFields()) && RecordOK(cat, rec)
    ensures Value(cat, vals, modes, rec) == WholeBuffer(cat, vals, rec, 0) && Sized(vals, Value(cat, vals, modes, rec))
  {
    BufferSize(cat, vals, |vals|, rec, 0);
    if modes.fast {
      CounterSizes(cat);
      FastValueIsBuffer(cat, rec);
    }
  }

  lemma {:induction false} AllSizedWrites(cat: Catalog, keys: seq<Fld>, vals: seq<Fld>, modes: Modes, recs: seq<Record>)
    requires Readable(cat, vals, modes, recs)
    ensures AllSized(vals, AllWrites(cat, keys, vals, modes, recs))
  {
    if recs != [] {
      AllSizedWrites(cat, keys, vals, modes, recs[..|recs| - 1]);
      SameValue(cat, vals, modes, recs[|recs| - 1]);
    }
  }

  // ---------- fast aggregation refines the generic one ----------

  lemma {:induction false} SameWrites(cat: Catalog, keys: seq<Fld>, modes: Modes, recs: seq<Record>)
    requires Readable(cat, FastFields(), modes, recs)
    ensures AllWrites(cat, keys, FastFields(), modes.(fast := true), recs)
            == AllWrites(cat, keys, FastFields(), modes.(fast := false), recs)
  {
    if recs != [] {
      SameWrites(cat, keys, modes, recs[..|recs| - 1]);
      SameValue(cat, FastFields(), modes.(fast := true), recs[|recs| - 1]);
    }
  }

  /** Any records written in fast mode leave the table they leave in generic mode. */
  lemma FastRefinesGeneric(cat: Catalog, keys: seq<Fld>, modes: Modes, recs: seq<Record>)
    requires Readable(cat, FastFields(), modes, recs)
    ensures PutAll(map[], AllWrites(cat, keys, FastFields(), modes.(fast := true), recs), FastFor())
            == PutAll(map[], AllWrites(cat, keys, FastFields(), modes.(fast := false), recs), AggrFor(FastFields()))
  {
    SameWrites(cat, keys, modes, recs);
    AllSizedWrites(cat, keys, FastFields(), modes.(fast := false), recs);
    FastOffsets();
    FastTable(AllWrites(cat, keys, FastFields(), modes.(fast := false), recs));
  }

  // ---------- statistics ----------

  /** The sum of a counter over records. */
  function RecordTotal(cat: Catalog, vals: seq<Fld>, i: nat, recs: seq<Record>): nat
    requires i < |vals|
  {
    if recs == [] then 0
    else
      RecordTotal(cat, vals, i, recs[..|recs| - 1])
      + Totals.Counter(vals, i)(WholeBuffer(cat, vals, recs[|recs| - 1], 0))
  }

  /** The records that are counted once although there are two keys. */
  function Coinciding(cat: Catalog, keys: seq<Fld>, modes: Modes, recs: seq<Record>): seq<Record> {
    if recs == [] then []
    else
      var before := Coinciding(cat, keys, modes, recs[..|recs| - 1]);
      var last := recs[|recs| - 1];
      if modes.compStatistics && SameKeys(cat, keys, last) then before + [last] else before
  }

  lemma TotalOfWrites(cat: Catalog, keys: seq<Fld>, vals: seq<Fld>, modes: Modes, rec: Record, g: Data -> nat)
    requires !modes.listMode
    ensures var t := Totals.LogTotal(Writes(cat, keys, vals, modes, rec), g);
            t == g(Value(cat, vals, modes, rec)) *
              if modes.statistics && !(modes.compStatistics && SameKeys(cat, keys, rec)) then 2 else 1
  {
    var v := Value(cat, vals, modes, rec);
    var x, y := Item(Key(cat, keys, rec, 1), v), Item(Key(cat, keys, rec, 2), v);
    Totals.LogTotalOne(Item(Key(cat, keys, rec, 0), v), g);
    Totals.LogTotalOne(x, g);
    assert [x, y][..1] == [x];
  }

  lemma {:induction false} LogOfRecords(cat: Catalog, keys: seq<Fld>, vals: seq<Fld>, modes: Modes, recs: seq<Record>, i: nat)
    requires i < |vals| && !modes.listMode && Readable(cat, vals, modes, recs)
    ensures var t := Totals.LogTotal(AllWrites(cat, keys, vals, modes, recs), Totals.Counter(vals, i));
            if modes.statistics then
              t + RecordTotal(cat, vals, i, Coinciding(cat, keys, modes, recs)) == 2 * RecordTotal(cat, vals, i, recs)
            else t == RecordTotal(cat, vals, i, recs)
  {
    if recs != [] {
      var g, init, last := Totals.Counter(vals, i), recs[..|recs| - 1], recs[|recs| - 1];
      LogOfRecords(cat, keys, vals, modes, init, i);
      Totals.LogTotalConcat(AllWrites(cat, keys, vals, modes, init), Writes(cat, keys, vals, modes, last), g);
      TotalOfWrites(cat, keys, vals, modes, last, g);
      SameValue(cat, vals, modes, last);
      var before := Coinciding(cat, keys, modes, init);
      assert (before + [last])[..|before|] == before;
    }
  }

  /** rows are the records' counters: all of them, or twice all of them less those counted once. */
  predicate Balance(rows: nat, all: nat, once: nat, twice: bool, n: nat) {
    if twice then Totals.Congruent(rows + once, 2 * all, n) else Totals.Congruent(rows, all, n)
  }

  /** The counters of all rows of m hold those of the records: twice in statistics mode, less the records
      whose keys coincide and that are then counted once; once otherwise. */
  ghost predicate Accounts(cat: Catalog, keys: seq<Fld>, vals: seq<Fld>, modes: Modes, recs: seq<Record>, i: nat, m: map<Data, Data>)
    requires i < |vals|
  {
    Balance(Totals.Total(m, Totals.Counter(vals, i)), RecordTotal(cat, vals, i, recs),
            RecordTotal(cat, vals, i, Coinciding(cat, keys, modes, recs)), modes.statistics, vals[i].size)
  }

  lemma SizedPermuted(vals: seq<Fld>, log: Log, items: Log)
    requires multiset(log) == multiset(items) && AllSized(vals, items)
    ensures AllSized(vals, log)
  {
    forall j | 0 <= j < |log| ensures Sized(vals, log[j].val) {
      assert log[j] in multiset(items);
    }
  }

  lemma BalanceFor(rows: nat, t: nat, all: nat, once: nat, twice: bool, n: nat)
    requires Totals.Congruent(rows, t, n) && if twice then t + once == 2 * all else t == all
    ensures Balance(rows, all, once, twice, n)
  {
    Totals.CongruentAdd(rows, t, once, n);
  }

  /** The table fed with these records, in whatever order the inserts came, accounts for them. */
  lemma RecordsConserved(cat: Catalog, keys: seq<Fld>, vals: seq<Fld>, modes: Modes, recs: seq<Record>, log: Log, i: nat)
    requires i < |vals| && vals[i].op == Sum && !modes.listMode && Readable(cat, vals, modes, recs)
    requires multiset(log) == multiset(AllWrites(cat, keys, vals, modes, recs))
    ensures Accounts(cat, keys, vals, modes, recs, i, PutAll(map[], log, AggrFor(vals)))
  {
    AllSizedWrites(cat, keys, vals, modes, recs);
    SizedPermuted(vals, log, AllWrites(cat, keys, vals, modes, recs));
    Totals.SumConserved(vals, i, log);
    Totals.LogTotalPermuted(log, AllWrites(cat, keys, vals, modes, recs), Totals.Counter(vals, i));
    LogOfRecords(cat, keys, vals, modes, recs, i);
    BalanceFor(Totals.Total(PutAll(map[], log, AggrFor(vals)), Totals.Counter(vals, i)),
               Totals.LogTotal(log, Totals.Counter(vals, i)), RecordTotal(cat, vals, i, recs),
               RecordTotal(cat, vals, i, Coinciding(cat, keys, modes, recs)), modes.statistics, vals[i].size);
  }

  // ---------- all threads ----------

  /** What a value buffer has in field i. */
  function FieldOf(vals: seq<Fld>, i: nat): Data -> Data
    requires i < |vals|
  {
    d => if Sized(vals, d) then Part(vals, d, i) else []
  }

  function CombineFor(op: Op): (Data, Data) -> Data {
    (a, b) => if |a| == |b| then Combine(op, a, b) else a
  }

  function LongFor(n: nat): Data -> bool {
    d => |d| == n
  }

  /** Seen at one field, aggregating buffers is aggregating that field. */
  lemma FieldCarries(vals: seq<Fld>, i: nat)
    requires i < |vals|
    ensures MergeViews.Carries(FieldOf(vals, i), AggrFor(vals), CombineFor(vals[i].op), SizedFor(vals))
    ensures forall a {:trigger FieldOf(vals, i)(a)} :: SizedFor(vals)(a) ==> LongFor(vals[i].size)(FieldOf(vals, i)(a))
  {
    forall a, b | SizedFor(vals)(a) && SizedFor(vals)(b)
      ensures Sized(vals, Aggr(vals, a, b)) && Part(vals, Aggr(vals, a, b), i) == Combine(vals[i].op, Part(vals, a, i), Part(vals, b, i))
    {
      PartOfAggr(vals, a, b, i);
    }
  }

  lemma FieldLaw(op: Op, n: nat)
    requires op != Empty
    ensures MergeThreads.Law(CombineFor(op), LongFor(n))
  {
    forall a, b, c | |a| == |b| == |c| == n
      ensures Combine(op, a, b) == Combine(op, b, a) && Combine(op, Combine(op, a, b), c) == Combine(op, a, Combine(op, b, c))
    {
      CombineLaws(op, a, b, c);
    }
  }

  /** All writes of the run have the size of the value list, and it ended in hash mode with every thread
      returned. */
  ghost predicate Complete(vals: seq<Fld>, s: MergeThreads.State<Data, Data>, acts: seq<MergeThreads.Action<Data, Data>>,
                           s': MergeThreads.State<Data, Data>)
  {
    && MergeThreads.WritesFine(acts, SizedFor(vals)) && MergeThreads.Init(s)
    && MergeThreads.Run(s, acts, s', AggrFor(vals)) && MergeThreads.Finished(s')
    && s'.threads != [] && !s.listMode && !s'.listMode
  }

  /** After every thread has merged, table 0 has in field i what one thread would have there that made all the
      writes, whatever the other fields are. */
  lemma MergedField(vals: seq<Fld>, s: MergeThreads.State<Data, Data>, acts: seq<MergeThreads.Action<Data, Data>>,
                    s': MergeThreads.State<Data, Data>, i: nat)
    requires i < |vals| && vals[i].op != Empty && Complete(vals, s, acts, s')
    ensures AllSized(vals, s'.log) && Totals.ValuesSized(vals, MergeThreads.MapOf(s'.threads[0].table))
    ensures MergeViews.ViewMap(MergeThreads.MapOf(s'.threads[0].table), FieldOf(vals, i))
            == MergeViews.ViewMap(PutAll(map[], s'.log, AggrFor(vals)), FieldOf(vals, i))
  {
    FieldCarries(vals, i);
    FieldLaw(vals[i].op, vals[i].size);
    MergeViews.FinalView(s, acts, s', FieldOf(vals, i), AggrFor(vals), CombineFor(vals[i].op), SizedFor(vals), LongFor(vals[i].size));
  }

  lemma SameFolds(vals: seq<Fld>, m: map<Data, Data>, m2: map<Data, Data>, k: Data, i: nat, col: seq<Data>)
    requires i < |vals| && forall d :: d in col ==> |d| == vals[i].size
    requires MergeViews.ViewMap(m, FieldOf(vals, i)) == MergeViews.ViewMap(m2, FieldOf(vals, i))
    requires Totals.ValuesSized(vals, m) && Folds(vals, i, Get(m2, k), col)
    ensures Folds(vals, i, Get(m, k), col)
  {
    assert k in m <==> k in MergeViews.ViewMap(m, FieldOf(vals, i));
    assert k in m2 <==> k in MergeViews.ViewMap(m2, FieldOf(vals, i));
    if k in m {
      assert MergeViews.ViewMap(m, FieldOf(vals, i))[k] == Part(vals, m[k], i);
    }
  }

  /** So that field of each row is the fold of what any thread wrote under the row's key. */
  lemma MergedFields(vals: seq<Fld>, s: MergeThreads.State<Data, Data>, acts: seq<MergeThreads.Action<Data, Data>>,
                     s': MergeThreads.State<Data, Data>, k: Data, i: nat)
    requires i < |vals| && vals[i].op != Empty && Complete(vals, s, acts, s')
    ensures AllSized(vals, s'.log)
    ensures Folds(vals, i, Get(MergeThreads.MapOf(s'.threads[0].table), k), Column(vals, s'.log, k, i))
  {
    MergedField(vals, s, acts, s', i);
    PutAllFolds(s'.log, k, AggrFor(vals));
    FoldedColumn(vals, s'.log, k, i);
    SameFolds(vals, MergeThreads.MapOf(s'.threads[0].table), PutAll(map[], s'.log, AggrFor(vals)), k, i, Column(vals, s'.log, k, i));
  }

  lemma TotalOfView(vals: seq<Fld>, m: map<Data, Data>, i: nat)
    requires i < |vals| && Totals.ValuesSized(vals, m)
    ensures Totals.Total(m, Totals.Counter(vals, i)) == Totals.Total(MergeViews.ViewMap(m, FieldOf(vals, i)), LeVal)
  {
    Totals.TotalSame(m, MergeViews.ViewMap(m, FieldOf(vals, i)), Totals.Counter(vals, i), LeVal);
  }

  /** And the counters of table 0 add up to those of the records the threads wrote. */
  lemma MergedTotals(cat: Catalog, keys: seq<Fld>, vals: seq<Fld>, modes: Modes, recs: seq<Record>, i: nat,
                     s: MergeThreads.State<Data, Data>, acts: seq<MergeThreads.Action<Data, Data>>,
                     s': MergeThreads.State<Data, Data>)
    requires i < |vals| && vals[i].op == Sum && !modes.listMode && Readable(cat, vals, modes, recs)
    requires Complete(vals, s, acts, s') && multiset(s'.log) == multiset(AllWrites(cat, keys, vals, modes, recs))
    ensures Accounts(cat, keys, vals, modes, recs, i, MergeThreads.MapOf(s'.threads[0].table))
  {
    MergedField(vals, s, acts, s', i);
    RecordsConserved(cat, keys, vals, modes, recs, s'.log, i);
    Totals.SumConserved(vals, i, s'.log);
    TotalOfView(vals, MergeThreads.MapOf(s'.threads[0].table), i);
    TotalOfView(vals, PutAll(map[], s'.log, AggrFor(vals)), i);
  }
}
