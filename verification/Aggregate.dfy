/** The aggregation functions and lnf_mem_aggr_callback (src/memheap.c:47-85, 572-584) on the value
    buffers of a table. */
module Aggregate {
  import opened Bytes
  import opened FieldList
  import MergeThreads
  import opened Rows
  import opened TableSpec

  // ---------- one field ----------

  function OrBits(a: Bits, b: Bits): (r: Bits)
    requires |a| == |b|
    ensures |r| == |a|
  {
    seq(|a|, i requires 0 <= i < |a| => a[i] || b[i])
  }

  /** What the aggregation function of op leaves in *a: a sum wraps in the width of the field. */
  function Combine(op: Op, a: Data, b: Data): (r: Data)
    requires |a| == |b|
    ensures |r| == |a|
  {
    match op
    case Sum => LePut(LeVal(a) + LeVal(b), |a|)
    case Min => if LeVal(a) > LeVal(b) then b else a
    case Max => if LeVal(a) < LeVal(b) then b else a
    case Or => FromBits(OrBits(ToBits(a), ToBits(b)))
    case Empty => a
  }

  lemma OrLaws(a: Data, b: Data, c: Data)
    requires |a| == |b| == |c|
    ensures Combine(Or, a, b) == Combine(Or, b, a)
    ensures Combine(Or, Combine(Or, a, b), c) == Combine(Or, a, Combine(Or, b, c))
  {
    var x, y, z := ToBits(a), ToBits(b), ToBits(c);
    assert OrBits(x, y) == OrBits(y, x);
    ToFromBits(OrBits(x, y));
    ToFromBits(OrBits(y, z));
    assert OrBits(OrBits(x, y), z) == OrBits(x, OrBits(y, z));
  }

  lemma CombineLaws(op: Op, a: Data, b: Data, c: Data)
    requires |a| == |b| == |c| && op != Empty
    ensures Combine(op, a, b) == Combine(op, b, a)
    ensures Combine(op, Combine(op, a, b), c) == Combine(op, a, Combine(op, b, c))
  {
    match op
    case Sum =>
      PutAdd(LeVal(a) + LeVal(b), LeVal(c), |a|);
      PutAdd(LeVal(b) + LeVal(c), LeVal(a), |a|);
    case Min | Max =>
      if LeVal(a) == LeVal(b) { ValInjective(a, b); }
      if LeVal(b) == LeVal(c) { ValInjective(b, c); }
      if LeVal(a) == LeVal(c) { ValInjective(a, c); }
    case Or =>
      OrLaws(a, b, c);
  }

  // ---------- a whole value buffer ----------

  /** The bytes of field i. */
  function Part(fs: seq<Fld>, d: Data, i: nat): (r: Data)
    requires i < |fs| && |d| == Total(fs)
    ensures |r| == fs[i].size
  {
    OffsetMonotone(fs, i + 1, |fs|);
    d[Offset(fs, i)..Offset(fs, i) + fs[i].size]
  }

  function AggrUpTo(fs: seq<Fld>, i: nat, a: Data, b: Data): (r: Data)
    requires i <= |fs| && |a| == |b| == Total(fs)
    ensures |r| == Offset(fs, i)
  {
    if i == 0 then []
    else AggrUpTo(fs, i - 1, a, b) + Combine(fs[i - 1].op, Part(fs, a, i - 1), Part(fs, b, i - 1))
  }

  predicate Sized(fs: seq<Fld>, d: Data) {
    |d| == Total(fs)
  }

  function SizedFor(fs: seq<Fld>): Data -> bool {
    d => Sized(fs, d)
  }

  /** Buffer b aggregated into buffer a. */
  function Aggr(fs: seq<Fld>, a: Data, b: Data): Data {
    if Sized(fs, a) && Sized(fs, b) then AggrUpTo(fs, |fs|, a, b) else a
  }

  function AggrFor(fs: seq<Fld>): (Data, Data) -> Data {
    (a, b) => Aggr(fs, a, b)
  }

  lemma TakeConcat(x: Data, y: Data, n: nat)
    requires n <= |x|
    ensures (x + y)[..n] == x[..n]
  {}

  lemma {:induction false} AggrUpToKeeps(fs: seq<Fld>, i: nat, j: nat, a: Data, b: Data)
    requires i <= j <= |fs| && Sized(fs, a) && Sized(fs, b)
    ensures Offset(fs, i) <= Offset(fs, j) && AggrUpTo(fs, j, a, b)[..Offset(fs, i)] == AggrUpTo(fs, i, a, b)
  {
    if i < j {
      AggrUpToKeeps(fs, i, j - 1, a, b);
      TakeConcat(AggrUpTo(fs, j - 1, a, b), Combine(fs[j - 1].op, Part(fs, a, j - 1), Part(fs, b, j - 1)), Offset(fs, i));
    }
  }

  /** Every field is aggregated with its own function, and with nothing of its neighbours. */
  lemma PartOfAggr(fs: seq<Fld>, a: Data, b: Data, i: nat)
    requires i < |fs| && Sized(fs, a) && Sized(fs, b)
    ensures Sized(fs, Aggr(fs, a, b))
    ensures Part(fs, Aggr(fs, a, b), i) == Combine(fs[i].op, Part(fs, a, i), Part(fs, b, i))
  {
    var r, o := Aggr(fs, a, b), Offset(fs, i);
    AggrUpToKeeps(fs, i + 1, |fs|, a, b);
    assert r[o..o + fs[i].size] == r[..Offset(fs, i + 1)][o..];
  }

  lemma {:induction false} PartsDetermine(fs: seq<Fld>, a: Data, b: Data, i: nat)
    requires i <= |fs| && Sized(fs, a) && Sized(fs, b)
    requires forall j :: 0 <= j < i ==> Part(fs, a, j) == Part(fs, b, j)
    ensures Offset(fs, i) <= Total(fs) && a[..Offset(fs, i)] == b[..Offset(fs, i)]
  {
    OffsetMonotone(fs, i, |fs|);
    if i > 0 {
      PartsDetermine(fs, a, b, i - 1);
      var o := Offset(fs, i - 1);
      assert a[..o + fs[i - 1].size] == a[..o] + Part(fs, a, i - 1);
      assert b[..o + fs[i - 1].size] == b[..o] + Part(fs, b, i - 1);
    }
  }

  lemma SameParts(fs: seq<Fld>, a: Data, b: Data)
    requires Sized(fs, a) && Sized(fs, b)
    requires forall j :: 0 <= j < |fs| ==> Part(fs, a, j) == Part(fs, b, j)
    ensures a == b
  {
    PartsDetermine(fs, a, b, |fs|);
    assert a[..Total(fs)] == a && b[..Total(fs)] == b;
  }

  predicate Ordered(fs: seq<Fld>) {
    exists i :: 0 <= i < |fs| && fs[i].op == Empty
  }

  lemma AggrLaws(fs: seq<Fld>, a: Data, b: Data, c: Data)
    requires !Ordered(fs) && Sized(fs, a) && Sized(fs, b) && Sized(fs, c)
    ensures Sized(fs, Aggr(fs, a, b)) && Aggr(fs, a, b) == Aggr(fs, b, a)
    ensures Aggr(fs, Aggr(fs, a, b), c) == Aggr(fs, a, Aggr(fs, b, c))
  {
    var ab, bc := Aggr(fs, a, b), Aggr(fs, b, c);
    forall i | 0 <= i < |fs|
      ensures Part(fs, ab, i) == Part(fs, Aggr(fs, b, a), i)
      ensures Part(fs, Aggr(fs, ab, c), i) == Part(fs, Aggr(fs, a, bc), i)
    {
      PartOfAggr(fs, a, b, i);
      PartOfAggr(fs, b, a, i);
      PartOfAggr(fs, b, c, i);
      PartOfAggr(fs, ab, c, i);
      PartOfAggr(fs, a, bc, i);
      CombineLaws(fs[i].op, Part(fs, a, i), Part(fs, b, i), Part(fs, c, i));
    }
    SameParts(fs, ab, Aggr(fs, b, a));
    SameParts(fs, Aggr(fs, ab, c), Aggr(fs, a, bc));
  }

  /** A field without an aggregation function keeps the first value, so order shows. */
  lemma EmptyKeepsFirst(fs: seq<Fld>, i: nat) returns (a: Data, b: Data)
    requires i < |fs| && fs[i].op == Empty && fs[i].size > 0
    ensures Sized(fs, a) && Sized(fs, b) && Aggr(fs, a, b) != Aggr(fs, b, a)
  {
    a, b := seq(Total(fs), _ => 0), seq(Total(fs), _ => 1);
    PartOfAggr(fs, a, b, i);
    PartOfAggr(fs, b, a, i);
    OffsetMonotone(fs, i + 1, |fs|);
    assert a[Offset(fs, i)] == 0 && b[Offset(fs, i)] == 1;
    assert Part(fs, a, i)[0] == 0 && Part(fs, b, i)[0] == 1;
  }

  /** Value buffers aggregate in any order and grouping exactly when every field has an aggregation
      function. */
  lemma OrderIndependent(fs: seq<Fld>)
    requires forall i :: 0 <= i < |fs| ==> fs[i].size > 0
    ensures MergeThreads.Law(AggrFor(fs), SizedFor(fs)) <==> !Ordered(fs)
  {
    if Ordered(fs) {
      var i :| 0 <= i < |fs| && fs[i].op == Empty;
      var a, b := EmptyKeepsFirst(fs, i);
      assert MergeThreads.On(a, b, b);
      assert AggrFor(fs)(a, b) != AggrFor(fs)(b, a) && SizedFor(fs)(a) && SizedFor(fs)(b);
    } else {
      forall a, b, c | SizedFor(fs)(a) && SizedFor(fs)(b) && SizedFor(fs)(c)
        ensures SizedFor(fs)(Aggr(fs, a, b)) && Aggr(fs, a, b) == Aggr(fs, b, a)
        ensures Aggr(fs, Aggr(fs, a, b), c) == Aggr(fs, a, Aggr(fs, b, c))
      {
        AggrLaws(fs, a, b, c);
      }
    }
  }

  // ---------- the callback ----------

  /** The first i fields of a aggregated with those of u, the rest of a as it was. */
  ghost function State(fs: seq<Fld>, i: nat, a: Data, u: Data): Data
    requires i <= |fs| && Sized(fs, a) && Sized(fs, u)
  {
    OffsetMonotone(fs, i, |fs|);
    AggrUpTo(fs, i, a, u) + a[Offset(fs, i)..]
  }

  /** cur becomes next when field f at off aggregates what u has there. */
  ghost predicate Step(f: Fld, off: nat, u: Data, cur: Data, next: Data) {
    && off + f.size <= |cur| == |u|
    && next == Patch(cur, off, Combine(f.op, cur[off..off + f.size], u[off..off + f.size]))
  }

  /** p is what the fields so far have become, c what field f becomes. */
  lemma StepFrom(f: Fld, a: Data, u: Data, p: Data, c: Data)
    requires |p| + f.size <= |a| == |u|
    requires c == Combine(f.op, a[|p|..|p| + f.size], u[|p|..|p| + f.size])
    ensures Step(f, |p|, u, p + a[|p|..], p + c + a[|p| + f.size..])
  {
    PatchNext(p, a, p + a[|p|..], c);
  }

  lemma StateStep(fs: seq<Fld>, i: nat, a: Data, u: Data)
    requires i < |fs| && Sized(fs, a) && Sized(fs, u)
    ensures Step(fs[i], Offset(fs, i), u, State(fs, i, a, u), State(fs, i + 1, a, u))
  {
    OffsetMonotone(fs, i + 1, |fs|);
    StepFrom(fs[i], a, u, AggrUpTo(fs, i, a, u), Combine(fs[i].op, Part(fs, a, i), Part(fs, u, i)));
  }

  ghost predicate StepOf(fs: seq<Fld>, steps: seq<Data>, i: nat, u: Data)
    requires i < |fs| == |steps| - 1
  {
    Step(fs[i], Offset(fs, i), u, steps[i], steps[i + 1])
  }

  /** Each buffer of steps becomes the next one when a field is aggregated. */
  ghost predicate Leads(fs: seq<Fld>, steps: seq<Data>, u: Data) {
    |steps| == |fs| + 1 && forall i {:trigger StepOf(fs, steps, i, u)} :: 0 <= i < |fs| ==> StepOf(fs, steps, i, u)
  }

  /** The buffers that a turns into, field by field. */
  lemma Steps(fs: seq<Fld>, a: Data, u: Data) returns (steps: seq<Data>)
    requires Sized(fs, a) && Sized(fs, u)
    ensures Leads(fs, steps, u) && steps[0] == a && steps[|fs|] == Aggr(fs, a, u)
  {
    steps := seq(|fs| + 1, i requires 0 <= i <= |fs| => State(fs, i, a, u));
    forall i | 0 <= i < |fs| ensures StepOf(fs, steps, i, u) {
      StateStep(fs, i, a, u);
    }
    assert a[Total(fs)..] == [];
  }

  /** One call of aggr_func. */
  method AggrField(node: Node, hval: array<byte>, uval: array<byte>, ghost next: Data)
    requires Step(node.fld, node.offset, uval[..], hval[..], next) && hval != uval
    modifies hval
    ensures hval[..] == next
  {
    var h := Load(hval, node.offset, node.fld.size);
    var u := Load(uval, node.offset, node.fld.size);
    Copy(hval, node.offset, Combine(node.fld.op, h, u));
  }

  /** One turn of the loop: the i-th field. */
  method AggrNext(list: FieldList, fld: Node, hval: array<byte>, uval: array<byte>, ghost steps: seq<Data>, ghost i: nat)
    requires list.Valid() && i < |list.flds| && fld == list.At(i) && hval != uval
    requires Leads(list.flds, steps, uval[..]) && hval[..] == steps[i]
    modifies hval
    ensures hval[..] == steps[i + 1]
  {
    assert StepOf(list.flds, steps, i, uval[..]);
    AggrField(fld, hval, uval, steps[i + 1]);
  }

  /** The walk over the value list. */
  method AggrWalk(list: FieldList, hval: array<byte>, uval: array<byte>, ghost steps: seq<Data>)
    requires list.Valid() && hval != uval && Leads(list.flds, steps, uval[..]) && hval[..] == steps[0]
    modifies hval
    ensures hval[..] == steps[|list.flds|]
  {
    var fld := list.first;
    ghost var i := 0;
    while fld != null
      invariant i <= |list.flds| && fld == list.At(i)
      invariant hval[..] == steps[i]
      decreases |list.flds| - i
    {
      AggrNext(list, fld, hval, uval, steps, i);
      fld := fld.next;
      i := i + 1;
    }
  }

  /** lnf_mem_aggr_callback: hval is the row's buffer, uval the one that is added. */
  method AggrCallback(list: FieldList, hval: array<byte>, uval: array<byte>)
    requires list.Valid() && hval.Length == uval.Length == Total(list.flds) && hval != uval
    modifies hval
    ensures hval[..] == Aggr(list.flds, old(hval[..]), uval[..])
  {
    ghost var steps := Steps(list.flds, hval[..], uval[..]);
    AggrWalk(list, hval, uval, steps);
  }

  // ---------- what a row ends up with ----------

  ghost predicate AllSized(fs: seq<Fld>, log: seq<Item<Data, Data>>) {
    forall j :: 0 <= j < |log| ==> Sized(fs, log[j].val)
  }

  /** Field i of the values logged under k, in order. */
  ghost function Column(fs: seq<Fld>, log: seq<Item<Data, Data>>, k: Data, i: nat): (r: seq<Data>)
    requires i < |fs| && AllSized(fs, log)
    ensures forall d :: d in r ==> |d| == fs[i].size
  {
    if log == [] then []
    else
      var last := log[|log| - 1];
      var before := Column(fs, log[..|log| - 1], k, i);
      if last.key == k then before + [Part(fs, last.val, i)] else before
  }

  function Fold(op: Op, col: seq<Data>, n: nat): (r: Data)
    requires col != [] && forall d :: d in col ==> |d| == n
    ensures |r| == n
  {
    if |col| == 1 then col[0] else Combine(op, Fold(op, col[..|col| - 1], n), col[|col| - 1])
  }

  /** Row value r, seen at field i, is the fold of col. */
  ghost predicate Folds(fs: seq<Fld>, i: nat, r: Option<Data>, col: seq<Data>)
    requires i < |fs| && forall d :: d in col ==> |d| == fs[i].size
  {
    match r
    case None => col == []
    case Some(d) => col != [] && Sized(fs, d) && Part(fs, d, i) == Fold(fs[i].op, col, fs[i].size)
  }

  lemma FoldSnoc(op: Op, col: seq<Data>, d: Data, n: nat)
    requires |d| == n && forall c :: c in col ==> |c| == n
    ensures Fold(op, col + [d], n) == if col == [] then d else Combine(op, Fold(op, col, n), d)
  {}

  lemma FoldsStep(fs: seq<Fld>, i: nat, r: Option<Data>, col: seq<Data>, d: Data)
    requires i < |fs| && forall c :: c in col ==> |c| == fs[i].size
    requires Folds(fs, i, r, col) && Sized(fs, d)
    ensures Folds(fs, i, Plus(r, Some(d), AggrFor(fs)), col + [Part(fs, d, i)])
  {
    FoldSnoc(fs[i].op, col, Part(fs, d, i), fs[i].size);
    if r.Some? {
      PartOfAggr(fs, r.value, d, i);
    }
  }

  /** A row's field is the fold of that field over everything written under the row's key. */
  lemma {:induction false} FoldedColumn(fs: seq<Fld>, log: seq<Item<Data, Data>>, k: Data, i: nat)
    requires i < |fs| && AllSized(fs, log)
    ensures Folds(fs, i, Folded(log, k, AggrFor(fs)), Column(fs, log, k, i))
  {
    if log != [] {
      var last, init := log[|log| - 1], log[..|log| - 1];
      FoldedColumn(fs, init, k, i);
      if last.key == k {
        FoldsStep(fs, i, Folded(init, k, AggrFor(fs)), Column(fs, init, k, i), last.val);
      }
    }
  }

  function SumOf(col: seq<Data>): nat {
    if col == [] then 0 else SumOf(col[..|col| - 1]) + LeVal(col[|col| - 1])
  }

  /** Counters add up, in the width of the field. */
  lemma {:induction false} FoldSum(col: seq<Data>, n: nat)
    requires col != [] && forall d :: d in col ==> |d| == n
    ensures Fold(Sum, col, n) == LePut(SumOf(col), n)
  {
    if |col| == 1 {
      assert SumOf(col[..0]) == 0;
      PutVal(col[0]);
    } else {
      FoldSum(col[..|col| - 1], n);
      PutAdd(SumOf(col[..|col| - 1]), LeVal(col[|col| - 1]), n);
    }
  }

  /** MIN and MAX find the least and the greatest value written. */
  lemma {:induction false} FoldExtreme(col: seq<Data>, n: nat, j: nat)
    requires j < |col| && forall d :: d in col ==> |d| == n
    ensures Fold(Min, col, n) in col && LeVal(Fold(Min, col, n)) <= LeVal(col[j])
    ensures Fold(Max, col, n) in col && LeVal(Fold(Max, col, n)) >= LeVal(col[j])
  {
    if |col| > 1 {
      var init := col[..|col| - 1];
      FoldExtreme(init, n, if j < |init| then j else 0);
    }
  }

  predicate AnyBit(col: seq<Data>, k: nat)
    requires forall j :: 0 <= j < |col| ==> k < 8 * |col[j]|
  {
    exists j :: 0 <= j < |col| && ToBits(col[j])[k]
  }

  lemma SomeBit(col: seq<Data>, k: nat)
    requires |col| > 1 && forall j :: 0 <= j < |col| ==> k < 8 * |col[j]|
    ensures AnyBit(col, k)
            <==> ToBits(col[|col| - 1])[k] || AnyBit(col[..|col| - 1], k)
  {}

  lemma OrAt(a: Data, b: Data, k: nat)
    requires |a| == |b| && k < 8 * |a|
    ensures ToBits(Combine(Or, a, b))[k] <==> ToBits(a)[k] || ToBits(b)[k]
  {
    ToFromBits(OrBits(ToBits(a), ToBits(b)));
  }

  /** OR collects the bits: one is set exactly when some value has it. */
  lemma {:induction false} FoldOr(col: seq<Data>, n: nat, k: nat)
    requires col != [] && k < 8 * n && forall d :: d in col ==> |d| == n
    ensures ToBits(Fold(Or, col, n))[k] <==> AnyBit(col, k)
  {
    if |col| == 1 {
      assert ToBits(col[0])[k] <==> AnyBit(col, k);
    } else {
      var init, last := col[..|col| - 1], col[|col| - 1];
      FoldOr(init, n, k);
      OrAt(Fold(Or, init, n), last, k);
      SomeBit(col, k);
    }
  }
}
