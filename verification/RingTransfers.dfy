/** What is asked of the ring and what comes out of it: records written by lnf_ring_write as they reach
    lnf_ring_read (src/lnf_ringbuf.c:140-245). */
module RingTransfers {
  import opened RingBuffer
  import opened TableSpec

  // ---------- runs by their last step ----------

  lemma {:induction false} RunConcat(s: State, a: seq<Action>, m: State, b: seq<Action>, end: State)
    requires Run(s, a, m) && Run(m, b, end)
    ensures Run(s, a + b, end)
    decreases |a|
  {
    if a == [] {
      assert a + b == b;
    } else {
      RunConcat(Apply(s, a[0]), a[1..], m, b, end);
      assert (a + b)[1..] == a[1..] + b;
    }
  }

  lemma RunSnoc(s: State, acts: seq<Action>, m: State, a: Action)
    requires Run(s, acts, m) && Shape(m) && Enabled(m, a)
    ensures Run(s, acts + [a], Apply(m, a))
  {
    assert [a][1..] == [];
    RunConcat(s, acts, m, [a], Apply(m, a));
  }

  lemma {:induction false} RunSplit(s: State, a: seq<Action>, b: seq<Action>, end: State) returns (m: State)
    requires Run(s, a + b, end)
    ensures Run(s, a, m) && Run(m, b, end)
    decreases |a|
  {
    if a == [] {
      assert a + b == b;
      m := s;
    } else {
      assert (a + b)[1..] == a[1..] + b;
      m := RunSplit(Apply(s, a[0]), a[1..], b, end);
    }
  }

  /** The state before the last step. */
  lemma BeforeLast(s: State, acts: seq<Action>, end: State) returns (m: State)
    requires acts != [] && Run(s, acts, end)
    ensures Run(s, acts[..|acts| - 1], m) && Shape(m) && Enabled(m, acts[|acts| - 1]) && Apply(m, acts[|acts| - 1]) == end
  {
    var n := |acts| - 1;
    assert acts == acts[..n] + [acts[n]];
    m := RunSplit(s, acts[..n], [acts[n]], end);
    assert [acts[n]][1..] == [];
  }

  // ---------- what a write publishes ----------

  /** The value of the last WCell for cell i. */
  function LastCell(acts: seq<Action>, i: nat): Option<Cell> {
    if acts == [] then None
    else
      var a := acts[|acts| - 1];
      if a.WCell? && a.i == i then Some(a.v) else LastCell(acts[..|acts| - 1], i)
  }

  /** Between taking an entry and publishing it: the writer writes cells, readers do what they like. */
  predicate InWindow(acts: seq<Action>) {
    forall k :: 0 <= k < |acts| ==> !acts[k].WAcquire? && !acts[k].WPublish? && !acts[k].WAbort?
  }

  predicate CellIs(d: seq<Cell>, i: nat, v: Option<Cell>, otherwise: Cell) {
    i < |d| && d[i] == if v.Some? then v.value else otherwise
  }

  /** d has in each cell what acts wrote there last, and where they wrote nothing what was has. */
  ghost predicate Overwritten(d: seq<Cell>, was: seq<Cell>, acts: seq<Action>) {
    |d| == |was| && forall i {:trigger LastCell(acts, i)} :: 0 <= i < |was| ==> CellIs(d, i, LastCell(acts, i), was[i])
  }

  lemma LastCellStep(acts: seq<Action>, i: nat)
    requires acts != []
    ensures var a := acts[|acts| - 1];
            LastCell(acts, i) == if a.WCell? && a.i == i then Some(a.v) else LastCell(acts[..|acts| - 1], i)
  {}

  /** The entry that is being written. */
  function Current(s: State): seq<Cell>
    requires Shape(s)
  {
    s.entries[s.writePos].data
  }

  /** In the window a step of a reader leaves the cells of the entry alone. */
  lemma WindowStep(s: State, a: Action)
    requires Shape(s) && Enabled(s, a) && s.filling && !a.WAcquire? && !a.WPublish? && !a.WAbort?
    ensures var s' := Apply(s, a);
            && Shape(s') && s'.filling && s'.log == s.log && s'.writePos == s.writePos && |s'.entries| == |s.entries|
            && Current(s') == if a.WCell? then Current(s)[a.i := a.v] else Current(s)
  {}

  lemma {:induction false} WindowCells(s: State, acts: seq<Action>, s': State)
    requires Shape(s) && s.filling && InWindow(acts) && Run(s, acts, s')
    ensures Shape(s') && s'.filling && s'.log == s.log && s'.writePos == s.writePos
    ensures Overwritten(Current(s'), Current(s), acts)
    decreases |acts|
  {
    if acts != [] {
      var n := |acts| - 1;
      var m := BeforeLast(s, acts, s');
      WindowCells(s, acts[..n], m);
      WindowStep(m, acts[n]);
      forall i | 0 <= i < |Current(s)| ensures CellIs(Current(s'), i, LastCell(acts, i), Current(s)[i]) {
        LastCellStep(acts, i);
        assert CellIs(Current(m), i, LastCell(acts[..n], i), Current(s)[i]);
      }
    }
  }

  /** A write publishes the cells it was asked to write, on top of what stood in its entry, whatever the
      readers do meanwhile. */
  lemma WritePublishes(s: State, acts: seq<Action>, s': State)
    requires InWindow(acts) && Run(s, [WAcquire] + acts + [WPublish], s')
    ensures Shape(s) && |s'.log| == |s.log| + 1 && s'.log[..|s.log|] == s.log
    ensures Overwritten(s'.log[|s.log|], Current(s), acts)
  {
    var m := RunSplit(s, [WAcquire] + acts, [WPublish], s');
    var f := RunSplit(s, [WAcquire], acts, m);
    assert [WAcquire][1..] == [] && [WPublish][1..] == [];
    assert f == Apply(s, WAcquire);
    WindowCells(f, acts, m);
    assert s' == Apply(m, WPublish);
  }

  // ---------- what was asked, over whole runs ----------

  /** What was done since the writer last took an entry. */
  function Since(acts: seq<Action>): seq<Action> {
    if acts == [] then []
    else
      var a := acts[|acts| - 1];
      if a.WAcquire? then [] else Since(acts[..|acts| - 1]) + [a]
  }

  /** For every publication what was done since the writer took the entry. */
  function Windows(acts: seq<Action>): seq<seq<Action>> {
    if acts == [] then []
    else
      var init := acts[..|acts| - 1];
      Windows(init) + if acts[|acts| - 1].WPublish? then [Since(init)] else []
  }

  /** d has in each cell what acts wrote there last. */
  ghost predicate Asked(acts: seq<Action>, d: seq<Cell>) {
    forall i {:trigger LastCell(acts, i)} :: 0 <= i < |d| && LastCell(acts, i).Some? ==> d[i] == LastCell(acts, i).value
  }

  ghost predicate AllAsked(windows: seq<seq<Action>>, log: seq<seq<Cell>>) {
    |windows| == |log| && forall q :: 0 <= q < |log| ==> Asked(windows[q], log[q])
  }

  /** The log is what was asked for, and so are the cells of the entry that is being written. */
  ghost predicate History(s: State, acts: seq<Action>) {
    AllAsked(Windows(acts), s.log) && Shape(s) && (s.filling ==> Asked(Since(acts), Current(s)))
  }

  lemma SinceStep(acts: seq<Action>, d: seq<Cell>, e: seq<Cell>)
    requires acts != [] && !acts[|acts| - 1].WAcquire? && |e| == |d|
    requires Asked(Since(acts[..|acts| - 1]), d)
    requires var a := acts[|acts| - 1]; e == if a.WCell? && a.i < |d| then d[a.i := a.v] else d
    ensures Asked(Since(acts), e)
  {
    var n := |acts| - 1;
    var since := Since(acts[..n]);
    assert Since(acts)[..|since|] == since;
    forall i | 0 <= i < |e| && LastCell(Since(acts), i).Some? ensures e[i] == LastCell(Since(acts), i).value {
      LastCellStep(Since(acts), i);
      assert LastCell(since, i).Some? ==> d[i] == LastCell(since, i).value;
    }
  }

  lemma HistoryStep(m: State, acts: seq<Action>, s: State)
    requires acts != [] && History(m, acts[..|acts| - 1]) && Inv(m)
    requires Enabled(m, acts[|acts| - 1]) && s == Apply(m, acts[|acts| - 1])
    ensures History(s, acts)
  {
    var a := acts[|acts| - 1];
    InvStep(m, a);
    if a.WPublish? || a.WAbort? {
    } else if a.WAcquire? {
      assert Since(acts) == [];
    } else if m.filling {
      WindowStep(m, a);
      SinceStep(acts, Current(m), Current(s));
    }
  }

  lemma {:induction false} RunHistory(s: State, acts: seq<Action>, s': State)
    requires Init(s) && Run(s, acts, s')
    ensures History(s', acts)
    decreases |acts|
  {
    if acts != [] {
      var n := |acts| - 1;
      var m := BeforeLast(s, acts, s');
      RingSafe(s, acts[..n], m);
      RunHistory(s, acts[..n], m);
      HistoryStep(m, acts, s');
    }
  }

  /** In every run from a fresh ring a read with sequence number q gets, in each cell that the q-th
      publishing write wrote, the value that was written there last. */
  lemma ReadsAreAsked(s: State, acts: seq<Action>, s': State, r: nat, k: nat, i: nat)
    requires Init(s) && Run(s, acts, s') && r < |s'.readers| && k < |s'.readers[r].got| && i in s'.readers[r].got[k].seen
    ensures var g := s'.readers[r].got[k];
            && 1 <= g.sequence <= |Windows(acts)|
            && (var v := LastCell(Windows(acts)[g.sequence - 1], i); v.Some? ==> g.seen[i] == v.value)
  {
    RingSafe(s, acts, s');
    RunHistory(s, acts, s');
    ReadsAreWrites(s', r, k, k);
    var q := s'.readers[r].got[k].sequence - 1;
    assert Asked(Windows(acts)[q], s'.log[q]);
  }

  // ---------- a record goes through ----------

  /** The cells of d, written one after the other. */
  function WriteCells(d: seq<Cell>): seq<Action> {
    seq(|d|, i requires 0 <= i < |d| => WCell(i, d[i]))
  }

  lemma {:induction false} CellsWritten(s: State, d: seq<Cell>) returns (s': State)
    requires Shape(s) && s.filling && |d| <= |Current(s)|
    ensures Run(s, WriteCells(d), s') && Shape(s') && s'.filling && Current(s') == d + Current(s)[|d|..]
    ensures s' == SetEntry(s, s.writePos, s.entries[s.writePos].(data := Current(s')))
    decreases |d|
  {
    if d == [] {
      s' := s;
    } else {
      var n := |d| - 1;
      var m := CellsWritten(s, d[..n]);
      RunSnoc(s, WriteCells(d[..n]), m, WCell(n, d[n]));
      assert WriteCells(d) == WriteCells(d[..n]) + [WCell(n, d[n])];
      s' := Apply(m, WCell(n, d[n]));
      assert Current(s') == d + Current(s)[|d|..];
      assert s'.entries == s.entries[s.writePos := s.entries[s.writePos].(data := Current(s'))];
    }
  }

  /** Any record of the size of the entry can be written when the writer may take it. */
  lemma AnyRecordIsWritten(s: State, d: seq<Cell>) returns (s': State)
    requires Shape(s) && Enabled(s, WAcquire) && |d| == |Current(s)|
    ensures Run(s, [WAcquire] + WriteCells(d) + [WPublish], s')
    ensures s'.log == s.log + [d] && s'.readers == s.readers && |s'.entries| == |s.entries|
    ensures var e := s'.entries[s.writePos]; e.status == Read && e.sequence == s.lastWrite + 1 && e.data == d
  {
    var a := Apply(s, WAcquire);
    RunSnoc(s, [], s, WAcquire);
    assert [] + [WAcquire] == [WAcquire];
    var m := CellsWritten(a, d);
    RunConcat(s, [WAcquire], a, WriteCells(d), m);
    RunSnoc(s, [WAcquire] + WriteCells(d), m, WPublish);
    assert Current(m) == d;
    s' := Apply(m, WPublish);
  }

  /** A look at the first n cells. */
  function ReadCells(r: nat, n: nat): seq<Action> {
    seq(n, i requires 0 <= i < n => RCell(r, i))
  }

  function FirstCells(d: seq<Cell>, n: nat): map<nat, Cell>
    requires n <= |d|
  {
    map i: nat | i < n :: d[i]
  }

  /** Reader r has looked at the first n cells. */
  function HavingRead(s: State, r: nat, n: nat): State
    requires Shape(s) && r < |s.readers| && n <= |s.entries[s.readers[r].pos].data|
  {
    SetReader(s, r, s.readers[r].(phase := Reading(FirstCells(s.entries[s.readers[r].pos].data, n))))
  }

  lemma OneMoreCell(s: State, r: nat, n: nat)
    requires Shape(s) && r < |s.readers| && n < |s.entries[s.readers[r].pos].data|
    ensures var m := HavingRead(s, r, n);
            Shape(m) && Enabled(m, RCell(r, n)) && Apply(m, RCell(r, n)) == HavingRead(s, r, n + 1)
  {
    var d := s.entries[s.readers[r].pos].data;
    assert FirstCells(d, n)[n := d[n]] == FirstCells(d, n + 1);
    assert Apply(HavingRead(s, r, n), RCell(r, n)).readers == HavingRead(s, r, n + 1).readers;
  }

  lemma {:induction false} CellsRead(s: State, r: nat, n: nat)
    requires Shape(s) && r < |s.readers| && s.readers[r].phase == Reading(map[]) && n <= |s.entries[s.readers[r].pos].data|
    ensures Run(s, ReadCells(r, n), HavingRead(s, r, n))
  {
    if n == 0 {
      assert FirstCells(s.entries[s.readers[r].pos].data, 0) == map[];
      assert HavingRead(s, r, 0).readers == s.readers;
    } else {
      CellsRead(s, r, n - 1);
      OneMoreCell(s, r, n - 1);
      RunSnoc(s, ReadCells(r, n - 1), HavingRead(s, r, n - 1), RCell(r, n - 1));
      assert ReadCells(r, n) == ReadCells(r, n - 1) + [RCell(r, n - 1)];
    }
  }

  /** Taking an entry, looking at all of its cells, and leaving it with the record decoded. */
  function WholeRead(r: nat, n: nat): seq<Action> {
    [RAcquire(r)] + ReadCells(r, n) + ([RNote(r)] + [RRelease(r, true)])
  }

  lemma TakenEntry(s: State, r: nat) returns (a: State)
    requires Shape(s) && Enabled(s, RAcquire(r))
    ensures Run(s, [RAcquire(r)], a) && Shape(a) && r < |a.readers| && a.log == s.log
    ensures a.readers[r] == s.readers[r].(phase := Reading(map[]))
    ensures var i := s.readers[r].pos; a.entries[i] == s.entries[i].(numReaders := s.entries[i].numReaders + 1)
  {
    RunSnoc(s, [], s, RAcquire(r));
    assert [] + [RAcquire(r)] == [RAcquire(r)];
    a := Apply(s, RAcquire(r));
  }

  lemma LeftEntry(s: State, r: nat) returns (s': State)
    requires Shape(s) && r < |s.readers| && s.readers[r].phase.Reading? && s.entries[s.readers[r].pos].numReaders > 0
    ensures Run(s, [RNote(r)] + [RRelease(r, true)], s') && s'.log == s.log && r < |s'.readers|
    ensures var x, q := s.readers[r], s.entries[s.readers[r].pos].sequence;
            && s'.readers[r].got == x.got + [Got(q, x.phase.seen)] && s'.readers[r].phase == Idle && s'.readers[r].total == x.total + 1
  {
    RunSnoc(s, [], s, RNote(r));
    assert [] + [RNote(r)] == [RNote(r)];
    var c := Apply(s, RNote(r));
    RunSnoc(s, [RNote(r)], c, RRelease(r, true));
    s' := Apply(c, RRelease(r, true));
  }

  /** A reader whose entry holds something new can read all of it. */
  lemma AnyRecordIsRead(s: State, r: nat) returns (s': State)
    requires Shape(s) && Enabled(s, RAcquire(r))
    ensures var e := s.entries[s.readers[r].pos];
            && Run(s, WholeRead(r, |e.data|), s') && r < |s'.readers|
            && s'.readers[r].got == s.readers[r].got + [Got(e.sequence, FirstCells(e.data, |e.data|))]
            && s'.log == s.log && s'.readers[r].phase == Idle && s'.readers[r].total == s.readers[r].total + 1
  {
    var n := |s.entries[s.readers[r].pos].data|;
    var a := TakenEntry(s, r);
    CellsRead(a, r, n);
    RunConcat(s, [RAcquire(r)], a, ReadCells(r, n), HavingRead(a, r, n));
    s' := LeftEntry(HavingRead(a, r, n), r);
    RunConcat(s, [RAcquire(r)] + ReadCells(r, n), HavingRead(a, r, n), [RNote(r)] + [RRelease(r, true)], s');
  }

  lemma LastPublished(got: seq<Got>, log: seq<seq<Cell>>)
    requires GotOK(got, log)
    ensures LastOf(got) <= |log|
  {}

  /** A record goes through whole: from any state in which the writer may write and a reader is up to date,
      whatever is written next can be read by it cell for cell. */
  lemma RecordGoesThrough(s: State, r: nat, d: seq<Cell>) returns (acts: seq<Action>, s': State)
    requires Inv(s) && Enabled(s, WAcquire) && |d| == |Current(s)|
    requires r < |s.readers| && s.readers[r].phase.Idle? && s.readers[r].pos == s.writePos
    ensures Run(s, acts, s') && s'.log == s.log + [d] && r < |s'.readers|
    ensures s'.readers[r].got == s.readers[r].got + [Got(s.lastWrite + 1, FirstCells(d, |d|))]
  {
    var m := AnyRecordIsWritten(s, d);
    assert ReaderOK(s, r);
    LastPublished(s.readers[r].got, s.log);
    RunInv(s, [WAcquire] + WriteCells(d) + [WPublish], m);
    s' := AnyRecordIsRead(m, r);
    RunConcat(s, [WAcquire] + WriteCells(d) + [WPublish], m, WholeRead(r, |d|), s');
    acts := [WAcquire] + WriteCells(d) + [WPublish] + WholeRead(r, |d|);
  }
}
