/** The shared ring buffer (src/lnf_ringbuf.c:97-245) as steps of one writer and any number of readers.
    Every step is one critical section under the shm lock, or one access to an entry outside of it: a
    cell written, a cell read, the sequence number looked at.  The lock is always obtained and the stuck
    limit never fires. */
module RingBuffer {
  import opened Remainder
  import opened Seqs

  type Cell = int

  datatype EntryStatus = Empty | Write | Read

  datatype Entry = Entry(status: EntryStatus, numReaders: nat, sequence: nat, data: seq<Cell>)

  /** A reader between lnf_ring_read calls, decoding (cells seen so far), or past the bookkeeping and
      about to release the entry. */
  datatype ReaderPhase = Idle | Reading(seen: map<nat, Cell>) | Noted

  /** What one read got: the sequence number it took for it and the cells it looked at. */
  datatype Got = Got(sequence: nat, seen: map<nat, Cell>)

  /** pos, last, lost and total are read_pos, last_read_sequence, lost_counter and total_counter; got and
      clean are history: all reads, and whether every decode so far succeeded. */
  datatype Reader = Reader(pos: nat, last: nat, lost: int, total: nat, phase: ReaderPhase, got: seq<Got>, clean: bool)

  /** log is history: the cells of every published write; the write with sequence number q is log[q - 1]. */
  datatype State = State(lastWrite: nat, writePos: nat, filling: bool, entries: seq<Entry>, readers: seq<Reader>, log: seq<seq<Cell>>)

  datatype Action =
    | WAcquire
    | WCell(i: nat, v: Cell)
    | WPublish
    | WAbort
    | Join
    | RAcquire(r: nat)
    | RCell(r: nat, i: nat)
    | RNote(r: nat)
    | RRelease(r: nat, decoded: bool)

  /** lnf_ring_next */
  function Next(index: nat, size: nat): nat {
    if index + 1 >= size then 0 else index + 1
  }

  predicate Shape(s: State) {
    s.writePos < |s.entries| && forall r :: 0 <= r < |s.readers| ==> s.readers[r].pos < |s.entries|
  }

  predicate Enabled(s: State, a: Action)
    requires Shape(s)
  {
    match a
    case WAcquire => !s.filling && s.entries[s.writePos].numReaders == 0
    case WCell(i, _) => s.filling && i < |s.entries[s.writePos].data|
    case WPublish => s.filling
    case WAbort => s.filling
    case Join => true
    case RAcquire(r) =>
      r < |s.readers| && s.readers[r].phase.Idle? &&
      var e := s.entries[s.readers[r].pos];
      e.status == Read && e.sequence > s.readers[r].last
    case RCell(r, i) => r < |s.readers| && s.readers[r].phase.Reading? && i < |s.entries[s.readers[r].pos].data|
    case RNote(r) => r < |s.readers| && s.readers[r].phase.Reading?
    case RRelease(r, _) => r < |s.readers| && s.readers[r].phase.Noted? && s.entries[s.readers[r].pos].numReaders > 0
  }

  function SetEntry(s: State, i: nat, e: Entry): State
    requires i < |s.entries|
  {
    s.(entries := s.entries[i := e])
  }

  function SetReader(s: State, r: nat, x: Reader): State
    requires r < |s.readers|
  {
    s.(readers := s.readers[r := x])
  }

  function Apply(s: State, a: Action): State
    requires Shape(s) && Enabled(s, a)
  {
    var w := s.writePos;
    match a
    case WAcquire => SetEntry(s, w, s.entries[w].(status := Write)).(filling := true)
    case WCell(i, v) => SetEntry(s, w, s.entries[w].(data := s.entries[w].data[i := v]))
    case WPublish =>
      SetEntry(s, w, s.entries[w].(status := Read, sequence := s.lastWrite + 1))
        .(lastWrite := s.lastWrite + 1, writePos := Next(w, |s.entries|), filling := false, log := s.log + [s.entries[w].data])
    case WAbort => SetEntry(s, w, s.entries[w].(status := Empty)).(filling := false)
    case Join => s.(readers := s.readers + [Reader(0, 0, 0, 0, Idle, [], true)])
    case RAcquire(r) =>
      var x := s.readers[r];
      SetReader(SetEntry(s, x.pos, s.entries[x.pos].(numReaders := s.entries[x.pos].numReaders + 1)), r, x.(phase := Reading(map[])))
    case RCell(r, i) =>
      var x := s.readers[r];
      SetReader(s, r, x.(phase := Reading(x.phase.seen[i := s.entries[x.pos].data[i]])))
    case RNote(r) =>
      var x := s.readers[r];
      var q := s.entries[x.pos].sequence;
      SetReader(s, r, x.(lost := if x.last + 1 != q then x.lost + (q - x.last + 1) else x.lost, last := q,
                         phase := Noted, got := x.got + [Got(q, x.phase.seen)]))
    case RRelease(r, decoded) =>
      var x := s.readers[r];
      SetReader(SetEntry(s, x.pos, s.entries[x.pos].(numReaders := s.entries[x.pos].numReaders - 1)), r,
        x.(phase := Idle, pos := if decoded then Next(x.pos, |s.entries|) else x.pos,
           total := if decoded then x.total + 1 else x.total, clean := x.clean && decoded))
  }

  /** A fresh ring of any size with zeroed entries, and nobody connected yet. */
  predicate Init(s: State) {
    && 0 < |s.entries| && s.lastWrite == 0 && s.writePos == 0 && !s.filling && s.readers == [] && s.log == []
    && forall i :: 0 <= i < |s.entries| ==> s.entries[i].status == Empty && s.entries[i].numReaders == 0 && s.entries[i].sequence == 0
  }

  // ---------- the invariant ----------

  /** The sequence number in entry i is the newest one that belongs there; 0 stands for none. */
  ghost predicate SequenceOK(s: State, i: nat)
    requires i < |s.entries|
  {
    var q, n := s.entries[i].sequence, |s.entries|;
    if q == 0 then s.lastWrite <= i
    else q <= s.lastWrite < q + n && Slot(q - 1, n) == i
  }

  ghost predicate StatusOK(s: State, i: nat)
    requires i < |s.entries|
  {
    var e := s.entries[i];
    && (e.status == Read ==> 0 < e.sequence <= |s.log| && e.data == s.log[e.sequence - 1])
    && (if i == s.writePos then s.filling <==> e.status == Write
        else e.status == if e.sequence == 0 then Empty else Read)
  }

  predicate At(x: Reader, i: nat) {
    !x.phase.Idle? && x.pos == i
  }

  function CountAt(i: nat): Reader -> nat {
    x => if At(x, i) then 1 else 0
  }

  /** How many readers are inside entry i. */
  ghost function Inside(readers: seq<Reader>, i: nat): nat {
    Sum(CountAt(i), readers)
  }

  ghost predicate Agrees(seen: map<nat, Cell>, data: seq<Cell>) {
    forall i :: i in seen ==> i < |data| && seen[i] == data[i]
  }

  function LastOf(got: seq<Got>): nat {
    if got == [] then 0 else got[|got| - 1].sequence
  }

  /** Records that passed by unread before each read, all together. */
  function Skipped(got: seq<Got>): int {
    if got == [] then 0
    else Skipped(got[..|got| - 1]) + got[|got| - 1].sequence - LastOf(got[..|got| - 1]) - 1
  }

  function Gaps(got: seq<Got>): nat {
    if got == [] then 0
    else Gaps(got[..|got| - 1]) + if got[|got| - 1].sequence == LastOf(got[..|got| - 1]) + 1 then 0 else 1
  }

  /** Every read returned what the write with its sequence number had published, and the numbers rise. */
  ghost predicate GotOK(got: seq<Got>, log: seq<seq<Cell>>)
    decreases |got|
  {
    got != [] ==>
      var g, before := got[|got| - 1], got[..|got| - 1];
      && LastOf(before) < g.sequence <= |log| && Agrees(g.seen, log[g.sequence - 1])
      && GotOK(before, log)
  }

  /** Every gap is a whole number of rounds. */
  ghost predicate WholeRounds(got: seq<Got>, n: nat)
    requires 0 < n
    decreases |got|
  {
    got != [] ==>
      var g, before := got[|got| - 1], got[..|got| - 1];
      g.sequence > LastOf(before) && (g.sequence - LastOf(before) - 1) % n == 0 && WholeRounds(before, n)
  }

  /** A read that is in the books but not yet released. */
  function Pending(x: Reader): nat {
    if x.phase.Noted? then 1 else 0
  }

  ghost predicate ReaderOK(s: State, r: nat)
    requires Shape(s) && r < |s.readers|
  {
    var x, n := s.readers[r], |s.entries|;
    var e := s.entries[x.pos];
    && x.last == LastOf(x.got) && GotOK(x.got, s.log) && x.lost == Skipped(x.got) + 2 * Gaps(x.got)
    && (x.clean ==> WholeRounds(x.got, n) && Slot(x.last, n) == if x.phase.Noted? then Next(x.pos, n) else x.pos)
    && (if x.clean then x.total + Pending(x) == |x.got| else x.total + Pending(x) <= |x.got|)
    && (!x.phase.Idle? ==> e.status == Read)
    && (x.phase.Reading? ==> x.last < e.sequence && Agrees(x.phase.seen, e.data))
    && (x.phase.Noted? ==> x.last == e.sequence)
  }

  ghost predicate Inv(s: State) {
    && Shape(s) && s.lastWrite == |s.log| && s.writePos == Slot(s.lastWrite, |s.entries|)
    && (forall i :: 0 <= i < |s.entries| ==> SequenceOK(s, i) && StatusOK(s, i) && s.entries[i].numReaders == Inside(s.readers, i))
    && (forall r :: 0 <= r < |s.readers| ==> ReaderOK(s, r))
  }

  // ---------- the invariant holds ----------

  lemma InsideChange(readers: seq<Reader>, r: nat, x: Reader, i: nat)
    requires r < |readers|
    ensures Inside(readers[r := x], i) + (if At(readers[r], i) then 1 else 0) == Inside(readers, i) + if At(x, i) then 1 else 0
  {
    SumUpdate(CountAt(i), readers, r, x);
  }

  lemma {:induction false} InsideCounts(readers: seq<Reader>, r: nat, i: nat)
    requires r < |readers| && At(readers[r], i)
    ensures Inside(readers, i) > 0
  {
    if r < |readers| - 1 {
      InsideCounts(readers[..|readers| - 1], r, i);
    }
  }

  lemma {:induction false} GotGrows(got: seq<Got>, log: seq<seq<Cell>>, d: seq<Cell>)
    requires GotOK(got, log)
    ensures GotOK(got, log + [d])
  {
    if got != [] {
      GotGrows(got[..|got| - 1], log, d);
    }
  }

  lemma InvInit(s: State)
    requires Init(s)
    ensures Inv(s)
  {}

  lemma WriterEntries(s: State, a: Action, i: nat)
    requires Inv(s) && Enabled(s, a) && (a.WAcquire? || a.WCell? || a.WAbort?) && i < |s.entries|
    ensures var s' := Apply(s, a);
            SequenceOK(s', i) && StatusOK(s', i) && s'.entries[i].numReaders == Inside(s'.readers, i)
  {
    assert SequenceOK(s, i) && StatusOK(s, i) && StatusOK(s, s.writePos);
  }

  lemma WriterReaders(s: State, a: Action, r: nat)
    requires Inv(s) && Enabled(s, a) && (a.WAcquire? || a.WCell? || a.WAbort?) && r < |s.readers|
    ensures Shape(Apply(s, a)) && ReaderOK(Apply(s, a), r)
  {
    var w := s.writePos;
    assert ReaderOK(s, r) && StatusOK(s, w) && s.entries[w].numReaders == Inside(s.readers, w);
    if At(s.readers[r], w) { InsideCounts(s.readers, r, w); }
  }

  /** While nobody is inside the entry at writePos, the writer may do what it likes to it. */
  lemma InvWriter(s: State, a: Action)
    requires Inv(s) && Enabled(s, a) && (a.WAcquire? || a.WCell? || a.WAbort?)
    ensures Inv(Apply(s, a))
  {
    var s' := Apply(s, a);
    forall i | 0 <= i < |s.entries|
      ensures SequenceOK(s', i) && StatusOK(s', i) && s'.entries[i].numReaders == Inside(s'.readers, i)
    {
      WriterEntries(s, a, i);
    }
    forall r | 0 <= r < |s.readers| ensures ReaderOK(s', r) {
      WriterReaders(s, a, r);
    }
  }

  lemma SequencePublish(s: State, i: nat)
    requires Inv(s) && Enabled(s, WPublish) && i < |s.entries|
    ensures SequenceOK(Apply(s, WPublish), i)
  {
    var n, l, q := |s.entries|, s.lastWrite, s.entries[i].sequence;
    assert SequenceOK(s, i);
    if q > 0 { SlotRound(q - 1, n); }
  }

  lemma PublishEntries(s: State, i: nat)
    requires Inv(s) && Enabled(s, WPublish) && i < |s.entries|
    ensures var s' := Apply(s, WPublish);
            SequenceOK(s', i) && StatusOK(s', i) && s'.entries[i].numReaders == Inside(s'.readers, i)
  {
    SequencePublish(s, i);
    SlotNext(s.lastWrite, |s.entries|);
    assert StatusOK(s, i) && StatusOK(s, s.writePos);
  }

  lemma PublishReaders(s: State, r: nat)
    requires Inv(s) && Enabled(s, WPublish) && r < |s.readers|
    ensures Shape(Apply(s, WPublish)) && ReaderOK(Apply(s, WPublish), r)
  {
    assert StatusOK(s, s.writePos) && ReaderOK(s, r);
    GotGrows(s.readers[r].got, s.log, s.entries[s.writePos].data);
  }

  lemma InvPublish(s: State)
    requires Inv(s) && Enabled(s, WPublish)
    ensures Inv(Apply(s, WPublish))
  {
    var s' := Apply(s, WPublish);
    SlotNext(s.lastWrite, |s.entries|);
    forall i | 0 <= i < |s.entries|
      ensures SequenceOK(s', i) && StatusOK(s', i) && s'.entries[i].numReaders == Inside(s'.readers, i)
    {
      PublishEntries(s, i);
    }
    forall r | 0 <= r < |s.readers| ensures ReaderOK(s', r) {
      PublishReaders(s, r);
    }
  }

  lemma JoinReaders(s: State, r: nat)
    requires Inv(s) && r < |Apply(s, Join).readers|
    ensures Shape(Apply(s, Join)) && ReaderOK(Apply(s, Join), r)
  {
    if r < |s.readers| {
      assert ReaderOK(s, r);
    } else {
      assert Apply(s, Join).readers[r] == Reader(0, 0, 0, 0, Idle, [], true);
    }
  }

  lemma InvJoin(s: State)
    requires Inv(s)
    ensures Inv(Apply(s, Join))
  {
    var s' := Apply(s, Join);
    assert s'.readers[..|s.readers|] == s.readers;
    forall i | 0 <= i < |s.entries|
      ensures SequenceOK(s', i) && StatusOK(s', i) && s'.entries[i].numReaders == Inside(s'.readers, i)
    {
      assert SequenceOK(s, i) && StatusOK(s, i);
    }
    forall r | 0 <= r < |s'.readers| ensures ReaderOK(s', r) {
      JoinReaders(s, r);
    }
  }

  /** What an entry keeps while readers come and go. */
  ghost predicate EntriesKept(s: State, s': State) {
    && |s'.entries| == |s.entries| && s'.log == s.log && s'.lastWrite == s.lastWrite
    && s'.writePos == s.writePos && s'.filling == s.filling
    && forall i :: 0 <= i < |s.entries| ==> s'.entries[i] == s.entries[i].(numReaders := s'.entries[i].numReaders)
  }

  /** A step of reader r: it is enough to look at r itself and at the reader counts. */
  lemma ReaderStep(s: State, s': State, r: nat)
    requires Inv(s) && EntriesKept(s, s') && r < |s.readers| && Shape(s')
    requires |s'.readers| == |s.readers| && s'.readers == s.readers[r := s'.readers[r]]
    requires forall i :: 0 <= i < |s.entries| ==> s'.entries[i].numReaders == Inside(s'.readers, i)
    requires ReaderOK(s', r)
    ensures Inv(s')
  {
    forall i | 0 <= i < |s.entries| ensures SequenceOK(s', i) && StatusOK(s', i) {
      assert SequenceOK(s, i) && StatusOK(s, i);
    }
    forall u | 0 <= u < |s.readers| ensures ReaderOK(s', u) {
      if u != r { assert ReaderOK(s, u); }
    }
  }

  /** The reader counts follow reader r. */
  lemma CountsFollow(s: State, s': State, r: nat)
    requires Inv(s) && r < |s.readers| && |s'.entries| == |s.entries|
    requires |s'.readers| == |s.readers| && s'.readers == s.readers[r := s'.readers[r]]
    requires forall i :: 0 <= i < |s.entries| ==>
      s'.entries[i].numReaders + (if At(s.readers[r], i) then 1 else 0) == s.entries[i].numReaders + if At(s'.readers[r], i) then 1 else 0
    ensures forall i :: 0 <= i < |s.entries| ==> s'.entries[i].numReaders == Inside(s'.readers, i)
  {
    forall i | 0 <= i < |s.entries| ensures s'.entries[i].numReaders == Inside(s'.readers, i) {
      InsideChange(s.readers, r, s'.readers[r], i);
    }
  }

  lemma InvAcquire(s: State, r: nat)
    requires Inv(s) && Enabled(s, RAcquire(r))
    ensures Inv(Apply(s, RAcquire(r)))
  {
    var s' := Apply(s, RAcquire(r));
    assert ReaderOK(s, r);
    CountsFollow(s, s', r);
    ReaderStep(s, s', r);
  }

  lemma InvCell(s: State, r: nat, i: nat)
    requires Inv(s) && Enabled(s, RCell(r, i))
    ensures Inv(Apply(s, RCell(r, i)))
  {
    var s' := Apply(s, RCell(r, i));
    assert ReaderOK(s, r);
    CountsFollow(s, s', r);
    ReaderStep(s, s', r);
  }

  lemma InvRelease(s: State, r: nat, decoded: bool)
    requires Inv(s) && Enabled(s, RRelease(r, decoded))
    ensures Inv(Apply(s, RRelease(r, decoded)))
  {
    var s' := Apply(s, RRelease(r, decoded));
    assert ReaderOK(s, r);
    CountsFollow(s, s', r);
    ReaderStep(s, s', r);
  }

  lemma GotMore(got: seq<Got>, g: Got, log: seq<seq<Cell>>)
    requires GotOK(got, log) && LastOf(got) < g.sequence <= |log| && Agrees(g.seen, log[g.sequence - 1])
    ensures GotOK(got + [g], log) && LastOf(got + [g]) == g.sequence
    ensures Skipped(got + [g]) == Skipped(got) + g.sequence - LastOf(got) - 1
    ensures Gaps(got + [g]) == Gaps(got) + if g.sequence == LastOf(got) + 1 then 0 else 1
  {
    assert (got + [g])[..|got|] == got;
  }

  lemma RoundsMore(got: seq<Got>, g: Got, n: nat, pos: nat)
    requires 0 < n && WholeRounds(got, n) && LastOf(got) < g.sequence
    requires Slot(LastOf(got), n) == Slot(g.sequence - 1, n) == pos
    ensures WholeRounds(got + [g], n) && Slot(g.sequence, n) == Next(pos, n)
  {
    assert (got + [g])[..|got|] == got;
    SlotSame(g.sequence - 1, LastOf(got), n);
    SlotNext(g.sequence - 1, n);
  }

  lemma ReadingFacts(s: State, r: nat)
    requires Inv(s) && r < |s.readers| && s.readers[r].phase.Reading?
    ensures var x, e := s.readers[r], s.entries[s.readers[r].pos];
            && LastOf(x.got) < e.sequence <= |s.log| && Agrees(x.phase.seen, s.log[e.sequence - 1])
            && Slot(e.sequence - 1, |s.entries|) == x.pos && e.status == Read
  {
    var x := s.readers[r];
    assert ReaderOK(s, r) && StatusOK(s, x.pos) && SequenceOK(s, x.pos);
  }

  lemma NoteReader(s: State, r: nat)
    requires Inv(s) && Enabled(s, RNote(r)) && ReaderOK(s, r)
    ensures ReaderOK(Apply(s, RNote(r)), r)
  {
    var x, n := s.readers[r], |s.entries|;
    var g := Got(s.entries[x.pos].sequence, x.phase.seen);
    ReadingFacts(s, r);
    GotMore(x.got, g, s.log);
    if x.clean {
      RoundsMore(x.got, g, n, x.pos);
    }
  }

  lemma InvNote(s: State, r: nat)
    requires Inv(s) && Enabled(s, RNote(r))
    ensures Inv(Apply(s, RNote(r)))
  {
    var s' := Apply(s, RNote(r));
    CountsFollow(s, s', r);
    assert ReaderOK(s, r);
    NoteReader(s, r);
    ReaderStep(s, s', r);
  }

  lemma InvStep(s: State, a: Action)
    requires Inv(s) && Enabled(s, a)
    ensures Inv(Apply(s, a))
  {
    match a {
      case WAcquire => InvWriter(s, a);
      case WCell(_, _) => InvWriter(s, a);
      case WPublish => InvPublish(s);
      case WAbort => InvWriter(s, a);
      case Join => InvJoin(s);
      case RAcquire(r) => InvAcquire(s, r);
      case RCell(r, i) => InvCell(s, r, i);
      case RNote(r) => InvNote(s, r);
      case RRelease(r, decoded) => InvRelease(s, r, decoded);
    }
  }

  // ---------- whole runs ----------

  ghost predicate Run(s: State, acts: seq<Action>, s': State)
    decreases |acts|
  {
    if acts == [] then s == s' else Shape(s) && Enabled(s, acts[0]) && Run(Apply(s, acts[0]), acts[1..], s')
  }

  lemma {:induction false} RunInv(s: State, acts: seq<Action>, s': State)
    requires Inv(s) && Run(s, acts, s')
    ensures Inv(s')
    decreases |acts|
  {
    if acts != [] {
      InvStep(s, acts[0]);
      RunInv(Apply(s, acts[0]), acts[1..], s');
    }
  }

  /** Every run from a fresh ring, whatever its size and the interleaving, keeps the invariant. */
  lemma RingSafe(s: State, acts: seq<Action>, s': State)
    requires Init(s) && Run(s, acts, s')
    ensures Inv(s')
  {
    InvInit(s);
    RunInv(s, acts, s');
  }

  /** While the writer fills an entry, no reader is inside it. */
  lemma NoReaderInWriteWindow(s: State, r: nat)
    requires Inv(s) && s.filling && r < |s.readers|
    ensures !At(s.readers[r], s.writePos)
  {
    assert ReaderOK(s, r) && StatusOK(s, s.writePos);
  }

  /** While a reader is inside an entry, nobody changes its cells or its sequence number, although the
      reader does not hold the lock. */
  lemma EntryStable(s: State, a: Action, r: nat)
    requires Inv(s) && Enabled(s, a) && r < |s.readers| && !s.readers[r].phase.Idle?
    ensures var i := s.readers[r].pos;
            Apply(s, a).entries[i].data == s.entries[i].data && Apply(s, a).entries[i].sequence == s.entries[i].sequence
  {
    var i := s.readers[r].pos;
    assert ReaderOK(s, r) && StatusOK(s, i) && s.entries[i].numReaders == Inside(s.readers, i);
    InsideCounts(s.readers, r, i);
  }

  /** Entry i holds the newest record whose sequence number leads to i. */
  lemma EntryIsNewest(s: State, i: nat, q: nat)
    requires Inv(s) && i < |s.entries| && 1 <= q <= s.lastWrite && (q - 1) % |s.entries| == i
    ensures 0 < s.entries[i].sequence && q <= s.entries[i].sequence <= s.lastWrite
    ensures (s.entries[i].sequence - 1) % |s.entries| == i
  {
    var n, p := |s.entries|, s.entries[i].sequence;
    assert SequenceOK(s, i);
    SlotIsRemainder(q - 1, n);
    if p > 0 {
      SlotIsRemainder(p - 1, n);
      if q > p { SlotSame(q - 1, p - 1, n); }
    }
  }

  lemma WritePosition(s: State)
    requires Inv(s)
    ensures s.writePos == s.lastWrite % |s.entries|
  {
    SlotIsRemainder(s.lastWrite, |s.entries|);
  }

  lemma {:induction false} GotAt(got: seq<Got>, log: seq<seq<Cell>>, j: nat, k: nat)
    requires GotOK(got, log) && j <= k < |got|
    ensures 1 <= got[k].sequence <= |log| && Agrees(got[k].seen, log[got[k].sequence - 1])
    ensures j < k ==> got[j].sequence < got[k].sequence
    decreases |got|
  {
    var n := |got| - 1;
    if k < n {
      GotAt(got[..n], log, j, k);
    } else if j < n {
      GotAt(got[..n], log, j, n - 1);
    }
  }

  /** What reader r got in its k-th read is what the write with that sequence number published, and
      its sequence numbers strictly increase. */
  lemma ReadsAreWrites(s: State, r: nat, j: nat, k: nat)
    requires Inv(s) && r < |s.readers| && j <= k < |s.readers[r].got|
    ensures var got := s.readers[r].got;
            && 1 <= got[k].sequence <= |s.log|
            && (forall i :: i in got[k].seen ==> i < |s.log[got[k].sequence - 1]| && got[k].seen[i] == s.log[got[k].sequence - 1][i])
            && (j < k ==> got[j].sequence < got[k].sequence)
  {
    assert ReaderOK(s, r);
    GotAt(s.readers[r].got, s.log, j, k);
  }

  /** As long as all decodes of a reader succeed, its position follows its sequence number. */
  lemma PositionFollows(s: State, r: nat)
    requires Inv(s) && r < |s.readers| && s.readers[r].clean && !s.readers[r].phase.Noted?
    ensures s.readers[r].pos == s.readers[r].last % |s.entries|
    ensures WholeRounds(s.readers[r].got, |s.entries|)
  {
    assert ReaderOK(s, r);
    SlotIsRemainder(s.readers[r].last, |s.entries|);
  }

  /** total_counter never exceeds the number of reads, and is that number for a reader whose decodes have all
      succeeded. */
  lemma TotalCounter(s: State, r: nat)
    requires Inv(s) && r < |s.readers| && !s.readers[r].phase.Noted?
    ensures var x := s.readers[r]; x.total <= |x.got| && (x.clean ==> x.total == |x.got|)
  {
    assert ReaderOK(s, r);
  }

  lemma {:induction false} SkippedTotal(got: seq<Got>)
    ensures Skipped(got) == LastOf(got) - |got|
  {
    if got != [] {
      SkippedTotal(got[..|got| - 1]);
    }
  }

  /** lost_counter is the number of records that were not read, plus 2 for every gap. */
  lemma LostCounter(s: State, r: nat)
    requires Inv(s) && r < |s.readers|
    ensures var x := s.readers[r]; x.lost == x.last - |x.got| + 2 * Gaps(x.got)
  {
    assert ReaderOK(s, r);
    SkippedTotal(s.readers[r].got);
  }

  lemma {:induction false} GapsMeanLoss(got: seq<Got>, log: seq<seq<Cell>>)
    requires GotOK(got, log)
    ensures LastOf(got) >= |got| && (Gaps(got) == 0 <==> LastOf(got) == |got|)
    decreases |got|
  {
    if got != [] {
      GapsMeanLoss(got[..|got| - 1], log);
    }
  }

  /** It is the number of lost records exactly for a reader that has lost none. */
  lemma LostCounterExact(s: State, r: nat)
    requires Inv(s) && r < |s.readers|
    ensures var x := s.readers[r]; x.lost == x.last - |x.got| <==> x.last == |x.got|
  {
    assert ReaderOK(s, r);
    SkippedTotal(s.readers[r].got);
    GapsMeanLoss(s.readers[r].got, s.log);
  }

  lemma RunFirst(s: State, a: Action, t: State, acts: seq<Action>, s': State)
    requires Shape(s) && Enabled(s, a) && Apply(s, a) == t && Run(t, acts, s')
    ensures Run(s, [a] + acts, s')
  {
    var whole := [a] + acts;
    assert whole[0] == a && whole[1..] == acts;
  }

  /** A ring of one entry without cells. */
  function Single(lastWrite: nat, filling: bool, e: EntryStatus, numReaders: nat, readers: seq<Reader>, log: seq<seq<Cell>>): State {
    State(lastWrite, 0, filling, [Entry(e, numReaders, lastWrite, [])], readers, log)
  }

  lemma WriteSingle(s: State, acts: seq<Action>, s': State)
    requires s.entries != [] && s == Single(s.lastWrite, false, s.entries[0].status, 0, [], s.log)
    requires Run(Single(s.lastWrite + 1, false, Read, 0, [], s.log + [[]]), acts, s')
    ensures Run(s, [WAcquire, WPublish] + acts, s')
  {
    var t := Single(s.lastWrite, true, Write, 0, [], s.log);
    RunFirst(t, WPublish, Single(s.lastWrite + 1, false, Read, 0, [], s.log + [[]]), acts, s');
    RunFirst(s, WAcquire, t, [WPublish] + acts, s');
    assert [WAcquire] + ([WPublish] + acts) == [WAcquire, WPublish] + acts;
  }

  lemma ReadSingle(log: seq<seq<Cell>>) returns (end: State)
    ensures Run(Single(2, false, Read, 0, [], log), [Join] + ([RAcquire(0)] + [RNote(0)]), end)
    ensures end == Single(2, false, Read, 1, [Reader(0, 2, 3, 0, Noted, [Got(2, map[])], true)], log)
  {
    var x := Reader(0, 0, 0, 0, Idle, [], true);
    var y := x.(phase := Reading(map[]));
    end := Single(2, false, Read, 1, [Reader(0, 2, 3, 0, Noted, [Got(2, map[])], true)], log);
    assert y.got + [Got(2, map[])] == [Got(2, map[])];
    RunFirst(Single(2, false, Read, 1, [y], log), RNote(0), end, [], end);
    RunFirst(Single(2, false, Read, 0, [x], log), RAcquire(0), Single(2, false, Read, 1, [y], log), [RNote(0)], end);
    RunFirst(Single(2, false, Read, 0, [], log), Join, Single(2, false, Read, 0, [x], log), [RAcquire(0)] + [RNote(0)], end);
  }

  /** A ring of one entry is written twice before a reader comes: one record is lost and three are counted. */
  lemma OneLostThreeCounted() returns (start: State, acts: seq<Action>, end: State)
    ensures Init(start) && Run(start, acts, end) && |end.readers| == 1
    ensures var x := end.readers[0]; x.last == 2 && |x.got| == 1 && x.lost == 3
  {
    start := Single(0, false, Empty, 0, [], []);
    end := ReadSingle([] + [[]] + [[]]);
    acts := [Join] + ([RAcquire(0)] + [RNote(0)]);
    WriteSingle(Single(1, false, Read, 0, [], [] + [[]]), acts, end);
    WriteSingle(start, [WAcquire, WPublish] + acts, end);
    acts := [WAcquire, WPublish] + ([WAcquire, WPublish] + acts);
  }

  // ---------- the critical sections ----------

  /** The shared memory and its users; filling, log and what Reader keeps as history are only told along. */
  class Ring {
    const entries: array<Entry>
    var lastWrite: nat
    var writePos: nat
    var readers: seq<Reader>
    ghost var filling: bool
    ghost var log: seq<seq<Cell>>

    ghost function View(): State
      reads this, entries
    {
      State(lastWrite, writePos, filling, entries[..], readers, log)
    }

    constructor (size: nat, cells: nat)
      requires 0 < size
      ensures Init(View()) && |View().entries| == size && fresh(entries)
    {
      entries := new Entry[size](_ => Entry(Empty, 0, 0, seq(cells, _ => 0)));
      lastWrite, writePos, readers, filling, log := 0, 0, [], false, [];
    }

    /** lnf_ring_write up to its first unlock; false sends the writer round the waiting loop again. */
    method BeginWrite() returns (ok: bool)
      requires Shape(View()) && !filling
      modifies this, entries
      ensures ok <==> Enabled(old(View()), WAcquire)
      ensures View() == if ok then Apply(old(View()), WAcquire) else old(View())
    {
      var ent := entries[writePos];
      if ent.numReaders > 0 {
        return false;
      }
      entries[writePos] := ent.(status := Write);
      filling := true;
      return true;
    }

    /** The last critical section of lnf_ring_write, or the one after a failed encoding. */
    method EndWrite(encoded: bool)
      requires Shape(View()) && filling
      modifies this, entries
      ensures View() == Apply(old(View()), if encoded then WPublish else WAbort)
    {
      var ent := entries[writePos];
      filling := false;
      if encoded {
        lastWrite := lastWrite + 1;
        entries[writePos] := ent.(status := Read, sequence := lastWrite);
        log := log + [ent.data];
        writePos := Next(writePos, entries.Length);
      } else {
        entries[writePos] := ent.(status := Empty);
      }
    }

    /** lnf_ring_read up to its first unlock; false is LNF_EOF, or another round of the waiting loop. */
    method BeginRead(r: nat) returns (ok: bool)
      requires Shape(View()) && r < |readers| && readers[r].phase.Idle?
      modifies this, entries
      ensures ok <==> Enabled(old(View()), RAcquire(r))
      ensures View() == if ok then Apply(old(View()), RAcquire(r)) else old(View())
    {
      var x := readers[r];
      var ent := entries[x.pos];
      if ent.status != Read || ent.sequence <= x.last {
        return false;
      }
      entries[x.pos] := ent.(numReaders := ent.numReaders + 1);
      readers := readers[r := x.(phase := Reading(map[]))];
      return true;
    }

    /** The bookkeeping between the two critical sections of lnf_ring_read, done without the lock. */
    method Note(r: nat)
      requires Shape(View()) && Enabled(View(), RNote(r))
      modifies this
      ensures View() == Apply(old(View()), RNote(r))
    {
      var x := readers[r];
      var q := entries[x.pos].sequence;
      var lost := x.lost;
      if x.last + 1 != q {
        lost := lost + (q - x.last + 1);
      }
      readers := readers[r := x.(lost := lost, last := q, phase := Noted, got := x.got + [Got(q, x.phase.seen)])];
    }

    /** The second critical section of lnf_ring_read and what follows it. */
    method EndRead(r: nat, decoded: bool)
      requires Shape(View()) && Enabled(View(), RRelease(r, decoded))
      modifies this, entries
      ensures View() == Apply(old(View()), RRelease(r, decoded))
    {
      var x := readers[r];
      var ent := entries[x.pos];
      entries[x.pos] := ent.(numReaders := ent.numReaders - 1);
      var pos, total := x.pos, x.total;
      if decoded {
        pos, total := Next(pos, entries.Length), total + 1;
      }
      readers := readers[r := x.(phase := Idle, pos := pos, total := total, clean := x.clean && decoded)];
    }
  }
}
