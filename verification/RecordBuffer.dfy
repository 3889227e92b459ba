/** Building keys and values from a record: lnf_mem_fill_buf (src/memheap.c:513-554). */
module RecordBuffer {
  import opened Bytes
  import opened FieldList
  import opened Masks

  /** The field table: data sizes, and the two fields a pair field stands for (0 when it is none). */
  datatype Catalog = Catalog(size: nat -> nat, pair1: nat -> nat, pair2: nat -> nat)

  /** What __lnf_rec_fget stores for every field. */
  type Record = nat -> Data

  ghost predicate RecordOK(cat: Catalog, rec: Record) {
    forall id {:trigger rec(id)} :: |rec(id)| == cat.size(id)
  }

  /** The field that is read for field id: with pair set 1 or 2 a pair field is replaced by one of its two. */
  function Source(cat: Catalog, id: nat, pairset: nat): nat {
    if pairset != 0 && cat.pair1(id) != 0 && cat.pair2(id) != 0 then
      if pairset == 1 then cat.pair1(id) else cat.pair2(id)
    else id
  }

  /** The list entry has the size of every field that can be read for it, and the interval of a time can be
      computed. */
  ghost predicate FieldOK(cat: Catalog, f: Fld) {
    && (forall pairset {:trigger Source(cat, f.id, pairset)} :: cat.size(Source(cat, f.id, pairset)) == f.size)
    && (f.kind == Addr ==> f.size == 16) && (f.kind == U64 ==> f.size == 8 && f.numbits <= MAX_ALIGN)
  }

  ghost predicate FieldsOK(cat: Catalog, fs: seq<Fld>) {
    forall i :: 0 <= i < |fs| ==> FieldOK(cat, fs[i])
  }

  /** The bytes a field contributes to the buffer. */
  function Encoded(f: Fld, d: Data): (r: Data)
    ensures |r| == |d|
  {
    if f.kind == Addr && |d| == 16 then MaskAddr(d, f.numbits, f.numbits6)
    else if f.kind == U64 && f.numbits > 0 && |d| == 8 then LePut(AlignTime(LeVal(d), f.numbits), 8)
    else d
  }

  function Contribution(cat: Catalog, f: Fld, rec: Record, pairset: nat): Data {
    Encoded(f, rec(Source(cat, f.id, pairset)))
  }

  lemma ContributionSize(cat: Catalog, f: Fld, rec: Record, pairset: nat)
    requires RecordOK(cat, rec) && FieldOK(cat, f)
    ensures |Contribution(cat, f, rec, pairset)| == f.size
  {}

  /** The contributions of the first i fields, side by side. */
  function Buffer(cat: Catalog, fs: seq<Fld>, i: nat, rec: Record, pairset: nat): Data
    requires i <= |fs|
  {
    if i == 0 then [] else Buffer(cat, fs, i - 1, rec, pairset) + Contribution(cat, fs[i - 1], rec, pairset)
  }

  function WholeBuffer(cat: Catalog, fs: seq<Fld>, rec: Record, pairset: nat): Data {
    Buffer(cat, fs, |fs|, rec, pairset)
  }

  lemma {:induction false} BufferSize(cat: Catalog, fs: seq<Fld>, i: nat, rec: Record, pairset: nat)
    requires i <= |fs| && RecordOK(cat, rec) && FieldsOK(cat, fs)
    ensures |Buffer(cat, fs, i, rec, pairset)| == Offset(fs, i)
  {
    if i > 0 {
      BufferSize(cat, fs, i - 1, rec, pairset);
      ContributionSize(cat, fs[i - 1], rec, pairset);
    }
  }

  /** c stands at o in d. */
  ghost predicate StandsAt(d: Data, o: nat, c: Data) {
    o + |c| <= |d| && d[o..o + |c|] == c
  }

  lemma StandsInLonger(x: Data, y: Data, o: nat, c: Data)
    ensures StandsAt(x, o, c) ==> StandsAt(x + y, o, c)
    ensures StandsAt(x + y, |x|, y)
  {}

  lemma BufferGrows(cat: Catalog, fs: seq<Fld>, n: nat, rec: Record, pairset: nat)
    requires n < |fs| && RecordOK(cat, rec) && FieldsOK(cat, fs)
    ensures |Buffer(cat, fs, n, rec, pairset)| == Offset(fs, n) && |Contribution(cat, fs[n], rec, pairset)| == fs[n].size
    ensures Buffer(cat, fs, n + 1, rec, pairset) == Buffer(cat, fs, n, rec, pairset) + Contribution(cat, fs[n], rec, pairset)
  {
    BufferSize(cat, fs, n, rec, pairset);
    ContributionSize(cat, fs[n], rec, pairset);
  }

  /** The bytes at the place of field i are what field i contributes. */
  lemma {:induction false} BufferPart(cat: Catalog, fs: seq<Fld>, n: nat, i: nat, rec: Record, pairset: nat)
    requires i < n <= |fs| && RecordOK(cat, rec) && FieldsOK(cat, fs)
    ensures |Contribution(cat, fs[i], rec, pairset)| == fs[i].size
    ensures StandsAt(Buffer(cat, fs, n, rec, pairset), Offset(fs, i), Contribution(cat, fs[i], rec, pairset))
  {
    BufferGrows(cat, fs, n - 1, rec, pairset);
    StandsInLonger(Buffer(cat, fs, n - 1, rec, pairset), Contribution(cat, fs[n - 1], rec, pairset),
                   Offset(fs, i), Contribution(cat, fs[i], rec, pairset));
    if i < n - 1 {
      BufferPart(cat, fs, n - 1, i, rec, pairset);
    }
  }

  predicate IsPair(cat: Catalog, id: nat) {
    cat.pair1(id) != 0 && cat.pair2(id) != 0
  }

  /** In the buffer for pair set 1 (2) a pair field has what its first (second) field has in the record, and
      any other field its own. */
  lemma PairStored(cat: Catalog, fs: seq<Fld>, i: nat, rec: Record, pairset: nat)
    requires i < |fs| && RecordOK(cat, rec) && FieldsOK(cat, fs) && pairset <= 2
    ensures var id := fs[i].id;
            var read := if pairset == 0 || !IsPair(cat, id) then id else if pairset == 1 then cat.pair1(id) else cat.pair2(id);
            StandsAt(WholeBuffer(cat, fs, rec, pairset), Offset(fs, i), Encoded(fs[i], rec(read)))
  {
    BufferPart(cat, fs, |fs|, i, rec, pairset);
  }

  // ---------- which records share a buffer ----------

  /** What a field must have in common in two records. */
  predicate Agree(f: Fld, a: Data, b: Data) {
    if f.kind == Addr && |a| == |b| == 16 then AddrsAgree(ToBits(a), ToBits(b), f.numbits, f.numbits6)
    else if f.kind == U64 && f.numbits > 0 && |a| == |b| == 8 then
      LeVal(a) / (f.numbits * 1000) == LeVal(b) / (f.numbits * 1000)
    else a == b
  }

  lemma {:induction false} FitsBelow(x: nat, y: nat, n: nat)
    requires x <= y && Fits(y, n)
    ensures Fits(x, n)
  {
    if n > 0 {
      FitsBelow(x / 256, y / 256, n - 1);
    }
  }

  lemma {:induction false} ValFits(d: Data)
    ensures Fits(LeVal(d), |d|)
  {
    if d != [] {
      ValFits(d[1..]);
      assert LeVal(d) / 256 == LeVal(d[1..]);
    }
  }

  /** An aligned time is stored without loss. */
  lemma AlignedFits(d: Data, numbits: int)
    ensures LeVal(LePut(AlignTime(LeVal(d), numbits), |d|)) == AlignTime(LeVal(d), numbits)
  {
    ValFits(d);
    FitsBelow(AlignTime(LeVal(d), numbits), LeVal(d), |d|);
    PutFits(AlignTime(LeVal(d), numbits), |d|);
  }

  lemma EncodedEqual(f: Fld, a: Data, b: Data)
    requires |a| == |b| && (f.kind == U64 ==> f.numbits <= MAX_ALIGN)
    ensures Encoded(f, a) == Encoded(f, b) <==> Agree(f, a, b)
  {
    if f.kind == Addr && |a| == 16 {
      MaskedEqual(a, b, f.numbits, f.numbits6);
    } else if f.kind == U64 && f.numbits > 0 && |a| == 8 {
      AlignedFits(a, f.numbits);
      AlignedFits(b, f.numbits);
      AlignedEqual(LeVal(a), LeVal(b), f.numbits);
    }
  }

  /** Encoding is idempotent: the fields of a key, read back into a record, give the same key. */
  lemma EncodedTwice(f: Fld, d: Data)
    requires f.kind == U64 ==> f.numbits <= MAX_ALIGN
    ensures Encoded(f, Encoded(f, d)) == Encoded(f, d)
  {
    if f.kind == Addr && |d| == 16 {
      MaskingTwice(d, f.numbits, f.numbits6);
    } else if f.kind == U64 && f.numbits > 0 && |d| == 8 {
      AlignedFits(d, f.numbits);
      AlignedEqual(LeVal(d), LeVal(d), f.numbits);
    }
  }

  lemma ConcatEqual(a: Data, b: Data, c: Data, d: Data)
    requires |a| == |c|
    ensures a + b == c + d <==> a == c && b == d
  {
    assert (a + b)[..|a|] == a && (c + d)[..|c|] == c;
    assert (a + b)[|a|..] == b && (c + d)[|c|..] == d;
  }

  ghost predicate AgreeAt(cat: Catalog, f: Fld, r1: Record, r2: Record, p1: nat, p2: nat) {
    Agree(f, r1(Source(cat, f.id, p1)), r2(Source(cat, f.id, p2)))
  }

  /** The first i fields agree. */
  ghost predicate AllAgree(cat: Catalog, fs: seq<Fld>, i: nat, r1: Record, r2: Record, p1: nat, p2: nat)
    requires i <= |fs|
  {
    i == 0 || (AllAgree(cat, fs, i - 1, r1, r2, p1, p2) && AgreeAt(cat, fs[i - 1], r1, r2, p1, p2))
  }

  lemma ContributionsEqual(cat: Catalog, f: Fld, r1: Record, r2: Record, p1: nat, p2: nat)
    requires RecordOK(cat, r1) && RecordOK(cat, r2) && FieldOK(cat, f)
    ensures |Contribution(cat, f, r1, p1)| == |Contribution(cat, f, r2, p2)| == f.size
    ensures Contribution(cat, f, r1, p1) == Contribution(cat, f, r2, p2) <==> AgreeAt(cat, f, r1, r2, p1, p2)
  {
    ContributionSize(cat, f, r1, p1);
    ContributionSize(cat, f, r2, p2);
    EncodedEqual(f, r1(Source(cat, f.id, p1)), r2(Source(cat, f.id, p2)));
  }

  lemma LongerEqual(cat: Catalog, fs: seq<Fld>, i: nat, r1: Record, r2: Record, p1: nat, p2: nat)
    requires i < |fs| && RecordOK(cat, r1) && RecordOK(cat, r2) && FieldsOK(cat, fs)
    ensures Buffer(cat, fs, i + 1, r1, p1) == Buffer(cat, fs, i + 1, r2, p2)
            <==> Buffer(cat, fs, i, r1, p1) == Buffer(cat, fs, i, r2, p2) && AgreeAt(cat, fs[i], r1, r2, p1, p2)
  {
    BufferSize(cat, fs, i, r1, p1);
    BufferSize(cat, fs, i, r2, p2);
    ContributionsEqual(cat, fs[i], r1, r2, p1, p2);
    ConcatEqual(Buffer(cat, fs, i, r1, p1), Contribution(cat, fs[i], r1, p1),
                Buffer(cat, fs, i, r2, p2), Contribution(cat, fs[i], r2, p2));
  }

  lemma OneMoreAgrees(cat: Catalog, fs: seq<Fld>, i: nat, r1: Record, r2: Record, p1: nat, p2: nat)
    requires 0 < i <= |fs|
    ensures AllAgree(cat, fs, i, r1, r2, p1, p2) <==> AllAgree(cat, fs, i - 1, r1, r2, p1, p2) && AgreeAt(cat, fs[i - 1], r1, r2, p1, p2)
  {}

  /** Two records have equal buffers exactly when every listed field agrees. */
  lemma {:induction false} BuffersEqual(cat: Catalog, fs: seq<Fld>, i: nat, r1: Record, r2: Record, p1: nat, p2: nat)
    requires i <= |fs| && RecordOK(cat, r1) && RecordOK(cat, r2) && FieldsOK(cat, fs)
    ensures Buffer(cat, fs, i, r1, p1) == Buffer(cat, fs, i, r2, p2) <==> AllAgree(cat, fs, i, r1, r2, p1, p2)
  {
    if i > 0 {
      BuffersEqual(cat, fs, i - 1, r1, r2, p1, p2);
      LongerEqual(cat, fs, i - 1, r1, r2, p1, p2);
      OneMoreAgrees(cat, fs, i, r1, r2, p1, p2);
    }
  }

  /** The first i fields that are pairs agree in their two fields. */
  predicate PairsAgree(cat: Catalog, fs: seq<Fld>, i: nat, rec: Record)
    requires i <= |fs|
  {
    forall j {:trigger fs[j]} :: 0 <= j < i && IsPair(cat, fs[j].id) ==>
      Agree(fs[j], rec(cat.pair1(fs[j].id)), rec(cat.pair2(fs[j].id)))
  }

  lemma {:induction false} AgreeInPairs(cat: Catalog, fs: seq<Fld>, i: nat, rec: Record)
    requires i <= |fs|
    ensures AllAgree(cat, fs, i, rec, rec, 1, 2) <==> PairsAgree(cat, fs, i, rec)
  {
    if i > 0 {
      AgreeInPairs(cat, fs, i - 1, rec);
      OneMoreAgrees(cat, fs, i, rec, rec, 1, 2);
      assert PairsAgree(cat, fs, i, rec) <==>
             PairsAgree(cat, fs, i - 1, rec) && (IsPair(cat, fs[i - 1].id) ==>
               Agree(fs[i - 1], rec(cat.pair1(fs[i - 1].id)), rec(cat.pair2(fs[i - 1].id))));
    }
  }

  /** The two keys of a record in statistics mode coincide exactly when every pair agrees in its two fields. */
  lemma KeysCoincide(cat: Catalog, fs: seq<Fld>, rec: Record)
    requires RecordOK(cat, rec) && FieldsOK(cat, fs)
    ensures WholeBuffer(cat, fs, rec, 1) == WholeBuffer(cat, fs, rec, 2) <==> PairsAgree(cat, fs, |fs|, rec)
  {
    BuffersEqual(cat, fs, |fs|, rec, rec, 1, 2);
    AgreeInPairs(cat, fs, |fs|, rec);
  }

  // ---------- lnf_mem_fill_buf ----------

  /** The fourth word alone changes in an address taken as IPv4. */
  lemma MaskV4(d: Data, numbits: int, numbits6: int)
    requires |d| == 16 && V4(ToBits(d))
    ensures MaskAddr(d, numbits, numbits6) == Patch(d, 12, KeepBits(d[12..16], Kept(numbits, 32)))
  {
    assert d == d[..12] + d[12..16];
    KeepHalves(d[..12], d[12..16], 96 + Kept(numbits, 32));
  }

  lemma PatchOver(s: Data, off: nat, d: Data, e: Data)
    requires off + |d| <= |s| && |e| == |d|
    ensures Patch(s, off, d)[off..off + |d|] == d
    ensures Patch(Patch(s, off, d), off, e) == Patch(s, off, e)
  {}

  lemma PatchTail(s: Data, off: nat, d: Data, w: Data)
    requires off + 16 <= |s| && |d| == 16 && |w| == 4
    ensures Patch(s, off, d)[off + 12..off + 16] == d[12..16]
    ensures Patch(Patch(s, off, d), off + 12, w) == Patch(s, off, Patch(d, 12, w))
  {}

  /** The address at off cleared behind the bits that count in its family. */
  method MaskField(buf: array<byte>, off: nat, numbits: int, numbits6: int, ghost s: Data, ghost d: Data)
    requires |d| == 16 && off + 16 <= |s| && buf[..] == Patch(s, off, d)
    modifies buf
    ensures buf[..] == Patch(s, off, MaskAddr(d, numbits, numbits6))
  {
    PatchOver(s, off, d, MaskAddr(d, numbits, numbits6));
    var bits := LoadWord(buf, off, 16);
    if V4(bits) {
      MaskV4(d, numbits, numbits6);
      PatchTail(s, off, d, KeepBits(d[12..16], Kept(numbits, 32)));
      ClearBitsV4(buf, off + 12, numbits);
    } else {
      ClearBitsV6(buf, off, numbits6);
    }
  }

  /** One turn of the loop. */
  method FillField(cat: Catalog, node: Node, rec: Record, buf: array<byte>, pairset: nat)
    requires RecordOK(cat, rec) && FieldOK(cat, node.fld) && node.offset + node.fld.size <= buf.Length
    modifies buf
    ensures |Contribution(cat, node.fld, rec, pairset)| == node.fld.size
    ensures buf[..] == Patch(old(buf[..]), node.offset, Contribution(cat, node.fld, rec, pairset))
  {
    var f, off := node.fld, node.offset;
    var field := f.id;
    if pairset != 0 && cat.pair1(f.id) != 0 && cat.pair2(f.id) != 0 {
      field := if pairset == 1 then cat.pair1(f.id) else cat.pair2(f.id);
    }
    assert field == Source(cat, f.id, pairset);
    ghost var s := buf[..];
    Copy(buf, off, rec(field));
    if f.kind == Addr {
      MaskField(buf, off, f.numbits, f.numbits6, s, rec(field));
    } else if f.kind == U64 && f.numbits > 0 {
      PatchOver(s, off, rec(field), Encoded(f, rec(field)));
      AlignUint64(buf, off, f.numbits);
    }
  }

  /** The front of s replaced by the first i contributions. */
  ghost function State(cat: Catalog, fs: seq<Fld>, i: nat, rec: Record, pairset: nat, s: Data): Data
    requires i <= |fs|
  {
    var d := Buffer(cat, fs, i, rec, pairset);
    if |d| <= |s| then Patch(s, 0, d) else s
  }

  /** cur becomes next when the field is written at its offset. */
  ghost predicate Written(cat: Catalog, f: Fld, off: nat, rec: Record, pairset: nat, cur: Data, next: Data) {
    var d := Contribution(cat, f, rec, pairset);
    |d| == f.size && off + f.size <= |cur| && next == Patch(cur, off, d)
  }

  lemma StateStep(cat: Catalog, fs: seq<Fld>, i: nat, rec: Record, pairset: nat, s: Data)
    requires i < |fs| && RecordOK(cat, rec) && FieldsOK(cat, fs) && Total(fs) <= |s|
    ensures Written(cat, fs[i], Offset(fs, i), rec, pairset,
                    State(cat, fs, i, rec, pairset, s), State(cat, fs, i + 1, rec, pairset, s))
  {
    BufferSize(cat, fs, i, rec, pairset);
    ContributionSize(cat, fs[i], rec, pairset);
    OffsetMonotone(fs, i + 1, |fs|);
    PatchTwice(s, 0, Buffer(cat, fs, i, rec, pairset), Contribution(cat, fs[i], rec, pairset));
  }

  ghost predicate WrittenAt(cat: Catalog, fs: seq<Fld>, steps: seq<Data>, i: nat, rec: Record, pairset: nat)
    requires i < |fs| == |steps| - 1
  {
    Written(cat, fs[i], Offset(fs, i), rec, pairset, steps[i], steps[i + 1])
  }

  lemma StateWritten(cat: Catalog, fs: seq<Fld>, steps: seq<Data>, i: nat, rec: Record, pairset: nat, s: Data)
    requires i < |fs| == |steps| - 1 && RecordOK(cat, rec) && FieldsOK(cat, fs) && Total(fs) <= |s|
    requires steps[i] == State(cat, fs, i, rec, pairset, s) && steps[i + 1] == State(cat, fs, i + 1, rec, pairset, s)
    ensures WrittenAt(cat, fs, steps, i, rec, pairset)
  {
    StateStep(cat, fs, i, rec, pairset, s);
  }

  lemma StateEnds(cat: Catalog, fs: seq<Fld>, rec: Record, pairset: nat, s: Data)
    requires RecordOK(cat, rec) && FieldsOK(cat, fs) && Total(fs) <= |s|
    ensures |WholeBuffer(cat, fs, rec, pairset)| == Total(fs)
    ensures State(cat, fs, 0, rec, pairset, s) == s
    ensures State(cat, fs, |fs|, rec, pairset, s) == Patch(s, 0, WholeBuffer(cat, fs, rec, pairset))
  {
    BufferSize(cat, fs, |fs|, rec, pairset);
  }

  lemma Steps(cat: Catalog, fs: seq<Fld>, rec: Record, pairset: nat, s: Data) returns (steps: seq<Data>)
    requires RecordOK(cat, rec) && FieldsOK(cat, fs) && Total(fs) <= |s|
    ensures |WholeBuffer(cat, fs, rec, pairset)| == Total(fs)
    ensures |steps| == |fs| + 1 && steps[0] == s && steps[|fs|] == Patch(s, 0, WholeBuffer(cat, fs, rec, pairset))
    ensures forall i {:trigger WrittenAt(cat, fs, steps, i, rec, pairset)} :: 0 <= i < |fs| ==>
              WrittenAt(cat, fs, steps, i, rec, pairset)
  {
    steps := seq(|fs| + 1, i requires 0 <= i <= |fs| => State(cat, fs, i, rec, pairset, s));
    forall i | 0 <= i < |fs| ensures WrittenAt(cat, fs, steps, i, rec, pairset) {
      StateWritten(cat, fs, steps, i, rec, pairset, s);
    }
    StateEnds(cat, fs, rec, pairset, s);
  }

  method FillBuf(cat: Catalog, list: FieldList, rec: Record, buf: array<byte>, pairset: nat) returns (keysize: nat)
    requires list.Valid() && RecordOK(cat, rec) && FieldsOK(cat, list.flds) && Total(list.flds) <= buf.Length
    modifies buf
    ensures keysize == Total(list.flds) == |WholeBuffer(cat, list.flds, rec, pairset)|
    ensures buf[..] == Patch(old(buf[..]), 0, WholeBuffer(cat, list.flds, rec, pairset))
  {
    var fld := list.first;
    ghost var i := 0;
    ghost var steps := Steps(cat, list.flds, rec, pairset, buf[..]);
    keysize := 0;
    while fld != null
      invariant i <= |list.flds| && fld == list.At(i) && keysize == Offset(list.flds, i)
      invariant buf[..] == steps[i]
      decreases |list.flds| - i
    {
      assert WrittenAt(cat, list.flds, steps, i, rec, pairset);
      FillField(cat, fld, rec, buf, pairset);
      keysize := keysize + fld.fld.size;
      fld := fld.next;
      i := i + 1;
    }
  }
}
