/** The TLV form of a record: lnf_rec_get_raw and lnf_rec_set_raw (src/libnf.c:1208-1336) on a
    little-endian machine. */
module RecordCodec {
  import opened Bytes
  import opened Seqs

  /** A field with its value as the getters and setters see it, that is in host byte order. */
  datatype Field = Field(id: nat, data: Data)

  /** The field table: the fields there are, the byte width of the integer a field is swapped as (2, 4 or
      8; 0 for the types that are left alone), and the size of its data. */
  datatype Table = Table(known: nat -> bool, width: nat -> nat, size: nat -> nat) {
    ghost predicate Valid() {
      && (forall f {:trigger width(f)} :: (width(f) in {0, 2, 4, 8}) && (width(f) != 0 ==> size(f) == width(f)) && size(f) < MAX_FIELD_LEN)
      && (forall f: nat {:trigger known(f)} :: known(f) ==> f < FIELD_TERM && 0 < size(f))
    }
  }

  /** A record as far as lnf_rec_fget shows it: the data of the fields that are set. */
  type Record = map<nat, Data>

  const MAX_FIELD_LEN := 512      // LNF_MAX_FIELD_LEN
  const FIELD_TERM := 255         // LNF_FLD_TERM_, one past the last field id
  const VERSION: byte := 1        // LNF_REC_RAW_TLV
  const HEADER_LEN := 4           // sizeof(lnf_rec_raw_t)
  const ENTRY_LEN := 4            // sizeof(lnf_rec_raw_entry_t)
  const USERNAME := 0x36          // LNF_FLD_USERNAME

  ghost predicate RecordOK(t: Table, rec: Record) {
    forall f :: f in rec ==> t.known(f) && |rec[f]| == t.size(f)
  }

  datatype Status = Ok | ErrOther | ErrNoMem | Undefined

  // ---------- bytes ----------

  function Le16(x: nat): (d: Data)
    ensures |d| == 2
  {
    LePut(x, 2)
  }

  function Get16(s: Data, off: nat): nat
    requires off + 2 <= |s|
  {
    LeVal(s[off..off + 2])
  }

  lemma Le16RoundTrip(x: nat)
    requires x < 0x1_0000
    ensures LeVal(Le16(x)) == x
  {
    assert Fits(x / 256, 1);
    PutFits(x, 2);
  }

  /** htons, htonl, htonll and their inverses: the first n bytes reversed. */
  function Swap(s: Data, n: nat): (r: Data)
    ensures |r| == |s|
  {
    if |s| < n then s else seq(|s|, i requires 0 <= i < |s| => if i < n then s[n - 1 - i] else s[i])
  }

  lemma SwapTwice(s: Data, n: nat)
    ensures Swap(Swap(s, n), n) == s
  {}

  // ---------- encoding ----------

  function EncodeEntry(t: Table, e: Field): Data {
    Le16(e.id) + Le16(|e.data|) + Swap(e.data, t.width(e.id))
  }

  /** The entry can be written and read back: ids and sizes fit their 16 bits. */
  ghost predicate EntryOK(t: Table, e: Field) {
    e.id < 0x1_0000 && |e.data| < MAX_FIELD_LEN && t.width(e.id) <= |e.data| && t.width(e.id) in {0, 2, 4, 8}
  }

  ghost predicate EntriesOK(t: Table, es: seq<Field>) {
    forall i :: 0 <= i < |es| ==> EntryOK(t, es[i])
  }

  function Encoder(t: Table): Field -> Data {
    (e: Field) => EncodeEntry(t, e)
  }

  ghost function EncodeAll(t: Table, es: seq<Field>): Data {
    Joined(Encoder(t), es)
  }

  /** The fields below n that are set, in ascending order: what the encoder obtains from fget. */
  function Fields(rec: Record, n: nat): seq<Field> {
    if n == 0 then []
    else Fields(rec, n - 1) + if n - 1 in rec then [Field(n - 1, rec[n - 1])] else []
  }

  lemma {:induction false} FieldsOK(t: Table, rec: Record, n: nat)
    requires t.Valid() && RecordOK(t, rec) && n <= FIELD_TERM
    ensures EntriesOK(t, Fields(rec, n))
  {
    if n > 0 {
      FieldsOK(t, rec, n - 1);
      assert t.width(n - 1) in {0, 2, 4, 8};
    }
  }

  lemma {:induction false} EncodeLonger(t: Table, rec: Record, n: nat, m: nat)
    requires n <= m
    ensures |EncodeAll(t, Fields(rec, n))| <= |EncodeAll(t, Fields(rec, m))|
  {
    if n < m {
      EncodeLonger(t, rec, n, m - 1);
      if m - 1 in rec {
        JoinedAppend(Encoder(t), Fields(rec, m - 1), Field(m - 1, rec[m - 1]));
      } else {
        assert Fields(rec, m) == Fields(rec, m - 1);
      }
    }
  }

  // ---------- decoding ----------

  datatype Parsed = Entry(e: Field) | Stop(st: Status)

  /** The entry at offset whose header says id and n.  Undefined stands for a read behind the buffer or of
      bytes never written. */
  function EntryWith(t: Table, buf: Data, offset: nat, id: nat, n: nat): Parsed {
    if n >= MAX_FIELD_LEN then Stop(ErrNoMem)
    else if offset + ENTRY_LEN + n > |buf| || t.width(id) > n || t.width(id) !in {0, 2, 4, 8} then Stop(Undefined)
    else Entry(Field(id, Swap(buf[offset + ENTRY_LEN..offset + ENTRY_LEN + n], t.width(id))))
  }

  function EntryAt(t: Table, buf: Data, offset: nat): Parsed {
    if offset + ENTRY_LEN > |buf| then Stop(Undefined)
    else EntryWith(t, buf, offset, Get16(buf, offset), Get16(buf, offset + 2))
  }

  /** The entry at every offset of a buffer. */
  function EntriesOf(t: Table, buf: Data): nat -> Parsed {
    (offset: nat) => EntryAt(t, buf, offset)
  }

  /** The decoder's loop from offset on, for what is found at every offset; limit is raw->size. */
  function DecodeFrom(at: nat -> Parsed, limit: nat, offset: nat): (Status, seq<Field>)
    decreases limit - offset
  {
    if offset >= limit then (Ok, [])
    else
      match at(offset)
      case Stop(st) => (st, [])
      case Entry(e) =>
        var rest := DecodeFrom(at, limit, offset + ENTRY_LEN + |e.data|);
        (rest.0, [e] + rest.1)
  }

  /** The statuses of lnf_rec_set_raw and the calls of fset it makes, in order. */
  function Decode(t: Table, buf: Data, size: nat): (Status, seq<Field>)
    requires HEADER_LEN <= |buf|
  {
    if size < HEADER_LEN then (ErrOther, [])
    else if buf[0] != VERSION then (ErrOther, [])
    else if Get16(buf, 2) + HEADER_LEN > size then (ErrOther, [])
    else DecodeFrom(EntriesOf(t, buf), Get16(buf, 2), HEADER_LEN)
  }

  lemma SliceAt(buf: Data, c: Data, lo: nat, k: nat)
    requires lo + |c| <= |buf| && buf[lo..lo + |c|] == c && k < |c|
    ensures buf[lo + k] == c[k]
  {}

  lemma SliceSlice(buf: Data, c: Data, lo: nat, i: nat, j: nat)
    requires lo + |c| <= |buf| && buf[lo..lo + |c|] == c && i <= j <= |c|
    ensures buf[lo + i..lo + j] == c[i..j]
  {
    forall k | i <= k < j ensures buf[lo + i..lo + j][k - i] == c[k] {
      SliceAt(buf, c, lo, k);
    }
  }

  lemma SplitAt(buf: Data, c: Data, d: Data, lo: nat)
    requires lo + |c + d| <= |buf| && buf[lo..lo + |c + d|] == c + d
    ensures buf[lo..lo + |c|] == c && buf[lo + |c|..lo + |c| + |d|] == d
  {
    SliceSlice(buf, c + d, lo, 0, |c|);
    SliceSlice(buf, c + d, lo, |c|, |c + d|);
    assert (c + d)[0..|c|] == c && (c + d)[|c|..|c + d|] == d;
  }

  lemma ThreeParts(buf: Data, a: Data, b: Data, c: Data, lo: nat)
    requires |a| == |b| == 2 && lo + 4 + |c| <= |buf| && buf[lo..lo + 4 + |c|] == a + b + c
    ensures buf[lo..lo + 2] == a && buf[lo + 2..lo + 2 + 2] == b && buf[lo + 4..lo + 4 + |c|] == c
  {
    SplitAt(buf, a + b, c, lo);
    SplitAt(buf, a, b, lo);
  }

  lemma EntryReads(t: Table, buf: Data, e: Field, offset: nat)
    requires EntryOK(t, e) && offset + |EncodeEntry(t, e)| <= |buf|
    requires buf[offset..offset + |EncodeEntry(t, e)|] == EncodeEntry(t, e)
    ensures Get16(buf, offset) == e.id && Get16(buf, offset + 2) == |e.data|
    ensures Swap(buf[offset + ENTRY_LEN..offset + ENTRY_LEN + |e.data|], t.width(e.id)) == e.data
  {
    ThreeParts(buf, Le16(e.id), Le16(|e.data|), Swap(e.data, t.width(e.id)), offset);
    Le16RoundTrip(e.id);
    Le16RoundTrip(|e.data|);
    SwapTwice(e.data, t.width(e.id));
  }

  lemma EntryDecodes(t: Table, buf: Data, e: Field, offset: nat)
    requires EntryOK(t, e) && offset + ENTRY_LEN + |e.data| <= |buf|
    requires buf[offset..offset + ENTRY_LEN + |e.data|] == EncodeEntry(t, e)
    ensures EntryAt(t, buf, offset) == Entry(e)
  {
    EntryReads(t, buf, e, offset);
  }

  // ---------- entries on the wire ----------

  lemma {:induction false} NetworkReversed(d: Data)
    ensures BePut(LeVal(d), |d|) == seq(|d|, i requires 0 <= i < |d| => d[|d| - 1 - i])
  {
    if d != [] {
      NetworkReversed(d[1..]);
      assert LeVal(d) / 256 == LeVal(d[1..]) && LeVal(d) % 256 == d[0];
    }
  }

  lemma SwapIsNetwork(s: Data, n: nat)
    requires n <= |s|
    ensures Swap(s, n)[..n] == BePut(LeVal(s[..n]), n) && Swap(s, n)[n..] == s[n..]
  {
    NetworkReversed(s[..n]);
  }

  /** The data of e on the wire: the integer they start with in network order, the rest as it is. */
  ghost predicate DataOnWire(t: Table, wire: Data, e: Field) {
    var w := t.width(e.id);
    w <= |wire| == |e.data| && wire[..w] == BePut(LeVal(e.data[..w]), w) && wire[w..] == e.data[w..]
  }

  /** e stands at offset: its id and its size in host order, and its data. */
  ghost predicate OnWire(t: Table, buf: Data, e: Field, offset: nat) {
    var data := offset + ENTRY_LEN;
    && data + |e.data| <= |buf| && DataOnWire(t, buf[data..data + |e.data|], e)
    && LeVal(buf[offset..offset + 2]) == e.id && LeVal(buf[offset + 2..offset + 4]) == |e.data|
  }

  lemma WireData(wire: Data, d: Data, n: nat)
    requires n <= |wire| == |d|
    ensures Swap(wire, n) == d <==> wire[..n] == BePut(LeVal(d[..n]), n) && wire[n..] == d[n..]
  {
    SwapIsNetwork(d, n);
    SwapTwice(wire, n);
    SwapTwice(d, n);
    assert wire == wire[..n] + wire[n..] && Swap(d, n) == Swap(d, n)[..n] + Swap(d, n)[n..];
  }

  /** An entry the decoder has room for, of an integer width it knows. */
  predicate Accepted(t: Table, e: Field) {
    |e.data| < MAX_FIELD_LEN && t.width(e.id) in {0, 2, 4, 8}
  }

  lemma DataExact(t: Table, buf: Data, e: Field, offset: nat)
    requires offset + ENTRY_LEN + |e.data| <= |buf| && t.width(e.id) <= |e.data| && Accepted(t, e)
    ensures EntryWith(t, buf, offset, e.id, |e.data|) == Entry(e)
            <==> DataOnWire(t, buf[offset + ENTRY_LEN..offset + ENTRY_LEN + |e.data|], e)
  {
    WireData(buf[offset + ENTRY_LEN..offset + ENTRY_LEN + |e.data|], e.data, t.width(e.id));
  }

  lemma HeaderSays(t: Table, buf: Data, e: Field, offset: nat)
    requires offset + ENTRY_LEN <= |buf| && Get16(buf, offset) == e.id && Get16(buf, offset + 2) == |e.data|
    ensures EntryAt(t, buf, offset) == EntryWith(t, buf, offset, e.id, |e.data|)
  {}

  lemma FoundEntry(t: Table, buf: Data, e: Field, offset: nat)
    requires EntryAt(t, buf, offset) == Entry(e)
    ensures offset + ENTRY_LEN + |e.data| <= |buf| && t.width(e.id) <= |e.data| && Accepted(t, e)
    ensures Get16(buf, offset) == e.id && Get16(buf, offset + 2) == |e.data|
  {}

  /** The decoder takes e from an offset of any buffer exactly when e stands there and is an entry it
      accepts. */
  lemma WireExact(t: Table, buf: Data, e: Field, offset: nat)
    ensures EntryAt(t, buf, offset) == Entry(e) <==> OnWire(t, buf, e, offset) && Accepted(t, e)
  {
    if EntryAt(t, buf, offset) == Entry(e) {
      FoundEntry(t, buf, e, offset);
      HeaderSays(t, buf, e, offset);
      DataExact(t, buf, e, offset);
    }
    if OnWire(t, buf, e, offset) && Accepted(t, e) {
      HeaderSays(t, buf, e, offset);
      DataExact(t, buf, e, offset);
    }
  }

  /** What the loop makes of a list of entries that ends HEADER_LEN behind its limit: everything but a
      last entry without data. */
  function Survivors(es: seq<Field>): seq<Field> {
    if es != [] && es[|es| - 1].data == [] then es[..|es| - 1] else es
  }

  lemma SurvivorsCons(e: Field, es: seq<Field>)
    requires es != [] || e.data != []
    ensures Survivors([e] + es) == [e] + Survivors(es)
  {
    if es != [] {
      assert ([e] + es)[|es|] == es[|es| - 1];
      assert ([e] + es)[..|es|] == [e] + es[..|es| - 1];
    }
  }

  function SizeOf(es: seq<Field>): nat {
    if es == [] then 0 else ENTRY_LEN + |es[0].data| + SizeOf(es[1..])
  }

  /** The entries es stand one behind the other from offset on. */
  ghost predicate Stand(at: nat -> Parsed, es: seq<Field>, offset: nat) {
    es == [] || (at(offset) == Entry(es[0]) && Stand(at, es[1..], offset + ENTRY_LEN + |es[0].data|))
  }

  /** The loop whose limit is HEADER_LEN short returns all entries but a last one without data. */
  lemma {:induction false} EntriesDecode(at: nat -> Parsed, es: seq<Field>, offset: nat, limit: nat)
    requires Stand(at, es, offset) && offset + SizeOf(es) == limit + HEADER_LEN
    ensures DecodeFrom(at, limit, offset) == (Ok, Survivors(es))
    decreases |es|
  {
    if es != [] {
      var e, rest := es[0], es[1..];
      assert es == [e] + rest;
      if rest != [] || e.data != [] {
        EntriesDecode(at, rest, offset + ENTRY_LEN + |e.data|, limit);
        SurvivorsCons(e, rest);
      }
    }
  }

  ghost predicate Holds(buf: Data, offset: nat, c: Data) {
    offset + |c| <= |buf| && buf[offset..offset + |c|] == c
  }

  lemma HoldsBoth(buf: Data, offset: nat, c: Data, d: Data)
    requires Holds(buf, offset, c + d)
    ensures Holds(buf, offset, c) && Holds(buf, offset + |c|, d)
  {
    SplitAt(buf, c, d, offset);
  }

  /** enc is an encoding of entries that is read back. */
  ghost predicate Reads(t: Table, buf: Data, at: nat -> Parsed, enc: Field -> Data) {
    && (forall e {:trigger enc(e)} :: |enc(e)| == ENTRY_LEN + |e.data|)
    && forall e, off: nat {:trigger Holds(buf, off, enc(e))} :: EntryOK(t, e) && Holds(buf, off, enc(e)) ==> at(off) == Entry(e)
  }

  lemma EncoderReads(t: Table, buf: Data)
    ensures Reads(t, buf, EntriesOf(t, buf), Encoder(t))
  {
    forall e, off: nat | EntryOK(t, e) && Holds(buf, off, Encoder(t)(e)) ensures EntryAt(t, buf, off) == Entry(e) {
      EntryDecodes(t, buf, e, off);
    }
  }

  /** What was encoded stands in the buffer. */
  lemma {:induction false} EncodedStand(t: Table, buf: Data, at: nat -> Parsed, enc: Field -> Data, es: seq<Field>, offset: nat)
    requires Reads(t, buf, at, enc) && EntriesOK(t, es) && Holds(buf, offset, Joined(enc, es))
    ensures Stand(at, es, offset) && SizeOf(es) == |Joined(enc, es)|
    decreases |es|
  {
    if es != [] {
      HoldsBoth(buf, offset, enc(es[0]), Joined(enc, es[1..]));
      EncodedStand(t, buf, at, enc, es[1..], offset + ENTRY_LEN + |es[0].data|);
    }
  }

  lemma {:induction false} StandAt(at: nat -> Parsed, es: seq<Field>, offset: nat, i: nat)
    requires Stand(at, es, offset) && i < |es|
    ensures at(offset + SizeOf(es[..i])) == Entry(es[i])
    decreases i
  {
    if i > 0 {
      StandAt(at, es[1..], offset + ENTRY_LEN + |es[0].data|, i - 1);
      assert es[..i][1..] == es[1..][..i - 1];
    }
  }

  /** The entries es stand in buf, one behind the other, from the header on. */
  ghost predicate AllOnWire(t: Table, buf: Data, es: seq<Field>) {
    forall i {:trigger es[i]} :: 0 <= i < |es| ==> OnWire(t, buf, es[i], HEADER_LEN + SizeOf(es[..i]))
  }

  lemma FoundOnWire(t: Table, buf: Data, e: Field, offset: nat)
    requires EntriesOf(t, buf)(offset) == Entry(e)
    ensures OnWire(t, buf, e, offset)
  {
    WireExact(t, buf, e, offset);
  }

  lemma EncodedOnWire(t: Table, buf: Data, es: seq<Field>)
    requires EntriesOK(t, es) && Holds(buf, HEADER_LEN, EncodeAll(t, es))
    ensures AllOnWire(t, buf, es)
  {
    EncoderReads(t, buf);
    EncodedStand(t, buf, EntriesOf(t, buf), Encoder(t), es, HEADER_LEN);
    forall i | 0 <= i < |es| ensures OnWire(t, buf, es[i], HEADER_LEN + SizeOf(es[..i])) {
      StandAt(EntriesOf(t, buf), es, HEADER_LEN, i);
      FoundOnWire(t, buf, es[i], HEADER_LEN + SizeOf(es[..i]));
    }
  }

  /** The buffer s after the encoder has put the entries enc behind its header. */
  function Filled(s: Data, enc: Data): (r: Data)
    requires HEADER_LEN + |enc| <= |s|
    ensures |r| == |s|
  {
    [VERSION, s[1]] + Le16(|enc|) + enc + s[HEADER_LEN + |enc|..]
  }

  lemma FilledReads(s: Data, enc: Data)
    requires HEADER_LEN + |enc| <= |s| && |enc| < 0x1_0000
    ensures var f := Filled(s, enc);
            f[0] == VERSION && Get16(f, 2) == |enc| && f[HEADER_LEN..HEADER_LEN + |enc|] == enc
  {
    assert Filled(s, enc)[2..4] == Le16(|enc|);
    Le16RoundTrip(|enc|);
  }

  /** The decoder stops by raw->size although its offset counts the header too.  It still returns the
      entries it was given exactly when the last one has data. */
  lemma RoundTrip(t: Table, s: Data, es: seq<Field>, size: nat)
    requires EntriesOK(t, es) && |EncodeAll(t, es)| < 0x1_0000
    requires HEADER_LEN + |EncodeAll(t, es)| <= size && HEADER_LEN + |EncodeAll(t, es)| <= |s|
    ensures Decode(t, Filled(s, EncodeAll(t, es)), size) == (Ok, Survivors(es))
    ensures Survivors(es) == es <==> es == [] || es[|es| - 1].data != []
  {
    var enc := EncodeAll(t, es);
    FilledReads(s, enc);
    EncoderReads(t, Filled(s, enc));
    EncodedStand(t, Filled(s, enc), EntriesOf(t, Filled(s, enc)), Encoder(t), es, HEADER_LEN);
    EntriesDecode(EntriesOf(t, Filled(s, enc)), es, HEADER_LEN, |enc|);
  }

  // ---------- the two routines ----------

  lemma FilledStep(s: Data, enc: Data, d: Data)
    requires HEADER_LEN + |enc| + |d| <= |s|
    ensures var f := Filled(s, enc);
            Patch(Patch(f, HEADER_LEN + |enc|, d), 2, Le16(Get16(f, 2) + |d|)) == Filled(s, enc + d)
  {
    var f := Filled(s, enc);
    PutAdd(|enc|, |d|, 2);
    assert f[2..4] == Le16(|enc|);
    assert Patch(f, HEADER_LEN + |enc|, d) == [VERSION, s[1]] + Le16(|enc|) + (enc + d) + s[HEADER_LEN + |enc + d|..];
  }

  lemma PatchThrice(s: Data, off: nat, a: Data, b: Data, c: Data)
    requires off + |a + b + c| <= |s|
    ensures Patch(Patch(Patch(s, off, a), off + |a|, b), off + |a| + |b|, c) == Patch(s, off, a + b + c)
  {}

  /** One entry at off, its integer in network order. */
  method PutEntry(t: Table, buf: array<byte>, off: nat, e: Field)
    requires EntryOK(t, e) && off + |EncodeEntry(t, e)| <= buf.Length
    modifies buf
    ensures buf[..] == Patch(old(buf[..]), off, EncodeEntry(t, e))
  {
    Copy(buf, off, Le16(e.id));
    Copy(buf, off + 2, Le16(|e.data|));
    Copy(buf, off + ENTRY_LEN, Swap(e.data, t.width(e.id)));
    PatchThrice(old(buf[..]), off, Le16(e.id), Le16(|e.data|), Swap(e.data, t.width(e.id)));
  }

  method Load16(buf: array<byte>, off: nat) returns (x: nat)
    requires off + 2 <= buf.Length
    ensures x == Get16(buf[..], off)
  {
    var d := Load(buf, off, 2);
    x := LeVal(d);
  }

  /** The entry put behind those that are there, and counted in raw->size. */
  method AppendEntry(t: Table, buf: array<byte>, off: nat, e: Field, ghost s: Data, ghost enc: Data)
    requires EntryOK(t, e) && off + |EncodeEntry(t, e)| <= buf.Length == |s|
    requires off == HEADER_LEN + |enc| && buf[..] == Filled(s, enc)
    modifies buf
    ensures off + |EncodeEntry(t, e)| == HEADER_LEN + |enc + EncodeEntry(t, e)|
    ensures buf[..] == Filled(s, enc + EncodeEntry(t, e))
  {
    FilledStep(s, enc, EncodeEntry(t, e));
    var size := Load16(buf, 2);
    PutEntry(t, buf, off, e);
    Copy(buf, 2, Le16(size + ENTRY_LEN + |e.data|));
  }

  ghost function FieldsEnc(t: Table, rec: Record, n: nat): Data {
    EncodeAll(t, Fields(rec, n))
  }

  lemma FieldsEncNext(t: Table, rec: Record, i: nat)
    requires t.Valid() && RecordOK(t, rec) && i < FIELD_TERM
    ensures i !in rec ==> FieldsEnc(t, rec, i + 1) == FieldsEnc(t, rec, i)
    ensures i in rec ==> EntryOK(t, Field(i, rec[i]))
    ensures i in rec ==> FieldsEnc(t, rec, i + 1) == FieldsEnc(t, rec, i) + EncodeEntry(t, Field(i, rec[i]))
    ensures |FieldsEnc(t, rec, i + 1)| <= |FieldsEnc(t, rec, FIELD_TERM)|
  {
    EncodeLonger(t, rec, i + 1, FIELD_TERM);
    FieldsOK(t, rec, i);
    assert t.width(i) in {0, 2, 4, 8};
    if i in rec {
      JoinedAppend(Encoder(t), Fields(rec, i), Field(i, rec[i]));
    } else {
      assert Fields(rec, i + 1) == Fields(rec, i);
    }
  }

  /** One past the field the encoder stops behind: the first whose entry ends behind size, or the last. */
  ghost function StopAt(t: Table, rec: Record, size: nat, i: nat): (n: nat)
    requires i <= FIELD_TERM
    ensures i <= n <= FIELD_TERM
    decreases FIELD_TERM - i
  {
    if i == FIELD_TERM then i
    else if i in rec && HEADER_LEN + |FieldsEnc(t, rec, i + 1)| > size then i + 1
    else StopAt(t, rec, size, i + 1)
  }

  /** The entries the encoder writes.  It compares the length after an entry is written. */
  ghost function Written(t: Table, rec: Record, size: nat): Data {
    FieldsEnc(t, rec, StopAt(t, rec, size, 0))
  }

  /** The fields below i are in the buffer, and offset is behind them. */
  ghost predicate Encoded(t: Table, rec: Record, i: nat, s: Data, buf: Data, offset: nat) {
    offset == HEADER_LEN + |FieldsEnc(t, rec, i)| <= |s| && buf == Filled(s, FieldsEnc(t, rec, i))
  }

  /** One turn of the loop, up to the comparison. */
  method PutField(t: Table, rec: Record, i: nat, buf: array<byte>, off: nat, ghost s: Data) returns (offset: nat)
    requires t.Valid() && RecordOK(t, rec) && i < FIELD_TERM && Encoded(t, rec, i, s, buf[..], off)
    requires HEADER_LEN + |FieldsEnc(t, rec, i + 1)| <= buf.Length
    modifies buf
    ensures Encoded(t, rec, i + 1, s, buf[..], offset) && (offset > off <==> i in rec) && offset >= off
  {
    FieldsEncNext(t, rec, i);
    offset := off;
    if i in rec {
      var e := Field(i, rec[i]);
      AppendEntry(t, buf, offset, e, s, FieldsEnc(t, rec, i));
      offset := offset + ENTRY_LEN + |e.data|;
    }
  }

  /** The header before the first entry. */
  method PutHeader(t: Table, rec: Record, buf: array<byte>)
    requires HEADER_LEN <= buf.Length
    modifies buf
    ensures Encoded(t, rec, 0, old(buf[..]), buf[..], HEADER_LEN)
  {
    buf[0] := VERSION;
    Copy(buf, 2, Le16(0));
    assert FieldsEnc(t, rec, 0) == [];
    assert buf[..] == Filled(old(buf[..]), []);
  }

  /** The loop over the fields. */
  method PutFields(t: Table, rec: Record, buf: array<byte>, size: nat, ghost s: Data) returns (st: Status, offset: nat)
    requires t.Valid() && RecordOK(t, rec) && Encoded(t, rec, 0, s, buf[..], HEADER_LEN)
    requires HEADER_LEN + |Written(t, rec, size)| <= buf.Length
    modifies buf
    ensures Encoded(t, rec, StopAt(t, rec, size, 0), s, buf[..], offset)
    ensures st == if offset > HEADER_LEN && offset > size then ErrNoMem else Ok
    ensures st == Ok ==> StopAt(t, rec, size, 0) == FIELD_TERM
  {
    offset := HEADER_LEN;
    for i := 0 to FIELD_TERM
      invariant offset == HEADER_LEN || offset <= size
      invariant StopAt(t, rec, size, 0) == StopAt(t, rec, size, i)
      invariant Encoded(t, rec, i, s, buf[..], offset)
    {
      EncodeLonger(t, rec, i + 1, StopAt(t, rec, size, i));
      var was := offset;
      offset := PutField(t, rec, i, buf, offset, s);
      if offset > was && offset > size {
        return ErrNoMem, offset;
      }
    }
    return Ok, offset;
  }

  lemma WrittenOnWire(t: Table, rec: Record, s: Data, size: nat)
    requires t.Valid() && RecordOK(t, rec) && HEADER_LEN + |Written(t, rec, size)| <= |s|
    ensures AllOnWire(t, Filled(s, Written(t, rec, size)), Fields(rec, StopAt(t, rec, size, 0)))
  {
    FieldsOK(t, rec, StopAt(t, rec, size, 0));
    EncodedOnWire(t, Filled(s, Written(t, rec, size)), Fields(rec, StopAt(t, rec, size, 0)));
  }

  /** lnf_rec_get_raw.  The buffer must have room for the entry that ends behind size, if there is one; it
      is bytes behind size that tell LNF_ERR_NOMEM from success. */
  method GetRaw(t: Table, rec: Record, kind: byte, buf: array<byte>, size: nat) returns (st: Status, retSize: nat)
    requires t.Valid() && RecordOK(t, rec)
    requires kind == VERSION ==> HEADER_LEN + |Written(t, rec, size)| <= buf.Length
    modifies buf
    ensures kind != VERSION ==> st == ErrOther && buf[..] == old(buf[..])
    ensures kind == VERSION ==> buf[..] == Filled(old(buf[..]), Written(t, rec, size))
    ensures kind == VERSION ==> AllOnWire(t, buf[..], Fields(rec, StopAt(t, rec, size, 0)))
    ensures kind == VERSION ==>
              st == if Written(t, rec, size) != [] && HEADER_LEN + |Written(t, rec, size)| > size then ErrNoMem else Ok
    ensures st == Ok ==> Written(t, rec, size) == FieldsEnc(t, rec, FIELD_TERM)
    ensures retSize == if st == Ok then HEADER_LEN + |Written(t, rec, size)| else 0
  {
    retSize := 0;
    if kind != VERSION {
      return ErrOther, retSize;
    }
    ghost var s := buf[..];
    PutHeader(t, rec, buf);
    var offset;
    st, offset := PutFields(t, rec, buf, size, s);
    WrittenOnWire(t, rec, s, size);
    if st == Ok {
      retSize := offset;
    }
  }

  /** Success, for a buffer with room for the header, is what leaves every byte behind size alone. */
  lemma WritesBehind(t: Table, rec: Record, s: Data, size: nat)
    requires HEADER_LEN <= size <= |s| && HEADER_LEN + |Written(t, rec, size)| <= |s|
    ensures HEADER_LEN + |Written(t, rec, size)| <= size
            ==> Filled(s, Written(t, rec, size))[size..] == s[size..]
    ensures HEADER_LEN + |Written(t, rec, size)| > size
            ==> Filled(s, Written(t, rec, size))[size..HEADER_LEN + |Written(t, rec, size)|] == Written(t, rec, size)[size - HEADER_LEN..]
  {}

  /** The calls made so far, before those of the rest of the loop, are the calls of the whole run. */
  ghost predicate SoFar(whole: (Status, seq<Field>), fset: seq<Field>, rest: (Status, seq<Field>)) {
    whole == (rest.0, fset + rest.1)
  }

  lemma SoFarNext(whole: (Status, seq<Field>), fset: seq<Field>, e: Field, rest: (Status, seq<Field>))
    requires SoFar(whole, fset, (rest.0, [e] + rest.1))
    ensures SoFar(whole, fset + [e], rest)
  {
    assert fset + ([e] + rest.1) == (fset + [e]) + rest.1;
  }

  lemma SoFarEnds(whole: (Status, seq<Field>), fset: seq<Field>)
    ensures SoFar(whole, [], whole)
    ensures forall st :: SoFar(whole, fset, (st, [])) ==> whole == (st, fset)
  {
    assert [] + whole.1 == whole.1 && fset + [] == fset;
  }

  /** memcpy and ntoh of the data of an entry. */
  method ReadData(t: Table, buf: array<byte>, offset: nat, id: nat, n: nat) returns (r: Parsed)
    ensures r == EntryWith(t, buf[..], offset, id, n)
  {
    if n >= MAX_FIELD_LEN {
      return Stop(ErrNoMem);
    }
    if offset + ENTRY_LEN + n > buf.Length || t.width(id) > n || t.width(id) !in {0, 2, 4, 8} {
      return Stop(Undefined);
    }
    var data := Load(buf, offset + ENTRY_LEN, n);
    return Entry(Field(id, Swap(data, t.width(id))));
  }

  /** The body of the loop up to the call of fset. */
  method ReadEntry(t: Table, buf: array<byte>, offset: nat) returns (r: Parsed)
    ensures r == EntryAt(t, buf[..], offset)
  {
    if offset + ENTRY_LEN > buf.Length {
      return Stop(Undefined);
    }
    var id := Load16(buf, offset);
    var n := Load16(buf, offset + 2);
    r := ReadData(t, buf, offset, id, n);
  }

  /** The loop over the entries: fset collects the calls of lnf_rec_fset. */
  method ReadEntries(t: Table, buf: array<byte>, limit: nat) returns (st: Status, fset: seq<Field>)
    ensures (st, fset) == DecodeFrom(EntriesOf(t, buf[..]), limit, HEADER_LEN)
  {
    fset := [];
    var offset := HEADER_LEN;
    ghost var at := EntriesOf(t, buf[..]);
    ghost var whole := DecodeFrom(at, limit, offset);
    SoFarEnds(whole, fset);
    while offset < limit
      invariant SoFar(whole, fset, DecodeFrom(at, limit, offset))
    {
      var r := ReadEntry(t, buf, offset);
      assert r == at(offset);
      match r {
        case Stop(s) =>
          SoFarEnds(whole, fset);
          return s, fset;
        case Entry(e) =>
          offset := offset + ENTRY_LEN + |e.data|;
          SoFarNext(whole, fset, e, DecodeFrom(at, limit, offset));
          fset := fset + [e];
      }
    }
    SoFarEnds(whole, fset);
    return Ok, fset;
  }

  /** lnf_rec_set_raw. */
  method SetRaw(t: Table, buf: array<byte>, size: nat) returns (st: Status, fset: seq<Field>)
    requires HEADER_LEN <= buf.Length
    ensures (st, fset) == Decode(t, buf[..], size)
  {
    var limit := Load16(buf, 2);
    if size < HEADER_LEN || buf[0] != VERSION || limit + HEADER_LEN > size {
      return ErrOther, [];
    }
    st, fset := ReadEntries(t, buf, limit);
  }

  /** The record that a list of fset calls leaves, starting from a cleared one. */
  function Rebuild(es: seq<Field>): Record {
    if es == [] then map[] else Rebuild(es[..|es| - 1])[es[|es| - 1].id := es[|es| - 1].data]
  }

  lemma {:induction false} RebuildFields(rec: Record, n: nat)
    ensures Rebuild(Fields(rec, n)) == map f | f in rec && f < n :: rec[f]
  {
    if n > 0 {
      RebuildFields(rec, n - 1);
      if n - 1 in rec {
        var es := Fields(rec, n - 1);
        assert Fields(rec, n)[..|es|] == es;
      } else {
        assert Fields(rec, n) == Fields(rec, n - 1);
      }
    }
  }

  lemma {:induction false} FieldsHaveData(t: Table, rec: Record, n: nat)
    requires t.Valid() && RecordOK(t, rec)
    ensures forall i :: 0 <= i < |Fields(rec, n)| ==> Fields(rec, n)[i].data != []
  {
    if n > 0 {
      FieldsHaveData(t, rec, n - 1);
    }
  }

  /** A record, written to any buffer and read back: fset gets exactly the fields fget gave, in their order,
      and the new record is the old one. */
  lemma TransferKeepsRecord(t: Table, rec: Record, s: Data, size: nat)
    requires t.Valid() && RecordOK(t, rec)
    requires |FieldsEnc(t, rec, FIELD_TERM)| < 0x1_0000 && HEADER_LEN + |FieldsEnc(t, rec, FIELD_TERM)| <= |s|
    requires HEADER_LEN + |FieldsEnc(t, rec, FIELD_TERM)| <= size
    ensures Decode(t, Filled(s, FieldsEnc(t, rec, FIELD_TERM)), size) == (Ok, Fields(rec, FIELD_TERM))
    ensures Rebuild(Fields(rec, FIELD_TERM)) == rec
  {
    FieldsOK(t, rec, FIELD_TERM);
    FieldsHaveData(t, rec, FIELD_TERM);
    RoundTrip(t, s, Fields(rec, FIELD_TERM), size);
    RebuildFields(rec, FIELD_TERM);
  }

  /** A buffer from elsewhere can end with an entry without data, say an empty user name; it is lost. */
  lemma EmptyLastFieldIsLost(t: Table, s: Data, es: seq<Field>, size: nat)
    requires EntriesOK(t, es) && t.width(USERNAME) == 0 && |EncodeAll(t, es + [Field(USERNAME, [])])| < 0x1_0000
    requires HEADER_LEN + |EncodeAll(t, es + [Field(USERNAME, [])])| <= size <= |s|
    ensures EntriesOK(t, es + [Field(USERNAME, [])])
    ensures Decode(t, Filled(s, EncodeAll(t, es + [Field(USERNAME, [])])), size) == (Ok, es)
  {
    RoundTrip(t, s, es + [Field(USERNAME, [])], size);
    assert (es + [Field(USERNAME, [])])[..|es|] == es;
  }
}
