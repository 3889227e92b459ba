/** The fast aggregation mode: lnf_fastaggr_t, lnf_mem_fastaggr_callback and the values lnf_mem_write
    builds for it (src/memheap.c:332-349, 587-598, 727-739). */
module FastAggr {
  import opened Aggregate
  import opened Bytes
  import opened FieldList
  import opened RecordBuffer
  import opened Rows
  import opened TableSpec

  const FIRST := 1        // LNF_FLD_FIRST
  const LAST := 2         // LNF_FLD_LAST
  const DOCTETS := 4      // LNF_FLD_DOCTETS
  const DPKTS := 5        // LNF_FLD_DPKTS
  const AGGR_FLOWS := 8    // LNF_FLD_AGGR_FLOWS

  const STRUCT_LEN := 40   // sizeof(lnf_fastaggr_t): five uint64_t

  /** The value list that lnf_mem_fastaggr leaves when it was empty. */
  function FastFields(): seq<Fld> {
    [Fld(FIRST, 8, U64, Min, NoSort, 0, 0), Fld(LAST, 8, U64, Max, NoSort, 0, 0),
     Fld(DOCTETS, 8, U64, Sum, NoSort, 0, 0), Fld(DPKTS, 8, U64, Sum, NoSort, 0, 0),
     Fld(AGGR_FLOWS, 8, U64, Sum, NoSort, 0, 0)]
  }

  /** Member i of the struct. */
  function Member(d: Data, i: nat): (r: Data)
    requires |d| == STRUCT_LEN && i < 5
    ensures |r| == 8
  {
    d[8 * i..8 * i + 8]
  }

  /** The sum of two integers in their width. */
  function Added(a: Data, b: Data): (r: Data)
    ensures |r| == |a|
  {
    LePut(LeVal(a) + LeVal(b), |a|)
  }

  /** The struct after the callback. */
  function FastCombine(h: Data, u: Data): (r: Data)
    requires |h| == |u| == STRUCT_LEN
    ensures |r| == STRUCT_LEN
  {
    (if LeVal(Member(u, 0)) < LeVal(Member(h, 0)) then Member(u, 0) else Member(h, 0))
    + (if LeVal(Member(u, 1)) > LeVal(Member(h, 1)) then Member(u, 1) else Member(h, 1))
    + Added(Member(h, 2), Member(u, 2))
    + Added(Member(h, 3), Member(u, 3))
    + Added(Member(h, 4), Member(u, 4))
  }

  function FastFor(): (Data, Data) -> Data {
    (h, u) => if |h| == |u| == STRUCT_LEN then FastCombine(h, u) else h
  }

  /** The struct built from a record. */
  function FastValue(rec: Record): Data {
    rec(FIRST) + rec(LAST) + rec(DOCTETS) + rec(DPKTS) + rec(AGGR_FLOWS)
  }

  lemma FastOffsets()
    ensures forall i :: 0 <= i <= 5 ==> Offset(FastFields(), i) == 8 * i
    ensures Total(FastFields()) == STRUCT_LEN
  {}

  /** The list offsets are the struct offsets. */
  lemma PartIsMember(d: Data, i: nat)
    requires |d| == STRUCT_LEN && i < 5
    ensures Sized(FastFields(), d) && Part(FastFields(), d, i) == Member(d, i)
  {}

  lemma MembersOf(a: Data, b: Data, c: Data, d: Data, e: Data)
    requires |a| == |b| == |c| == |d| == |e| == 8
    ensures var s := a + b + c + d + e;
            Member(s, 0) == a && Member(s, 1) == b && Member(s, 2) == c && Member(s, 3) == d && Member(s, 4) == e
  {}

  lemma CombinedMembers(h: Data, u: Data)
    requires |h| == |u| == STRUCT_LEN
    ensures var r := FastCombine(h, u);
            && Member(r, 0) == (if LeVal(Member(u, 0)) < LeVal(Member(h, 0)) then Member(u, 0) else Member(h, 0))
            && Member(r, 1) == (if LeVal(Member(u, 1)) > LeVal(Member(h, 1)) then Member(u, 1) else Member(h, 1))
            && Member(r, 2) == Added(Member(h, 2), Member(u, 2))
            && Member(r, 3) == Added(Member(h, 3), Member(u, 3))
            && Member(r, 4) == Added(Member(h, 4), Member(u, 4))
  {
    MembersOf(if LeVal(Member(u, 0)) < LeVal(Member(h, 0)) then Member(u, 0) else Member(h, 0),
              if LeVal(Member(u, 1)) > LeVal(Member(h, 1)) then Member(u, 1) else Member(h, 1),
              Added(Member(h, 2), Member(u, 2)),
              Added(Member(h, 3), Member(u, 3)),
              Added(Member(h, 4), Member(u, 4)));
  }

  lemma CombinedMember(h: Data, u: Data, i: nat)
    requires |h| == |u| == STRUCT_LEN && i < 5
    ensures Member(FastCombine(h, u), i) == Combine(FastFields()[i].op, Member(h, i), Member(u, i))
  {
    CombinedMembers(h, u);
  }

  lemma FastPart(h: Data, u: Data, i: nat)
    requires |h| == |u| == STRUCT_LEN && i < 5
    ensures Sized(FastFields(), FastCombine(h, u)) && Sized(FastFields(), h) && Sized(FastFields(), u)
    ensures Sized(FastFields(), Aggr(FastFields(), h, u))
    ensures Part(FastFields(), FastCombine(h, u), i) == Part(FastFields(), Aggr(FastFields(), h, u), i)
  {
    PartIsMember(h, i);
    PartIsMember(u, i);
    PartIsMember(FastCombine(h, u), i);
    PartOfAggr(FastFields(), h, u, i);
    CombinedMember(h, u, i);
  }

  /** The fast callback is the generic one on this list. */
  lemma FastIsAggr(h: Data, u: Data)
    requires |h| == |u| == STRUCT_LEN
    ensures FastCombine(h, u) == Aggr(FastFields(), h, u)
  {
    var r := FastCombine(h, u);
    PartIsMember(r, 0);
    PartIsMember(h, 0);
    PartIsMember(u, 0);
    PartOfAggr(FastFields(), h, u, 0);
    forall i | 0 <= i < 5 ensures Part(FastFields(), r, i) == Part(FastFields(), Aggr(FastFields(), h, u), i) {
      FastPart(h, u, i);
    }
    SameParts(FastFields(), r, Aggr(FastFields(), h, u));
  }

  /** The struct built from a record is the buffer lnf_mem_fill_buf makes for this list. */
  lemma FastValueIsBuffer(cat: Catalog, rec: Record)
    requires RecordOK(cat, rec)
    requires cat.size(FIRST) == cat.size(LAST) == cat.size(DOCTETS) == cat.size(DPKTS) == cat.size(AGGR_FLOWS) == 8
    ensures FastValue(rec) == WholeBuffer(cat, FastFields(), rec, 0) && |FastValue(rec)| == STRUCT_LEN
  {
    var fs := FastFields();
    assert Buffer(cat, fs, 1, rec, 0) == rec(FIRST);
    assert Buffer(cat, fs, 2, rec, 0) == rec(FIRST) + rec(LAST);
    assert Buffer(cat, fs, 3, rec, 0) == rec(FIRST) + rec(LAST) + rec(DOCTETS);
    assert Buffer(cat, fs, 4, rec, 0) == rec(FIRST) + rec(LAST) + rec(DOCTETS) + rec(DPKTS);
  }

  // ---------- the code ----------

  method LoadMember(s: array<byte>, i: nat) returns (x: nat)
    requires s.Length == STRUCT_LEN && i < 5
    ensures x == LeVal(Member(s[..], i))
  {
    var d := Load(s, 8 * i, 8);
    x := LeVal(d);
  }

  /** s with member i replaced. */
  function WithMember(s: Data, i: nat, d: Data): (r: Data)
    requires |s| == STRUCT_LEN && i < 5 && |d| == 8
    ensures |r| == STRUCT_LEN
  {
    Patch(s, 8 * i, d)
  }

  lemma WithMembers(s: Data, i: nat, d: Data, j: nat)
    requires |s| == STRUCT_LEN && i < 5 && |d| == 8 && j < 5
    ensures Member(WithMember(s, i, d), j) == if i == j then d else Member(s, j)
  {
    var r := WithMember(s, i, d);
    forall k | 0 <= k < 8 ensures Member(r, j)[k] == if i == j then d[k] else Member(s, j)[k] {
      assert Member(r, j)[k] == r[8 * j + k];
    }
  }

  lemma SplitMembers(s: Data)
    requires |s| == STRUCT_LEN
    ensures s == Member(s, 0) + Member(s, 1) + Member(s, 2) + Member(s, 3) + Member(s, 4)
  {}

  /** A struct is known by its members. */
  lemma SameMembers(s: Data, t: Data)
    requires |s| == |t| == STRUCT_LEN
    requires Member(s, 0) == Member(t, 0) && Member(s, 1) == Member(t, 1) && Member(s, 2) == Member(t, 2)
    requires Member(s, 3) == Member(t, 3) && Member(s, 4) == Member(t, 4)
    ensures s == t
  {
    SplitMembers(s);
    SplitMembers(t);
  }

  ghost predicate OthersKept(s: Data, was: Data, i: nat)
    requires |s| == |was| == STRUCT_LEN
  {
    && (i != 0 ==> Member(s, 0) == Member(was, 0)) && (i != 1 ==> Member(s, 1) == Member(was, 1))
    && (i != 2 ==> Member(s, 2) == Member(was, 2)) && (i != 3 ==> Member(s, 3) == Member(was, 3))
    && (i != 4 ==> Member(s, 4) == Member(was, 4))
  }

  method StoreMember(s: array<byte>, i: nat, x: nat)
    requires s.Length == STRUCT_LEN && i < 5
    modifies s
    ensures Member(s[..], i) == LePut(x, 8) && OthersKept(s[..], old(s[..]), i)
  {
    ghost var was := s[..];
    Copy(s, 8 * i, LePut(x, 8));
    forall j | 0 <= j < 5 ensures Member(s[..], j) == if i == j then LePut(x, 8) else Member(was, j) {
      WithMembers(was, i, LePut(x, 8), j);
    }
  }

  /** h->m += u->m for member i. */
  method AddMember(h: array<byte>, u: array<byte>, i: nat)
    requires h.Length == u.Length == STRUCT_LEN && h != u && i < 5
    modifies h
    ensures Member(h[..], i) == Added(Member(old(h[..]), i), Member(u[..], i))
    ensures OthersKept(h[..], old(h[..]), i)
  {
    var hv := LoadMember(h, i);
    var uv := LoadMember(u, i);
    StoreMember(h, i, hv + uv);
  }

  /** h->m = u->m if the latter is less, or greater. */
  method PickMember(h: array<byte>, u: array<byte>, i: nat, less: bool)
    requires h.Length == u.Length == STRUCT_LEN && h != u && i < 5
    modifies h
    ensures var hm, um := Member(old(h[..]), i), Member(u[..], i);
            Member(h[..], i) == if (if less then LeVal(um) < LeVal(hm) else LeVal(um) > LeVal(hm)) then um else hm
    ensures OthersKept(h[..], old(h[..]), i)
  {
    var hv := LoadMember(h, i);
    var uv := LoadMember(u, i);
    PutVal(Member(u[..], i));
    if if less then uv < hv else uv > hv {
      StoreMember(h, i, uv);
    }
  }

  /** The three counters. */
  method AddMembers(h: array<byte>, u: array<byte>)
    requires h.Length == u.Length == STRUCT_LEN && h != u
    modifies h
    ensures Member(h[..], 0) == Member(old(h[..]), 0) && Member(h[..], 1) == Member(old(h[..]), 1)
    ensures forall i :: 2 <= i < 5 ==> Member(h[..], i) == Added(Member(old(h[..]), i), Member(u[..], i))
  {
    AddMember(h, u, 2);
    AddMember(h, u, 3);
    AddMember(h, u, 4);
  }

  /** lnf_mem_fastaggr_callback. */
  method FastCallback(h: array<byte>, u: array<byte>)
    requires h.Length == u.Length == STRUCT_LEN && h != u
    modifies h
    ensures h[..] == FastCombine(old(h[..]), u[..])
  {
    ghost var was := h[..];
    PickMember(h, u, 0, true);
    PickMember(h, u, 1, false);
    AddMembers(h, u);
    CombinedMembers(was, u[..]);
    SameMembers(h[..], FastCombine(was, u[..]));
  }

  // ---------- whole tables ----------

  ghost predicate Alike(ok: Data -> bool, f: (Data, Data) -> Data, g: (Data, Data) -> Data) {
    forall a, b :: ok(a) && ok(b) ==> f(a, b) == g(a, b) && ok(f(a, b))
  }

  /** Functions that agree on the values of a log build the same table from it. */
  lemma {:induction false} PutAllAlike<K>(log: seq<Item<K, Data>>, ok: Data -> bool, f: (Data, Data) -> Data, g: (Data, Data) -> Data)
    requires Alike(ok, f, g) && forall i :: 0 <= i < |log| ==> ok(log[i].val)
    ensures PutAll(map[], log, f) == PutAll(map[], log, g)
    ensures forall k :: k in PutAll(map[], log, f) ==> ok(PutAll(map[], log, f)[k])
  {
    if log != [] {
      PutAllAlike(log[..|log| - 1], ok, f, g);
    }
  }

  /** Any log of struct values gives the same table in fast and in generic mode. */
  lemma FastTable<K>(log: seq<Item<K, Data>>)
    requires forall i :: 0 <= i < |log| ==> |log[i].val| == STRUCT_LEN
    ensures PutAll(map[], log, FastFor()) == PutAll(map[], log, AggrFor(FastFields()))
  {
    var ok := (d: Data) => |d| == STRUCT_LEN;
    forall a, b | ok(a) && ok(b)
      ensures FastFor()(a, b) == AggrFor(FastFields())(a, b) && ok(FastFor()(a, b))
    {
      FastIsAggr(a, b);
    }
    PutAllAlike(log, ok, FastFor(), AggrFor(FastFields()));
  }
}
