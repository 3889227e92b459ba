/** The list of key or value fields of a memory heap: lnf_filedlist_add_or_upd and lnf_filedlist_lookup
    (src/memheap.c:226-306). */
module FieldList {

  datatype Kind = U8 | U16 | U32 | U64 | Addr | Mac

  datatype Op = Sum | Min | Max | Or | Empty

  datatype Sorting = NoSort | Asc | Desc

  /** A field of a list: everything in lnf_fieldlist_t but the offset and the link. */
  datatype Fld = Fld(id: nat, size: nat, kind: Kind, op: Op, sorting: Sorting, numbits: int, numbits6: int)

  datatype Status = Ok | NoMem

  // ---------- lists as sequences ----------

  /** Where field i starts: the sizes of the fields before it. */
  function Offset(fs: seq<Fld>, i: nat): nat
    requires i <= |fs|
  {
    if i == 0 then 0 else Offset(fs, i - 1) + fs[i - 1].size
  }

  function Total(fs: seq<Fld>): nat {
    Offset(fs, |fs|)
  }

  ghost predicate Absent(fs: seq<Fld>, id: nat) {
    forall i :: 0 <= i < |fs| ==> fs[i].id != id
  }

  ghost predicate UniqueIds(fs: seq<Fld>) {
    fs == [] || (UniqueIds(fs[..|fs| - 1]) && Absent(fs[..|fs| - 1], fs[|fs| - 1].id))
  }

  lemma {:induction false} IdsDiffer(fs: seq<Fld>, i: nat, j: nat)
    requires UniqueIds(fs) && i < j < |fs|
    ensures fs[i].id != fs[j].id
  {
    if j == |fs| - 1 {
      assert fs[..|fs| - 1][i] == fs[i];
    } else {
      IdsDiffer(fs[..|fs| - 1], i, j);
    }
  }

  lemma {:induction false} OffsetMonotone(fs: seq<Fld>, i: nat, j: nat)
    requires i <= j <= |fs|
    ensures Offset(fs, i) <= Offset(fs, j)
  {
    if i < j {
      OffsetMonotone(fs, i, j - 1);
    }
  }

  lemma {:induction false} SameOffsets(fs: seq<Fld>, gs: seq<Fld>, i: nat)
    requires i <= |fs| && i <= |gs|
    requires forall j :: 0 <= j < i ==> fs[j].size == gs[j].size
    ensures Offset(fs, i) == Offset(gs, i)
  {
    if i > 0 {
      SameOffsets(fs, gs, i - 1);
    }
  }

  /** An update keeps the identity, the size, the type and with them the place of a field. */
  function Updated(f: Fld, s: Fld): Fld {
    f.(op := s.op, sorting := s.sorting, numbits := s.numbits, numbits6 := s.numbits6)
  }

  /** The position of the field called id, or |fs|. */
  function Position(fs: seq<Fld>, id: nat): (i: nat)
    ensures i <= |fs| && (i < |fs| ==> fs[i].id == id)
    ensures i == |fs| ==> forall j :: 0 <= j < |fs| ==> fs[j].id != id
  {
    if fs == [] then 0 else if fs[0].id == id then 0 else 1 + Position(fs[1..], id)
  }

  lemma PositionUnique(fs: seq<Fld>, i: nat)
    requires UniqueIds(fs) && i < |fs|
    ensures Position(fs, fs[i].id) == i
  {
    var p := Position(fs, fs[i].id);
    if p < i {
      IdsDiffer(fs, p, i);
    } else if i < p < |fs| {
      IdsDiffer(fs, i, p);
    }
  }

  /** What adding or updating s does to a list with room for maxsize bytes.  The length check sees the
      offset 0 of a node that is not linked yet, so only the size of the new field is compared. */
  function AddOrUpdated(fs: seq<Fld>, s: Fld, maxsize: int): seq<Fld> {
    var i := Position(fs, s.id);
    if i < |fs| then fs[i := Updated(fs[i], s)]
    else if fs == [] || s.size < maxsize then fs + [s]
    else fs
  }

  lemma {:induction false} UpdateKeepsUnique(fs: seq<Fld>, i: nat, f: Fld)
    requires UniqueIds(fs) && i < |fs| && f.id == fs[i].id
    ensures UniqueIds(fs[i := f])
  {
    var n := |fs| - 1;
    if i < n {
      UpdateKeepsUnique(fs[..n], i, f);
      assert fs[i := f][..n] == fs[..n][i := f];
    } else {
      assert fs[i := f][..n] == fs[..n];
    }
  }

  lemma AddKeepsUnique(fs: seq<Fld>, s: Fld, maxsize: int)
    requires UniqueIds(fs)
    ensures UniqueIds(AddOrUpdated(fs, s, maxsize))
  {
    var i := Position(fs, s.id);
    if i < |fs| {
      UpdateKeepsUnique(fs, i, Updated(fs[i], s));
    } else {
      assert (fs + [s])[..|fs|] == fs;
    }
  }

  /** No call moves a field that is in the list. */
  lemma AddKeepsOffsets(fs: seq<Fld>, s: Fld, maxsize: int, i: nat)
    requires i <= |fs|
    ensures |fs| <= |AddOrUpdated(fs, s, maxsize)| && Offset(AddOrUpdated(fs, s, maxsize), i) == Offset(fs, i)
  {
    SameOffsets(AddOrUpdated(fs, s, maxsize), fs, i);
  }

  lemma {:induction false} PositionAfter(fs: seq<Fld>, s: Fld, maxsize: int)
    ensures var i := Position(fs, s.id);
            (i < |fs| || AddOrUpdated(fs, s, maxsize) != fs) ==> Position(AddOrUpdated(fs, s, maxsize), s.id) == i
  {
    if fs != [] && fs[0].id != s.id {
      PositionAfter(fs[1..], s, maxsize);
      var i, rest := Position(fs[1..], s.id), fs[1..];
      if i < |rest| {
        assert fs[i + 1 := Updated(fs[i + 1], s)][1..] == rest[i := Updated(rest[i], s)];
      } else {
        assert (fs + [s])[1..] == rest + [s];
      }
    }
  }

  /** A second call for a field replaces what the first one asked for: the list is as if only the second had
      been made. */
  lemma LastCallWins(fs: seq<Fld>, s: Fld, t: Fld, maxsize: int)
    requires t.id == s.id && t.size == s.size && t.kind == s.kind
    ensures AddOrUpdated(AddOrUpdated(fs, s, maxsize), t, maxsize) == AddOrUpdated(fs, t, maxsize)
  {
    var gs, i := AddOrUpdated(fs, s, maxsize), Position(fs, s.id);
    PositionAfter(fs, s, maxsize);
    if i < |fs| {
      assert gs[i := Updated(gs[i], t)] == fs[i := Updated(fs[i], t)];
    } else if fs == [] || s.size < maxsize {
      assert gs[i := Updated(gs[i], t)] == fs + [t];
    }
  }

  function AddAll(fs: seq<Fld>, adds: seq<Fld>, maxsize: int): seq<Fld> {
    if adds == [] then fs else AddOrUpdated(AddAll(fs, adds[..|adds| - 1], maxsize), adds[|adds| - 1], maxsize)
  }

  /** After any calls no field is listed twice, the fields lie side by side from 0 to the total, and what
      was listed before is where it was. */
  lemma {:induction false} AnyAddsTile(fs: seq<Fld>, adds: seq<Fld>, maxsize: int, i: nat, j: nat)
    requires UniqueIds(fs) && i < j <= |AddAll(fs, adds, maxsize)|
    ensures var gs := AddAll(fs, adds, maxsize);
            && UniqueIds(gs) && |fs| <= |gs|
            && Offset(gs, i) + gs[i].size <= Offset(gs, j) <= Total(gs)
            && (j <= |fs| ==> Offset(gs, j) == Offset(fs, j))
  {
    var gs := AddAll(fs, adds, maxsize);
    if adds != [] {
      var before := AddAll(fs, adds[..|adds| - 1], maxsize);
      if before != [] {
        AnyAddsTile(fs, adds[..|adds| - 1], maxsize, 0, if j <= |before| then j else |before|);
      }
      AddKeepsUnique(before, adds[|adds| - 1], maxsize);
      if j <= |before| {
        AddKeepsOffsets(before, adds[|adds| - 1], maxsize, j);
      }
    }
    OffsetMonotone(gs, i + 1, j);
    OffsetMonotone(gs, j, |gs|);
  }

  // ---------- when a list fits its buffer ----------

  /** What a call adds to the size of the list. */
  function Growth(fs: seq<Fld>, s: Fld, maxsize: int): nat {
    if Position(fs, s.id) == |fs| && (fs == [] || s.size < maxsize) then s.size else 0
  }

  lemma TotalGrows(fs: seq<Fld>, s: Fld, maxsize: int)
    ensures Total(AddOrUpdated(fs, s, maxsize)) == Total(fs) + Growth(fs, s, maxsize)
  {
    SameOffsets(AddOrUpdated(fs, s, maxsize), fs, |fs|);
  }

  /** A new field that the length check lets through leaves a list that fits exactly when it fits behind
      what is there. */
  lemma AddFits(fs: seq<Fld>, s: Fld, maxsize: int)
    requires Position(fs, s.id) == |fs| && (fs == [] || s.size < maxsize)
    ensures Total(AddOrUpdated(fs, s, maxsize)) <= maxsize <==> Total(fs) + s.size <= maxsize
  {
    TotalGrows(fs, s, maxsize);
  }

  /** Before every call the caller has seen that the reported size leaves room for what it adds. */
  predicate Watched(fs: seq<Fld>, adds: seq<Fld>, maxsize: int) {
    adds == []
    || (var init, last := adds[..|adds| - 1], adds[|adds| - 1];
        Watched(fs, init, maxsize) && Total(AddAll(fs, init, maxsize)) + Growth(AddAll(fs, init, maxsize), last, maxsize) <= maxsize)
  }

  /** A list built by any calls fits its buffer exactly when each of them was watched. */
  lemma {:induction false} ListFits(fs: seq<Fld>, adds: seq<Fld>, maxsize: int)
    requires Total(fs) <= maxsize
    ensures Total(fs) <= Total(AddAll(fs, adds, maxsize))
    ensures Total(AddAll(fs, adds, maxsize)) <= maxsize <==> Watched(fs, adds, maxsize)
  {
    if adds != [] {
      ListFits(fs, adds[..|adds| - 1], maxsize);
      TotalGrows(AddAll(fs, adds[..|adds| - 1], maxsize), adds[|adds| - 1], maxsize);
    }
  }

  function SampleField(n: nat): Fld {
    if n <= 14 then Fld(n, 16, Addr, Empty, NoSort, 32, 128) else Fld(n, 8, U64, Sum, NoSort, 0, 0)
  }

  /** Up to 14 addresses, as many as the field table has, and then counters of eight bytes. */
  function Sample(n: nat): seq<Fld> {
    if n == 0 then [] else Sample(n - 1) + [SampleField(n)]
  }

  lemma {:induction false} SampleIds(n: nat)
    ensures |Sample(n)| == n && forall i :: 0 <= i < n ==> Sample(n)[i].id <= n
  {
    if n > 0 {
      SampleIds(n - 1);
    }
  }

  lemma TotalSnoc(fs: seq<Fld>, f: Fld)
    ensures Total(fs + [f]) == Total(fs) + f.size
  {
    SameOffsets(fs + [f], fs, |fs|);
  }

  lemma {:induction false} SampleTotal(n: nat)
    ensures Total(Sample(n)) == if n <= 14 then 16 * n else 224 + 8 * (n - 14)
  {
    if n > 0 {
      SampleTotal(n - 1);
      TotalSnoc(Sample(n - 1), SampleField(n));
    }
  }

  lemma {:induction false} SampleAccepted(n: nat, maxsize: int)
    requires maxsize > 16
    ensures AddAll([], Sample(n), maxsize) == Sample(n)
  {
    if n > 0 {
      SampleAccepted(n - 1, maxsize);
      SampleIds(n - 1);
      assert Sample(n)[..|Sample(n)| - 1] == Sample(n - 1);
      assert Position(Sample(n - 1), n) == |Sample(n - 1)|;
    }
  }

  /** The code accepts lists that do not fit: 14 addresses and 5 counters take 264 bytes of a value buffer
      of 256. */
  lemma ListOutgrowsBuffer()
    ensures AddAll([], Sample(19), 256) == Sample(19) && Total(Sample(19)) == 264
  {
    SampleAccepted(19, 256);
    SampleTotal(19);
  }

  // ---------- the linked list ----------

  class Node {
    var fld: Fld
    var offset: nat
    var next: Node?

    constructor (fld: Fld)
      ensures this.fld == fld && offset == 0 && next == null
    {
      this.fld, offset, next := fld, 0, null;
    }
  }

  class FieldList {
    var first: Node?
    ghost var nodes: seq<Node>
    ghost var repr: set<Node>
    ghost var flds: seq<Fld>

    ghost function At(i: nat): Node?
      reads this
    {
      if i < |nodes| then nodes[i] else null
    }

    ghost predicate NodesOK(ns: seq<Node>, fs: seq<Fld>)
      requires |ns| == |fs|
      reads ns
    {
      forall i {:trigger ns[i]} :: 0 <= i < |ns| ==> ns[i].fld == fs[i] && ns[i].offset == Offset(fs, i)
    }

    ghost predicate LinksOK()
      reads this, repr
    {
      first == At(0) && forall i {:trigger nodes[i]} :: 0 <= i < |nodes| ==> nodes[i] in repr && nodes[i].next == At(i + 1)
    }

    /** The nodes are linked in order, every field has its place, and no field is there twice. */
    ghost predicate Valid()
      reads this, repr
    {
      |nodes| == |flds| && LinksOK() && NodesOK(nodes, flds) && UniqueIds(flds)
    }

    /** A list that is not touched stays as it is. */
    twostate lemma StaysValid()
      requires old(Valid()) && unchanged(this) && unchanged(repr)
      ensures Valid()
    {}

    lemma NodesDiffer(i: nat, j: nat)
      requires Valid() && i < |nodes| && j < |nodes| && i != j
      ensures nodes[i] != nodes[j]
    {
      if i < j {
        IdsDiffer(flds, i, j);
      } else {
        IdsDiffer(flds, j, i);
      }
    }

    constructor ()
      ensures Valid() && flds == [] && repr == {}
    {
      first, nodes, flds, repr := null, [], [], {};
    }

    /** lnf_filedlist_lookup, also the first loop of an update. */
    method Lookup(id: nat) returns (node: Node?, ghost i: nat)
      requires Valid()
      ensures node == At(Position(flds, id)) && i == Position(flds, id)
    {
      node := first;
      i := 0;
      while node != null
        invariant i <= |nodes| && node == At(i)
        invariant forall j :: 0 <= j < i ==> flds[j].id != id
        decreases |nodes| - i
      {
        if node.fld.id == id {
          PositionUnique(flds, i);
          return;
        }
        node := node.next;
        i := i + 1;
      }
    }

    /** The end of the list seen from a node of it. */
    method Last(from: Node, ghost i: nat) returns (last: Node)
      requires Valid() && i < |nodes| && nodes[i] == from
      ensures last == nodes[|nodes| - 1]
    {
      last := from;
      ghost var j := i;
      while last.next != null
        invariant j < |nodes| && last == nodes[j]
        decreases |nodes| - j
      {
        last := last.next;
        j := j + 1;
      }
    }

    method Update(node: Node, s: Fld, ghost i: nat)
      requires Valid() && i < |nodes| && node == nodes[i] && s.id == node.fld.id
      modifies this`flds, node`fld
      ensures Valid() && flds == old(flds)[i := Updated(old(flds)[i], s)] && nodes == old(nodes) && repr == old(repr)
      ensures node.offset == Offset(flds, i) && Total(flds) == Total(old(flds))
    {
      ghost var was := flds;
      UpdateKeepsUnique(was, i, Updated(was[i], s));
      forall j | 0 <= j < |nodes| && j != i ensures nodes[j] != node {
        NodesDiffer(i, j);
      }
      node.fld := node.fld.(op := s.op, sorting := s.sorting, numbits := s.numbits, numbits6 := s.numbits6);
      flds := flds[i := Updated(was[i], s)];
      forall j | 0 <= j <= |was| ensures Offset(flds, j) == Offset(was, j) {
        SameOffsets(flds, was, j);
      }
    }

    /** node becomes the end of the list; last is the node it is linked to. */
    method Attach(node: Node, last: Node?, offset: nat)
      requires Valid() && node !in repr && node.next == null && Position(flds, node.fld.id) == |flds|
      requires last == (if nodes == [] then null else nodes[|nodes| - 1]) && offset == Total(flds)
      modifies this, last, node
      ensures Valid() && flds == old(flds) + [old(node.fld)] && nodes == old(nodes) + [node] && repr == old(repr) + {node}
    {
      ghost var was := flds;
      forall j | 0 <= j <= |was| ensures Offset(was + [node.fld], j) == Offset(was, j) {
        SameOffsets(was + [node.fld], was, j);
      }
      assert (was + [node.fld])[..|was|] == was;
      if last == null {
        first := node;
      } else {
        forall j | 0 <= j < |nodes| - 1 ensures nodes[j] != last {
          NodesDiffer(j, |nodes| - 1);
        }
        last.next := node;
      }
      node.offset := offset;
      nodes, flds, repr := nodes + [node], flds + [node.fld], repr + {node};
    }

    /** The size of the list and the place of the field called id, as reported to the caller. */
    ghost predicate Reported(id: nat, size: nat, offset: nat)
      reads this
    {
      size == Total(flds) && Position(flds, id) < |flds| && offset == Offset(flds, Position(flds, id))
    }

    method Append(s: Fld, maxsize: int, sizep: nat, roffset: nat) returns (st: Status, size: nat, offset: nat)
      requires Valid() && Position(flds, s.id) == |flds|
      modifies this, repr
      ensures Valid() && flds == AddOrUpdated(old(flds), s, maxsize)
      ensures st == (if old(flds) != [] && s.size >= maxsize then NoMem else Ok)
      ensures if st == Ok then Reported(s.id, size, offset) else size == sizep && offset == roffset
      ensures fresh(repr - old(repr))
    {
      var node := new Node(s);
      var at := 0;
      var last: Node? := null;
      if first != null {
        last := Last(first, 0);
        at := last.offset + last.fld.size;
        if maxsize <= node.offset + node.fld.size {
          return NoMem, sizep, roffset;
        }
      }
      Attach(node, last, at);
      PositionUnique(flds, |flds| - 1);
      SameOffsets(flds, old(flds), |old(flds)|);
      return Ok, at + s.size, at;
    }

    method Change(node: Node, s: Fld, ghost i: nat) returns (size: nat, offset: nat)
      requires Valid() && i < |nodes| && node == nodes[i] && i == Position(flds, s.id)
      modifies this`flds, node`fld
      ensures Valid() && flds == AddOrUpdated(old(flds), s, 0) && nodes == old(nodes) && repr == old(repr)
      ensures Reported(s.id, size, offset)
    {
      Update(node, s, i);
      PositionUnique(flds, i);
      offset := node.offset;
      var last := Last(node, i);
      size := last.offset + last.fld.size;
    }

    /** lnf_filedlist_add_or_upd: size and offset are what *sizep and *roffset hold before and after. */
    method AddOrUpdate(s: Fld, maxsize: int, sizep: nat, roffset: nat) returns (st: Status, size: nat, offset: nat)
      requires Valid()
      modifies this, repr
      ensures Valid() && flds == AddOrUpdated(old(flds), s, maxsize)
      ensures st == NoMem <==> Position(old(flds), s.id) == |old(flds)| && old(flds) != [] && s.size >= maxsize
      ensures if st == Ok then Reported(s.id, size, offset) else size == sizep && offset == roffset
      ensures fresh(repr - old(repr))
    {
      var node, i := Lookup(s.id);
      if node != null {
        size, offset := Change(node, s, i);
        st := Ok;
      } else {
        st, size, offset := Append(s, maxsize, sizep, roffset);
      }
    }
  }
}
