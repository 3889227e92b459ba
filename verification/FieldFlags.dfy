/** What the flags of lnf_mem_fadd come to (src/memheap.c:351-445): which fields are keys, and what a row
    holds of the others. */
module FieldFlags {
  import opened Aggregate
  import opened Bytes
  import opened FieldList
  import opened MemHeap
  import Totals

  /** A field is a key when that is asked for, or when nothing is asked for and it is a time with an interval
      or a key by the field table. */
  lemma KeyExactly(info: Info, flag: Flag, numbits: int)
    requires info.Known?
    ensures FlagOf(info, flag, numbits) == KeyFlag
            <==> flag == KeyFlag || (flag == Default && ((info.kind == U64 && numbits > 0) || info.aggr == KeyFlag))
  {}

  /** How many values an integer of this type has. */
  function Range(kind: Kind): (n: nat)
    requires kind in {U8, U16, U32, U64}
  {
    match kind
    case U8 => 0x100
    case U16 => 0x1_0000
    case U32 => 0x1_0000_0000
    case U64 => 0x1_0000_0000_0000_0000
  }

  lemma RangeOf(kind: Kind)
    requires kind in {U8, U16, U32, U64}
    ensures Totals.Pow256(SizeOf(kind)) == Range(kind)
  {
    assert Totals.Pow256(1) == 0x100;
    assert Totals.Pow256(2) == 0x1_0000;
    assert Totals.Pow256(4) == 0x1_0000_0000;
    assert Totals.Pow256(6) == 0x1_0000_0000_0000;
    assert Totals.Pow256(8) == 0x1_0000_0000_0000_0000;
  }

  ghost predicate ColumnOf(kind: Kind, col: seq<Data>) {
    col != [] && forall d :: d in col ==> |d| == SizeOf(kind)
  }

  lemma {:induction false} FirstStays(col: seq<Data>, n: nat)
    requires col != [] && forall d :: d in col ==> |d| == n
    ensures Fold(Op.Empty, col, n) == col[0]
  {
    if |col| > 1 {
      FirstStays(col[..|col| - 1], n);
    }
  }

  /** What the values col of an integer field come to under a flag. */
  ghost predicate FlagMeans(kind: Kind, flag: Flag, col: seq<Data>, d: Data)
    requires kind in {U8, U16, U32, U64} && ColumnOf(kind, col) && |d| == SizeOf(kind)
  {
    match flag
    case SumFlag => LeVal(d) == SumOf(col) % Range(kind)
    case MinFlag => d in col && forall j :: 0 <= j < |col| ==> LeVal(d) <= LeVal(col[j])
    case MaxFlag => d in col && forall j :: 0 <= j < |col| ==> LeVal(d) >= LeVal(col[j])
    case OrFlag => forall k :: 0 <= k < 8 * SizeOf(kind) ==> (ToBits(d)[k] <==> AnyBit(col, k))
    case _ => d == col[0]
  }

  /** The function that lnf_mem_fadd selects makes of the values of a field what its flag says; addresses keep
      the first one. */
  lemma FlagAggregates(kind: Kind, flag: Flag, col: seq<Data>)
    requires ColumnOf(kind, col)
    ensures kind in {U8, U16, U32, U64} ==> FlagMeans(kind, flag, col, Fold(OpOf(kind, flag), col, SizeOf(kind)))
    ensures kind == Addr ==> Fold(OpOf(kind, flag), col, SizeOf(kind)) == col[0] && |col[0]| == 16
    ensures kind == Mac ==> Fold(OpOf(kind, flag), col, SizeOf(kind)) == col[0] && |col[0]| == 6
  {
    var n := SizeOf(kind);
    FirstStays(col, n);
    if kind in {U8, U16, U32, U64} {
      match flag {
        case SumFlag =>
          FoldSum(col, n);
          Totals.LowIsMod(SumOf(col), n);
          RangeOf(kind);
        case MinFlag | MaxFlag =>
          forall j | 0 <= j < |col|
            ensures Fold(Min, col, n) in col && LeVal(Fold(Min, col, n)) <= LeVal(col[j])
            ensures Fold(Max, col, n) in col && LeVal(Fold(Max, col, n)) >= LeVal(col[j])
          {
            FoldExtreme(col, n, j);
          }
          FoldExtreme(col, n, 0);
        case OrFlag =>
          forall k | 0 <= k < 8 * n ensures ToBits(Fold(Or, col, n))[k] <==> AnyBit(col, k) {
            FoldOr(col, n, k);
          }
        case _ =>
      }
    }
  }
}
