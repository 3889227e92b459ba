/** The comparisons of a filter leaf on integers, flags, strings, MAC addresses and networks
    (ff_oper_eval_V2, src/ffilter/fcore.c:301-560), and when NOT may be folded into them. */
module FilterTests {
  import opened Bytes
  import opened FilterTree
  import Networks
  import opened TableSpec

  // ---------- integers ----------

  predicate Sized1248(n: nat) {
    n in {1, 2, 4, 8}
  }

  /** Integer types that take their width from the data, in host or in network order. */
  predicate AnyWidth(ty: Ty) {
    ty in {UI, UIBE, I, IBE}
  }

  /** The width of the other integer types, 0 for what is no integer. */
  function Width(ty: Ty): nat {
    match ty
    case UI8 | I8 => 8
    case UI4 | I4 => 4
    case UI2 | I2 => 2
    case UI1 | I1 => 1
    case _ => 0
  }

  predicate IsInteger(ty: Ty) {
    AnyWidth(ty) || Width(ty) > 0
  }

  predicate IsSigned(ty: Ty) {
    ty in {I, IBE, I8, I4, I2, I1}
  }

  /** The unsigned value of the data; None where the code returns an error, or would read behind the data. */
  function LoadUI(ty: Ty, d: Data): Option<nat> {
    if AnyWidth(ty) then
      if !Sized1248(|d|) then None
      else if ty in {UIBE, IBE} then Some(BitsVal(ToBits(d)))
      else Some(LeVal(d))
    else if |d| < Width(ty) then None
    else Some(LeVal(d[..Width(ty)]))
  }

  /** x as a two's complement number of n bits. */
  function SignedOf(x: nat, n: nat): int
    requires n > 0
  {
    if x >= Pow2(n - 1) then x - Pow2(n) else x
  }

  /** The value that is compared.  A signed type without a width is widened without its sign. */
  function LoadValue(ty: Ty, x: nat): int
    requires IsInteger(ty)
  {
    if !IsSigned(ty) then x
    else if AnyWidth(ty) then SignedOf(x, 64)
    else SignedOf(x, 8 * Width(ty))
  }

  function Word64(x: nat): (s: Bits)
    ensures |s| == 64
  {
    ValBits(x, 64)
  }

  predicate IsSet(v: Bits, m: Bits)
    requires |v| == |m|
  {
    BitAnd(v, m) == m
  }

  predicate IsNotSet(v: Bits, m: Bits)
    requires |v| == |m|
  {
    BitAnd(v, m) == Zeros(|m|)
  }

  function EvalInteger(rel: Rel, ty: Ty, n: nat, d: Data): int
    requires IsInteger(ty)
  {
    match LoadUI(ty, d)
    case None => -1
    case Some(x) =>
      var a, b := LoadValue(ty, x), if IsSigned(ty) then SignedOf(n, 64) else n;
      match rel
      case EQ => Truth(a == b)
      case GT => Truth(a > b)
      case LT => Truth(a < b)
      case IS => Truth(IsSet(Word64(x), Word64(n)))
      case INS => Truth(IsNotSet(Word64(x), Word64(n)))
  }

  // ---------- strings ----------

  /** A string ends at its first zero byte. */
  function CString(d: Data): Data {
    if d == [] || d[0] == 0 then [] else [d[0]] + CString(d[1..])
  }

  function Lower(b: byte): byte {
    if 65 <= b <= 90 then b + 32 else b
  }

  predicate SameFolded(a: Data, b: Data)
    requires |a| == |b|
  {
    forall i :: 0 <= i < |a| ==> Lower(a[i]) == Lower(b[i])
  }

  predicate FoundAt(s: Data, t: Data, i: nat)
    requires i + |t| <= |s|
  {
    SameFolded(s[i..i + |t|], t)
  }

  /** strcasestr(s, t) != NULL. */
  predicate Contains(s: Data, t: Data) {
    exists i :: 0 <= i <= |s| - |t| && FoundAt(s, t, i)
  }

  function EvalString(rel: Rel, s: Data, d: Data): int {
    match rel
    case EQ => Truth(CString(s) <= CString(d))
    case IS => Truth(Contains(CString(d), CString(s)))
    case INS => Truth(!Contains(CString(d), CString(s)))
    case _ => -1
  }

  /** memcmp over the six bytes of a MAC address. */
  function EvalMac(mac: Data, d: Data): int {
    if |mac| >= 6 && |d| >= 6 then Truth(d[..6] == mac[..6]) else -1
  }

  /** Four bytes are an IPv4 address; otherwise the first sixteen are looked at. */
  function AddressIn(d: Data): Bits {
    ToBits(if |d| < 16 then d else d[..16])
  }

  function EvalNet(ty: Ty, v: Val, d: Data): int
    requires v.Net?
  {
    if |v.ip| != 128 || |v.mask| != 128 || (|d| != 4 && |d| < 16) then -1
    else Truth(Networks.EvalAddress(ty, v, AddressIn(d)))
  }

  // ---------- the whole ----------

  /** Comparisons that are left to others: doubles and MPLS labels. */
  predicate Elsewhere(rel: Rel, ty: Ty) {
    (ty == RE && rel in {EQ, GT, LT}) || (ty in {ML, MLX, MES} && rel in {EQ, GT, LT}) || ty == MEX
  }

  /** ff_oper_eval_V2; rest stands for the comparisons left to others. */
  function OperEval(rest: Test, a: Attr, v: Val, d: Data): int {
    match a
    case Attr(rel, ty) =>
      if IsInteger(ty) && v.Num? then EvalInteger(rel, ty, v.n, d)
      else if ty == STR && v.Text? then EvalString(rel, v.s, d)
      else if ty == MAC && rel == EQ && v.Text? then EvalMac(v.s, d)
      else if ty in {AD4, AD6, ADP} && rel == EQ && v.Net? then EvalNet(ty, v, d)
      else if Elsewhere(rel, ty) then rest(a, v, d)
      else -1
    case _ => -1
  }

  function TestFor(rest: Test): Test {
    (a, v, d) => OperEval(rest, a, v, d)
  }

  // ---------- NOT folded into a bit test ----------

  /** The first z bits of v are zero: it comes from narrower data. */
  ghost predicate Narrow(v: Bits, z: nat) {
    |v| == 64 && z <= 64 && forall i :: 0 <= i < z ==> !v[i]
  }

  ghost predicate OneBit(m: Bits) {
    exists k :: 0 <= k < |m| && m[k] && forall j :: 0 <= j < |m| && m[j] ==> j == k
  }

  /** The folded test gives the same answer as the negated one for every value of this width. */
  ghost predicate FoldsFor(m: Bits, z: nat)
    requires |m| == 64
  {
    forall v {:trigger Narrow(v, z)} :: Narrow(v, z) ==> (IsNotSet(v, m) <==> !IsSet(v, m))
  }

  lemma SingleBit(m: Bits, z: nat, k: nat, j: nat)
    requires |m| == 64 && z <= k < 64 && j < 64 && m[k] && m[j] && FoldsFor(m, z)
    ensures j == k
  {
    var v := seq(64, i => i == k);
    assert Narrow(v, z);
    assert BitAnd(v, m)[k] && !Zeros(64)[k];
    assert IsSet(v, m);
    assert BitAnd(v, m)[j] == m[j];
  }

  lemma FoldOne(v: Bits, m: Bits, z: nat)
    requires |m| == 64 && Narrow(v, z) && m != Zeros(64) && (OneBit(m) || m[z..] == Zeros(64 - z))
    ensures IsNotSet(v, m) <==> !IsSet(v, m)
  {
    if m[z..] == Zeros(64 - z) {
      forall i | 0 <= i < 64 ensures !BitAnd(v, m)[i] {
        assert z <= i ==> m[i] == m[z..][i - z];
      }
      assert BitAnd(v, m) == Zeros(64);
    } else {
      var k :| 0 <= k < |m| && m[k] && forall j :: 0 <= j < |m| && m[j] ==> j == k;
      if v[k] {
        assert BitAnd(v, m) == m;
      } else {
        assert BitAnd(v, m) == Zeros(64);
      }
    }
  }

  /** It does so exactly when the mask is not zero and either has a single bit or none within the width. */
  lemma BitFolding(m: Bits, z: nat)
    requires |m| == 64 && z <= 64
    ensures FoldsFor(m, z) <==> m != Zeros(64) && (OneBit(m) || m[z..] == Zeros(64 - z))
  {
    if FoldsFor(m, z) {
      assert Narrow(Zeros(64), z) && BitAnd(Zeros(64), m) == Zeros(64);
      if m[z..] != Zeros(64 - z) {
        assert exists k :: 0 <= k < 64 - z && m[z..][k] != Zeros(64 - z)[k];
        var k :| 0 <= k < 64 - z && m[z..][k];
        forall j | 0 <= j < 64 && m[j] ensures j == z + k {
          SingleBit(m, z, z + k, j);
        }
      }
    }
    if m != Zeros(64) && (OneBit(m) || m[z..] == Zeros(64 - z)) {
      forall v | Narrow(v, z) ensures IsNotSet(v, m) <==> !IsSet(v, m) {
        FoldOne(v, m, z);
      }
    }
  }

  // ---------- on record data ----------

  lemma {:induction false} NarrowValue(x: nat, n: nat, w: nat)
    requires w <= n && x < Pow2(w)
    ensures forall i :: 0 <= i < n - w ==> !ValBits(x, n)[i]
    decreases n
  {
    if n > 0 && w > 0 {
      NarrowValue(x / 2, n - 1, w - 1);
    } else if n > 0 {
      NarrowValue(0, n - 1, 0);
    }
  }

  lemma {:induction false} PowAdd(a: nat, b: nat)
    ensures Pow2(a + b) == Pow2(a) * Pow2(b)
  {
    if b > 0 {
      PowAdd(a, b - 1);
    }
  }

  lemma {:induction false} LeBound(d: Data)
    ensures LeVal(d) < Pow2(8 * |d|)
  {
    if d != [] {
      LeBound(d[1..]);
      ByteBound();
      PowAdd(8 * (|d| - 1), 8);
    }
  }

  /** w bytes of data are loaded: as many as there are, or as the type says. */
  predicate Loads(ty: Ty, w: nat, d: Data) {
    Sized1248(w) && if AnyWidth(ty) then |d| == w else w == Width(ty) <= |d|
  }

  /** What is loaded from w bytes is narrow. */
  lemma LoadedIsNarrow(ty: Ty, w: nat, d: Data)
    requires IsInteger(ty) && Loads(ty, w, d)
    ensures LoadUI(ty, d).Some? && Narrow(Word64(LoadUI(ty, d).value), 64 - 8 * w)
  {
    LeBound(d[..w]);
    ValBound(ToBits(d[..w]));
    if AnyWidth(ty) {
      assert d[..w] == d;
    }
    NarrowValue(LoadUI(ty, d).value, 64, 8 * w);
  }

  lemma {:induction false} FitsPow(x: nat, n: nat)
    requires x < Pow2(8 * n)
    ensures Fits(x, n)
  {
    if n > 0 {
      ByteBound();
      PowAdd(8 * (n - 1), 8);
      FitsPow(x / 256, n - 1);
    }
  }

  lemma {:induction false} LeadingZeros(s: Bits, z: nat)
    requires z <= |s| && forall i :: 0 <= i < z ==> !s[i]
    ensures BitsVal(s) == BitsVal(s[z..])
  {
    if z == |s| {
      ValZero(s);
      assert s == Zeros(|s|);
    } else {
      LeadingZeros(s[..|s| - 1], z);
      assert s[..|s| - 1][z..] == s[z..][..|s| - z - 1];
    }
  }

  lemma LoadBack(ty: Ty, low: Bits, w: nat) returns (d: Data)
    requires IsInteger(ty) && Sized1248(w) && (AnyWidth(ty) || w == Width(ty)) && |low| == 8 * w
    ensures Loads(ty, w, d) && LoadUI(ty, d) == Some(BitsVal(low))
  {
    if ty in {UIBE, IBE} {
      d := FromBits(low);
      ToFromBits(low);
    } else {
      ValBound(low);
      FitsPow(BitsVal(low), w);
      PutFits(BitsVal(low), w);
      d := LePut(BitsVal(low), w);
      assert d[..w] == d;
    }
  }

  /** Every narrow value is loaded from some data of that width. */
  lemma NarrowIsLoaded(ty: Ty, v: Bits, w: nat) returns (d: Data)
    requires IsInteger(ty) && Sized1248(w) && (AnyWidth(ty) || w == Width(ty)) && Narrow(v, 64 - 8 * w)
    ensures Loads(ty, w, d) && LoadUI(ty, d).Some? && Word64(LoadUI(ty, d).value) == v
  {
    LeadingZeros(v, 64 - 8 * w);
    BitsOfVal(v);
    d := LoadBack(ty, v[64 - 8 * w..], w);
  }

  /** The folded and the negated bit test agree on this record's data. */
  ghost predicate Agrees(rest: Test, ty: Ty, n: nat, d: Data) {
    OperEval(rest, Attr(INS, ty), Num(n), d) > 0 <==> !(OperEval(rest, Attr(IS, ty), Num(n), d) > 0)
  }

  lemma AgreesMeans(rest: Test, ty: Ty, n: nat, d: Data)
    requires IsInteger(ty) && LoadUI(ty, d).Some?
    ensures Agrees(rest, ty, n, d)
            <==> (IsNotSet(Word64(LoadUI(ty, d).value), Word64(n)) <==> !IsSet(Word64(LoadUI(ty, d).value), Word64(n)))
  {}

  ghost predicate AgreesAlways(rest: Test, ty: Ty, n: nat, w: nat) {
    forall d: Data :: Loads(ty, w, d) ==> Agrees(rest, ty, n, d)
  }

  lemma AgreesFolds(rest: Test, ty: Ty, n: nat, w: nat)
    requires IsInteger(ty) && Sized1248(w) && (AnyWidth(ty) || w == Width(ty)) && AgreesAlways(rest, ty, n, w)
    ensures FoldsFor(Word64(n), 64 - 8 * w)
  {
    forall v | Narrow(v, 64 - 8 * w) ensures IsNotSet(v, Word64(n)) <==> !IsSet(v, Word64(n)) {
      var d := NarrowIsLoaded(ty, v, w);
      AgreesMeans(rest, ty, n, d);
    }
  }

  lemma FoldsAgree(rest: Test, ty: Ty, n: nat, w: nat)
    requires IsInteger(ty) && Sized1248(w) && (AnyWidth(ty) || w == Width(ty)) && FoldsFor(Word64(n), 64 - 8 * w)
    ensures AgreesAlways(rest, ty, n, w)
  {
    forall d: Data | Loads(ty, w, d) ensures Agrees(rest, ty, n, d) {
      LoadedIsNarrow(ty, w, d);
      AgreesMeans(rest, ty, n, d);
    }
  }

  /** The mask is not zero and has a single bit, or none in the low w bytes. */
  ghost predicate FoldableMask(n: nat, w: nat)
    requires w <= 8
  {
    Word64(n) != Zeros(64) && (OneBit(Word64(n)) || Word64(n)[64 - 8 * w..] == Zeros(8 * w))
  }

  /** A folded flag test equals NOT of the test on all data that w bytes are loaded from exactly when the
      mask is foldable. */
  lemma FoldedBits(rest: Test, ty: Ty, n: nat, w: nat)
    requires IsInteger(ty) && Sized1248(w) && (AnyWidth(ty) || w == Width(ty))
    ensures AgreesAlways(rest, ty, n, w) <==> FoldableMask(n, w)
  {
    BitFolding(Word64(n), 64 - 8 * w);
    if AgreesAlways(rest, ty, n, w) {
      AgreesFolds(rest, ty, n, w);
    } else if FoldsFor(Word64(n), 64 - 8 * w) {
      FoldsAgree(rest, ty, n, w);
    }
  }

  /** In every case a match of the folded test is a match of the negated one. */
  lemma FoldedBitsImply(rest: Test, ty: Ty, n: nat, d: Data)
    requires IsInteger(ty) && Word64(n) != Zeros(64) && OperEval(rest, Attr(INS, ty), Num(n), d) > 0
    ensures !(OperEval(rest, Attr(IS, ty), Num(n), d) > 0)
  {}

  lemma LastBits(x: nat)
    ensures Word64(x)[63] == (x % 2 == 1) && Word64(x)[62] == (x / 2 % 2 == 1)
  {
    assert ValBits(x, 64) == ValBits(x / 2, 63) + [x % 2 == 1];
    assert ValBits(x / 2, 63)[62] == (x / 2 % 2 == 1);
  }

  lemma NeitherTest(v: Bits, m: Bits)
    requires |v| == |m| == 64 && v[63] && !v[62] && m[63] && m[62]
    ensures !IsSet(v, m) && !IsNotSet(v, m)
  {
    assert BitAnd(v, m)[63] && !BitAnd(v, m)[62];
  }

  lemma LowBits(x: nat)
    ensures x % 4 == x % 2 + 2 * (x / 2 % 2)
  {}

  lemma TwoFlagBits(x: nat, n: nat)
    requires n % 4 == 3 && x % 4 == 1
    ensures !IsSet(Word64(x), Word64(n)) && !IsNotSet(Word64(x), Word64(n))
  {
    var v, m := Word64(x), Word64(n);
    assert v[63] && !v[62] && m[63] && m[62] by {
      LowBits(x);
      LowBits(n);
      LastBits(x);
      LastBits(n);
    }
    NeitherTest(v, m);
  }

  /** Two flags asked for, 1 and 2: data with 1 alone matches NOT of the test but not the folded test. */
  lemma TwoFlagsDiffer(rest: Test, ty: Ty, n: nat, d: Data)
    requires IsInteger(ty) && n % 4 == 3 && LoadUI(ty, d).Some? && LoadUI(ty, d).value % 4 == 1
    ensures !Agrees(rest, ty, n, d)
  {
    TwoFlagBits(LoadUI(ty, d).value, n);
    AgreesMeans(rest, ty, n, d);
  }

  /** Data of a size the types without a width do not have make both tests an error: the folded NOT fails
      although the plain one would hold. */
  lemma ErrorsDiffer(rest: Test, ty: Ty, n: nat, d: Data)
    requires AnyWidth(ty) && !Sized1248(|d|)
    ensures !Agrees(rest, ty, n, d)
  {}

  // ---------- NOT in whole expressions ----------

  /** A leaf with a comparison. */
  predicate IsTest(t: Tree) {
    t.Node? && t.oper in {Eq, Lt, Gt, Isset, Isnset} && t.left == Nil && t.right == Nil
  }

  predicate IsFlagTest(t: Tree) {
    IsTest(t) && t.opcode.Attr? && t.opcode.rel in {IS, INS} && IsInteger(t.opcode.ty) && t.value.Num?
  }

  predicate IsStringTest(t: Tree) {
    IsTest(t) && t.opcode in {Attr(IS, STR), Attr(INS, STR)} && t.value.Text?
  }

  /** The record has data for the leaf that w bytes are loaded from. */
  predicate LeafLoads(t: Tree, w: nat, fetch: Fetch)
    requires t.Node? && t.opcode.Attr?
  {
    Loads(t.opcode.ty, w, DataFor(fetch, t.field, t.vsize))
  }

  /** Where a NOT may stand over a leaf: the leaf has no opposite, or it compares strings, or it tests flags,
      the data can be loaded and the mask is foldable. */
  ghost predicate NotAllowed(t: Tree, fetch: Fetch) {
    t.Node?
    && (Negate(t.opcode) == Err
        || IsStringTest(t)
        || (IsFlagTest(t) && exists w :: 0 <= w <= 8 && LeafLoads(t, w, fetch) && FoldableMask(t.value.n, w)))
  }

  /** A folded string test is the exact complement of the test. */
  lemma FoldedString(t: Tree, rest: Test, fetch: Fetch)
    requires IsStringTest(t)
    ensures FoldExact(t, fetch, TestFor(rest))
  {}

  lemma FlagAgrees(t: Tree, rest: Test, fetch: Fetch)
    requires IsFlagTest(t)
    ensures FoldExact(t, fetch, TestFor(rest))
            <==> Agrees(rest, t.opcode.ty, t.value.n, DataFor(fetch, t.field, t.vsize))
  {}

  lemma NotAllowedExact(t: Tree, rest: Test, fetch: Fetch)
    requires WellFormed(t) && NotAllowed(t, fetch)
    ensures FoldExact(t, fetch, TestFor(rest))
  {
    if Negate(t.opcode) != Err && IsFlagTest(t) {
      var w :| 0 <= w <= 8 && LeafLoads(t, w, fetch) && FoldableMask(t.value.n, w);
      FoldedBits(rest, t.opcode.ty, t.value.n, w);
      FlagAgrees(t, rest, fetch);
    }
  }

  /** What is left of an expression without the NOTs in front of it. */
  function Bottom(e: Expr): Expr {
    match e
    case NotE(x) => Bottom(x)
    case _ => e
  }

  /** Each NOT stands over something else than a leaf, or over a leaf it may stand over. */
  ghost predicate NotsAllowed(e: Expr, fetch: Fetch) {
    match e
    case NotE(x) => NotsAllowed(x, fetch) && (Bottom(x).Leaf? ==> NotAllowed(Bottom(x).tree, fetch))
    case OrE(l, r) => NotsAllowed(l, fetch) && NotsAllowed(r, fetch)
    case AndE(l, r) => NotsAllowed(l, fetch) && NotsAllowed(r, fetch)
    case _ => true
  }

  /** The node a NOT gives can be negated again. */
  lemma AllowedAgain(t: Tree, fetch: Fetch)
    requires WellFormed(t) && NotAllowed(t, fetch)
    ensures NewNode(Nil, Not, t).Some? && NotAllowed(NewNode(Nil, Not, t).value, fetch)
  {
    if Negate(t.opcode) != Err && IsFlagTest(t) {
      var w :| 0 <= w <= 8 && LeafLoads(t, w, fetch) && FoldableMask(t.value.n, w);
      assert LeafLoads(t.(opcode := Negate(t.opcode)), w, fetch);
    }
  }

  lemma {:induction false} BuildAllowed(e: Expr, fetch: Fetch)
    requires LeavesFormed(e) && (Bottom(e).Leaf? ==> NotAllowed(Bottom(e).tree, fetch))
    ensures NotAllowed(Build(e), fetch)
  {
    if e.NotE? {
      BuildAllowed(e.e, fetch);
      AllowedAgain(Build(e.e), fetch);
    }
  }

  lemma {:induction false} BuildMeans(e: Expr, fetch: Fetch, rest: Test)
    requires LeavesFormed(e) && NotsAllowed(e, fetch)
    ensures Means(Build(e), fetch, TestFor(rest)) <==> Plain(e, fetch, TestFor(rest))
  {
    match e
    case Any =>
    case Leaf(t) =>
    case NotE(x) =>
      BuildMeans(x, fetch, rest);
      BuildAllowed(x, fetch);
      NotAllowedExact(Build(x), rest, fetch);
      NotMeans(Build(x), fetch, TestFor(rest));
    case OrE(l, r) =>
      BuildMeans(l, fetch, rest);
      BuildMeans(r, fetch, rest);
    case AndE(l, r) =>
      BuildMeans(l, fetch, rest);
      BuildMeans(r, fetch, rest);
  }

  /** The code's evaluation of the tree built for e is the boolean meaning of e on this record. */
  ghost predicate Exactly(e: Expr, fetch: Fetch, rest: Test)
    requires LeavesFormed(e)
  {
    Complete(Build(e)) && (Eval(Build(e), fetch, TestFor(rest)) > 0 <==> Plain(e, fetch, TestFor(rest)))
  }

  /** A whole filter matches exactly the records its expression describes, on every record for which each NOT
      stands where it may. */
  lemma FilterMeansExpression(e: Expr, fetch: Fetch, rest: Test)
    requires LeavesFormed(e) && NotsAllowed(e, fetch)
    ensures Exactly(e, fetch, rest)
  {
    EvalIsMeaning(Build(e), fetch, TestFor(rest));
    BuildMeans(e, fetch, rest);
  }

  lemma NotLeafExactly(t: Tree, fetch: Fetch, rest: Test)
    requires WellFormed(t)
    ensures Exactly(NotE(Leaf(t)), fetch, rest) <==> FoldExact(t, fetch, TestFor(rest))
  {
    EvalIsMeaning(Build(NotE(Leaf(t))), fetch, TestFor(rest));
    NotLeafMeans(t, fetch, TestFor(rest));
  }

  lemma FlagExactly(t: Tree, w: nat, rest: Test, d: Data)
    requires IsFlagTest(t) && Loads(t.opcode.ty, w, d)
    requires forall fetch :: LeafLoads(t, w, fetch) ==> Exactly(NotE(Leaf(t)), fetch, rest)
    ensures Agrees(rest, t.opcode.ty, t.value.n, d)
  {
    var fetch: Fetch := f => Some(d);
    assert LeafLoads(t, w, fetch);
    NotLeafExactly(t, fetch, rest);
    FlagAgrees(t, rest, fetch);
  }

  /** NOT over a flag test is exact on all records with data of its width exactly when the mask is foldable. */
  lemma NotOverFlags(t: Tree, w: nat, rest: Test)
    requires IsFlagTest(t) && Sized1248(w) && (AnyWidth(t.opcode.ty) || w == Width(t.opcode.ty))
    ensures (forall fetch :: LeafLoads(t, w, fetch) ==> Exactly(NotE(Leaf(t)), fetch, rest)) <==> FoldableMask(t.value.n, w)
  {
    FoldedBits(rest, t.opcode.ty, t.value.n, w);
    if forall fetch :: LeafLoads(t, w, fetch) ==> Exactly(NotE(Leaf(t)), fetch, rest) {
      forall d: Data | Loads(t.opcode.ty, w, d) ensures Agrees(rest, t.opcode.ty, t.value.n, d) {
        FlagExactly(t, w, rest, d);
      }
    }
    if AgreesAlways(rest, t.opcode.ty, t.value.n, w) {
      forall fetch | LeafLoads(t, w, fetch) ensures Exactly(NotE(Leaf(t)), fetch, rest) {
        NotLeafExactly(t, fetch, rest);
        FlagAgrees(t, rest, fetch);
      }
    }
  }

  /** A label test has no case in the evaluation, neither plain nor negated: NOT over it never matches. */
  lemma LabelTestsFail(t: Tree, rest: Test, fetch: Fetch)
    requires IsTest(t) && t.opcode in {Attr(IS, MLX), Attr(INS, MLX)}
    ensures !Exactly(NotE(Leaf(t)), fetch, rest)
  {
    NotLeafExactly(t, fetch, rest);
  }

  // ---------- missing data ----------

  lemma {:induction false} LeZeros(n: nat)
    ensures LeVal(ZeroData(n)) == 0
  {
    if n > 0 {
      LeZeros(n - 1);
      assert ZeroData(n)[1..] == ZeroData(n - 1);
    }
  }

  lemma {:induction false} BitsOfZeros(n: nat)
    ensures ToBits(ZeroData(n)) == Zeros(8 * n)
  {
    if n > 0 {
      BitsOfZeros(n - 1);
      assert ZeroData(n)[1..] == ZeroData(n - 1);
      NarrowValue(0, 8, 0);
    }
  }

  /** A value of a list that is compared as an integer of the size of the data. */
  predicate IsNumber(v: Tree) {
    v.Node? && v.opcode.Attr? && v.opcode.rel == EQ && AnyWidth(v.opcode.ty) && v.value.Num? && Sized1248(v.vsize)
  }

  /** The number comes to 0 as a word of 64 bits. */
  predicate IsZero(v: Tree)
    requires IsNumber(v)
  {
    (if IsSigned(v.opcode.ty) then SignedOf(v.value.n, 64) else v.value.n) == 0
  }

  lemma ZerosLoad(ty: Ty, n: nat)
    requires AnyWidth(ty) && Sized1248(n)
    ensures LoadUI(ty, ZeroData(n)) == Some(0)
  {
    LeZeros(n);
    BitsOfZeros(n);
    ValZero(ToBits(ZeroData(n)));
  }

  /** Alone, a number matches a record without the field exactly when it is 0. */
  lemma MissingAlone(v: Tree, field: nat, rest: Test, fetch: Fetch)
    requires IsNumber(v) && fetch(field) == None
    ensures MatchesAlone(v, field, fetch, TestFor(rest)) <==> IsZero(v)
  {
    ZerosLoad(v.opcode.ty, v.vsize);
  }

  ghost predicate SomeAlone(t: Tree, fetch: Fetch, rest: Test)
    requires t.Node?
  {
    exists i :: 0 <= i < |Values(t.right)| && MatchesAlone(Values(t.right)[i], t.field, fetch, TestFor(rest))
  }

  predicate HasZero(vs: seq<Tree>)
    requires forall i :: 0 <= i < |vs| ==> IsNumber(vs[i])
  {
    exists i :: 0 <= i < |vs| && IsZero(vs[i])
  }

  /** A list of numbers is the disjunction of the single comparisons exactly when the record has the field or
      no number of the list is 0. */
  lemma InExact(t: Tree, rest: Test, fetch: Fetch)
    requires WellFormed(t) && t.oper == In && t.vsize == 0
    requires forall i :: 0 <= i < |Values(t.right)| ==> IsNumber(Values(t.right)[i])
    ensures (Means(t, fetch, TestFor(rest)) <==> SomeAlone(t, fetch, rest))
            <==> fetch(t.field).Some? || !HasZero(Values(t.right))
  {
    var vs := Values(t.right);
    if fetch(t.field).Some? {
      InIsDisjunction(t, fetch, TestFor(rest));
    } else {
      forall i | 0 <= i < |vs|
        ensures !Matches(vs[i], [], TestFor(rest)) && (MatchesAlone(vs[i], t.field, fetch, TestFor(rest)) <==> IsZero(vs[i]))
      {
        MissingAlone(vs[i], t.field, rest, fetch);
      }
      assert DataFor(fetch, t.field, 0) == [];
    }
  }

  /** A record without the field reads as zero: it matches a comparison with 0 but no list with 0 in it. */
  lemma MissingInList(rest: Test, fetch: Fetch)
    requires fetch(1) == None
    ensures var zero := Node(Eq, Attr(EQ, UI), 1, 8, Num(0), Nil, Nil);
            && Means(zero, fetch, TestFor(rest))
            && !Means(Node(In, AttrIn, 1, 0, NoVal, Nil, zero), fetch, TestFor(rest))
  {
    var zero := Node(Eq, Attr(EQ, UI), 1, 8, Num(0), Nil, Nil);
    var list := Node(In, AttrIn, 1, 0, NoVal, Nil, zero);
    assert Values(zero) == [zero];
    MissingAlone(zero, 1, rest, fetch);
    assert IsZero(Values(list.right)[0]) && MatchesAlone(Values(list.right)[0], 1, fetch, TestFor(rest));
    InExact(list, rest, fetch);
  }

  // ---------- networks as leaves ----------

  lemma AddressLeaf(rest: Test, v: Val, d: Data)
    requires v.Net? && |v.ip| == |v.mask| == 128 && (|d| == 4 || |d| >= 16)
    ensures OperEval(rest, Attr(EQ, Networks.OpcodeFor(v)), v, d) == Truth(Networks.EvalAddress(Networks.OpcodeFor(v), v, AddressIn(d)))
  {}

  /** The comparison a network filter puts into the tree matches exactly the records in the network. */
  lemma NetworkLeaf(rest: Test, ver: nat, addr: Bits, n: nat, d: Data)
    requires Networks.IsAddress(addr) && ver in {4, 6} && 0 < n <= (if ver == 4 then 32 else 128) && (|d| == 4 || |d| >= 16)
    ensures var v := Networks.NetworkOf(ver, addr, n);
            OperEval(rest, Attr(EQ, Networks.OpcodeFor(v)), v, d) > 0 <==> Networks.InNetwork(ver, addr, n, AddressIn(d))
  {
    AddressLeaf(rest, Networks.NetworkOf(ver, addr, n), d);
    Networks.NetworkMatches(ver, addr, n, AddressIn(d));
  }
}
