/** What a match of a filter leaf says about the record (ff_oper_eval_V2, src/ffilter/fcore.c:301-560): the
    comparisons in terms of the numbers, texts and addresses that stand in it. */
module FilterValues {
  import opened Bytes
  import opened FilterTests
  import opened FilterTree
  import opened Masks
  import Networks
  import opened TableSpec

  // ---------- numbers ----------

  /** Integers of w bytes are compared with the opcodes of this type. */
  predicate Takes(ty: Ty, w: nat) {
    || (ty in {UI, UIBE, I, IBE} && w in {1, 2, 4, 8})
    || (ty in {UI8, I8} && w == 8) || (ty in {UI4, I4} && w == 4) || (ty in {UI2, I2} && w == 2) || (ty in {UI1, I1} && w == 1)
  }

  /** d holds x as an integer of w bytes: in network order for the types that say so, and as a whole for the
      types without a width; behind the others more can follow. */
  predicate Stores(ty: Ty, w: nat, x: nat, d: Data) {
    && Takes(ty, w) && Fits(x, w) && w <= |d| && (ty in {UI, UIBE, I, IBE} ==> |d| == w)
    && d[..w] == if ty in {UIBE, IBE} then BePut(x, w) else LePut(x, w)
  }

  lemma LoadsStored(ty: Ty, w: nat, x: nat, d: Data)
    requires Stores(ty, w, x, d)
    ensures IsInteger(ty) && LoadUI(ty, d) == Some(x)
  {
    if ty in {UI, UIBE, I, IBE} {
      assert d[..w] == d;
    }
    if ty in {UIBE, IBE} {
      BePutVal(x, w);
    } else {
      PutFits(x, w);
    }
  }

  predicate Compares(rel: Rel, a: int, b: int) {
    match rel
    case EQ => a == b
    case GT => a > b
    case LT => a < b
    case _ => false
  }

  /** The leaf matches a record with data d. */
  predicate Match(rest: Test, rel: Rel, ty: Ty, v: Val, d: Data) {
    OperEval(rest, Attr(rel, ty), v, d) > 0
  }

  /** An unsigned comparison is the comparison of the number in the record with that of the filter. */
  lemma UnsignedMatches(rest: Test, rel: Rel, ty: Ty, w: nat, x: nat, n: nat, d: Data)
    requires ty in {UI, UIBE, UI8, UI4, UI2, UI1} && rel in {EQ, GT, LT} && Stores(ty, w, x, d)
    ensures Match(rest, rel, ty, Num(n), d) <==> Compares(rel, x, n)
  {
    LoadsStored(ty, w, x, d);
  }

  predicate InRange(y: int, bits: nat)
    requires bits > 0
  {
    0 <= y + Pow2(bits - 1) && y < Pow2(bits - 1)
  }

  function TwosComplement(y: int, bits: nat): (x: nat)
    requires bits > 0 && InRange(y, bits)
    ensures x < Pow2(bits)
  {
    if y < 0 then y + Pow2(bits) else y
  }

  lemma SignedBack(y: int, bits: nat)
    requires bits > 0 && InRange(y, bits)
    ensures SignedOf(TwosComplement(y, bits), bits) == y
  {}

  lemma {:induction false} PowGrows(a: nat, b: nat)
    requires a <= b
    ensures Pow2(a) <= Pow2(b)
  {
    if a < b {
      PowGrows(a, b - 1);
    }
  }

  /** The types without a width read a number of fewer than eight bytes as if it had no sign. */
  predicate Widened(ty: Ty, w: nat, y: int) {
    ty in {I, IBE} && w < 8 && y < 0
  }

  /** The number a signed comparison sees in place of y. */
  function Seen(ty: Ty, w: nat, y: int): int {
    if Widened(ty, w, y) then y + Pow2(8 * w) else y
  }

  lemma NoSign(x: nat, narrow: nat, bits: nat)
    requires narrow < bits && x < Pow2(narrow)
    ensures SignedOf(x, bits) == x
  {
    PowGrows(narrow, bits - 1);
  }

  /** A narrow number, widened without its sign, is not negative. */
  lemma SeenShort(y: int, narrow: nat, bits: nat)
    requires 0 < narrow < bits && InRange(y, narrow)
    ensures SignedOf(TwosComplement(y, narrow), bits) == if y < 0 then y + Pow2(narrow) else y
  {
    NoSign(TwosComplement(y, narrow), narrow, bits);
  }

  lemma SeenWhole(ty: Ty, w: nat, y: int)
    requires ty in {I, IBE} && w in {1, 2, 4, 8} && InRange(y, 8 * w)
    ensures SignedOf(TwosComplement(y, 8 * w), 64) == Seen(ty, w, y)
  {
    if w == 8 {
      SignedBack(y, 64);
    } else {
      SeenShort(y, 8 * w, 64);
    }
  }

  lemma SeenValue(ty: Ty, w: nat, y: int)
    requires ty in {I, IBE, I8, I4, I2, I1} && Takes(ty, w) && InRange(y, 8 * w)
    ensures IsInteger(ty) && LoadValue(ty, TwosComplement(y, 8 * w)) == Seen(ty, w, y)
  {
    if ty in {I, IBE} {
      SeenWhole(ty, w, y);
    } else {
      assert Width(ty) == w;
      SignedBack(y, 8 * w);
    }
  }

  /** The comparison of two words as signed numbers. */
  lemma SignedLoaded(rest: Test, rel: Rel, ty: Ty, x: nat, n: nat, d: Data)
    requires ty in {I, IBE, I8, I4, I2, I1} && rel in {EQ, GT, LT} && IsInteger(ty) && LoadUI(ty, d) == Some(x)
    ensures Match(rest, rel, ty, Num(n), d) <==> Compares(rel, LoadValue(ty, x), SignedOf(n, 64))
  {}

  /** A signed comparison is that of the two numbers, in two's complement, but for the widened ones. */
  lemma SignedMatches(rest: Test, rel: Rel, ty: Ty, w: nat, y: int, m: int, d: Data)
    requires ty in {I, IBE, I8, I4, I2, I1} && rel in {EQ, GT, LT} && Takes(ty, w) && InRange(y, 8 * w) && InRange(m, 64)
    requires Stores(ty, w, TwosComplement(y, 8 * w), d)
    ensures Match(rest, rel, ty, Num(TwosComplement(m, 64)), d) <==> Compares(rel, Seen(ty, w, y), m)
  {
    LoadsStored(ty, w, TwosComplement(y, 8 * w), d);
    SignedLoaded(rest, rel, ty, TwosComplement(y, 8 * w), TwosComplement(m, 64), d);
    SeenValue(ty, w, y);
    SignedBack(m, 64);
  }

  /** Every signed comparison with what d holds gives the answer of the numbers. */
  ghost predicate SignedRight(rest: Test, ty: Ty, y: int, d: Data) {
    forall rel, m {:trigger Compares(rel, y, m)} :: rel in {EQ, GT, LT} && InRange(m, 64) ==>
      (Match(rest, rel, ty, Num(TwosComplement(m, 64)), d) <==> Compares(rel, y, m))
  }

  lemma WidenedFits(w: nat, y: int)
    requires 0 < w <= 8 && InRange(y, 8 * w)
    ensures InRange(y, 64) && Pow2(8 * w) > 0
  {
    PowGrows(8 * w - 1, 63);
    PowGrows(0, 8 * w);
  }

  lemma WidenedWrong(rest: Test, ty: Ty, w: nat, y: int, d: Data)
    requires InRange(y, 64) && Widened(ty, w, y) && Pow2(8 * w) > 0
    requires Match(rest, EQ, ty, Num(TwosComplement(y, 64)), d) <==> Compares(EQ, Seen(ty, w, y), y)
    ensures !SignedRight(rest, ty, y, d)
  {
    assert Compares(EQ, y, y);
  }

  lemma NotWidenedRight(rest: Test, ty: Ty, w: nat, y: int, d: Data)
    requires ty in {I, IBE, I8, I4, I2, I1} && Takes(ty, w) && InRange(y, 8 * w) && Stores(ty, w, TwosComplement(y, 8 * w), d)
    requires Seen(ty, w, y) == y
    ensures SignedRight(rest, ty, y, d)
  {
    forall rel, m | rel in {EQ, GT, LT} && InRange(m, 64)
      ensures Match(rest, rel, ty, Num(TwosComplement(m, 64)), d) <==> Compares(rel, y, m)
    {
      SignedMatches(rest, rel, ty, w, y, m, d);
    }
  }

  lemma WidenedIsWrong(rest: Test, ty: Ty, w: nat, y: int, d: Data)
    requires ty in {I, IBE} && Takes(ty, w) && InRange(y, 8 * w) && Stores(ty, w, TwosComplement(y, 8 * w), d)
    requires Widened(ty, w, y)
    ensures !SignedRight(rest, ty, y, d)
  {
    WidenedFits(w, y);
    SignedMatches(rest, EQ, ty, w, y, y, d);
    WidenedWrong(rest, ty, w, y, d);
  }

  /** That is so exactly for numbers that are not widened: the others do not even equal themselves. */
  lemma SignedExact(rest: Test, ty: Ty, w: nat, y: int, d: Data)
    requires ty in {I, IBE, I8, I4, I2, I1} && Takes(ty, w) && InRange(y, 8 * w) && Stores(ty, w, TwosComplement(y, 8 * w), d)
    ensures SignedRight(rest, ty, y, d) <==> !Widened(ty, w, y)
  {
    if Widened(ty, w, y) {
      WidenedIsWrong(rest, ty, w, y, d);
    } else {
      NotWidenedRight(rest, ty, w, y, d);
    }
  }

  // ---------- flags ----------

  /** Bit k of x. */
  predicate BitOf(x: nat, k: nat) {
    if k == 0 then x % 2 == 1 else BitOf(x / 2, k - 1)
  }

  lemma {:induction false} BitAt(x: nat, n: nat, k: nat)
    requires k < n
    ensures ValBits(x, n)[n - 1 - k] == BitOf(x, k)
  {
    if k > 0 {
      BitAt(x / 2, n - 1, k - 1);
    }
  }

  lemma MaskBits(x: nat, n: nat, k: nat)
    requires k < 64
    ensures BitAnd(Word64(x), Word64(n))[63 - k] == (BitOf(x, k) && BitOf(n, k)) && Word64(n)[63 - k] == BitOf(n, k)
  {
    BitAt(x, 64, k);
    BitAt(n, 64, k);
  }

  ghost predicate AllSet(x: nat, n: nat) {
    forall k :: 0 <= k < 64 && BitOf(n, k) ==> BitOf(x, k)
  }

  ghost predicate NoneSet(x: nat, n: nat) {
    forall k :: 0 <= k < 64 && BitOf(n, k) ==> !BitOf(x, k)
  }

  lemma MasksMean(x: nat, n: nat)
    ensures IsSet(Word64(x), Word64(n)) <==> AllSet(x, n)
    ensures IsNotSet(Word64(x), Word64(n)) <==> NoneSet(x, n)
  {
    var both, m := BitAnd(Word64(x), Word64(n)), Word64(n);
    forall k | 0 <= k < 64 ensures both[63 - k] == (BitOf(x, k) && BitOf(n, k)) && m[63 - k] == BitOf(n, k) {
      MaskBits(x, n, k);
    }
    forall i | 0 <= i < 64
      ensures both[i] == (BitOf(x, 63 - i) && BitOf(n, 63 - i)) && m[i] == BitOf(n, 63 - i)
    {
      MaskBits(x, n, 63 - i);
    }
  }

  lemma FlagsLoaded(rest: Test, ty: Ty, x: nat, n: nat, d: Data)
    requires IsInteger(ty) && LoadUI(ty, d) == Some(x)
    ensures Match(rest, IS, ty, Num(n), d) <==> IsSet(Word64(x), Word64(n))
    ensures Match(rest, INS, ty, Num(n), d) <==> IsNotSet(Word64(x), Word64(n))
  {}

  /** The flag tests ask for all, and for none, of the bits of the mask. */
  lemma FlagsMatch(rest: Test, ty: Ty, w: nat, x: nat, n: nat, d: Data)
    requires Stores(ty, w, x, d)
    ensures Match(rest, IS, ty, Num(n), d) <==> AllSet(x, n)
    ensures Match(rest, INS, ty, Num(n), d) <==> NoneSet(x, n)
  {
    LoadsStored(ty, w, x, d);
    FlagsLoaded(rest, ty, x, n, d);
    MasksMean(x, n);
  }

  // ---------- texts ----------

  /** d starts with the text t, which ends at a zero byte or with d. */
  predicate HasText(d: Data, t: Data) {
    && |t| <= |d| && (forall i :: 0 <= i < |t| ==> t[i] == d[i] && t[i] != 0)
    && (|t| < |d| ==> d[|t|] == 0)
  }

  lemma {:induction false} TextOf(d: Data, t: Data)
    requires HasText(d, t)
    ensures CString(d) == t
    decreases |t|
  {
    if t != [] {
      TextOf(d[1..], t[1..]);
    }
  }

  /** The same letter, in upper or lower case. */
  predicate SameLetter(x: byte, y: byte) {
    x == y || (65 <= x <= 90 && y == x + 32) || (65 <= y <= 90 && x == y + 32)
  }

  /** t stands in s from position i on, case aside. */
  ghost predicate StandsAt(s: Data, t: Data, i: nat) {
    i + |t| <= |s| && forall j :: 0 <= j < |t| ==> SameLetter(s[i + j], t[j])
  }

  ghost predicate Occurs(s: Data, t: Data) {
    exists i: nat :: StandsAt(s, t, i)
  }

  lemma FoundStands(s: Data, t: Data, i: nat)
    requires i + |t| <= |s|
    ensures FoundAt(s, t, i) <==> StandsAt(s, t, i)
  {
    var part := s[i..i + |t|];
    assert forall j :: 0 <= j < |t| ==> part[j] == s[i + j];
  }

  lemma ContainsOccurs(s: Data, t: Data)
    ensures Contains(s, t) <==> Occurs(s, t)
  {
    if Contains(s, t) {
      var i :| 0 <= i <= |s| - |t| && FoundAt(s, t, i);
      FoundStands(s, t, i);
    }
    if Occurs(s, t) {
      var i: nat :| StandsAt(s, t, i);
      FoundStands(s, t, i);
    }
  }

  /** String tests: equality asks that the record's text starts with the filter's, the others whether it
      occurs in it, case aside. */
  lemma TextMatches(rest: Test, s: Data, d: Data, a: Data, b: Data)
    requires HasText(s, a) && HasText(d, b)
    ensures Match(rest, EQ, STR, Text(s), d) <==> |a| <= |b| && forall i :: 0 <= i < |a| ==> b[i] == a[i]
    ensures Match(rest, IS, STR, Text(s), d) <==> Occurs(b, a)
    ensures Match(rest, INS, STR, Text(s), d) <==> !Occurs(b, a)
  {
    TextOf(s, a);
    TextOf(d, b);
    ContainsOccurs(b, a);
  }

  /** A MAC address matches when its six bytes do. */
  lemma MacMatches(rest: Test, mac: Data, d: Data)
    requires |mac| >= 6 && |d| >= 6
    ensures Match(rest, EQ, MAC, Text(mac), d) <==> forall i :: 0 <= i < 6 ==> d[i] == mac[i]
  {
    assert d[..6] == mac[..6] <==> forall i :: 0 <= i < 6 ==> d[..6][i] == mac[..6][i];
  }

  // ---------- networks ----------

  /** Sixteen bytes that start with twelve zeros. */
  predicate TwelveZeros(d: Data)
    requires |d| >= 16
  {
    forall i :: 0 <= i < 12 ==> d[i] == 0
  }

  lemma ThreeWords(s: Bits)
    requires Networks.IsAddress(s)
    ensures Networks.ShortAddress(s) <==> s[..96] == Zeros(96)
    ensures Networks.Word(s, 3) == s[96..]
  {
    assert s[..96] == Networks.Word(s, 0) + Networks.Word(s, 1) + Networks.Word(s, 2);
    assert Zeros(96) == Zeros(32) + Zeros(32) + Zeros(32);
    assert Zeros(96)[..32] == Zeros(32) && Zeros(96)[32..64] == Zeros(32) && Zeros(96)[64..] == Zeros(32);
    assert s[..96][..32] == Networks.Word(s, 0) && s[..96][32..64] == Networks.Word(s, 1) && s[..96][64..] == Networks.Word(s, 2);
  }

  lemma AddressBytes(d: Data)
    requires |d| >= 16
    ensures Networks.ShortAddress(ToBits(d[..16])) <==> TwelveZeros(d)
    ensures Networks.Word(ToBits(d[..16]), 3) == ToBits(d[12..16])
  {
    var e := d[..16];
    FamilyOf(e);
    ThreeWords(ToBits(e));
    assert e == e[..12] + e[12..] && e[12..] == d[12..16];
    ToBitsConcat(e[..12], e[12..]);
    assert ToBits(e)[..96] == ToBits(e[..12]);
    ZeroBytes(e[..12]);
    assert forall i :: 0 <= i < 12 ==> e[..12][i] == d[i];
  }

  /** A filter network of 1 to 32 bits of the IPv4 address in the last four bytes of addr matches the records
      with an IPv4 address, in four bytes or behind twelve zeros, whose first n bits are those of addr. */
  lemma V4NetworkMatches(rest: Test, addr: Data, n: nat, d: Data)
    requires |addr| == 16 && 0 < n <= 32
    ensures var v := Networks.NetworkOf(4, ToBits(addr), n);
            && (|d| == 4 ==> (Match(rest, EQ, Networks.OpcodeFor(v), v, d) <==> ToBits(d)[..n] == ToBits(addr[12..])[..n]))
            && (|d| >= 16 ==> (Match(rest, EQ, Networks.OpcodeFor(v), v, d)
                               <==> TwelveZeros(d) && ToBits(d[12..16])[..n] == ToBits(addr[12..])[..n]))
  {
    AddressBytes(addr);
    assert addr[..16] == addr && addr[12..16] == addr[12..];
    if |d| == 4 || |d| >= 16 {
      NetworkLeaf(rest, 4, ToBits(addr), n, d);
    }
    if |d| >= 16 {
      AddressBytes(d);
      assert |d| == 16 ==> d[..16] == d;
    }
  }

  /** One of 1 to 128 bits of an IPv6 address matches the records with another address than that whose first
      n bits are those of addr. */
  lemma V6NetworkMatches(rest: Test, addr: Data, n: nat, d: Data)
    requires |addr| == 16 && 0 < n <= 128
    ensures var v := Networks.NetworkOf(6, ToBits(addr), n);
            && (|d| == 4 ==> !Match(rest, EQ, Networks.OpcodeFor(v), v, d))
            && (|d| >= 16 ==> (Match(rest, EQ, Networks.OpcodeFor(v), v, d)
                               <==> !TwelveZeros(d) && ToBits(d[..16])[..n] == ToBits(addr)[..n]))
  {
    if |d| == 4 || |d| >= 16 {
      NetworkLeaf(rest, 6, ToBits(addr), n, d);
    }
    if |d| >= 16 {
      AddressBytes(d);
      assert |d| == 16 ==> d[..16] == d;
    }
  }

  // ---------- the rest ----------

  /** What none of the cases covers is an error, and so no match. */
  lemma OtherTestsFail(rest: Test, rel: Rel, ty: Ty, v: Val, d: Data)
    requires || (ty == STR && rel in {GT, LT}) || (ty == MAC && rel != EQ) || (ty in {AD4, AD6, ADP} && rel != EQ)
             || ty in {TS, TSB} || (ty in {RE, ML, MLX, MES} && rel in {IS, INS})
    ensures !Match(rest, rel, ty, v, d)
  {}

  /** A leaf of a filter matches a record with data in its field exactly when the comparison does. */
  lemma LeafMatch(t: Tree, rest: Test, fetch: Fetch, d: Data)
    requires IsTest(t) && t.opcode.Attr? && fetch(t.field) == Some(d)
    ensures Complete(t) && (Eval(t, fetch, TestFor(rest)) > 0 <==> Match(rest, t.opcode.rel, t.opcode.ty, t.value, d))
  {}
}
