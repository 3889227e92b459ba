/** What lnf_mem_fill_buf does to an address or a time before it becomes part of a key: lnf_clear_bits_v4,
    lnf_clear_bits_v6 and lnf_align_uint64 (src/memheap.c:473-511). */
module Masks {
  import opened Bytes
  import opened Remainder

  /** How many leading bits of a word of the given width are kept.  The C code compares the int with an
      unsigned size, so a negative count keeps everything. */
  function Kept(from: int, width: nat): (n: nat)
    ensures n <= width
  {
    if 0 <= from < width then from else width
  }

  lemma ClearIsKeep(w: Bits, from: nat)
    requires from <= |w|
    ensures BitAnd(w, BitNot(Shr(Ones(|w|), from))) == Keep(w, from)
  {}

  lemma KeepAll(w: Bits)
    ensures Keep(w, |w|) == w
  {}

  method StoreWord(buf: array<byte>, off: nat, w: Bits)
    requires |w| % 8 == 0 && off + |w| / 8 <= buf.Length
    modifies buf
    ensures buf[..] == Patch(old(buf[..]), off, FromBits(w))
  {
    Copy(buf, off, FromBits(w));
  }

  method LoadWord(buf: array<byte>, off: nat, size: nat) returns (w: Bits)
    requires off + size <= buf.Length
    ensures w == ToBits(buf[..][off..off + size])
  {
    var d := Load(buf, off, size);
    w := ToBits(d);
  }

  /** The bytes d with only their first n bits kept. */
  function KeepBits(d: Data, n: nat): (r: Data)
    requires n <= 8 * |d|
    ensures |r| == |d|
  {
    FromBits(Keep(ToBits(d), n))
  }

  lemma KeepAllBits(d: Data)
    ensures KeepBits(d, 8 * |d|) == d
  {
    KeepAll(ToBits(d));
    FromToBits(d);
  }

  lemma PatchSame(s: Data, off: nat, n: nat)
    requires off + n <= |s|
    ensures Patch(s, off, s[off..off + n]) == s
  {}

  /** lnf_clear_bits_v4. */
  method ClearBitsV4(buf: array<byte>, off: nat, from: int)
    requires off + 4 <= buf.Length
    modifies buf
    ensures buf[..] == Patch(old(buf[..]), off, KeepBits(old(buf[..])[off..off + 4], Kept(from, 32)))
  {
    if 0 <= from < 32 {
      var tmp := LoadWord(buf, off, 4);
      ClearIsKeep(tmp, from);
      tmp := BitAnd(tmp, BitNot(Shr(Ones(32), from)));
      StoreWord(buf, off, tmp);
    } else {
      KeepAllBits(buf[..][off..off + 4]);
      PatchSame(buf[..], off, 4);
    }
  }

  lemma {:induction false} FromBitsConcat(a: Bits, b: Bits)
    requires |a| % 8 == 0 && |b| % 8 == 0
    ensures FromBits(a + b) == FromBits(a) + FromBits(b)
  {
    if a == [] {
      assert a + b == b;
    } else {
      FromBitsConcat(a[8..], b);
      assert (a + b)[..8] == a[..8] && (a + b)[8..] == a[8..] + b;
    }
  }

  /** Keeping n bits of two words: of the first one alone, or of the second one behind the first. */
  lemma KeepHalves(a: Data, b: Data, n: nat)
    requires n <= 8 * |a| + 8 * |b|
    ensures n <= 8 * |a| ==> KeepBits(a + b, n) == KeepBits(a, n) + FromBits(Zeros(8 * |b|))
    ensures n >= 8 * |a| ==> KeepBits(a + b, n) == a + KeepBits(b, n - 8 * |a|)
  {
    ToBitsConcat(a, b);
    if n <= 8 * |a| {
      assert Keep(ToBits(a) + ToBits(b), n) == Keep(ToBits(a), n) + Zeros(8 * |b|);
      FromBitsConcat(Keep(ToBits(a), n), Zeros(8 * |b|));
    }
    if n >= 8 * |a| {
      assert Keep(ToBits(a) + ToBits(b), n) == ToBits(a) + Keep(ToBits(b), n - 8 * |a|);
      FromBitsConcat(ToBits(a), Keep(ToBits(b), n - 8 * |a|));
      FromToBits(a);
    }
  }

  /** The two 64-bit words of an address at off, replaced. */
  lemma PatchHalves(s: Data, off: nat, a: Data, b: Data)
    requires |a| == |b| == 8 && off + 16 <= |s|
    ensures s[off..off + 16] == s[off..off + 8] + s[off + 8..off + 16]
    ensures Patch(Patch(s, off, a), off + 8, b) == Patch(s, off, a + b)
    ensures Patch(s, off + 8, b) == Patch(s, off, s[off..off + 8] + b)
  {
    PatchTwice(s, off, a, b);
  }

  /** lnf_clear_bits_v6 on the words buf[0] and buf[1] at off. */
  method ClearBitsV6(buf: array<byte>, off: nat, from: int)
    requires off + 16 <= buf.Length
    modifies buf
    ensures buf[..] == Patch(old(buf[..]), off, KeepBits(old(buf[..])[off..off + 16], Kept(from, 128)))
  {
    ghost var s := buf[..];
    ghost var a, b := s[off..off + 8], s[off + 8..off + 16];
    assert s[off..off + 16] == a + b;
    KeepHalves(a, b, Kept(from, 128));
    if from == 64 {
      StoreWord(buf, off + 8, Zeros(64));
      KeepAllBits(a);
      PatchHalves(s, off, a, FromBits(Zeros(64)));
    } else if 0 <= from < 64 {
      var tmp := LoadWord(buf, off, 8);
      ClearIsKeep(tmp, from);
      tmp := BitAnd(tmp, BitNot(Shr(Ones(64), from)));
      StoreWord(buf, off, tmp);
      StoreWord(buf, off + 8, Zeros(64));
      PatchHalves(s, off, KeepBits(a, from), FromBits(Zeros(64)));
    } else if 64 < from < 128 {
      var tmp := LoadWord(buf, off + 8, 8);
      ClearIsKeep(tmp, from - 64);
      tmp := BitAnd(tmp, BitNot(Shr(Ones(64), from - 64)));
      StoreWord(buf, off + 8, tmp);
      PatchHalves(s, off, a, KeepBits(b, from - 64));
    } else {
      KeepAllBits(b);
      PatchSame(s, off, 16);
    }
  }

  // ---------- addresses ----------

  /** IN6_IS_ADDR_V4COMPAT on the bits of an address: three zero words and a fourth above 1. */
  predicate V4(s: Bits)
    requires |s| == 128
  {
    s[..96] == Zeros(96) && BitsVal(s[96..]) > 1
  }

  lemma {:induction false} AboveOne(w: Bits)
    requires w != []
    ensures BitsVal(w) > 1 <==> w[..|w| - 1] != Zeros(|w| - 1)
  {
    ValZero(w[..|w| - 1]);
  }

  /** How many of its bits an address keeps: numbits count from bit 96 for the addresses taken as IPv4. */
  function KeptOf(s: Bits, numbits: int, numbits6: int): (n: nat)
    requires |s| == 128
    ensures n <= 128
  {
    if V4(s) then 96 + Kept(numbits, 32) else Kept(numbits6, 128)
  }

  function MaskAddr(d: Data, numbits: int, numbits6: int): (r: Data)
    requires |d| == 16
    ensures |r| == 16
  {
    KeepBits(d, KeptOf(ToBits(d), numbits, numbits6))
  }

  /** What makes two addresses equal as keys.  ::0 and ::1 are not taken as IPv4. */
  predicate AddrsAgree(s: Bits, t: Bits, numbits: int, numbits6: int)
    requires |s| == |t| == 128
  {
    if V4(s) && V4(t) then s[96..96 + Kept(numbits, 32)] == t[96..96 + Kept(numbits, 32)]
    else if !V4(s) && !V4(t) then s[..Kept(numbits6, 128)] == t[..Kept(numbits6, 128)]
    else
      var n, m := KeptOf(s, numbits, numbits6), KeptOf(t, numbits, numbits6);
      s[..n] == Zeros(n) && t[..m] == Zeros(m)
  }

  lemma KeepSame(s: Bits, t: Bits, n: nat)
    requires n <= |s| == |t|
    ensures Keep(s, n) == Keep(t, n) <==> s[..n] == t[..n]
  {
    assert Keep(s, n)[..n] == s[..n] && Keep(t, n)[..n] == t[..n];
  }

  lemma KeepZero(s: Bits, n: nat)
    requires n <= |s|
    ensures Keep(s, n) == Zeros(|s|) <==> s[..n] == Zeros(n)
  {
    assert Keep(s, n)[..n] == s[..n] && Zeros(|s|)[..n] == Zeros(n);
    assert Zeros(n) + Zeros(|s| - n) == Zeros(|s|);
  }

  /** An IPv4 address and another one can only meet in the address zero. */
  lemma FamiliesMeetInZero(s: Bits, t: Bits, n: nat, m: nat)
    requires |s| == |t| == 128 && V4(s) && !V4(t) && 96 <= n <= 128 && m <= 128
    requires Keep(s, n) == Keep(t, m)
    ensures Keep(s, n) == Zeros(128)
  {
    var r := Keep(s, n);
    assert forall i :: 0 <= i < 96 ==> r[i] == s[..96][i] == false;
    if t[..96] == Zeros(96) {
      AboveOne(t[96..]);
      assert forall i :: 96 <= i < 127 ==> t[i] == t[96..][..31][i - 96];
      assert forall i :: 96 <= i < 127 ==> r[i] == Keep(t, m)[i] == false;
      AboveOne(s[96..]);
      assert exists j :: 0 <= j < 31 && s[96..][..31][j] != Zeros(31)[j];
      var j :| 0 <= j < 31 && s[96..][..31][j];
      assert s[96 + j] && !r[96 + j];
      assert n <= 96 + j;
    } else {
      var j :| 0 <= j < 96 && t[j];
      assert r[j] == Keep(t, m)[j];
      assert m <= j;
    }
  }

  lemma AgreeBits(s: Bits, t: Bits, numbits: int, numbits6: int)
    requires |s| == |t| == 128
    ensures Keep(s, KeptOf(s, numbits, numbits6)) == Keep(t, KeptOf(t, numbits, numbits6)) <==> AddrsAgree(s, t, numbits, numbits6)
  {
    var n, m := KeptOf(s, numbits, numbits6), KeptOf(t, numbits, numbits6);
    if V4(s) == V4(t) {
      KeepSame(s, t, n);
      if V4(s) {
        assert s[..n] == s[..96] + s[96..n] && t[..n] == t[..96] + t[96..n];
      }
    } else {
      KeepZero(s, n);
      KeepZero(t, m);
      if Keep(s, n) == Keep(t, m) {
        if V4(s) {
          FamiliesMeetInZero(s, t, n, m);
        } else {
          FamiliesMeetInZero(t, s, m, n);
        }
      }
    }
  }

  /** Masked addresses are equal exactly when the addresses agree in the bits that count. */
  lemma MaskedEqual(a: Data, b: Data, numbits: int, numbits6: int)
    requires |a| == |b| == 16
    ensures MaskAddr(a, numbits, numbits6) == MaskAddr(b, numbits, numbits6)
            <==> AddrsAgree(ToBits(a), ToBits(b), numbits, numbits6)
  {
    var s, t := ToBits(a), ToBits(b);
    ToFromBits(Keep(s, KeptOf(s, numbits, numbits6)));
    ToFromBits(Keep(t, KeptOf(t, numbits, numbits6)));
    AgreeBits(s, t, numbits, numbits6);
  }

  /** Twelve zero bytes and behind them a number above 1. */
  predicate MappedV4(d: Data)
    requires |d| == 16
  {
    (forall i :: 0 <= i < 12 ==> d[i] == 0) && !(d[12] == d[13] == d[14] == 0 && d[15] <= 1)
  }

  lemma {:induction false} ZeroBytes(d: Data)
    ensures ToBits(d) == Zeros(8 * |d|) <==> forall i :: 0 <= i < |d| ==> d[i] == 0
  {
    if d != [] {
      ZeroBytes(d[1..]);
      ByteValue(d[0]);
      ValZero(ByteBits(d[0]));
      assert ToBits(d)[..8] == ByteBits(d[0]) && ToBits(d)[8..] == ToBits(d[1..]);
      assert Zeros(8 * |d|)[..8] == Zeros(8) && Zeros(8 * |d|)[8..] == Zeros(8 * |d[1..]|);
      assert Zeros(8 * |d|) == Zeros(8) + Zeros(8 * |d[1..]|);
    }
  }

  lemma WordValue(d: Data)
    requires |d| == 4
    ensures BitsVal(ToBits(d)) == 0x100_0000 * (d[0] as int) + 0x1_0000 * (d[1] as int) + 0x100 * (d[2] as int) + d[3]
  {
    assert d == d[..3] + [d[3]] && d[..3] == d[..2] + [d[2]] && d[..2] == [d[0]] + [d[1]];
    ByteValue(d[0]);
    NextByte([d[0]], d[1]);
    NextByte(d[..2], d[2]);
    NextByte(d[..3], d[3]);
  }

  lemma FamilyOf(d: Data)
    requires |d| == 16
    ensures V4(ToBits(d)) <==> MappedV4(d)
    ensures ToBits(d)[96..] == ToBits(d[12..])
  {
    assert d == d[..12] + d[12..];
    ToBitsConcat(d[..12], d[12..]);
    assert ToBits(d)[..96] == ToBits(d[..12]) && ToBits(d)[96..] == ToBits(d[12..]);
    ZeroBytes(d[..12]);
    assert (forall i :: 0 <= i < 12 ==> d[i] == 0) <==> forall i :: 0 <= i < 12 ==> d[..12][i] == 0;
    WordValue(d[12..]);
  }

  /** Addresses of one family are equal as keys exactly when their first numbits (numbits6) bits agree, where
      those of an IPv4 address are the bits of its last four bytes. */
  lemma SameNetwork(a: Data, b: Data, numbits: int, numbits6: int)
    requires |a| == |b| == 16
    ensures MappedV4(a) && MappedV4(b) && 0 <= numbits <= 32
            ==> (MaskAddr(a, numbits, numbits6) == MaskAddr(b, numbits, numbits6)
                 <==> ToBits(a[12..])[..numbits] == ToBits(b[12..])[..numbits])
    ensures !MappedV4(a) && !MappedV4(b) && 0 <= numbits6 <= 128
            ==> (MaskAddr(a, numbits, numbits6) == MaskAddr(b, numbits, numbits6)
                 <==> ToBits(a)[..numbits6] == ToBits(b)[..numbits6])
  {
    MaskedEqual(a, b, numbits, numbits6);
    FamilyOf(a);
    FamilyOf(b);
    var s, t := ToBits(a), ToBits(b);
    if 0 <= numbits <= 32 {
      assert s[96..96 + numbits] == s[96..][..numbits] && t[96..96 + numbits] == t[96..][..numbits];
    }
  }

  lemma KeepTwice(s: Bits, n: nat)
    requires n <= |s|
    ensures Keep(Keep(s, n), n) == Keep(s, n)
  {}

  lemma KeepRange(s: Bits, n: nat, lo: nat, hi: nat)
    requires lo <= hi <= n <= |s|
    ensures Keep(s, n)[lo..hi] == s[lo..hi]
  {}

  lemma FamilyKept(s: Bits, n: nat)
    requires |s| == 128 && n <= 128 && (V4(s) ==> 96 <= n) && Keep(s, n) != Zeros(128)
    ensures V4(Keep(s, n)) == V4(s)
  {
    var r := Keep(s, n);
    AboveOne(s[96..]);
    AboveOne(r[96..]);
    assert r[96..][..31] == r[96..127] && s[96..][..31] == s[96..127];
    if V4(s) {
      assert forall i :: 0 <= i < 96 ==> r[i] == s[..96][i] == false;
      assert r[..96] == Zeros(96);
      assert exists j :: 0 <= j < 128 && r[j] != Zeros(128)[j];
      var j :| 0 <= j < 128 && r[j];
      if j < 127 {
        assert r[96..127][j - 96];
      } else {
        KeepRange(s, n, 96, 127);
      }
    } else if s[..96] == Zeros(96) {
      assert forall i :: 96 <= i < 127 ==> s[i] == s[96..127][i - 96] == false;
      assert r[96..127] == Zeros(31);
    } else if n <= 96 {
      assert r[96..127] == Zeros(31);
    } else {
      KeepRange(s, n, 0, 96);
      assert r[..96] == r[0..96] && s[..96] == s[0..96];
    }
  }

  /** Masking can turn an IPv4 address into zero, but no address into one of the other family. */
  lemma MaskingTwice(d: Data, numbits: int, numbits6: int)
    requires |d| == 16
    ensures MaskAddr(MaskAddr(d, numbits, numbits6), numbits, numbits6) == MaskAddr(d, numbits, numbits6)
  {
    var s := ToBits(d);
    var n := KeptOf(s, numbits, numbits6);
    var r := Keep(s, n);
    ToFromBits(r);
    KeepTwice(s, n);
    if r == Zeros(128) {
      assert Keep(r, KeptOf(r, numbits, numbits6)) == r;
    } else {
      FamilyKept(s, n);
    }
  }

  // ---------- times ----------

  /** The longest interval, in seconds, whose length in milliseconds is an int. */
  const MAX_ALIGN := 2147483

  function RoundDown(v: nat, k: nat): (r: nat)
    requires 0 < k
    ensures r <= v
  {
    v - v % k
  }

  function AlignTime(v: nat, numbits: int): (r: nat)
    ensures r <= v
  {
    if numbits > 0 then RoundDown(v, numbits * 1000) else v
  }

  lemma Floor(v: nat, d: nat)
    requires d > 0
    ensures v - v % d == (v / d) * d && (v - v % d) % d == 0
  {
    ModOf((v / d) * d, v / d, d, 0);
  }

  lemma SameMultiple(p: nat, q: nat, d: nat)
    requires d > 0 && p * d == q * d
    ensures p == q
  {
    assert p < q ==> (q - p) * d >= d;
    assert p > q ==> (p - q) * d >= d;
  }

  lemma FloorEqual(v: nat, w: nat, d: nat)
    requires d > 0
    ensures v - v % d == w - w % d <==> v / d == w / d
  {
    Floor(v, d);
    Floor(w, d);
    if (v / d) * d == (w / d) * d {
      SameMultiple(v / d, w / d, d);
    }
  }

  /** Aligned times are equal exactly when they fall into the same interval of numbits seconds, and an
      aligned time stays where it is. */
  lemma AlignedEqual(v: nat, w: nat, numbits: int)
    requires 0 < numbits <= MAX_ALIGN
    ensures AlignTime(v, numbits) == AlignTime(w, numbits) <==> v / (numbits * 1000) == w / (numbits * 1000)
    ensures AlignTime(AlignTime(v, numbits), numbits) == AlignTime(v, numbits)
  {
    FloorEqual(v, w, numbits * 1000);
    Floor(v, numbits * 1000);
  }

  /** lnf_align_uint64.  align * 1000 is a product of ints, which must not overflow. */
  method AlignUint64(buf: array<byte>, off: nat, align: int)
    requires off + 8 <= buf.Length && align <= MAX_ALIGN
    modifies buf
    ensures buf[..] == Patch(old(buf[..]), off, LePut(AlignTime(LeVal(old(buf[..])[off..off + 8]), align), 8))
  {
    var d := Load(buf, off, 8);
    if align > 0 {
      Copy(buf, off, LePut(RoundDown(LeVal(d), align * 1000), 8));
    } else {
      PutVal(d);
      PatchSame(buf[..], off, 8);
    }
  }
}
