/** Memory as the C code sees it on a little-endian machine: bytes, their bits, integers in host order. */
module Bytes {

  type byte = x: int | 0 <= x < 256

  type Data = seq<byte>

  /** The bits of a word or of a run of bytes in network order, most significant first. */
  type Bits = seq<bool>

  // ---------- integers in host order ----------

  function LeVal(d: Data): nat {
    if d == [] then 0 else d[0] + 256 * LeVal(d[1..])
  }

  /** The n low bytes of x; what a store of x into an integer of n bytes leaves. */
  function LePut(x: nat, n: nat): (d: Data)
    ensures |d| == n
  {
    if n == 0 then [] else [x % 256] + LePut(x / 256, n - 1)
  }

  lemma {:induction false} PutVal(d: Data)
    ensures LePut(LeVal(d), |d|) == d
  {
    if d != [] {
      PutVal(d[1..]);
      assert LeVal(d) % 256 == d[0] && LeVal(d) / 256 == LeVal(d[1..]);
    }
  }

  /** x is a number of at most n bytes. */
  predicate Fits(x: nat, n: nat) {
    if n == 0 then x == 0 else Fits(x / 256, n - 1)
  }

  lemma {:induction false} PutFits(x: nat, n: nat)
    requires Fits(x, n)
    ensures LeVal(LePut(x, n)) == x
  {
    if n > 0 {
      PutFits(x / 256, n - 1);
      assert LePut(x, n)[1..] == LePut(x / 256, n - 1);
    }
  }

  lemma Carry(d: nat, q: nat, y: nat)
    ensures (d + 256 * q + y) / 256 == q + (d + y) / 256 && (d + 256 * q + y) % 256 == (d + y) % 256
  {}

  /** Storing and loading before adding changes nothing in the low bytes of a sum. */
  lemma {:induction false} PutAdd(x: nat, y: nat, n: nat)
    ensures LePut(LeVal(LePut(x, n)) + y, n) == LePut(x + y, n)
  {
    if n > 0 {
      var low := LeVal(LePut(x / 256, n - 1));
      var carry := (x % 256 + y) / 256;
      assert LePut(x, n)[1..] == LePut(x / 256, n - 1);
      assert LeVal(LePut(x, n)) == x % 256 + 256 * low;
      PutAdd(x / 256, carry, n - 1);
      Carry(x % 256, low, y);
      Carry(x % 256, x / 256, y);
    }
  }

  lemma {:induction false} ValInjective(a: Data, b: Data)
    requires |a| == |b| && LeVal(a) == LeVal(b)
    ensures a == b
  {
    PutVal(a);
    PutVal(b);
  }

  // ---------- bits ----------

  function Pow2(n: nat): nat {
    if n == 0 then 1 else 2 * Pow2(n - 1)
  }

  /** The n low bits of x. */
  function ValBits(x: nat, n: nat): (s: Bits)
    ensures |s| == n
  {
    if n == 0 then [] else ValBits(x / 2, n - 1) + [x % 2 == 1]
  }

  /** The value of a word given by its bits, as ntohl delivers it. */
  function BitsVal(s: Bits): nat {
    if s == [] then 0 else 2 * BitsVal(s[..|s| - 1]) + if s[|s| - 1] then 1 else 0
  }

  lemma {:induction false} ValBound(s: Bits)
    ensures BitsVal(s) < Pow2(|s|)
  {
    if s != [] {
      ValBound(s[..|s| - 1]);
    }
  }

  lemma {:induction false} BitsOfVal(s: Bits)
    ensures ValBits(BitsVal(s), |s|) == s
  {
    if s != [] {
      BitsOfVal(s[..|s| - 1]);
    }
  }

  lemma {:induction false} ValOfBits(x: nat, n: nat)
    requires x < Pow2(n)
    ensures BitsVal(ValBits(x, n)) == x
  {
    if n > 0 {
      ValOfBits(x / 2, n - 1);
      assert ValBits(x, n)[..n - 1] == ValBits(x / 2, n - 1);
    }
  }

  lemma ByteBound()
    ensures Pow2(8) == 256
  {
    assert Pow2(4) == 16;
  }

  function ByteBits(b: byte): (s: Bits)
    ensures |s| == 8
  {
    ValBits(b, 8)
  }

  function ByteOf(s: Bits): byte
    requires |s| == 8
  {
    ByteBound();
    ValBound(s);
    BitsVal(s)
  }

  lemma ByteOfBits(b: byte)
    ensures ByteOf(ByteBits(b)) == b
  {
    ByteBound();
    ValOfBits(b, 8);
  }

  lemma BitsOfByte(s: Bits)
    requires |s| == 8
    ensures ByteBits(ByteOf(s)) == s
  {
    BitsOfVal(s);
  }

  function ToBits(d: Data): (s: Bits)
    ensures |s| == 8 * |d|
  {
    if d == [] then [] else ByteBits(d[0]) + ToBits(d[1..])
  }

  function FromBits(s: Bits): (d: Data)
    requires |s| % 8 == 0
    ensures 8 * |d| == |s|
  {
    if s == [] then [] else [ByteOf(s[..8])] + FromBits(s[8..])
  }

  lemma {:induction false} FromToBits(d: Data)
    ensures FromBits(ToBits(d)) == d
  {
    if d != [] {
      ByteOfBits(d[0]);
      FromToBits(d[1..]);
      assert ToBits(d)[..8] == ByteBits(d[0]) && ToBits(d)[8..] == ToBits(d[1..]);
    }
  }

  lemma {:induction false} ToFromBits(s: Bits)
    requires |s| % 8 == 0
    ensures ToBits(FromBits(s)) == s
  {
    if s != [] {
      BitsOfByte(s[..8]);
      ToFromBits(s[8..]);
      assert s == s[..8] + s[8..];
    }
  }

  lemma {:induction false} ToBitsConcat(a: Data, b: Data)
    ensures ToBits(a + b) == ToBits(a) + ToBits(b)
  {
    if a == [] {
      assert a + b == b;
    } else {
      ToBitsConcat(a[1..], b);
      assert (a + b)[1..] == a[1..] + b;
      assert ByteBits(a[0]) + (ToBits(a[1..]) + ToBits(b)) == (ByteBits(a[0]) + ToBits(a[1..])) + ToBits(b);
    }
  }

  function Zeros(n: nat): (s: Bits)
    ensures |s| == n
  {
    seq(n, _ => false)
  }

  lemma {:induction false} ValZero(s: Bits)
    ensures BitsVal(s) == 0 <==> s == Zeros(|s|)
  {
    if s != [] {
      ValZero(s[..|s| - 1]);
      assert s == s[..|s| - 1] + [s[|s| - 1]];
      assert Zeros(|s|) == Zeros(|s| - 1) + [false];
    }
  }

  /** x in n bytes, most significant first: the network order of an integer. */
  function BePut(x: nat, n: nat): (d: Data)
    ensures |d| == n
  {
    if n == 0 then [] else BePut(x / 256, n - 1) + [x % 256]
  }

  lemma Doubled(x: nat, p: nat)
    ensures x * (2 * p) == 2 * (x * p)
  {}

  lemma {:induction false} BitsAppend(s: Bits, t: Bits)
    ensures BitsVal(s + t) == BitsVal(s) * Pow2(|t|) + BitsVal(t)
    decreases |t|
  {
    if t == [] {
      assert s + t == s;
    } else {
      var n := |t| - 1;
      BitsAppend(s, t[..n]);
      assert (s + t)[..|s| + n] == s + t[..n] && (s + t)[|s| + n] == t[n];
      Doubled(BitsVal(s), Pow2(n));
    }
  }

  lemma ByteValue(b: byte)
    ensures ToBits([b]) == ByteBits(b) && BitsVal(ByteBits(b)) == b
  {
    ByteBound();
    ValOfBits(b, 8);
    assert [b][1..] == [];
  }

  lemma NextByte(d: Data, b: byte)
    ensures BitsVal(ToBits(d + [b])) == 256 * BitsVal(ToBits(d)) + b
  {
    ToBitsConcat(d, [b]);
    ByteValue(b);
    BitsAppend(ToBits(d), ByteBits(b));
    ByteBound();
  }

  /** A number of at most n bytes is what ntoh reads from its network order. */
  lemma {:induction false} BePutVal(x: nat, n: nat)
    requires Fits(x, n)
    ensures BitsVal(ToBits(BePut(x, n))) == x
  {
    if n > 0 {
      BePutVal(x / 256, n - 1);
      NextByte(BePut(x / 256, n - 1), x % 256);
    }
  }

  // ---------- C operators on words ----------

  function Ones(n: nat): (s: Bits)
    ensures |s| == n
  {
    seq(n, _ => true)
  }

  function Shr(s: Bits, n: nat): (r: Bits)
    ensures |r| == |s|
  {
    seq(|s|, i requires 0 <= i < |s| => n <= i && s[i - n])
  }

  function BitNot(s: Bits): (r: Bits)
    ensures |r| == |s|
  {
    seq(|s|, i requires 0 <= i < |s| => !s[i])
  }

  function BitAnd(a: Bits, b: Bits): (r: Bits)
    requires |a| == |b|
    ensures |r| == |a|
  {
    seq(|a|, i requires 0 <= i < |a| => a[i] && b[i])
  }

  /** s with everything behind its first n bits cleared. */
  function Keep(s: Bits, n: nat): (r: Bits)
    requires n <= |s|
    ensures |r| == |s|
  {
    s[..n] + Zeros(|s| - n)
  }

  // ---------- memory ----------

  /** s with d written over it from off on. */
  function Patch(s: Data, off: nat, d: Data): (r: Data)
    requires off + |d| <= |s|
    ensures |r| == |s|
  {
    s[..off] + d + s[off + |d|..]
  }

  lemma PatchTwice(s: Data, off: nat, a: Data, b: Data)
    requires off + |a + b| <= |s|
    ensures Patch(Patch(s, off, a), off + |a|, b) == Patch(s, off, a + b)
  {}

  /** In h, the part p replaces what a starts with; then d does the same for what follows. */
  lemma PatchNext(p: Data, a: Data, h: Data, d: Data)
    requires |p| + |d| <= |a| && h == p + a[|p|..]
    ensures h[|p|..|p| + |d|] == a[|p|..|p| + |d|]
    ensures Patch(h, |p|, d) == p + d + a[|p| + |d|..]
  {}

  method Copy(buf: array<byte>, off: nat, d: Data)
    requires off + |d| <= buf.Length
    modifies buf
    ensures buf[..] == Patch(old(buf[..]), off, d)
  {
    for k := 0 to |d|
      invariant forall i :: off <= i < off + k ==> buf[i] == d[i - off]
      invariant forall i :: 0 <= i < buf.Length && !(off <= i < off + k) ==> buf[i] == old(buf[i])
    {
      buf[off + k] := d[k];
    }
  }

  method Load(buf: array<byte>, off: nat, n: nat) returns (d: Data)
    requires off + n <= buf.Length
    ensures d == buf[..][off..off + n]
  {
    d := buf[off..off + n];
  }
}
