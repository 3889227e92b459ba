/** Filtering by network: the masks of int_to_netmask and str_to_addr (src/ffilter/ffilter.c:487-504,
    628-651), the opcode ff_validate picks and the comparisons of ff_oper_eval_V2
    (src/ffilter/fcore.c:119-130, 506-558).  Addresses and masks are bits in network order. */
module Networks {
  import opened Bytes
  import opened FilterTree
  import opened Masks

  predicate IsAddress(s: Bits) {
    |s| == 128
  }

  /** data[x] of an ff_ip_t. */
  function Word(s: Bits, x: nat): (w: Bits)
    requires IsAddress(s) && x < 4
    ensures |w| == 32
  {
    s[32 * x..32 * x + 32]
  }

  /** The address whose first three words are zero. */
  predicate ShortAddress(s: Bits)
    requires IsAddress(s)
  {
    Word(s, 0) == Zeros(32) && Word(s, 1) == Zeros(32) && Word(s, 2) == Zeros(32)
  }

  // ---------- masks ----------

  function Prefix(n: nat, width: nat): (m: Bits)
    requires n <= width
    ensures |m| == width
  {
    Ones(n) + Zeros(width - n)
  }

  lemma ShiftedIsPrefix(k: nat)
    requires k <= 32
    ensures BitNot(Shr(Ones(32), k)) == Prefix(k, 32)
  {}

  /** Words 0 to 3 of a mask in memory. */
  ghost predicate HoldsMask(a: array<Bits>, m: Bits)
    reads a
  {
    a.Length == 4 && IsAddress(m) && forall x :: 0 <= x < 4 ==> a[x] == Word(m, x)
  }

  lemma PrefixWords(n: nat, x: nat)
    requires n <= 128 && x < 4
    ensures Word(Prefix(n, 128), x) == if 32 * x + 32 <= n then Ones(32) else if n <= 32 * x then Zeros(32) else Prefix(n - 32 * x, 32)
  {}

  /** int_to_netmask on a zeroed mask.  From 160 bits on the loop would leave the array. */
  method IntToNetmask(numbits: int, mask: array<Bits>) returns (retval: int)
    requires numbits < 160 && HoldsMask(mask, Zeros(128))
    modifies mask
    ensures retval == 0 <==> 0 <= numbits <= 128
    ensures retval == 0 ==> HoldsMask(mask, Prefix(numbits, 128))
  {
    retval := if numbits > 128 || numbits < 0 then 1 else 0;
    var x := 0;
    while x < numbits / 32
      invariant 0 <= x <= 4 && (numbits >= 0 ==> x <= numbits / 32)
      invariant forall y :: 0 <= y < x ==> mask[y] == Ones(32)
      invariant forall y :: x <= y < 4 ==> mask[y] == Zeros(32)
    {
      mask[x] := Ones(32);
      x := x + 1;
    }
    if x < 4 {
      ShiftedIsPrefix(numbits % 32);
      mask[x] := BitNot(Shr(Ones(32), numbits % 32));
    }
    if retval == 0 {
      forall y | 0 <= y < 4 ensures mask[y] == Word(Prefix(numbits, 128), y) {
        PrefixWords(numbits, y);
      }
    }
  }

  /** The mask of a network of n bits: in an IPv4 network the first word moves to the end. */
  function MaskOf(ver: nat, n: nat): (m: Bits)
    requires n <= if ver == 4 then 32 else 128
    ensures IsAddress(m)
  {
    if ver == 4 then Zeros(96) + Prefix(n, 32) else Prefix(n, 128)
  }

  /** The network str_to_addr makes of an address and a number of bits. */
  function NetworkOf(ver: nat, addr: Bits, n: nat): Val
    requires IsAddress(addr) && n <= if ver == 4 then 32 else 128
  {
    Net(BitAnd(addr, MaskOf(ver, n)), MaskOf(ver, n), ver)
  }

  lemma AndWord(a: Bits, m: Bits, x: nat)
    requires IsAddress(a) && IsAddress(m) && x < 4
    ensures Word(BitAnd(a, m), x) == BitAnd(Word(a, x), Word(m, x))
  {}

  /** The rest of str_to_addr once the address is parsed: ip is that address. */
  method FinishNetwork(ip: array<Bits>, mask: array<Bits>, ver: nat, ghost addr: Bits, ghost n: nat)
    requires n <= if ver == 4 then 32 else 128
    requires HoldsMask(ip, addr) && HoldsMask(mask, Prefix(n, 128)) && ip != mask
    modifies ip, mask
    ensures HoldsMask(mask, MaskOf(ver, n)) && HoldsMask(ip, BitAnd(addr, MaskOf(ver, n)))
  {
    forall y | 0 <= y < 4 ensures Word(Prefix(n, 128), y) == mask[y] {}
    PrefixWords(n, 0);
    if ver == 4 {
      mask[3] := mask[0];
      mask[0], mask[1], mask[2] := Zeros(32), Zeros(32), Zeros(32);
      assert Word(MaskOf(4, n), 3) == Prefix(n, 32);
    }
    assert HoldsMask(mask, MaskOf(ver, n));
    for x := 0 to 4
      invariant HoldsMask(mask, MaskOf(ver, n))
      invariant forall y :: 0 <= y < x ==> ip[y] == BitAnd(Word(addr, y), Word(MaskOf(ver, n), y))
      invariant forall y :: x <= y < 4 ==> ip[y] == Word(addr, y)
    {
      ip[x] := BitAnd(ip[x], mask[x]);
    }
    forall y | 0 <= y < 4 ensures ip[y] == Word(BitAnd(addr, MaskOf(ver, n)), y) {
      AndWord(addr, MaskOf(ver, n), y);
    }
  }

  // ---------- opcodes and comparisons ----------

  /** ff_validate for FF_TYPE_ADDR and FF_OP_EQ: a network whose mask is zero is compared as an address. */
  function OpcodeFor(v: Val): Ty
    requires v.Net? && IsAddress(v.mask)
  {
    if v.ver == 4 && Word(v.mask, 3) == Zeros(32) then AD4
    else if v.ver == 6 && v.mask == Zeros(128) then AD6
    else ADP
  }

  function WordMatches(rec: Bits, v: Val, x: nat): bool
    requires v.Net? && IsAddress(v.ip) && IsAddress(v.mask) && IsAddress(rec) && x < 4
  {
    BitAnd(Word(rec, x), Word(v.mask, x)) == Word(v.ip, x)
  }

  /** The three address comparisons on record data of 4 or of 16 bytes. */
  function EvalAddress(ty: Ty, v: Val, rec: Bits): bool
    requires v.Net? && IsAddress(v.ip) && IsAddress(v.mask) && (|rec| == 32 || IsAddress(rec))
  {
    match ty
    case AD4 =>
      if |rec| == 32 then rec == Word(v.ip, 3)
      else Word(rec, 0) == Zeros(32) && Word(rec, 1) == Zeros(32) && Word(rec, 2) == Zeros(32) && Word(rec, 3) == Word(v.ip, 3)
    case AD6 =>
      if |rec| == 32 then false else rec == v.ip
    case _ =>
      if |rec| == 32 then
        if v.ver == 6 then false else BitAnd(rec, Word(v.mask, 3)) == Word(v.ip, 3)
      else if v.ver == 6 && ShortAddress(rec) then false
      else
        var res := WordMatches(rec, v, 0) && WordMatches(rec, v, 1) && WordMatches(rec, v, 2) && WordMatches(rec, v, 3);
        if res && v.ver == 4 && !ShortAddress(rec) then false else res
  }

  /** ff_oper_eval_V2 on an address, its loop over the four words included. */
  method EvalPrefix(v: Val, rec: Bits) returns (res: bool)
    requires v.Net? && IsAddress(v.ip) && IsAddress(v.mask) && (|rec| == 32 || IsAddress(rec))
    ensures res == EvalAddress(ADP, v, rec)
  {
    if |rec| == 32 {
      if v.ver == 6 {
        return false;
      }
      res := BitAnd(rec, Word(v.mask, 3)) == Word(v.ip, 3);
      return;
    }
    res := true;
    if v.ver == 6 && ShortAddress(rec) {
      return false;
    }
    for x := 0 to 4
      invariant res <==> forall y :: 0 <= y < x ==> WordMatches(rec, v, y)
    {
      res := WordMatches(rec, v, x) && res;
    }
    if res && v.ver == 4 && !ShortAddress(rec) {
      return false;
    }
  }

  // ---------- what a network matches ----------

  /** The filter leaf for a network, evaluated on a record's address. */
  function Matched(ver: nat, addr: Bits, n: nat, rec: Bits): bool
    requires IsAddress(addr) && n <= (if ver == 4 then 32 else 128) && (|rec| == 32 || IsAddress(rec))
  {
    var v := NetworkOf(ver, addr, n);
    EvalAddress(OpcodeFor(v), v, rec)
  }

  /** The record has an IPv4 address: four bytes, or sixteen with three zero words. */
  predicate IsV4(rec: Bits)
    requires |rec| == 32 || IsAddress(rec)
  {
    |rec| == 32 || ShortAddress(rec)
  }

  function LastWord(rec: Bits): (w: Bits)
    requires |rec| == 32 || IsAddress(rec)
    ensures |w| == 32
  {
    if |rec| == 32 then rec else Word(rec, 3)
  }

  /** Same family, and the first n bits agree. */
  predicate InNetwork(ver: nat, addr: Bits, n: nat, rec: Bits)
    requires IsAddress(addr) && n <= (if ver == 4 then 32 else 128) && (|rec| == 32 || IsAddress(rec))
  {
    if ver == 4 then IsV4(rec) && LastWord(rec)[..n] == Word(addr, 3)[..n]
    else !IsV4(rec) && rec[..n] == addr[..n]
  }

  lemma AndPrefix(a: Bits, b: Bits, n: nat)
    requires |a| == |b| && n <= |a|
    ensures BitAnd(a, Prefix(n, |a|)) == BitAnd(b, Prefix(n, |a|)) <==> a[..n] == b[..n]
  {
    var m := Prefix(n, |a|);
    if BitAnd(a, m) == BitAnd(b, m) {
      forall i | 0 <= i < n ensures a[i] == b[i] {
        assert BitAnd(a, m)[i] == BitAnd(b, m)[i];
      }
    }
    if a[..n] == b[..n] {
      forall i | 0 <= i < |a| ensures BitAnd(a, m)[i] == BitAnd(b, m)[i] {
        assert i < n ==> a[..n][i] == b[..n][i];
      }
    }
  }

  lemma WordsOfV4(addr: Bits, n: nat)
    requires IsAddress(addr) && n <= 32
    ensures var m, ip := MaskOf(4, n), BitAnd(addr, MaskOf(4, n));
            && Word(m, 3) == Prefix(n, 32) && Word(ip, 3) == BitAnd(Word(addr, 3), Prefix(n, 32))
            && forall x :: 0 <= x < 3 ==> Word(m, x) == Zeros(32) && Word(ip, x) == Zeros(32)
  {
    var m := MaskOf(4, n);
    assert Word(m, 3) == Prefix(n, 32);
    AndWord(addr, m, 3);
    forall x | 0 <= x < 3 ensures Word(m, x) == Zeros(32) && Word(BitAnd(addr, m), x) == Zeros(32) {
      AndWord(addr, m, x);
    }
  }

  lemma V4Matches(addr: Bits, n: nat, rec: Bits)
    requires IsAddress(addr) && 0 < n <= 32 && (|rec| == 32 || IsAddress(rec))
    ensures Matched(4, addr, n, rec) <==> InNetwork(4, addr, n, rec)
  {
    WordsOfV4(addr, n);
    assert Prefix(n, 32)[0] && !Zeros(32)[0];
    AndPrefix(LastWord(rec), Word(addr, 3), n);
    if IsAddress(rec) {
      assert BitAnd(Word(rec, 0), Zeros(32)) == Zeros(32) && BitAnd(Word(rec, 1), Zeros(32)) == Zeros(32) && BitAnd(Word(rec, 2), Zeros(32)) == Zeros(32);
    }
  }

  lemma WordsEqual(a: Bits, b: Bits)
    requires IsAddress(a) && IsAddress(b)
    ensures a == b <==> Word(a, 0) == Word(b, 0) && Word(a, 1) == Word(b, 1) && Word(a, 2) == Word(b, 2) && Word(a, 3) == Word(b, 3)
  {
    assert a == Word(a, 0) + Word(a, 1) + Word(a, 2) + Word(a, 3);
    assert b == Word(b, 0) + Word(b, 1) + Word(b, 2) + Word(b, 3);
  }

  lemma V6Matches(addr: Bits, n: nat, rec: Bits)
    requires IsAddress(addr) && 0 < n <= 128 && (|rec| == 32 || IsAddress(rec))
    ensures Matched(6, addr, n, rec) <==> InNetwork(6, addr, n, rec)
  {
    var m := MaskOf(6, n);
    assert m[0] && !Zeros(128)[0];
    if IsAddress(rec) {
      AndWord(rec, m, 0);
      AndWord(rec, m, 1);
      AndWord(rec, m, 2);
      AndWord(rec, m, 3);
      WordsEqual(BitAnd(rec, m), BitAnd(addr, m));
      AndPrefix(rec, addr, n);
    }
  }

  lemma NetworkMatches(ver: nat, addr: Bits, n: nat, rec: Bits)
    requires IsAddress(addr) && ver in {4, 6} && 0 < n <= (if ver == 4 then 32 else 128) && (|rec| == 32 || IsAddress(rec))
    ensures Matched(ver, addr, n, rec) <==> InNetwork(ver, addr, n, rec)
  {
    if ver == 4 {
      V4Matches(addr, n, rec);
    } else {
      V6Matches(addr, n, rec);
    }
  }

  /** A network of no bits is compared as an exact address, zero after masking. */
  lemma NoBits(ver: nat, addr: Bits, rec: Bits)
    requires IsAddress(addr) && ver in {4, 6} && (|rec| == 32 || IsAddress(rec))
    ensures Matched(ver, addr, 0, rec) <==> if ver == 4 then IsV4(rec) && LastWord(rec) == Zeros(32) else rec == Zeros(128)
  {
    if ver == 4 {
      WordsOfV4(addr, 0);
      assert Prefix(0, 32) == Zeros(32) && BitAnd(Word(addr, 3), Zeros(32)) == Zeros(32);
    } else {
      assert MaskOf(6, 0) == Zeros(128) && BitAnd(addr, Zeros(128)) == Zeros(128);
    }
  }

  lemma NoBitsFails(ver: nat, addr: Bits, rec: Bits)
    requires IsAddress(addr) && (if ver == 4 then rec == Ones(32) else ver == 6 && rec == Ones(128))
    ensures InNetwork(ver, addr, 0, rec) && !Matched(ver, addr, 0, rec)
  {
    NoBits(ver, addr, rec);
    assert rec[0] && !Zeros(32)[0] && !Zeros(128)[0];
    if ver == 6 {
      assert Word(rec, 0)[0];
    }
  }

  /** The filter matches exactly the addresses in the network, for every record, if and only if the network
      has at least one bit. */
  lemma NetworkExact(ver: nat, addr: Bits, n: nat)
    requires IsAddress(addr) && ver in {4, 6} && n <= if ver == 4 then 32 else 128
    ensures (forall rec: Bits :: |rec| == 32 || IsAddress(rec) ==> Matched(ver, addr, n, rec) == InNetwork(ver, addr, n, rec))
            <==> n > 0
  {
    if n > 0 {
      forall rec: Bits | |rec| == 32 || IsAddress(rec) ensures Matched(ver, addr, n, rec) == InNetwork(ver, addr, n, rec) {
        NetworkMatches(ver, addr, n, rec);
      }
    } else {
      NoBitsFails(ver, addr, if ver == 4 then Ones(32) else Ones(128));
    }
  }
}
