/** Every byte of an input counts: one that is changed behind the whole stripes changes the hash
    (src/xxhash.c:234-424). */
module HashSpread {
  import opened StreamHash
  import opened XXHash

  // ---------- any algorithm of the family ----------

  /** No step throws anything away: the state before it follows from the state behind it and what was read,
      and what was read from the two states. */
  ghost predicate Mixes<Acc, H(!new)>(a: Algorithm<Acc, H>) {
    && a.Valid()
    && (forall h, g, s {:trigger a.wordStep(h, s), a.wordStep(g, s)} :: a.wordStep(h, s) == a.wordStep(g, s) ==> h == g)
    && (forall h, s, t {:trigger a.wordStep(h, s), a.wordStep(h, t)} ::
          |s| == |t| == a.word && a.wordStep(h, s) == a.wordStep(h, t) ==> s == t)
    && (forall h, g, s {:trigger a.halfStep(h, s), a.halfStep(g, s)} :: a.halfStep(h, s) == a.halfStep(g, s) ==> h == g)
    && (forall h, s, t {:trigger a.halfStep(h, s), a.halfStep(h, t)} ::
          |s| == |t| == a.halfWord && a.halfStep(h, s) == a.halfStep(h, t) ==> s == t)
    && (forall h, g, b {:trigger a.byteStep(h, b), a.byteStep(g, b)} :: a.byteStep(h, b) == a.byteStep(g, b) ==> h == g)
    && (forall h, b, c {:trigger a.byteStep(h, b), a.byteStep(h, c)} :: a.byteStep(h, b) == a.byteStep(h, c) ==> b == c)
    && (forall h, g {:trigger a.avalanche(h), a.avalanche(g)} :: a.avalanche(h) == a.avalanche(g) ==> h == g)
  }

  lemma OneByteKeeps<Acc, H(!new)>(a: Algorithm<Acc, H>, h: H, g: H, b: byte)
    requires Mixes(a) && h != g
    ensures a.byteStep(h, b) != a.byteStep(g, b)
  {}

  lemma OneByteDiffers<Acc, H(!new)>(a: Algorithm<Acc, H>, h: H, b: byte, c: byte)
    requires Mixes(a) && b != c
    ensures a.byteStep(h, b) != a.byteStep(h, c)
  {}

  lemma {:induction false} BytesKeep<Acc, H(!new)>(a: Algorithm<Acc, H>, h: H, g: H, s: seq<byte>)
    requires Mixes(a) && h != g
    ensures a.Bytes(h, s) != a.Bytes(g, s)
  {
    if s != [] {
      OneByteKeeps(a, h, g, s[0]);
      BytesKeep(a, a.byteStep(h, s[0]), a.byteStep(g, s[0]), s[1..]);
    }
  }

  lemma {:induction false} WordsKeep<Acc, H(!new)>(a: Algorithm<Acc, H>, h: H, g: H, s: seq<byte>)
    requires Mixes(a) && h != g
    ensures a.Words(h, s) != a.Words(g, s)
    decreases |s|
  {
    if |s| >= a.word {
      WordsKeep(a, a.wordStep(h, s[..a.word]), a.wordStep(g, s[..a.word]), s[a.word..]);
    } else if 0 < a.halfWord <= |s| {
      BytesKeep(a, a.halfStep(h, s[..a.halfWord]), a.halfStep(g, s[..a.halfWord]), s[a.halfWord..]);
    } else {
      BytesKeep(a, h, g, s);
    }
  }

  /** t is s with another byte at i. */
  ghost predicate OneDiffers(s: seq<byte>, t: seq<byte>, i: nat) {
    |s| == |t| && i < |s| && s[i] != t[i] && s[..i] == t[..i] && s[i + 1..] == t[i + 1..]
  }

  /** The front of n bytes differs, and the rest is the same; or the other way round. */
  lemma Split(s: seq<byte>, t: seq<byte>, i: nat, n: nat)
    requires OneDiffers(s, t, i) && n <= |s|
    ensures i < n ==> s[..n] != t[..n] && s[n..] == t[n..]
    ensures n <= i ==> s[..n] == t[..n] && OneDiffers(s[n..], t[n..], i - n)
  {
    if i < n {
      assert s[..n][i] != t[..n][i];
      assert s[n..] == s[i + 1..][n - i - 1..] && t[n..] == t[i + 1..][n - i - 1..];
    } else {
      assert s[..n] == s[..i][..n] && t[..n] == t[..i][..n];
      assert s[n..][..i - n] == s[..i][n..] && t[n..][..i - n] == t[..i][n..];
      assert s[n..][i - n + 1..] == s[i + 1..] && t[n..][i - n + 1..] == t[i + 1..];
    }
  }

  lemma {:induction false} BytesDiffer<Acc, H(!new)>(a: Algorithm<Acc, H>, h: H, s: seq<byte>, t: seq<byte>, i: nat)
    requires Mixes(a) && OneDiffers(s, t, i)
    ensures a.Bytes(h, s) != a.Bytes(h, t)
  {
    Split(s, t, i, 1);
    if i == 0 {
      OneByteDiffers(a, h, s[0], t[0]);
      BytesKeep(a, a.byteStep(h, s[0]), a.byteStep(h, t[0]), s[1..]);
    } else {
      assert s[0] == s[..1][0] == t[..1][0] == t[0];
      BytesDiffer(a, a.byteStep(h, s[0]), s[1..], t[1..], i - 1);
    }
  }

  lemma {:induction false} WordsDiffer<Acc, H(!new)>(a: Algorithm<Acc, H>, h: H, s: seq<byte>, t: seq<byte>, i: nat)
    requires Mixes(a) && OneDiffers(s, t, i)
    ensures a.Words(h, s) != a.Words(h, t)
    decreases |s|
  {
    if |s| >= a.word {
      Split(s, t, i, a.word);
      if i < a.word {
        WordsKeep(a, a.wordStep(h, s[..a.word]), a.wordStep(h, t[..a.word]), s[a.word..]);
      } else {
        WordsDiffer(a, a.wordStep(h, s[..a.word]), s[a.word..], t[a.word..], i - a.word);
      }
    } else if 0 < a.halfWord <= |s| {
      Split(s, t, i, a.halfWord);
      if i < a.halfWord {
        BytesKeep(a, a.halfStep(h, s[..a.halfWord]), a.halfStep(h, t[..a.halfWord]), s[a.halfWord..]);
      } else {
        BytesDiffer(a, a.halfStep(h, s[..a.halfWord]), s[a.halfWord..], t[a.halfWord..], i - a.halfWord);
      }
    } else {
      BytesDiffer(a, h, s, t, i);
    }
  }

  lemma {:induction false} RestShorter<Acc, H>(a: Algorithm<Acc, H>, s: seq<byte>)
    requires a.Valid()
    ensures |a.Rest(s)| <= |s|
    decreases |s|
  {
    if |s| >= a.stripe {
      RestShorter(a, s[a.stripe..]);
    }
  }

  lemma {:induction false} SameStripes<Acc, H>(a: Algorithm<Acc, H>, acc: Acc, s: seq<byte>, t: seq<byte>, i: nat)
    requires a.Valid() && OneDiffers(s, t, i) && i >= |s| - |a.Rest(s)|
    ensures a.ConsumeAll(acc, s) == a.ConsumeAll(acc, t) && |a.Rest(s)| <= |s|
    ensures OneDiffers(a.Rest(s), a.Rest(t), i - (|s| - |a.Rest(s)|))
    decreases |s|
  {
    if |s| >= a.stripe {
      RestShorter(a, s[a.stripe..]);
      Split(s, t, i, a.stripe);
      SameStripes(a, a.consume(acc, s[..a.stripe]), s[a.stripe..], t[a.stripe..], i - a.stripe);
    }
  }

  /** Inputs of one length that differ in one byte behind their whole stripes have different hashes. */
  lemma OneByteShows<Acc, H(!new)>(a: Algorithm<Acc, H>, s: seq<byte>, t: seq<byte>, i: nat)
    requires Mixes(a) && OneDiffers(s, t, i) && i >= |s| - |a.Rest(s)|
    ensures a.Hash(s) != a.Hash(t)
  {
    SameStripes(a, a.start, s, t, i);
    var h := if |s| >= a.stripe then a.converge(a.ConsumeAll(a.start, s)) else a.short;
    WordsDiffer(a, a.addLength(h, |s|), a.Rest(s), a.Rest(t), i - (|s| - |a.Rest(s)|));
  }

  // ---------- 64 bits ----------

  /** Names two words, so that a law is used on them and on nothing else. */
  ghost predicate On64(x: bv64, y: bv64) { true }

  lemma OddZero64(d: bv64, p: bv64)
    requires d * p == 0 && p & 1 == 1
    ensures d == 0
  {}

  lemma OddSum64(y: bv64, d: bv64, p: bv64)
    requires (y + d) * p == y * p && p & 1 == 1
    ensures d == 0
  {
    OddZero64(d, p);
  }

  lemma OddSums64(p: bv64)
    requires p & 1 == 1
    ensures forall y: bv64, d: bv64 {:trigger On64(y, d)} :: (y + d) * p == y * p ==> d == 0
  {
    forall y: bv64, d: bv64 | On64(y, d) && (y + d) * p == y * p ensures d == 0 {
      OddSum64(y, d, p);
    }
  }

  lemma NoDifference64(x: bv64, y: bv64)
    requires x - y == 0
    ensures x == y
  {}

  lemma OddDifference64(x: bv64, y: bv64, p: bv64)
    requires x * p == y * p && p & 1 == 1
    ensures x - y == 0
  {
    OddSums64(p);
    assert On64(y, x - y);
  }

  lemma OddFactor64(x: bv64, y: bv64, p: bv64)
    requires x * p == y * p && p & 1 == 1
    ensures x == y
  {
    OddDifference64(x, y, p);
    NoDifference64(x, y);
  }

  /** Multiplication by an odd number loses nothing. */
  lemma Times64Keeps(x: bv64, y: bv64, p: bv64)
    requires Times64(x, p) == Times64(y, p) && p & 1 == 1
    ensures x == y
  {
    OddFactor64(x, y, p);
  }

  lemma Rotl11(x: bv64, y: bv64)
    requires Rotl64(x, 11) == Rotl64(y, 11)
    ensures x == y
  {}

  lemma Rotl23(x: bv64, y: bv64)
    requires Rotl64(x, 23) == Rotl64(y, 23)
    ensures x == y
  {}

  lemma Rotl27(x: bv64, y: bv64)
    requires Rotl64(x, 27) == Rotl64(y, 27)
    ensures x == y
  {}

  lemma Rotl31(x: bv64, y: bv64)
    requires Rotl64(x, 31) == Rotl64(y, 31)
    ensures x == y
  {}

  lemma Primes64()
    ensures PRIME64_1 & 1 == 1 && PRIME64_2 & 1 == 1 && PRIME64_3 & 1 == 1 && PRIME64_5 & 1 == 1
  {}

  lemma Xor64Keeps(h: bv64, g: bv64, k: bv64)
    requires Xor64(h, k) == Xor64(g, k)
    ensures h == g
  {}

  lemma Xor64Shows(h: bv64, j: bv64, k: bv64)
    requires Xor64(h, j) == Xor64(h, k)
    ensures j == k
  {}

  lemma PlusKeeps3(x: bv64, y: bv64)
    requires Plus64(x, PRIME64_3) == Plus64(y, PRIME64_3)
    ensures x == y
  {}

  lemma PlusKeeps4(x: bv64, y: bv64)
    requires Plus64(x, PRIME64_4) == Plus64(y, PRIME64_4)
    ensures x == y
  {}

  lemma ByteTail64(x: bv64, y: bv64)
    requires Times64(Rotl64(x, 11), PRIME64_1) == Times64(Rotl64(y, 11), PRIME64_1)
    ensures x == y
  {
    Primes64();
    Times64Keeps(Rotl64(x, 11), Rotl64(y, 11), PRIME64_1);
    Rotl11(x, y);
  }

  lemma ByteKeeps64(h: bv64, g: bv64, b: byte)
    requires Byte64(h, b) == Byte64(g, b)
    ensures h == g
  {
    ByteTail64(Xor64(h, Times64(b as bv64, PRIME64_5)), Xor64(g, Times64(b as bv64, PRIME64_5)));
    Xor64Keeps(h, g, Times64(b as bv64, PRIME64_5));
  }

  lemma ByteFactor64(b: byte, c: byte)
    requires Times64(b as bv64, PRIME64_5) == Times64(c as bv64, PRIME64_5)
    ensures b == c
  {
    Primes64();
    Times64Keeps(b as bv64, c as bv64, PRIME64_5);
  }

  lemma ByteShows64(h: bv64, b: byte, c: byte)
    requires Byte64(h, b) == Byte64(h, c)
    ensures b == c
  {
    ByteTail64(Xor64(h, Times64(b as bv64, PRIME64_5)), Xor64(h, Times64(c as bv64, PRIME64_5)));
    Xor64Shows(h, Times64(b as bv64, PRIME64_5), Times64(c as bv64, PRIME64_5));
    ByteFactor64(b, c);
  }

  lemma WordTail64(x: bv64, y: bv64)
    requires Plus64(Times64(Rotl64(x, 27), PRIME64_1), PRIME64_4) == Plus64(Times64(Rotl64(y, 27), PRIME64_1), PRIME64_4)
    ensures x == y
  {
    Primes64();
    PlusKeeps4(Times64(Rotl64(x, 27), PRIME64_1), Times64(Rotl64(y, 27), PRIME64_1));
    Times64Keeps(Rotl64(x, 27), Rotl64(y, 27), PRIME64_1);
    Rotl27(x, y);
  }

  lemma WordKeeps64(h: bv64, g: bv64, s: seq<byte>)
    requires Word64(h, s) == Word64(g, s)
    ensures h == g
  {
    WordTail64(Xor64(h, Spread64(Read64(s, 0))), Xor64(g, Spread64(Read64(s, 0))));
    Xor64Keeps(h, g, Spread64(Read64(s, 0)));
  }

  lemma Spread64Shows(x: bv64, y: bv64)
    requires Spread64(x) == Spread64(y)
    ensures x == y
  {
    Primes64();
    Times64Keeps(Rotl64(Times64(x, PRIME64_2), 31), Rotl64(Times64(y, PRIME64_2), 31), PRIME64_1);
    Rotl31(Times64(x, PRIME64_2), Times64(y, PRIME64_2));
    Times64Keeps(x, y, PRIME64_2);
  }

  lemma Read32Shows(s: seq<byte>, t: seq<byte>, o: nat)
    requires |s| == |t| && o + 4 <= |s| && Read32(s, o) == Read32(t, o)
    ensures s[o] == t[o] && s[o + 1] == t[o + 1] && s[o + 2] == t[o + 2] && s[o + 3] == t[o + 3]
  {}

  lemma Halves64(a: bv32, b: bv32, c: bv32, d: bv32)
    requires Joined64(a, b) == Joined64(c, d)
    ensures a == c && b == d
  {}

  lemma Read64Shows(s: seq<byte>, t: seq<byte>)
    requires |s| == |t| == 8 && Read64(s, 0) == Read64(t, 0)
    ensures s == t
  {
    Halves64(Read32(s, 0), Read32(s, 4), Read32(t, 0), Read32(t, 4));
    Read32Shows(s, t, 0);
    Read32Shows(s, t, 4);
  }

  lemma WordShows64(h: bv64, s: seq<byte>, t: seq<byte>)
    requires |s| == |t| == 8 && Word64(h, s) == Word64(h, t)
    ensures s == t
  {
    WordTail64(Xor64(h, Spread64(Read64(s, 0))), Xor64(h, Spread64(Read64(t, 0))));
    Xor64Shows(h, Spread64(Read64(s, 0)), Spread64(Read64(t, 0)));
    Spread64Shows(Read64(s, 0), Read64(t, 0));
    Read64Shows(s, t);
  }

  lemma HalfTail64(x: bv64, y: bv64)
    requires Plus64(Times64(Rotl64(x, 23), PRIME64_2), PRIME64_3) == Plus64(Times64(Rotl64(y, 23), PRIME64_2), PRIME64_3)
    ensures x == y
  {
    Primes64();
    PlusKeeps3(Times64(Rotl64(x, 23), PRIME64_2), Times64(Rotl64(y, 23), PRIME64_2));
    Times64Keeps(Rotl64(x, 23), Rotl64(y, 23), PRIME64_2);
    Rotl23(x, y);
  }

  lemma HalfKeeps64(h: bv64, g: bv64, s: seq<byte>)
    requires Half64(h, s) == Half64(g, s)
    ensures h == g
  {
    HalfTail64(Xor64(h, Times64(Wide(Read32(s, 0)), PRIME64_1)), Xor64(g, Times64(Wide(Read32(s, 0)), PRIME64_1)));
    Xor64Keeps(h, g, Times64(Wide(Read32(s, 0)), PRIME64_1));
  }

  lemma Widened64(a: bv32, b: bv32)
    requires Times64(Wide(a), PRIME64_1) == Times64(Wide(b), PRIME64_1)
    ensures a == b
  {
    Primes64();
    Times64Keeps(Wide(a), Wide(b), PRIME64_1);
  }

  lemma Read32Same(s: seq<byte>, t: seq<byte>)
    requires |s| == |t| == 4 && Read32(s, 0) == Read32(t, 0)
    ensures s == t
  {
    Read32Shows(s, t, 0);
  }

  lemma HalfWords64(h: bv64, a: bv32, b: bv32)
    requires Plus64(Times64(Rotl64(Xor64(h, Times64(Wide(a), PRIME64_1)), 23), PRIME64_2), PRIME64_3)
          == Plus64(Times64(Rotl64(Xor64(h, Times64(Wide(b), PRIME64_1)), 23), PRIME64_2), PRIME64_3)
    ensures a == b
  {
    HalfTail64(Xor64(h, Times64(Wide(a), PRIME64_1)), Xor64(h, Times64(Wide(b), PRIME64_1)));
    Xor64Shows(h, Times64(Wide(a), PRIME64_1), Times64(Wide(b), PRIME64_1));
    Widened64(a, b);
  }

  lemma HalfShows64(h: bv64, s: seq<byte>, t: seq<byte>)
    requires |s| == |t| == 4 && Half64(h, s) == Half64(h, t)
    ensures s == t
  {
    HalfWords64(h, Read32(s, 0), Read32(t, 0));
    Read32Same(s, t);
  }

  function Unfold33(x: bv64): bv64 {
    x ^ (x >> 33)
  }

  lemma Undo33(x: bv64)
    ensures Unfold33(x ^ (x >> 33)) == x
  {}

  lemma Back33(x: bv64)
    ensures Unfold33(Fold33(x)) == x
  {
    Undo33(x);
  }

  lemma Fold33Keeps(x: bv64, y: bv64)
    requires Fold33(x) == Fold33(y)
    ensures x == y
  {
    Back33(x);
    Back33(y);
  }

  function Unfold29(x: bv64): bv64 {
    x ^ (x >> 29) ^ (x >> 58)
  }

  lemma Undo29(x: bv64)
    ensures Unfold29(x ^ (x >> 29)) == x
  {}

  lemma Back29(x: bv64)
    ensures Unfold29(Fold29(x)) == x
  {
    Undo29(x);
  }

  lemma Fold29Keeps(x: bv64, y: bv64)
    requires Fold29(x) == Fold29(y)
    ensures x == y
  {
    Back29(x);
    Back29(y);
  }

  lemma HighStays(x: bv64)
    ensures High(Fold32(x)) == High(x)
  {}

  lemma Fold32Keeps(x: bv64, y: bv64)
    requires Fold32(x) == Fold32(y)
    ensures x == y
  {
    HighStays(x);
    HighStays(y);
    Xor64Keeps(x, y, High(x));
  }

  lemma AvalancheKeeps64(h: bv64, g: bv64)
    requires Avalanche64(h) == Avalanche64(g)
    ensures h == g
  {
    var x1, y1 := Fold33(h), Fold33(g);
    var x2, y2 := Times64(x1, PRIME64_2), Times64(y1, PRIME64_2);
    var x3, y3 := Fold29(x2), Fold29(y2);
    Primes64();
    Fold32Keeps(Times64(x3, PRIME64_3), Times64(y3, PRIME64_3));
    Times64Keeps(x3, y3, PRIME64_3);
    Fold29Keeps(x2, y2);
    Times64Keeps(x1, y1, PRIME64_2);
    Fold33Keeps(h, g);
  }

  lemma Mixes64(seed: bv64)
    ensures Mixes(XXH64(seed))
  {
    var a := XXH64(seed);
    forall h, g, s | a.wordStep(h, s) == a.wordStep(g, s) ensures h == g { WordKeeps64(h, g, s); }
    forall h, s, t | |s| == |t| == a.word && a.wordStep(h, s) == a.wordStep(h, t) ensures s == t { WordShows64(h, s, t); }
    forall h, g, s | a.halfStep(h, s) == a.halfStep(g, s) ensures h == g { HalfKeeps64(h, g, s); }
    forall h, s, t | |s| == |t| == a.halfWord && a.halfStep(h, s) == a.halfStep(h, t) ensures s == t { HalfShows64(h, s, t); }
    forall h, g, b | a.byteStep(h, b) == a.byteStep(g, b) ensures h == g { ByteKeeps64(h, g, b); }
    forall h, b, c | a.byteStep(h, b) == a.byteStep(h, c) ensures b == c { ByteShows64(h, b, c); }
    forall h, g | a.avalanche(h) == a.avalanche(g) ensures h == g { AvalancheKeeps64(h, g); }
  }

  // ---------- 32 bits ----------

  ghost predicate On32(x: bv32, y: bv32) { true }

  lemma OddZero32(d: bv32, p: bv32)
    requires d * p == 0 && p & 1 == 1
    ensures d == 0
  {}

  lemma OddSum32(y: bv32, d: bv32, p: bv32)
    requires (y + d) * p == y * p && p & 1 == 1
    ensures d == 0
  {
    OddZero32(d, p);
  }

  lemma OddSums32(p: bv32)
    requires p & 1 == 1
    ensures forall y: bv32, d: bv32 {:trigger On32(y, d)} :: (y + d) * p == y * p ==> d == 0
  {
    forall y: bv32, d: bv32 | On32(y, d) && (y + d) * p == y * p ensures d == 0 {
      OddSum32(y, d, p);
    }
  }

  lemma NoDifference32(x: bv32, y: bv32)
    requires x - y == 0
    ensures x == y
  {}

  lemma OddDifference32(x: bv32, y: bv32, p: bv32)
    requires x * p == y * p && p & 1 == 1
    ensures x - y == 0
  {
    OddSums32(p);
    assert On32(y, x - y);
  }

  lemma OddFactor32(x: bv32, y: bv32, p: bv32)
    requires x * p == y * p && p & 1 == 1
    ensures x == y
  {
    OddDifference32(x, y, p);
    NoDifference32(x, y);
  }

  lemma Times32Keeps(x: bv32, y: bv32, p: bv32)
    requires Times32(x, p) == Times32(y, p) && p & 1 == 1
    ensures x == y
  {
    OddFactor32(x, y, p);
  }

  lemma Turn11(x: bv32, y: bv32)
    requires Rotl32(x, 11) == Rotl32(y, 11)
    ensures x == y
  {}

  lemma Turn17(x: bv32, y: bv32)
    requires Rotl32(x, 17) == Rotl32(y, 17)
    ensures x == y
  {}

  lemma Primes32()
    ensures PRIME32_1 & 1 == 1 && PRIME32_2 & 1 == 1 && PRIME32_3 & 1 == 1 && PRIME32_4 & 1 == 1 && PRIME32_5 & 1 == 1
  {}

  function Minus32(x: bv32, y: bv32): bv32 {
    x - y
  }

  lemma Sum32(x: bv32, k: bv32)
    ensures Minus32(x + k, k) == x && Minus32(x + k, x) == k
  {}

  lemma Unplus32(x: bv32, k: bv32)
    ensures Minus32(Plus32(x, k), k) == x && Minus32(Plus32(x, k), x) == k
  {
    Sum32(x, k);
  }

  lemma Plus32Keeps(h: bv32, g: bv32, k: bv32)
    requires Plus32(h, k) == Plus32(g, k)
    ensures h == g
  {
    Unplus32(h, k);
    Unplus32(g, k);
  }

  lemma Plus32Shows(h: bv32, j: bv32, k: bv32)
    requires Plus32(h, j) == Plus32(h, k)
    ensures j == k
  {
    Unplus32(h, j);
    Unplus32(h, k);
  }

  lemma ByteTail32(x: bv32, y: bv32)
    requires Times32(Rotl32(x, 11), PRIME32_1) == Times32(Rotl32(y, 11), PRIME32_1)
    ensures x == y
  {
    Primes32();
    Times32Keeps(Rotl32(x, 11), Rotl32(y, 11), PRIME32_1);
    Turn11(x, y);
  }

  lemma ByteKeeps32(h: bv32, g: bv32, b: byte)
    requires Byte32(h, b) == Byte32(g, b)
    ensures h == g
  {
    ByteTail32(Plus32(h, Times32(b as bv32, PRIME32_5)), Plus32(g, Times32(b as bv32, PRIME32_5)));
    Plus32Keeps(h, g, Times32(b as bv32, PRIME32_5));
  }

  lemma ByteFactor32(b: byte, c: byte)
    requires Times32(b as bv32, PRIME32_5) == Times32(c as bv32, PRIME32_5)
    ensures b == c
  {
    Primes32();
    Times32Keeps(b as bv32, c as bv32, PRIME32_5);
  }

  lemma ByteShows32(h: bv32, b: byte, c: byte)
    requires Byte32(h, b) == Byte32(h, c)
    ensures b == c
  {
    ByteTail32(Plus32(h, Times32(b as bv32, PRIME32_5)), Plus32(h, Times32(c as bv32, PRIME32_5)));
    Plus32Shows(h, Times32(b as bv32, PRIME32_5), Times32(c as bv32, PRIME32_5));
    ByteFactor32(b, c);
  }

  lemma WordTail32(x: bv32, y: bv32)
    requires Times32(Rotl32(x, 17), PRIME32_4) == Times32(Rotl32(y, 17), PRIME32_4)
    ensures x == y
  {
    Primes32();
    Times32Keeps(Rotl32(x, 17), Rotl32(y, 17), PRIME32_4);
    Turn17(x, y);
  }

  lemma WordKeeps32(h: bv32, g: bv32, s: seq<byte>)
    requires Word32(h, s) == Word32(g, s)
    ensures h == g
  {
    WordTail32(Plus32(h, Times32(Read32(s, 0), PRIME32_3)), Plus32(g, Times32(Read32(s, 0), PRIME32_3)));
    Plus32Keeps(h, g, Times32(Read32(s, 0), PRIME32_3));
  }

  lemma Words32(h: bv32, a: bv32, b: bv32)
    requires Times32(Rotl32(Plus32(h, Times32(a, PRIME32_3)), 17), PRIME32_4)
          == Times32(Rotl32(Plus32(h, Times32(b, PRIME32_3)), 17), PRIME32_4)
    ensures a == b
  {
    WordTail32(Plus32(h, Times32(a, PRIME32_3)), Plus32(h, Times32(b, PRIME32_3)));
    Plus32Shows(h, Times32(a, PRIME32_3), Times32(b, PRIME32_3));
    Primes32();
    Times32Keeps(a, b, PRIME32_3);
  }

  lemma WordShows32(h: bv32, s: seq<byte>, t: seq<byte>)
    requires |s| == |t| == 4 && Word32(h, s) == Word32(h, t)
    ensures s == t
  {
    Words32(h, Read32(s, 0), Read32(t, 0));
    Read32Same(s, t);
  }

  function Unfold15(x: bv32): bv32 {
    x ^ (x >> 15) ^ (x >> 30)
  }

  lemma Undo15(x: bv32)
    ensures Unfold15(x ^ (x >> 15)) == x
  {}

  lemma Back15(x: bv32)
    ensures Unfold15(Fold15(x)) == x
  {
    Undo15(x);
  }

  lemma Fold15Keeps(x: bv32, y: bv32)
    requires Fold15(x) == Fold15(y)
    ensures x == y
  {
    Back15(x);
    Back15(y);
  }

  function Unfold13(x: bv32): bv32 {
    x ^ (x >> 13) ^ (x >> 26)
  }

  lemma Undo13(x: bv32)
    ensures Unfold13(x ^ (x >> 13)) == x
  {}

  lemma Back13(x: bv32)
    ensures Unfold13(Fold13(x)) == x
  {
    Undo13(x);
  }

  lemma Fold13Keeps(x: bv32, y: bv32)
    requires Fold13(x) == Fold13(y)
    ensures x == y
  {
    Back13(x);
    Back13(y);
  }

  lemma Xor32Keeps(h: bv32, g: bv32, k: bv32)
    requires Xor32(h, k) == Xor32(g, k)
    ensures h == g
  {}

  lemma HighHalfStays(x: bv32)
    ensures HighHalf(Fold16(x)) == HighHalf(x)
  {}

  lemma Fold16Keeps(x: bv32, y: bv32)
    requires Fold16(x) == Fold16(y)
    ensures x == y
  {
    HighHalfStays(x);
    HighHalfStays(y);
    Xor32Keeps(x, y, HighHalf(x));
  }

  lemma AvalancheKeeps32(h: bv32, g: bv32)
    requires Avalanche32(h) == Avalanche32(g)
    ensures h == g
  {
    var x1, y1 := Fold15(h), Fold15(g);
    var x2, y2 := Times32(x1, PRIME32_2), Times32(y1, PRIME32_2);
    var x3, y3 := Fold13(x2), Fold13(y2);
    Primes32();
    Fold16Keeps(Times32(x3, PRIME32_3), Times32(y3, PRIME32_3));
    Times32Keeps(x3, y3, PRIME32_3);
    Fold13Keeps(x2, y2);
    Times32Keeps(x1, y1, PRIME32_2);
    Fold15Keeps(h, g);
  }

  lemma Mixes32(seed: bv32)
    ensures Mixes(XXH32(seed))
  {
    var a := XXH32(seed);
    forall h, g, s | a.wordStep(h, s) == a.wordStep(g, s) ensures h == g { WordKeeps32(h, g, s); }
    forall h, s, t | |s| == |t| == a.word && a.wordStep(h, s) == a.wordStep(h, t) ensures s == t { WordShows32(h, s, t); }
    forall h, g, b | a.byteStep(h, b) == a.byteStep(g, b) ensures h == g { ByteKeeps32(h, g, b); }
    forall h, b, c | a.byteStep(h, b) == a.byteStep(h, c) ensures b == c { ByteShows32(h, b, c); }
    forall h, g | a.avalanche(h) == a.avalanche(g) ensures h == g { AvalancheKeeps32(h, g); }
  }

  // ---------- both ----------

  /** For any seed, inputs of one length that differ in one byte behind the whole stripes have different
      hashes, in both members of the family. */
  lemma EveryByteCounts(seed64: bv64, seed32: bv32, s: seq<byte>, t: seq<byte>, i: nat)
    requires OneDiffers(s, t, i)
    ensures i >= |s| - |XXH64(seed64).Rest(s)| ==> XXH64(seed64).Hash(s) != XXH64(seed64).Hash(t)
    ensures i >= |s| - |XXH32(seed32).Rest(s)| ==> XXH32(seed32).Hash(s) != XXH32(seed32).Hash(t)
  {
    Mixes64(seed64);
    Mixes32(seed32);
    if i >= |s| - |XXH64(seed64).Rest(s)| {
      OneByteShows(XXH64(seed64), s, t, i);
    }
    if i >= |s| - |XXH32(seed32).Rest(s)| {
      OneByteShows(XXH32(seed32), s, t, i);
    }
  }
}
