/** XXH64 and XXH32 (src/xxhash.c) as instances of the stream hash, on a little-endian machine. */
module XXHash {
  import opened StreamHash

  datatype Acc64 = Acc64(v1: bv64, v2: bv64, v3: bv64, v4: bv64)
  datatype Acc32 = Acc32(v1: bv32, v2: bv32, v3: bv32, v4: bv32)

  const PRIME32_1: bv32 := 2654435761
  const PRIME32_2: bv32 := 2246822519
  const PRIME32_3: bv32 := 3266489917
  const PRIME32_4: bv32 := 668265263
  const PRIME32_5: bv32 := 374761393

  const PRIME64_1: bv64 := 11400714785074694791
  const PRIME64_2: bv64 := 14029467366897019727
  const PRIME64_3: bv64 := 1609587929392839161
  const PRIME64_4: bv64 := 9650029242287828579
  const PRIME64_5: bv64 := 2870177450012600261

  function Rotl64(x: bv64, r: bv8): bv64
    requires r < 64
  {
    (x << r) | (x >> (64 - r))
  }

  function Rotl32(x: bv32, r: bv8): bv32
    requires r < 32
  {
    (x << r) | (x >> (32 - r))
  }

  // The operators the steps are made of, as functions: proofs can speak of them without looking at bits.

  function Times64(x: bv64, p: bv64): bv64 {
    x * p
  }

  function Xor64(x: bv64, y: bv64): bv64 {
    x ^ y
  }

  function Plus64(x: bv64, y: bv64): bv64 {
    x + y
  }

  function Times32(x: bv32, p: bv32): bv32 {
    x * p
  }

  function Plus32(x: bv32, y: bv32): bv32 {
    x + y
  }

  function Xor32(x: bv32, y: bv32): bv32 {
    x ^ y
  }

  function Wide(x: bv32): bv64 {
    x as bv64
  }

  /** h ^= h >> 33, and so on. */
  function Fold33(h: bv64): bv64 {
    h ^ (h >> 33)
  }

  function Fold29(h: bv64): bv64 {
    h ^ (h >> 29)
  }

  function High(h: bv64): bv64 {
    h >> 32
  }

  function Fold32(h: bv64): bv64 {
    Xor64(h, High(h))
  }

  function Fold15(h: bv32): bv32 {
    h ^ (h >> 15)
  }

  function Fold13(h: bv32): bv32 {
    h ^ (h >> 13)
  }

  function HighHalf(h: bv32): bv32 {
    h >> 16
  }

  function Fold16(h: bv32): bv32 {
    Xor32(h, HighHalf(h))
  }

  /** The n-th byte, or 0 behind the end: the readers below are only used inside their input. */
  function ByteAt(s: seq<byte>, n: nat): byte {
    if n < |s| then s[n] else 0
  }

  function Read32(s: seq<byte>, off: nat): bv32 {
    (ByteAt(s, off) as bv32) | ((ByteAt(s, off + 1) as bv32) << 8)
    | ((ByteAt(s, off + 2) as bv32) << 16) | ((ByteAt(s, off + 3) as bv32) << 24)
  }

  function Joined64(low: bv32, high: bv32): bv64 {
    (low as bv64) | ((high as bv64) << 32)
  }

  function Read64(s: seq<byte>, off: nat): bv64 {
    Joined64(Read32(s, off), Read32(s, off + 4))
  }

  /** What a word becomes before it goes into the hash. */
  function Spread64(k: bv64): bv64 {
    Times64(Rotl64(Times64(k, PRIME64_2), 31), PRIME64_1)
  }

  function Round64(v: bv64, input: bv64): bv64 {
    Times64(Rotl64(Plus64(v, Times64(input, PRIME64_2)), 31), PRIME64_1)
  }

  function Round32(v: bv32, input: bv32): bv32 {
    Times32(Rotl32(Plus32(v, Times32(input, PRIME32_2)), 13), PRIME32_1)
  }

  function Consume64(a: Acc64, s: seq<byte>): Acc64 {
    Acc64(Round64(a.v1, Read64(s, 0)), Round64(a.v2, Read64(s, 8)), Round64(a.v3, Read64(s, 16)), Round64(a.v4, Read64(s, 24)))
  }

  function Consume32(a: Acc32, s: seq<byte>): Acc32 {
    Acc32(Round32(a.v1, Read32(s, 0)), Round32(a.v2, Read32(s, 4)), Round32(a.v3, Read32(s, 8)), Round32(a.v4, Read32(s, 12)))
  }

  function MergeRound64(h: bv64, v: bv64): bv64 {
    Plus64(Times64(Xor64(h, Spread64(v)), PRIME64_1), PRIME64_4)
  }

  function Converge64(a: Acc64): bv64 {
    var h := Rotl64(a.v1, 1) + Rotl64(a.v2, 7) + Rotl64(a.v3, 12) + Rotl64(a.v4, 18);
    MergeRound64(MergeRound64(MergeRound64(MergeRound64(h, a.v1), a.v2), a.v3), a.v4)
  }

  function Converge32(a: Acc32): bv32 {
    Rotl32(a.v1, 1) + Rotl32(a.v2, 7) + Rotl32(a.v3, 12) + Rotl32(a.v4, 18)
  }

  function Word64(h: bv64, s: seq<byte>): bv64 {
    Plus64(Times64(Rotl64(Xor64(h, Spread64(Read64(s, 0))), 27), PRIME64_1), PRIME64_4)
  }

  function Half64(h: bv64, s: seq<byte>): bv64 {
    Plus64(Times64(Rotl64(Xor64(h, Times64(Wide(Read32(s, 0)), PRIME64_1)), 23), PRIME64_2), PRIME64_3)
  }

  function Byte64(h: bv64, b: byte): bv64 {
    Times64(Rotl64(Xor64(h, Times64(b as bv64, PRIME64_5)), 11), PRIME64_1)
  }

  function Word32(h: bv32, s: seq<byte>): bv32 {
    Times32(Rotl32(Plus32(h, Times32(Read32(s, 0), PRIME32_3)), 17), PRIME32_4)
  }

  function Byte32(h: bv32, b: byte): bv32 {
    Times32(Rotl32(Plus32(h, Times32(b as bv32, PRIME32_5)), 11), PRIME32_1)
  }

  function Avalanche64(h: bv64): bv64 {
    Fold32(Times64(Fold29(Times64(Fold33(h), PRIME64_2)), PRIME64_3))
  }

  function Avalanche32(h: bv32): bv32 {
    Fold16(Times32(Fold13(Times32(Fold15(h), PRIME32_2)), PRIME32_3))
  }

  function XXH64(seed: bv64): (a: Algorithm<Acc64, bv64>)
    ensures a.Valid() && a.stripe == 32
  {
    Algorithm(32, Acc64(seed + PRIME64_1 + PRIME64_2, seed + PRIME64_2, seed, seed - PRIME64_1), Consume64,
              Converge64, seed + PRIME64_5, (h: bv64, n: nat) => h + ((n % 0x1_0000_0000_0000_0000) as bv64),
              8, Word64, 4, Half64, Byte64, Avalanche64)
  }

  function XXH32(seed: bv32): (a: Algorithm<Acc32, bv32>)
    ensures a.Valid() && a.stripe == 16
  {
    Algorithm(16, Acc32(seed + PRIME32_1 + PRIME32_2, seed + PRIME32_2, seed, seed - PRIME32_1), Consume32,
              Converge32, seed + PRIME32_5, (h: bv32, n: nat) => h + ((n % 0x1_0000_0000) as bv32),
              4, Word32, 0, (h: bv32, s: seq<byte>) => h, Byte32, Avalanche32)
  }

  /** A 64-bit stream fed with any chunks digests to the one-shot hash of their concatenation. */
  method Stream64(seed: bv64, chunks: seq<seq<byte>>) returns (stream: bv64, oneShot: bv64)
    requires |Concat(chunks)| < 0x1_0000_0000 && forall i :: 0 <= i < |chunks| ==> |chunks[i]| + 32 < 0x8000_0000
    ensures stream == oneShot == XXH64(seed).Hash(Concat(chunks))
  {
    var st := new Stream(XXH64(seed));
    stream := HashChunks(st, chunks);
    oneShot := XXH64(seed).OneShot(Concat(chunks));
  }

  method Stream32(seed: bv32, chunks: seq<seq<byte>>) returns (stream: bv32, oneShot: bv32)
    requires |Concat(chunks)| < 0x1_0000_0000 && forall i :: 0 <= i < |chunks| ==> |chunks[i]| + 16 < 0x8000_0000
    ensures stream == oneShot == XXH32(seed).Hash(Concat(chunks))
  {
    var st := new Stream(XXH32(seed));
    stream := HashChunks(st, chunks);
    oneShot := XXH32(seed).OneShot(Concat(chunks));
  }
}
