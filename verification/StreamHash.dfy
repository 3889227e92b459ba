/** src/xxhash.c: the hash over stripes of input, in one call and as a buffered stream.  XXH32 and XXH64
    are the same machine with other widths and round functions, which are parameters here; the two
    instances are in XXHash. */
module StreamHash {

  type byte = bv8

  /** One member of the family.  Acc is v1..v4, H the running hash.  The input is consumed in stripes;
      what is left goes through word steps, at most one half-word step (halfWord is 0 when there is
      none) and byte steps. */
  datatype Algorithm<!Acc, !H> = Algorithm(
    stripe: nat,
    start: Acc,
    consume: (Acc, seq<byte>) -> Acc,
    converge: Acc -> H,
    short: H,
    addLength: (H, nat) -> H,
    word: nat,
    wordStep: (H, seq<byte>) -> H,
    halfWord: nat,
    halfStep: (H, seq<byte>) -> H,
    byteStep: (H, byte) -> H,
    avalanche: H -> H)
  {
    predicate Valid() {
      0 < stripe && 0 < word && halfWord < word
    }

    /** All whole stripes at the front of s. */
    function ConsumeAll(acc: Acc, s: seq<byte>): Acc
      requires Valid()
      decreases |s|
    {
      if |s| < stripe then acc else ConsumeAll(consume(acc, s[..stripe]), s[stripe..])
    }

    /** What is left of s behind its whole stripes. */
    function Rest(s: seq<byte>): (r: seq<byte>)
      requires Valid()
      ensures |r| < stripe
      decreases |s|
    {
      if |s| < stripe then s else Rest(s[stripe..])
    }

    function Bytes(h: H, s: seq<byte>): H {
      if s == [] then h else Bytes(byteStep(h, s[0]), s[1..])
    }

    function Words(h: H, s: seq<byte>): H
      requires Valid()
      decreases |s|
    {
      if |s| >= word then Words(wordStep(h, s[..word]), s[word..])
      else if 0 < halfWord <= |s| then Bytes(halfStep(h, s[..halfWord]), s[halfWord..])
      else Bytes(h, s)
    }

    /** The hash of s. */
    function Hash(s: seq<byte>): H
      requires Valid()
    {
      var h := if |s| >= stripe then converge(ConsumeAll(start, s)) else short;
      avalanche(Words(addLength(h, |s|), Rest(s)))
    }

    /** Consuming x and then y is consuming x with what was left of it carried over. */
    lemma {:induction false} ConsumeConcat(acc: Acc, x: seq<byte>, y: seq<byte>)
      requires Valid()
      ensures ConsumeAll(acc, x + y) == ConsumeAll(ConsumeAll(acc, x), Rest(x) + y)
      ensures Rest(x + y) == Rest(Rest(x) + y)
      decreases |x|
    {
      if |x| >= stripe {
        assert (x + y)[..stripe] == x[..stripe] && (x + y)[stripe..] == x[stripe..] + y;
        ConsumeConcat(consume(acc, x[..stripe]), x[stripe..], y);
      }
    }

    /** The loop over stripes; p is where it stops. */
    method Stripes(acc0: Acc, input: seq<byte>, p0: nat) returns (acc: Acc, p: nat)
      requires Valid() && p0 <= |input|
      ensures p0 <= p <= |input| && input[p..] == Rest(input[p0..]) && acc == ConsumeAll(acc0, input[p0..])
    {
      acc, p := acc0, p0;
      while p + stripe <= |input|
        invariant p0 <= p <= |input|
        invariant Rest(input[p..]) == Rest(input[p0..])
        invariant ConsumeAll(acc, input[p..]) == ConsumeAll(acc0, input[p0..])
      {
        assert input[p..][..stripe] == input[p..p + stripe] && input[p..][stripe..] == input[p + stripe..];
        acc := consume(acc, input[p..p + stripe]);
        p := p + stripe;
      }
    }

    /** The loops over the remaining words and bytes. */
    method Finish(h0: H, s: seq<byte>) returns (h: H)
      requires Valid()
      ensures h == Words(h0, s)
    {
      h := h0;
      var p := 0;
      assert s[0..] == s;
      while p + word <= |s|
        invariant p <= |s| && Words(h, s[p..]) == Words(h0, s)
      {
        assert s[p..][..word] == s[p..p + word] && s[p..][word..] == s[p + word..];
        h := wordStep(h, s[p..p + word]);
        p := p + word;
      }
      if 0 < halfWord && p + halfWord <= |s| {
        assert s[p..][..halfWord] == s[p..p + halfWord] && s[p..][halfWord..] == s[p + halfWord..];
        h := halfStep(h, s[p..p + halfWord]);
        p := p + halfWord;
      }
      while p < |s|
        invariant p <= |s| && Bytes(h, s[p..]) == Words(h0, s)
      {
        assert s[p..][0] == s[p] && s[p..][1..] == s[p + 1..];
        h := byteStep(h, s[p]);
        p := p + 1;
      }
    }

    /** XXH64_endian_align and XXH32_endian_align. */
    method OneShot(input: seq<byte>) returns (h: H)
      requires Valid() && |input| < 0x1_0000_0000
      ensures h == Hash(input)
    {
      var p := 0;
      if |input| >= stripe {
        var acc;
        acc, p := Stripes(start, input, 0);
        h := converge(acc);
      } else {
        h := short;
      }
      assert input[0..] == input;
      h := addLength(h, |input|);
      h := Finish(h, input[p..]);
      h := avalanche(h);
    }
  }

  /** The state of a stream.  fed is history: all input since the last reset. */
  class Stream<Acc, H> {
    const alg: Algorithm<Acc, H>
    var totalLen: nat
    var acc: Acc
    var memsize: nat
    const memory: array<byte>
    ghost var fed: seq<byte>

    /** v1..v4 stand for all whole stripes fed so far, and memory holds the rest. */
    ghost predicate Valid()
      reads this, memory
    {
      && alg.Valid() && memory.Length == alg.stripe && memsize < alg.stripe
      && totalLen == |fed|
      && acc == alg.ConsumeAll(alg.start, fed)
      && memory[..memsize] == alg.Rest(fed)
    }

    constructor (alg: Algorithm<Acc, H>)
      requires alg.Valid()
      ensures Valid() && fed == [] && this.alg == alg && fresh(memory)
    {
      this.alg, acc := alg, alg.start;
      totalLen, memsize, fed := 0, 0, [];
      memory := new byte[alg.stripe](_ => 0);
    }

    /** XXH64_resetState, XXH32_resetState */
    method Reset()
      requires Valid()
      modifies this
      ensures Valid() && fed == []
    {
      acc, totalLen, memsize, fed := alg.start, 0, 0, [];
    }

    /** memcpy into the buffer behind its first at bytes. */
    method Fill(at: nat, data: seq<byte>)
      requires at + |data| <= memory.Length
      modifies memory
      ensures memory[..at + |data|] == old(memory[..at]) + data
    {
      var i := 0;
      while i < |data|
        invariant i <= |data| && memory[..at + i] == old(memory[..at]) + data[..i]
      {
        memory[at + i] := data[i];
        i := i + 1;
      }
      assert data[..i] == data;
    }

    /** A buffer that has become full with the first p bytes of input is consumed. */
    method Flush(input: seq<byte>) returns (p: nat)
      requires alg.Valid() && memory.Length == alg.stripe && memsize < alg.stripe <= memsize + |input|
      modifies this`acc, memory
      ensures p <= |input|
      ensures alg.ConsumeAll(acc, input[p..]) == alg.ConsumeAll(old(acc), old(memory[..memsize]) + input)
      ensures alg.Rest(input[p..]) == alg.Rest(old(memory[..memsize]) + input)
    {
      ghost var whole := memory[..memsize] + input;
      p := 0;
      if memsize > 0 {
        p := alg.stripe - memsize;
        Fill(memsize, input[..p]);
        assert memory[..] == memory[..memsize + p] == whole[..alg.stripe];
        assert input[p..] == whole[alg.stripe..];
        acc := alg.consume(acc, memory[..]);
      } else {
        assert input[p..] == whole;
      }
    }

    /** What input and the bytes kept so far come to, with at least a whole stripe between them. */
    method Absorb(input: seq<byte>)
      requires alg.Valid() && memory.Length == alg.stripe && memsize < alg.stripe <= memsize + |input|
      modifies this`acc, this`memsize, memory
      ensures memsize < alg.stripe && memory[..memsize] == alg.Rest(old(memory[..memsize]) + input)
      ensures acc == alg.ConsumeAll(old(acc), old(memory[..memsize]) + input)
    {
      var p := Flush(input);
      memsize := 0;
      acc, p := alg.Stripes(acc, input, p);
      if p < |input| {
        Fill(0, input[p..]);
        memsize := |input| - p;
      }
    }

    /** XXH64_update_endian, XXH32_update_endian.  len is an int there, hence the bound. */
    method Update(input: seq<byte>)
      requires Valid() && |input| + alg.stripe < 0x8000_0000
      modifies this, memory
      ensures Valid() && fed == old(fed) + input
    {
      alg.ConsumeConcat(alg.start, fed, input);
      fed := fed + input;
      totalLen := totalLen + |input|;
      if memsize + |input| < alg.stripe {
        Fill(memsize, input);
        memsize := memsize + |input|;
        return;
      }
      Absorb(input);
    }

    /** XXH64_intermediateDigest_endian, XXH32_intermediateDigest_endian */
    method Digest() returns (h: H)
      requires Valid()
      ensures h == alg.Hash(fed)
    {
      if totalLen >= alg.stripe {
        h := alg.converge(acc);
      } else {
        h := alg.short;
      }
      h := alg.addLength(h, totalLen);
      h := alg.Finish(h, memory[..memsize]);
      h := alg.avalanche(h);
    }
  }

  function Concat<T>(chunks: seq<seq<T>>): seq<T> {
    if chunks == [] then [] else Concat(chunks[..|chunks| - 1]) + chunks[|chunks| - 1]
  }

  /** Reset, update with every chunk, digest: the result is the hash of the chunks put together,
      wherever the cuts are. */
  method HashChunks<Acc, H>(st: Stream<Acc, H>, chunks: seq<seq<byte>>) returns (h: H)
    requires st.Valid() && forall i :: 0 <= i < |chunks| ==> |chunks[i]| + st.alg.stripe < 0x8000_0000
    modifies st, st.memory
    ensures h == st.alg.Hash(Concat(chunks))
  {
    st.Reset();
    var i := 0;
    while i < |chunks|
      invariant i <= |chunks| && st.Valid() && st.fed == Concat(chunks[..i])
    {
      assert chunks[..i + 1][..i] == chunks[..i];
      st.Update(chunks[i]);
      i := i + 1;
    }
    assert chunks[..i] == chunks;
    h := st.Digest();
  }
}
