/**
 * The block-hash interface the engine drives for versions 3 and 5: the
 * `md5_*` and `sha1_*` context functions, as an object that takes whole
 * 64-byte blocks, then one final block whose length is given in bits,
 * and then yields its digest. The compression functions themselves
 * (RFC 1321 and FIPS 180-4) are not part of this model: a context is
 * given its digest function when it is made, and the digest depends only
 * on the bytes the context has absorbed.
 */
module BlockHash {
  import opened Bits

  /** Block size of MD5 in bytes (512 bits). */
  const MD5_BLOCK_BYTES: nat := 64
  /** Block size of SHA-1 in bytes (512 bits). */
  const SHA1_BLOCK_BYTES: nat := 64
  /** Digest sizes: 128 bits for MD5, 160 bits for SHA-1. */
  const MD5_HASH_BYTES: nat := 16
  const SHA1_HASH_BYTES: nat := 20

  /** One call into a context: a full block, or the final block with its length in bits. */
  datatype HashCall = NextBlock(block: seq<uint8>) | LastBlock(block: seq<uint8>, bits: nat)

  /** The bytes a sequence of calls hands to the hash, in order. */
  function Delivered(calls: seq<HashCall>): (m: seq<uint8>)
  {
    if |calls| == 0 then [] else calls[0].block + Delivered(calls[1..])
  }

  lemma {:induction false} DeliveredAppend(a: seq<HashCall>, b: seq<HashCall>)
    ensures Delivered(a + b) == Delivered(a) + Delivered(b)
  {
    if |a| > 0 {
      assert (a + b)[1..] == a[1..] + b;
      DeliveredAppend(a[1..], b);
    } else {
      assert a + b == b;
    }
  }

  /** An `md5_ctx_t` or `sha1_ctx_t` together with the calls made on it since its init. */
  class Context {
    const blockBytes: nat
    const digestBytes: nat
    /** The hash function itself, as a function of the whole message. */
    const digestOf: seq<uint8> -> seq<uint8>
    /** The message so far. */
    var absorbed: seq<uint8>
    /** Whether the final block has been given. */
    var finished: bool
    ghost var calls: seq<HashCall>

    ghost predicate Valid()
      reads this
    {
      && blockBytes == 64
      && (forall m :: |digestOf(m)| == digestBytes)
      && absorbed == Delivered(calls)
      && (finished <==> |calls| > 0 && calls[|calls| - 1].LastBlock?)
    }

    constructor(blockBytes: nat, digestBytes: nat, digestOf: seq<uint8> -> seq<uint8>)
      requires blockBytes == 64
      requires forall m :: |digestOf(m)| == digestBytes
      ensures Valid() && this.digestOf == digestOf && this.digestBytes == digestBytes
      ensures calls == [] && !finished
    {
      this.blockBytes := blockBytes;
      this.digestBytes := digestBytes;
      this.digestOf := digestOf;
      absorbed := [];
      finished := false;
      calls := [];
    }

    /** `md5_init` / `sha1_init`: start a new message. */
    method Init()
      requires Valid()
      modifies this
      ensures Valid() && calls == [] && absorbed == [] && !finished
    {
      absorbed := [];
      finished := false;
      calls := [];
    }

    /** `md5_nextBlock` / `sha1_nextBlock`: absorb one full block. */
    method Next(block: seq<uint8>)
      requires Valid() && !finished && |block| == blockBytes
      modifies this
      ensures Valid() && !finished
      ensures calls == old(calls) + [NextBlock(block)]
      ensures absorbed == old(absorbed) + block
    {
      DeliveredAppend(calls, [NextBlock(block)]);
      assert Delivered([NextBlock(block)]) == block;
      absorbed := absorbed + block;
      calls := calls + [NextBlock(block)];
    }

    /** `md5_lastBlock` / `sha1_lastBlock`: absorb the final `bits / 8` bytes of `data` and close the message. */
    method Last(data: seq<uint8>, bits: nat)
      requires Valid() && !finished && bits % 8 == 0 && bits / 8 <= |data|
      modifies this
      ensures Valid() && finished
      ensures calls == old(calls) + [LastBlock(data[..bits / 8], bits)]
      ensures absorbed == old(absorbed) + data[..bits / 8]
    {
      var tail := data[..bits / 8];
      DeliveredAppend(calls, [LastBlock(tail, bits)]);
      assert Delivered([LastBlock(tail, bits)]) == tail;
      absorbed := absorbed + tail;
      calls := calls + [LastBlock(tail, bits)];
      finished := true;
    }

    /** `md5_ctx2hash` / `sha1_ctx2hash`: write the digest of the message to `dst`. */
    method WriteDigest(dst: array<uint8>)
      requires Valid() && finished && digestBytes <= dst.Length
      modifies dst
      ensures dst[..digestBytes] == digestOf(absorbed)
      ensures dst[digestBytes..] == old(dst[digestBytes..])
    {
      var d := digestOf(absorbed);
      forall i | 0 <= i < digestBytes {
        dst[i] := d[i];
      }
    }
  }
}
