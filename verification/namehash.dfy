/**
 * The name-based construction of section 4.3 of RFC 4122 as `uuid3` and
 * `uuid5` stream it: the namespace UUID and the name are one message,
 * hashed without ever being copied whole. The first 64-byte block is
 * assembled in the static `hashstage` buffer (16 namespace bytes and up
 * to 48 name bytes); the rest of the name is handed to the hash straight
 * from the caller's buffer, 64 bytes at a time, the last piece as the
 * final block.
 */
module NameHash {
  import opened Bits
  import opened BlockHash

  /** Bytes of the UUID namespace that head the message. */
  const NAMESPACE_BYTES: nat := 16

  /**
   * The calls that hash message `m` in 64-byte blocks: every block but
   * the last is full, and the last (1 to 64 bytes) is the final block.
   */
  function Blocks(m: seq<uint8>): seq<HashCall>
    decreases |m|
  {
    if |m| <= 64 then [LastBlock(m, |m| * 8)]
    else [NextBlock(m[..64])] + Blocks(m[64..])
  }

  /** The calls of `Blocks(m)` deliver exactly `m`. */
  lemma {:induction false} BlocksDeliver(m: seq<uint8>)
    ensures Delivered(Blocks(m)) == m
    decreases |m|
  {
    if |m| > 64 {
      BlocksDeliver(m[64..]);
      DeliveredAppend([NextBlock(m[..64])], Blocks(m[64..]));
      assert m == m[..64] + m[64..];
    }
  }

  /**
   * The stream discipline of a block-hash context: at least one call,
   * every call but the last a full 64-byte block, the last the final
   * block with 1 to 64 bytes whose bit length is eight times its byte count.
   */
  predicate WellStreamed(calls: seq<HashCall>)
  {
    && |calls| >= 1
    && (forall i :: 0 <= i < |calls| - 1 ==> calls[i].NextBlock? && |calls[i].block| == 64)
    && calls[|calls| - 1].LastBlock?
    && 1 <= |calls[|calls| - 1].block| <= 64
    && calls[|calls| - 1].bits == 8 * |calls[|calls| - 1].block|
  }

  /** A non-empty message is always streamed by the discipline, in `ceil(|m| / 64)` calls. */
  lemma {:induction false} BlocksWellStreamed(m: seq<uint8>)
    requires |m| >= 1
    ensures WellStreamed(Blocks(m))
    ensures |Blocks(m)| == (|m| + 63) / 64
    decreases |m|
  {
    if |m| > 64 {
      BlocksWellStreamed(m[64..]);
      var rest := Blocks(m[64..]);
      assert Blocks(m) == [NextBlock(m[..64])] + rest;
      forall i | 0 <= i < |Blocks(m)| - 1
        ensures Blocks(m)[i].NextBlock? && |Blocks(m)[i].block| == 64
      {
        if i > 0 {
          assert Blocks(m)[i] == rest[i - 1];
        }
      }
    }
  }

  /** With a `uint8_t` length, a name costs the hash at most five calls. */
  lemma CallsBounded(ns: seq<uint8>, name: seq<uint8>)
    requires |ns| == NAMESPACE_BYTES && |name| <= 255
    ensures |Blocks(ns + name)| <= 5
  {
    BlocksWellStreamed(ns + name);
  }

  /** A name of at most 48 bytes is hashed by a single final call of `(16 + len) * 8` bits. */
  lemma ShortNameOneCall(ns: seq<uint8>, name: seq<uint8>)
    requires |ns| == NAMESPACE_BYTES && |name| <= 64 - NAMESPACE_BYTES
    ensures Blocks(ns + name) == [LastBlock(ns + name, (NAMESPACE_BYTES + |name|) * 8)]
  {
  }

  /** How many name bytes the staging block takes: all of them, up to 48. */
  function Staged(len: nat): nat
  {
    if len <= 64 - NAMESPACE_BYTES then len else 64 - NAMESPACE_BYTES
  }

  /**
   * The shared body of `uuid3` and `uuid5` between the context's init and
   * its digest: stage the namespace and the head of the name, then hash
   * the message namespace ++ name[..len] block by block. `fits` is the
   * block-size constant the code sizes the staging block with and tests
   * the remaining length against, `step` the one it advances by; the
   * property needs both to be the context's block size.
   */
  method Absorb(h: Context, stage: array<uint8>, ns: seq<uint8>, name: seq<uint8>, len: uint8, fits: nat, step: nat)
    requires h.Valid() && h.calls == [] && !h.finished
    requires fits == h.blockBytes && step == h.blockBytes
    requires stage.Length == 64 && |ns| == NAMESPACE_BYTES && len as int <= |name|
    modifies h, stage
    ensures h.Valid() && h.finished
    ensures h.calls == Blocks(ns + name[..len])
    ensures h.absorbed == ns + name[..len]
    ensures stage[..NAMESPACE_BYTES + Staged(len)] == ns + name[..Staged(len)]
    ensures stage[NAMESPACE_BYTES + Staged(len)..] == old(stage[NAMESPACE_BYTES + Staged(len)..])
  {
    ghost var m := ns + name[..len];
    ghost var stage0 := stage[..];
    forall i | 0 <= i < NAMESPACE_BYTES {
      stage[i] := ns[i];
    }
    var t: uint8 := (fits - NAMESPACE_BYTES) as uint8;
    if len <= t {
      t := len;
    }
    forall i | 0 <= i < t {
      stage[NAMESPACE_BYTES + i] := name[i];
    }
    assert stage[..NAMESPACE_BYTES + t as int] == ns + name[..t];
    assert stage[NAMESPACE_BYTES + t as int..] == stage0[NAMESPACE_BYTES + t as int..];
    var p: nat := t as nat;
    var rem: uint8 := len - t;
    if rem == 0 {
      assert m == stage[..NAMESPACE_BYTES + t as int];
      h.Last(stage[..], (NAMESPACE_BYTES + t as int) * 8);
      BlocksDeliver(m);
    } else {
      assert stage[..] == m[..64];
      assert m[64..] == name[p..len];
      h.Next(stage[..]);
      while rem != 0
        invariant h.Valid() && 48 <= p <= len as int
        invariant rem != 0 ==> p + rem as int == len as int
        invariant rem != 0 ==> !h.finished && h.calls + Blocks(name[p..len]) == Blocks(m)
        invariant rem == 0 ==> h.finished && h.calls == Blocks(m)
        invariant stage[..NAMESPACE_BYTES + t as int] == ns + name[..t]
        invariant stage[NAMESPACE_BYTES + t as int..] == stage0[NAMESPACE_BYTES + t as int..]
        decreases rem
      {
        if rem as int <= fits {
          assert name[p..len] == name[p..][..rem];
          h.Last(name[p..], rem as int * 8);
          rem := 0;
        } else {
          assert name[p..len][..64] == name[p..p + 64];
          assert name[p..len][64..] == name[p + 64..len];
          h.Next(name[p..p + step]);
          p := p + step;
          rem := rem - step as uint8;
        }
      }
      BlocksDeliver(m);
    }
  }
}
