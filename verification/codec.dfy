/**
 * The in-place stamps every generator ends with: clearing a container,
 * and writing the variant (section 4.1.1 of RFC 4122) and the version
 * (section 4.1.3 of RFC 4122) over bytes 8 and 6.
 */
module Codec {
  import opened Bits
  import opened Layout

  /** The nil UUID: all sixteen bytes zero. */
  function Nil(): (u: seq<uint8>)
    ensures |u| == UUID_LENGTH_BINARY
  {
    seq(UUID_LENGTH_BINARY, _ => 0)
  }

  /** `u` and `w` agree on the fourteen bytes a version stamp does not touch. */
  predicate AgreeOutsideStamp(u: seq<uint8>, w: seq<uint8>)
    requires |u| == UUID_LENGTH_BINARY && |w| == UUID_LENGTH_BINARY
  {
    forall i :: 0 <= i < UUID_LENGTH_BINARY ==>
      i == OFFSET_TIME_HI_AND_VERSION || i == OFFSET_CLOCK_SEQ_HI_AND_RESERVED || u[i] == w[i]
  }

  /**
   * Reference definition of a stamped UUID: the RFC 4122 variant `10`
   * over the top two bits of byte 8 and `version` over the top four bits
   * of byte 6; every other bit of `u` kept.
   */
  function WithVersion(u: seq<uint8>, version: nat): (r: seq<uint8>)
    requires |u| == UUID_LENGTH_BINARY && version < 16
    ensures |r| == UUID_LENGTH_BINARY
    ensures Version(r) == version && Variant(r) == 2
    ensures r[OFFSET_TIME_HI_AND_VERSION] % 16 == u[OFFSET_TIME_HI_AND_VERSION] % 16
    ensures r[OFFSET_CLOCK_SEQ_HI_AND_RESERVED] % 64 == u[OFFSET_CLOCK_SEQ_HI_AND_RESERVED] % 64
    ensures AgreeOutsideStamp(r, u)
  {
    u[OFFSET_TIME_HI_AND_VERSION := version * 16 + u[OFFSET_TIME_HI_AND_VERSION] % 16]
     [OFFSET_CLOCK_SEQ_HI_AND_RESERVED := 0x80 + u[OFFSET_CLOCK_SEQ_HI_AND_RESERVED] % 64]
  }

  /** Stamping is idempotent: a second stamp with the same version changes nothing. */
  lemma WithVersionIdempotent(u: seq<uint8>, version: nat)
    requires |u| == UUID_LENGTH_BINARY && version < 16
    ensures WithVersion(WithVersion(u, version), version) == WithVersion(u, version)
  {
  }

  /** A second stamp decides the version alone: the first one leaves no trace. */
  lemma WithVersionOverrides(u: seq<uint8>, v1: nat, v2: nat)
    requires |u| == UUID_LENGTH_BINARY && v1 < 16 && v2 < 16
    ensures WithVersion(WithVersion(u, v1), v2) == WithVersion(u, v2)
  {
  }

  /** A stamp is determined by what it keeps: two UUIDs stamp alike iff they agree outside the stamped bits. */
  lemma WithVersionKeeps(u: seq<uint8>, w: seq<uint8>, version: nat)
    requires |u| == UUID_LENGTH_BINARY && |w| == UUID_LENGTH_BINARY && version < 16
    ensures WithVersion(u, version) == WithVersion(w, version) <==>
              AgreeOutsideStamp(u, w)
              && u[OFFSET_TIME_HI_AND_VERSION] % 16 == w[OFFSET_TIME_HI_AND_VERSION] % 16
              && u[OFFSET_CLOCK_SEQ_HI_AND_RESERVED] % 64 == w[OFFSET_CLOCK_SEQ_HI_AND_RESERVED] % 64
  {
    var ru, rw := WithVersion(u, version), WithVersion(w, version);
    if ru == rw {
      forall i | 0 <= i < UUID_LENGTH_BINARY && i != OFFSET_TIME_HI_AND_VERSION
        && i != OFFSET_CLOCK_SEQ_HI_AND_RESERVED
        ensures u[i] == w[i]
      {
        assert ru[i] == rw[i];
      }
    }
  }

  /** `uuid_clear`: zero all sixteen bytes of the container. */
  method Clear(out: array<uint8>)
    requires out.Length == UUID_LENGTH_BINARY
    modifies out
    ensures out[..] == Nil()
  {
    forall i | 0 <= i < out.Length {
      out[i] := 0;
    }
  }

  /**
   * `_uuid_setversion`: the four compound assignments on bytes 8 and 6,
   * with `verM` the version already shifted into the high nibble (every
   * caller passes `v << 4`). C's `~0xC0` and `~0xF0` are `int`s whose low
   * byte is all that survives the and with a byte.
   */
  method StampVersion(out: array<uint8>, verM: uint8)
    requires out.Length == UUID_LENGTH_BINARY && verM % 16 == 0
    modifies out
    ensures out[..] == WithVersion(old(out[..]), verM / 16)
  {
    ghost var u := out[..];
    ghost var b8: uint8, b6: uint8 := out[8], out[6];
    assert BitAnd(b8, Complement8(0xC0)) == b8 % 64 by {
      AndMask63(b8);
    }
    out[8] := BitAnd(out[8], Complement8(0xC0));
    assert BitOr(out[8], 0x80) == 0x80 + b8 % 64 by {
      OrTopBit(b8 % 64);
    }
    out[8] := BitOr(out[8], 0x80);
    assert BitAnd(b6, Complement8(0xF0)) == b6 % 16 by {
      AndMask15(b6);
    }
    out[6] := BitAnd(out[6], Complement8(0xF0));
    assert BitOr(out[6], verM) == verM + b6 % 16 by {
      OrNibble(verM / 16, b6 % 16);
      BitOrCommutes(b6 % 16, verM);
    }
    out[6] := BitOr(out[6], verM);
    assert out[..] == WithVersion(u, verM / 16);
  }
}
