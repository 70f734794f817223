/**
 * The two hooks the application supplies at link time (src/uuid/uuid.h):
 * `rand_byte`, one byte of entropy per call, and `id_read`, the chip's
 * unique identifier. Neither is part of the library; each is modelled by
 * what its documentation promises, with the platform's actual bytes as
 * parameters.
 */
module Hooks {
  import opened Bits

  /**
   * `rand_byte`: the entropy source, seen as the stream of bytes it is
   * going to return and the number of bytes drawn so far.
   */
  class Entropy {
    const stream: nat -> uint8
    var drawn: nat

    constructor(stream: nat -> uint8)
      ensures this.stream == stream && drawn == 0
    {
      this.stream := stream;
      drawn := 0;
    }

    /** Return exactly one byte of entropy, the next of the stream. */
    method Next() returns (b: uint8)
      modifies this
      ensures b == stream(old(drawn)) && drawn == old(drawn) + 1
    {
      b := stream(drawn);
      drawn := drawn + 1;
    }
  }

  /** `n` successive bytes of the stream, from position `first`. */
  function Draws(stream: nat -> uint8, first: nat, n: nat): (s: seq<uint8>)
    ensures |s| == n && forall i :: 0 <= i < n ==> s[i] == stream(first + i)
  {
    seq(n, i requires 0 <= i => stream(first + i))
  }

  function Min(a: nat, b: nat): nat
  {
    if a <= b then a else b
  }

  /**
   * `id_read(maxlen, buffer)` on a platform whose identifier is `id`: it
   * writes at most `maxlen` bytes of the identifier at `buffer[at..]` and
   * returns how many it wrote.
   */
  method IdRead(maxlen: uint8, buffer: array<uint8>, at: nat, id: seq<uint8>) returns (n: uint8)
    requires at + maxlen as int <= buffer.Length
    modifies buffer
    ensures n <= maxlen && n as int == Min(maxlen as nat, |id|)
    ensures buffer[..] == old(buffer[..at]) + id[..n] + old(buffer[at + n as int..])
  {
    n := if maxlen as int <= |id| then maxlen else |id| as uint8;
    forall i | 0 <= i < n as int {
      buffer[at + i] := id[i];
    }
    assert buffer[..] == old(buffer[..at]) + id[..n] + old(buffer[at + n as int..]);
  }
}
