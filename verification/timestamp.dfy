/**
 * The time-based layouts of src/uuid/uuid.c: the 60-bit count of 100 ns
 * ticks since the UUID epoch, written into bytes 0-7 either in the
 * version-1 order of section 4.1.2 of RFC 4122 (time_low, time_mid,
 * time_hi) or in the sortable version-6 order later standardised in
 * section 5.6 of RFC 9562 (most significant bits first); and the
 * per-tick counter that keeps timestamps apart within one clock tick.
 */
module Timestamp {
  import opened Bits
  import opened ByteOrder
  import opened Layout
  import opened Codec

  const TWO_POW_32: nat := 0x1_0000_0000
  const TWO_POW_48: nat := 0x1_0000_0000_0000
  /** A UUID carries the low 60 bits of the timestamp. */
  const TWO_POW_60: nat := 0x1000_0000_0000_0000

  /** `tsb`: the timestamp's eight bytes as a little-endian host stores the `uint64_t`. */
  function TsBytes(ts: uint64): (b: seq<uint8>)
    ensures |b| == 8
  {
    LeBytes(ts, 8)
  }

  /** Version-1 order: `_uuid1_ts_writer1`'s byte moves over the template, then version 1. */
  function V1Stamp(tmpl: seq<uint8>, ts: uint64): (u: seq<uint8>)
    requires |tmpl| == UUID_LENGTH_BINARY
    ensures |u| == UUID_LENGTH_BINARY
  {
    var b := TsBytes(ts);
    WithVersion([b[3], b[2], b[1], b[0], b[5], b[4], b[7], b[6]] + tmpl[8..], 1)
  }

  /** One byte of the version-6 time fields: the low nibble of `hi` over the high nibble of `lo`. */
  function V6Byte(hi: uint8, lo: uint8): uint8
  {
    (hi % 16) * 16 + lo / 16
  }

  /** Version-6 order: `_uuid1_ts_writer6`'s bytes over the template, then version 6. */
  function V6Stamp(tmpl: seq<uint8>, ts: uint64): (u: seq<uint8>)
    requires |tmpl| == UUID_LENGTH_BINARY
    ensures |u| == UUID_LENGTH_BINARY
  {
    var b := TsBytes(ts);
    WithVersion([V6Byte(b[7], b[6]), V6Byte(b[6], b[5]), V6Byte(b[5], b[4]),
                 V6Byte(b[4], b[3]), V6Byte(b[3], b[2]), V6Byte(b[2], b[1]),
                 b[1] % 16, b[0]] + tmpl[8..], 6)
  }

  /** The timestamp a version-1 UUID carries, reassembled from its fields (section 4.1.4 of RFC 4122). */
  function V1Timestamp(u: seq<uint8>): nat
    requires |u| == UUID_LENGTH_BINARY
  {
    (TimeHiAndVersion(u) % 0x1000) * TWO_POW_48 + TimeMid(u) * TWO_POW_32 + TimeLow(u)
  }

  /** The timestamp a version-6 UUID carries: 48 bits in bytes 0-5, then 4 and 8 more in bytes 6-7. */
  function V6Timestamp(u: seq<uint8>): nat
    requires |u| == UUID_LENGTH_BINARY
  {
    BeValue(u[..6]) * 0x1000 + (u[6] % 16) as int * 0x100 + u[7]
  }

  /** The part of a time-based UUID that comes from the template: the clock sequence and node. */
  predicate KeepsTemplate(u: seq<uint8>, tmpl: seq<uint8>)
    requires |u| == UUID_LENGTH_BINARY && |tmpl| == UUID_LENGTH_BINARY
  {
    u[OFFSET_CLOCK_SEQ_HI_AND_RESERVED] == 0x80 + tmpl[OFFSET_CLOCK_SEQ_HI_AND_RESERVED] % 64
    && u[OFFSET_CLOCK_SEQ_LOW..] == tmpl[OFFSET_CLOCK_SEQ_LOW..]
  }

  /**
   * The version-1 fields hold the timestamp in network order: time_low is
   * its low 32 bits, time_mid the next 16, and time_hi_and_version the
   * next 12 under version 1.
   */
  lemma V1StampFields(tmpl: seq<uint8>, ts: uint64)
    requires |tmpl| == UUID_LENGTH_BINARY
    ensures var u := V1Stamp(tmpl, ts);
      && TimeLow(u) == ts % TWO_POW_32
      && TimeMid(u) == ts / TWO_POW_32 % 0x1_0000
      && TimeHiAndVersion(u) == 0x1000 + ts / TWO_POW_48 % 0x1000
      && Version(u) == 1 && Variant(u) == 2
      && KeepsTemplate(u, tmpl)
  {
    var u := V1Stamp(tmpl, ts);
    var b := TsBytes(ts);
    V1Bytes(tmpl, ts);
    TsWords(ts);
    assert TimeLow(u) == ts % TWO_POW_32 by {
      BeValue4(u[0..4]);
    }
    assert TimeMid(u) == ts / TWO_POW_32 % 0x1_0000 by {
      BeValue2(u[4..6]);
    }
    assert TimeHiAndVersion(u) == 0x1000 + ts / TWO_POW_48 % 0x1000 by {
      BeValue2(u[6..8]);
    }
  }

  /** Where `_uuid1_ts_writer1` puts each byte of the timestamp. */
  lemma V1Bytes(tmpl: seq<uint8>, ts: uint64)
    requires |tmpl| == UUID_LENGTH_BINARY
    ensures var u, b := V1Stamp(tmpl, ts), TsBytes(ts);
      && u[0] == b[3] && u[1] == b[2] && u[2] == b[1] && u[3] == b[0]
      && u[4] == b[5] && u[5] == b[4] && u[6] == 0x10 + b[7] % 16 && u[7] == b[6]
      && Version(u) == 1 && Variant(u) == 2 && KeepsTemplate(u, tmpl)
  {
    var u, b := V1Stamp(tmpl, ts), TsBytes(ts);
    var w := [b[3], b[2], b[1], b[0], b[5], b[4], b[7], b[6]] + tmpl[8..];
    assert u[..6] == w[..6];
    assert u[OFFSET_CLOCK_SEQ_LOW..] == tmpl[OFFSET_CLOCK_SEQ_LOW..];
  }

  /** The timestamp's words, read from the bytes a little-endian host stores. */
  lemma TsWords(ts: uint64)
    ensures var b := TsBytes(ts);
      && ts % TWO_POW_32 == b[0] as int + 0x100 * b[1] as int + 0x1_0000 * b[2] as int + 0x100_0000 * b[3] as int
      && ts / TWO_POW_32 % 0x1_0000 == b[4] as int + 0x100 * b[5] as int
      && ts / TWO_POW_48 == b[6] as int + 0x100 * b[7] as int
  {
    var b := TsBytes(ts);
    var low := b[0] as int + 0x100 * b[1] as int + 0x1_0000 * b[2] as int + 0x100_0000 * b[3] as int;
    var mid := b[4] as int + 0x100 * b[5] as int;
    var top := b[6] as int + 0x100 * b[7] as int;
    LeBytes8(ts);
    assert ts == low + TWO_POW_32 * (mid + 0x1_0000 * top);
    DivModWord(ts, low, mid + 0x1_0000 * top);
    DivModHalf(ts / TWO_POW_32, mid, top);
    assert ts == (low + TWO_POW_32 * mid) + TWO_POW_48 * top;
  }

  lemma DivModWord(x: int, low: int, high: int)
    requires 0 <= low < TWO_POW_32 && 0 <= high && x == low + TWO_POW_32 * high
    ensures x % TWO_POW_32 == low && x / TWO_POW_32 == high
  {
  }

  lemma DivModHalf(x: int, low: int, high: int)
    requires 0 <= low < 0x1_0000 && 0 <= high && x == low + 0x1_0000 * high
    ensures x % 0x1_0000 == low && x / 0x1_0000 == high
  {
  }

  /** A version-1 UUID gives back the low 60 bits of the timestamp it was made from. */
  lemma V1TimestampRoundTrip(tmpl: seq<uint8>, ts: uint64)
    requires |tmpl| == UUID_LENGTH_BINARY
    ensures V1Timestamp(V1Stamp(tmpl, ts)) == ts % TWO_POW_60
  {
    V1StampFields(tmpl, ts);
    var lo32, mid, hi := ts % TWO_POW_32, ts / TWO_POW_32 % 0x1_0000, ts / TWO_POW_48 % 0x1000;
    assert ts / TWO_POW_32 == mid + 0x1_0000 * (ts / TWO_POW_48);
    assert ts / TWO_POW_48 == hi + 0x1000 * (ts / TWO_POW_60);
    assert ts == lo32 + TWO_POW_32 * mid + TWO_POW_48 * hi + TWO_POW_60 * (ts / TWO_POW_60);
  }

  /**
   * The version-6 bytes hold the low 60 bits of the timestamp most
   * significant first: bits 59-12 in bytes 0-5, bits 11-8 under version 6
   * in byte 6, bits 7-0 in byte 7.
   */
  lemma V6StampFields(tmpl: seq<uint8>, ts: uint64)
    requires |tmpl| == UUID_LENGTH_BINARY
    ensures var u := V6Stamp(tmpl, ts);
      && V6Timestamp(u) == ts % TWO_POW_60
      && Version(u) == 6 && Variant(u) == 2
      && KeepsTemplate(u, tmpl)
  {
    var u := V6Stamp(tmpl, ts);
    var b := TsBytes(ts);
    var w := [V6Byte(b[7], b[6]), V6Byte(b[6], b[5]), V6Byte(b[5], b[4]),
              V6Byte(b[4], b[3]), V6Byte(b[3], b[2]), V6Byte(b[2], b[1]),
              b[1] % 16, b[0]] + tmpl[8..];
    assert u[..6] == w[..6];
    assert u[6] % 16 == b[1] % 16;
    assert u[7] == b[0];
    V6TimeBits(ts, u);
    assert u[OFFSET_CLOCK_SEQ_LOW..] == tmpl[OFFSET_CLOCK_SEQ_LOW..];
  }

  /** The arithmetic of `V6StampFields`: the nibble-shifted bytes of `ts` reassemble its low 60 bits. */
  lemma V6TimeBits(ts: uint64, u: seq<uint8>)
    requires |u| == UUID_LENGTH_BINARY
    requires var b := TsBytes(ts);
      && u[..6] == [V6Byte(b[7], b[6]), V6Byte(b[6], b[5]), V6Byte(b[5], b[4]),
                    V6Byte(b[4], b[3]), V6Byte(b[3], b[2]), V6Byte(b[2], b[1])]
      && u[6] % 16 == b[1] % 16 && u[7] == b[0]
    ensures V6Timestamp(u) == ts % TWO_POW_60
  {
    var b := TsBytes(ts);
    LeBytes8(ts);
    BeValue6(u[..6]);
    var t := ts - TWO_POW_60 * (b[7] / 16);
    NibbleSplit(b[0]);
    NibbleSplit(b[1]);
    NibbleSplit(b[2]);
    NibbleSplit(b[3]);
    NibbleSplit(b[4]);
    NibbleSplit(b[5]);
    NibbleSplit(b[6]);
    NibbleSplit(b[7]);
    V6Sum(b[0] / 16, b[0] % 16, b[1] / 16, b[1] % 16, b[2] / 16, b[2] % 16, b[3] / 16, b[3] % 16,
          b[4] / 16, b[4] % 16, b[5] / 16, b[5] % 16, b[6] / 16, b[6] % 16, b[7] / 16, b[7] % 16);
    DivMod60(ts, t, b[7] / 16);
  }

  lemma NibbleSplit(x: uint8)
    ensures x == 16 * (x / 16) + x % 16 && x / 16 < 16
  {
  }

  /** Linear identity behind the version-6 layout, over the sixteen nibbles of the timestamp. */
  lemma V6Sum(h0: int, l0: int, h1: int, l1: int, h2: int, l2: int, h3: int, l3: int,
              h4: int, l4: int, h5: int, l5: int, h6: int, l6: int, h7: int, l7: int)
    requires 0 <= l0 < 16 && 0 <= l1 < 16 && 0 <= l2 < 16 && 0 <= l3 < 16
    requires 0 <= l4 < 16 && 0 <= l5 < 16 && 0 <= l6 < 16 && 0 <= l7 < 16
    requires 0 <= h0 < 16 && 0 <= h1 < 16 && 0 <= h2 < 16 && 0 <= h3 < 16
    requires 0 <= h4 < 16 && 0 <= h5 < 16 && 0 <= h6 < 16 && 0 <= h7 < 16
    ensures var t := (16 * h0 + l0) + 0x100 * (16 * h1 + l1) + 0x1_0000 * (16 * h2 + l2)
                     + 0x100_0000 * (16 * h3 + l3) + 0x1_0000_0000 * (16 * h4 + l4)
                     + 0x100_0000_0000 * (16 * h5 + l5) + 0x1_0000_0000_0000 * (16 * h6 + l6)
                     + 0x100_0000_0000_0000 * l7;
      && 0 <= t < TWO_POW_60
      && t == ((16 * l7 + h6) * 0x100_0000_0000 + (16 * l6 + h5) * 0x1_0000_0000
               + (16 * l5 + h4) * 0x100_0000 + (16 * l4 + h3) * 0x1_0000
               + (16 * l3 + h2) * 0x100 + (16 * l2 + h1)) * 0x1000
              + l1 * 0x100 + (16 * h0 + l0)
  {
  }

  lemma DivMod60(x: int, low: int, high: int)
    requires 0 <= low < TWO_POW_60 && 0 <= high && x == low + TWO_POW_60 * high
    ensures x % TWO_POW_60 == low
  {
  }

  /**
   * Version-6 UUIDs from one template sort chronologically as byte
   * strings: one precedes another exactly when its 60-bit timestamp is
   * smaller.
   */
  lemma V6SortsChronologically(tmpl: seq<uint8>, ts1: uint64, ts2: uint64)
    requires |tmpl| == UUID_LENGTH_BINARY
    ensures LexLess(V6Stamp(tmpl, ts1), V6Stamp(tmpl, ts2)) <==> ts1 % TWO_POW_60 < ts2 % TWO_POW_60
  {
    var u1, u2 := V6Stamp(tmpl, ts1), V6Stamp(tmpl, ts2);
    V6StampFields(tmpl, ts1);
    V6StampFields(tmpl, ts2);
    assert u1[8..] == u2[8..] by {
      assert u1[8..] == [u1[8]] + u1[9..];
      assert u2[8..] == [u2[8]] + u2[9..];
    }
    SharedTailLex(u1, u2, 8);
    LexLessIffBeValue(u1[..8], u2[..8]);
    V6KeyOrder(u1);
    V6KeyOrder(u2);
    KeyMonotone(BeValue(u1[..6]), (u1[6] % 16) as int * 0x100 + u1[7],
                BeValue(u2[..6]), (u2[6] % 16) as int * 0x100 + u2[7]);
  }

  /** Strings that share their tail compare as their heads do. */
  lemma SharedTailLex(u1: seq<uint8>, u2: seq<uint8>, k: nat)
    requires |u1| == |u2| && k <= |u1| && u1[k..] == u2[k..]
    ensures LexLess(u1, u2) <==> LexLess(u1[..k], u2[..k])
  {
    assert u1 == u1[..k] + u1[k..];
    assert u2 == u2[..k] + u2[k..];
    LexLessAppend(u1[..k], u1[k..], u2[..k], u2[k..]);
    LexLessIrreflexive(u1[k..]);
  }

  /** Spreading the low twelve bits out by four more keeps the order. */
  lemma KeyMonotone(a1: nat, r1: int, a2: nat, r2: int)
    requires 0 <= r1 < 0x1000 && 0 <= r2 < 0x1000
    ensures a1 * 0x1000 + r1 < a2 * 0x1000 + r2 <==> a1 * 0x1_0000 + 0x6000 + r1 < a2 * 0x1_0000 + 0x6000 + r2
  {
    if a1 < a2 {
      assert a1 * 0x1000 + r1 < (a1 + 1) * 0x1000 <= a2 * 0x1000;
      assert a1 * 0x1_0000 + r1 < (a1 + 1) * 0x1_0000 <= a2 * 0x1_0000;
    } else if a2 < a1 {
      assert a2 * 0x1000 + r2 < (a2 + 1) * 0x1000 <= a1 * 0x1000;
      assert a2 * 0x1_0000 + r2 < (a2 + 1) * 0x1_0000 <= a1 * 0x1_0000;
    }
  }

  /** The first eight bytes of a version-6 UUID, as a number, are its timestamp spread out around the version. */
  lemma V6KeyOrder(u: seq<uint8>)
    requires |u| == UUID_LENGTH_BINARY && Version(u) == 6
    ensures var a := BeValue(u[..6]);
      var r := (u[6] % 16) as int * 0x100 + u[7];
      && V6Timestamp(u) == a * 0x1000 + r
      && BeValue(u[..8]) == a * 0x1_0000 + 0x6000 + r
      && 0 <= r < 0x1000
  {
    BeValue8(u[..8]);
    assert u[..8][..6] == u[..6];
  }
}
