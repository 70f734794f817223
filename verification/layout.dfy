/**
 * The UUID container of src/uuid/uuid.h: a union of the RFC 4122 field
 * structure and sixteen bytes. The engine writes only through the byte
 * view, so a UUID is modelled as its sixteen bytes, and the fields as
 * offsets into them; numeric field values are read in network byte order
 * (section 4.1.2 of RFC 4122), whatever the host's own order.
 */
module Layout {
  import opened Bits
  import opened ByteOrder

  /** Length of the binary representation of a UUID in bytes. */
  const UUID_LENGTH_BINARY: nat := 16

  /** Length of the string representation, counting its terminating NUL. */
  const UUID_LENGTH_STRING: nat := 37

  /** 100 ns ticks from the UUID epoch (15 October 1582) to the Unix epoch (1 January 1970). */
  const UUID_EPOCH_OFFSET: uint64 := 0x01B2_1DD2_1381_4000

  // Byte offsets of the fields of the structure view.
  const OFFSET_TIME_LOW: nat := 0
  const OFFSET_TIME_MID: nat := 4
  const OFFSET_TIME_HI_AND_VERSION: nat := 6
  const OFFSET_CLOCK_SEQ_HI_AND_RESERVED: nat := 8
  const OFFSET_CLOCK_SEQ_LOW: nat := 9
  const OFFSET_NODE: nat := 10

  /** The structure view: each field as the bytes it occupies. */
  datatype Fields = Fields(
    timeLow: seq<uint8>,
    timeMid: seq<uint8>,
    timeHiAndVersion: seq<uint8>,
    clockSeqHiAndReserved: uint8,
    clockSeqLow: uint8,
    node: seq<uint8>)

  /** Every array field has its declared width: 4, 2, 2 and 6 bytes. */
  predicate WellSized(f: Fields)
  {
    |f.timeLow| == 4 && |f.timeMid| == 2 && |f.timeHiAndVersion| == 2 && |f.node| == 6
  }

  /** The union's byte view of a structure. */
  function FromFields(f: Fields): (u: seq<uint8>)
    requires WellSized(f)
    ensures |u| == UUID_LENGTH_BINARY
  {
    f.timeLow + f.timeMid + f.timeHiAndVersion + [f.clockSeqHiAndReserved, f.clockSeqLow] + f.node
  }

  /** The union's structure view of sixteen bytes. */
  function ToFields(u: seq<uint8>): (f: Fields)
    requires |u| == UUID_LENGTH_BINARY
    ensures WellSized(f)
    ensures FromFields(f) == u
  {
    Fields(u[OFFSET_TIME_LOW..OFFSET_TIME_MID],
           u[OFFSET_TIME_MID..OFFSET_TIME_HI_AND_VERSION],
           u[OFFSET_TIME_HI_AND_VERSION..OFFSET_CLOCK_SEQ_HI_AND_RESERVED],
           u[OFFSET_CLOCK_SEQ_HI_AND_RESERVED],
           u[OFFSET_CLOCK_SEQ_LOW],
           u[OFFSET_NODE..])
  }

  /** The two views describe the same sixteen bytes: no padding, no overlap. */
  lemma FieldsRoundTrip(f: Fields)
    requires WellSized(f)
    ensures ToFields(FromFields(f)) == f
  {
    var u := FromFields(f);
    assert u[0..4] == f.timeLow;
    assert u[4..6] == f.timeMid;
    assert u[6..8] == f.timeHiAndVersion;
    assert u[10..] == f.node;
  }

  // Numeric field values, in network byte order.

  function TimeLow(u: seq<uint8>): nat
    requires |u| == UUID_LENGTH_BINARY
  {
    BeValue(u[OFFSET_TIME_LOW..OFFSET_TIME_MID])
  }

  function TimeMid(u: seq<uint8>): nat
    requires |u| == UUID_LENGTH_BINARY
  {
    BeValue(u[OFFSET_TIME_MID..OFFSET_TIME_HI_AND_VERSION])
  }

  function TimeHiAndVersion(u: seq<uint8>): nat
    requires |u| == UUID_LENGTH_BINARY
  {
    BeValue(u[OFFSET_TIME_HI_AND_VERSION..OFFSET_CLOCK_SEQ_HI_AND_RESERVED])
  }

  /** The version number: the top four bits of `time_hi_and_version`. */
  function Version(u: seq<uint8>): nat
    requires |u| == UUID_LENGTH_BINARY
  {
    u[OFFSET_TIME_HI_AND_VERSION] / 16
  }

  /** The variant: the top two bits of `clock_seq_hi_and_reserved` (2 is binary `10`). */
  function Variant(u: seq<uint8>): nat
    requires |u| == UUID_LENGTH_BINARY
  {
    u[OFFSET_CLOCK_SEQ_HI_AND_RESERVED] / 64
  }

  // The epoch offset, recomputed from the Gregorian calendar.

  predicate IsLeapYear(y: int)
  {
    y % 4 == 0 && (y % 100 != 0 || y % 400 == 0)
  }

  function YearLength(y: int): nat
  {
    if IsLeapYear(y) then 366 else 365
  }

  /** Days in the whole years `first` .. `stop - 1`. */
  function DaysInYears(first: int, stop: int): nat
    decreases stop - first
  {
    if stop <= first then 0 else DaysInYears(first, stop - 1) + YearLength(stop - 1)
  }

  /** Leap years in 1 .. `y`. */
  function LeapsThrough(y: nat): int
  {
    y / 4 - y / 100 + y / 400
  }

  /** Days left in 1582 from 15 October on: the rest of October, then November and December. */
  const DAYS_LEFT_IN_1582: nat := (31 - 15 + 1) + 30 + 31

  /** 100 ns ticks in a day. */
  const TICKS_PER_DAY: nat := 86400 * 10_000_000

  lemma {:induction false} DaysInYearsClosedForm(first: nat, stop: nat)
    requires 1 <= first <= stop
    ensures DaysInYears(first, stop) == 365 * (stop - first) + LeapsThrough(stop - 1) - LeapsThrough(first - 1)
    decreases stop
  {
    if first < stop {
      DaysInYearsClosedForm(first, stop - 1);
      LeapStep(stop - 1);
    }
  }

  /** Year `y` adds one to the count of leap years exactly when it is one. */
  lemma LeapStep(y: nat)
    requires y >= 1
    ensures LeapsThrough(y) - LeapsThrough(y - 1) == (if IsLeapYear(y) then 1 else 0)
  {
    var by4, by100, by400 := y / 4 - (y - 1) / 4, y / 100 - (y - 1) / 100, y / 400 - (y - 1) / 400;
    assert by4 == (if y % 4 == 0 then 1 else 0) by {
      DivStep4(y);
    }
    assert by100 == (if y % 100 == 0 then 1 else 0) by {
      DivStep100(y);
    }
    assert by400 == (if y % 400 == 0 then 1 else 0) by {
      DivStep400(y);
    }
    DivisibilityChain(y);
  }

  /** Multiples of 400 are multiples of 100, which are multiples of 4. */
  lemma DivisibilityChain(y: nat)
    ensures y % 400 == 0 ==> y % 100 == 0
    ensures y % 100 == 0 ==> y % 4 == 0
  {
    if y % 400 == 0 {
      assert y == 100 * (4 * (y / 400));
    }
    if y % 100 == 0 {
      assert y == 4 * (25 * (y / 100));
    }
  }

  lemma DivStep4(y: nat)
    requires y >= 1
    ensures y / 4 - (y - 1) / 4 == (if y % 4 == 0 then 1 else 0)
  {
  }

  lemma DivStep100(y: nat)
    requires y >= 1
    ensures y / 100 - (y - 1) / 100 == (if y % 100 == 0 then 1 else 0)
  {
  }

  lemma DivStep400(y: nat)
    requires y >= 1
    ensures y / 400 - (y - 1) / 400 == (if y % 400 == 0 then 1 else 0)
  {
  }

  /** The offset is the number of 100 ns ticks between the two epochs. */
  lemma EpochOffsetIsCalendarDistance()
    ensures UUID_EPOCH_OFFSET == (DAYS_LEFT_IN_1582 + DaysInYears(1583, 1970)) * TICKS_PER_DAY
  {
    DaysInYearsClosedForm(1583, 1970);
  }
}
