/**
 * The per-tick counter of `_uuid1` (src/uuid/uuid.c): the pair
 * `uuid1_state` of the last raw timestamp seen and the number of UUIDs
 * already made from it, which is added to the raw timestamp so that
 * UUIDs made within one clock tick still carry distinct times.
 */
module TickCounter {
  import opened Bits


  /** `uuid1_state`: `ts_last` and the 16-bit `uuids_this_tick`. */
  datatype Counter = Counter(tsLast: uint64, thisTick: uint16)

  /** The state before the first time-based UUID: both fields zero. */
  const INITIAL: Counter := Counter(0, 0)

  /** One step of the counter: its new state and the timestamp the UUID gets. */
  datatype Step = Step(next: Counter, ts: uint64)

  /**
   * The counter's update for a raw timestamp: a repeat of `ts_last`
   * bumps the 16-bit count (wrapping), anything else restarts it at zero
   * under the new `ts_last`; the count is then added to the raw timestamp
   * in 64-bit arithmetic.
   */
  function Tick(c: Counter, raw: uint64): Step
  {
    var next := if raw == c.tsLast then c.(thisTick := (c.thisTick + 1) % TWO_POW_16)
                else Counter(raw, 0);
    Step(next, (raw + next.thisTick) % TWO_POW_64)
  }

  /** The timestamp the most recent step handed out, recovered from the counter alone. */
  function Effective(c: Counter): uint64
  {
    (c.tsLast + c.thisTick) % TWO_POW_64
  }

  /** The counter always remembers the raw timestamp and the timestamp it just handed out. */
  lemma TickRecords(c: Counter, raw: uint64)
    ensures Tick(c, raw).next.tsLast == raw
    ensures Tick(c, raw).ts == Effective(Tick(c, raw).next)
  {
  }

  /** A raw timestamp that differs from `ts_last` is used as it is, and restarts the count. */
  lemma TickNewTime(c: Counter, raw: uint64)
    requires raw != c.tsLast
    ensures Tick(c, raw).ts == raw && Tick(c, raw).next == Counter(raw, 0)
  {
  }

  /** A repeated raw timestamp yields exactly one more than the previous UUID's timestamp, until the count or the sum wraps. */
  lemma TickSameTime(c: Counter, raw: uint64)
    requires raw == c.tsLast
    requires c.thisTick + 1 < TWO_POW_16 && c.tsLast + c.thisTick + 1 < TWO_POW_64
    ensures Tick(c, raw).ts == Effective(c) + 1
  {
  }

  /** The counter after `k` UUIDs made within one raw timestamp. */
  function Burst(c: Counter, raw: uint64, k: nat): Counter
  {
    if k == 0 then c else Tick(Burst(c, raw, k - 1), raw).next
  }

  /** The timestamp of the `k`-th UUID (from 1) of a burst. */
  function BurstTs(c: Counter, raw: uint64, k: nat): uint64
    requires k >= 1
  {
    Tick(Burst(c, raw, k - 1), raw).ts
  }

  /** After `k >= 1` UUIDs from a fresh raw timestamp the count is `k - 1`, modulo 2^16. */
  lemma {:induction false} BurstCount(c: Counter, raw: uint64, k: nat)
    requires raw != c.tsLast && k >= 1
    ensures Burst(c, raw, k) == Counter(raw, (k - 1) % TWO_POW_16)
  {
    if k > 1 {
      BurstCount(c, raw, k - 1);
    }
  }

  /** The `k`-th UUID of a burst from a fresh raw timestamp carries `raw + (k - 1) mod 2^16`. */
  lemma {:induction false} BurstTsClosedForm(c: Counter, raw: uint64, k: nat)
    requires raw != c.tsLast && k >= 1
    ensures BurstTs(c, raw, k) == (raw + (k - 1) % TWO_POW_16) % TWO_POW_64
  {
    BurstCount(c, raw, k);
    assert Tick(Burst(c, raw, k - 1), raw).next == Burst(c, raw, k);
  }

  /** Within one tick the first 2^16 UUIDs get strictly increasing timestamps. */
  lemma BurstIncreasing(c: Counter, raw: uint64, j: nat, k: nat)
    requires raw != c.tsLast && 1 <= j < k <= TWO_POW_16
    requires raw + TWO_POW_16 <= TWO_POW_64
    ensures BurstTs(c, raw, j) < BurstTs(c, raw, k)
  {
    BurstTsClosedForm(c, raw, j);
    BurstTsClosedForm(c, raw, k);
    SmallMod(j - 1, TWO_POW_16);
    SmallMod(k - 1, TWO_POW_16);
    SmallMod(raw + j - 1, TWO_POW_64);
    SmallMod(raw + k - 1, TWO_POW_64);
  }

  lemma SmallMod(x: nat, m: nat)
    requires x < m
    ensures x % m == x
  {
  }

  /** The 16-bit count wraps: the UUID 2^16 places later in the same tick repeats a timestamp. */
  lemma BurstWraps(c: Counter, raw: uint64, k: nat)
    requires raw != c.tsLast && k >= 1
    ensures BurstTs(c, raw, k + TWO_POW_16) == BurstTs(c, raw, k)
  {
    BurstTsClosedForm(c, raw, k);
    BurstTsClosedForm(c, raw, k + TWO_POW_16);
  }
}
