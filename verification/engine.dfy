/**
 * The generator of src/uuid/uuid.c: the process-wide state (the version-1
 * template, the tick counter, the hash contexts and the staging buffers)
 * as one object, and one method per public generator. Every generator
 * writes the caller's 16-byte container in place and stamps its version
 * and the RFC 4122 variant as its last step.
 */
module Engine {
  import opened Bits
  import opened ByteOrder
  import opened Layout
  import opened Codec
  import opened Timestamp
  import opened TickCounter
  import opened BlockHash
  import opened NameHash
  import opened Hooks
  import opened UuidString

  /** Which `ts_writer` `_uuid1` is handed: `_uuid1_ts_writer1` or `_uuid1_ts_writer6`. */
  datatype Writer = Writer1 | Writer6

  /** The UUID a time-based generator makes from the template and the effective timestamp. */
  function TimeStamped(writer: Writer, tmpl: seq<uint8>, ts: uint64): (u: seq<uint8>)
    requires |tmpl| == UUID_LENGTH_BINARY
    ensures |u| == UUID_LENGTH_BINARY
  {
    match writer
    case Writer1 => V1Stamp(tmpl, ts)
    case Writer6 => V6Stamp(tmpl, ts)
  }

  /** The template after `_uuid1_template_init`: clock sequence from two draws (low byte first), node from the identifier. */
  function InitialTemplate(tmpl: seq<uint8>, id: seq<uint8>, first: uint8, second: uint8): (t: seq<uint8>)
    requires |tmpl| == UUID_LENGTH_BINARY
    ensures |t| == UUID_LENGTH_BINARY
  {
    var n := Min(6, |id|);
    tmpl[..OFFSET_CLOCK_SEQ_HI_AND_RESERVED] + [second, first] + id[..n] + tmpl[OFFSET_NODE + n..]
  }

  /** `(hi << 4) | ((lo & 0xF0) >> 4)` stored into a byte. */
  function ShiftedPair(hi: uint8, lo: uint8): uint8
  {
    BitOr(hi * 16, BitAnd(lo, 0xF0) / 16) % 0x100
  }

  /** The C expression of the version-6 loop is the nibble splice `V6Byte`. */
  lemma ShiftedPairIsV6Byte(hi: uint8, lo: uint8)
    ensures ShiftedPair(hi, lo) == V6Byte(hi, lo)
  {
    var low := lo / 16;
    assert BitAnd(lo, 0xF0) / 16 == low by {
      AndHighNibble(lo);
    }
    assert BitOr(hi * 16, low) == 16 * hi + low by {
      OrNibble(hi, low);
    }
    SpliceMod(hi, low);
  }

  /** Shifting a byte left by four and truncating keeps its low nibble. */
  lemma SpliceMod(hi: uint8, low: nat)
    requires low < 16
    ensures (16 * hi + low) % 0x100 == (hi % 16) * 16 + low
  {
    var q, r := hi / 16, hi % 16;
    assert 16 * hi + low == 0x100 * q + (16 * r + low);
  }

  /**
   * Version-6 UUIDs made within one clock tick, before the 16-bit count
   * wraps and while the timestamps stay within 60 bits, sort as byte
   * strings in the order they were made.
   */
  lemma V6BurstSorted(tmpl: seq<uint8>, c: Counter, raw: uint64, j: nat, k: nat)
    requires |tmpl| == UUID_LENGTH_BINARY
    requires raw != c.tsLast && 1 <= j < k <= TWO_POW_16
    requires raw + TWO_POW_16 <= TWO_POW_60
    ensures LexLess(V6Stamp(tmpl, BurstTs(c, raw, j)), V6Stamp(tmpl, BurstTs(c, raw, k)))
  {
    var tj, tk := BurstTs(c, raw, j), BurstTs(c, raw, k);
    BurstIncreasing(c, raw, j, k);
    BurstTsClosedForm(c, raw, k);
    SmallMod(k - 1, TWO_POW_16);
    SmallMod(raw + k - 1, TWO_POW_64);
    assert tj < tk < TWO_POW_60;
    SmallMod(tj, TWO_POW_60);
    SmallMod(tk, TWO_POW_60);
    V6SortsChronologically(tmpl, tj, tk);
  }

  /** `uuid_sprintf`: the text form and its NUL in the first 37 characters of `buf`. */
  method Sprintf(buf: array<char>, u: array<uint8>)
    requires buf.Length >= UUID_LENGTH_STRING && u.Length == UUID_LENGTH_BINARY
    modifies buf
    ensures buf[..TEXT_LENGTH] == Format(u[..])
    ensures buf[TEXT_LENGTH] == '\0'
    ensures buf[..UUID_LENGTH_STRING] == Format(u[..]) + ['\0']
    ensures buf[UUID_LENGTH_STRING..] == old(buf[UUID_LENGTH_STRING..])
  {
    Print(buf, u, ZeroPadded);
    assert buf[..UUID_LENGTH_STRING] == buf[..TEXT_LENGTH] + [buf[TEXT_LENGTH]];
  }

  /** The static state of src/uuid/uuid.c. */
  class Generator {
    /** `uuid1_template`: clock sequence in bytes 8-9 and node in bytes 10-15. */
    const template: array<uint8>
    /** `uuid1_state`. */
    var counter: Counter
    /** `hashstage`: the first block of a name-based message. */
    const hashstage: array<uint8>
    /** `md5ctx`, `sha1ctx` and the buffer `sha1hash` the SHA-1 digest lands in. */
    const md5: Context
    const sha1: Context
    const sha1hash: array<uint8>

    ghost predicate Valid()
      reads this, md5, sha1
    {
      && template.Length == UUID_LENGTH_BINARY
      && hashstage.Length == 64
      && sha1hash.Length == SHA1_HASH_BYTES
      && template != hashstage && template != sha1hash && hashstage != sha1hash
      && md5 != sha1
      && md5.Valid() && md5.digestBytes == MD5_HASH_BYTES
      && sha1.Valid() && sha1.digestBytes == SHA1_HASH_BYTES
    }

    /** Whether `out` is a caller's container, apart from the static buffers. */
    predicate Outside(out: array<uint8>)
    {
      out != template && out != hashstage && out != sha1hash
    }

    /** The statics as the program starts: zeroed, with the two hash functions given. */
    constructor(md5Of: seq<uint8> -> seq<uint8>, sha1Of: seq<uint8> -> seq<uint8>)
      requires forall m :: |md5Of(m)| == MD5_HASH_BYTES
      requires forall m :: |sha1Of(m)| == SHA1_HASH_BYTES
      ensures Valid() && fresh(template) && fresh(hashstage) && fresh(sha1hash)
      ensures template[..] == Nil() && counter == INITIAL
      ensures hashstage[..] == seq(64, _ => 0) && sha1hash[..] == seq(SHA1_HASH_BYTES, _ => 0)
      ensures md5.calls == [] && !md5.finished && sha1.calls == [] && !sha1.finished
      ensures md5.digestOf == md5Of && sha1.digestOf == sha1Of
    {
      template := new uint8[UUID_LENGTH_BINARY](_ => 0);
      hashstage := new uint8[64](_ => 0);
      sha1hash := new uint8[SHA1_HASH_BYTES](_ => 0);
      md5 := new Context(MD5_BLOCK_BYTES, MD5_HASH_BYTES, md5Of);
      sha1 := new Context(SHA1_BLOCK_BYTES, SHA1_HASH_BYTES, sha1Of);
      counter := INITIAL;
    }

    /**
     * `uuid_init`, which is `_uuid1_template_init`: six bytes of the
     * identifier into the node, the "multicast" or-ing of node[5], then
     * `clock_seq_low` and `clock_seq_hi_and_reserved` from two draws.
     */
    method Init(id: seq<uint8>, rng: Entropy)
      requires Valid()
      modifies template, rng
      ensures Valid()
      ensures rng.drawn == old(rng.drawn) + 2
      ensures template[..] == InitialTemplate(old(template[..]), id, rng.stream(old(rng.drawn)), rng.stream(old(rng.drawn) + 1))
    {
      var n := IdRead(6, template, OFFSET_NODE, id);
      ghost var afterId := template[..];
      var node5 := template[OFFSET_NODE + 5];
      OrOwnLowBit(node5);
      template[OFFSET_NODE + 5] := BitOr(node5, BitAnd(node5, 0x01));
      assert template[..] == afterId;
      var low := rng.Next();
      template[OFFSET_CLOCK_SEQ_LOW] := low;
      var high := rng.Next();
      template[OFFSET_CLOCK_SEQ_HI_AND_RESERVED] := high;
    }

    /**
     * `_uuid1`: copy the template, advance the counter by the raw
     * timestamp, and let the writer lay out the effective timestamp.
     */
    method Generate(out: array<uint8>, raw: uint64, writer: Writer)
      requires Valid() && out.Length == UUID_LENGTH_BINARY && Outside(out)
      modifies this, out
      ensures Valid()
      ensures counter == Tick(old(counter), raw).next
      ensures out[..] == TimeStamped(writer, template[..], Tick(old(counter), raw).ts)
    {
      ghost var step := Tick(counter, raw);
      forall i | 0 <= i < UUID_LENGTH_BINARY {
        out[i] := template[i];
      }
      assert out[..] == template[..];
      if raw == counter.tsLast {
        counter := counter.(thisTick := (counter.thisTick + 1) % TWO_POW_16);
      } else {
        counter := Counter(raw, 0);
      }
      var ts: uint64 := (raw + counter.thisTick) % TWO_POW_64;
      assert counter == step.next && ts == step.ts;
      match writer
      case Writer1 => WriteV1(out, ts);
      case Writer6 => WriteV6(out, ts);
    }

    /** `uuid1`. */
    method Uuid1(out: array<uint8>, raw: uint64)
      requires Valid() && out.Length == UUID_LENGTH_BINARY && Outside(out)
      modifies this, out
      ensures Valid() && counter == Tick(old(counter), raw).next
      ensures out[..] == V1Stamp(template[..], Tick(old(counter), raw).ts)
    {
      Generate(out, raw, Writer1);
    }

    /** `uuid6`. */
    method Uuid6(out: array<uint8>, raw: uint64)
      requires Valid() && out.Length == UUID_LENGTH_BINARY && Outside(out)
      modifies this, out
      ensures Valid() && counter == Tick(old(counter), raw).next
      ensures out[..] == V6Stamp(template[..], Tick(old(counter), raw).ts)
    {
      Generate(out, raw, Writer6);
    }

    /**
     * `uuid3`: the MD5 digest of namespace ++ name[..len], written
     * straight into the container, then version 3.
     */
    method Uuid3(out: array<uint8>, ns: seq<uint8>, name: seq<uint8>, len: uint8)
      requires Valid() && out.Length == UUID_LENGTH_BINARY && Outside(out)
      requires |ns| == UUID_LENGTH_BINARY && len as int <= |name|
      modifies md5, hashstage, out
      ensures Valid()
      ensures md5.calls == Blocks(ns + name[..len]) && md5.absorbed == ns + name[..len]
      ensures out[..] == WithVersion(md5.digestOf(ns + name[..len]), 3)
    {
      md5.Init();
      Absorb(md5, hashstage, ns, name, len, MD5_BLOCK_BYTES, MD5_BLOCK_BYTES);
      md5.WriteDigest(out);
      StampVersion(out, 0x30);
    }

    /** `uuid5`: the first 16 bytes of the SHA-1 digest of namespace ++ name[..len], then version 5. */
    method Uuid5(out: array<uint8>, ns: seq<uint8>, name: seq<uint8>, len: uint8)
      requires Valid() && out.Length == UUID_LENGTH_BINARY && Outside(out)
      requires |ns| == UUID_LENGTH_BINARY && len as int <= |name|
      modifies sha1, hashstage, sha1hash, out
      ensures Valid()
      ensures sha1.calls == Blocks(ns + name[..len]) && sha1.absorbed == ns + name[..len]
      ensures out[..] == WithVersion(sha1.digestOf(ns + name[..len])[..UUID_LENGTH_BINARY], 5)
    {
      sha1.Init();
      Absorb(sha1, hashstage, ns, name, len, SHA1_BLOCK_BYTES, SHA1_BLOCK_BYTES);
      sha1.WriteDigest(sha1hash);
      forall i | 0 <= i < UUID_LENGTH_BINARY {
        out[i] := sha1hash[i];
      }
      StampVersion(out, 0x50);
    }
  }

  /** `_uuid1_ts_writer1`: the timestamp bytes moved into the version-1 fields, then version 1. */
  method WriteV1(out: array<uint8>, ts: uint64)
    requires out.Length == UUID_LENGTH_BINARY
    modifies out
    ensures out[..] == V1Stamp(old(out[..]), ts)
  {
    var tsb := TsBytes(ts);
    out[0] := tsb[3];
    out[1] := tsb[2];
    out[2] := tsb[1];
    out[3] := tsb[0];
    out[4] := tsb[5];
    out[5] := tsb[4];
    out[6] := tsb[7];
    out[7] := tsb[6];
    assert out[..] == [tsb[3], tsb[2], tsb[1], tsb[0], tsb[5], tsb[4], tsb[7], tsb[6]] + old(out[..])[8..];
    StampVersion(out, 0x10);
  }

  /** `_uuid1_ts_writer6`: the timestamp bytes spliced nibble-wise into bytes 0-7, then version 6. */
  method WriteV6(out: array<uint8>, ts: uint64)
    requires out.Length == UUID_LENGTH_BINARY
    modifies out
    ensures out[..] == V6Stamp(old(out[..]), ts)
  {
    var tsb := TsBytes(ts);
    var j := 7;
    for i := 0 to 6
      invariant j == 7 - i
      invariant forall k :: 0 <= k < i ==> out[k] == V6Byte(tsb[7 - k], tsb[6 - k])
      invariant out[i..] == old(out[i..])
    {
      ShiftedPairIsV6Byte(tsb[j], tsb[j - 1]);
      out[i] := ShiftedPair(tsb[j], tsb[j - 1]);
      j := j - 1;
    }
    AndMask15(tsb[1]);
    out[6] := BitAnd(tsb[1], 0x0F);
    out[7] := tsb[0];
    assert out[..] == [V6Byte(tsb[7], tsb[6]), V6Byte(tsb[6], tsb[5]), V6Byte(tsb[5], tsb[4]),
                       V6Byte(tsb[4], tsb[3]), V6Byte(tsb[3], tsb[2]), V6Byte(tsb[2], tsb[1]),
                       tsb[1] % 16, tsb[0]] + old(out[..])[8..];
    StampVersion(out, 0x60);
  }

  /** `uuid4`: sixteen successive bytes of entropy, then version 4. */
  method Uuid4(out: array<uint8>, rng: Entropy)
    requires out.Length == UUID_LENGTH_BINARY
    modifies out, rng
    ensures rng.drawn == old(rng.drawn) + UUID_LENGTH_BINARY
    ensures out[..] == WithVersion(Draws(rng.stream, old(rng.drawn), UUID_LENGTH_BINARY), 4)
  {
    for i := 0 to UUID_LENGTH_BINARY
      invariant rng.drawn == old(rng.drawn) + i
      invariant forall k :: 0 <= k < i ==> out[k] == rng.stream(old(rng.drawn) + k)
    {
      out[i] := rng.Next();
    }
    assert out[..] == Draws(rng.stream, old(rng.drawn), UUID_LENGTH_BINARY);
    StampVersion(out, 0x40);
  }
}
