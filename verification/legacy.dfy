/**
 * The older engine of src/uuid.c. Its name-based generators stream the
 * message exactly as the current ones do (its `uuid5` tests the remaining
 * length against `SHA1_BLOCK_BYTES` but advances by `MD5_BLOCK_BYTES`,
 * which is harmless because both are 64); its `uuid1` and `uuid4` only
 * stamp a version onto whatever the container holds; and its formatter
 * prints each byte with `"%x"`, which drops the leading zero of bytes
 * below 16 and leaves a NUL inside the text.
 */
module Legacy {
  import opened Bits
  import opened Layout
  import opened Codec
  import opened BlockHash
  import opened NameHash
  import opened UuidString

  /** The globals of src/uuid.c. */
  class Generator {
    const hashstage: array<uint8>
    const md5: Context
    const sha1: Context
    const sha1hash: array<uint8>

    ghost predicate Valid()
      reads this, md5, sha1
    {
      && hashstage.Length == 64
      && sha1hash.Length == SHA1_HASH_BYTES
      && hashstage != sha1hash
      && md5 != sha1
      && md5.Valid() && md5.digestBytes == MD5_HASH_BYTES
      && sha1.Valid() && sha1.digestBytes == SHA1_HASH_BYTES
    }

    /** Whether `out` is a caller's container, apart from the global buffers. */
    predicate Outside(out: array<uint8>)
    {
      out != hashstage && out != sha1hash
    }

    constructor(md5Of: seq<uint8> -> seq<uint8>, sha1Of: seq<uint8> -> seq<uint8>)
      requires forall m :: |md5Of(m)| == MD5_HASH_BYTES
      requires forall m :: |sha1Of(m)| == SHA1_HASH_BYTES
      ensures Valid() && fresh(hashstage) && fresh(sha1hash)
      ensures hashstage[..] == seq(64, _ => 0) && sha1hash[..] == seq(SHA1_HASH_BYTES, _ => 0)
      ensures md5.calls == [] && !md5.finished && sha1.calls == [] && !sha1.finished
      ensures md5.digestOf == md5Of && sha1.digestOf == sha1Of
    {
      hashstage := new uint8[64](_ => 0);
      sha1hash := new uint8[SHA1_HASH_BYTES](_ => 0);
      md5 := new Context(MD5_BLOCK_BYTES, MD5_HASH_BYTES, md5Of);
      sha1 := new Context(SHA1_BLOCK_BYTES, SHA1_HASH_BYTES, sha1Of);
    }

    /** `uuid3`, as in the current engine. */
    method Uuid3(out: array<uint8>, ns: seq<uint8>, name: seq<uint8>, len: uint8)
      requires Valid() && out.Length == UUID_LENGTH_BINARY && Outside(out)
      requires |ns| == UUID_LENGTH_BINARY && len as int <= |name|
      modifies md5, hashstage, out
      ensures Valid()
      ensures md5.calls == Blocks(ns + name[..len]) && md5.absorbed == ns + name[..len]
      ensures out[..] == WithVersion(md5.digestOf(ns + name[..len]), 3)
    {
      md5.Init();
      Absorb(md5, hashstage, ns, name, len, MD5_BLOCK_BYTES, MD5_BLOCK_BYTES);
      md5.WriteDigest(out);
      StampVersion(out, 0x30);
    }

    /**
     * `uuid5`: the loop tests against the SHA-1 block size and steps by
     * the MD5 one; with both at 64 the SHA-1 context still receives
     * exactly the message, in 64-byte blocks and one final block.
     */
    method Uuid5(out: array<uint8>, ns: seq<uint8>, name: seq<uint8>, len: uint8)
      requires Valid() && out.Length == UUID_LENGTH_BINARY && Outside(out)
      requires |ns| == UUID_LENGTH_BINARY && len as int <= |name|
      modifies sha1, hashstage, sha1hash, out
      ensures Valid()
      ensures sha1.calls == Blocks(ns + name[..len]) && sha1.absorbed == ns + name[..len]
      ensures out[..] == WithVersion(sha1.digestOf(ns + name[..len])[..UUID_LENGTH_BINARY], 5)
    {
      sha1.Init();
      Absorb(sha1, hashstage, ns, name, len, SHA1_BLOCK_BYTES, MD5_BLOCK_BYTES);
      sha1.WriteDigest(sha1hash);
      forall i | 0 <= i < UUID_LENGTH_BINARY {
        out[i] := sha1hash[i];
      }
      StampVersion(out, 0x50);
    }
  }

  /** `uuid1` of the older engine: only the version-1 stamp; no time and no node are written. */
  method Uuid1(out: array<uint8>)
    requires out.Length == UUID_LENGTH_BINARY
    modifies out
    ensures out[..] == WithVersion(old(out[..]), 1)
  {
    StampVersion(out, 0x10);
  }

  /** `uuid4` of the older engine: only the version-4 stamp; no entropy is drawn. */
  method Uuid4(out: array<uint8>)
    requires out.Length == UUID_LENGTH_BINARY
    modifies out
    ensures out[..] == WithVersion(old(out[..]), 4)
  {
    StampVersion(out, 0x40);
  }

  /**
   * `uuid_sprintf` of the older engine, with `"%x"`: a byte below 16
   * leaves one digit and its NUL in its two characters, and index 36 is
   * written only when the last byte is 16 or more.
   */
  method Sprintf(buf: array<char>, u: array<uint8>)
    requires buf.Length >= UUID_LENGTH_STRING && u.Length == UUID_LENGTH_BINARY
    modifies buf
    ensures buf[..TEXT_LENGTH] == Rendered(u[..], UUID_LENGTH_BINARY, Plain)
    ensures buf[TEXT_LENGTH] == if u[15] >= 16 then '\0' else old(buf[TEXT_LENGTH])
    ensures buf[UUID_LENGTH_STRING..] == old(buf[UUID_LENGTH_STRING..])
  {
    Print(buf, u, Plain);
  }

  /** `"%x"` and `"%02x"` leave the same two characters exactly for bytes of two digits. */
  lemma CellsAgree(b: uint8)
    ensures Cell(b, Plain) == Cell(b, ZeroPadded) <==> b >= 16
  {
    if b < 16 {
      assert Cell(b, Plain)[1] == '\0' != HexDigit(b % 16) == Cell(b, ZeroPadded)[1];
    }
  }

  /** Over a prefix of two-digit bytes both conversions print the same text. */
  lemma {:induction false} RenderedAgree(u: seq<uint8>, k: nat)
    requires k <= |u|
    requires forall i :: 0 <= i < k ==> u[i] >= 16
    ensures Rendered(u, k, Plain) == Rendered(u, k, ZeroPadded)
  {
    if k > 0 {
      RenderedAgree(u, k - 1);
      CellsAgree(u[k - 1]);
    }
  }

  /** The older formatter prints the text form exactly when no byte is below 16. */
  lemma PlainIsFormatIff(u: seq<uint8>)
    requires |u| == UUID_LENGTH_BINARY
    ensures Rendered(u, UUID_LENGTH_BINARY, Plain) == Format(u)
            <==> forall i :: 0 <= i < UUID_LENGTH_BINARY ==> u[i] >= 16
  {
    if forall i :: 0 <= i < UUID_LENGTH_BINARY ==> u[i] >= 16 {
      RenderedAgree(u, UUID_LENGTH_BINARY);
    } else {
      var i :| 0 <= i < UUID_LENGTH_BINARY && u[i] < 16;
      RenderedAt(u, i, Plain);
      RenderedAt(u, i, ZeroPadded);
      CellsAgree(u[i]);
      assert Rendered(u, UUID_LENGTH_BINARY, Plain)[Pos(i) + 1] == '\0';
      assert Format(u)[Pos(i) + 1] != '\0';
    }
  }

  /** The nil UUID comes out of the older formatter as the one-character string "0". */
  lemma NilPrintsOneDigit()
    ensures Rendered(Nil(), UUID_LENGTH_BINARY, Plain)[..2] == ['0', '\0']
  {
    RenderedAt(Nil(), 0, Plain);
  }
}
