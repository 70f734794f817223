/**
 * Byte strings read as numbers: network (big-endian) order, as the UUID
 * fields are laid out, and host little-endian order, as the engine reads
 * its 64-bit timestamp through a union of a `uint64_t` and eight bytes.
 * Also the lexicographic order of byte strings, which is how a UUID
 * compares when "treated as an arbitrary string of bytes".
 */
module ByteOrder {
  import opened Bits

  function Pow256(n: nat): (r: nat)
    ensures r >= 1
  {
    if n == 0 then 1 else 256 * Pow256(n - 1)
  }

  /** Value of a byte string read most significant byte first. */
  function BeValue(s: seq<uint8>): (r: nat)
    ensures r < Pow256(|s|)
  {
    if |s| == 0 then 0
    else
      var rest := BeValue(s[1..]);
      LeadingByteBound(s[0], rest, Pow256(|s| - 1));
      s[0] * Pow256(|s| - 1) + rest
  }

  lemma LeadingByteBound(d: uint8, rest: nat, p: nat)
    requires rest < p
    ensures d * p + rest < 256 * p
  {
    MulMono(d, 255, p);
  }

  /** Value of a byte string read least significant byte first. */
  function LeValue(s: seq<uint8>): (r: nat)
    ensures r < Pow256(|s|)
  {
    if |s| == 0 then 0 else s[0] + 256 * LeValue(s[1..])
  }

  /** The `n` bytes of `x`, least significant first: a little-endian host's memory image. */
  function LeBytes(x: nat, n: nat): (r: seq<uint8>)
    ensures |r| == n
  {
    if n == 0 then [] else [x % 256] + LeBytes(x / 256, n - 1)
  }

  /** The `n` bytes of `x`, most significant first: network byte order. */
  function BeBytes(x: nat, n: nat): (r: seq<uint8>)
    ensures |r| == n
  {
    if n == 0 then [] else BeBytes(x / 256, n - 1) + [x % 256]
  }

  /** Lexicographic order of two byte strings of the same length (as `memcmp` orders them). */
  predicate LexLess(a: seq<uint8>, b: seq<uint8>)
    requires |a| == |b|
  {
    |a| > 0 && (a[0] < b[0] || (a[0] == b[0] && LexLess(a[1..], b[1..])))
  }

  /** Reading back a little-endian image gives the number that was stored. */
  lemma {:induction false} LeValueOfLeBytes(x: nat, n: nat)
    requires x < Pow256(n)
    ensures LeValue(LeBytes(x, n)) == x
  {
    if n > 0 {
      LeValueOfLeBytes(x / 256, n - 1);
      assert LeBytes(x, n)[1..] == LeBytes(x / 256, n - 1);
    }
  }

  /** A value read from `|p|` leading bytes and the bytes that follow. */
  lemma {:induction false} BeValueAppend(p: seq<uint8>, s: seq<uint8>)
    ensures BeValue(p + s) == BeValue(p) * Pow256(|s|) + BeValue(s)
  {
    if |p| > 0 {
      var d, q, ps := p[0] as int, Pow256(|p| - 1), Pow256(|s|);
      assert (p + s)[1..] == p[1..] + s;
      BeValueAppend(p[1..], s);
      PowAdd(|p| - 1, |s|);
      var rest := BeValue(p[1..]);
      assert BeValue(p) == d * q + rest;
      assert |p + s| - 1 == |p| - 1 + |s|;
      calc {
        BeValue(p + s);
        d * Pow256(|p| - 1 + |s|) + BeValue(p[1..] + s);
        d * (q * ps) + (rest * ps + BeValue(s));
        { MulAssoc(d, q, ps); }
        (d * q) * ps + rest * ps + BeValue(s);
        { Distrib(d * q, rest, ps); }
        (d * q + rest) * ps + BeValue(s);
        BeValue(p) * ps + BeValue(s);
      }
    } else {
      assert p + s == s;
    }
  }

  lemma Distrib(a: int, b: int, c: int)
    ensures a * c + b * c == (a + b) * c
  {
  }

  lemma {:induction false} PowAdd(m: nat, n: nat)
    ensures Pow256(m + n) == Pow256(m) * Pow256(n)
  {
    if m > 0 {
      PowAdd(m - 1, n);
      MulAssoc(256, Pow256(m - 1), Pow256(n));
    }
  }

  lemma MulAssoc(a: int, b: int, c: int)
    ensures a * (b * c) == (a * b) * c
  {
  }

  /** Reading back a network-order image gives the number that was stored. */
  lemma {:induction false} BeValueOfBeBytes(x: nat, n: nat)
    requires x < Pow256(n)
    ensures BeValue(BeBytes(x, n)) == x
  {
    if n > 0 {
      BeValueOfBeBytes(x / 256, n - 1);
      BeValueAppend(BeBytes(x / 256, n - 1), [x % 256]);
      assert BeValue([x % 256]) == x % 256;
    }
  }

  /** Equal-length strings with equal values are equal. */
  lemma {:induction false} BeValueInjective(a: seq<uint8>, b: seq<uint8>)
    requires |a| == |b| && BeValue(a) == BeValue(b)
    ensures a == b
  {
    if |a| > 0 {
      var p := Pow256(|a| - 1);
      if a[0] < b[0] {
        LeadingByteDecides(a, b);
      } else if b[0] < a[0] {
        LeadingByteDecides(b, a);
      } else {
        BeValueInjective(a[1..], b[1..]);
        assert a == [a[0]] + a[1..];
        assert b == [b[0]] + b[1..];
      }
    }
  }

  /** A smaller leading byte makes the whole value smaller. */
  lemma LeadingByteDecides(a: seq<uint8>, b: seq<uint8>)
    requires |a| == |b| > 0 && a[0] < b[0]
    ensures BeValue(a) < BeValue(b)
  {
    var p := Pow256(|a| - 1);
    assert BeValue(a[1..]) < p;
    MulMono(a[0] + 1, b[0], p);
    assert (a[0] + 1) * p == a[0] * p + p;
  }

  lemma MulMono(x: nat, y: nat, p: nat)
    requires x <= y
    ensures x * p <= y * p
  {
  }

  /** Lexicographic order of byte strings is the numeric order of their big-endian values. */
  lemma {:induction false} LexLessIffBeValue(a: seq<uint8>, b: seq<uint8>)
    requires |a| == |b|
    ensures LexLess(a, b) <==> BeValue(a) < BeValue(b)
  {
    if |a| > 0 {
      if a[0] < b[0] {
        LeadingByteDecides(a, b);
      } else if b[0] < a[0] {
        LeadingByteDecides(b, a);
      } else {
        LexLessIffBeValue(a[1..], b[1..]);
      }
    }
  }

  /** Comparing concatenations: the leading parts decide unless they are equal. */
  lemma {:induction false} LexLessAppend(p1: seq<uint8>, s1: seq<uint8>, p2: seq<uint8>, s2: seq<uint8>)
    requires |p1| == |p2| && |s1| == |s2|
    ensures LexLess(p1 + s1, p2 + s2) <==> LexLess(p1, p2) || (p1 == p2 && LexLess(s1, s2))
  {
    if |p1| > 0 {
      LexLessAppend(p1[1..], s1, p2[1..], s2);
      assert (p1 + s1)[1..] == p1[1..] + s1;
      assert (p2 + s2)[1..] == p2[1..] + s2;
      if p1[0] == p2[0] && p1[1..] == p2[1..] {
        assert p1 == [p1[0]] + p1[1..];
        assert p2 == [p2[0]] + p2[1..];
      }
    } else {
      assert p1 + s1 == s1 && p2 + s2 == s2;
    }
  }

  /** No byte string precedes itself. */
  lemma {:induction false} LexLessIrreflexive(a: seq<uint8>)
    ensures !LexLess(a, a)
  {
    if |a| > 0 {
      LexLessIrreflexive(a[1..]);
    }
  }

  // Expansions of short strings, used by the timestamp layouts.

  lemma BeValue2(s: seq<uint8>)
    requires |s| == 2
    ensures BeValue(s) == s[0] as int * 0x100 + s[1]
  {
    assert s[1..][1..] == [];
  }

  lemma BeValue4(s: seq<uint8>)
    requires |s| == 4
    ensures BeValue(s) == s[0] as int * 0x100_0000 + s[1] as int * 0x1_0000 + s[2] as int * 0x100 + s[3]
  {
    BeValue2(s[2..]);
    assert s[1..][1..] == s[2..];
    assert Pow256(3) == 0x100_0000;
  }

  lemma BeValue6(s: seq<uint8>)
    requires |s| == 6
    ensures BeValue(s) == s[0] as int * 0x100_0000_0000 + s[1] as int * 0x1_0000_0000
                          + s[2] as int * 0x100_0000 + s[3] as int * 0x1_0000 + s[4] as int * 0x100 + s[5]
  {
    BeValue4(s[2..]);
    assert s[1..][1..] == s[2..];
    assert Pow256(5) == 0x100_0000_0000;
    assert Pow256(4) == 0x1_0000_0000;
  }

  lemma BeValue8(s: seq<uint8>)
    requires |s| == 8
    ensures BeValue(s) == BeValue(s[..6]) * 0x1_0000 + s[6] as int * 0x100 + s[7]
  {
    assert s == s[..6] + s[6..];
    BeValueAppend(s[..6], s[6..]);
    BeValue2(s[6..]);
    assert Pow256(2) == 0x1_0000;
  }

  /** The eight-byte image of a 64-bit word, byte by byte. */
  lemma LeBytes8(x: nat)
    requires x < 0x1_0000_0000_0000_0000
    ensures var b := LeBytes(x, 8);
      x == b[0] as int + 0x100 * b[1] as int + 0x1_0000 * b[2] as int + 0x100_0000 * b[3] as int
           + 0x1_0000_0000 * b[4] as int + 0x100_0000_0000 * b[5] as int
           + 0x1_0000_0000_0000 * b[6] as int + 0x100_0000_0000_0000 * b[7] as int
  {
    var b := LeBytes(x, 8);
    assert Pow256(8) == 0x1_0000_0000_0000_0000;
    LeValueOfLeBytes(x, 8);
    assert b[7..][1..] == [];
    assert LeValue(b[7..]) == b[7];
    assert b[6..][1..] == b[7..];
    assert b[5..][1..] == b[6..];
    assert b[4..][1..] == b[5..];
    assert b[3..][1..] == b[4..];
    assert b[2..][1..] == b[3..];
    assert b[1..][1..] == b[2..];
    assert LeValue(b[6..]) == b[6] + 256 * LeValue(b[7..]);
    assert LeValue(b[5..]) == b[5] + 256 * LeValue(b[6..]);
    assert LeValue(b[4..]) == b[4] + 256 * LeValue(b[5..]);
    assert LeValue(b[3..]) == b[3] + 256 * LeValue(b[4..]);
    assert LeValue(b[2..]) == b[2] + 256 * LeValue(b[3..]);
    assert LeValue(b[1..]) == b[1] + 256 * LeValue(b[2..]);
    assert LeValue(b) == b[0] + 256 * LeValue(b[1..]);
  }
}
