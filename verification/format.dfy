/**
 * The string representation of section 3 of RFC 4122 as `uuid_sprintf`
 * writes it: each byte as two lowercase hex digits (`"%02x"`), with a
 * hyphen after bytes 3, 5, 7 and 9, giving the 8-4-4-4-12 groups, 36
 * characters and a terminating NUL. The printing loop is shared with the
 * older formatter, which uses `"%x"` instead; the conversion is a
 * parameter of the loop and of the text it leaves.
 */
module UuidString {
  import opened Bits
  import opened Layout

  datatype Option<T> = None | Some(value: T)

  /** Characters in the text form, without the NUL. */
  const TEXT_LENGTH: nat := 36

  /** A nibble as a lowercase hex digit, as `printf`'s `x` conversion writes it. */
  function HexDigit(n: nat): (c: char)
    requires n < 16
    ensures IsHexDigit(c)
  {
    if n < 10 then ('0' as int + n) as char else ('a' as int + n - 10) as char
  }

  predicate IsHexDigit(c: char)
  {
    '0' <= c <= '9' || 'a' <= c <= 'f'
  }

  /** The value of a lowercase hex digit: the inverse of `HexDigit`. */
  function HexValue(c: char): (n: nat)
    requires IsHexDigit(c)
    ensures n < 16 && HexDigit(n) == c
  {
    if '0' <= c <= '9' then c as int - '0' as int else c as int - 'a' as int + 10
  }

  lemma HexValueOfDigit(n: nat)
    requires n < 16
    ensures HexValue(HexDigit(n)) == n
  {
  }

  /** `"%02x"`: a byte as exactly two lowercase hex digits. */
  function Hex2(b: uint8): (s: string)
    ensures |s| == 2
  {
    [HexDigit(b / 16), HexDigit(b % 16)]
  }

  /** The `printf` conversion used for each byte: `"%02x"`, or the unpadded `"%x"`. */
  datatype Conversion = ZeroPadded | Plain

  /** Everything one `sprintf` call writes for byte `b`, its terminating NUL included. */
  function Printed(b: uint8, conv: Conversion): (s: string)
    ensures 2 <= |s| <= 3 && s[|s| - 1] == '\0'
    ensures conv == ZeroPadded ==> |s| == 3
  {
    if conv == Plain && b < 16 then [HexDigit(b), '\0'] else Hex2(b) + ['\0']
  }

  /** The two characters the caller steps over after one `sprintf` call. */
  function Cell(b: uint8, conv: Conversion): (s: string)
    ensures |s| == 2
  {
    Printed(b, conv)[..2]
  }

  /** A hyphen follows the bytes that end time_low, time_mid, time_hi_and_version and the clock sequence. */
  predicate DashAfter(i: nat)
  {
    i == 3 || i == 5 || i == 7 || i == 9
  }

  /** Where the text of byte `k` starts: two characters per byte before it, plus the hyphens among them. */
  function Pos(k: nat): nat
  {
    2 * k + (if k > 3 then 1 else 0) + (if k > 5 then 1 else 0)
          + (if k > 7 then 1 else 0) + (if k > 9 then 1 else 0)
  }

  /** The characters in front of byte `k` once the first `k` bytes have been printed, hyphens included. */
  function Rendered(u: seq<uint8>, k: nat, conv: Conversion): (s: string)
    requires k <= |u|
    ensures |s| == Pos(k)
  {
    if k == 0 then []
    else Rendered(u, k - 1, conv) + Cell(u[k - 1], conv) + (if DashAfter(k - 1) then "-" else "")
  }

  /** The 36-character text form of a UUID. */
  function Format(u: seq<uint8>): (s: string)
    requires |u| == UUID_LENGTH_BINARY
    ensures |s| == TEXT_LENGTH
  {
    Rendered(u, UUID_LENGTH_BINARY, ZeroPadded)
  }

  lemma {:induction false} RenderedPrefix(u: seq<uint8>, j: nat, k: nat, conv: Conversion)
    requires j <= k <= |u|
    ensures Rendered(u, j, conv) == Rendered(u, k, conv)[..Pos(j)]
    decreases k
  {
    if j < k {
      RenderedPrefix(u, j, k - 1, conv);
    }
  }

  /** Byte `i` occupies the two characters at `Pos(i)`, followed by its hyphen if it ends a group. */
  lemma RenderedAt(u: seq<uint8>, i: nat, conv: Conversion)
    requires |u| == UUID_LENGTH_BINARY && i < UUID_LENGTH_BINARY
    ensures Rendered(u, UUID_LENGTH_BINARY, conv)[Pos(i)] == Cell(u[i], conv)[0]
    ensures Rendered(u, UUID_LENGTH_BINARY, conv)[Pos(i) + 1] == Cell(u[i], conv)[1]
    ensures DashAfter(i) ==> Rendered(u, UUID_LENGTH_BINARY, conv)[Pos(i) + 2] == '-'
  {
    RenderedPrefix(u, i + 1, UUID_LENGTH_BINARY, conv);
    var whole, head := Rendered(u, UUID_LENGTH_BINARY, conv), Rendered(u, i + 1, conv);
    var before, cell := Rendered(u, i, conv), Cell(u[i], conv);
    PosStep(i);
    assert head == before + cell + (if DashAfter(i) then "-" else "");
    assert head[Pos(i)] == cell[0] && head[Pos(i) + 1] == cell[1];
    assert DashAfter(i) ==> head[Pos(i) + 2] == '-';
    assert head == whole[..Pos(i + 1)];
  }

  /** Each byte takes two characters, and one more if a hyphen follows it. */
  lemma PosStep(k: nat)
    ensures Pos(k + 1) == Pos(k) + 2 + (if DashAfter(k) then 1 else 0)
  {
  }

  /** Byte `i` appears in the text as two hex digits at `Pos(i)`, followed by its hyphen if it ends a group. */
  lemma FormatAt(u: seq<uint8>, i: nat)
    requires |u| == UUID_LENGTH_BINARY && i < UUID_LENGTH_BINARY
    ensures Format(u)[Pos(i)] == HexDigit(u[i] / 16)
    ensures Format(u)[Pos(i) + 1] == HexDigit(u[i] % 16)
    ensures DashAfter(i) ==> Format(u)[Pos(i) + 2] == '-'
  {
    RenderedAt(u, i, ZeroPadded);
  }

  /** The hyphen positions of the text form. */
  predicate IsDashPosition(j: nat)
  {
    j == 8 || j == 13 || j == 18 || j == 23
  }

  /** The text grammar: 36 characters, hyphens at 8, 13, 18 and 23 and lowercase hex digits elsewhere. */
  predicate WellFormed(s: string)
  {
    && |s| == TEXT_LENGTH
    && (forall j :: 0 <= j < TEXT_LENGTH ==> if IsDashPosition(j) then s[j] == '-' else IsHexDigit(s[j]))
  }

  /** Which byte the character at `j` (not a hyphen) belongs to. */
  function ByteOf(j: nat): (i: nat)
    requires j < TEXT_LENGTH && !IsDashPosition(j)
    ensures i < UUID_LENGTH_BINARY && (j == Pos(i) || j == Pos(i) + 1)
  {
    if j < 8 then j / 2
    else if j < 13 then 4 + (j - 9) / 2
    else if j < 18 then 6 + (j - 14) / 2
    else if j < 23 then 8 + (j - 19) / 2
    else 10 + (j - 24) / 2
  }

  /** The formatted text always has the shape of section 3 of RFC 4122. */
  lemma FormatWellFormed(u: seq<uint8>)
    requires |u| == UUID_LENGTH_BINARY
    ensures WellFormed(Format(u))
  {
    var s := Format(u);
    forall j | 0 <= j < TEXT_LENGTH
      ensures if IsDashPosition(j) then s[j] == '-' else IsHexDigit(s[j])
    {
      if IsDashPosition(j) {
        var i := if j == 8 then 3 else if j == 13 then 5 else if j == 18 then 7 else 9;
        FormatAt(u, i);
      } else {
        FormatAt(u, ByteOf(j));
      }
    }
  }

  /** The version digit opens the third group, at index 14. */
  lemma FormatVersionDigit(u: seq<uint8>)
    requires |u| == UUID_LENGTH_BINARY
    ensures Format(u)[14] == HexDigit(Version(u))
  {
    FormatAt(u, OFFSET_TIME_HI_AND_VERSION);
  }

  /** Hex digits never sit at hyphen positions. */
  lemma PosNotDash(i: nat)
    requires i < UUID_LENGTH_BINARY
    ensures Pos(i) + 1 < TEXT_LENGTH && !IsDashPosition(Pos(i)) && !IsDashPosition(Pos(i) + 1)
  {
  }

  /** The byte spelled by the two digits at `Pos(i)`. */
  function ByteAt(s: string, i: nat): uint8
    requires WellFormed(s) && i < UUID_LENGTH_BINARY
  {
    PosNotDash(i);
    HexValue(s[Pos(i)]) * 16 + HexValue(s[Pos(i) + 1])
  }

  /** Reads the text form back into sixteen bytes; `None` for text that breaks the grammar. */
  function Parse(s: string): (r: Option<seq<uint8>>)
    ensures r.Some? <==> WellFormed(s)
    ensures r.Some? ==> |r.value| == UUID_LENGTH_BINARY
  {
    if !WellFormed(s) then None
    else Some(seq(UUID_LENGTH_BINARY, i requires 0 <= i < UUID_LENGTH_BINARY => ByteAt(s, i)))
  }

  /** Reading the text back gives the UUID that was formatted. */
  lemma ParseFormat(u: seq<uint8>)
    requires |u| == UUID_LENGTH_BINARY
    ensures Parse(Format(u)) == Some(u)
  {
    var s := Format(u);
    FormatWellFormed(u);
    var r := Parse(s).value;
    forall i | 0 <= i < UUID_LENGTH_BINARY
      ensures r[i] == u[i]
    {
      FormatAt(u, i);
      HexValueOfDigit(u[i] / 16);
      HexValueOfDigit(u[i] % 16);
      assert r[i] == ByteAt(s, i);
    }
    assert r == u;
  }

  /** Every text the grammar accepts is the format of what it parses to: text and bytes correspond one to one. */
  lemma FormatParse(s: string)
    requires Parse(s).Some?
    ensures Format(Parse(s).value) == s
  {
    var u := Parse(s).value;
    var f := Format(u);
    forall j | 0 <= j < TEXT_LENGTH
      ensures f[j] == s[j]
    {
      if IsDashPosition(j) {
        var i := if j == 8 then 3 else if j == 13 then 5 else if j == 18 then 7 else 9;
        FormatAt(u, i);
      } else {
        var i := ByteOf(j);
        FormatAt(u, i);
        assert u[i] == ByteAt(s, i);
        PosNotDash(i);
        var hi, lo := HexValue(s[Pos(i)]), HexValue(s[Pos(i) + 1]);
        assert u[i] / 16 == hi && u[i] % 16 == lo;
      }
    }
  }

  /** One `sprintf(bufp, conversion, b)` call: the digits and their NUL land at `at`, nothing else changes. */
  method Put(buf: array<char>, at: nat, b: uint8, conv: Conversion)
    requires at + |Printed(b, conv)| <= buf.Length
    modifies buf
    ensures buf[..] == old(buf[..at]) + Printed(b, conv) + old(buf[at + |Printed(b, conv)|..])
  {
    var text := Printed(b, conv);
    forall j | 0 <= j < |text| {
      buf[at + j] := text[j];
    }
    assert buf[..] == old(buf[..at]) + text + old(buf[at + |text|..]);
  }

  /** The character just past the text of the first `k` bytes: the NUL of the last call unless a hyphen or the caller's step passed it. */
  function Trail(o: seq<char>, u: seq<uint8>, k: nat, conv: Conversion): char
    requires k <= |u| && Pos(k) < |o|
  {
    if k == 0 || DashAfter(k - 1) || |Printed(u[k - 1], conv)| == 2 then o[Pos(k)] else '\0'
  }

  /** The whole buffer, first holding `o`, once the first `k` bytes of `u` have been printed. */
  function Printing(o: seq<char>, u: seq<uint8>, k: nat, conv: Conversion): (s: seq<char>)
    requires k <= |u| && Pos(k) < |o|
    ensures |s| == |o|
  {
    Rendered(u, k, conv) + [Trail(o, u, k, conv)] + o[Pos(k) + 1..]
  }

  /** Writing `text` at `|r|` over `r + [t] + o[|r| + 1..]` keeps `r` and the part of `o` past `text`. */
  lemma WriteOver<T>(r: seq<T>, t: T, o: seq<T>, text: seq<T>)
    requires 1 <= |text| && |r| + |text| <= |o|
    ensures var b := r + [t] + o[|r| + 1..];
            b[..|r|] + text + b[|r| + |text|..] == r + text + o[|r| + |text|..]
  {
    var b := r + [t] + o[|r| + 1..];
    assert b[..|r|] == r;
    assert b[|r| + |text|..] == o[|r| + |text|..];
  }

  /** A call's output is its two characters, followed by the NUL when it wrote three. */
  lemma PrintedShape(b: uint8, conv: Conversion)
    ensures |Printed(b, conv)| == 3 ==> Printed(b, conv) == Cell(b, conv) + ['\0']
    ensures |Printed(b, conv)| == 2 ==> Printed(b, conv) == Cell(b, conv)
  {
  }

  /** Regrouping what a call leaves: its first two characters, then the one at `p + 2`. */
  lemma Regroup<T>(r: seq<T>, cell: seq<T>, text: seq<T>, o: seq<T>, nul: T)
    requires |cell| == 2 && (text == cell + [nul] || text == cell) && |r| + 3 <= |o|
    ensures r + text + o[|r| + |text|..]
            == r + cell + [if |text| == 3 then nul else o[|r| + 2]] + o[|r| + 3..]
  {
    if |text| == 2 {
      assert o[|r| + 2..] == [o[|r| + 2]] + o[|r| + 3..];
    }
  }

  /** Without a hyphen, what the call leaves is the buffer state after byte `k`. */
  lemma StepPlain(o: seq<char>, u: seq<uint8>, k: nat, conv: Conversion)
    requires k < |u| == UUID_LENGTH_BINARY && |o| >= UUID_LENGTH_STRING && !DashAfter(k)
    ensures Rendered(u, k, conv) + Printed(u[k], conv) + o[Pos(k) + |Printed(u[k], conv)|..]
            == Printing(o, u, k + 1, conv)
  {
    var pos, r, text, cell := Pos(k), Rendered(u, k, conv), Printed(u[k], conv), Cell(u[k], conv);
    var trail := Trail(o, u, k + 1, conv);
    PosStep(k);
    assert r + text + o[pos + |text|..] == r + cell + [trail] + o[pos + 3..] by {
      PrintedShape(u[k], conv);
      Regroup(r, cell, text, o, '\0');
    }
    assert Printing(o, u, k + 1, conv) == r + cell + [trail] + o[pos + 3..] by {
      assert Rendered(u, k + 1, conv) == r + cell + "";
      assert r + cell + "" == r + cell;
    }
  }

  /** Regrouping what a call leaves once a hyphen overwrites the character at `p + 2`. */
  lemma RegroupDash<T>(r: seq<T>, cell: seq<T>, text: seq<T>, o: seq<T>, nul: T, dash: T)
    requires |cell| == 2 && (text == cell + [nul] || text == cell) && |r| + 4 <= |o|
    ensures (r + text + o[|r| + |text|..])[|r| + 2 := dash] == r + cell + [dash] + [o[|r| + 3]] + o[|r| + 4..]
  {
    var after := r + text + o[|r| + |text|..];
    assert after[..|r| + 2] == r + cell;
    assert after[|r| + 3..] == o[|r| + 3..];
    assert o[|r| + 3..] == [o[|r| + 3]] + o[|r| + 4..];
    assert after[|r| + 2 := dash] == after[..|r| + 2] + [dash] + after[|r| + 3..];
  }

  /** With a hyphen written at `Pos(k) + 2`, likewise. */
  lemma StepDash(o: seq<char>, u: seq<uint8>, k: nat, conv: Conversion)
    requires k < |u| == UUID_LENGTH_BINARY && |o| >= UUID_LENGTH_STRING && DashAfter(k)
    ensures (Rendered(u, k, conv) + Printed(u[k], conv) + o[Pos(k) + |Printed(u[k], conv)|..])[Pos(k) + 2 := '-']
            == Printing(o, u, k + 1, conv)
  {
    var pos, r, text, cell := Pos(k), Rendered(u, k, conv), Printed(u[k], conv), Cell(u[k], conv);
    PrintedShape(u[k], conv);
    RegroupDash(r, cell, text, o, '\0', '-');
    PosStep(k);
    assert Rendered(u, k + 1, conv) == r + cell + "-";
  }

  /** The `sprintf` of one turn of the loop: byte `k` printed at `Pos(k)`. */
  method PrintDigits(buf: array<char>, u: seq<uint8>, k: nat, conv: Conversion, ghost o: seq<char>)
    requires k < |u| == UUID_LENGTH_BINARY && |o| == buf.Length >= UUID_LENGTH_STRING
    requires buf[..] == Printing(o, u, k, conv)
    modifies buf
    ensures buf[..] == Rendered(u, k, conv) + Printed(u[k], conv) + o[Pos(k) + |Printed(u[k], conv)|..]
  {
    var pos := Pos(k);
    ghost var r, text := Rendered(u, k, conv), Printed(u[k], conv);
    ghost var before := buf[..];
    assert before[..pos] + text + before[pos + |text|..] == r + text + o[pos + |text|..] by {
      assert before == r + [Trail(o, u, k, conv)] + o[pos + 1..];
      WriteOver(r, Trail(o, u, k, conv), o, text);
    }
    Put(buf, pos, u[k], conv);
  }

  /** One turn of the loop: print byte `k` at `Pos(k)`, then its hyphen. */
  method PrintByte(buf: array<char>, u: seq<uint8>, k: nat, conv: Conversion, ghost o: seq<char>)
    requires k < |u| == UUID_LENGTH_BINARY && |o| == buf.Length >= UUID_LENGTH_STRING
    requires buf[..] == Printing(o, u, k, conv)
    modifies buf
    ensures buf[..] == Printing(o, u, k + 1, conv)
  {
    PrintDigits(buf, u, k, conv, o);
    if k == 3 || k == 5 || k == 7 || k == 9 {
      StepDash(o, u, k, conv);
      buf[Pos(k) + 2] := '-';
    } else {
      StepPlain(o, u, k, conv);
    }
  }

  /**
   * The loop of `uuid_sprintf`: one `sprintf` per byte, the cursor moved
   * on by two whatever the call wrote, and a hyphen written after bytes
   * 3, 5, 7 and 9. The text is left in the first 36 characters; index 36
   * holds the NUL of the last call when it wrote three characters and is
   * untouched otherwise, and the rest of the buffer is untouched.
   */
  method Print(buf: array<char>, u: array<uint8>, conv: Conversion)
    requires buf.Length >= UUID_LENGTH_STRING && u.Length == UUID_LENGTH_BINARY
    modifies buf
    ensures buf[..TEXT_LENGTH] == Rendered(u[..], UUID_LENGTH_BINARY, conv)
    ensures buf[TEXT_LENGTH] == if |Printed(u[15], conv)| == 3 then '\0' else old(buf[TEXT_LENGTH])
    ensures buf[UUID_LENGTH_STRING..] == old(buf[UUID_LENGTH_STRING..])
  {
    ghost var o := buf[..];
    for i := 0 to UUID_LENGTH_BINARY
      invariant buf[..] == Printing(o, u[..], i, conv)
    {
      PrintByte(buf, u[..], i, conv, o);
    }
    assert buf[..TEXT_LENGTH] == Printing(o, u[..], UUID_LENGTH_BINARY, conv)[..TEXT_LENGTH];
  }
}
