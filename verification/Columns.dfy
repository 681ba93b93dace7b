/** From a UTF-16 column of a source line to the identifier standing there (src/semantic.rs). */
module Columns {
  import opened Order
  import opened Bytes
  import Permutations

  // ----- Two encodings of one line -----

  /** The UTF-8 form of a Unicode scalar value (section 3 of RFC 3629). */
  function Utf8(c: char): (r: seq<Byte>)
    ensures 1 <= |r| <= 4
    ensures if c as int < 0x80 then r == [c as int as Byte] else forall b :: b in r ==> b >= 0x80
  {
    var n := c as int;
    if n < 0x80 then [n as Byte]
    else if n < 0x800 then [(0xC0 + n / 64) as Byte, (0x80 + n % 64) as Byte]
    else if n < 0x1_0000 then [(0xE0 + n / 4096) as Byte, (0x80 + n / 64 % 64) as Byte, (0x80 + n % 64) as Byte]
    else [(0xF0 + n / 262144) as Byte, (0x80 + n / 4096 % 64) as Byte, (0x80 + n / 64 % 64) as Byte,
          (0x80 + n % 64) as Byte]
  }

  function Utf16Length(c: char): nat {
    if c as int < 0x1_0000 then 1 else 2
  }

  /** The bytes of a character are a well-formed sequence. */
  lemma Utf8WellFormed(c: char)
    ensures ScalarLength(Utf8(c)) == |Utf8(c)|
  {
    var n, r := c as int, Utf8(c);
    if n >= 0x1_0000 {
      LongWellFormed(n, r);
    } else if n >= 0x800 {
      MiddleWellFormed(n, r);
    }
  }

  lemma MiddleWellFormed(n: int, r: seq<Byte>)
    requires 0x800 <= n < 0x1_0000 && !(0xD800 <= n < 0xE000)
    requires r == [(0xE0 + n / 4096) as Byte, (0x80 + n / 64 % 64) as Byte, (0x80 + n % 64) as Byte]
    ensures ScalarLength(r) == 3
  {
    assert Continuation(r[1]) && Continuation(r[2]);
    assert n / 4096 == 0 ==> n / 64 >= 32;
    assert n / 4096 == 13 ==> n / 64 % 64 < 32;
  }

  lemma LongWellFormed(n: int, r: seq<Byte>)
    requires 0x1_0000 <= n <= 0x10_FFFF
    requires r == [(0xF0 + n / 262144) as Byte, (0x80 + n / 4096 % 64) as Byte, (0x80 + n / 64 % 64) as Byte,
                   (0x80 + n % 64) as Byte]
    ensures ScalarLength(r) == 4
  {
    assert Continuation(r[1]) && Continuation(r[2]) && Continuation(r[3]);
  }

  function FromUtf8(r: seq<Byte>): int
    requires 1 <= |r| <= 4
  {
    match |r|
    case 1 => r[0] as int
    case 2 => (r[0] as int - 0xC0) * 64 + (r[1] as int - 0x80)
    case 3 => (r[0] as int - 0xE0) * 4096 + (r[1] as int - 0x80) * 64 + (r[2] as int - 0x80)
    case 4 => (r[0] as int - 0xF0) * 262144 + (r[1] as int - 0x80) * 4096 + (r[2] as int - 0x80) * 64 + (r[3] as int - 0x80)
  }

  lemma Digits64(n: nat)
    ensures n / 64 == n / 4096 * 64 + n / 64 % 64 && n / 4096 == n / 262144 * 64 + n / 4096 % 64
  {
    assert n / 64 / 64 == n / 4096 && n / 4096 / 64 == n / 262144;
  }

  /** They hold its code point (section 3 of RFC 3629). */
  lemma Utf8Holds(c: char)
    ensures FromUtf8(Utf8(c)) == c as int
  {
    Digits64(c as int);
  }

  /** The code units of a character in UTF-16: itself, or a surrogate pair (section 2.1 of RFC 2781). */
  predicate IsUtf16(units: seq<nat>, c: char) {
    || (|units| == 1 && units[0] == c as int < 0x1_0000)
    || (&& |units| == 2 && 0xD800 <= units[0] < 0xDC00 && 0xDC00 <= units[1] < 0xE000
        && c as int == 0x1_0000 + (units[0] - 0xD800) * 0x400 + (units[1] - 0xDC00))
  }

  /** A character has just one form in UTF-16, of as many units as are counted for it. */
  lemma Utf16Means(c: char) returns (form: seq<nat>)
    ensures IsUtf16(form, c) && forall units :: IsUtf16(units, c) ==> units == form && |units| == Utf16Length(c)
  {
    var n := c as int;
    if n < 0x1_0000 {
      form := [n];
    } else {
      form := [0xD800 + (n - 0x1_0000) / 0x400, 0xDC00 + (n - 0x1_0000) % 0x400];
    }
    forall units | IsUtf16(units, c) ensures units == form {
    }
  }

  function Encode(line: string): seq<Byte> {
    if line == "" then [] else Encode(line[..|line| - 1]) + Utf8(line[|line| - 1])
  }

  function Units(line: string): nat {
    if line == "" then 0 else Units(line[..|line| - 1]) + Utf16Length(line[|line| - 1])
  }

  lemma {:induction false} EncodeConcat(a: string, b: string)
    ensures Encode(a + b) == Encode(a) + Encode(b)
  {
    if b == "" {
      assert a + b == a;
    } else {
      EncodeConcat(a, b[..|b| - 1]);
      assert (a + b)[..|a + b| - 1] == a + b[..|b| - 1];
      Permutations.Regroup(Encode(a), Encode(b[..|b| - 1]), Utf8(b[|b| - 1]));
    }
  }

  /** The byte offset of a character. */
  ghost function Offset(line: string, k: int): nat
    requires 0 <= k <= |line|
  {
    |Encode(line[..k])|
  }

  lemma Piece(front: seq<Byte>, here: seq<Byte>, back: seq<Byte>)
    requires here != []
    ensures var all := front + here + back;
            all[|front|] == here[0] && all[|front| + |here| - 1] == here[|here| - 1]
  {
  }

  lemma OffsetStep(line: string, k: nat)
    requires k < |line|
    ensures Offset(line, k + 1) == Offset(line, k) + |Utf8(line[k])| <= |Encode(line)|
    ensures Units(line[..k + 1]) == Units(line[..k]) + Utf16Length(line[k])
    ensures Encode(line)[Offset(line, k)] == Utf8(line[k])[0]
    ensures Encode(line)[Offset(line, k + 1) - 1] == Utf8(line[k])[|Utf8(line[k])| - 1]
  {
    var upTo := line[..k + 1];
    assert upTo[..k] == line[..k];
    assert line == upTo + line[k + 1..];
    EncodeConcat(upTo, line[k + 1..]);
    Piece(Encode(line[..k]), Utf8(line[k]), Encode(line[k + 1..]));
  }

  /** The first character at or past a column, or the end of the line. */
  ghost predicate AtColumn(line: string, column: nat, k: int) {
    && 0 <= k <= |line|
    && (forall j :: 0 <= j < k ==> Units(line[..j]) < column)
    && (k < |line| ==> Units(line[..k]) >= column)
  }

  method ColumnToByte(line: string, column: nat) returns (byte: nat)
    ensures exists k :: AtColumn(line, column, k) && byte == Offset(line, k)
  {
    var units := 0;
    byte := 0;
    for k := 0 to |line|
      invariant units == Units(line[..k]) && byte == Offset(line, k)
      invariant forall j :: 0 <= j < k ==> Units(line[..j]) < column
    {
      if units >= column {
        assert AtColumn(line, column, k);
        return;
      }
      OffsetStep(line, k);
      units := units + Utf16Length(line[k]);
      byte := byte + |Utf8(line[k])|;
    }
    assert AtColumn(line, column, |line|);
  }

  lemma {:induction false} UnitsGrow(line: string, j: nat, k: nat)
    requires j < k <= |line|
    ensures Units(line[..j]) < Units(line[..k])
  {
    OffsetStep(line, k - 1);
    if j < k - 1 { UnitsGrow(line, j, k - 1); }
  }

  /** The column of a character leads back to that character. */
  lemma ColumnRoundTrip(line: string, j: nat, k: int)
    requires j <= |line| && AtColumn(line, Units(line[..j]), k)
    ensures k == j
  {
    if k < j { UnitsGrow(line, k, j); }
  }

  // ----- The identifier at a column -----

  predicate IsIdentByte(b: Byte) {
    48 <= b <= 57 || 65 <= b <= 90 || 97 <= b <= 122 || b == 95
  }

  predicate IsIdent(c: char) {
    c as int < 0x80 && IsIdentByte(c as int as Byte)
  }

  /** The letters, digits and underscore of ASCII. */
  lemma IdentMeans(c: char)
    ensures IsIdent(c) <==> '0' <= c <= '9' || 'A' <= c <= 'Z' || 'a' <= c <= 'z' || c == '_'
  {
  }

  /** `line[i..j]` is the longest run of identifier characters around `k`. */
  ghost predicate IsRun(line: string, i: int, k: int, j: int) {
    && 0 <= i <= k <= j <= |line|
    && (forall n :: i <= n < j ==> IsIdent(line[n]))
    && (i > 0 ==> !IsIdent(line[i - 1]))
    && (j < |line| ==> !IsIdent(line[j]))
  }

  /** Only ASCII characters have bytes that look like an identifier's. */
  lemma IdentByte(c: char, b: Byte)
    requires b in Utf8(c)
    ensures IsIdentByte(b) <==> IsIdent(c)
    ensures IsIdent(c) ==> |Utf8(c)| == 1 && b as int == c as int
  {
  }

  /** The bytes at both ends of a character tell whether it is an identifier character. */
  lemma CharacterEnds(line: string, k: int)
    requires 0 <= k < |line|
    ensures Offset(line, k) < Offset(line, k + 1) <= |Encode(line)|
    ensures var first, last := Encode(line)[Offset(line, k)], Encode(line)[Offset(line, k + 1) - 1];
            && (IsIdentByte(first) <==> IsIdent(line[k])) && (IsIdentByte(last) <==> IsIdent(line[k]))
            && (IsIdent(line[k]) ==>
                  Offset(line, k + 1) == Offset(line, k) + 1 && first as int == line[k] as int == last as int)
  {
    OffsetStep(line, k);
    IdentByte(line[k], Utf8(line[k])[0]);
    IdentByte(line[k], Utf8(line[k])[|Utf8(line[k])| - 1]);
  }

  method ScanBack(line: string, bytes: seq<Byte>, byte: nat, ghost k: int) returns (start: nat, ghost i: int)
    requires bytes == Encode(line) && 0 <= k <= |line| && byte == Offset(line, k) && byte <= |bytes|
    ensures 0 <= i <= k && start == Offset(line, i)
    ensures (forall n :: i <= n < k ==> IsIdent(line[n])) && (i > 0 ==> !IsIdent(line[i - 1]))
  {
    start, i := byte, k;
    while start > 0 && IsIdentByte(bytes[start - 1])
      invariant 0 <= i <= k && start == Offset(line, i) && start <= |bytes|
      invariant forall n :: i <= n < k ==> IsIdent(line[n])
    {
      StartOfLine(line, i);
      CharacterEnds(line, i - 1);
      i, start := i - 1, start - 1;
    }
    if i > 0 { CharacterEnds(line, i - 1); }
  }

  method ScanForward(line: string, bytes: seq<Byte>, byte: nat, ghost k: int) returns (end: nat, ghost j: int)
    requires bytes == Encode(line) && 0 <= k <= |line| && byte == Offset(line, k)
    ensures k <= j <= |line| && end == Offset(line, j)
    ensures (forall n :: k <= n < j ==> IsIdent(line[n])) && (j < |line| ==> !IsIdent(line[j]))
  {
    end, j := byte, k;
    while end < |bytes| && IsIdentByte(bytes[end])
      invariant k <= j <= |line| && end == Offset(line, j)
      invariant forall n :: k <= n < j ==> IsIdent(line[n])
    {
      EndOfLine(line, j);
      CharacterEnds(line, j);
      j, end := j + 1, end + 1;
    }
    if j < |line| { CharacterEnds(line, j); }
  }

  function AsciiText(bytes: seq<Byte>): string {
    seq(|bytes|, n requires 0 <= n < |bytes| => bytes[n] as int as char)
  }

  /** Identifier characters and their bytes are the same. */
  lemma {:induction false} IdentIsAscii(text: string)
    requires forall n :: 0 <= n < |text| ==> IsIdent(text[n])
    ensures AsciiText(Encode(text)) == text
  {
    if text != "" {
      var front, last := text[..|text| - 1], text[|text| - 1];
      IdentIsAscii(front);
      assert Encode(text) == Encode(front) + Utf8(last);
      assert text == front + [last];
    }
  }

  lemma {:induction false} Between(a: seq<Byte>, b: seq<Byte>, c: seq<Byte>)
    ensures (a + b + c)[|a|..|a + b|] == b
  {
  }

  lemma {:induction false} RunText(line: string, i: int, j: int)
    requires 0 <= i <= j <= |line| && forall n :: i <= n < j ==> IsIdent(line[n])
    ensures Offset(line, j) == Offset(line, i) + (j - i) <= |Encode(line)|
    ensures AsciiText(Encode(line)[Offset(line, i)..Offset(line, j)]) == line[i..j]
  {
    var run := line[i..j];
    assert line[..j] == line[..i] + run && line == line[..j] + line[j..];
    EncodeConcat(line[..i], run);
    EncodeConcat(line[..j], line[j..]);
    IdentIsAscii(run);
    assert |AsciiText(Encode(run))| == |Encode(run)|;
    Between(Encode(line[..i]), Encode(run), Encode(line[j..]));
  }

  lemma StartOfLine(line: string, i: int)
    requires 0 <= i <= |line| && Offset(line, i) > 0
    ensures i > 0
  {
  }

  lemma EndOfLine(line: string, j: int)
    requires 0 <= j <= |line| && Offset(line, j) < |Encode(line)|
    ensures j < |line|
  {
    assert line[..|line|] == line;
  }

  lemma OffsetInside(line: string, k: int)
    requires 0 <= k <= |line|
    ensures Offset(line, k) <= |Encode(line)|
  {
    if k < |line| { OffsetStep(line, k); } else { assert line[..k] == line; }
  }

  /** Byte by byte, without ever splitting a character: the longest identifier around the column. */
  method IdentifierAt(line: string, column: nat) returns (identifier: Option<string>)
    ensures exists i, k, j :: AtColumn(line, column, k) && IsRun(line, i, k, j)
              && identifier == if i < j then Some(line[i..j]) else None
  {
    var bytes := Encode(line);
    var byte := ColumnToByte(line, column);
    ghost var k :| AtColumn(line, column, k) && byte == Offset(line, k);
    OffsetInside(line, k);
    var start, i := ScanBack(line, bytes, byte, k);
    var end, j := ScanForward(line, bytes, byte, k);
    assert IsRun(line, i, k, j);
    RunText(line, i, j);
    return if start < end then Some(AsciiText(bytes[start..end])) else None;
  }
}
