/** Bytes and UTF-8 validity. */
module Bytes {

  newtype Byte = b: int | 0 <= b < 256

  /** The bytes of an ASCII literal. */
  function Ascii(text: string): seq<Byte>
    requires forall i :: 0 <= i < |text| ==> text[i] as int < 128
    ensures |Ascii(text)| == |text| && forall b :: b in Ascii(text) ==> b < 0x80
  {
    if text == "" then [] else [text[0] as int as Byte] + Ascii(text[1..])
  }

  predicate Continuation(b: Byte) {
    0x80 <= b <= 0xBF
  }

  /** The length of the UTF-8 scalar at the head of the bytes, 0 if there is none (the table of
      well-formed byte sequences of the Unicode Standard, section 3.9). */
  function ScalarLength(s: seq<Byte>): (n: nat)
    ensures n <= |s|
  {
    if s == [] then 0
    else if s[0] < 0x80 then 1
    else if |s| < 2 || !Continuation(s[1]) then 0
    else if 0xC2 <= s[0] <= 0xDF then 2
    else if |s| < 3 || !Continuation(s[2]) then 0
    else if s[0] == 0xE0 then if s[1] >= 0xA0 then 3 else 0
    else if s[0] == 0xED then if s[1] <= 0x9F then 3 else 0
    else if 0xE1 <= s[0] <= 0xEF then 3
    else if |s| < 4 || !Continuation(s[3]) then 0
    else if s[0] == 0xF0 then if s[1] >= 0x90 then 4 else 0
    else if 0xF1 <= s[0] <= 0xF3 then 4
    else if s[0] == 0xF4 then if s[1] <= 0x8F then 4 else 0
    else 0
  }

  predicate ValidUtf8(s: seq<Byte>)
    decreases |s|
  {
    s == [] || (ScalarLength(s) > 0 && ValidUtf8(s[ScalarLength(s)..]))
  }

  lemma {:induction false} AsciiIsUtf8(s: seq<Byte>)
    requires forall b :: b in s ==> b < 0x80
    ensures ValidUtf8(s)
  {
    if s != [] {
      assert s[0] in s && ScalarLength(s) == 1;
      assert forall b :: b in s[1..] ==> b in s;
      AsciiIsUtf8(s[1..]);
    }
  }
}
