/** Percent encoding of URIs (src/semantic.rs). */
module Percent {
  import opened Order
  import opened Bytes

  const PERCENT: Byte := 37
  const PLUS: Byte := 43

  predicate Digit(b: Byte) { 48 <= b <= 57 }

  predicate Unreserved(b: Byte) {
    Digit(b) || 65 <= b <= 90 || 97 <= b <= 122 || b in [47, 58, 45, 95, 46, 126]
  }

  function UpperHex(n: nat): Byte
    requires n < 16
  {
    if n < 10 then (48 + n) as Byte else (55 + n) as Byte
  }

  function EncodeByte(b: Byte): seq<Byte> {
    if Unreserved(b) then [b] else [PERCENT, UpperHex(b as nat / 16), UpperHex(b as nat % 16)]
  }

  function Encode(bytes: seq<Byte>): seq<Byte> {
    if bytes == [] then [] else EncodeByte(bytes[0]) + Encode(bytes[1..])
  }

  function HexValue(b: Byte): (v: Option<nat>)
    ensures v.Some? ==> v.value < 16
  {
    if Digit(b) then Some(b as nat - 48)
    else if 65 <= b <= 70 then Some(b as nat - 55)
    else if 97 <= b <= 102 then Some(b as nat - 87)
    else None
  }

  /** `u8::from_str_radix` on two characters in base 16: a leading plus sign is allowed. */
  function HexPair(x: Byte, y: Byte): Option<Byte> {
    match (HexValue(x), HexValue(y))
    case (Some(high), Some(low)) => Some((16 * high + low) as Byte)
    case (None, Some(low)) => if x == PLUS then Some(low as Byte) else None
    case (_, None) => None
  }

  function Prepend(front: seq<Byte>, rest: Option<seq<Byte>>): Option<seq<Byte>> {
    match rest case Some(bytes) => Some(front + bytes) case None => None
  }

  function Decode(text: seq<Byte>): Option<seq<Byte>>
    decreases |text|
  {
    if text == [] then Some([])
    else if text[0] != PERCENT then Prepend([text[0]], Decode(text[1..]))
    else if |text| < 3 then None
    else match HexPair(text[1], text[2])
      case None => None
      case Some(b) => Prepend([b], Decode(text[3..]))
  }

  lemma PrependTwice(a: seq<Byte>, b: seq<Byte>, rest: Option<seq<Byte>>)
    ensures Prepend(a, Prepend(b, rest)) == Prepend(a + b, rest) && Prepend([], rest) == rest
  {
    if rest.Some? {
      assert a + (b + rest.value) == a + b + rest.value && [] + rest.value == rest.value;
    }
  }

  /** The decoding loop, which also demands that the bytes be text. */
  method PercentDecode(text: seq<Byte>) returns (decoded: Option<seq<Byte>>)
    ensures decoded == match Decode(text)
                       case Some(bytes) => if ValidUtf8(bytes) then Some(bytes) else None
                       case None => None
  {
    var bytes: seq<Byte> := [];
    var index := 0;
    PrependTwice([], [], Decode(text));
    assert text[0..] == text;
    while index < |text|
      invariant 0 <= index <= |text|
      invariant Decode(text) == Prepend(bytes, Decode(text[index..]))
    {
      ghost var rest := text[index..];
      if text[index] == PERCENT {
        if |text| < index + 3 {
          return None;
        }
        var b := HexPair(text[index + 1], text[index + 2]);
        if b.None? {
          return None;
        }
        assert rest[3..] == text[index + 3..];
        PrependTwice(bytes, [b.value], Decode(rest[3..]));
        bytes := bytes + [b.value];
        index := index + 3;
      } else {
        assert rest[1..] == text[index + 1..];
        PrependTwice(bytes, [text[index]], Decode(rest[1..]));
        bytes := bytes + [text[index]];
        index := index + 1;
      }
    }
    assert bytes + [] == bytes;
    return if ValidUtf8(bytes) then Some(bytes) else None;
  }

  lemma HexPairOf(b: Byte)
    ensures HexPair(UpperHex(b as nat / 16), UpperHex(b as nat % 16)) == Some(b)
  {
  }

  lemma DecodeHead(b: Byte, rest: seq<Byte>)
    ensures Decode(EncodeByte(b) + rest) == Prepend([b], Decode(rest))
  {
    HexPairOf(b);
    var text := EncodeByte(b) + rest;
    assert text[|EncodeByte(b)|..] == rest;
  }

  /** Decoding undoes encoding, for every byte string. */
  lemma {:induction false} DecodeEncode(bytes: seq<Byte>)
    ensures Decode(Encode(bytes)) == Some(bytes)
  {
    if bytes != [] {
      DecodeEncode(bytes[1..]);
      DecodeHead(bytes[0], Encode(bytes[1..]));
      assert bytes == [bytes[0]] + bytes[1..];
    }
  }

  /** Encoded text is built from unreserved characters and escapes only, so it needs no quoting. */
  lemma {:induction false} EncodedAlphabet(bytes: seq<Byte>)
    ensures forall b :: b in Encode(bytes) ==> Unreserved(b) || b == PERCENT
  {
    if bytes != [] {
      EncodedAlphabet(bytes[1..]);
    }
  }

  const HEX_DIGITS: string := "0123456789ABCDEF"

  predicate StandsForItself(c: char) {
    'A' <= c <= 'Z' || 'a' <= c <= 'z' || '0' <= c <= '9' || c in {'/', ':', '-', '_', '.', '~'}
  }

  /** Letters, digits and `/ : - _ . ~` stand for themselves, so a path keeps its separators; every other byte is a
      percent sign and two upper-case hexadecimal digits. */
  lemma ByteEncoded(b: Byte)
    ensures Encode([b]) == if StandsForItself(b as int as char) then [b]
                           else [PERCENT, HEX_DIGITS[b as nat / 16] as int as Byte, HEX_DIGITS[b as nat % 16] as int as Byte]
  {
    assert Encode([b]) == EncodeByte(b);
  }

  lemma {:induction false} EncodeConcat(a: seq<Byte>, b: seq<Byte>)
    ensures Encode(a + b) == Encode(a) + Encode(b)
  {
    if a == [] {
      assert a + b == b;
    } else {
      assert (a + b)[1..] == a[1..] + b;
      EncodeConcat(a[1..], b);
    }
  }

  // ----- Which texts are decoded -----

  const LOWER_HEX_DIGITS: string := "0123456789abcdef"

  predicate IsHex(b: Byte) {
    var c := b as int as char;
    '0' <= c <= '9' || 'A' <= c <= 'F' || 'a' <= c <= 'f'
  }

  /** A hexadecimal digit has its place among the sixteen as its value, in either case of letters; nothing else is one. */
  lemma HexMeans(b: Byte)
    ensures HexValue(b).Some? <==> IsHex(b)
    ensures IsHex(b) ==> b as int as char in {HEX_DIGITS[HexValue(b).value], LOWER_HEX_DIGITS[HexValue(b).value]}
  {
  }

  /** Two characters follow the percent sign at `i`, as far as the decoder cares: a sign may stand for the first. */
  predicate EscapeAccepted(text: seq<Byte>, i: nat)
    requires i < |text|
  {
    i + 2 < |text| && (IsHex(text[i + 1]) || text[i + 1] == PLUS) && IsHex(text[i + 2])
  }

  /** `pct-encoded` of RFC 3986, section 2.1. */
  predicate EscapeWellFormed(text: seq<Byte>, i: nat)
    requires i < |text|
  {
    i + 2 < |text| && IsHex(text[i + 1]) && IsHex(text[i + 2])
  }

  ghost predicate Accepted(text: seq<Byte>) {
    forall i :: 0 <= i < |text| && text[i] == PERCENT ==> EscapeAccepted(text, i)
  }

  ghost predicate WellFormed(text: seq<Byte>) {
    forall i :: 0 <= i < |text| && text[i] == PERCENT ==> EscapeWellFormed(text, i)
  }

  /** The text contains `%+`. */
  ghost predicate HasSignedEscape(text: seq<Byte>) {
    exists i :: 0 <= i < |text| - 1 && text[i] == PERCENT && text[i + 1] == PLUS
  }

  lemma AcceptedTail(text: seq<Byte>, k: nat)
    requires k <= |text| && forall i :: 0 <= i < k ==> text[i] != PERCENT || (i == 0 && EscapeAccepted(text, 0))
    ensures Accepted(text) <==> Accepted(text[k..])
  {
    var tail := text[k..];
    forall i | k <= i < |text| ensures text[i] == tail[i - k] && (EscapeAccepted(text, i) <==> EscapeAccepted(tail, i - k)) {
    }
    if Accepted(text) {
      forall j | 0 <= j < |tail| && tail[j] == PERCENT ensures EscapeAccepted(tail, j) {
        assert text[j + k] == PERCENT;
      }
    }
  }

  /** Text is decoded exactly when every percent sign begins an escape the decoder accepts. */
  lemma {:induction false} DecodedIff(text: seq<Byte>)
    ensures Decode(text).Some? <==> Accepted(text)
    decreases |text|
  {
    if text != [] {
      if text[0] != PERCENT {
        DecodedIff(text[1..]);
        AcceptedTail(text, 1);
      } else if EscapeAccepted(text, 0) {
        assert text[1] != PERCENT && text[2] != PERCENT;
        DecodedIff(text[3..]);
        AcceptedTail(text, 3);
      } else {
        assert !Accepted(text);
      }
    }
  }

  /** The decoder demands no more than RFC 3986 does, and exactly `%+` is where it demands less: a text is
      well-formed if and only if it is decoded and contains no `%+`. */
  lemma {:induction false} WellFormedIff(text: seq<Byte>)
    ensures WellFormed(text) <==> Decode(text).Some? && !HasSignedEscape(text)
  {
    DecodedIff(text);
    if WellFormed(text) {
      forall i | 0 <= i < |text| && text[i] == PERCENT ensures EscapeAccepted(text, i) && text[i + 1] != PLUS {
        assert EscapeWellFormed(text, i);
      }
    } else if Accepted(text) {
      var i :| 0 <= i < |text| && text[i] == PERCENT && !EscapeWellFormed(text, i);
      assert EscapeAccepted(text, i);
    }
  }

  /** The text with a zero for the plus sign of every `%+`. */
  function Unsigned(text: seq<Byte>): seq<Byte> {
    seq(|text|, i requires 0 <= i < |text| =>
      if i > 0 && text[i - 1] == PERCENT && text[i] == PLUS then 48 else text[i])
  }

  /** A plus sign after a percent sign is read as a zero digit, on every text: what the decoder accepts
      beyond RFC 3986 it decodes like the well-formed text with zeros instead. */
  lemma {:induction false} SignReadAsZero(text: seq<Byte>)
    ensures Decode(Unsigned(text)) == Decode(text)
    ensures Decode(text).Some? ==> WellFormed(Unsigned(text))
    decreases |text|
  {
    DecodedIff(text);
    DecodedIff(Unsigned(text));
    if Decode(text).Some? {
      forall i | 0 <= i < |text| && Unsigned(text)[i] == PERCENT ensures EscapeWellFormed(Unsigned(text), i) {
        assert EscapeAccepted(text, i);
      }
    }
    if text != [] {
      if text[0] != PERCENT {
        assert Unsigned(text)[1..] == Unsigned(text[1..]);
        SignReadAsZero(text[1..]);
      } else if EscapeAccepted(text, 0) {
        assert Unsigned(text)[3..] == Unsigned(text[3..]);
        SignReadAsZero(text[3..]);
      }
    }
  }
}

/** Content-Length framing of the language server protocol (LSP 3.17, Base Protocol, Header Part). */
module Framing {
  import opened Order
  import opened Bytes
  import opened Percent

  const LF: Byte := 10
  const CRLF: seq<Byte> := [13, 10]
  const USIZE: nat := 0x1_0000_0000_0000_0000

  /** "Content-Length:" */
  const NAME: seq<Byte> := [67, 111, 110, 116, 101, 110, 116, 45, 76, 101, 110, 103, 116, 104, 58]

  // ----- Numbers -----

  function Decimal(n: nat): seq<Byte> {
    if n < 10 then [(48 + n) as Byte] else Decimal(n / 10) + [(48 + n % 10) as Byte]
  }

  function Value(digits: seq<Byte>): nat
    requires forall d :: d in digits ==> Digit(d)
  {
    if digits == [] then 0
    else
      var last := digits[|digits| - 1];
      assert last in digits && Digit(last) && forall d :: d in digits[..|digits| - 1] ==> d in digits;
      10 * Value(digits[..|digits| - 1]) + (last as nat - 48)
  }

  /** `str::parse::<usize>`: decimal digits, optionally after a plus sign, that fit 64 bits. */
  function ParseUsize(text: seq<Byte>): Option<nat> {
    var digits := if text != [] && text[0] == PLUS then text[1..] else text;
    if digits == [] || !(forall d :: d in digits ==> Digit(d)) then None
    else if Value(digits) >= USIZE then None
    else Some(Value(digits))
  }

  lemma {:induction false} DecimalValue(n: nat)
    ensures Decimal(n) != [] && (forall d :: d in Decimal(n) ==> Digit(d))
    ensures Value(Decimal(n)) == n
  {
    if n >= 10 {
      DecimalValue(n / 10);
      var text := Decimal(n);
      assert text[..|text| - 1] == Decimal(n / 10);
    } else {
      assert Decimal(n)[..0] == [];
    }
  }

  predicate Space(b: Byte) {
    b == 32 || 9 <= b <= 13
  }

  function Trim(text: seq<Byte>): seq<Byte>
    decreases |text|
  {
    if text == [] then []
    else if Space(text[0]) then Trim(text[1..])
    else if Space(text[|text| - 1]) then Trim(text[..|text| - 1])
    else text
  }

  // ----- Reading -----

  datatype Outcome = EndOfStream | Message(body: seq<Byte>) | Failed

  function IndexOfLf(s: seq<Byte>): (n: nat)
    ensures n <= |s| && LF !in s[..n] && (n < |s| ==> s[n] == LF)
  {
    if s == [] || s[0] == LF then 0 else 1 + IndexOfLf(s[1..])
  }

  /** `read_line`: up to and including the next line feed, or everything. */
  function LineLength(s: seq<Byte>): (n: nat)
    ensures n <= |s| && (s != [] ==> n > 0)
  {
    if IndexOfLf(s) < |s| then IndexOfLf(s) + 1 else |s|
  }

  function HeaderLength(line: seq<Byte>): Option<nat> {
    if |line| >= |NAME| && line[..|NAME|] == NAME then ParseUsize(Trim(line[|NAME|..])) else None
  }

  /** One message from the unread bytes, given the length announced so far; with it, what remains. */
  function Read(s: seq<Byte>, length: Option<nat>): (r: (Outcome, seq<Byte>))
    ensures r.0.Message? ==> |r.1| < |s|
    decreases |s|
  {
    if s == [] then (EndOfStream, [])
    else
      var line, rest := s[..LineLength(s)], s[LineLength(s)..];
      if !ValidUtf8(line) then (Failed, rest)
      else if line == CRLF || line == [LF] then
        if length.None? || length.value > |rest| then (Failed, rest)
        else (Message(rest[..length.value]), rest[length.value..])
      else Read(rest, if HeaderLength(line).Some? then HeaderLength(line) else length)
  }

  function ReadAll(s: seq<Byte>): (seq<seq<Byte>>, Outcome)
    decreases |s|
  {
    var r := Read(s, None);
    if r.0.Message? then
      var more := ReadAll(r.1);
      ([r.0.body] + more.0, more.1)
    else ([], r.0)
  }

  function Header(body: seq<Byte>): seq<Byte> {
    NAME + [32] + Decimal(|body|) + CRLF
  }

  function Frame(body: seq<Byte>): seq<Byte> {
    Header(body) + CRLF + body
  }

  /** The characters of the bytes, all of them ASCII. */
  function AsText(bytes: seq<Byte>): string {
    seq(|bytes|, i requires 0 <= i < |bytes| => bytes[i] as int as char)
  }

  /** A frame spells the name of the length header, the body's length in decimal digits, a blank line and the body. */
  lemma FrameMeans(body: seq<Byte>)
    ensures AsText(NAME) == "Content-Length:" && AsText(CRLF) == "\r\n"
    ensures Frame(body) == NAME + [32] + Decimal(|body|) + CRLF + CRLF + body
    ensures (forall d :: d in Decimal(|body|) ==> '0' <= d as int as char <= '9') && Value(Decimal(|body|)) == |body|
  {
    DecimalValue(|body|);
  }

  /** White space is a space, a tab, a line end or a vertical or page feed. */
  lemma SpaceMeans(b: Byte)
    ensures Space(b) <==> b as int as char in {' ', '\t', '\n', '\r', '\U{000B}', '\U{000C}'}
  {
  }

  lemma Reassociate(a: seq<Byte>, b: seq<Byte>, c: seq<Byte>, d: seq<Byte>)
    ensures a + b + c + d == a + (b + c + d)
  {
  }

  function Frames(bodies: seq<seq<Byte>>): seq<Byte> {
    if bodies == [] then [] else Frame(bodies[0]) + Frames(bodies[1..])
  }

  /** A byte stream: `Send` writes at its end, the reader takes from its front. */
  class Transport {
    var unread: seq<Byte>

    constructor ()
      ensures unread == []
    {
      unread := [];
    }

    method Send(body: seq<Byte>)
      modifies this
      ensures unread == old(unread) + Frame(body)
    {
      unread := unread + Header(body) + CRLF;
      unread := unread + body;
      Reassociate(old(unread), Header(body), CRLF, body);
    }

    method ReadLine() returns (line: seq<Byte>)
      modifies this
      ensures line == old(unread)[..LineLength(old(unread))]
      ensures unread == old(unread)[LineLength(old(unread))..]
    {
      line := unread[..LineLength(unread)];
      unread := unread[LineLength(unread)..];
    }

    method ReadMessage() returns (outcome: Outcome)
      modifies this
      ensures outcome == Read(old(unread), None).0
      ensures outcome.Message? ==> unread == Read(old(unread), None).1
    {
      var length: Option<nat> := None;
      while true
        invariant Read(unread, length) == Read(old(unread), None)
        decreases |unread|
      {
        if unread == [] {
          return EndOfStream;
        }
        var header := ReadLine();
        if !ValidUtf8(header) {
          return Failed;
        }
        if header == CRLF || header == [LF] {
          break;
        }
        if HeaderLength(header).Some? {
          length := HeaderLength(header);
        }
      }
      if length.None? || length.value > |unread| {
        return Failed;
      }
      outcome := Message(unread[..length.value]);
      unread := unread[length.value..];
    }
  }

  // ----- Round trip -----

  /** A header line that announces no length: a whole line, not blank, of text. */
  ghost predicate OtherHeader(line: seq<Byte>) {
    && |line| > 0 && LineLength(line) == |line| && line[|line| - 1] == LF
    && ValidUtf8(line) && line != CRLF && line != [LF]
    && HeaderLength(line).None?
  }

  function Lines(lines: seq<seq<Byte>>): seq<Byte> {
    if lines == [] then [] else lines[0] + Lines(lines[1..])
  }

  lemma {:induction false} LfIndex(line: seq<Byte>, rest: seq<Byte>)
    requires IndexOfLf(line) < |line|
    ensures IndexOfLf(line + rest) == IndexOfLf(line)
  {
    if line[0] != LF {
      assert (line + rest)[1..] == line[1..] + rest;
      LfIndex(line[1..], rest);
    }
  }

  lemma TakeLine(line: seq<Byte>, rest: seq<Byte>)
    requires line != [] && LineLength(line) == |line| && line[|line| - 1] == LF
    ensures LineLength(line + rest) == |line|
    ensures (line + rest)[..|line|] == line && (line + rest)[|line|..] == rest
  {
    assert LF in line && line[..|line|] == line;
    LfIndex(line, rest);
  }

  lemma OtherSkipped(line: seq<Byte>, more: seq<Byte>, length: Option<nat>)
    requires OtherHeader(line)
    ensures Read(line + more, length) == Read(more, length)
  {
    TakeLine(line, more);
  }

  lemma LinesThen(lines: seq<seq<Byte>>, rest: seq<Byte>)
    requires lines != []
    ensures Lines(lines) + rest == lines[0] + (Lines(lines[1..]) + rest)
  {
    var a, b := lines[0], Lines(lines[1..]);
    assert (a + b) + rest == a + (b + rest);
  }

  lemma {:induction false} OthersSkipped(lines: seq<seq<Byte>>, rest: seq<Byte>, length: Option<nat>)
    requires forall l :: l in lines ==> OtherHeader(l)
    ensures Read(Lines(lines) + rest, length) == Read(rest, length)
  {
    if lines == [] {
      assert Lines(lines) + rest == rest;
    } else {
      var line, more := lines[0], Lines(lines[1..]) + rest;
      assert line in lines && forall l :: l in lines[1..] ==> l in lines;
      OthersSkipped(lines[1..], rest, length);
      OtherSkipped(line, more, length);
      LinesThen(lines, rest);
    }
  }

  lemma {:induction false} NoLfThen(s: seq<Byte>)
    requires LF !in s
    ensures IndexOfLf(s + [LF]) == |s|
  {
    if s != [] {
      assert s[0] in s && (s + [LF])[1..] == s[1..] + [LF];
      NoLfThen(s[1..]);
    }
  }

  lemma TrimFront(space: Byte, text: seq<Byte>)
    requires Space(space)
    ensures Trim([space] + text) == Trim(text)
  {
    assert ([space] + text)[1..] == text;
  }

  lemma TrimBack(text: seq<Byte>, space: Byte)
    requires Space(space) && text != [] && !Space(text[0])
    ensures Trim(text + [space]) == Trim(text)
  {
    assert (text + [space])[..|text|] == text;
  }

  /** The blank, the digits and the line end that follow the header name are trimmed to the digits. */
  lemma TrimDecimal(n: nat)
    ensures Trim([32] + Decimal(n) + CRLF) == Decimal(n)
  {
    DecimalValue(n);
    var digits := Decimal(n);
    assert digits[0] in digits && digits[|digits| - 1] in digits;
    assert [32] + digits + CRLF == [32] + (digits + CRLF) && digits + CRLF == digits + [13] + [10];
    TrimFront(32, digits + CRLF);
    TrimBack(digits + [13], 10);
    TrimBack(digits, 13);
  }

  lemma HeaderText(n: nat)
    ensures var front := NAME + [32] + Decimal(n) + [13];
            LF !in front && forall b :: b in front ==> b < 0x80
  {
    DecimalValue(n);
    forall b | b in Decimal(n) ensures b != LF && b < 0x80 {
      assert Digit(b);
    }
  }

  lemma HeaderLine(body: seq<Byte>)
    ensures LineLength(Header(body)) == |Header(body)| && ValidUtf8(Header(body))
  {
    var front := NAME + [32] + Decimal(|body|) + [13];
    HeaderText(|body|);
    assert Header(body) == front + [LF];
    NoLfThen(front);
    AsciiIsUtf8(front + [LF]);
  }

  lemma HeaderParsed(body: seq<Byte>)
    requires |body| < USIZE
    ensures HeaderLength(Header(body)) == Some(|body|)
  {
    var value := [32] + Decimal(|body|) + CRLF;
    DecimalValue(|body|);
    TrimDecimal(|body|);
    assert Header(body) == NAME + value;
    assert Header(body)[..|NAME|] == NAME && Header(body)[|NAME|..] == value;
    assert Decimal(|body|)[0] in Decimal(|body|);
  }

  lemma HeaderRead(body: seq<Byte>, more: seq<Byte>, length: Option<nat>)
    requires |body| < USIZE
    ensures Read(Header(body) + more, length) == Read(more, Some(|body|))
  {
    HeaderLine(body);
    HeaderParsed(body);
    assert |Header(body)| > 2;
    assert Header(body)[|Header(body)| - 1] == LF;
    TakeLine(Header(body), more);
  }

  /** One framed message, among any other header lines and before any further bytes, is read back
      and leaves exactly the further bytes. */
  lemma ReadFramed(before: seq<seq<Byte>>, after: seq<seq<Byte>>, body: seq<Byte>, rest: seq<Byte>)
    requires |body| < USIZE
    requires (forall l :: l in before ==> OtherHeader(l)) && forall l :: l in after ==> OtherHeader(l)
    ensures Read(Lines(before) + (Header(body) + (Lines(after) + (CRLF + (body + rest)))), None) == (Message(body), rest)
  {
    var blank := CRLF + (body + rest);
    var trailing := Lines(after) + blank;
    TakeBlank(body, rest);
    OthersSkipped(after, blank, Some(|body|));
    HeaderRead(body, trailing, None);
    OthersSkipped(before, Header(body) + trailing, None);
  }

  lemma ReadFrame(body: seq<Byte>, rest: seq<Byte>)
    requires |body| < USIZE
    ensures Read(Frame(body) + rest, None) == (Message(body), rest)
  {
    TakeBlank(body, rest);
    HeaderRead(body, CRLF + (body + rest), None);
    FrameThen(body, rest);
  }

  lemma FrameThen(body: seq<Byte>, rest: seq<Byte>)
    ensures Frame(body) + rest == Header(body) + (CRLF + (body + rest))
  {
    Regroup(Header(body), CRLF, body, rest);
  }

  lemma Regroup(a: seq<Byte>, b: seq<Byte>, c: seq<Byte>, d: seq<Byte>)
    ensures (a + b + c) + d == a + (b + (c + d))
  {
  }

  lemma TakeBlank(body: seq<Byte>, rest: seq<Byte>)
    ensures Read(CRLF + (body + rest), Some(|body|)) == (Message(body), rest)
  {
    var tail := body + rest;
    assert CRLF[1..] == [LF] && CRLF == [13] + [LF];
    NoLfThen([13]);
    TakeLine(CRLF, tail);
    assert forall b :: b in CRLF ==> b < 0x80;
    AsciiIsUtf8(CRLF);
    assert tail[..|body|] == body && tail[|body|..] == rest;
  }

  /** Reading the concatenation of any frames returns exactly the bodies, then the end of stream. */
  lemma {:induction false} FramesRoundTrip(bodies: seq<seq<Byte>>)
    requires forall b :: b in bodies ==> |b| < USIZE
    ensures ReadAll(Frames(bodies)) == (bodies, EndOfStream)
  {
    if bodies != [] {
      var body, rest := bodies[0], Frames(bodies[1..]);
      assert body in bodies && forall b :: b in bodies[1..] ==> b in bodies;
      FramesRoundTrip(bodies[1..]);
      FirstFrame(body, rest, bodies[1..]);
      assert bodies == [body] + bodies[1..];
    }
  }

  lemma {:induction false} FirstFrame(body: seq<Byte>, rest: seq<Byte>, bodies: seq<seq<Byte>>)
    requires |body| < USIZE && ReadAll(rest) == (bodies, EndOfStream)
    ensures ReadAll(Frame(body) + rest) == ([body] + bodies, EndOfStream)
  {
    ReadFrame(body, rest);
  }
}
