/** The 64-bit FNV-1a loop and the quality-input fingerprint built on it (src/util.rs). */
module Fingerprint {
  import opened Order

  const MODULUS: nat := 0x1_0000_0000_0000_0000
  const PRIME: nat := 1099511628211
  /** The inverse of PRIME modulo 2^64; it exists because PRIME is odd. */
  const INVERSE: nat := 14886173955864302971
  /** PRIME * INVERSE == 1 + MODULUS * QUOTIENT */
  const QUOTIENT: nat := PRIME * INVERSE / MODULUS

  import opened Bytes
  type State = h: nat | h < MODULUS

  // ----- Exclusive or, bit by bit -----

  function Xor(x: nat, y: nat): nat
    decreases x + y
  {
    if x == 0 && y == 0 then 0 else (x % 2 + y % 2) % 2 + 2 * Xor(x / 2, y / 2)
  }

  function Pow2(n: nat): nat {
    if n == 0 then 1 else 2 * Pow2(n - 1)
  }

  lemma {:induction false} XorBelow(x: nat, y: nat, n: nat)
    requires x < Pow2(n) && y < Pow2(n)
    ensures Xor(x, y) < Pow2(n)
    decreases n
  {
    if n > 0 {
      XorBelow(x / 2, y / 2, n - 1);
    }
  }

  lemma {:induction false} XorUndo(x: nat, y: nat)
    ensures Xor(Xor(x, y), y) == x
    decreases x + y
  {
    if x > 0 || y > 0 {
      var low, high := (x % 2 + y % 2) % 2, Xor(x / 2, y / 2);
      assert Xor(x, y) == low + 2 * high;
      XorUndo(x / 2, y / 2);
      XorDigit(low, high, y);
      BitUndo(x % 2, y % 2);
      assert Xor(Xor(x, y), y) == x % 2 + 2 * (x / 2);
    }
  }

  lemma BitUndo(a: nat, b: nat)
    requires a < 2 && b < 2
    ensures ((a + b) % 2 + b) % 2 == a
  {
  }

  lemma XorDigit(low: nat, high: nat, y: nat)
    requires low < 2
    ensures Xor(low + 2 * high, y) == (low + y % 2) % 2 + 2 * Xor(high, y / 2)
  {
    var x := low + 2 * high;
    assert x / 2 == high && x % 2 == low;
    if x == 0 && y == 0 {
      assert Xor(0, 0) == 0;
    }
  }

  lemma {:induction false} XorCommutes(x: nat, y: nat)
    ensures Xor(x, y) == Xor(y, x)
    decreases x + y
  {
    if x > 0 || y > 0 {
      XorCommutes(x / 2, y / 2);
    }
  }

  lemma ModulusIsPower()
    ensures Pow2(64) == MODULUS
  {
    assert Pow2(8) == 0x100;
    assert Pow2(16) == 0x1_0000;
    assert Pow2(24) == 0x100_0000;
    assert Pow2(32) == 0x1_0000_0000;
    assert Pow2(40) == 0x100_0000_0000;
    assert Pow2(48) == 0x1_0000_0000_0000;
    assert Pow2(56) == 0x100_0000_0000_0000;
  }

  function XorByte(h: State, b: Byte): State {
    ModulusIsPower();
    XorBelow(h, b as nat, 64);
    Xor(h, b as nat)
  }

  // ----- One step and its inverse -----

  function Step(h: State, b: Byte): State {
    XorByte(h, b) * PRIME % MODULUS
  }

  function Unstep(h: State, b: Byte): State {
    XorByte(h * INVERSE % MODULUS, b)
  }

  lemma MulAtLeast(m: int, w: int)
    requires m > 0 && w >= 1
    ensures m * w >= m
  {
    assert m * (w - 1) >= 0;
  }

  lemma SmallMultiple(e: int, m: int, w: int)
    requires 0 < m && e == m * w && -m < e < m
    ensures w == 0
  {
    if w >= 1 {
      MulAtLeast(m, w);
    } else if w <= -1 {
      MulAtLeast(m, -w);
    }
  }

  lemma ModShift(x: int, y: int, z: int, m: int)
    requires 0 <= x < m && y == x + m * z
    ensures y % m == x
  {
    var d, r := y / m, y % m;
    assert y == m * d + r;
    assert x - r == m * (d - z);
    SmallMultiple(x - r, m, d - z);
  }

  lemma MulCancels(x: int, a: int, b: int, q: int, m: int)
    requires 0 <= x < m && a * b == 1 + m * q
    ensures (x * a % m) * b % m == x
  {
    var y, k := x * a % m, x * a / m;
    calc {
      y * b;
      (x * a - m * k) * b;
      x * (a * b) - m * (k * b);
      x * (1 + m * q) - m * (k * b);
      x + m * (x * q - k * b);
    }
    ModShift(x, y * b, x * q - k * b, m);
  }

  lemma TimesInverse(x: State)
    ensures (x * PRIME % MODULUS) * INVERSE % MODULUS == x
    ensures (x * INVERSE % MODULUS) * PRIME % MODULUS == x
  {
    assert PRIME * INVERSE == 1 + MODULUS * QUOTIENT;
    MulCancels(x, PRIME, INVERSE, QUOTIENT, MODULUS);
    MulCancels(x, INVERSE, PRIME, QUOTIENT, MODULUS);
  }

  /** Every step is a bijection of the 64-bit state. */
  lemma StepInverse(h: State, b: Byte)
    ensures Unstep(Step(h, b), b) == h && Step(Unstep(h, b), b) == h
  {
    TimesInverse(XorByte(h, b));
    TimesInverse(h);
    XorUndo(h, b as nat);
    XorUndo(h * INVERSE % MODULUS, b as nat);
  }

  // ----- The loop -----

  function Fnv(h: State, bytes: seq<Byte>): State {
    if bytes == [] then h else Step(Fnv(h, bytes[..|bytes| - 1]), bytes[|bytes| - 1])
  }

  method Fnv1a(start: State, bytes: seq<Byte>) returns (hash: State)
    ensures hash == Fnv(start, bytes)
  {
    hash := start;
    for i := 0 to |bytes|
      invariant hash == Fnv(start, bytes[..i])
    {
      assert bytes[..i + 1][..i] == bytes[..i];
      var mixed: nat := XorByte(hash, bytes[i]);
      hash := mixed * PRIME % MODULUS;
    }
    assert bytes[..|bytes|] == bytes;
  }

  /** Hashing a concatenation is hashing its parts in turn. */
  lemma {:induction false} FnvConcat(h: State, a: seq<Byte>, b: seq<Byte>)
    ensures Fnv(h, a + b) == Fnv(Fnv(h, a), b)
    decreases |b|
  {
    if b == [] {
      assert a + b == a;
    } else {
      assert (a + b)[..|a + b| - 1] == a + b[..|b| - 1];
      FnvConcat(h, a, b[..|b| - 1]);
    }
  }

  function Unfnv(h: State, bytes: seq<Byte>): State
    decreases |bytes|
  {
    if bytes == [] then h else Unfnv(Unstep(h, bytes[|bytes| - 1]), bytes[..|bytes| - 1])
  }

  /** For fixed bytes the loop is a bijection of the state: it can be run backwards. */
  lemma {:induction false} FnvInverse(h: State, bytes: seq<Byte>)
    ensures Unfnv(Fnv(h, bytes), bytes) == h && Fnv(Unfnv(h, bytes), bytes) == h
    decreases |bytes|
  {
    if bytes != [] {
      var front, last := bytes[..|bytes| - 1], bytes[|bytes| - 1];
      StepInverse(Fnv(h, front), last);
      FnvInverse(h, front);
      StepInverse(h, last);
      FnvInverse(Unstep(h, last), front);
    }
  }

  lemma StepSeparatesBytes(h: State, b: Byte, c: Byte)
    requires b != c
    ensures Step(h, b) != Step(h, c)
  {
    TimesInverse(XorByte(h, b));
    TimesInverse(XorByte(h, c));
    XorCommutes(h, b as nat);
    XorCommutes(h, c as nat);
    XorUndo(b as nat, h);
    XorUndo(c as nat, h);
  }

  /** Changing exactly one byte changes the hash, wherever the byte is. */
  lemma OneByteChangesHash(h: State, a: seq<Byte>, b: Byte, c: Byte, rest: seq<Byte>)
    requires b != c
    ensures Fnv(h, a + [b] + rest) != Fnv(h, a + [c] + rest)
  {
    var mid := Fnv(h, a);
    OneStep(h, a, b);
    OneStep(h, a, c);
    StepSeparatesBytes(mid, b, c);
    FnvConcat(h, a + [b], rest);
    FnvConcat(h, a + [c], rest);
    FnvInverse(Fnv(h, a + [b]), rest);
    FnvInverse(Fnv(h, a + [c]), rest);
  }

  lemma OneStep(h: State, a: seq<Byte>, b: Byte)
    ensures Fnv(h, a + [b]) == Step(Fnv(h, a), b)
  {
    assert (a + [b])[..|a|] == a;
  }

  // ----- The digest text -----

  function HexDigit(n: nat): char
    requires n < 16
  {
    if n < 10 then '0' + n as char else 'a' + (n - 10) as char
  }

  /** `{:0width$x}` of a value that fits the width. */
  function Hex(h: nat, width: nat): string {
    if width == 0 then "" else Hex(h / 16, width - 1) + [HexDigit(h % 16)]
  }

  function FromHex(text: string): nat {
    if text == "" then 0
    else
      var last := text[|text| - 1];
      16 * FromHex(text[..|text| - 1])
      + if '0' <= last <= '9' then last as nat - '0' as nat
        else if 'a' <= last <= 'f' then last as nat - 'a' as nat + 10
        else 0
  }

  lemma {:induction false} HexShape(h: nat, width: nat)
    ensures |Hex(h, width)| == width && forall c :: c in Hex(h, width) ==> '0' <= c <= '9' || 'a' <= c <= 'f'
  {
    if width > 0 { HexShape(h / 16, width - 1); }
  }

  /** The digits are those of the value, the most significant first. */
  lemma {:induction false} HexReads(h: nat, width: nat)
    requires h < Pow2(4 * width)
    ensures FromHex(Hex(h, width)) == h
  {
    if width > 0 {
      FourBits(4 * (width - 1));
      HexReads(h / 16, width - 1);
      LastDigit(Hex(h / 16, width - 1), h % 16);
    }
  }

  lemma FourBits(e: nat)
    ensures Pow2(e + 4) == 16 * Pow2(e)
  {
    assert Pow2(e + 4) == 2 * Pow2(e + 3) && Pow2(e + 3) == 2 * Pow2(e + 2);
    assert Pow2(e + 2) == 2 * Pow2(e + 1) && Pow2(e + 1) == 2 * Pow2(e);
  }

  lemma LastDigit(front: string, n: nat)
    requires n < 16
    ensures FromHex(front + [HexDigit(n)]) == 16 * FromHex(front) + n
  {
    var text := front + [HexDigit(n)];
    assert text[..|text| - 1] == front;
  }

  function Digest(h: State): string {
    Hex(h, 16)
  }

  lemma DigestReads(h: State)
    ensures |Digest(h)| == 16 && FromHex(Digest(h)) == h
    ensures forall c :: c in Digest(h) ==> '0' <= c <= '9' || 'a' <= c <= 'f'
  {
    HexShape(h, 16);
    ModulusIsPower();
    HexReads(h, 16);
  }

  lemma DigestInjective(h: State, k: State)
    requires Digest(h) == Digest(k)
    ensures h == k
  {
    DigestReads(h);
    DigestReads(k);
  }

  // ----- Files -----

  /** A discovered input: its relative path and its bytes, `None` when it cannot be read. */
  datatype File = File(path: seq<Byte>, content: Option<seq<Byte>>)

  datatype Report = Report(digest: string, fileCount: nat, readErrors: seq<seq<Byte>>, complete: bool)

  function FileBytes(f: File): seq<Byte> {
    f.path + [0] + (match f.content case Some(bytes) => bytes case None => []) + [0xff]
  }

  function Stream(files: seq<File>): seq<Byte> {
    if files == [] then [] else Stream(files[..|files| - 1]) + FileBytes(files[|files| - 1])
  }

  function Readable(files: seq<File>): nat {
    if files == [] then 0
    else Readable(files[..|files| - 1]) + if files[|files| - 1].content.Some? then 1 else 0
  }

  function Unreadable(files: seq<File>): seq<seq<Byte>> {
    if files == [] then []
    else
      var last := files[|files| - 1];
      Unreadable(files[..|files| - 1]) + if last.content.None? then [last.path] else []
  }

  method HashFile(start: State, f: File) returns (hash: State)
    ensures hash == Fnv(start, FileBytes(f))
  {
    hash := Fnv1a(start, f.path);
    hash := Fnv1a(hash, [0]);
    FnvConcat(start, f.path, [0]);
    var content := match f.content case Some(bytes) => bytes case None => [];
    hash := Fnv1a(hash, content);
    FnvConcat(start, f.path + [0], content);
    hash := Fnv1a(hash, [0xff]);
    FnvConcat(start, f.path + [0] + content, [0xff]);
  }

  /** The fingerprint loop over the sorted inputs, after the inventory's own read errors. */
  method QualityFingerprint(files: seq<File>, inventoryErrors: seq<seq<Byte>>, basis: State) returns (r: Report)
    ensures r.digest == Digest(Fnv(basis, Stream(files)))
    ensures r.fileCount == Readable(files) && r.readErrors == inventoryErrors + Unreadable(files)
    ensures r.complete <==> inventoryErrors == [] && Unreadable(files) == []
  {
    var hash: State := basis;
    var observed, errors := 0, inventoryErrors;
    for i := 0 to |files|
      invariant hash == Fnv(basis, Stream(files[..i]))
      invariant observed == Readable(files[..i]) && errors == inventoryErrors + Unreadable(files[..i])
    {
      assert files[..i + 1][..i] == files[..i];
      FnvConcat(basis, Stream(files[..i]), FileBytes(files[i]));
      hash := HashFile(hash, files[i]);
      if files[i].content.Some? {
        observed := observed + 1;
      } else {
        errors := errors + [files[i].path];
      }
    }
    assert files[..|files|] == files;
    return Report(Digest(hash), observed, errors, errors == []);
  }

  lemma {:induction false} StreamConcat(a: seq<File>, b: seq<File>)
    ensures Stream(a + b) == Stream(a) + Stream(b)
    decreases |b|
  {
    if b == [] {
      assert a + b == a;
    } else {
      assert (a + b)[..|a + b| - 1] == a + b[..|b| - 1];
      StreamConcat(a, b[..|b| - 1]);
    }
  }

  lemma StreamOne(f: File)
    ensures Stream([f]) == FileBytes(f)
  {
    assert [f][..0] == [];
  }

  lemma StreamThree(a: seq<File>, f: File, c: seq<File>)
    ensures Stream(a + ([f] + c)) == Stream(a) + (FileBytes(f) + Stream(c))
  {
    StreamConcat(a, [f] + c);
    StreamConcat([f], c);
    StreamOne(f);
  }

  lemma StreamAround(files: seq<File>, i: nat)
    requires i < |files|
    ensures Stream(files) == Stream(files[..i]) + (FileBytes(files[i]) + Stream(files[i + 1..]))
  {
    StreamThree(files[..i], files[i], files[i + 1..]);
    Around(files, i);
  }

  lemma Around<T>(s: seq<T>, i: nat)
    requires i < |s|
    ensures s[..i] + ([s[i]] + s[i + 1..]) == s
  {
  }

  lemma OneByteInside(h: State, before: seq<Byte>, pre: seq<Byte>, b: Byte, c: Byte, post: seq<Byte>, after: seq<Byte>)
    requires b != c
    ensures Digest(Fnv(h, before + ((pre + [b] + post) + after))) != Digest(Fnv(h, before + ((pre + [c] + post) + after)))
  {
    OneByteChangesHash(h, before + pre, b, c, post + after);
    assert before + ((pre + [b] + post) + after) == (before + pre) + [b] + (post + after);
    assert before + ((pre + [c] + post) + after) == (before + pre) + [c] + (post + after);
    var x, y := Fnv(h, (before + pre) + [b] + (post + after)), Fnv(h, (before + pre) + [c] + (post + after));
    if Digest(x) == Digest(y) {
      DigestInjective(x, y);
    }
  }

  /** However many files there are, changing one byte of one file's content changes the digest. */
  lemma OneByteChangesDigest(files: seq<File>, i: nat, j: nat, x: Byte, basis: State)
    requires i < |files| && files[i].content.Some? && j < |files[i].content.value|
    requires x != files[i].content.value[j]
    ensures var changed := files[i := files[i].(content := Some(files[i].content.value[j := x]))];
            Digest(Fnv(basis, Stream(files))) != Digest(Fnv(basis, Stream(changed)))
  {
    var content := files[i].content.value;
    var f, g := files[i], files[i].(content := Some(content[j := x]));
    var changed := files[i := g];
    StreamAround(files, i);
    StreamAround(changed, i);
    assert changed[..i] == files[..i] && changed[i + 1..] == files[i + 1..] && changed[i] == g;
    BytesAround(f, content, j);
    BytesAround(g, content[j := x], j);
    assert content[j := x][..j] == content[..j] && content[j := x][j + 1..] == content[j + 1..];
    OneByteInside(basis, Stream(files[..i]), f.path + [0] + content[..j], content[j], x,
                  content[j + 1..] + [0xff], Stream(files[i + 1..]));
  }

  lemma BytesAround(f: File, content: seq<Byte>, j: nat)
    requires f.content == Some(content) && j < |content|
    ensures FileBytes(f) == (f.path + [0] + content[..j]) + [content[j]] + (content[j + 1..] + [0xff])
  {
    assert content == content[..j] + [content[j]] + content[j + 1..];
  }

  /** So does changing one byte of one file's path. */
  lemma OnePathByteChangesDigest(files: seq<File>, i: nat, j: nat, x: Byte, basis: State)
    requires i < |files| && j < |files[i].path| && x != files[i].path[j]
    ensures var changed := files[i := files[i].(path := files[i].path[j := x])];
            Digest(Fnv(basis, Stream(files))) != Digest(Fnv(basis, Stream(changed)))
  {
    var path := files[i].path;
    var f, g := files[i], files[i].(path := path[j := x]);
    var changed := files[i := g];
    StreamAround(files, i);
    StreamAround(changed, i);
    assert changed[..i] == files[..i] && changed[i + 1..] == files[i + 1..] && changed[i] == g;
    PathAround(f, j);
    PathAround(g, j);
    assert g.path[..j] == path[..j] && g.path[j + 1..] == path[j + 1..] && Content(g) == Content(f);
    OneByteInside(basis, Stream(files[..i]), path[..j], path[j], x, path[j + 1..] + [0] + Content(f) + [0xff],
                  Stream(files[i + 1..]));
  }

  function Content(f: File): seq<Byte> {
    match f.content case Some(bytes) => bytes case None => []
  }

  lemma PathAround(f: File, j: nat)
    requires j < |f.path|
    ensures FileBytes(f) == f.path[..j] + [f.path[j]] + (f.path[j + 1..] + [0] + Content(f) + [0xff])
  {
    assert f.path == f.path[..j] + [f.path[j]] + f.path[j + 1..];
  }

  // ----- What a stream tells -----

  /** No file system allows a zero byte in a path. */
  ghost predicate PathsOk(files: seq<File>) {
    forall f :: f in files ==> 0 !in f.path
  }

  /** No content has the byte that ends a file; text in UTF-8 never has it. */
  ghost predicate ContentsText(files: seq<File>) {
    forall f :: f in files ==> 0xff !in Content(f)
  }

  /** The same paths with the same contents, unreadable files counting as empty. */
  ghost predicate SameFiles(a: seq<File>, b: seq<File>) {
    |a| == |b| && forall i :: 0 <= i < |a| ==> a[i].path == b[i].path && Content(a[i]) == Content(b[i])
  }

  lemma ByteAt(a: seq<Byte>, end: Byte, s: seq<Byte>, k: nat)
    requires k <= |a|
    ensures (a + [end] + s)[k] == if k < |a| then a[k] else end
  {
  }

  lemma EndedAlike(a: seq<Byte>, b: seq<Byte>, end: Byte, s: seq<Byte>, t: seq<Byte>)
    requires end !in a && end !in b && a + [end] + s == b + [end] + t
    ensures a == b && s == t
  {
    var k := if |a| <= |b| then |a| else |b|;
    ByteAt(a, end, s, k);
    ByteAt(b, end, t, k);
    var whole := a + [end] + s;
    assert a == whole[..|a|] && s == whole[|a| + 1..];
    assert b == (b + [end] + t)[..|b|] && t == (b + [end] + t)[|b| + 1..];
  }

  lemma FirstFile(f: File, s: seq<Byte>, g: File, t: seq<Byte>)
    requires 0 !in f.path && 0 !in g.path && 0xff !in Content(f) && 0xff !in Content(g)
    requires FileBytes(f) + s == FileBytes(g) + t
    ensures f.path == g.path && Content(f) == Content(g) && s == t
  {
    var a, b := Content(f) + [0xff] + s, Content(g) + [0xff] + t;
    assert FileBytes(f) + s == f.path + [0] + a && FileBytes(g) + t == g.path + [0] + b;
    EndedAlike(f.path, g.path, 0, a, b);
    EndedAlike(Content(f), Content(g), 0xff, s, t);
  }

  lemma StreamFirst(files: seq<File>)
    requires files != []
    ensures Stream(files) == FileBytes(files[0]) + Stream(files[1..])
  {
    StreamConcat([files[0]], files[1..]);
    StreamOne(files[0]);
    assert files == [files[0]] + files[1..];
  }

  lemma {:induction false} StreamTells(a: seq<File>, b: seq<File>)
    requires PathsOk(a) && PathsOk(b) && ContentsText(a) && ContentsText(b) && Stream(a) == Stream(b)
    ensures SameFiles(a, b)
  {
    if a != [] { StreamFirst(a); }
    if b != [] { StreamFirst(b); }
    if a != [] && b != [] {
      assert a[0] in a && b[0] in b;
      FirstFile(a[0], Stream(a[1..]), b[0], Stream(b[1..]));
      assert (forall f :: f in a[1..] ==> f in a) && (forall f :: f in b[1..] ==> f in b);
      StreamTells(a[1..], b[1..]);
      forall i | 0 <= i < |a| ensures a[i].path == b[i].path && Content(a[i]) == Content(b[i]) {
        if i > 0 { assert a[i] == a[1..][i - 1] && b[i] == b[1..][i - 1]; }
      }
    }
  }

  lemma {:induction false} SameStream(a: seq<File>, b: seq<File>)
    requires SameFiles(a, b)
    ensures Stream(a) == Stream(b)
  {
    if a != [] {
      SameStream(a[..|a| - 1], b[..|b| - 1]);
    }
  }

  /** What is hashed of text files determines their paths and contents: other files give the same stream exactly
      when they are the same, or when one of them has the byte that ends a file. */
  lemma StreamDetermines(a: seq<File>, b: seq<File>)
    requires PathsOk(a) && PathsOk(b) && ContentsText(a) && Stream(a) == Stream(b)
    ensures SameFiles(a, b) <==> ContentsText(b)
  {
    if ContentsText(b) { StreamTells(a, b); }
    if SameFiles(a, b) {
      forall f | f in b ensures 0xff !in Content(f) {
        var i :| 0 <= i < |b| && b[i] == f;
        assert a[i] in a;
      }
    }
  }

  /** With that byte in a content the stream is ambiguous: one file then reads like two. */
  lemma OneReadsLikeTwo(path: seq<Byte>, other: seq<Byte>, x: seq<Byte>, y: seq<Byte>)
    ensures Stream([File(path, Some(x + [0xff] + other + [0] + y))]) == Stream([File(path, Some(x)), File(other, Some(y))])
  {
    var two := [File(path, Some(x)), File(other, Some(y))];
    StreamOne(File(path, Some(x + [0xff] + other + [0] + y)));
    StreamFirst(two);
    assert two[1..] == [File(other, Some(y))];
    StreamOne(File(other, Some(y)));
  }
}
