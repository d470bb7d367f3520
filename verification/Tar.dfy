/**
 Tar headers as the kernel reads them (POSIX pax, ustar interchange format, with the GNU magic), and as an archiver
 writes them.
 */
module Tar {
  import opened Wrappers

  const BLOCK: nat := 512

  type Header = h: seq<Byte> | |h| == 512 witness seq(512, _ => 0)

  const USTAR: seq<Byte> := [0x75, 0x73, 0x74, 0x61, 0x72, 0x20]
  const SLASH: Byte := 0x2f
  const DOT: Byte := 0x2e

  datatype EntryType = File | Directory

  predicate Check(h: Header) {
    h[257..263] == USTAR
  }

  function EntryTypeOf(ftype: Byte): Option<EntryType> {
    if ftype == 0x30 then Some(File) else if ftype == 0x35 then Some(Directory) else None
  }

  /** The bytes before the first NUL. */
  function Cut(s: seq<Byte>): (r: seq<Byte>)
    ensures r <= s && 0 !in r && (|r| < |s| ==> s[|r|] == 0)
  {
    if s == [] || s[0] == 0 then [] else [s[0]] + Cut(s[1..])
  }

  /** A continuation byte of UTF-8, with the bounds the first byte may narrow (RFC 3629, section 4). */
  predicate Tail(b: Byte, low: Byte, high: Byte) {
    low <= b <= high
  }

  predicate Utf8(s: seq<Byte>) {
    s == [] ||
    if s[0] < 0x80 then Utf8(s[1..])
    else if 0xc2 <= s[0] <= 0xdf then |s| >= 2 && Tail(s[1], 0x80, 0xbf) && Utf8(s[2..])
    else if 0xe0 <= s[0] <= 0xef then
      && |s| >= 3 && Tail(s[1], if s[0] == 0xe0 then 0xa0 else 0x80, if s[0] == 0xed then 0x9f else 0xbf)
      && Tail(s[2], 0x80, 0xbf) && Utf8(s[3..])
    else if 0xf0 <= s[0] <= 0xf4 then
      && |s| >= 4 && Tail(s[1], if s[0] == 0xf0 then 0x90 else 0x80, if s[0] == 0xf4 then 0x8f else 0xbf)
      && Tail(s[2], 0x80, 0xbf) && Tail(s[3], 0x80, 0xbf) && Utf8(s[4..])
    else false
  }

  // ---------------------------------------------------------------- text

  /** A Unicode scalar value. */
  type Scalar = c: nat | c < 0xd800 || 0xe000 <= c < 0x11_0000

  /** A scalar value in UTF-8 (RFC 3629, section 3). */
  function Utf8Char(c: Scalar): seq<Byte> {
    if c < 0x80 then [c]
    else if c < 0x800 then [0xc0 + c / 0x40, 0x80 + c % 0x40]
    else if c < 0x1_0000 then [0xe0 + c / 0x1000, 0x80 + c / 0x40 % 0x40, 0x80 + c % 0x40]
    else [0xf0 + c / 0x4_0000, 0x80 + c / 0x1000 % 0x40, 0x80 + c / 0x40 % 0x40, 0x80 + c % 0x40]
  }

  function Utf8Text(cs: seq<Scalar>): seq<Byte> {
    if cs == [] then [] else Utf8Char(cs[0]) + Utf8Text(cs[1..])
  }

  /** The bytes are the UTF-8 of some text. */
  ghost predicate IsText(s: seq<Byte>) {
    exists cs :: Utf8Text(cs) == s
  }

  lemma TwoBytes(x: nat, y: nat)
    requires 2 <= x < 0x20 && y < 0x40
    ensures var c := x * 0x40 + y; 0x80 <= c < 0x800 && Utf8Char(c) == [0xc0 + x, 0x80 + y]
  {
  }

  lemma ThreeBytes(x: nat, y: nat, z: nat)
    requires x < 0x10 && y < 0x40 && z < 0x40 && (x == 0 ==> y >= 0x20) && (x == 0xd ==> y < 0x20)
    ensures var c := x * 0x1000 + y * 0x40 + z;
            && 0x800 <= c < 0x1_0000 && (c < 0xd800 || 0xe000 <= c)
            && Utf8Char(c) == [0xe0 + x, 0x80 + y, 0x80 + z]
  {
    var c := x * 0x1000 + y * 0x40 + z;
    assert c / 0x40 == x * 0x40 + y && c / 0x1000 == x;
  }

  lemma FourBytes(x: nat, y: nat, z: nat, w: nat)
    requires x < 5 && y < 0x40 && z < 0x40 && w < 0x40 && (x == 0 ==> y >= 0x10) && (x == 4 ==> y < 0x10)
    ensures var c := x * 0x4_0000 + y * 0x1000 + z * 0x40 + w;
            0x1_0000 <= c < 0x11_0000 && Utf8Char(c) == [0xf0 + x, 0x80 + y, 0x80 + z, 0x80 + w]
  {
    var c := x * 0x4_0000 + y * 0x1000 + z * 0x40 + w;
    assert c / 0x40 == x * 0x1000 + y * 0x40 + z && c / 0x1000 == x * 0x40 + y && c / 0x4_0000 == x;
  }

  /** The first scalar value of well-formed bytes, and how many of them it takes. */
  lemma FirstScalar(s: seq<Byte>) returns (c: Scalar, n: nat)
    requires Utf8(s) && s != []
    ensures 0 < n <= |s| && Utf8Char(c) == s[..n] && Utf8(s[n..])
  {
    if s[0] < 0x80 {
      c, n := s[0], 1;
    } else if s[0] <= 0xdf {
      var (x: nat, y: nat) := (s[0] - 0xc0, s[1] - 0x80);
      TwoBytes(x, y);
      c, n := x * 0x40 + y, 2;
    } else if s[0] <= 0xef {
      var (x: nat, y: nat, z: nat) := (s[0] - 0xe0, s[1] - 0x80, s[2] - 0x80);
      ThreeBytes(x, y, z);
      c, n := x * 0x1000 + y * 0x40 + z, 3;
    } else {
      var (x: nat, y: nat, z: nat, w: nat) := (s[0] - 0xf0, s[1] - 0x80, s[2] - 0x80, s[3] - 0x80);
      FourBytes(x, y, z, w);
      c, n := x * 0x4_0000 + y * 0x1000 + z * 0x40 + w, 4;
    }
  }

  lemma Utf8CharOk(c: Scalar, rest: seq<Byte>)
    requires Utf8(rest)
    ensures Utf8(Utf8Char(c) + rest)
  {
    var s := Utf8Char(c) + rest;
    assert s[|Utf8Char(c)|..] == rest;
  }

  lemma {:induction false} TextIsUtf8(cs: seq<Scalar>)
    ensures Utf8(Utf8Text(cs))
  {
    if cs != [] {
      TextIsUtf8(cs[1..]);
      Utf8CharOk(cs[0], Utf8Text(cs[1..]));
    }
  }

  lemma {:induction false} Utf8IsText(s: seq<Byte>)
    requires Utf8(s)
    ensures IsText(s)
    decreases |s|
  {
    if s == [] {
      assert Utf8Text([]) == s;
    } else {
      var c, n := FirstScalar(s);
      Utf8IsText(s[n..]);
      var cs: seq<Scalar> :| Utf8Text(cs) == s[n..];
      assert ([c] + cs)[1..] == cs && s == s[..n] + s[n..];
      assert Utf8Text([c] + cs) == s;
    }
  }

  /** The bounds on the bytes describe exactly the UTF-8 of texts. */
  lemma Utf8Iff(s: seq<Byte>)
    ensures Utf8(s) <==> IsText(s)
  {
    if Utf8(s) {
      Utf8IsText(s);
    }
    if IsText(s) {
      var cs: seq<Scalar> :| Utf8Text(cs) == s;
      TextIsUtf8(cs);
    }
  }

  /** Characters as bytes. */
  function Ascii(s: string): (r: seq<Byte>)
    requires forall i :: 0 <= i < |s| ==> s[i] as int < 128
    ensures |r| == |s| && forall i :: 0 <= i < |s| ==> r[i] == s[i] as int
  {
    seq(|s|, i requires 0 <= i < |s| => s[i] as int)
  }

  /** A slash, the prefix and the name, with nothing between the two; None stands for a panic. */
  function Name(h: Header): Option<seq<Byte>> {
    var (prefix, name) := (Cut(h[345..500]), Cut(h[..100]));
    if Utf8(prefix) && Utf8(name) then Some([SLASH] + prefix + name) else None
  }

  /** A header has a name exactly if prefix and name are text. */
  lemma NameIff(h: Header)
    ensures Name(h).Some? <==> IsText(Cut(h[345..500])) && IsText(Cut(h[..100]))
    ensures Name(h).Some? ==> Name(h).value == Ascii("/") + Cut(h[345..500]) + Cut(h[..100])
  {
    Utf8Iff(Cut(h[345..500]));
    Utf8Iff(Cut(h[..100]));
    assert Ascii("/") == [SLASH];
  }

  // ---------------------------------------------------------------- sizes

  predicate OctalDigits(s: seq<Byte>) {
    forall i :: 0 <= i < |s| ==> 0x30 <= s[i] < 0x38
  }

  function FromOctal(s: seq<Byte>): nat
    requires OctalDigits(s)
  {
    if s == [] then 0 else FromOctal(s[..|s| - 1]) * 8 + (s[|s| - 1] - 0x30)
  }

  /** The size field: eleven octal digits, of which the first may be a plus sign, and a NUL; None stands for a panic. */
  function Size(h: Header): Option<nat> {
    var f := h[124..136];
    if f[11] != 0 then None
    else if OctalDigits(f[..11]) then Some(FromOctal(f[..11]))
    else if f[0] == 0x2b && OctalDigits(f[1..11]) then Some(FromOctal(f[1..11]))
    else None
  }

  /** n in octal with a given number of digits. */
  function ToOctal(n: nat, digits: nat): seq<Byte> {
    if digits == 0 then [] else ToOctal(n / 8, digits - 1) + [0x30 + n % 8]
  }

  function Pow8(k: nat): nat {
    if k == 0 then 1 else 8 * Pow8(k - 1)
  }

  lemma {:induction false} OctalRoundTrip(n: nat, digits: nat)
    requires n < Pow8(digits)
    ensures |ToOctal(n, digits)| == digits && OctalDigits(ToOctal(n, digits)) && FromOctal(ToOctal(n, digits)) == n
  {
    if digits > 0 {
      OctalRoundTrip(n / 8, digits - 1);
      assert ToOctal(n, digits)[..digits - 1] == ToOctal(n / 8, digits - 1);
    }
  }

  lemma {:induction false} OctalBack(s: seq<Byte>)
    requires OctalDigits(s)
    ensures FromOctal(s) < Pow8(|s|) && ToOctal(FromOctal(s), |s|) == s
  {
    if s != [] {
      OctalBack(s[..|s| - 1]);
      assert FromOctal(s) / 8 == FromOctal(s[..|s| - 1]) && FromOctal(s) % 8 == s[|s| - 1] - 0x30;
    }
  }

  /** The digits are the number in octal. */
  predicate InOctal(s: seq<Byte>, n: nat) {
    n < Pow8(|s|) && s == ToOctal(n, |s|)
  }

  /** The size field holds n: eleven octal digits and a NUL, or a plus sign, ten octal digits and a NUL. */
  predicate SizeIs(h: Header, n: nat) {
    h[135] == 0 && (InOctal(h[124..135], n) || (h[124] == '+' as int && InOctal(h[125..135], n)))
  }

  lemma OctalIff(s: seq<Byte>, n: nat)
    ensures InOctal(s, n) <==> OctalDigits(s) && FromOctal(s) == n
  {
    if OctalDigits(s) {
      OctalBack(s);
    }
    if n < Pow8(|s|) {
      OctalRoundTrip(n, |s|);
    }
  }

  lemma SizeIff(h: Header, n: nat)
    ensures Size(h) == Some(n) <==> SizeIs(h, n)
  {
    var f := h[124..136];
    assert f[..11] == h[124..135] && f[1..11] == h[125..135] && f[0] == h[124];
    OctalIff(f[..11], n);
    OctalIff(f[1..11], n);
    assert OctalDigits(f[..11]) ==> f[..11][0] >= 0x30;
  }

  // ---------------------------------------------------------------- writing

  /** The header fields the kernel does not read. */
  datatype Meta = Meta(owner: seq<Byte>, times: seq<Byte>, link: seq<Byte>, device: seq<Byte>, reserved: seq<Byte>) {
    predicate Valid() {
      |owner| == 24 && |times| == 20 && |link| == 100 && |device| == 82 && |reserved| == 12
    }
  }

  /** The kernel reads files and directories, and nothing else. */
  predicate Supported(ftype: Byte) {
    ftype == '0' as int || ftype == '5' as int
  }

  datatype Entry = Entry(name: seq<Byte>, prefix: seq<Byte>, ftype: Byte, content: seq<Byte>, meta: Meta) {
    predicate Valid() {
      && |name| <= 100 && |prefix| <= 155 && 0 !in name && 0 !in prefix
      && |content| < Pow8(11) && meta.Valid()
      && (Supported(ftype) ==> Utf8(name) && Utf8(prefix))
    }

    function Path(): seq<Byte> {
      Ascii("/") + prefix + name
    }
  }

  function Padded(s: seq<Byte>, n: nat): (r: seq<Byte>)
    requires |s| <= n
    ensures |r| == n && s <= r
  {
    s + seq(n - |s|, _ => 0)
  }

  /** The part of a header up to the size, and the part after it. */
  function Front(e: Entry): (r: seq<Byte>)
    requires e.Valid()
    ensures |r| == 124
  {
    Padded(e.name, 100) + e.meta.owner
  }

  function Back(e: Entry): (r: seq<Byte>)
    requires e.Valid()
    ensures |r| == 376
  {
    e.meta.times + [e.ftype] + e.meta.link + Ascii("ustar ") + e.meta.device + Padded(e.prefix, 155) + e.meta.reserved
  }

  function HeaderOf(e: Entry): (h: Header)
    requires e.Valid()
  {
    OctalRoundTrip(|e.content|, 11);
    Front(e) + (ToOctal(|e.content|, 11) + [0]) + Back(e)
  }

  function RoundUp(n: nat): nat {
    (n + BLOCK - 1) / BLOCK * BLOCK
  }

  /** An entry in the archive: its header, and its content padded to whole blocks. */
  function Encode(e: Entry): (r: seq<Byte>)
    requires e.Valid()
    ensures |r| == BLOCK + RoundUp(|e.content|)
  {
    HeaderOf(e) + Padded(e.content, RoundUp(|e.content|))
  }

  lemma {:induction false} CutPadded(s: seq<Byte>, n: nat)
    requires |s| <= n && 0 !in s
    ensures Cut(Padded(s, n)) == s
  {
    if s != [] {
      CutPadded(s[1..], n - 1);
      assert Padded(s, n)[1..] == Padded(s[1..], n - 1);
    }
  }

  /** What the kernel reads from a header is what was written. */
  lemma HeaderReadsBack(e: Entry)
    requires e.Valid()
    ensures var h := HeaderOf(e);
            && Check(h) && Size(h) == Some(|e.content|) && h[156] == e.ftype
            && (Supported(e.ftype) ==> Name(h) == Some(e.Path()))
            && (EntryTypeOf(e.ftype).Some? <==> Supported(e.ftype))
            && (EntryTypeOf(e.ftype) == Some(File) <==> e.ftype == '0' as int)
  {
    var (h, size) := (HeaderOf(e), ToOctal(|e.content|, 11));
    OctalRoundTrip(|e.content|, 11);
    assert h[124..136] == size + [0] && (size + [0])[..11] == size;
    BackFields(e);
    assert h[136..] == Back(e);
    assert h[257..263] == Back(e)[121..127] && h[156] == Back(e)[20] && h[345..500] == Back(e)[209..364];
    assert h[..100] == Padded(e.name, 100);
    CutPadded(e.name, 100);
    CutPadded(e.prefix, 155);
    assert Ascii("/") == [SLASH];
  }

  lemma BackFields(e: Entry)
    requires e.Valid()
    ensures var b := Back(e); b[20] == e.ftype && b[121..127] == USTAR && b[209..364] == Padded(e.prefix, 155)
  {
    assert Ascii("ustar ") == USTAR;
  }
}
