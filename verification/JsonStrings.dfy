/** String literals of the configuration format: escaping, and decoding with
    UTF-16 escapes transcoded to UTF-8.  Text is a sequence of characters below
    256, one for each byte; the terminating NUL is not part of it. */
module JsonStrings {
  import opened Packets

  // ---- Hexadecimal -------------------------------------------------------------------

  function HexValue(c: char): Option<nat> {
    if '0' <= c <= '9' then Some(c as int - '0' as int)
    else if 'A' <= c <= 'F' then Some(10 + c as int - 'A' as int)
    else if 'a' <= c <= 'f' then Some(10 + c as int - 'a' as int)
    else None
  }

  // parse_hex4: an invalid or missing digit gives 0.
  function Hex4(t: string): (h: nat)
    ensures h < 0x10000
  {
    if |t| < 4 || HexValue(t[0]).None? || HexValue(t[1]).None? || HexValue(t[2]).None? || HexValue(t[3]).None? then 0
    else HexOf(HexValue(t[0]).value, HexValue(t[1]).value, HexValue(t[2]).value, HexValue(t[3]).value)
  }

  function HexOf(a: nat, b: nat, c: nat, d: nat): nat {
    ((a * 16 + b) * 16 + c) * 16 + d
  }

  // The digit printf writes for %x.
  function HexDigit(n: nat): (c: char)
    requires n < 16
    ensures HexValue(c) == Some(n)
  {
    if n < 10 then ('0' as int + n) as char else ('a' as int + n - 10) as char
  }

  function PrintHex4(n: nat): (t: string)
    requires n < 0x10000
    ensures |t| == 4
  {
    [HexDigit(n / 4096), HexDigit(n / 256 % 16), HexDigit(n / 16 % 16), HexDigit(n % 16)]
  }

  // ---- UTF-8 (section 3 of RFC 3629) ------------------------------------------------

  predicate Surrogate(u: nat) { 0xD800 <= u <= 0xDFFF }

  predicate CodePoint(cp: nat) { cp <= 0x10FFFF && !Surrogate(cp) }

  function Byte(n: nat): (c: char)
    requires n < 256
    ensures c as int == n
  {
    n as char
  }

  // The encoding table of the standard.
  function Utf8(cp: nat): (t: string)
    requires cp <= 0x10FFFF
    ensures 1 <= |t| <= 4 && (cp < 0x10000 ==> |t| <= 3)
  {
    if cp < 0x80 then [Byte(cp)]
    else if cp < 0x800 then [Byte(0xC0 + cp / 0x40), Byte(0x80 + cp % 0x40)]
    else if cp < 0x10000 then [Byte(0xE0 + cp / 0x1000), Byte(0x80 + cp / 0x40 % 0x40), Byte(0x80 + cp % 0x40)]
    else [Byte(0xF0 + cp / 0x40000), Byte(0x80 + cp / 0x1000 % 0x40),
          Byte(0x80 + cp / 0x40 % 0x40), Byte(0x80 + cp % 0x40)]
  }

  // The value of a continuation byte 10xxxxxx.
  function Tail(c: char): Option<nat> {
    if 0x80 <= c as int < 0xC0 then Some(c as int - 0x80) else None
  }

  // What a reader of UTF-8 makes of the front of a text, and how long it is;
  // overlong forms, surrogates and values beyond the last plane are invalid.
  function FromUtf8(t: string): Option<(nat, nat)> {
    if t == [] then None
    else
      var b := t[0] as int;
      if b < 0x80 then Some((b, 1))
      else if 0xC0 <= b < 0xE0 && |t| >= 2 && Tail(t[1]).Some? then
        Checked((b - 0xC0) * 0x40 + Tail(t[1]).value, 0x80, 2)
      else if 0xE0 <= b < 0xF0 && |t| >= 3 && Tail(t[1]).Some? && Tail(t[2]).Some? then
        Checked(((b - 0xE0) * 0x40 + Tail(t[1]).value) * 0x40 + Tail(t[2]).value, 0x800, 3)
      else if 0xF0 <= b < 0xF8 && |t| >= 4 && Tail(t[1]).Some? && Tail(t[2]).Some? && Tail(t[3]).Some? then
        Checked((((b - 0xF0) * 0x40 + Tail(t[1]).value) * 0x40 + Tail(t[2]).value) * 0x40 + Tail(t[3]).value,
                0x10000, 4)
      else None
  }

  function Checked(cp: nat, least: nat, n: nat): Option<(nat, nat)> {
    if cp >= least && CodePoint(cp) then Some((cp, n)) else None
  }

  lemma ThreeDigits(n: nat)
    ensures n == (n / 0x1000 * 0x40 + n / 0x40 % 0x40) * 0x40 + n % 0x40
  {
    assert n / 0x40 / 0x40 == n / 0x1000;
  }

  lemma FourDigits(n: nat)
    ensures n == ((n / 0x40000 * 0x40 + n / 0x1000 % 0x40) * 0x40 + n / 0x40 % 0x40) * 0x40 + n % 0x40
  {
    ThreeDigits(n);
    assert n / 0x1000 / 0x40 == n / 0x40000;
  }

  /** Encoding is exact: a reader gets the code point back and nothing else. */
  lemma Utf8RoundTrip(cp: nat, rest: string)
    requires CodePoint(cp)
    ensures FromUtf8(Utf8(cp) + rest) == Some((cp, |Utf8(cp)|))
  {
    var t := Utf8(cp) + rest;
    assert t[0] == Utf8(cp)[0];
    if cp >= 0x10000 {
      assert t[1] == Utf8(cp)[1] && t[2] == Utf8(cp)[2] && t[3] == Utf8(cp)[3];
      FourDigits(cp);
    } else if cp >= 0x800 {
      assert t[1] == Utf8(cp)[1] && t[2] == Utf8(cp)[2];
      ThreeDigits(cp);
    } else if cp >= 0x80 {
      assert t[1] == Utf8(cp)[1];
    }
  }

  // ---- Decoding ---------------------------------------------------------------------

  // A parser's outcome: a value and the text after it, or a failure with the
  // position reported, if any.  Inexact: a number outside 32-bit integers, which
  // is not modelled.
  datatype Parsed<+T> = Done(value: T, rest: string) | Fail(at: Option<string>) | Inexact

  // Where a literal ends: at its closing quote or at the end of the text.  A
  // backslash at the very end is an error.
  function ScanEnd(t: string): (e: Option<nat>)
    ensures e.Some? ==> e.value <= |t| && (e.value < |t| ==> t[e.value] == '\"')
  {
    if t == [] || t[0] == '\"' then Some(0)
    else if t[0] == '\\' then
      if |t| < 2 then None
      else var e := ScanEnd(t[2..]); if e.None? then None else Some(e.value + 2)
    else var e := ScanEnd(t[1..]); if e.None? then None else Some(e.value + 1)
  }

  // The count of the first pass: an escaped pair counts once.
  function Units(lit: string): nat {
    if lit == [] then 0
    else if lit[0] == '\\' && |lit| >= 2 then 1 + Units(lit[2..])
    else 1 + Units(lit[1..])
  }

  function SimpleEscape(c: char): Option<char> {
    if c == 'b' then Some(8 as char)
    else if c == 'f' then Some(12 as char)
    else if c == 'n' then Some('\n')
    else if c == 'r' then Some('\r')
    else if c == 't' then Some('\t')
    else if c == '\"' || c == '\\' || c == '/' then Some(c)
    else None
  }

  // The code point of a surrogate pair (section 2.2 of RFC 2781).
  function Combine(high: nat, low: nat): nat {
    0x10000 + high % 0x400 * 0x400 + low % 0x400
  }

  // The code point of the escape at the front of a literal, and its length.
  function Unicode(lit: string): (r: Option<(nat, nat)>)
    requires |lit| >= 2 && lit[0] == '\\' && lit[1] == 'u'
    ensures r.Some? ==> CodePoint(r.value.0) && r.value.0 != 0
    ensures r.Some? ==> (r.value.1 == 6 || r.value.1 == 12) && r.value.1 <= |lit|
    ensures r.Some? && r.value.1 == 6 ==> r.value.0 < 0x10000
  {
    var uc := Hex4(lit[2..]);
    if |lit| < 6 || uc == 0 || 0xDC00 <= uc <= 0xDFFF then None
    else if !(0xD800 <= uc <= 0xDBFF) then Some((uc, 6))
    else if |lit| < 11 || lit[6] != '\\' || lit[7] != 'u' then None
    else
      var uc2 := Hex4(lit[8..]);
      if 0xDC00 <= uc2 <= 0xDFFF then Some((Combine(uc, uc2), 12)) else None
  }

  // The second pass over a literal.
  function Decode(lit: string): Option<string> {
    if lit == [] then Some([])
    else if lit[0] != '\\' then Prepend([lit[0]], Decode(lit[1..]))
    else if |lit| < 2 then None
    else if lit[1] == 'u' then
      var u := Unicode(lit);
      if u.None? then None else Prepend(Utf8(u.value.0), Decode(lit[u.value.1..]))
    else if SimpleEscape(lit[1]).Some? then Prepend([SimpleEscape(lit[1]).value], Decode(lit[2..]))
    else None
  }

  function Prepend(front: string, rest: Option<string>): Option<string> {
    if rest.Some? then Some(front + rest.value) else None
  }

  // parse_string.  A literal without its closing quote is accepted.
  function ParseString(t: string): (r: Parsed<string>)
    ensures r.Done? ==> |r.rest| < |t|
  {
    if t == [] || t[0] != '\"' then Fail(Some(t))
    else
      var body := t[1..];
      var e := ScanEnd(body);
      if e.None? then Fail(None)
      else
        var d := Decode(body[..e.value]);
        if d.None? then Fail(Some(t))
        else Done(d.value, if e.value < |body| then body[e.value + 1..] else [])
  }

  lemma {:induction false} ScanClosed(lit: string, post: string)
    requires ScanEnd(lit) == Some(|lit|)
    ensures ScanEnd(lit + ['\"'] + post) == Some(|lit|)
    decreases |lit|
  {
    var t := lit + ['\"'] + post;
    if lit == [] {
      assert t[0] == '\"';
    } else if lit[0] == '\\' {
      ScanClosed(lit[2..], post);
      assert t[2..] == lit[2..] + ['\"'] + post;
    } else {
      ScanClosed(lit[1..], post);
      assert t[1..] == lit[1..] + ['\"'] + post;
    }
  }

  /** A literal whose closing quote is missing is accepted exactly when it would
      be with the quote, and with the same value. */
  lemma UnclosedReads(lit: string, post: string)
    requires ScanEnd(lit) == Some(|lit|)
    ensures var open, closed := ParseString(['\"'] + lit), ParseString(['\"'] + lit + ['\"'] + post);
            && (open.Done? <==> closed.Done?)
            && (open.Done? ==> open.value == closed.value && open.rest == [] && closed.rest == post)
  {
    hide ScanEnd, Decode, ParseString;
    ScanClosed(lit, post);
    var rest := lit + ['\"'] + post;
    assert ['\"'] + lit + ['\"'] + post == ['\"'] + rest;
    LiteralParsed(lit, |lit|);
    LiteralParsed(rest, |lit|);
    assert lit[..|lit|] == lit && rest[..|lit|] == lit && rest[|lit| + 1..] == post;
  }

  // What becomes of a literal whose end is known.
  lemma LiteralParsed(body: string, e: nat)
    requires ScanEnd(body) == Some(e)
    ensures var d := Decode(body[..e]);
            if d.None? then ParseString(['\"'] + body).Fail?
            else ParseString(['\"'] + body) == Done(d.value, if e < |body| then body[e + 1..] else [])
  {
    hide ScanEnd, Decode;
    assert (['\"'] + body)[1..] == body;
  }

  // ---- What decoding means -------------------------------------------------------------

  /** Decoding never writes more bytes than the first pass counted. */
  lemma {:induction false} DecodeFits(lit: string)
    requires Decode(lit).Some?
    ensures |Decode(lit).value| <= Units(lit)
    decreases |lit|
  {
    if lit != [] {
      if lit[0] != '\\' {
        DecodeFits(lit[1..]);
      } else if lit[1] == 'u' {
        var n := Unicode(lit).value.1;
        DecodeFits(lit[n..]);
        UnicodeUnits(lit);
      } else {
        DecodeFits(lit[2..]);
      }
    }
  }

  // A six-character escape counts five, a twelve-character one ten.
  lemma UnicodeUnits(lit: string)
    requires |lit| >= 2 && lit[0] == '\\' && lit[1] == 'u' && Unicode(lit).Some?
    ensures var (cp, n) := Unicode(lit).value; |Utf8(cp)| + Units(lit[n..]) <= Units(lit)
  {
    hide Hex4, Utf8, Combine;
    var (cp, n) := Unicode(lit).value;
    HexPlain(lit[2..]);
    PlainUnits(lit[2..], 4);
    assert lit[2..][4..] == lit[6..];
    if n == 12 {
      assert lit[6..][2..] == lit[8..];
      HexPlain(lit[8..]);
      PlainUnits(lit[8..], 4);
      assert lit[8..][4..] == lit[12..];
    }
  }

  lemma HexPlain(t: string)
    requires Hex4(t) != 0
    ensures |t| >= 4 && forall i | 0 <= i < 4 :: t[i] != '\\' && t[i] != '\"'
  {
  }

  lemma {:induction false} PlainUnits(t: string, n: nat)
    requires n <= |t| && forall i | 0 <= i < n :: t[i] != '\\'
    ensures Units(t) == n + Units(t[n..])
  {
    if n > 0 {
      PlainUnits(t[1..], n - 1);
      assert t[1..][n - 1..] == t[n..];
    } else {
      assert t[0..] == t;
    }
  }

  // The two ways of writing a code point as 16-bit units (section 2.1 of RFC 2781).
  function Utf16(cp: nat): seq<nat>
    requires cp <= 0x10FFFF
  {
    if cp < 0x10000 then [cp]
    else [0xD800 + (cp - 0x10000) / 0x400, 0xDC00 + (cp - 0x10000) % 0x400]
  }

  // A piece of a literal: a character for itself, an escaped one, or a code point.
  datatype Piece = Raw(c: char) | Escaped(c: char) | Coded(cp: nat)

  // Hexadecimal digits, in upper and in lower case.
  predicate DigitOf(c: char, v: nat) {
    v < 16 && (c == "0123456789ABCDEF"[v] || c == "0123456789abcdef"[v])
  }

  // The characters that may follow a backslash, and the bytes they stand for.
  const ESCAPES := "bfnrt\"\\/"
  const ESCAPED := [8, 12, 10, 13, 9, 34, 92, 47]

  predicate StandsFor(e: char, c: char) {
    exists k | 0 <= k < |ESCAPES| :: k < |ESCAPED| && ESCAPES[k] == e && ESCAPED[k] == c as int
  }

  /** The decoder knows exactly these digits, and values them by their place. */
  lemma DigitExact(c: char, v: nat)
    ensures HexValue(c) == Some(v) <==> DigitOf(c, v)
  {
    var upper, lower := "0123456789ABCDEF", "0123456789abcdef";
    assert forall i | 0 <= i < 10 :: upper[i] as int == '0' as int + i && lower[i] as int == '0' as int + i;
    assert forall i | 10 <= i < 16 :: upper[i] as int == 'A' as int + i - 10 && lower[i] as int == 'a' as int + i - 10;
  }

  /** And exactly these escapes, with their bytes. */
  lemma SimpleEscapeExact(e: char, c: char)
    ensures SimpleEscape(e) == Some(c) <==> StandsFor(e, c)
  {
    assert ESCAPES[0] == 'b' && ESCAPES[1] == 'f' && ESCAPES[2] == 'n' && ESCAPES[3] == 'r' && ESCAPES[4] == 't';
    assert ESCAPES[5] == '\"' && ESCAPES[6] == '\\' && ESCAPES[7] == '/' && |ESCAPES| == |ESCAPED| == 8;
    assert ESCAPED[0] == 8 && ESCAPED[1] == 12 && ESCAPED[2] == 10 && ESCAPED[3] == 13 && ESCAPED[4] == 9;
    assert ESCAPED[5] == 34 && ESCAPED[6] == 92 && ESCAPED[7] == 47;
    if SimpleEscape(e) == Some(c) {
      var k := if e == 'b' then 0 else if e == 'f' then 1 else if e == 'n' then 2 else if e == 'r' then 3
               else if e == 't' then 4 else if e == '\"' then 5 else if e == '\\' then 6 else 7;
      assert ESCAPES[k] == e && ESCAPED[k] == c as int;
    }
  }

  // The text `\uXXXX`, in upper or lower case, for one 16-bit unit.
  predicate SpellsUnit(t: string, u: nat) {
    && |t| == 6 && t[0] == '\\' && t[1] == 'u' && u < 0x10000
    && DigitOf(t[2], u / 4096) && DigitOf(t[3], u / 256 % 16) && DigitOf(t[4], u / 16 % 16) && DigitOf(t[5], u % 16)
  }

  predicate Spells(t: string, p: Piece) {
    match p
    case Raw(c) => t == [c] && c != '\\'
    case Escaped(c) => |t| == 2 && t[0] == '\\' && StandsFor(t[1], c)
    case Coded(cp) =>
      && CodePoint(cp) && cp != 0
      && if cp < 0x10000 then SpellsUnit(t, cp)
         else |t| == 12 && SpellsUnit(t[..6], Utf16(cp)[0]) && SpellsUnit(t[6..], Utf16(cp)[1])
  }

  function Meaning(p: Piece): string {
    match p
    case Raw(c) => [c]
    case Escaped(c) => [c]
    case Coded(cp) => if cp <= 0x10FFFF then Utf8(cp) else []
  }

  // The literal is a row of pieces whose meanings make up `out`.
  ghost predicate Denotes(lit: string, out: string)
    decreases |lit|
  {
    if lit == [] then out == []
    else exists n, p :: 0 < n <= |lit| && Spells(lit[..n], p) && DenotesAfter(lit, n, p, out)
  }

  ghost predicate DenotesAfter(lit: string, n: nat, p: Piece, out: string)
    requires 0 < n <= |lit|
    decreases |lit|, 0
  {
    Meaning(p) <= out && Denotes(lit[n..], out[|Meaning(p)|..])
  }

  lemma UnitRead(t: string, u: nat)
    requires |t| >= 6 && SpellsUnit(t[..6], u)
    ensures Hex4(t[2..]) == u && t[0] == '\\' && t[1] == 'u'
  {
    hide DigitOf, HexValue, HexOf;
    assert t[0] == t[..6][0] && t[1] == t[..6][1];
    assert forall i | 2 <= i < 6 :: t[..6][i] == t[2..][i - 2];
    DigitExact(t[2], u / 4096);
    DigitExact(t[3], u / 256 % 16);
    DigitExact(t[4], u / 16 % 16);
    DigitExact(t[5], u % 16);
    HexDigits(u);
  }

  lemma UnitSpelled(t: string)
    requires |t| >= 6 && t[0] == '\\' && t[1] == 'u' && Hex4(t[2..]) != 0
    ensures SpellsUnit(t[..6], Hex4(t[2..]))
  {
    hide DigitOf, HexOf;
    assert forall i | 2 <= i < 6 :: t[..6][i] == t[2..][i - 2];
    var a, b, c, d := HexValue(t[2]).value, HexValue(t[3]).value, HexValue(t[4]).value, HexValue(t[5]).value;
    DigitExact(t[2], a);
    DigitExact(t[3], b);
    DigitExact(t[4], c);
    DigitExact(t[5], d);
    HexParts(a, b, c, d);
  }

  lemma HexParts(a: nat, b: nat, c: nat, d: nat)
    requires a < 16 && b < 16 && c < 16 && d < 16
    ensures var u := HexOf(a, b, c, d);
            u < 0x10000 && u / 4096 == a && u / 256 % 16 == b && u / 16 % 16 == c && u % 16 == d
  {
    var u := HexOf(a, b, c, d);
    assert u / 16 == (a * 16 + b) * 16 + c;
    assert u / 256 == a * 16 + b;
    assert u / 4096 == a;
  }

  // Pairing undoes the split into two units, and only it.
  lemma PairExact(cp: nat, high: nat, low: nat)
    requires 0x10000 <= cp <= 0x10FFFF && 0xD800 <= high <= 0xDBFF && 0xDC00 <= low <= 0xDFFF
    ensures Combine(high, low) == cp <==> Utf16(cp) == [high, low]
  {
    assert high % 0x400 == high - 0xD800 && low % 0x400 == low - 0xDC00;
  }

  // Reading a coded piece gives its code point and length.
  lemma CodedRead(lit: string, n: nat, cp: nat)
    requires n <= |lit| && Spells(lit[..n], Coded(cp))
    ensures n >= 6 && lit[0] == '\\' && lit[1] == 'u' && Unicode(lit) == Some((cp, n))
  {
    hide Hex4, HexOf, SpellsUnit;
    if cp < 0x10000 {
      UnitIsSix(lit[..n], cp);
      UnitRead(lit, cp);
    } else {
      var (high, low) := (Utf16(cp)[0], Utf16(cp)[1]);
      assert lit[..n][..6] == lit[..6] && lit[..n][6..] == lit[6..][..6];
      UnitRead(lit, high);
      UnitRead(lit[6..], low);
      assert lit[6..][2..] == lit[8..];
      PairExact(cp, high, low);
    }
  }

  lemma UnitIsSix(t: string, u: nat)
    requires SpellsUnit(t, u)
    ensures |t| == 6
  {
  }

  lemma CodedSpelled(lit: string)
    requires |lit| >= 2 && lit[0] == '\\' && lit[1] == 'u' && Unicode(lit).Some?
    ensures var (cp, n) := Unicode(lit).value; Spells(lit[..n], Coded(cp))
  {
    hide Hex4, HexOf, SpellsUnit;
    var (cp, n) := Unicode(lit).value;
    UnitSpelled(lit);
    if n == 12 {
      assert lit[6..][2..] == lit[8..];
      UnitSpelled(lit[6..]);
      assert lit[..n][..6] == lit[..6] && lit[..n][6..] == lit[6..][..6];
      PairExact(cp, Hex4(lit[2..]), Hex4(lit[8..]));
    }
  }

  // One piece, one step of the decoder.
  lemma PieceStep(lit: string, n: nat, p: Piece)
    requires 0 < n <= |lit| && Spells(lit[..n], p)
    ensures Decode(lit) == Prepend(Meaning(p), Decode(lit[n..]))
  {
    match p
    case Raw(c) => assert lit[0] == lit[..n][0];
    case Escaped(c) =>
      assert lit[0] == lit[..n][0] && lit[1] == lit[..n][1];
      EscapedStep(lit, c);
    case Coded(cp) => CodedStep(lit, n, cp);
  }

  lemma EscapedStep(lit: string, c: char)
    requires |lit| >= 2 && lit[0] == '\\' && StandsFor(lit[1], c)
    ensures Decode(lit) == Prepend([c], Decode(lit[2..]))
  {
    hide StandsFor, Unicode;
    SimpleEscapeExact(lit[1], c);
  }

  lemma CodedStep(lit: string, n: nat, cp: nat)
    requires n <= |lit| && Spells(lit[..n], Coded(cp))
    ensures cp <= 0x10FFFF && Decode(lit) == Prepend(Utf8(cp), Decode(lit[n..]))
  {
    CodedRead(lit, n, cp);
    hide Unicode, Utf8, SpellsUnit, SimpleEscape;
  }

  /** The decoder accepts exactly the rows of plain characters, escaped ones and
      coded ones, and gives their meaning: UTF-8 for the code points, each
      written as one unit or as a surrogate pair. */
  lemma {:induction false} DecodeExact(lit: string, out: string)
    ensures Decode(lit) == Some(out) <==> Denotes(lit, out)
    decreases |lit|
  {
    hide Decode, Denotes, Spells, Meaning;
    if lit == [] {
      EmptyLiteral(out);
    } else {
      if Denotes(lit, out) {
        var n, p := DenotedFirst(lit, out);
        PieceStep(lit, n, p);
        DecodeExact(lit[n..], out[|Meaning(p)|..]);
        assert Meaning(p) + out[|Meaning(p)|..] == out;
      }
      if Decode(lit) == Some(out) {
        var (n, p) := FirstPiece(lit);
        PieceStep(lit, n, p);
        var rest := Decode(lit[n..]).value;
        assert out == Meaning(p) + rest && out[|Meaning(p)|..] == rest;
        DecodeExact(lit[n..], rest);
        FirstDenotes(lit, n, p, out);
      }
    }
  }

  lemma EmptyLiteral(out: string)
    ensures Decode([]) == Some(out) <==> Denotes([], out)
  {
  }

  lemma DenotedFirst(lit: string, out: string) returns (n: nat, p: Piece)
    requires lit != [] && Denotes(lit, out)
    ensures 0 < n <= |lit| && Spells(lit[..n], p) && Meaning(p) <= out && Denotes(lit[n..], out[|Meaning(p)|..])
  {
    hide Spells, Meaning;
    n, p :| 0 < n <= |lit| && Spells(lit[..n], p) && DenotesAfter(lit, n, p, out);
  }

  lemma FirstDenotes(lit: string, n: nat, p: Piece, out: string)
    requires 0 < n <= |lit| && Spells(lit[..n], p) && Meaning(p) <= out && Denotes(lit[n..], out[|Meaning(p)|..])
    ensures Denotes(lit, out)
  {
    assert DenotesAfter(lit, n, p, out);
  }

  ghost function FirstPiece(lit: string): (r: (nat, Piece))
    requires lit != [] && Decode(lit).Some?
    ensures 0 < r.0 <= |lit| && Spells(lit[..r.0], r.1)
  {
    if lit[0] != '\\' then (1, Raw(lit[0]))
    else if lit[1] != 'u' then
      SimpleEscapeExact(lit[1], SimpleEscape(lit[1]).value);
      (2, Escaped(SimpleEscape(lit[1]).value))
    else
      CodedSpelled(lit);
      (Unicode(lit).value.1, Coded(Unicode(lit).value.0))
  }

  /** A lone low surrogate, a high one without its second half, and the NUL are refused. */
  lemma BadUnitsRefused(lit: string, u: nat)
    requires |lit| >= 6 && SpellsUnit(lit[..6], u)
    requires u == 0 || 0xDC00 <= u <= 0xDFFF
          || (0xD800 <= u <= 0xDBFF && forall low | 0xDC00 <= low <= 0xDFFF ::
              !(|lit| >= 12 && SpellsUnit(lit[6..12], low)))
    ensures Decode(lit).None?
  {
    hide Hex4, HexOf, SpellsUnit;
    UnitRead(lit, u);
    if 0xD800 <= u <= 0xDBFF && |lit| >= 11 && lit[6] == '\\' && lit[7] == 'u' {
      assert lit[6..][2..] == lit[8..];
      if Hex4(lit[8..]) != 0 {
        HexPlain(lit[8..]);
        UnitSpelled(lit[6..]);
        assert lit[6..][..6] == lit[6..12];
      }
    }
  }

  // ---- Printing ------------------------------------------------------------------------

  const NUL := 0 as char

  function EscapeChar(c: char): (t: string)
    ensures 1 <= |t| <= 6
  {
    if c as int > 31 && c != '\"' && c != '\\' then [c]
    else if c == '\\' then ['\\', '\\']
    else if c == '\"' then ['\\', '\"']
    else if c as int == 8 then ['\\', 'b']
    else if c as int == 12 then ['\\', 'f']
    else if c == '\n' then ['\\', 'n']
    else if c == '\r' then ['\\', 'r']
    else if c == '\t' then ['\\', 't']
    else ['\\', 'u'] + PrintHex4(c as int)
  }

  function Escape(s: string): string {
    if s == [] then [] else EscapeChar(s[0]) + Escape(s[1..])
  }

  // print_string_ptr
  function Quote(s: string): (t: string)
    ensures |t| >= 2 && t[0] == '\"'
  {
    ['\"'] + Escape(s) + ['\"']
  }

  predicate NulFree(t: string) {
    NUL !in t
  }

  // ---- Round trip ------------------------------------------------------------------------

  lemma HexDigits(n: nat)
    requires n < 0x10000
    ensures HexOf(n / 4096, n / 256 % 16, n / 16 % 16, n % 16) == n
  {
    assert n / 16 / 16 == n / 256 && n / 256 / 16 == n / 4096;
  }

  lemma HexReads(n: nat, rest: string)
    requires n < 0x10000
    ensures Hex4(PrintHex4(n) + rest) == n
    ensures forall i | 0 <= i < 4 :: HexValue((PrintHex4(n) + rest)[i]).Some?
  {
    hide HexOf, HexDigit, HexValue;
    var t := PrintHex4(n) + rest;
    assert t[0] == HexDigit(n / 4096) && t[1] == HexDigit(n / 256 % 16) && t[2] == HexDigit(n / 16 % 16)
        && t[3] == HexDigit(n % 16);
    HexDigits(n);
  }

  // A printed character is itself, an escaped pair, or a coded unit.
  predicate EscapesAs(c: char, e: string) {
    || (e == [c] && c != '\\' && c != '\"')
    || (|e| == 2 && e == ['\\', e[1]] && e[1] != 'u' && SimpleEscape(e[1]) == Some(c))
    || (|e| == 6 && 0 < c as int < 32 && e == ['\\', 'u'] + PrintHex4(c as int))
  }

  lemma EscapeKinds(c: char)
    requires c != NUL
    ensures EscapesAs(c, EscapeChar(c))
  {
    hide PrintHex4;
  }

  /** Printable characters stand for themselves; the seven that have a short
      escape get it, and any other control character its four-digit code. */
  lemma EscapeExactly(c: char)
    requires c != NUL
    ensures var e := EscapeChar(c);
            if c as int >= 32 && c != '\"' && c != '\\' then e == [c]
            else if c in "\"\\\t\n\r" || c as int == 8 || c as int == 12
            then |e| == 2 && e[0] == '\\' && StandsFor(e[1], c)
            else e == "\\u00" + ["0123456789abcdef"[c as int / 16], "0123456789abcdef"[c as int % 16]]
  {
    hide StandsFor, HexDigit, SimpleEscape;
    EscapeKinds(c);
    EscapeSize(c);
    if |EscapeChar(c)| == 2 {
      SimpleEscapeExact(EscapeChar(c)[1], c);
    } else if c as int < 32 {
      LowerDigit(c as int / 16);
      LowerDigit(c as int % 16);
    }
  }

  lemma LowerDigit(n: nat)
    requires n < 16
    ensures HexDigit(n) == "0123456789abcdef"[n] && HexDigit(0) == '0'
  {
    var lower := "0123456789abcdef";
    assert forall i | 0 <= i < 10 :: lower[i] as int == '0' as int + i;
    assert forall i | 10 <= i < 16 :: lower[i] as int == 'a' as int + i - 10;
  }

  // An escaped character is scanned and decoded as one unit.
  lemma EscapedScans(c: char, rest: string)
    requires c != NUL
    ensures ScanEnd(EscapeChar(c) + rest) ==
            (if ScanEnd(rest).None? then None else Some(|EscapeChar(c)| + ScanEnd(rest).value))
  {
    hide EscapeChar, Unicode, Utf8, Hex4, PrintHex4, SimpleEscape, ScanEnd;
    EscapeKinds(c);
    var e := EscapeChar(c);
    if |e| == 1 {
      assert e == [c];
      ScanPlain(c, rest);
    } else if |e| == 2 {
      assert e == ['\\', e[1]];
      ScanPair(e[1], rest);
    } else {
      var t := ['\\', 'u'] + PrintHex4(c as int) + rest;
      assert e + rest == t;
      CodedReads(t, c as int, rest);
    }
  }

  lemma ScanPlain(c: char, rest: string)
    requires c != '\\' && c != '\"'
    ensures ScanEnd([c] + rest) == (if ScanEnd(rest).None? then None else Some(1 + ScanEnd(rest).value))
  {
    assert ([c] + rest)[1..] == rest;
  }

  lemma ScanPair(c: char, rest: string)
    ensures ScanEnd(['\\', c] + rest) == (if ScanEnd(rest).None? then None else Some(2 + ScanEnd(rest).value))
  {
    assert (['\\', c] + rest)[2..] == rest;
  }

  lemma EscapedDecodes(c: char, rest: string)
    requires c != NUL
    ensures Decode(EscapeChar(c) + rest) == Prepend([c], Decode(rest))
  {
    hide EscapeChar, Unicode, Utf8, Hex4, PrintHex4, ScanEnd, SimpleEscape;
    EscapeKinds(c);
    var e := EscapeChar(c);
    var t := e + rest;
    if |e| == 1 {
      assert t[1..] == rest;
    } else if |e| == 2 {
      assert t[1] == e[1] && t[2..] == rest;
    } else {
      assert t[6..] == rest;
      CodedReads(t, c as int, rest);
    }
  }

  lemma CodedReads(t: string, n: nat, rest: string)
    requires 0 < n < 32 && t == ['\\', 'u'] + PrintHex4(n) + rest
    ensures Unicode(t) == Some((n, 6)) && Utf8(n) == [n as char]
    ensures ScanEnd(t) == (if ScanEnd(rest).None? then None else Some(6 + ScanEnd(rest).value))
  {
    hide Hex4, PrintHex4;
    assert t[2..] == PrintHex4(n) + rest;
    HexReads(n, rest);
    ScanHex(t[2..], rest, 4);
  }

  // Scanning passes over hexadecimal digits.
  lemma {:induction false} ScanHex(t: string, rest: string, n: nat)
    requires |t| == n + |rest| && t[n..] == rest && forall i | 0 <= i < n :: HexValue(t[i]).Some?
    ensures ScanEnd(t) == (if ScanEnd(rest).None? then None else Some(n + ScanEnd(rest).value))
  {
    if n > 0 {
      ScanHex(t[1..], rest, n - 1);
    } else {
      assert t == rest;
    }
  }

  lemma {:induction false} EscapeReads(s: string, post: string)
    requires NulFree(s)
    ensures ScanEnd(Escape(s) + ['\"'] + post) == Some(|Escape(s)|)
    ensures Decode(Escape(s)) == Some(s)
  {
    hide EscapeChar;
    var q := ['\"'] + post;
    assert Escape(s) + ['\"'] + post == Escape(s) + q;
    if s != [] {
      EscapeReads(s[1..], post);
      assert Escape(s[1..]) + ['\"'] + post == Escape(s[1..]) + q;
      EscapeMore(s[0], s[1..], q);
      assert [s[0]] + s[1..] == s;
    }
  }

  lemma EscapeMore(c: char, s: string, q: string)
    requires c != NUL && ScanEnd(Escape(s) + q) == Some(|Escape(s)|) && Decode(Escape(s)) == Some(s)
    ensures ScanEnd(EscapeChar(c) + Escape(s) + q) == Some(|EscapeChar(c) + Escape(s)|)
    ensures Decode(EscapeChar(c) + Escape(s)) == Some([c] + s)
  {
    hide EscapeChar, Escape, Decode, ScanEnd;
    EscapedScans(c, Escape(s) + q);
    EscapedDecodes(c, Escape(s));
    assert EscapeChar(c) + Escape(s) + q == EscapeChar(c) + (Escape(s) + q);
  }

  /** Parsing a printed string gives the string back, whatever follows it. */
  lemma QuoteReads(s: string, post: string)
    requires NulFree(s)
    ensures ParseString(Quote(s) + post) == Done(s, post)
  {
    hide EscapeChar, Escape, Decode, ScanEnd, NulFree;
    var t := Quote(s) + post;
    EscapeReads(s, post);
    assert t[1..] == Escape(s) + ['\"'] + post;
    assert t[1..][..|Escape(s)|] == Escape(s);
    assert t[1..][|Escape(s)| + 1..] == post;
  }

  // ---- The source's two passes ---------------------------------------------------------------

  // The first pass: the end of the literal and its units.
  method ScanLiteral(body: string) returns (ok: bool, end: nat, len: nat)
    ensures ok <==> ScanEnd(body).Some?
    ensures ok ==> ScanEnd(body) == Some(end) && end <= |body| && len == Units(body[..end])
  {
    ok, end, len := true, 0, 0;
    ghost var e := ScanEnd(body);
    assert body[0..] == body;
    while end < |body| && body[end] != '\"'
      invariant end <= |body|
      invariant e.None? <==> ScanEnd(body[end..]).None?
      invariant e.Some? ==> end <= e.value && ScanEnd(body[end..]) == Some(e.value - end)
      invariant e.Some? ==> len + Units(body[end..e.value]) == Units(body[..e.value])
      decreases |body| - end
    {
      ghost var at := end;
      len := len + 1;
      end := end + 1;
      if body[end - 1] == '\\' {
        if end == |body| {
          ok := false;
          return;
        }
        end := end + 1;
      }
      assert body[at..][end - at..] == body[end..];
      assert e.Some? ==> body[at..e.value][end - at..] == body[end..e.value];
    }
  }

  // The lead byte's mark for a sequence of `n` bytes.
  function FirstByteMark(n: nat): nat
    requires 1 <= n <= 4
  {
    if n == 1 then 0x00 else if n == 2 then 0xC0 else if n == 3 then 0xE0 else 0xF0
  }

  // Writes the bytes of a code point from the last to the first.
  method PutUtf8(out: array<char>, at: nat, cp: nat) returns (next: nat)
    requires cp <= 0x10FFFF && at + |Utf8(cp)| <= out.Length
    modifies out
    ensures next == at + |Utf8(cp)| && out[..next] == old(out[..at]) + Utf8(cp)
  {
    var n := if cp < 0x80 then 1 else if cp < 0x800 then 2 else if cp < 0x10000 then 3 else 4;
    var uc := cp;
    next := at + n;
    if n == 4 {
      out[at + 3], uc := Byte(0x80 + uc % 0x40), uc / 0x40;
    }
    if n >= 3 {
      out[at + 2], uc := Byte(0x80 + uc % 0x40), uc / 0x40;
    }
    if n >= 2 {
      out[at + 1], uc := Byte(0x80 + uc % 0x40), uc / 0x40;
    }
    LeadByte(cp, n);
    out[at] := Byte(uc + FirstByteMark(n));
    assert cp / 0x40 / 0x40 == cp / 0x1000;
  }

  lemma LeadByte(cp: nat, n: nat)
    requires cp <= 0x10FFFF && n == if cp < 0x80 then 1 else if cp < 0x800 then 2 else if cp < 0x10000 then 3 else 4
    ensures n == 1 ==> cp < 0x80
    ensures n == 2 ==> cp / 0x40 < 0x20
    ensures n == 3 ==> cp / 0x40 / 0x40 == cp / 0x1000 < 0x10
    ensures n == 4 ==> cp / 0x40 / 0x40 == cp / 0x1000 && cp / 0x1000 / 0x40 == cp / 0x40000 < 8
  {
  }

  /** parse_string: the buffer sized by the first pass is never overrun by the second. */
  method ReadString(t: string) returns (r: Parsed<string>)
    ensures r == ParseString(t)
  {
    if t == [] || t[0] != '\"' {
      return Fail(Some(t));
    }
    var body := t[1..];
    var ok, end, len := ScanLiteral(body);
    if !ok {
      return Fail(None);
    }
    var lit, out := body[..end], new char[len + 1];
    var good, n := DecodeInto(lit, out);
    if !good {
      return Fail(Some(t));
    }
    out[n] := NUL;
    return Done(out[..n], if end < |body| then body[end + 1..] else []);
  }

  // The second pass.
  method DecodeInto(lit: string, out: array<char>) returns (ok: bool, n: nat)
    requires Units(lit) < out.Length
    modifies out
    ensures ok <==> Decode(lit).Some?
    ensures ok ==> n < out.Length && Decode(lit) == Some(out[..n])
  {
    hide Decode, Units;
    var i: nat := 0;
    ok, n := true, 0;
    assert lit[0..] == lit;
    PrependNothing(Decode(lit));
    while i < |lit|
      invariant i <= |lit| && n + Units(lit[i..]) < out.Length
      invariant Decode(lit) == Prepend(out[..n], Decode(lit[i..]))
      decreases |lit| - i
    {
      ghost var done := out[..n];
      var good, i', n' := DecodeOne(lit, i, out, n);
      if !good {
        return false, 0;
      }
      PrependTwice(done, out[n..n'], Decode(lit[i'..]));
      assert out[..n'] == done + out[n..n'];
      i, n := i', n';
    }
    assert lit[i..] == [] && out[..n] + [] == out[..n];
    NothingLeft();
  }

  lemma NothingLeft()
    ensures Decode([]) == Some([]) && Units([]) == 0
  {
  }

  lemma PrependNothing(d: Option<string>)
    ensures Prepend([], d) == d
  {
    if d.Some? {
      assert [] + d.value == d.value;
    }
  }

  lemma PrependTwice(a: string, b: string, d: Option<string>)
    ensures Prepend(a, Prepend(b, d)) == Prepend(a + b, d)
  {
    if d.Some? {
      assert a + (b + d.value) == a + b + d.value;
    }
  }

  // Decodes the piece at `i` into the buffer at `n`.
  method DecodeOne(lit: string, i: nat, out: array<char>, n: nat) returns (ok: bool, i': nat, n': nat)
    requires i < |lit| && n + Units(lit[i..]) < out.Length
    modifies out
    ensures !ok ==> Decode(lit[i..]).None?
    ensures ok ==> i < i' <= |lit| && n' + Units(lit[i'..]) < out.Length && n <= n'
                   && out[..n] == old(out[..n]) && Decode(lit[i..]) == Prepend(out[n..n'], Decode(lit[i'..]))
  {
    hide Utf8, Unicode;
    ok, i', n' := true, i, n;
    ghost var rest := lit[i..];
    if lit[i] != '\\' {
      assert rest[1..] == lit[i + 1..];
      out[n] := lit[i];
      i', n' := i + 1, n + 1;
      return;
    }
    if i + 1 == |lit| {
      ok := false;
      return;
    }
    if lit[i + 1] == 'u' {
      var u := Unicode(lit[i..]);
      if u.None? {
        ok := false;
        return;
      }
      UnicodeUnits(rest);
      assert rest[u.value.1..] == lit[i + u.value.1..];
      n' := PutUtf8(out, n, u.value.0);
      i' := i + u.value.1;
      return;
    }
    var e := SimpleEscape(lit[i + 1]);
    if e.None? {
      ok := false;
      return;
    }
    assert rest[2..] == lit[i + 2..];
    out[n] := e.value;
    i', n' := i + 2, n + 1;
  }

  // ---- The source's printing passes ------------------------------------------------------

  // Whether anything needs escaping, and how long the escaped text is.
  method StringNeeds(s: string) returns (flag: bool, len: nat)
    requires NulFree(s)
    ensures len == |Escape(s)| && (!flag ==> Escape(s) == s)
  {
    flag := NeedsEscape(s);
    if flag {
      len := EscapedSize(s);
    } else {
      len := |s|;
    }
  }

  method NeedsEscape(s: string) returns (flag: bool)
    requires NulFree(s)
    ensures !flag ==> Escape(s) == s
  {
    hide EscapeChar;
    flag := false;
    assert s[0..] == s;
    for i := 0 to |s|
      invariant !flag ==> Escape(s) == s[..i] + Escape(s[i..])
    {
      assert s[i..][1..] == s[i + 1..];
      if 0 < s[i] as int < 32 || s[i] == '\"' || s[i] == '\\' {
        flag := true;
      } else {
        PlainEscape(s[i]);
        assert !flag ==> s[..i] + ([s[i]] + Escape(s[i + 1..])) == s[..i + 1] + Escape(s[i + 1..]);
      }
    }
    assert s[..|s|] == s && s[|s|..] == [] && s + [] == s;
  }

  method EscapedSize(s: string) returns (len: nat)
    ensures len == |Escape(s)|
  {
    hide EscapeChar;
    len := 0;
    assert s[0..] == s;
    for i := 0 to |s|
      invariant len + |Escape(s[i..])| == |Escape(s)|
    {
      assert s[i..][1..] == s[i + 1..];
      EscapeSize(s[i]);
      len := len + 1;
      if s[i] in "\"\\\n\r\t" || s[i] as int == 8 || s[i] as int == 12 {
        len := len + 1;
      } else if s[i] as int < 32 {
        len := len + 5;
      }
    }
    assert s[|s|..] == [];
  }

  lemma PlainEscape(c: char)
    requires c as int >= 32 && c != '\"' && c != '\\'
    ensures EscapeChar(c) == [c]
  {
  }

  lemma EscapeSize(c: char)
    ensures |EscapeChar(c)| == if c in "\"\\\n\r\t" || c as int == 8 || c as int == 12 then 2
                               else if c as int < 32 then 6 else 1
  {
  }

  /** print_string_ptr into space that has room for it: straight copying when
      nothing needs escaping, character by character otherwise. */
  method WriteQuoted(out: array<char>, at: nat, s: string, flag: bool)
    requires at + |Escape(s)| + 3 <= out.Length && (!flag ==> Escape(s) == s)
    modifies out
    ensures out[..at + |Escape(s)| + 2] == old(out[..at]) + Quote(s) && out[at + |Escape(s)| + 2] == NUL
  {
    hide Escape;
    out[at] := '\"';
    if flag {
      WriteEscaped(out, at + 1, s);
    } else {
      forall i | 0 <= i < |s| {
        out[at + 1 + i] := s[i];
      }
    }
    ghost var text := old(out[..at]) + ['\"'] + Escape(s);
    assert out[..at + 1 + |Escape(s)|] == text;
    out[at + 1 + |Escape(s)|] := '\"';
    out[at + 2 + |Escape(s)|] := NUL;
  }

  method WriteEscaped(out: array<char>, at: nat, s: string)
    requires at + |Escape(s)| <= out.Length
    modifies out
    ensures out[..at + |Escape(s)|] == old(out[..at]) + Escape(s)
  {
    hide EscapeChar;
    var to := at;
    assert s[0..] == s;
    for i := 0 to |s|
      invariant at <= to && to + |Escape(s[i..])| == at + |Escape(s)|
      invariant old(out[..at]) + Escape(s) == out[..to] + Escape(s[i..])
    {
      assert s[i..][1..] == s[i + 1..];
      ghost var so := out[..to];
      var e := EscapeChar(s[i]);
      forall k | 0 <= k < |e| {
        out[to + k] := e[k];
      }
      to := to + |e|;
      assert out[..to] == so + e;
    }
    assert s[|s|..] == [];
  }
}
