/** What the characters of a JSON text mean, in the terms of RFC 8259 and RFC 3629 rather than of the
    reader: the spelling of strings, numbers and white space, and the printer's choice among spellings. */
module JsonGrammar {
  import opened Json
  import opened JsonCodec
  import opened JsonProofs

  // -------------------------------------------------------------------------- UTF-8 octets

  /** An octet `10xxxxxx`. */
  predicate Follows(c: char) {
    0x80 <= c as int <= 0xBF
  }

  /** The octets are the one, two or three that section 3 of RFC 3629 lays down for a code point below
      0x10000: `0xxxxxxx`, `110xxxxx 10xxxxxx` or `1110xxxx 10xxxxxx 10xxxxxx`. */
  predicate Encodes(octets: string, cp: nat) {
    || (|octets| == 1 && cp < 0x80 && cp == octets[0] as int)
    || (|octets| == 2 && 0x80 <= cp < 0x800 && 0xC0 <= octets[0] as int <= 0xDF && Follows(octets[1])
        && cp == (octets[0] as int - 0xC0) * 64 + (octets[1] as int - 0x80))
    || (|octets| == 3 && 0x800 <= cp < 0x10000 && 0xE0 <= octets[0] as int <= 0xEF && Follows(octets[1]) && Follows(octets[2])
        && cp == ((octets[0] as int - 0xE0) * 64 + (octets[1] as int - 0x80)) * 64 + (octets[2] as int - 0x80))
  }

  /** The encoding of a code point is unique. */
  lemma EncodesOnce(x: string, y: string, cp: nat)
    requires Encodes(x, cp) && Encodes(y, cp)
    ensures x == y
  {
    assert |x| == |y|;
  }

  lemma Utf8Encodes(cp: nat)
    requires cp < 0x10000
    ensures Encodes(Utf8(cp), cp)
  {
    SixBits(cp);
    var o := Utf8(cp);
    if cp < 0x80 {
      assert |o| == 1;
    } else if cp < 0x800 {
      assert |o| == 2 && o[0] as int == 0xC0 + cp / 64 && o[1] as int == 0x80 + cp % 64;
    } else {
      assert |o| == 3 && o[0] as int == 0xE0 + cp / 4096 && o[1] as int == 0x80 + cp / 64 % 64 && o[2] as int == 0x80 + cp % 64;
    }
  }

  lemma SixBits(cp: nat)
    ensures cp == (cp / 64) * 64 + cp % 64 && cp / 64 == (cp / 4096) * 64 + cp / 64 % 64
  {
  }

  // ------------------------------------------------------------------------------- strings

  /** `c` is the hex digit for `d`, in either case. */
  predicate HexFor(c: char, d: nat) {
    d < 16 && (c == "0123456789abcdef"[d] || c == "0123456789ABCDEF"[d])
  }

  /** The octet that a backslash and `c` stand for. */
  predicate ShortFor(c: char, octet: char) {
    (c, octet as int) in {('"', 0x22), ('\\', 0x5C), ('/', 0x2F), ('b', 0x08), ('f', 0x0C), ('n', 0x0A), ('r', 0x0D), ('t', 0x09)}
  }

  /** One character of a string literal as it is spelled, and the octets it stands for. */
  datatype Piece =
    | Plain(c: char)
    | Short(c: char, octet: char)
    | Unicode(h: string, d: seq<nat>, octets: string)

  predicate IsPiece(p: Piece) {
    match p
    case Plain(c) => c != '"' && c != '\\'
    case Short(c, octet) => ShortFor(c, octet)
    case Unicode(h, d, octets) =>
      && |h| == 4 && |d| == 4 && (forall i :: 0 <= i < 4 ==> HexFor(h[i], d[i]))
      && Encodes(octets, ((d[0] * 16 + d[1]) * 16 + d[2]) * 16 + d[3])
  }

  function Spelled(p: Piece): string {
    match p
    case Plain(c) => [c]
    case Short(c, _) => ['\\', c]
    case Unicode(h, _, _) => "\\u" + h
  }

  function Meant(p: Piece): string {
    match p
    case Plain(c) => [c]
    case Short(_, octet) => [octet]
    case Unicode(_, _, octets) => octets
  }

  function SpelledAll(ps: seq<Piece>): string {
    if ps == [] then "" else Spelled(ps[0]) + SpelledAll(ps[1..])
  }

  function MeantAll(ps: seq<Piece>): string {
    if ps == [] then "" else Meant(ps[0]) + MeantAll(ps[1..])
  }

  predicate ArePieces(ps: seq<Piece>) {
    forall i :: 0 <= i < |ps| ==> IsPiece(ps[i])
  }

  lemma HexDigitIs(c: char, d: nat)
    requires HexFor(c, d)
    ensures IsHex(c) && HexValue(c) == d
  {
  }

  lemma HexDigitOf(c: char) returns (d: nat)
    requires IsHex(c)
    ensures HexFor(c, d)
  {
    d := HexValue(c);
  }

  lemma ShortIs(c: char, octet: char)
    ensures ShortFor(c, octet) <==> IsShortEscape(c) && octet == Unescape(c)
    ensures !IsShortEscape('u')
  {
  }

  lemma UnicodeIs(h: string, d: seq<nat>)
    requires |h| == 4 && |d| == 4 && forall i :: 0 <= i < 4 ==> HexFor(h[i], d[i])
    ensures (forall i :: 0 <= i < 4 ==> IsHex(h[i])) && HexQuad(h) == ((d[0] * 16 + d[1]) * 16 + d[2]) * 16 + d[3]
  {
    HexDigitIs(h[0], d[0]);
    HexDigitIs(h[1], d[1]);
    HexDigitIs(h[2], d[2]);
    HexDigitIs(h[3], d[3]);
    hide HexFor;
  }

  lemma PieceReads(p: Piece, acc: string, more: string)
    requires IsPiece(p)
    ensures ReadChars(Spelled(p) + more, acc) == ReadChars(more, acc + Meant(p))
  {
    hide Utf8, HexQuad, Unescape, IsShortEscape, IsHex, ShortFor, HexFor, Encodes;
    var s := Spelled(p) + more;
    assert s[|Spelled(p)|..] == more;
    match p {
      case Plain(c) =>
      case Short(c, octet) => ShortIs(c, octet);
      case Unicode(h, d, octets) =>
        UnicodeIs(h, d);
        Utf8Encodes(HexQuad(h));
        EncodesOnce(Utf8(HexQuad(h)), octets, HexQuad(h));
        assert s[2..6] == h;
        ShortIs('u', 'u');
    }
  }

  lemma Regrouped(x: string, y: string, z: string)
    ensures x + y + "\"" + z == x + (y + "\"" + z) && x + y + z == x + (y + z)
  {
  }

  lemma {:induction false} PiecesRead(ps: seq<Piece>, acc: string, suf: string)
    requires ArePieces(ps)
    ensures ReadChars(SpelledAll(ps) + "\"" + suf, acc) == Good(acc + MeantAll(ps), suf)
  {
    hide IsPiece, Spelled, Meant;
    if ps == [] {
      assert SpelledAll(ps) + "\"" + suf == "\"" + suf;
      assert ("\"" + suf)[1..] == suf && acc + "" == acc;
    } else {
      hide ReadChars;
      PieceReads(ps[0], acc, SpelledAll(ps[1..]) + "\"" + suf);
      PiecesRead(ps[1..], acc + Meant(ps[0]), suf);
      Regrouped(Spelled(ps[0]), SpelledAll(ps[1..]), suf);
      Regrouped(acc, Meant(ps[0]), MeantAll(ps[1..]));
    }
  }

  /** The piece at the start of a text that is read on. */
  lemma FirstPiece(s: string, acc: string) returns (p: Piece, more: string)
    requires ReadChars(s, acc).Good? && s[0] != '"'
    ensures IsPiece(p) && s == Spelled(p) + more && |more| < |s|
  {
    hide Utf8, HexQuad, Unescape, HexFor, Encodes, ShortFor, IsHex;
    if s[0] != '\\' {
      p, more := Plain(s[0]), s[1..];
    } else if IsShortEscape(s[1]) {
      ShortIs(s[1], Unescape(s[1]));
      p, more := Short(s[1], Unescape(s[1])), s[2..];
    } else {
      hide IsShortEscape;
      assert forall i :: 0 <= i < 4 ==> s[2..6][i] == s[i + 2];
      p := UnicodeOf(s[2..6]);
      more := s[6..];
      assert s == "\\u" + s[2..6] + s[6..];
    }
  }

  /** The piece that four hex digits spell. */
  lemma UnicodeOf(h: string) returns (p: Piece)
    requires |h| == 4 && forall i :: 0 <= i < 4 ==> IsHex(h[i])
    ensures IsPiece(p) && Spelled(p) == "\\u" + h
  {
    hide Utf8, HexQuad, HexFor, Encodes, IsHex;
    var a := HexDigitOf(h[0]);
    var b := HexDigitOf(h[1]);
    var c := HexDigitOf(h[2]);
    var d := HexDigitOf(h[3]);
    UnicodeIs(h, [a, b, c, d]);
    Utf8Encodes(HexQuad(h));
    p := Unicode(h, [a, b, c, d], Utf8(HexQuad(h)));
  }

  lemma {:induction false} ReadIsPieces(s: string, acc: string) returns (ps: seq<Piece>)
    requires ReadChars(s, acc).Good?
    ensures ArePieces(ps)
    ensures var r := ReadChars(s, acc); s == SpelledAll(ps) + "\"" + r.rest && r.value == acc + MeantAll(ps)
    decreases |s|
  {
    hide IsPiece, Spelled, Meant;
    if s[0] == '"' {
      ps := [];
      assert s == "" + "\"" + s[1..] && acc + "" == acc;
    } else {
      var p, more := FirstPiece(s, acc);
      PieceReads(p, acc, more);
      hide ReadChars;
      var rest := ReadIsPieces(more, acc + Meant(p));
      ps := [p] + rest;
      assert ps[1..] == rest;
      var tail := "\"" + ReadChars(s, acc).rest;
      assert Spelled(p) + (SpelledAll(rest) + tail) == Spelled(p) + SpelledAll(rest) + tail;
      assert acc + Meant(p) + MeantAll(rest) == acc + (Meant(p) + MeantAll(rest));
    }
  }

  /** `s` is a quote, pieces that stand for `octets`, a quote and `suf`. */
  predicate Literal(s: string, ps: seq<Piece>, octets: string, suf: string) {
    ArePieces(ps) && s == "\"" + SpelledAll(ps) + "\"" + suf && octets == MeantAll(ps)
  }

  /** A string literal is accepted exactly when it is a quote, pieces and a quote, and then it stands for
      the octets of its pieces, in order. */
  lemma StringExactly(s: string, octets: string, suf: string)
    ensures ReadString(s) == Good(octets, suf) <==> exists ps :: Literal(s, ps, octets, suf)
  {
    hide ReadChars, ArePieces, SpelledAll, MeantAll;
    if ReadString(s) == Good(octets, suf) {
      var ps := ReadIsPieces(s[1..], "");
      assert s == "\"" + (SpelledAll(ps) + "\"" + suf) == "\"" + SpelledAll(ps) + "\"" + suf;
      assert "" + MeantAll(ps) == MeantAll(ps);
      assert Literal(s, ps, octets, suf);
    }
    if exists ps :: Literal(s, ps, octets, suf) {
      var ps :| Literal(s, ps, octets, suf);
      PiecesRead(ps, "", suf);
      assert s[1..] == SpelledAll(ps) + "\"" + suf && "" + MeantAll(ps) == MeantAll(ps);
    }
  }

  /** Which spelling the printer chooses for an octet: itself where that is allowed, else two characters
      where two will do, else six with lower-case digits. */
  lemma PrintedPiece(c: char) returns (p: Piece)
    ensures IsPiece(p) && Spelled(p) == EscapeChar(c) && Meant(p) == [c]
    ensures p.Plain? <==> c as int >= 0x20 && c as int !in {0x22, 0x5C}
    ensures p.Short? <==> c as int in {0x22, 0x5C, 0x08, 0x09, 0x0A, 0x0C, 0x0D}
    ensures p.Unicode? ==> forall i :: 0 <= i < 4 ==> !('A' <= p.h[i] <= 'F')
  {
    var e := EscapeChar(c);
    if |e| == 1 {
      p := Plain(c);
    } else if |e| == 2 {
      p := Short(e[1], c);
    } else {
      hide EscapeChar;
      p := PrintedControl(c);
    }
  }

  lemma PrintedControl(c: char) returns (p: Piece)
    requires |EscapeChar(c)| == 6
    ensures p.Unicode? && IsPiece(p) && Spelled(p) == EscapeChar(c) && Meant(p) == [c]
    ensures c as int < 0x20 && c as int !in {0x22, 0x5C, 0x08, 0x09, 0x0A, 0x0C, 0x0D}
    ensures forall i :: 0 <= i < 4 ==> !('A' <= p.h[i] <= 'F')
  {
    ControlSpelled(c);
    hide EscapeChar, HexFor, Encodes;
    var hi, lo := c as int / 16, c as int % 16;
    LowerHex(0);
    LowerHex(hi);
    LowerHex(lo);
    EncodesControl(c);
    hide HexDigit;
    p := Unicode(['0', '0', HexDigit(hi), HexDigit(lo)], [0, 0, hi, lo], [c]);
  }

  lemma EncodesControl(c: char)
    requires c as int < 0x80
    ensures Encodes([c], ((0 * 16 + 0) * 16 + c as int / 16) * 16 + c as int % 16)
  {
  }

  lemma ControlSpelled(c: char)
    requires |EscapeChar(c)| == 6
    ensures c as int < 0x20 && c as int !in {0x22, 0x5C, 0x08, 0x09, 0x0A, 0x0C, 0x0D}
    ensures EscapeChar(c) == "\\u" + ['0', '0', HexDigit(c as int / 16), HexDigit(c as int % 16)]
  {
    hide HexDigit;
  }

  lemma LowerHex(d: nat)
    requires d < 16
    ensures !('A' <= HexDigit(d) <= 'F') && HexFor(HexDigit(d), d)
    ensures HexDigit(0) == '0'
  {
  }

  // ------------------------------------------------------------------------------- numbers

  /** `token` is a run of number characters that `suf` does not go on with. */
  predicate IsToken(token: string, suf: string) {
    && token != "" && (forall i :: 0 <= i < |token| ==> token[i] in "0123456789.eE+-")
    && (suf != "" ==> suf[0] !in "0123456789.eE+-")
  }

  /** Nothing but digits behind at most one sign. */
  predicate IsInteger(token: string) {
    forall i :: 0 <= i < |token| ==> token[i] in "0123456789" || (i == 0 && token[i] in "+-")
  }

  lemma NumberCharIs(c: char)
    ensures IsNumberChar(c) <==> c in "0123456789.eE+-"
    ensures IsDigit(c) <==> c in "0123456789"
  {
  }

  lemma IntegerIs(token: string)
    ensures AllDigits(Unsigned(token)) <==> IsInteger(token)
  {
    hide IsDigit;
    forall c: char ensures IsDigit(c) <==> c in "0123456789" { NumberCharIs(c); }
    var u := Unsigned(token);
    if u != token {
      assert forall i :: 0 <= i < |u| ==> u[i] == token[i + 1];
      if IsInteger(token) {
        forall i | 0 <= i < |u| ensures IsDigit(u[i]) { assert token[i + 1] in "0123456789"; }
      }
    } else if token != "" && AllDigits(token) {
      assert IsInteger(token);
    }
  }

  /** A number is the longest run of digits, points, exponents and signs, if there is any; it is an integer
      exactly when it has nothing but digits behind at most one sign, and keeps its literal otherwise. */
  lemma NumberExactly(token: string, suf: string)
    requires IsToken(token, suf)
    ensures ReadNumber(token + suf).Good? && ReadNumber(token + suf).rest == suf
    ensures var v := ReadNumber(token + suf).value;
            if IsInteger(token) then v.Int? else v == Double(token)
    ensures ReadNumber(suf) == Bad
  {
    hide IsNumberChar, StrToLL;
    forall c: char ensures IsNumberChar(c) <==> c in "0123456789.eE+-" { NumberCharIs(c); }
    TokenReads(token, suf);
    IntegerIs(token);
  }

  function Saturated(i: int): int64 {
    if i < -0x8000_0000_0000_0000 then -0x8000_0000_0000_0000
    else if i > 0x7FFF_FFFF_FFFF_FFFF then 0x7FFF_FFFF_FFFF_FFFF
    else i
  }

  /** Every integer, however large, is read as the 64-bit one nearest to it. */
  lemma IntegerSaturates(i: int, suf: string)
    requires Stop(suf)
    ensures ReadNumber(IntText(i) + suf) == Good(Int(Saturated(i)), suf)
  {
    hide NumberSpan, DigitsValue, NatText;
    var magnitude := if i < 0 then -i else i;
    NatTextValue(magnitude);
    var text := IntText(i);
    assert Unsigned(text) == NatText(magnitude);
    NumberChars(text);
    hide IntText, Unsigned;
    TokenReads(text, suf);
  }

  /** An integer prints without leading zeros or plus sign. */
  lemma IntTextCanonical(i: int)
    ensures i < 0 <==> IntText(i)[0] == '-'
    ensures i != 0 ==> IntText(i)[if i < 0 then 1 else 0] in "123456789"
    ensures i == 0 ==> IntText(i) == "0"
    ensures IsInteger(IntText(i))
  {
    hide DigitsValue;
    NatTextFirst(if i < 0 then -i else i);
    var text := NatText(if i < 0 then -i else i);
    NatTextValue(if i < 0 then -i else i);
    forall c: char ensures IsDigit(c) <==> c in "0123456789" { NumberCharIs(c); }
    hide IsDigit, NatText;
    assert i < 0 ==> IntText(i)[1..] == text;
  }

  lemma {:induction false} NatTextFirst(n: nat)
    ensures NatText(n) != "" && (n > 0 ==> NatText(n)[0] in "123456789")
  {
    if n >= 10 { NatTextFirst(n / 10); }
  }

  // ---------------------------------------------------------------------------- white space

  predicate Blank(ws: string) {
    forall i :: 0 <= i < |ws| ==> ws[i] as int in {0x20, 0x09, 0x0A, 0x0D}
  }

  /** Spaces, tabs and line ends in front of a value change nothing, and nothing else is skipped. */
  lemma {:induction false} BlankSkipped(ws: string, s: string)
    requires Blank(ws)
    ensures SkipSpace(ws + s) == SkipSpace(s) && ReadValue(ws + s) == ReadValue(s)
    ensures s != "" && s[0] as int !in {0x20, 0x09, 0x0A, 0x0D} ==> SkipSpace(s) == s
  {
    if ws == "" {
      assert ws + s == s;
    } else {
      BlankSkipped(ws[1..], s);
      assert (ws + s)[1..] == ws[1..] + s;
    }
  }

  // -------------------------------------------------------------------------------- objects

  /** `a` comes before `b`: it is a proper beginning of it, or smaller at the first octet that differs. */
  ghost predicate Before(a: string, b: string) {
    exists k :: BeforeAt(a, b, k)
  }

  predicate BeforeAt(a: string, b: string, k: nat) {
    && k <= |a| && k < |b| && (forall i :: 0 <= i < k ==> a[i] == b[i])
    && (k == |a| || a[k] as int < b[k] as int)
  }

  /** Members stand in the order of their keys' octets. */
  lemma {:induction false} LessIsBefore(a: string, b: string)
    ensures Less(a, b) <==> Before(a, b)
  {
    if b == "" {
    } else if a == "" {
      assert BeforeAt(a, b, 0);
    } else if a[0] == b[0] {
      LessIsBefore(a[1..], b[1..]);
      if Before(a[1..], b[1..]) {
        var k: nat :| BeforeAt(a[1..], b[1..], k);
        assert forall i :: 0 <= i < k + 1 ==> a[i] == b[i] by {
          forall i | 0 <= i < k + 1 ensures a[i] == b[i] {
            if i > 0 { assert a[1..][i - 1] == b[1..][i - 1]; }
          }
        }
        assert BeforeAt(a, b, k + 1);
      }
      if Before(a, b) {
        var k: nat :| BeforeAt(a, b, k);
        assert BeforeAt(a[1..], b[1..], k - 1);
      }
    } else {
      if a[0] < b[0] { assert BeforeAt(a, b, 0); }
      if Before(a, b) {
        var k: nat :| BeforeAt(a, b, k);
        assert k == 0;
      }
    }
  }

  /** `operator[]` and `has` answer by the members of an object, and Null for anything else. */
  lemma {:induction false} LookupExactly(ms: seq<Member>, k: string, v: Value)
    requires Sorted(ms)
    ensures Member(k, v) in ms <==> Has(Obj(ms), k) && Lookup(Obj(ms), k) == v
    ensures !Has(Obj(ms), k) ==> Lookup(Obj(ms), k) == Null
    ensures Lookup(Str(k), k) == Null && Lookup(Arr([v]), k) == Null && !Has(Arr([v]), k)
  {
    if ms != [] {
      LookupExactly(ms[1..], k, v);
      assert ms == [ms[0]] + ms[1..];
      LessIrreflexive(ms[0].key);
      assert forall i :: 1 <= i < |ms| ==> Less(ms[0].key, ms[i].key);
      LookupExactly(ms[1..], k, Lookup(Obj(ms[1..]), k));
    }
  }
}
