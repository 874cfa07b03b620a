/** The agent's JSON codec (agent/source/json.hpp and agent/source/json.cpp).

    A C++ `std::string` is a `string` here, one `char` for each octet. A value read from a literal
    that has a '.', an exponent or an inner sign is a C++ double: it is kept as the literal it was
    read from, and its numeric value is not modelled. */
module Json {

  type int64 = x: int | -0x8000_0000_0000_0000 <= x < 0x8000_0000_0000_0000

  datatype Value =
    | Null
    | Bool(b: bool)
    | Int(i: int64)
    | Double(literal: string)
    | Str(s: string)
    | Arr(items: seq<Value>)
    | Obj(members: seq<Member>)

  datatype Member = Member(key: string, value: Value)

  // ---------------------------------------------------------------- objects as sorted maps

  /** The order `std::map<std::string, Value>` keeps its keys in. */
  predicate Less(a: string, b: string) {
    if b == "" then false
    else if a == "" then true
    else if a[0] == b[0] then Less(a[1..], b[1..])
    else a[0] < b[0]
  }

  lemma {:induction false} LessTotal(a: string, b: string)
    ensures Less(a, b) || a == b || Less(b, a)
  {
    if a != "" && b != "" && a[0] == b[0] {
      LessTotal(a[1..], b[1..]);
      assert a == [a[0]] + a[1..] && b == [b[0]] + b[1..];
    }
  }

  lemma {:induction false} LessTransitive(a: string, b: string, c: string)
    requires Less(a, b) && Less(b, c)
    ensures Less(a, c) && a != c
  {
    if a != "" && a[0] == b[0] == c[0] {
      LessTransitive(a[1..], b[1..], c[1..]);
    }
  }

  lemma {:induction false} LessIrreflexive(a: string)
    ensures !Less(a, a)
  {
    if a != "" {
      LessIrreflexive(a[1..]);
    }
  }

  predicate Sorted(ms: seq<Member>) {
    forall i, j :: 0 <= i < j < |ms| ==> Less(ms[i].key, ms[j].key)
  }

  /** `obj_[k] = v` on a `std::map`. */
  function SetMember(ms: seq<Member>, k: string, v: Value): seq<Member> {
    if ms == [] then [Member(k, v)]
    else if ms[0].key == k then [Member(k, v)] + ms[1..]
    else if Less(k, ms[0].key) then [Member(k, v)] + ms
    else [ms[0]] + SetMember(ms[1..], k, v)
  }

  /** The lookup table a member list stands for. */
  function AsMap(ms: seq<Member>): map<string, Value> {
    if ms == [] then map[] else AsMap(ms[1..])[ms[0].key := ms[0].value]
  }

  lemma {:induction false} SetMemberFrom(ms: seq<Member>, k: string, v: Value)
    ensures forall m :: m in SetMember(ms, k, v) ==> m == Member(k, v) || m in ms
  {
    if ms != [] && ms[0].key != k && !Less(k, ms[0].key) {
      SetMemberFrom(ms[1..], k, v);
      assert SetMember(ms, k, v) == [ms[0]] + SetMember(ms[1..], k, v);
    }
  }

  /** Setting a key keeps the keys strictly ascending. */
  lemma {:induction false} SetMemberSorted(ms: seq<Member>, k: string, v: Value)
    requires Sorted(ms)
    ensures Sorted(SetMember(ms, k, v))
  {
    if ms != [] && ms[0].key != k {
      if Less(k, ms[0].key) {
        forall j | 0 <= j < |ms| ensures Less(k, ms[j].key) {
          if j > 0 { LessTransitive(k, ms[0].key, ms[j].key); }
        }
      } else {
        LessTotal(k, ms[0].key);
        SetMemberSorted(ms[1..], k, v);
        SetMemberFrom(ms[1..], k, v);
        var tail := SetMember(ms[1..], k, v);
        assert SetMember(ms, k, v) == [ms[0]] + tail;
        forall j | 0 <= j < |tail| ensures Less(ms[0].key, tail[j].key) {
          if tail[j] != Member(k, v) {
            assert tail[j] in tail;
            var i :| 1 <= i < |ms| && ms[i] == tail[j];
            assert Less(ms[0].key, ms[i].key);
          }
        }
      }
    }
  }

  /** Setting a key changes the lookup table at that key only. */
  lemma {:induction false} SetMemberIsMapUpdate(ms: seq<Member>, k: string, v: Value)
    requires Sorted(ms)
    ensures AsMap(SetMember(ms, k, v)) == AsMap(ms)[k := v]
  {
    if ms != [] {
      var r := SetMember(ms, k, v);
      if ms[0].key == k {
        assert r[1..] == ms[1..];
      } else if Less(k, ms[0].key) {
        assert r[1..] == ms;
      } else {
        assert r[1..] == SetMember(ms[1..], k, v);
        SetMemberIsMapUpdate(ms[1..], k, v);
      }
    }
  }

  /** A key above all others is appended. */
  lemma {:induction false} SetMemberAppends(ms: seq<Member>, k: string, v: Value)
    requires forall i :: 0 <= i < |ms| ==> Less(ms[i].key, k)
    ensures SetMember(ms, k, v) == ms + [Member(k, v)]
  {
    if ms != [] {
      SetMemberAppends(ms[1..], k, v);
      LessIrreflexive(k);
      if Less(k, ms[0].key) { LessTransitive(k, ms[0].key, k); }
    }
  }

  /** Every object in `v` lists its keys in strictly ascending order, as `std::map` does. */
  predicate Valid(v: Value) {
    match v
    case Arr(items) => forall i :: 0 <= i < |items| ==> Valid(items[i])
    case Obj(members) => Sorted(members) && forall i :: 0 <= i < |members| ==> Valid(members[i].value)
    case _ => true
  }

  predicate DoubleFree(v: Value) {
    match v
    case Double(_) => false
    case Arr(items) => forall i :: 0 <= i < |items| ==> DoubleFree(items[i])
    case Obj(members) => forall i :: 0 <= i < |members| ==> DoubleFree(members[i].value)
    case _ => true
  }

  // ------------------------------------------------------------------------------ accessors

  /** `operator[]`: Null when absent or not an object. */
  function Lookup(v: Value, k: string): Value {
    if v.Obj? && k in AsMap(v.members) then AsMap(v.members)[k] else Null
  }

  predicate Has(v: Value, k: string) {
    v.Obj? && k in AsMap(v.members)
  }

  /** `as_int`; `trunc` stands for `static_cast<int64_t>(strtod(literal))`. */
  function AsInt(v: Value, default: int64, trunc: string -> int64): int64 {
    match v
    case Int(i) => i
    case Double(literal) => trunc(literal)
    case _ => default
  }

  function AsString(v: Value): string {
    if v.Str? then v.s else ""
  }

  function AsBool(v: Value, default: bool): bool {
    if v.Bool? then v.b else default
  }

  // -------------------------------------------------------------------------------- printer

  function Digit(d: nat): char
    requires d < 10
  {
    '0' + d as char
  }

  function HexDigit(d: nat): char
    requires d < 16
  {
    if d < 10 then '0' + d as char else 'a' + (d - 10) as char
  }

  function NatText(n: nat): string {
    if n < 10 then [Digit(n)] else NatText(n / 10) + [Digit(n % 10)]
  }

  /** `%lld`. */
  function IntText(i: int): string {
    if i < 0 then "-" + NatText(-i) else NatText(i)
  }

  function EscapeChar(c: char): string {
    if c == '"' then "\\\""
    else if c == '\\' then "\\\\"
    else if c == '\n' then "\\n"
    else if c == '\r' then "\\r"
    else if c == '\t' then "\\t"
    else if c as int == 8 then "\\b"
    else if c as int == 12 then "\\f"
    else if c as int < 0x20 then "\\u00" + [HexDigit(c as int / 16), HexDigit(c as int % 16)]
    else [c]
  }

  function Escape(s: string): string {
    if s == "" then "" else EscapeChar(s[0]) + Escape(s[1..])
  }

  function Quote(s: string): (q: string)
    ensures q != "" && q[0] == '"'
  {
    "\"" + Escape(s) + "\""
  }

  /** What the agent prints for the double that a literal denotes: `%.10g`, or `null` if it is not finite. */
  type Style = string -> string

  /** `Value::dump`. */
  function Print(v: Value, fmt: Style): string {
    match v
    case Null => "null"
    case Bool(b) => if b then "true" else "false"
    case Int(i) => IntText(i)
    case Double(literal) => fmt(literal)
    case Str(s) => Quote(s)
    case Arr(items) => "[" + PrintItems(items, fmt) + "]"
    case Obj(members) => "{" + PrintMembers(members, fmt) + "}"
  }

  function PrintItems(items: seq<Value>, fmt: Style): string {
    if items == [] then ""
    else if |items| == 1 then Print(items[0], fmt)
    else Print(items[0], fmt) + "," + PrintItems(items[1..], fmt)
  }

  function PrintMember(m: Member, fmt: Style): (r: string)
    ensures r != "" && r[0] == '"'
  {
    Quote(m.key) + ":" + Print(m.value, fmt)
  }

  function PrintMembers(members: seq<Member>, fmt: Style): (r: string)
    ensures members != [] ==> r != "" && r[0] == '"'
  {
    if members == [] then ""
    else if |members| == 1 then PrintMember(members[0], fmt)
    else PrintMember(members[0], fmt) + "," + PrintMembers(members[1..], fmt)
  }

  function NoDoubles(literal: string): string {
    ""
  }

  /** `Value::dump` for a value without doubles, where the style does not matter. */
  function Dump(v: Value): string
    requires DoubleFree(v)
  {
    Print(v, NoDoubles)
  }

  function DumpItems(items: seq<Value>): string
    requires forall i :: 0 <= i < |items| ==> DoubleFree(items[i])
  {
    PrintItems(items, NoDoubles)
  }

  function DumpMember(m: Member): (r: string)
    requires DoubleFree(m.value)
    ensures r != "" && r[0] == '"'
  {
    PrintMember(m, NoDoubles)
  }

  function DumpMembers(members: seq<Member>): (r: string)
    requires forall i :: 0 <= i < |members| ==> DoubleFree(members[i].value)
    ensures members != [] ==> r != "" && r[0] == '"'
  {
    PrintMembers(members, NoDoubles)
  }

  /** How the printed forms are put together. */
  lemma DumpArr(items: seq<Value>)
    requires forall i :: 0 <= i < |items| ==> DoubleFree(items[i])
    ensures Dump(Arr(items)) == "[" + DumpItems(items) + "]"
    ensures items != [] ==>
      DumpItems(items) == if |items| == 1 then Dump(items[0]) else Dump(items[0]) + "," + DumpItems(items[1..])
  {
    hide DoubleFree;
  }

  lemma DumpObj(members: seq<Member>)
    requires forall i :: 0 <= i < |members| ==> DoubleFree(members[i].value)
    ensures Dump(Obj(members)) == "{" + DumpMembers(members) + "}"
    ensures members != [] ==>
      DumpMembers(members)
      == if |members| == 1 then DumpMember(members[0]) else DumpMember(members[0]) + "," + DumpMembers(members[1..])
  {
    hide DoubleFree;
  }

  lemma {:induction false} PrintIsDump(v: Value, fmt: Style)
    requires DoubleFree(v)
    ensures Print(v, fmt) == Dump(v)
    decreases v, 1
  {
    match v
    case Arr(items) => PrintItemsIsDump(items, fmt);
    case Obj(members) => PrintMembersIsDump(members, fmt);
    case _ =>
  }

  lemma {:induction false} PrintItemsIsDump(items: seq<Value>, fmt: Style)
    requires forall i :: 0 <= i < |items| ==> DoubleFree(items[i])
    ensures PrintItems(items, fmt) == DumpItems(items)
    decreases items, 0
  {
    hide DoubleFree;
    if items != [] {
      PrintIsDump(items[0], fmt);
      PrintItemsIsDump(items[1..], fmt);
    }
  }

  lemma {:induction false} PrintMembersIsDump(members: seq<Member>, fmt: Style)
    requires forall i :: 0 <= i < |members| ==> DoubleFree(members[i].value)
    ensures PrintMembers(members, fmt) == DumpMembers(members)
    decreases members, 0
  {
    hide DoubleFree;
    if members != [] {
      PrintIsDump(members[0].value, fmt);
      assert PrintMember(members[0], fmt) == DumpMember(members[0]);
      PrintMembersIsDump(members[1..], fmt);
    }
  }

  // --------------------------------------------------------------------------------- reader

  /** What a parse step makes of the text from the cursor on: failure, or a value and the text
      after the new cursor. */
  datatype Parsed<+T> = Bad | Good(value: T, rest: string)

  predicate IsSpace(c: char) {
    c == ' ' || c == '\t' || c == '\n' || c == '\r'
  }

  function SkipSpace(s: string): (t: string)
    ensures |t| <= |s|
    ensures t != "" ==> !IsSpace(t[0])
  {
    if s != "" && IsSpace(s[0]) then SkipSpace(s[1..]) else s
  }

  predicate IsDigit(c: char) {
    '0' <= c <= '9'
  }

  predicate IsNumberChar(c: char) {
    IsDigit(c) || c == '.' || c == 'e' || c == 'E' || c == '+' || c == '-'
  }

  predicate AllDigits(s: string) {
    forall i :: 0 <= i < |s| ==> IsDigit(s[i])
  }

  function NumberSpan(s: string): (n: nat)
    ensures n <= |s|
    ensures forall i :: 0 <= i < n ==> IsNumberChar(s[i])
    ensures n < |s| ==> !IsNumberChar(s[n])
  {
    if s != "" && IsNumberChar(s[0]) then 1 + NumberSpan(s[1..]) else 0
  }

  function DigitsValue(s: string): nat
    requires AllDigits(s)
  {
    if s == "" then 0 else 10 * DigitsValue(s[..|s| - 1]) + (s[|s| - 1] as int - '0' as int)
  }

  /** Drops one leading sign. */
  function Unsigned(token: string): string {
    if token != "" && (token[0] == '-' || token[0] == '+') then token[1..] else token
  }

  /** `strtoll` in base 10 on an optional sign and digits: out-of-range values saturate. */
  function StrToLL(token: string): int64
    requires AllDigits(Unsigned(token))
  {
    var magnitude: int := DigitsValue(Unsigned(token));
    if token != "" && token[0] == '-' then
      if magnitude > 0x8000_0000_0000_0000 then -0x8000_0000_0000_0000 else -magnitude
    else
      if magnitude > 0x7FFF_FFFF_FFFF_FFFF then 0x7FFF_FFFF_FFFF_FFFF else magnitude
  }

  function NumberOf(token: string): Value {
    if AllDigits(Unsigned(token)) then Int(StrToLL(token)) else Double(token)
  }

  function ReadNumber(s: string): (r: Parsed<Value>)
    ensures r.Good? ==> |r.rest| < |s|
  {
    var n := NumberSpan(s);
    if n == 0 then Bad else Good(NumberOf(s[..n]), s[n..])
  }

  predicate IsHex(c: char) {
    IsDigit(c) || 'a' <= c <= 'f' || 'A' <= c <= 'F'
  }

  function HexValue(c: char): nat
    requires IsHex(c)
    ensures HexValue(c) < 16
  {
    if IsDigit(c) then c as int - '0' as int
    else if 'a' <= c <= 'f' then c as int - 'a' as int + 10
    else c as int - 'A' as int + 10
  }

  function HexQuad(s: string): (cp: nat)
    requires |s| == 4 && forall i :: 0 <= i < 4 ==> IsHex(s[i])
    ensures cp < 0x10000
  {
    HexValue(s[0]) * 4096 + HexValue(s[1]) * 256 + HexValue(s[2]) * 16 + HexValue(s[3])
  }

  /** One, two or three UTF-8 octets for a 16-bit code unit; surrogates are not paired. */
  function Utf8(cp: nat): string
    requires cp < 0x10000
  {
    if cp < 0x80 then [cp as char]
    else if cp < 0x800 then [(0xC0 + cp / 64) as char, (0x80 + cp % 64) as char]
    else [(0xE0 + cp / 4096) as char, (0x80 + cp / 64 % 64) as char, (0x80 + cp % 64) as char]
  }

  predicate IsShortEscape(e: char) {
    e == '"' || e == '\\' || e == '/' || e == 'n' || e == 'r' || e == 't' || e == 'b' || e == 'f'
  }

  function Unescape(e: char): char
    requires IsShortEscape(e)
  {
    if e == 'n' then '\n' else if e == 'r' then '\r' else if e == 't' then '\t'
    else if e == 'b' then 8 as char else if e == 'f' then 12 as char else e
  }

  /** The body of a string literal up to and past its closing quote; `acc` is what `out` holds. */
  function ReadChars(s: string, acc: string): (r: Parsed<string>)
    ensures r.Good? ==> |r.rest| < |s|
  {
    if s == "" then Bad
    else if s[0] == '"' then Good(acc, s[1..])
    else if s[0] != '\\' then ReadChars(s[1..], acc + [s[0]])
    else if |s| < 2 then Bad
    else if IsShortEscape(s[1]) then ReadChars(s[2..], acc + [Unescape(s[1])])
    else if s[1] != 'u' || |s| < 6 then Bad
    else if forall i :: 2 <= i < 6 ==> IsHex(s[i]) then ReadChars(s[6..], acc + Utf8(HexQuad(s[2..6])))
    else Bad
  }

  function ReadString(s: string): (r: Parsed<string>)
    ensures r.Good? ==> |r.rest| < |s|
  {
    if s == "" || s[0] != '"' then Bad else ReadChars(s[1..], "")
  }

  function ReadWord(s: string, word: string, v: Value): (r: Parsed<Value>)
    ensures r.Good? ==> r.value == v && word <= s && r.rest == s[|word|..]
  {
    if word <= s then Good(v, s[|word|..]) else Bad
  }

  function ReadValue(s: string): (r: Parsed<Value>)
    ensures r.Good? ==> |r.rest| < |s|
    decreases |s|, 2
  {
    var t := SkipSpace(s);
    if t == "" then Bad
    else if t[0] == '{' then
      var u := SkipSpace(t[1..]);
      if u != "" && u[0] == '}' then Good(Obj([]), u[1..]) else ReadMembers(t[1..], [])
    else if t[0] == '[' then
      var u := SkipSpace(t[1..]);
      if u != "" && u[0] == ']' then Good(Arr([]), u[1..]) else ReadItems(t[1..], [])
    else if t[0] == '"' then
      var r := ReadString(t);
      if r.Bad? then Bad else Good(Str(r.value), r.rest)
    else if t[0] == 't' then ReadWord(t, "true", Bool(true))
    else if t[0] == 'f' then ReadWord(t, "false", Bool(false))
    else if t[0] == 'n' then ReadWord(t, "null", Null)
    else ReadNumber(t)
  }

  /** From the start of an element to past the closing bracket; `acc` is what was pushed so far. */
  function ReadItems(s: string, acc: seq<Value>): (r: Parsed<Value>)
    ensures r.Good? ==> |r.rest| < |s|
    decreases |s|, 3
  {
    var v := ReadValue(s);
    if v.Bad? then Bad
    else
      var t := SkipSpace(v.rest);
      if t == "" then Bad
      else if t[0] == ',' then ReadItems(t[1..], acc + [v.value])
      else if t[0] == ']' then Good(Arr(acc + [v.value]), t[1..])
      else Bad
  }

  /** A key, a colon and a value. */
  function ReadMember(s: string): (r: Parsed<Member>)
    ensures r.Good? ==> |r.rest| < |s|
    decreases |s|, 3
  {
    var k := ReadString(SkipSpace(s));
    if k.Bad? then Bad
    else
      var t := SkipSpace(k.rest);
      if t == "" || t[0] != ':' then Bad
      else
        var v := ReadValue(t[1..]);
        if v.Bad? then Bad else Good(Member(k.value, v.value), v.rest)
  }

  /** From the start of a member to past the closing brace; a later duplicate key overwrites. */
  function ReadMembers(s: string, acc: seq<Member>): (r: Parsed<Value>)
    ensures r.Good? ==> |r.rest| < |s|
    decreases |s|, 4
  {
    var m := ReadMember(s);
    if m.Bad? then Bad
    else
      var t := SkipSpace(m.rest);
      var ms := SetMember(acc, m.value.key, m.value.value);
      if t == "" then Bad
      else if t[0] == ',' then ReadMembers(t[1..], ms)
      else if t[0] == '}' then Good(Obj(ms), t[1..])
      else Bad
  }
}
