/** The codec as the agent runs it: a printer that appends to an output string and a
    recursive-descent parser that moves a cursor, each proved against the functions of `Json`. */
module JsonCodec {
  import opened Json

  // -------------------------------------------------------------------------------- printer

  method WriteString(s: string, out: string) returns (out': string)
    ensures out' == out + Quote(s)
  {
    out' := out + "\"";
    ghost var head := out';
    EscapeCons(s, 0, head);
    hide Escape, EscapeChar;
    for i := 0 to |s|
      invariant out' + Escape(s[i..]) == head + Escape(s)
    {
      EscapeCons(s, i, out');
      out' := out' + EscapeChar(s[i]);
    }
    EscapeCons(s, |s|, out');
    out' := out' + "\"";
    QuoteIs(s, out);
  }

  lemma EscapeCons(s: string, i: nat, out: string)
    requires i <= |s|
    ensures i < |s| ==> out + Escape(s[i..]) == out + EscapeChar(s[i]) + Escape(s[i + 1..])
    ensures i == |s| ==> out + Escape(s[i..]) == out
    ensures s[0..] == s
  {
    hide EscapeChar;
    if i < |s| { assert s[i..][1..] == s[i + 1..]; }
  }

  lemma QuoteIs(s: string, out: string)
    ensures out + "\"" + Escape(s) + "\"" == out + Quote(s)
  {
    hide Escape;
  }

  method Write(v: Value, out: string, fmt: Style) returns (out': string)
    ensures out' == out + Print(v, fmt)
    decreases v
  {
    match v
    case Null => out' := out + "null";
    case Bool(b) => out' := out + if b then "true" else "false";
    case Int(i) => out' := out + IntText(i);
    case Double(literal) => out' := out + fmt(literal);
    case Str(s) => out' := WriteString(s, out);
    case Arr(items) => out' := WriteItems(items, out + "[", fmt); out' := out' + "]";
    case Obj(members) => out' := WriteMembers(members, out + "{", fmt); out' := out' + "}";
  }

  method WriteItems(items: seq<Value>, out: string, fmt: Style) returns (out': string)
    ensures out' == out + PrintItems(items, fmt)
    decreases items
  {
    out' := out;
    var first := true;
    assert PrintItems(items[..0], fmt) == "";
    hide PrintItems;
    for k := 0 to |items|
      invariant first <==> k == 0
      invariant out' == out + PrintItems(items[..k], fmt)
    {
      PrintItemsSnoc(items[..k + 1], fmt);
      assert items[..k + 1][..k] == items[..k];
      if !first { out' := out' + ","; }
      first := false;
      out' := Write(items[k], out', fmt);
      Joined(out, PrintItems(items[..k], fmt), if k == 0 then "" else ",", Print(items[k], fmt));
    }
    assert items[..|items|] == items;
  }

  method WriteMember(m: Member, out: string, fmt: Style) returns (out': string)
    ensures out' == out + PrintMember(m, fmt)
    decreases m
  {
    out' := WriteString(m.key, out);
    out' := out' + ":";
    out' := Write(m.value, out', fmt);
    assert out' == out + (Quote(m.key) + ":" + Print(m.value, fmt));
  }

  method WriteMembers(members: seq<Member>, out: string, fmt: Style) returns (out': string)
    ensures out' == out + PrintMembers(members, fmt)
    decreases members
  {
    out' := out;
    var first := true;
    assert PrintMembers(members[..0], fmt) == "";
    hide PrintMembers;
    for k := 0 to |members|
      invariant first <==> k == 0
      invariant out' == out + PrintMembers(members[..k], fmt)
    {
      PrintMembersSnoc(members[..k + 1], fmt);
      assert members[..k + 1][..k] == members[..k];
      if !first { out' := out' + ","; }
      first := false;
      out' := WriteMember(members[k], out', fmt);
      Joined(out, PrintMembers(members[..k], fmt), if k == 0 then "" else ",", PrintMember(members[k], fmt));
    }
    assert members[..|members|] == members;
  }

  lemma Joined(out: string, x: string, y: string, z: string)
    ensures out + x + y + z == out + (x + y + z)
    ensures out + x + "" == out + x
  {
  }

  lemma {:induction false} PrintItemsSnoc(items: seq<Value>, fmt: Style)
    requires items != []
    ensures var n := |items| - 1;
            PrintItems(items, fmt) == PrintItems(items[..n], fmt) + (if n == 0 then "" else ",") + Print(items[n], fmt)
  {
    hide Print;
    if |items| > 1 {
      PrintItemsSnoc(items[1..], fmt);
      assert items[1..][..|items| - 2] == items[..|items| - 1][1..];
      CommaLast(Print(items[0], fmt), PrintItems(items[1..][..|items| - 2], fmt),
                if |items| == 2 then "" else ",", Print(items[|items| - 1], fmt));
    }
  }

  lemma {:induction false} PrintMembersSnoc(members: seq<Member>, fmt: Style)
    requires members != []
    ensures var n := |members| - 1;
            PrintMembers(members, fmt)
            == PrintMembers(members[..n], fmt) + (if n == 0 then "" else ",") + PrintMember(members[n], fmt)
  {
    hide PrintMember;
    if |members| > 1 {
      PrintMembersSnoc(members[1..], fmt);
      assert members[1..][..|members| - 2] == members[..|members| - 1][1..];
      CommaLast(PrintMember(members[0], fmt), PrintMembers(members[1..][..|members| - 2], fmt),
                if |members| == 2 then "" else ",", PrintMember(members[|members| - 1], fmt));
    }
  }

  lemma CommaLast(first: string, middle: string, sep: string, last: string)
    ensures first + "," + (middle + sep + last) == first + "," + middle + sep + last
    ensures middle == "" && sep == "" ==> first + "," + (middle + sep + last) == first + "," + last
  {
  }

  // --------------------------------------------------------------------------------- parser

  class Parser {
    const text: string
    var p: nat

    constructor (text: string)
      ensures this.text == text && p == 0
    {
      this.text := text;
      p := 0;
    }

    /** The text from the cursor on. */
    function Rest(): string
      requires p <= |text|
      reads this
    {
      text[p..]
    }

    /** `*p`. */
    function Cur(): char
      requires p < |text|
      reads this
      ensures Rest() != "" && Cur() == Rest()[0]
    {
      text[p]
    }

    /** `p += n`. */
    method Advance(n: nat)
      requires p + n <= |text|
      modifies this
      ensures p == old(p) + n && p <= |text| && Rest() == old(Rest())[n..]
    {
      p := p + n;
    }

    /** `ok` and the new cursor are what a reader function says about the text from the old cursor. */
    ghost predicate Followed<T>(r: Parsed<T>, ok: bool)
      reads this
    {
      p <= |text| && ok == r.Good? && (ok ==> Rest() == r.rest)
    }

    method SkipWs()
      requires p <= |text|
      modifies this
      ensures p <= |text| && old(p) <= p && Rest() == SkipSpace(old(Rest()))
    {
      while p < |text| && IsSpace(text[p])
        invariant old(p) <= p <= |text|
        invariant SkipSpace(Rest()) == SkipSpace(old(Rest()))
      {
        p := p + 1;
      }
    }

    method ParseChars() returns (ok: bool, out: string)
      requires p <= |text|
      modifies this
      ensures Followed(ReadChars(old(Rest()), ""), ok)
      ensures ok ==> out == ReadChars(old(Rest()), "").value && old(p) < p
    {
      hide Utf8, HexQuad, Unescape, IsShortEscape, IsHex, ReadChars;
      out := "";
      while p < |text|
        invariant old(p) <= p <= |text|
        invariant ReadChars(Rest(), out) == ReadChars(old(Rest()), "")
        decreases |text| - p
      {
        CharsStep(text, p, out);
        var c := text[p];
        p := p + 1;
        if c == '"' { return true, out; }
        if c == '\\' {
          if p >= |text| { return false, out; }
          var e := text[p];
          p := p + 1;
          if IsShortEscape(e) {
            out := out + [Unescape(e)];
          } else if e == 'u' {
            if |text| - p < 4 { return false, out; }
            var hex, cp := ParseHex();
            if !hex { return false, out; }
            out := out + Utf8(cp);
          } else {
            return false, out;
          }
        } else {
          out := out + [c];
        }
      }
      CharsEnd(text, out);
      return false, out;
    }

    /** Four hex digits, most significant first. */
    method ParseHex() returns (ok: bool, cp: nat)
      requires p + 4 <= |text|
      modifies this
      ensures old(p) <= p <= old(p) + 4
      ensures ok <==> forall i :: old(p) <= i < old(p) + 4 ==> IsHex(text[i])
      ensures ok ==> p == old(p) + 4 && cp == HexQuad(text[old(p)..p])
    {
      cp := 0;
      ghost var q := p;
      for i := 0 to 4
        invariant p == q + i
        invariant forall k :: q <= k < p ==> IsHex(text[k])
        invariant i == 0 ==> cp == 0
        invariant i == 1 ==> cp == HexValue(text[q])
        invariant i == 2 ==> cp == HexValue(text[q]) * 16 + HexValue(text[q + 1])
        invariant i == 3 ==> cp == HexValue(text[q]) * 256 + HexValue(text[q + 1]) * 16 + HexValue(text[q + 2])
        invariant i == 4 ==> cp == HexQuad(text[q..q + 4])
      {
        var h := text[p];
        p := p + 1;
        if !IsHex(h) { return false, cp; }
        cp := cp * 16 + HexValue(h);
      }
      return true, cp;
    }

    method ParseString() returns (ok: bool, out: string)
      requires p <= |text|
      modifies this
      ensures Followed(ReadString(old(Rest())), ok)
      ensures ok ==> out == ReadString(old(Rest())).value && old(p) < p
    {
      if p >= |text| || Cur() != '"' { return false, ""; }
      Advance(1);
      ok, out := ParseChars();
    }

    /** Past an optional sign and every number character after it; `odd` is where a character was
        seen that makes the literal a double. */
    method ScanNumber() returns (isDouble: bool, ghost odd: nat)
      requires p <= |text|
      modifies this
      ensures old(p) <= p <= |text| && NumberSpan(old(Rest())) == p - old(p)
      ensures NumberKind(text, old(p), p, isDouble, odd)
    {
      isDouble, odd := false, 0;
      ghost var start := p;
      ghost var span := NumberSpan(Rest());
      KindStart(text, p);
      SpanStep(Rest());
      hide NumberSpan, NumberKind, IsNumberChar, IsDigit, AfterSign, Rest;
      if p < |text| && (Cur() == '-' || Cur() == '+') { Advance(1); }
      while p < |text|
        invariant AfterSign(text, start) <= p <= |text|
        invariant span == p - start + NumberSpan(Rest())
        invariant NumberKind(text, start, p, isDouble, odd)
        decreases |text| - p
      {
        KindStep(text, start, p, isDouble, odd);
        SpanStep(Rest());
        if IsDigit(Cur()) {
          Advance(1);
        } else if IsNumberChar(Cur()) {
          isDouble, odd := true, p;
          Advance(1);
        } else {
          break;
        }
      }
      SpanStep(Rest());
      RestEmpty();
    }

    lemma RestEmpty()
      requires p <= |text|
      ensures p == |text| <==> Rest() == ""
    {
    }

    method ParseNumber() returns (ok: bool, out: Value)
      requires p <= |text|
      modifies this
      ensures Followed(ReadNumber(old(Rest())), ok)
      ensures ok ==> out == ReadNumber(old(Rest())).value && old(p) < p
    {
      var start := p;
      var isDouble, odd := ScanNumber();
      if p == start { return false, Null; }
      TokenKind(text, start, p, isDouble, odd);
      Slices(text, start, p);
      var num := text[start..p];
      return true, if isDouble then Double(num) else Int(StrToLL(num));
    }

    method ParseWord(word: string, v: Value) returns (ok: bool, out: Value)
      requires p <= |text| && word != ""
      modifies this
      ensures Followed(ReadWord(old(Rest()), word, v), ok)
      ensures ok ==> out == v && old(p) < p
    {
      out := v;
      ok := |text| - p >= |word| && text[p..p + |word|] == word;
      ghost var here := Rest();
      assert ok <==> word <= here;
      if ok {
        Advance(|word|);
      }
    }

    method ParseValue() returns (ok: bool, out: Value)
      requires p <= |text|
      modifies this
      ensures Followed(ReadValue(old(Rest())), ok)
      ensures ok ==> out == ReadValue(old(Rest())).value && old(p) < p
      decreases |text| - p, 1
    {
      SkipWs();
      if p >= |text| { return false, Null; }
      match Cur()
      case '{' => ok, out := ParseObject();
      case '[' => ok, out := ParseArray();
      case '"' =>
        var s;
        ok, s := ParseString();
        out := Str(s);
      case 't' => ok, out := ParseWord("true", Bool(true));
      case 'f' => ok, out := ParseWord("false", Bool(false));
      case 'n' => ok, out := ParseWord("null", Null);
      case _ => ok, out := ParseNumber();
    }

    method ParseArray() returns (ok: bool, out: Value)
      requires p < |text| && Cur() == '['
      modifies this
      ensures Followed(ReadValue(old(Rest())), ok)
      ensures ok ==> out == ReadValue(old(Rest())).value && old(p) < p
      decreases |text| - p, 0
    {
      assert SkipSpace(Rest()) == Rest();
      Advance(1);
      label afterBracket:
      SkipWs();
      if p < |text| && Cur() == ']' {
        Advance(1);
        return true, Arr([]);
      }
      ReadItemsSkips(old@afterBracket(Rest()), []);
      ghost var goal := ReadValue(old(Rest()));
      var items: seq<Value> := [];
      while true
        invariant old(p) < p <= |text|
        invariant ReadItems(Rest(), items) == goal
        decreases |text| - p
      {
        var v;
        ok, v := ParseValue();
        if !ok { return false, Arr(items); }
        SkipWs();
        if p >= |text| { return false, Arr(items); }
        if Cur() == ',' {
          items := items + [v];
          Advance(1);
          continue;
        }
        if Cur() == ']' {
          items := items + [v];
          Advance(1);
          return true, Arr(items);
        }
        return false, Arr(items);
      }
    }

    method ParseMember() returns (ok: bool, key: string, v: Value)
      requires p <= |text|
      modifies this
      ensures Followed(ReadMember(old(Rest())), ok)
      ensures ok ==> Member(key, v) == ReadMember(old(Rest())).value && old(p) < p
      decreases |text| - p, 2
    {
      v := Null;
      SkipWs();
      ok, key := ParseString();
      if !ok { return; }
      SkipWs();
      if p >= |text| || Cur() != ':' { return false, key, v; }
      Advance(1);
      ok, v := ParseValue();
    }

    method ParseObject() returns (ok: bool, out: Value)
      requires p < |text| && Cur() == '{'
      modifies this
      ensures Followed(ReadValue(old(Rest())), ok)
      ensures ok ==> out == ReadValue(old(Rest())).value && old(p) < p
      decreases |text| - p, 0
    {
      assert SkipSpace(Rest()) == Rest();
      Advance(1);
      label afterBrace:
      SkipWs();
      if p < |text| && Cur() == '}' {
        Advance(1);
        return true, Obj([]);
      }
      ReadMembersSkips(old@afterBrace(Rest()), []);
      ghost var goal := ReadValue(old(Rest()));
      var members: seq<Member> := [];
      while true
        invariant old(p) < p <= |text|
        invariant ReadMembers(Rest(), members) == goal
        decreases |text| - p
      {
        var key, v;
        ok, key, v := ParseMember();
        if !ok { return false, Obj(members); }
        members := SetMember(members, key, v);
        SkipWs();
        if p >= |text| { return false, Obj(members); }
        if Cur() == ',' {
          Advance(1);
          continue;
        }
        if Cur() == '}' {
          Advance(1);
          return true, Obj(members);
        }
        return false, Obj(members);
      }
    }
  }

  lemma {:induction false} SpanIs(s: string, n: nat)
    requires n <= |s| && forall i :: 0 <= i < n ==> IsNumberChar(s[i])
    requires n < |s| ==> !IsNumberChar(s[n])
    ensures NumberSpan(s) == n
  {
    if n > 0 { SpanIs(s[1..], n - 1); }
  }

  function AfterSign(text: string, start: nat): nat {
    if start < |text| && (text[start] == '-' || text[start] == '+') then start + 1 else start
  }

  ghost predicate NumberKind(text: string, start: nat, end: nat, isDouble: bool, odd: nat) {
    && start <= AfterSign(text, start) <= end <= |text|
    && (!isDouble ==> forall i :: AfterSign(text, start) <= i < end ==> IsDigit(text[i]))
    && (isDouble ==> AfterSign(text, start) <= odd < end && !IsDigit(text[odd]))
  }

  /** What `ReadChars` makes of the text from `p` on, by the character there. */
  lemma CharsStep(text: string, p: nat, out: string)
    requires p < |text|
    ensures var r := ReadChars(text[p..], out); var c := text[p];
            && (c == '"' ==> r == Good(out, text[p + 1..]))
            && (c != '"' && c != '\\' ==> r == ReadChars(text[p + 1..], out + [c]))
            && (c == '\\' && p + 1 == |text| ==> r == Bad)
            && (c == '\\' && p + 1 < |text| ==> r == AfterEscape(text, p + 2, text[p + 1], out))
  {
    hide Utf8, HexQuad, Unescape, IsShortEscape, IsHex;
    var s := text[p..];
    assert s[1..] == text[p + 1..];
    if p + 1 < |text| { assert s[2..] == text[p + 2..]; }
    if p + 6 <= |text| {
      assert s[6..] == text[p + 6..] && s[2..6] == text[p + 2..p + 6];
      assert s[2] == text[p + 2] && s[3] == text[p + 3] && s[4] == text[p + 4] && s[5] == text[p + 5];
    }
  }

  /** The same behind a backslash and the escape character `e`. */
  function AfterEscape(text: string, p: nat, e: char, out: string): Parsed<string>
    requires p <= |text|
  {
    if IsShortEscape(e) then ReadChars(text[p..], out + [Unescape(e)])
    else if e != 'u' || |text| - p < 4 then Bad
    else if forall i :: p <= i < p + 4 ==> IsHex(text[i]) then ReadChars(text[p + 4..], out + Utf8(HexQuad(text[p..p + 4])))
    else Bad
  }

  lemma CharsEnd(text: string, out: string)
    ensures ReadChars(text[|text|..], out) == Bad
  {
  }

  lemma SpanStep(s: string)
    ensures s == "" || !IsNumberChar(s[0]) ==> NumberSpan(s) == 0
    ensures s != "" && IsNumberChar(s[0]) ==> NumberSpan(s) == 1 + NumberSpan(s[1..])
    ensures s != "" && (s[0] == '-' || s[0] == '+' || IsDigit(s[0])) ==> IsNumberChar(s[0])
  {
  }

  lemma KindStart(text: string, start: nat)
    requires start <= |text|
    ensures NumberKind(text, start, AfterSign(text, start), false, 0)
    ensures AfterSign(text, start) == if start < |text| && (text[start] == '-' || text[start] == '+') then start + 1 else start
  {
  }

  lemma KindStep(text: string, start: nat, p: nat, isDouble: bool, odd: nat)
    requires NumberKind(text, start, p, isDouble, odd) && p < |text|
    ensures IsDigit(text[p]) ==> NumberKind(text, start, p + 1, isDouble, odd)
    ensures !IsDigit(text[p]) ==> NumberKind(text, start, p + 1, true, p)
  {
  }

  lemma TokenKind(text: string, start: nat, end: nat, isDouble: bool, odd: nat)
    requires start < end && NumberKind(text, start, end, isDouble, odd)
    ensures AllDigits(Unsigned(text[start..end])) == !isDouble
  {
    var from := AfterSign(text, start);
    var body := Unsigned(text[start..end]);
    assert body == text[from..end];
    if isDouble {
      assert body[odd - from] == text[odd];
    } else {
      assert forall i :: 0 <= i < |body| ==> body[i] == text[from + i];
    }
  }

  lemma Slices(text: string, start: nat, end: nat)
    requires start <= end <= |text|
    ensures text[start..][..end - start] == text[start..end]
    ensures text[start..][end - start..] == text[end..]
  {
  }

  lemma SkipTwice(s: string)
    ensures SkipSpace(SkipSpace(s)) == SkipSpace(s)
  {
  }

  /** Leading white space before an element changes nothing. */
  lemma ReadItemsSkips(s: string, acc: seq<Value>)
    ensures ReadItems(SkipSpace(s), acc) == ReadItems(s, acc)
  {
    SkipTwice(s);
    assert ReadValue(SkipSpace(s)) == ReadValue(s);
  }

  lemma ReadMembersSkips(s: string, acc: seq<Member>)
    ensures ReadMembers(SkipSpace(s), acc) == ReadMembers(s, acc)
  {
    SkipTwice(s);
    assert ReadMember(SkipSpace(s)) == ReadMember(s);
  }

  /** `Value::parse`: trailing text is tolerated, and a failure leaves Null. */
  method Parse(text: string) returns (ok: bool, out: Value)
    ensures ok == ReadValue(text).Good?
    ensures out == if ok then ReadValue(text).value else Null
  {
    var parser := new Parser(text);
    ok, out := parser.ParseValue();
    if !ok {
      out := Null;
    } else {
      parser.SkipWs();
    }
  }
}
