/** What the codec is for: printing and reading undo each other, the reader builds only
    well-formed values, and a read depends on nothing but the octets it consumed. */
module JsonProofs {
  import opened Json
  import opened JsonCodec

  /** A text that cannot lengthen a number in front of it. */
  predicate Stop(s: string) {
    s != "" ==> !IsNumberChar(s[0])
  }

  // --------------------------------------------------------------- reading undoes printing

  lemma {:induction false} NatTextValue(n: nat)
    ensures NatText(n) != "" && AllDigits(NatText(n)) && DigitsValue(NatText(n)) == n
  {
    if n >= 10 {
      NatTextValue(n / 10);
      assert NatText(n)[..|NatText(n)| - 1] == NatText(n / 10);
    }
  }

  /** `strtoll` undoes `%lld` on every 64-bit integer. */
  lemma IntTextReads(i: int64, suf: string)
    requires Stop(suf)
    ensures ReadNumber(IntText(i) + suf) == Good(Int(i), suf)
    ensures IntText(i) != "" && (IsDigit(IntText(i)[0]) || IntText(i)[0] == '-')
  {
    hide NumberSpan, DigitsValue, NatText;
    var n: int := i;
    var magnitude := if n < 0 then -n else n;
    NatTextValue(magnitude);
    var text := IntText(i);
    assert Unsigned(text) == NatText(magnitude);
    NumberChars(text);
    hide IntText, Unsigned;
    TokenReads(text, suf);
  }

  lemma NumberChars(text: string)
    requires AllDigits(Unsigned(text))
    ensures forall k :: 0 <= k < |text| ==> IsNumberChar(text[k])
  {
    if Unsigned(text) != text {
      forall k | 0 <= k < |text| ensures IsNumberChar(text[k]) {
        if k > 0 { assert text[k] == Unsigned(text)[k - 1]; }
      }
    }
  }

  /** A text of number characters is one number token. */
  lemma TokenReads(text: string, suf: string)
    requires text != "" && (forall k :: 0 <= k < |text| ==> IsNumberChar(text[k])) && Stop(suf)
    ensures ReadNumber(text + suf) == Good(NumberOf(text), suf)
  {
    hide NumberOf, NumberSpan;
    SpanIs(text + suf, |text|);
    assert (text + suf)[..|text|] == text;
    assert (text + suf)[|text|..] == suf;
  }

  lemma {:induction false} EscapeReads(s: string, acc: string, suf: string)
    ensures ReadChars(Escape(s) + "\"" + suf, acc) == Good(acc + s, suf)
  {
    if s == "" {
      assert Escape(s) + "\"" + suf == "\"" + suf;
      assert ("\"" + suf)[1..] == suf && acc + s == acc;
    } else {
      var more := Escape(s[1..]) + "\"" + suf;
      assert Escape(s) + "\"" + suf == EscapeChar(s[0]) + more;
      assert acc + [s[0]] + s[1..] == acc + s;
      hide ReadChars, Escape, EscapeChar;
      EscapeCharReads(s[0], acc, more);
      EscapeReads(s[1..], acc + [s[0]], suf);
    }
  }

  lemma EscapeCharReads(c: char, acc: string, more: string)
    ensures ReadChars(EscapeChar(c) + more, acc) == ReadChars(more, acc + [c])
  {
    var e := EscapeChar(c);
    EscapeForm(c);
    hide EscapeChar, Utf8, HexQuad, Unescape, IsShortEscape, IsHex;
    var s := e + more;
    assert s[|e|..] == more;
    if |e| == 6 { assert s[2..6] == e[2..6]; }
  }

  /** The three forms a character is printed in. */
  lemma EscapeForm(c: char)
    ensures var e := EscapeChar(c);
            || (e == [c] && c != '"' && c != '\\')
            || (|e| == 2 && e[0] == '\\' && IsShortEscape(e[1]) && Unescape(e[1]) == c)
            || (|e| == 6 && e[0] == '\\' && e[1] == 'u' && !IsShortEscape('u')
                && IsHex(e[2]) && IsHex(e[3]) && IsHex(e[4]) && IsHex(e[5]) && Utf8(HexQuad(e[2..6])) == [c])
  {
    var e := EscapeChar(c);
    if |e| == 6 { assert HexQuad(e[2..6]) == c as int; }
  }

  lemma QuoteReads(s: string, suf: string)
    ensures ReadString(Quote(s) + suf) == Good(s, suf)
  {
    EscapeReads(s, "", suf);
    Wrapped('"', Escape(s), '"', suf);
    assert "" + s == s;
  }

  /** Where a bracketed text continues. */
  lemma Wrapped(open: char, x: string, close: char, suf: string)
    ensures var s := [open] + x + [close] + suf; s[0] == open && s[1..] == x + ([close] + suf)
    ensures x + ([close] + suf) == x + [close] + suf
    ensures [open] + x + [close] + suf == [open] + (x + ([close] + suf))
  {
  }

  lemma Regroup(x: string, y: string, z: string, t: string)
    ensures x + y + z + t == x + (y + (z + t))
  {
  }

  lemma Comma(x: string, y: string, z: string)
    ensures x + "," + y + z == x + ("," + (y + z))
    ensures ("," + (y + z))[1..] == y + z
  {
  }

  /** The first character of a printed value says what kind it is. */
  lemma DumpStart(v: Value)
    requires DoubleFree(v)
    ensures Dump(v) != ""
    ensures var c := Dump(v)[0]; !IsSpace(c) && c != ']' && c != '}' && c != ','
  {
    if v.Int? { IntTextReads(v.i, ""); }
  }

  /** Reading a printed value gives that value back and stops right after it, whatever follows;
      only an integer needs a follower that is not a number character. */
  lemma {:induction false} RoundTrip(v: Value, suf: string)
    requires DoubleFree(v) && Valid(v)
    requires v.Int? ==> Stop(suf)
    ensures ReadValue(Dump(v) + suf) == Good(v, suf)
    decreases v, 3
  {
    hide Dump, ReadValue, Valid, DoubleFree;
    Leaves(v);
    match v
    case Null => WordRoundTrip("null", v, suf);
    case Bool(b) => WordRoundTrip(if b then "true" else "false", v, suf);
    case Int(i) => IntRoundTrip(i, suf);
    case Str(t) => StrRoundTrip(t, suf);
    case Arr(items) => ArrRoundTrip(items, suf);
    case Obj(members) => ObjRoundTrip(members, suf);
  }

  /** What a value is printed as, and what it takes for it to be valid, one level down. */
  lemma Leaves(v: Value)
    requires DoubleFree(v) && Valid(v)
    ensures !v.Double?
    ensures v.Null? ==> Dump(v) == "null"
    ensures v.Bool? ==> Dump(v) == if v.b then "true" else "false"
    ensures v.Arr? ==> forall i :: 0 <= i < |v.items| ==> DoubleFree(v.items[i]) && Valid(v.items[i])
    ensures v.Obj? ==> Sorted(v.members)
    ensures v.Obj? ==> forall i :: 0 <= i < |v.members| ==> DoubleFree(v.members[i].value) && Valid(v.members[i].value)
  {
    hide Sorted, IntText, Quote, DumpItems, DumpMembers;
  }

  lemma WordRoundTrip(word: string, v: Value, suf: string)
    requires (word == "null" && v == Null) || (word == "true" && v == Bool(true)) || (word == "false" && v == Bool(false))
    ensures ReadValue(word + suf) == Good(v, suf)
  {
    hide ReadItems, ReadMembers, ReadString, ReadNumber;
    assert SkipSpace(word + suf) == word + suf;
    hide SkipSpace;
    assert (word + suf)[|word|..] == suf;
  }

  lemma IntRoundTrip(i: int64, suf: string)
    requires Stop(suf)
    ensures ReadValue(Dump(Int(i)) + suf) == Good(Int(i), suf)
  {
    assert Dump(Int(i)) == IntText(i);
    IntTextReads(i, suf);
    hide ReadValue, ReadNumber, IntText, Dump, Stop;
    StartsNumber(IntText(i), suf);
  }

  lemma StartsNumber(x: string, suf: string)
    requires x != "" && (IsDigit(x[0]) || x[0] == '-')
    ensures ReadValue(x + suf) == ReadNumber(x + suf)
  {
    hide ReadItems, ReadMembers, ReadString, ReadNumber;
    var t := x + suf;
    assert t[0] == x[0];
    assert SkipSpace(t) == t;
    hide SkipSpace;
  }

  lemma StrRoundTrip(x: string, suf: string)
    ensures ReadValue(Dump(Str(x)) + suf) == Good(Str(x), suf)
  {
    var t := Quote(x) + suf;
    assert Dump(Str(x)) == Quote(x);
    QuoteReads(x, suf);
    hide ReadItems, ReadMembers, ReadString, ReadNumber, Quote, Dump;
    assert t[0] == '"';
    assert SkipSpace(t) == t;
    hide SkipSpace;
  }

  lemma {:induction false} ArrRoundTrip(items: seq<Value>, suf: string)
    requires forall i :: 0 <= i < |items| ==> DoubleFree(items[i]) && Valid(items[i])
    ensures ReadValue(Dump(Arr(items)) + suf) == Good(Arr(items), suf)
    decreases items, 2
  {
    hide ReadValue, ReadItems, Dump, DumpItems, DoubleFree, Valid;
    DumpArr(items);
    Wrapped('[', DumpItems(items), ']', suf);
    if items == [] {
      NoneDumped(suf);
    } else {
      ItemsRoundTrip(items, [], suf);
      StartOfItems(items, "]" + suf);
      OpensArray(DumpItems(items) + ("]" + suf));
      assert [] + items == items;
    }
  }

  lemma {:induction false} ObjRoundTrip(members: seq<Member>, suf: string)
    requires Sorted(members)
    requires forall i :: 0 <= i < |members| ==> DoubleFree(members[i].value) && Valid(members[i].value)
    ensures ReadValue(Dump(Obj(members)) + suf) == Good(Obj(members), suf)
    decreases members, 2
  {
    hide ReadValue, ReadMembers, Dump, DumpMembers, DoubleFree, Valid, Sorted;
    DumpObj(members);
    Wrapped('{', DumpMembers(members), '}', suf);
    assert [] + members == members;
    if members == [] {
      NoneDumped(suf);
    } else {
      MembersRoundTrip(members, [], suf);
      StartOfMembers(members, "}" + suf);
      OpensObject(DumpMembers(members) + ("}" + suf));
    }
  }

  /** The two empty containers. */
  lemma NoneDumped(suf: string)
    ensures ReadValue(Dump(Arr([])) + suf) == Good(Arr([]), suf)
    ensures ReadValue(Dump(Obj([])) + suf) == Good(Obj([]), suf)
  {
    hide ReadItems, ReadMembers, ReadString, ReadNumber;
    var a, o := "[]" + suf, "{}" + suf;
    assert Dump(Arr([])) == "[]" && Dump(Obj([])) == "{}";
    assert a[1..] == "]" + suf && o[1..] == "}" + suf;
    assert SkipSpace(a) == a && SkipSpace(o) == o;
    assert SkipSpace("]" + suf) == "]" + suf && SkipSpace("}" + suf) == "}" + suf;
    assert ("]" + suf)[1..] == suf && ("}" + suf)[1..] == suf;
    hide SkipSpace;
  }

  lemma OpensArray(t: string)
    requires t != "" && SkipSpace(t) == t && t[0] != ']'
    ensures ReadValue("[" + t) == ReadItems(t, [])
  {
    hide ReadItems, ReadMembers, ReadString, ReadNumber;
    var s := "[" + t;
    assert s[1..] == t && SkipSpace(s) == s;
    hide SkipSpace;
  }

  lemma OpensObject(t: string)
    requires t != "" && SkipSpace(t) == t && t[0] != '}'
    ensures ReadValue("{" + t) == ReadMembers(t, [])
  {
    hide ReadItems, ReadMembers, ReadString, ReadNumber;
    var s := "{" + t;
    assert s[1..] == t && SkipSpace(s) == s;
    hide SkipSpace;
  }

  lemma StartOfItems(items: seq<Value>, more: string)
    requires items != [] && forall i :: 0 <= i < |items| ==> DoubleFree(items[i])
    ensures var s := DumpItems(items) + more; s != "" && SkipSpace(s) == s && s[0] != ']'
  {
    DumpStart(items[0]);
  }

  lemma StartOfMembers(members: seq<Member>, more: string)
    requires members != [] && forall i :: 0 <= i < |members| ==> DoubleFree(members[i].value)
    ensures var s := DumpMembers(members) + more; s != "" && SkipSpace(s) == s && s[0] != '}'
  {
  }

  lemma {:induction false} ItemsRoundTrip(items: seq<Value>, acc: seq<Value>, suf: string)
    requires items != []
    requires forall i :: 0 <= i < |items| ==> DoubleFree(items[i]) && Valid(items[i])
    ensures ReadItems(DumpItems(items) + ("]" + suf), acc) == Good(Arr(acc + items), suf)
    decreases items, 1
  {
    hide ReadValue, ReadItems, DumpItems, DoubleFree, Valid, Dump;
    FirstItem(items, "]" + suf);
    Pushed(acc, items);
    if |items| == 1 {
      RoundTrip(items[0], "]" + suf);
      ItemRead(Dump(items[0]) + ("]" + suf), acc, items[0], ']', suf);
    } else {
      var more := DumpItems(items[1..]) + ("]" + suf);
      RoundTrip(items[0], "," + more);
      ItemRead(Dump(items[0]) + ("," + more), acc, items[0], ',', more);
      ItemsRoundTrip(items[1..], acc + [items[0]], suf);
    }
  }

  lemma Pushed<T>(acc: seq<T>, items: seq<T>)
    requires items != []
    ensures acc + [items[0]] + items[1..] == acc + items
    ensures |items| == 1 ==> acc + [items[0]] == acc + items
  {
  }

  /** The first element of a printed list, and what stands behind it. */
  lemma FirstItem(items: seq<Value>, end: string)
    requires items != [] && forall i :: 0 <= i < |items| ==> DoubleFree(items[i])
    ensures DumpItems(items) + end
            == Dump(items[0]) + if |items| == 1 then end else "," + (DumpItems(items[1..]) + end)
  {
    hide Dump, DumpItems, DoubleFree;
    DumpArr(items);
    if |items| > 1 { Comma(Dump(items[0]), DumpItems(items[1..]), end); }
  }

  /** One turn of the element loop. */
  lemma ItemRead(s: string, acc: seq<Value>, v: Value, sep: char, more: string)
    requires ReadValue(s) == Good(v, [sep] + more) && (sep == ',' || sep == ']')
    ensures ReadItems(s, acc) == if sep == ',' then ReadItems(more, acc + [v]) else Good(Arr(acc + [v]), more)
  {
    hide ReadValue;
    assert ([sep] + more)[1..] == more && SkipSpace([sep] + more) == [sep] + more;
    hide SkipSpace;
  }

  lemma {:induction false} MemberRoundTrip(m: Member, suf: string)
    requires DoubleFree(m.value) && Valid(m.value) && Stop(suf)
    ensures ReadMember(DumpMember(m) + suf) == Good(m, suf)
    decreases m, 4
  {
    var rest := Dump(m.value) + suf;
    var tail := ":" + rest;
    assert DumpMember(m) + suf == Quote(m.key) + tail by {
      Regroup(Quote(m.key), ":", Dump(m.value), suf);
    }
    hide Dump, Quote, DumpMember, ReadString, ReadValue, DoubleFree, Valid;
    assert SkipSpace(Quote(m.key) + tail) == Quote(m.key) + tail;
    QuoteReads(m.key, tail);
    assert tail[1..] == rest;
    RoundTrip(m.value, suf);
  }

  lemma {:induction false} MembersRoundTrip(members: seq<Member>, acc: seq<Member>, suf: string)
    requires members != [] && Sorted(acc + members)
    requires forall i :: 0 <= i < |members| ==> DoubleFree(members[i].value) && Valid(members[i].value)
    ensures ReadMembers(DumpMembers(members) + ("}" + suf), acc) == Good(Obj(acc + members), suf)
    decreases members, 1
  {
    hide ReadMember, ReadMembers, DumpMembers, DumpMember, DoubleFree, Valid, Dump, Sorted, SetMember;
    var m := members[0];
    Pushed(acc, members);
    SetLast(acc, m, members[1..]);
    FirstMember(members, "}" + suf);
    if |members| == 1 {
      MemberRoundTrip(m, "}" + suf);
      MemberRead(DumpMember(m) + ("}" + suf), acc, m, '}', suf);
    } else {
      var more := DumpMembers(members[1..]) + ("}" + suf);
      MemberRoundTrip(m, "," + more);
      MemberRead(DumpMember(m) + ("," + more), acc, m, ',', more);
      MembersRoundTrip(members[1..], acc + [m], suf);
    }
  }

  lemma FirstMember(members: seq<Member>, end: string)
    requires members != [] && forall i :: 0 <= i < |members| ==> DoubleFree(members[i].value)
    ensures DumpMembers(members) + end
            == DumpMember(members[0]) + if |members| == 1 then end else "," + (DumpMembers(members[1..]) + end)
  {
    hide DumpMember, DumpMembers, DoubleFree;
    DumpObj(members);
    if |members| > 1 { Comma(DumpMember(members[0]), DumpMembers(members[1..]), end); }
  }

  /** One turn of the member loop. */
  lemma MemberRead(s: string, acc: seq<Member>, m: Member, sep: char, more: string)
    requires ReadMember(s) == Good(m, [sep] + more) && (sep == ',' || sep == '}')
    ensures var ms := SetMember(acc, m.key, m.value);
            ReadMembers(s, acc) == if sep == ',' then ReadMembers(more, ms) else Good(Obj(ms), more)
  {
    hide ReadMember, SetMember;
    assert ([sep] + more)[1..] == more && SkipSpace([sep] + more) == [sep] + more;
    hide SkipSpace;
  }

  lemma SetLast(acc: seq<Member>, m: Member, more: seq<Member>)
    requires Sorted(acc + [m] + more)
    ensures SetMember(acc, m.key, m.value) == acc + [m]
  {
    forall i | 0 <= i < |acc| ensures Less(acc[i].key, m.key) {
      assert (acc + [m] + more)[i] == acc[i] && (acc + [m] + more)[|acc|] == m;
    }
    SetMemberAppends(acc, m.key, m.value);
  }

  /** Two values that print alike are the same value. */
  lemma DumpInjective(v: Value, w: Value)
    requires DoubleFree(v) && Valid(v) && DoubleFree(w) && Valid(w)
    requires Dump(v) == Dump(w)
    ensures v == w
  {
    RoundTrip(v, "");
    RoundTrip(w, "");
    assert Dump(v) + "" == Dump(v);
  }

  /** Printed values are self-delimiting: only an integer can be printed as a proper beginning of
      another printed value. */
  lemma DumpPrefixFree(v: Value, w: Value)
    requires DoubleFree(v) && Valid(v) && DoubleFree(w) && Valid(w)
    requires !v.Int? && Dump(v) <= Dump(w)
    ensures v == w
  {
    var t := Dump(w)[|Dump(v)|..];
    assert Dump(v) + t == Dump(w) == Dump(w) + "";
    RoundTrip(v, t);
    RoundTrip(w, "");
  }

  // -------------------------------------------------------- the reader builds valid values

  lemma {:induction false} ReadValueValid(s: string)
    requires ReadValue(s).Good?
    ensures Valid(ReadValue(s).value)
    decreases |s|, 2
  {
    var t := SkipSpace(s);
    if t[0] == '{' {
      var u := SkipSpace(t[1..]);
      if !(u != "" && u[0] == '}') { ReadMembersValid(t[1..], []); }
    } else if t[0] == '[' {
      var u := SkipSpace(t[1..]);
      if !(u != "" && u[0] == ']') { ReadItemsValid(t[1..], []); }
    }
  }

  lemma {:induction false} ReadItemsValid(s: string, acc: seq<Value>)
    requires ReadItems(s, acc).Good? && forall i :: 0 <= i < |acc| ==> Valid(acc[i])
    ensures Valid(ReadItems(s, acc).value)
    decreases |s|, 3
  {
    ReadValueValid(s);
    var v := ReadValue(s);
    var t := SkipSpace(v.rest);
    if t[0] == ',' { ReadItemsValid(t[1..], acc + [v.value]); }
  }

  lemma {:induction false} ReadMembersValid(s: string, acc: seq<Member>)
    requires ReadMembers(s, acc).Good? && Valid(Obj(acc))
    ensures Valid(ReadMembers(s, acc).value)
    decreases |s|, 3
  {
    var m := ReadMember(s);
    var k := ReadString(SkipSpace(s));
    ReadValueValid(SkipSpace(k.rest)[1..]);
    var ms := SetMember(acc, m.value.key, m.value.value);
    SetMemberSorted(acc, m.value.key, m.value.value);
    SetMemberFrom(acc, m.value.key, m.value.value);
    assert Valid(Obj(ms)) by {
      forall i | 0 <= i < |ms| ensures Valid(ms[i].value) {
        assert ms[i] in ms;
      }
    }
    var t := SkipSpace(m.rest);
    if t[0] == ',' { ReadMembersValid(t[1..], ms); }
  }

  /** Any accepted text without doubles has a normal form: printing what was read and reading
      again gives the same value, so a second print changes nothing. */
  lemma NormalForm(s: string)
    requires ReadValue(s).Good? && DoubleFree(ReadValue(s).value)
    ensures ReadValue(Dump(ReadValue(s).value)) == Good(ReadValue(s).value, "")
  {
    ReadValueValid(s);
    var v := ReadValue(s).value;
    RoundTrip(v, "");
    assert Dump(v) + "" == Dump(v);
  }

  // ------------------------------------------- a read depends on what it consumed and no more

  predicate Suffix(t: string, s: string) {
    |t| <= |s| && s[|s| - |t|..] == t
  }

  /** `s` with its ending `rest` replaced by `t`. */
  function Swap(s: string, rest: string, t: string): string
    requires |rest| <= |s|
  {
    s[..|s| - |rest|] + t
  }

  lemma SwapSame(s: string, t: string)
    ensures Suffix(s, s) && Swap(s, s, t) == t
  {
  }

  lemma SwapTail(s: string, n: nat, rest: string, t: string)
    requires n <= |s| && Suffix(rest, s[n..])
    ensures Suffix(rest, s)
    ensures Swap(s, rest, t) == s[..n] + Swap(s[n..], rest, t)
    ensures Swap(s, rest, t)[n..] == Swap(s[n..], rest, t)
    ensures forall i :: 0 <= i < n ==> Swap(s, rest, t)[i] == s[i]
  {
  }

  lemma SwapNest(s: string, mid: string, rest: string, t: string)
    requires Suffix(mid, s) && Suffix(rest, mid)
    ensures Suffix(rest, s)
    ensures Swap(s, rest, t) == Swap(s, mid, Swap(mid, rest, t))
  {
  }

  lemma {:induction false} SkipSuffix(s: string)
    ensures Suffix(SkipSpace(s), s)
  {
    if s != "" && IsSpace(s[0]) { SkipSuffix(s[1..]); }
  }

  /** Skipping white space commutes with a replacement behind the first visible character. */
  lemma {:induction false} SwapSkip(s: string, rest: string, t: string)
    requires Suffix(rest, SkipSpace(s)) && |rest| < |SkipSpace(s)|
    ensures Suffix(rest, s)
    ensures SkipSpace(Swap(s, rest, t)) == Swap(SkipSpace(s), rest, t)
    ensures Swap(s, rest, t) != "" && Swap(s, rest, t)[0] == s[0]
    ensures Swap(SkipSpace(s), rest, t) != "" && Swap(SkipSpace(s), rest, t)[0] == SkipSpace(s)[0]
  {
    SkipSuffix(s);
    if IsSpace(s[0]) {
      SwapSkip(s[1..], rest, t);
      SwapTail(s, 1, rest, t);
    }
  }

  lemma {:induction false} CharsLocal(s: string, acc: string, t: string)
    requires ReadChars(s, acc).Good?
    ensures Suffix(ReadChars(s, acc).rest, s)
    ensures ReadChars(Swap(s, ReadChars(s, acc).rest, t), acc) == Good(ReadChars(s, acc).value, t)
  {
    var rest := ReadChars(s, acc).rest;
    var w := Swap(s, rest, t);
    if s[0] == '"' {
      SwapTail(s, 1, rest, t);
      SwapSame(rest, t);
    } else if s[0] != '\\' {
      CharsLocal(s[1..], acc + [s[0]], t);
      SwapTail(s, 1, rest, t);
    } else if IsShortEscape(s[1]) {
      CharsLocal(s[2..], acc + [Unescape(s[1])], t);
      SwapTail(s, 2, rest, t);
    } else {
      CharsLocal(s[6..], acc + Utf8(HexQuad(s[2..6])), t);
      SwapTail(s, 6, rest, t);
      assert w[2..6] == s[2..6];
    }
  }

  lemma StringLocal(s: string, t: string)
    requires ReadString(s).Good?
    ensures Suffix(ReadString(s).rest, s)
    ensures ReadString(Swap(s, ReadString(s).rest, t)) == Good(ReadString(s).value, t)
  {
    CharsLocal(s[1..], "", t);
    SwapTail(s, 1, ReadString(s).rest, t);
  }

  lemma NumberLocal(s: string, t: string)
    requires ReadNumber(s).Good? && Stop(t)
    ensures Suffix(ReadNumber(s).rest, s)
    ensures ReadNumber(Swap(s, ReadNumber(s).rest, t)) == Good(ReadNumber(s).value, t)
  {
    var n := NumberSpan(s);
    var w := Swap(s, s[n..], t);
    assert w == s[..n] + t;
    SpanIs(w, n);
    assert w[..n] == s[..n] && w[n..] == t;
  }

  lemma WordLocal(s: string, word: string, v: Value, t: string)
    requires ReadWord(s, word, v).Good?
    ensures Suffix(ReadWord(s, word, v).rest, s)
    ensures ReadWord(Swap(s, ReadWord(s, word, v).rest, t), word, v) == Good(v, t)
  {
    var w := Swap(s, s[|word|..], t);
    assert w == word + t;
    assert w[|word|..] == t;
  }

  /** Replacing what a read left over changes neither its value nor what it consumes; a number
      needs a follower that is not a number character. With "" for `t`: the consumed octets alone
      give the same value, and all of them are consumed. */
  lemma {:induction false} ReadLocal(s: string, t: string)
    requires ReadValue(s).Good?
    requires ReadValue(s).value.Int? || ReadValue(s).value.Double? ==> Stop(t)
    ensures Suffix(ReadValue(s).rest, s) && |ReadValue(s).rest| < |SkipSpace(s)|
    ensures ReadValue(Swap(s, ReadValue(s).rest, t)) == Good(ReadValue(s).value, t)
    decreases |s|, 2
  {
    var rest := ReadValue(s).rest;
    var u := SkipSpace(s);
    SkipTwice(s);
    assert ReadValue(u) == ReadValue(s);
    CoreLocal(u, t);
    SwapSkip(s, rest, t);
    assert SkipSpace(Swap(u, rest, t)) == Swap(u, rest, t);
  }

  /** `ReadLocal` once the leading white space is gone. */
  lemma {:induction false} CoreLocal(u: string, t: string)
    requires SkipSpace(u) == u && ReadValue(u).Good?
    requires ReadValue(u).value.Int? || ReadValue(u).value.Double? ==> Stop(t)
    ensures Suffix(ReadValue(u).rest, u)
    ensures ReadValue(Swap(u, ReadValue(u).rest, t)) == Good(ReadValue(u).value, t)
    decreases |u|, 1
  {
    var rest := ReadValue(u).rest;
    if u[0] == '{' {
      ObjectLocal(u, t);
    } else if u[0] == '[' {
      ArrayLocal(u, t);
    } else {
      if u[0] == '"' {
        StringLocal(u, t);
      } else if u[0] == 't' {
        WordLocal(u, "true", Bool(true), t);
      } else if u[0] == 'f' {
        WordLocal(u, "false", Bool(false), t);
      } else if u[0] == 'n' {
        WordLocal(u, "null", Null, t);
      } else {
        NumberLocal(u, t);
      }
      SwapSkip(u, rest, t);
    }
  }

  lemma {:induction false} ArrayLocal(u: string, t: string)
    requires u != "" && u[0] == '[' && ReadValue(u).Good?
    ensures Suffix(ReadValue(u).rest, u)
    ensures ReadValue(Swap(u, ReadValue(u).rest, t)) == Good(ReadValue(u).value, t)
    decreases |u|, 0
  {
    var rest := ReadValue(u).rest;
    var w := SkipSpace(u[1..]);
    if w != "" && w[0] == ']' { SwapSame(rest, t); } else { ItemsLocal(u[1..], [], t); }
    SwapSkip(u[1..], rest, t);
    SwapTail(u, 1, rest, t);
    if w[0] == ']' { SwapTail(w, 1, rest, t); }
  }

  lemma {:induction false} ObjectLocal(u: string, t: string)
    requires u != "" && u[0] == '{' && ReadValue(u).Good?
    ensures Suffix(ReadValue(u).rest, u)
    ensures ReadValue(Swap(u, ReadValue(u).rest, t)) == Good(ReadValue(u).value, t)
    decreases |u|, 0
  {
    var rest := ReadValue(u).rest;
    var w := SkipSpace(u[1..]);
    if w != "" && w[0] == '}' { SwapSame(rest, t); } else { MembersLocal(u[1..], [], t); }
    SwapSkip(u[1..], rest, t);
    SwapTail(u, 1, rest, t);
    if w[0] == '}' { SwapTail(w, 1, rest, t); }
  }

  /** Behind a value: white space, a separator, and the ending `rest` somewhere after that. */
  lemma Separator(s: string, rest: string, t: string)
    requires SkipSpace(s) != "" && Suffix(rest, SkipSpace(s)[1..])
    ensures Suffix(rest, s)
    ensures var u := SkipSpace(s); var w := SkipSpace(Swap(s, rest, t));
            w != "" && w[0] == u[0] && w[1..] == Swap(u[1..], rest, t)
    ensures !IsNumberChar(SkipSpace(s)[0]) ==> Stop(Swap(s, rest, t))
  {
    var u := SkipSpace(s);
    SwapTail(u, 1, rest, t);
    SwapSkip(s, rest, t);
  }

  lemma {:induction false} ItemsLocal(s: string, acc: seq<Value>, t: string)
    requires ReadItems(s, acc).Good?
    ensures Suffix(ReadItems(s, acc).rest, SkipSpace(s)) && |ReadItems(s, acc).rest| < |SkipSpace(s)|
    ensures Suffix(ReadItems(s, acc).rest, s)
    ensures ReadItems(Swap(s, ReadItems(s, acc).rest, t), acc) == Good(ReadItems(s, acc).value, t)
    decreases |s|, 3
  {
    hide Swap, Suffix;
    var rest := ReadItems(s, acc).rest;
    var v := ReadValue(s);
    var u := SkipSpace(v.rest);
    if u[0] == ',' { ItemsLocal(u[1..], acc + [v.value], t); } else { SwapSame(rest, t); }
    Separator(v.rest, rest, t);
    ReadLocal(s, Swap(v.rest, rest, t));
    SwapNest(s, v.rest, rest, t);
    ShorterSuffix(rest, s);
  }

  lemma ShorterSuffix(rest: string, s: string)
    requires Suffix(rest, s) && |rest| <= |SkipSpace(s)|
    ensures Suffix(rest, SkipSpace(s))
  {
    SkipSuffix(s);
  }

  lemma {:induction false} MemberLocal(s: string, t: string)
    requires ReadMember(s).Good? && Stop(t)
    ensures Suffix(ReadMember(s).rest, s) && |ReadMember(s).rest| < |SkipSpace(s)|
    ensures ReadMember(Swap(s, ReadMember(s).rest, t)) == Good(ReadMember(s).value, t)
    decreases |s|, 3
  {
    hide Swap, Suffix;
    var rest := ReadMember(s).rest;
    var w := SkipSpace(s);
    var k := ReadString(w);
    var u := SkipSpace(k.rest);
    ReadLocal(u[1..], t);
    Separator(k.rest, rest, t);
    StringLocal(w, Swap(k.rest, rest, t));
    SwapNest(w, k.rest, rest, t);
    SwapSkip(s, rest, t);
  }

  lemma {:induction false} MembersLocal(s: string, acc: seq<Member>, t: string)
    requires ReadMembers(s, acc).Good?
    ensures Suffix(ReadMembers(s, acc).rest, SkipSpace(s)) && |ReadMembers(s, acc).rest| < |SkipSpace(s)|
    ensures Suffix(ReadMembers(s, acc).rest, s)
    ensures ReadMembers(Swap(s, ReadMembers(s, acc).rest, t), acc) == Good(ReadMembers(s, acc).value, t)
    decreases |s|, 4
  {
    hide Swap, Suffix;
    var rest := ReadMembers(s, acc).rest;
    var m := ReadMember(s);
    var u := SkipSpace(m.rest);
    if u[0] == ',' {
      MembersLocal(u[1..], SetMember(acc, m.value.key, m.value.value), t);
    } else {
      SwapSame(rest, t);
    }
    Separator(m.rest, rest, t);
    MemberLocal(s, Swap(m.rest, rest, t));
    SwapNest(s, m.rest, rest, t);
    ShorterSuffix(rest, s);
  }

  // --------------------------------------------------------------- more lenient than JSON

  /** What section 6 of RFC 8259 forbids and the reader takes: a plus sign, a sign alone, leading zeros. */
  lemma LenientNumbers()
    ensures ReadNumber("+5") == Good(Int(5), "")
    ensures ReadNumber("-") == Good(Int(0), "")
    ensures ReadNumber("007") == Good(Int(7), "")
  {
    SpanIs("+5", 2);
    SpanIs("-", 1);
    SpanIs("007", 3);
    assert Unsigned("+5") == "5" && Unsigned("-") == "" && Unsigned("007") == "007";
    assert DigitsValue("") == 0;
    assert "5"[..0] == "" && DigitsValue("5") == 5;
    assert "007"[..2] == "00" && "00"[..1] == "0" && "0"[..0] == "";
    assert DigitsValue("0") == 0 && DigitsValue("00") == 0 && DigitsValue("007") == 7;
    assert "+5"[..2] == "+5" && "-"[..1] == "-" && "007"[..3] == "007";
  }

  /** A lone surrogate becomes three octets, which section 3 of RFC 3629 forbids. */
  lemma LoneSurrogate()
    ensures Utf8(0xD800) == [0xED as char, 0xA0 as char, 0x80 as char]
  {
  }
}
