/** `FsGrep` of agent/source/handlers/fs.cpp: a one-pass search for a substring in the lines of a file.

    A last line without a newline is never examined, carriage returns are dropped wherever they
    stand, and only the first 4096 remaining octets of a line are kept. */
module Grep {
  import opened Options
  import opened Memory

  const LINE_CAP := 4096
  const ECHO_CAP := 300

  function LowerChar(c: char): char {
    if 'A' <= c <= 'Z' then (c as int + 32) as char else c
  }

  function Lower(s: string): (r: string)
    ensures |r| == |s|
  {
    seq(|s|, i requires 0 <= i < |s| => LowerChar(s[i]))
  }

  /** `hay.find(needle) != npos`. */
  predicate Contains(hay: string, needle: string) {
    exists k: nat | k <= |hay| :: OccursAt(hay, needle, k)
  }

  predicate OccursAt(hay: string, needle: string, k: nat) {
    k + |needle| <= |hay| && hay[k..k + |needle|] == needle
  }

  // ------------------------------------------------------------------- line by line

  datatype Line = Line(no: nat, start: nat, text: string)

  function NewlineAt(s: string): (j: nat)
    ensures j <= |s|
  {
    if s == "" || s[0] == '\n' then 0 else 1 + NewlineAt(s[1..])
  }

  function DropReturns(s: string): string {
    if s == "" then ""
    else DropReturns(s[..|s| - 1]) + if s[|s| - 1] == '\r' then "" else [s[|s| - 1]]
  }

  /** What the line buffer keeps of a line. */
  function Strip(s: string): string {
    var t := DropReturns(s);
    if |t| > LINE_CAP then t[..LINE_CAP] else t
  }

  /** The newline-terminated lines of `s`, when `no` lines and `at` octets came before. */
  function Lines(s: string, no: nat, at: nat): seq<Line>
    decreases |s|
  {
    var j := NewlineAt(s);
    if j == |s| then []
    else [Line(no + 1, at, Strip(s[..j]))] + Lines(s[j + 1..], no + 1, at + j + 1)
  }

  predicate Matches(l: Line, needle: string, ignoreCase: bool) {
    Contains(if ignoreCase then Lower(l.text) else l.text, needle)
  }

  function Echo(text: string): string {
    if |text| > ECHO_CAP then text[..ECHO_CAP] + "..." else text
  }

  /** How many lines end in `s`. */
  function Newlines(s: string): nat {
    if s == "" then 0 else (if s[0] == '\n' then 1 else 0) + Newlines(s[1..])
  }

  datatype Match = Match(line: nat, offset: nat, text: string)

  function AllMatches(lines: seq<Line>, needle: string, ignoreCase: bool): seq<Match> {
    if lines == [] then []
    else (if Matches(lines[0], needle, ignoreCase)
          then [Match(lines[0].no, lines[0].start, Echo(lines[0].text))] else [])
         + AllMatches(lines[1..], needle, ignoreCase)
  }

  // --------------------------------------------------------------------- in one pass

  datatype GrepResult = Found(matches: seq<Match>, truncated: bool, linesScanned: nat) | BadPattern | NotFound

  /** The specification: the first `limit` matching lines, `truncated` when there is another, at which the
      scan stops. */
  function GrepSpec(content: string, needle: string, ignoreCase: bool, limit: nat): GrepResult {
    var all := AllMatches(Lines(content, 0, 0), needle, ignoreCase);
    if |all| > limit then Found(all[..limit], true, all[limit].line) else Found(all, false, Newlines(content))
  }

  function ClampLimit(limit: int): nat {
    if ToInt32(limit) < 1 || ToInt32(limit) > 1000 then 100 else ToInt32(limit)
  }

  method FsGrep(file: Option<string>, pattern: string, ignoreCase: bool, limit: int) returns (r: GrepResult)
    ensures r == if pattern == "" then BadPattern
                 else if file.None? then NotFound
                 else GrepSpec(file.value, if ignoreCase then Lower(pattern) else pattern, ignoreCase, ClampLimit(limit))
  {
    if pattern == "" { return BadPattern; }
    if file.None? { return NotFound; }
    var needle := if ignoreCase then Lower(pattern) else pattern;
    r := Scan(file.value, needle, ignoreCase, ClampLimit(limit));
  }

  /** The byte loop of `FsGrep`. */
  method Scan(content: string, needle: string, ignoreCase: bool, limit: nat) returns (r: GrepResult)
    ensures r == GrepSpec(content, needle, ignoreCase, limit)
  {
    hide Contains, Lower, Strip, Lines, AllMatches, Echo, Matches, Newlines;
    var found: seq<Match> := [];
    var line, lineno, offset, lineStart := "", 0, 0, 0;
    ghost var all := AllMatches(Lines(content, 0, 0), needle, ignoreCase);
    Begins(content, all);
    while offset < |content|
      invariant 0 <= lineStart <= offset <= |content| && |found| <= limit
      invariant InLine(content, lineStart, offset)
      invariant line == Strip(content[lineStart..offset])
      invariant lineno + Newlines(content[lineStart..]) == Newlines(content)
      invariant found + AllMatches(Lines(content[lineStart..], lineno, lineStart), needle, ignoreCase) == all
      decreases |content| - offset
    {
      var ch := content[offset];
      ghost var was := offset;
      offset := offset + 1;
      if ch == '\n' {
        LineEnds(content, lineStart, was, lineno);
        ghost var l := Line(lineno + 1, lineStart, line);
        ghost var later := Lines(content[offset..], lineno + 1, offset);
        lineno := lineno + 1;
        var hay := if ignoreCase then Lower(line) else line;
        MatchesCons(found, l, later, needle, ignoreCase);
        if Contains(hay, needle) {
          if |found| >= limit {
            assert all[|found|] == Match(lineno, lineStart, Echo(line));
            return Found(found, true, lineno);
          }
          found := found + [Match(lineno, lineStart, Echo(line))];
        }
        line := "";
        lineStart := offset;
        EmptyLine(content, offset);
      } else {
        LineGrows(content, lineStart, was, line);
        if ch != '\r' {
          if |line| < LINE_CAP { line := line + [ch]; }
        }
      }
    }
    Unterminated(content, lineStart, lineno, needle, ignoreCase);
    assert found + [] == found;
    return Found(found, false, lineno);
  }

  /** No newline between the start of the line and the cursor. */
  predicate InLine(content: string, start: nat, offset: nat)
    requires start <= offset <= |content|
  {
    forall i :: start <= i < offset ==> content[i] != '\n'
  }

  lemma Begins(content: string, all: seq<Match>)
    ensures content[0..] == content && content[0..0] == "" && Strip("") == "" && [] + all == all
  {
  }

  lemma EmptyLine(content: string, offset: nat)
    requires offset <= |content|
    ensures content[offset..offset] == "" && Strip("") == ""
  {
  }

  lemma {:induction false} NewlineIs(s: string, j: nat)
    requires j <= |s| && (forall i :: 0 <= i < j ==> s[i] != '\n') && (j < |s| ==> s[j] == '\n')
    ensures NewlineAt(s) == j
  {
    if j > 0 { NewlineIs(s[1..], j - 1); }
  }

  lemma LineEnds(content: string, start: nat, end: nat, no: nat)
    requires start <= end < |content| && InLine(content, start, end) && content[end] == '\n'
    ensures Lines(content[start..], no, start)
            == [Line(no + 1, start, Strip(content[start..end]))] + Lines(content[end + 1..], no + 1, end + 1)
    ensures Newlines(content[start..]) == 1 + Newlines(content[end + 1..])
  {
    hide Strip, Lines, Newlines, NewlineAt;
    var s := content[start..];
    NewlineIs(s, end - start);
    NewlineFacts(s);
    LinesStep(s, no, start);
    assert s[..end - start] == content[start..end] && s[end - start + 1..] == content[end + 1..];
  }

  lemma MatchesCons(found: seq<Match>, l: Line, later: seq<Line>, needle: string, ignoreCase: bool)
    ensures found + AllMatches([l] + later, needle, ignoreCase)
            == (if Matches(l, needle, ignoreCase) then found + [Match(l.no, l.start, Echo(l.text))] else found)
               + AllMatches(later, needle, ignoreCase)
    ensures Matches(l, needle, ignoreCase) == Contains(if ignoreCase then Lower(l.text) else l.text, needle)
  {
    hide Contains, Lower, Echo;
    assert ([l] + later)[1..] == later;
    assert [] + AllMatches(later, needle, ignoreCase) == AllMatches(later, needle, ignoreCase);
  }

  /** One octet more: dropped when it is a carriage return or the buffer is full. */
  lemma LineGrows(content: string, start: nat, at: nat, line: string)
    requires start <= at < |content| && line == Strip(content[start..at])
    ensures Strip(content[start..at + 1])
            == if content[at] == '\r' || |line| >= LINE_CAP then line else line + [content[at]]
  {
    var s := content[start..at + 1];
    assert s[..|s| - 1] == content[start..at];
  }

  lemma Unterminated(content: string, start: nat, no: nat, needle: string, ignoreCase: bool)
    requires start <= |content| && InLine(content, start, |content|)
    ensures AllMatches(Lines(content[start..], no, start), needle, ignoreCase) == [] && Newlines(content[start..]) == 0
  {
    NewlineIs(content[start..], |content| - start);
    NewlineFacts(content[start..]);
  }

  // ------------------------------------------------------------- what line by line means

  /** `l` is a newline-terminated line of the file: it starts where the file or a line starts, its
      number is one more than the newlines before it, and its text is what is kept of it. */
  ghost predicate IsLineOf(l: Line, content: string) {
    exists end :: LineSpan(l, content, end)
  }

  ghost predicate LineSpan(l: Line, content: string, end: nat) {
    && l.start <= end < |content| && content[end] == '\n' && InLine(content, l.start, end)
    && (l.start == 0 || content[l.start - 1] == '\n')
    && l.no == Newlines(content[..l.start]) + 1
    && l.text == Strip(content[l.start..end])
  }

  /** Exact lines with consecutive numbers from `no + 1`. */
  ghost predicate ExactLines(ls: seq<Line>, content: string, no: nat) {
    forall k :: 0 <= k < |ls| ==> IsLineOf(ls[k], content) && ls[k].no == no + k + 1
  }

  /** Line numbers and offsets are exact, and no newline-terminated line is missing. */
  lemma {:induction false} LinesExact(content: string, at: nat, no: nat)
    requires at <= |content| && (at == 0 || content[at - 1] == '\n') && no == Newlines(content[..at])
    ensures ExactLines(Lines(content[at..], no, at), content, no)
    ensures |Lines(content[at..], no, at)| == Newlines(content[at..])
    decreases |content| - at
  {
    hide Strip, ExactLines, LineSpan, Lines, Newlines, NewlineAt, IsLineOf;
    var s := content[at..];
    var j := NewlineAt(s);
    NewlineFacts(s);
    LinesStep(s, no, at);
    if j < |s| {
      var end := at + j;
      CutLine(content, at, j);
      FirstLine(content, at, no);
      LinesExact(content, end + 1, no + 1);
      ExactCons(Line(no + 1, at, Strip(s[..j])), Lines(s[j + 1..], no + 1, end + 1), content, no);
    } else {
      NoLines(content, no);
    }
  }

  lemma LinesStep(s: string, no: nat, at: nat)
    ensures var j := NewlineAt(s);
            Lines(s, no, at) == if j == |s| then []
                                else [Line(no + 1, at, Strip(s[..j]))] + Lines(s[j + 1..], no + 1, at + j + 1)
  {
  }

  lemma NoLines(content: string, no: nat)
    ensures ExactLines([], content, no)
  {
  }

  lemma ExactCons(l: Line, ls: seq<Line>, content: string, no: nat)
    requires IsLineOf(l, content) && l.no == no + 1 && ExactLines(ls, content, no + 1)
    ensures ExactLines([l] + ls, content, no)
  {
    hide IsLineOf;
    forall k | 0 <= k < |[l] + ls| ensures IsLineOf(([l] + ls)[k], content) && ([l] + ls)[k].no == no + k + 1 {
      if k > 0 { assert ([l] + ls)[k] == ls[k - 1]; }
    }
  }

  lemma CutLine(content: string, at: nat, j: nat)
    requires at + j < |content|
    ensures content[at..][..j] == content[at..at + j] && content[at..][j + 1..] == content[at + j + 1..]
    ensures content[..at] + content[at..][..j + 1] == content[..at + j + 1]
    ensures content[at..][j] == content[at + j]
  {
  }

  lemma FirstLine(content: string, at: nat, no: nat)
    requires at <= |content| && (at == 0 || content[at - 1] == '\n') && no == Newlines(content[..at])
    requires NewlineAt(content[at..]) < |content| - at
    ensures var j := NewlineAt(content[at..]);
            && IsLineOf(Line(no + 1, at, Strip(content[at..][..j])), content)
            && content[at + j] == '\n' && Newlines(content[..at + j + 1]) == no + 1
  {
    hide Strip;
    var s := content[at..];
    var j := NewlineAt(s);
    NewlineFacts(s);
    CutLine(content, at, j);
    OneNewline(s);
    NewlinesAppend(content[..at], s[..j + 1]);
    assert forall i :: at <= i < at + j ==> content[i] == s[i - at];
    assert LineSpan(Line(no + 1, at, Strip(s[..j])), content, at + j);
  }

  lemma {:induction false} OneNewline(s: string)
    requires NewlineAt(s) < |s|
    ensures Newlines(s[..NewlineAt(s) + 1]) == 1
  {
    var j := NewlineAt(s);
    var t := s[..j + 1];
    if s[0] == '\n' {
      assert t[1..] == "";
    } else {
      OneNewline(s[1..]);
      assert t[1..] == s[1..][..NewlineAt(s[1..]) + 1];
    }
  }

  lemma {:induction false} NewlineFacts(s: string)
    ensures forall i :: 0 <= i < NewlineAt(s) ==> s[i] != '\n'
    ensures NewlineAt(s) < |s| ==> s[NewlineAt(s)] == '\n' && Newlines(s) == 1 + Newlines(s[NewlineAt(s) + 1..])
    ensures NewlineAt(s) == |s| ==> Newlines(s) == 0
  {
    if s != "" && s[0] != '\n' { NewlineFacts(s[1..]); }
  }

  lemma {:induction false} NewlinesAppend(a: string, b: string)
    ensures Newlines(a + b) == Newlines(a) + Newlines(b)
  {
    if a == "" {
      assert a + b == b;
    } else {
      assert (a + b)[1..] == a[1..] + b;
      NewlinesAppend(a[1..], b);
    }
  }

  /** For a whole file: as many lines as newlines, the k-th with number k + 1, each exact. */
  lemma FileLines(content: string)
    ensures var ls := Lines(content, 0, 0);
            && |ls| == Newlines(content)
            && forall k :: 0 <= k < |ls| ==> IsLineOf(ls[k], content) && ls[k].no == k + 1
  {
    assert content[0..] == content && content[..0] == "";
    LinesExact(content, 0, 0);
  }

  // ------------------------------------------------------------------ what is never examined

  /** Octet `i` belongs to a line that is examined, its newline included. */
  ghost predicate Examined(content: string, i: nat) {
    exists k: nat, end: nat :: ExaminedBy(content, i, k, end)
  }

  ghost predicate ExaminedBy(content: string, i: nat, k: nat, end: nat) {
    var ls := Lines(content, 0, 0);
    k < |ls| && LineSpan(ls[k], content, end) && ls[k].start <= i <= end
  }

  lemma {:induction false} LineCovers(content: string, at: nat, no: nat, i: nat) returns (k: nat, end: nat)
    requires at <= i < |content| && content[|content| - 1] == '\n'
    requires (at == 0 || content[at - 1] == '\n') && no == Newlines(content[..at])
    ensures var ls := Lines(content[at..], no, at);
            k < |ls| && LineSpan(ls[k], content, end) && ls[k].start <= i <= end
    decreases |content| - at
  {
    hide Strip, LineSpan, Lines, Newlines, NewlineAt;
    var s := content[at..];
    var j := NewlineAt(s);
    NewlineFacts(s);
    LinesStep(s, no, at);
    assert s[|s| - 1] == '\n';
    CutLine(content, at, j);
    FirstLine(content, at, no);
    if i <= at + j {
      k, end := 0, at + j;
      FirstSpan(content, at, no);
    } else {
      k, end := LineCovers(content, at + j + 1, no + 1, i);
      k := k + 1;
    }
  }

  lemma FirstSpan(content: string, at: nat, no: nat)
    requires at <= |content| && (at == 0 || content[at - 1] == '\n') && no == Newlines(content[..at])
    requires NewlineAt(content[at..]) < |content| - at
    ensures LineSpan(Line(no + 1, at, Strip(content[at..][..NewlineAt(content[at..])])), content, at + NewlineAt(content[at..]))
  {
    hide Strip, Newlines;
    var s := content[at..];
    var j := NewlineAt(s);
    NewlineFacts(s);
    CutLine(content, at, j);
    assert forall i :: at <= i < at + j ==> content[i] == s[i - at];
  }

  /** Every octet of a file is examined exactly when the file is empty or ends in a newline. */
  lemma ExaminedExactly(content: string)
    ensures (forall i: nat :: i < |content| ==> Examined(content, i))
            <==> content == "" || content[|content| - 1] == '\n'
  {
    hide LineSpan, Lines, Newlines;
    if content != "" && content[|content| - 1] == '\n' {
      WholeFile(content);
      forall i: nat | i < |content| ensures Examined(content, i) {
        var k, end := LineCovers(content, 0, 0, i);
        assert ExaminedBy(content, i, k, end);
      }
    }
    if content != "" && Examined(content, |content| - 1) {
      var k: nat, end: nat :| ExaminedBy(content, |content| - 1, k, end);
      SpanEnds(Lines(content, 0, 0)[k], content, end);
    }
  }

  lemma WholeFile(content: string)
    ensures content[0..] == content && Newlines(content[..0]) == 0
  {
  }

  lemma SpanEnds(l: Line, content: string, end: nat)
    requires LineSpan(l, content, end)
    ensures end < |content| && content[end] == '\n'
  {
    hide Strip, Newlines;
  }

  /** A match in a last line without a newline is not found. */
  lemma LastLineMissed()
    ensures Contains("key", "key") && GrepSpec("key", "key", false, 100) == Found([], false, 0)
  {
    assert OccursAt("key", "key", 0);
    NewlineIs("key", 3);
  }

  // --------------------------------------------------------- what matching and the caps come to

  /** The same character, or an ASCII letter and its other case. */
  predicate SameLetter(c: char, d: char) {
    c == d || (65 <= c as int <= 90 && d as int == c as int + 32) || (65 <= d as int <= 90 && c as int == d as int + 32)
  }

  predicate SameButCase(a: string, b: string) {
    |a| == |b| && forall i :: 0 <= i < |a| ==> SameLetter(a[i], b[i])
  }

  lemma LowerSame(a: string, b: string)
    ensures Lower(a) == Lower(b) <==> SameButCase(a, b)
  {
    if Lower(a) == Lower(b) {
      forall i | 0 <= i < |a| ensures SameLetter(a[i], b[i]) { assert Lower(a)[i] == Lower(b)[i]; }
    }
  }

  /** `part` stands in `text` at `k`, except for the case of letters. */
  predicate FoldedAt(text: string, part: string, k: nat) {
    k + |part| <= |text| && SameButCase(text[k..k + |part|], part)
  }

  /** The two ways a pattern can match: as it is, or whatever the case of the letters on either side. */
  lemma MatchesExactly(l: Line, pattern: string)
    ensures Matches(l, pattern, false) <==> exists before, after :: l.text == before + pattern + after
    ensures Matches(l, Lower(pattern), true) <==> exists k: nat :: FoldedAt(l.text, pattern, k)
  {
    hide Lower;
    if Matches(l, pattern, false) {
      var k: nat :| k <= |l.text| && OccursAt(l.text, pattern, k);
      assert l.text == l.text[..k] + pattern + l.text[k + |pattern|..];
    }
    if exists before, after :: l.text == before + pattern + after {
      var before, after :| l.text == before + pattern + after;
      assert OccursAt(l.text, pattern, |before|);
    }
    forall k: nat ensures OccursAt(Lower(l.text), Lower(pattern), k) <==> FoldedAt(l.text, pattern, k) {
      FoldsAt(l.text, pattern, k);
    }
    if Matches(l, Lower(pattern), true) {
      var k: nat :| k <= |Lower(l.text)| && OccursAt(Lower(l.text), Lower(pattern), k);
      assert FoldedAt(l.text, pattern, k);
    }
    if exists k: nat :: FoldedAt(l.text, pattern, k) {
      var k: nat :| FoldedAt(l.text, pattern, k);
      assert OccursAt(Lower(l.text), Lower(pattern), k);
    }
  }

  lemma FoldsAt(text: string, pattern: string, k: nat)
    ensures OccursAt(Lower(text), Lower(pattern), k) <==> FoldedAt(text, pattern, k)
  {
    if k + |pattern| <= |text| {
      assert Lower(text)[k..k + |pattern|] == Lower(text[k..k + |pattern|]);
      LowerSame(text[k..k + |pattern|], pattern);
    }
  }

  /** What is kept of a line: carriage returns disappear, and the first 4096 octets are left. */
  lemma KeptOfLine(a: string, b: string)
    ensures Strip(a + "\r" + b) == Strip(a + b)
    ensures '\r' !in a ==> Strip(a) == if |a| <= 4096 then a else a[..4096]
  {
    hide DropReturns;
    ReturnDropped(a, b);
    if '\r' !in a { NoReturns(a); }
  }

  lemma {:induction false} ReturnDropped(a: string, b: string)
    ensures DropReturns(a + "\r" + b) == DropReturns(a + b)
  {
    var s, t := a + "\r" + b, a + b;
    if b == "" {
      assert s[..|s| - 1] == a == t;
    } else {
      var n := |b| - 1;
      assert s[..|s| - 1] == a + "\r" + b[..n] && t[..|t| - 1] == a + b[..n];
      ReturnDropped(a, b[..n]);
    }
  }

  lemma {:induction false} NoReturns(a: string)
    requires '\r' !in a
    ensures DropReturns(a) == a
  {
    if a != "" {
      NoReturns(a[..|a| - 1]);
      assert a == a[..|a| - 1] + [a[|a| - 1]];
    }
  }

  /** At most 300 octets of a matching line come back, and then three dots tell so. */
  lemma EchoExactly(text: string)
    ensures |text| <= 300 ==> Echo(text) == text
    ensures |text| > 300 ==> |Echo(text)| == 303 && Echo(text)[..300] == text[..300] && Echo(text)[300..] == "..."
  {
  }

  /** A limit from 1 to 1000 is used as it is, any other is 100. */
  lemma LimitExactly(limit: int)
    requires -0x8000_0000 <= limit < 0x8000_0000
    ensures 1 <= limit <= 1000 ==> ClampLimit(limit) == limit
    ensures limit < 1 || limit > 1000 ==> ClampLimit(limit) == 100
  {
  }
}
