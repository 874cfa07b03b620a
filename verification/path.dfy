/** `NormalizePath` and `ResolveSdPath` of agent/source/path.cpp. */
module Path {
  import opened Options

  /** `in.find('/')`, or the length when there is none. */
  function FirstSlash(s: string): (j: nat)
    ensures j <= |s|
  {
    if s == "" || s[0] == '/' then 0 else 1 + FirstSlash(s[1..])
  }

  lemma {:induction false} FirstSlashIs(s: string)
    ensures forall i :: 0 <= i < FirstSlash(s) ==> s[i] != '/'
    ensures FirstSlash(s) < |s| ==> s[FirstSlash(s)] == '/'
  {
    if s != "" && s[0] != '/' { FirstSlashIs(s[1..]); }
  }

  /** The segments between slashes, without the empty one after a final slash. */
  function Segments(s: string): seq<string> {
    if s == "" then []
    else
      var j := FirstSlash(s);
      [s[..j]] + if j < |s| then Segments(s[j + 1..]) else []
  }

  predicate Kept(seg: string) {
    seg != "" && seg != "."
  }

  function Parts(segs: seq<string>): seq<string> {
    if segs == [] then []
    else (if Kept(segs[0]) then [segs[0]] else []) + Parts(segs[1..])
  }

  function Join(parts: seq<string>): string {
    if parts == [] then ""
    else if |parts| == 1 then parts[0]
    else parts[0] + "/" + Join(parts[1..])
  }

  /** What `NormalizePath` answers. */
  function Normalize(s: string): Option<string> {
    if s == "" || s[0] != '/' || ".." in Segments(s) then None
    else Some("/" + Join(Parts(Segments(s))))
  }

  function From(s: string, i: nat): string {
    if i <= |s| then s[i..] else ""
  }

  function FirstSegment(s: string): string {
    s[..FirstSlash(s)]
  }

  /** What comes behind the first slash. */
  function AfterFirst(s: string): (t: string)
    ensures s != "" ==> |t| < |s|
  {
    From(s, FirstSlash(s) + 1)
  }

  predicate HasSlash(s: string) {
    FirstSlash(s) < |s|
  }

  /** The segment that starts at `i`, and where the next one starts. */
  method Split(path: string, i: nat) returns (seg: string, next: nat)
    requires i < |path|
    ensures i < next <= |path| + 1 && Segments(From(path, i)) == [seg] + Segments(From(path, next))
  {
    hide Segments, From, FirstSlash;
    var j := i + FirstSlash(path[i..]);
    SegmentsStep(path, i);
    return path[i..j], j + 1;
  }

  method NormalizePath(path: string) returns (ok: bool, out: string)
    ensures ok == Normalize(path).Some? && (ok ==> out == Normalize(path).value)
  {
    out := "";
    if path == "" || path[0] != '/' { return false, out; }
    assert From(path, 0) == path;
    hide Segments, Parts, From, Normalize, Join, FirstSlash;
    var parts: seq<string> := [];
    NoMore(parts, Parts(Segments(path)));
    var i := 0;
    while i < |path|
      invariant i <= |path| + 1
      invariant parts + Parts(Segments(From(path, i))) == Parts(Segments(path))
      invariant ".." in Segments(From(path, i)) <==> ".." in Segments(path)
      decreases |path| + 1 - i
    {
      var seg, next := Split(path, i);
      PartsCons(parts, seg, Segments(From(path, next)));
      if seg == ".." {
        Verdict(path);
        return false, out;
      }
      if seg != "" && seg != "." { parts := parts + [seg]; }
      i := next;
    }
    AtEnd(path, i);
    NoMore(parts, []);
    out := WriteParts(parts);
    Verdict(path);
    return true, out;
  }

  lemma Verdict(path: string)
    ensures Normalize(path) == if path == "" || path[0] != '/' || ".." in Segments(path) then None
                               else Some("/" + Join(Parts(Segments(path))))
  {
  }

  lemma AtEnd(path: string, i: nat)
    requires i >= |path|
    ensures Segments(From(path, i)) == [] && Parts([]) == []
  {
  }

  lemma NoMore<T>(done: seq<T>, later: seq<T>)
    ensures done + [] == done && [] + later == later
  {
  }

  /** The output loop of `NormalizePath`. */
  method WriteParts(parts: seq<string>) returns (out: string)
    ensures out == "/" + Join(parts)
  {
    out := "/";
    JoinNone(parts);
    hide Join;
    for k := 0 to |parts|
      invariant out == "/" + Join(parts[..k]) + if 0 < k < |parts| then "/" else ""
    {
      JoinOneMore(parts, k);
      out := out + parts[k];
      if k + 1 < |parts| { out := out + "/"; }
    }
    JoinNone(parts);
  }

  lemma JoinNone(parts: seq<string>)
    ensures "/" + Join(parts[..0]) + "" == "/"
    ensures "/" + Join(parts[..|parts|]) + "" == "/" + Join(parts)
  {
    assert parts[..|parts|] == parts;
  }

  /** What one turn of the output loop adds. */
  lemma JoinOneMore(parts: seq<string>, k: nat)
    requires k < |parts|
    ensures var was := "/" + Join(parts[..k]) + if 0 < k < |parts| then "/" else "";
            && was + parts[k] + "" == was + parts[k]
            && "/" + Join(parts[..k + 1]) + "" == was + parts[k]
            && "/" + Join(parts[..k + 1]) + "/" == was + parts[k] + "/"
  {
    JoinSnoc(parts[..k + 1]);
    assert parts[..k + 1][..k] == parts[..k];
    hide Join;
    var was := "/" + Join(parts[..k]) + if 0 < k < |parts| then "/" else "";
    assert "/" + Join(parts[..k + 1]) == was + parts[k];
  }

  /** What one turn of the splitting loop splits off. */
  lemma SegmentsStep(path: string, i: nat)
    requires i < |path|
    ensures var j := i + FirstSlash(path[i..]);
            Segments(From(path, i)) == [path[i..j]] + Segments(From(path, j + 1))
  {
    hide Segments, FirstSlash;
    var f := FirstSlash(path[i..]);
    FromFrom(path, i, f);
    FirstSegments(path[i..]);
    hide From, FirstSlash;
  }

  lemma FirstSegments(s: string)
    requires s != ""
    ensures Segments(s) == [FirstSegment(s)] + Segments(AfterFirst(s))
  {
    hide FirstSlash;
  }

  lemma FromFrom(s: string, i: nat, f: nat)
    requires i + f <= |s|
    ensures From(s[i..], f + 1) == From(s, i + f + 1)
    ensures s[i..][..f] == s[i..i + f]
  {
  }

  lemma PartsCons(done: seq<string>, seg: string, later: seq<string>)
    ensures done + Parts([seg] + later) == (if Kept(seg) then done + [seg] else done) + Parts(later)
    ensures ".." in [seg] + later <==> seg == ".." || ".." in later
  {
    assert ([seg] + later)[1..] == later;
    assert [] + Parts(later) == Parts(later);
    Assoc(done, [seg], Parts(later));
  }

  lemma {:induction false} JoinSnoc(parts: seq<string>)
    requires parts != []
    ensures var n := |parts| - 1;
            Join(parts) == Join(parts[..n]) + (if n > 0 then "/" else "") + parts[n]
  {
    if |parts| > 1 {
      var rest := parts[1..];
      JoinSnoc(rest);
      assert rest[..|rest| - 1] == parts[..|rest|][1..];
      JoinCons(parts[0], rest);
      JoinFirst(parts);
      hide Join;
      Slashes(parts[0], Join(rest[..|rest| - 1]), if |rest| > 1 then "/" else "", rest[|rest| - 1]);
    }
  }

  lemma JoinCons(x: string, rest: seq<string>)
    requires rest != []
    ensures Join([x] + rest) == x + "/" + Join(rest)
  {
    assert ([x] + rest)[1..] == rest;
  }

  /** `Join` of all but the last of at least two. */
  lemma JoinFirst(parts: seq<string>)
    requires |parts| > 1
    ensures var init := parts[..|parts| - 1];
            Join(init) == if |parts| == 2 then parts[0] else parts[0] + "/" + Join(init[1..])
    ensures parts == [parts[0]] + parts[1..]
    ensures |parts| == 2 ==> Join(parts[1..][..|parts| - 2]) == ""
  {
  }

  lemma Slashes(x: string, y: string, sep: string, z: string)
    ensures x + "/" + (y + sep + z) == x + "/" + y + sep + z
    ensures y == "" && sep == "" ==> x + "/" + (y + sep + z) == x + "/" + z
  {
  }

  method ResolveSdPath(path: string) returns (ok: bool, dev: string)
    ensures ok == Normalize(path).Some? && (ok ==> dev == "sdmc:" + Normalize(path).value)
  {
    var norm;
    ok, norm := NormalizePath(path);
    dev := "sdmc:" + norm;
  }

  // ------------------------------------------------------------------------- what it accepts

  /** `seg` stands in `s` between two slashes or ends. */
  ghost predicate HasSegment(s: string, seg: string) {
    exists i: nat, j: nat :: SegmentAt(s, i, j, seg)
  }

  ghost predicate SegmentAt(s: string, i: nat, j: nat, seg: string) {
    && i <= j <= |s| && s[i..j] == seg
    && (i > 0 ==> s[i - 1] == '/') && (j < |s| ==> s[j] == '/')
    && forall k :: i <= k < j ==> s[k] != '/'
  }

  lemma SegmentShift(s: string, i: nat, j: nat, seg: string)
    requires HasSlash(s) && i <= j <= |s| - FirstSlash(s) - 1
    ensures SegmentAt(AfterFirst(s), i, j, seg) <==> SegmentAt(s, i + FirstSlash(s) + 1, j + FirstSlash(s) + 1, seg)
  {
    hide FirstSlash, SegmentAt;
    SlashThere(s);
    Shifted(s, FirstSlash(s) + 1, i, j, seg);
  }

  lemma SlashThere(s: string)
    requires HasSlash(s)
    ensures s[FirstSlash(s)] == '/'
  {
    FirstSlashIs(s);
  }

  lemma Shifted(s: string, n: nat, i: nat, j: nat, seg: string)
    requires 0 < n <= |s| && s[n - 1] == '/' && i <= j <= |s| - n
    ensures SegmentAt(s[n..], i, j, seg) <==> SegmentAt(s, i + n, j + n, seg)
  {
    var rest := s[n..];
    assert s[i + n..j + n] == rest[i..j];
    if SegmentAt(rest, i, j, seg) {
      forall k | i + n <= k < j + n ensures s[k] != '/' { assert s[k] == rest[k - n]; }
    }
    if SegmentAt(s, i + n, j + n, seg) {
      forall k | i <= k < j ensures rest[k] != '/' { assert rest[k] == s[k + n]; }
    }
  }

  /** Every other segment lies behind the first slash. */
  lemma FirstOrLater(s: string, i: nat, j: nat, seg: string)
    requires seg != "" && SegmentAt(s, i, j, seg)
    ensures seg == FirstSegment(s) || (FirstSlash(s) < i && HasSlash(s))
  {
    FirstSlashIs(s);
    hide FirstSlash;
  }

  /** The segments the code splits off are exactly the non-empty texts between slashes. */
  lemma {:induction false} SegmentsAreThose(s: string, seg: string)
    requires seg != ""
    ensures seg in Segments(s) <==> HasSegment(s, seg)
    decreases |s|
  {
    if s == "" {
      NothingIn(seg);
    } else {
      hide Segments, HasSegment, FirstSegment, AfterFirst;
      SegmentsIn(s, seg);
      SegmentHere(s, seg);
      SegmentsAreThose(AfterFirst(s), seg);
    }
  }

  lemma NothingIn(seg: string)
    requires seg != ""
    ensures seg !in Segments("") && !HasSegment("", seg)
  {
  }

  lemma SegmentsIn(s: string, seg: string)
    requires s != ""
    ensures seg in Segments(s) <==> seg == FirstSegment(s) || seg in Segments(AfterFirst(s))
  {
    FirstSegments(s);
    hide Segments, FirstSegment, AfterFirst;
    InCons(FirstSegment(s), Segments(AfterFirst(s)), seg);
  }

  lemma InCons(x: string, xs: seq<string>, y: string)
    ensures y in [x] + xs <==> y == x || y in xs
  {
  }

  /** A segment is the first one or lies behind the first slash. */
  lemma SegmentHere(s: string, seg: string)
    requires seg != "" && s != ""
    ensures HasSegment(s, seg) <==> seg == FirstSegment(s) || HasSegment(AfterFirst(s), seg)
  {
    hide SegmentAt, FirstSegment, AfterFirst, FirstSlash;
    FirstIsSegment(s);
    if HasSegment(s, seg) {
      var i: nat, j: nat :| SegmentAt(s, i, j, seg);
      FromSegment(s, i, j, seg);
    }
    if HasSegment(AfterFirst(s), seg) {
      var i: nat, j: nat :| SegmentAt(AfterFirst(s), i, j, seg);
      ToSegment(s, i, j, seg);
    }
  }

  lemma FromSegment(s: string, i: nat, j: nat, seg: string)
    requires seg != "" && s != "" && SegmentAt(s, i, j, seg)
    ensures seg == FirstSegment(s) || HasSegment(AfterFirst(s), seg)
  {
    hide SegmentAt, FirstSegment, AfterFirst, FirstSlash, HasSlash;
    FirstOrLater(s, i, j, seg);
    Bounds(s, i, j, seg);
    if HasSlash(s) && FirstSlash(s) < i {
      SegmentShift(s, i - FirstSlash(s) - 1, j - FirstSlash(s) - 1, seg);
    }
  }

  lemma ToSegment(s: string, i: nat, j: nat, seg: string)
    requires seg != "" && s != "" && SegmentAt(AfterFirst(s), i, j, seg)
    ensures HasSegment(s, seg)
  {
    hide SegmentAt, AfterFirst, FirstSlash, HasSlash;
    BehindSlash(s, i, j, seg);
    SegmentShift(s, i, j, seg);
  }

  lemma BehindSlash(s: string, i: nat, j: nat, seg: string)
    requires seg != "" && s != "" && SegmentAt(AfterFirst(s), i, j, seg)
    ensures HasSlash(s) && i <= j <= |s| - FirstSlash(s) - 1
  {
    hide FirstSlash;
  }

  lemma FirstIsSegment(s: string)
    ensures SegmentAt(s, 0, FirstSlash(s), FirstSegment(s))
  {
    FirstSlashIs(s);
  }

  lemma Bounds(s: string, i: nat, j: nat, seg: string)
    requires SegmentAt(s, i, j, seg)
    ensures i <= j <= |s|
  {
  }

  /** A path is accepted exactly when it starts with a slash and no segment is "..". */
  lemma Accepts(s: string)
    ensures Normalize(s).Some? <==> s != "" && s[0] == '/' && !HasSegment(s, "..")
  {
    SegmentsAreThose(s, "..");
  }

  // ------------------------------------------------------------------------ canonical output

  predicate Clean(parts: seq<string>) {
    forall i :: 0 <= i < |parts| ==> Kept(parts[i]) && parts[i] != ".." && '/' !in parts[i]
  }

  lemma {:induction false} SegmentsPlain(s: string)
    ensures forall seg :: seg in Segments(s) ==> '/' !in seg
  {
    if s != "" {
      var j := FirstSlash(s);
      FirstSlashIs(s);
      assert '/' !in s[..j];
      if j < |s| { SegmentsPlain(s[j + 1..]); }
    }
  }

  lemma {:induction false} PartsClean(segs: seq<string>)
    requires ".." !in segs && forall seg :: seg in segs ==> '/' !in seg
    ensures Clean(Parts(segs))
  {
    if segs != [] {
      assert segs[0] in segs;
      assert forall seg :: seg in segs[1..] ==> seg in segs;
      PartsClean(segs[1..]);
    }
  }

  lemma {:induction false} PlainFirst(p: string, rest: string)
    requires '/' !in p
    ensures FirstSlash(p + "/" + rest) == |p|
    ensures FirstSlash(p) == |p|
  {
    if p != "" {
      assert p[0] in p && forall c :: c in p[1..] ==> c in p;
      PlainFirst(p[1..], rest);
      assert (p + "/" + rest)[1..] == p[1..] + "/" + rest;
    }
  }

  /** Splitting a joined list of clean names gives the list back. */
  lemma {:induction false} JoinSplits(parts: seq<string>)
    requires Clean(parts)
    ensures Segments(Join(parts)) == parts
  {
    if |parts| == 1 {
      PlainFirst(parts[0], "");
      assert parts[0][..|parts[0]|] == parts[0];
    } else if |parts| > 1 {
      var p, rest := parts[0], Join(parts[1..]);
      JoinSplits(parts[1..]);
      PlainFirst(p, rest);
      assert (p + "/" + rest)[..|p|] == p && (p + "/" + rest)[|p| + 1..] == rest;
    }
  }

  lemma {:induction false} PartsKeepClean(parts: seq<string>)
    requires Clean(parts)
    ensures Parts(parts) == parts
  {
    if parts != [] { PartsKeepClean(parts[1..]); }
  }

  /** The output is canonical: its segments are an empty one, for the leading slash, and then the
      input's segments without the empty ones and the dots. */
  lemma OutputSegments(s: string)
    requires Normalize(s).Some?
    ensures Segments(Normalize(s).value) == [""] + Parts(Segments(s))
    ensures Clean(Parts(Segments(s)))
  {
    var parts := Parts(Segments(s));
    SegmentsPlain(s);
    PartsClean(Segments(s));
    JoinSplits(parts);
    var out := "/" + Join(parts);
    assert out[1..] == Join(parts);
  }

  /** Normalising twice is normalising once. */
  lemma Idempotent(s: string)
    requires Normalize(s).Some?
    ensures Normalize(Normalize(s).value) == Normalize(s)
  {
    var parts := Parts(Segments(s));
    OutputSegments(s);
    PartsKeepClean(parts);
    DropEmpty(parts);
  }

  lemma DropEmpty(parts: seq<string>)
    ensures Parts([""] + parts) == Parts(parts)
    ensures Clean(parts) ==> ".." !in [""] + parts
  {
    assert ([""] + parts)[1..] == parts;
    assert [] + Parts(parts) == Parts(parts);
  }

  // --------------------------------------------------------------------- the same place

  /** Any tree of directories: where each name leads from each node. */
  type Tree = (nat, string) -> Option<nat>

  /** Walking segment by segment; empty segments and dots stay where they are. */
  function Walk(tree: Tree, node: nat, segs: seq<string>): Option<nat>
    decreases segs
  {
    if segs == [] then Some(node)
    else if !Kept(segs[0]) then Walk(tree, node, segs[1..])
    else
      match tree(node, segs[0])
      case None => None
      case Some(next) => Walk(tree, next, segs[1..])
  }

  lemma {:induction false} WalkParts(tree: Tree, node: nat, segs: seq<string>)
    ensures Walk(tree, node, segs) == Walk(tree, node, Parts(segs))
    decreases segs
  {
    if segs != [] {
      if !Kept(segs[0]) {
        WalkParts(tree, node, segs[1..]);
        assert [] + Parts(segs[1..]) == Parts(segs[1..]);
      } else {
        assert ([segs[0]] + Parts(segs[1..]))[1..] == Parts(segs[1..]);
        match tree(node, segs[0])
        case None =>
        case Some(next) => WalkParts(tree, next, segs[1..]);
      }
    }
  }

  /** In every tree the normalised path leads where the path itself leads. */
  lemma SamePlace(tree: Tree, root: nat, s: string)
    requires Normalize(s).Some?
    ensures Walk(tree, root, Segments(Normalize(s).value)) == Walk(tree, root, Segments(s))
  {
    OutputSegments(s);
    WalkParts(tree, root, Segments(s));
    assert ([""] + Parts(Segments(s)))[1..] == Parts(Segments(s));
  }

  // ------------------------------------------------------------------------- concatenation

  /** `Segments` with the empty one after a final slash. */
  function AllSegments(s: string): seq<string>
    decreases |s|
  {
    [FirstSegment(s)] + if HasSlash(s) then AllSegments(AfterFirst(s)) else []
  }

  /** A final slash, or nothing at all, opens one more empty segment. */
  predicate EndsOpen(s: string) {
    s == "" || s[|s| - 1] == '/'
  }

  lemma {:induction false} AllSegmentsOf(s: string)
    ensures AllSegments(s) == if EndsOpen(s) then Segments(s) + [""] else Segments(s)
    decreases |s|
  {
    AllFirst(s);
    OpenTail(s);
    if HasSlash(s) {
      assert s != "";
      FirstSegments(s);
      hide Segments, AllSegments, FirstSegment, AfterFirst, EndsOpen, HasSlash;
      AllSegmentsOf(AfterFirst(s));
      Assoc([FirstSegment(s)], Segments(AfterFirst(s)), [""]);
    } else {
      OneSegment(s);
    }
  }

  lemma OpenTail(s: string)
    ensures HasSlash(s) ==> (EndsOpen(s) <==> EndsOpen(AfterFirst(s)))
    ensures !HasSlash(s) ==> (EndsOpen(s) <==> s == "")
  {
    FirstSlashIs(s);
    var j := FirstSlash(s);
    hide FirstSlash;
    if j < |s| - 1 { assert s[j + 1..][|s| - j - 2] == s[|s| - 1]; }
  }

  lemma OneSegment(s: string)
    requires !HasSlash(s)
    ensures s == "" ==> Segments(s) + [""] == [FirstSegment(s)]
    ensures s != "" ==> Segments(s) == [FirstSegment(s)]
    ensures [FirstSegment(s)] + [] == [FirstSegment(s)]
  {
    hide FirstSlash;
    assert From(s, |s| + 1) == "";
  }

  lemma {:induction false} SegmentsConcat(p: string, q: string)
    ensures Segments(p + "/" + q) == AllSegments(p) + Segments(q)
    decreases |p|
  {
    FirstOf(p, q);
    ConcatCut(p, q);
    AllFirst(p);
    FirstSegments(p + "/" + q);
    hide Segments, AllSegments, FirstSegment, AfterFirst, HasSlash;
    if HasSlash(p) {
      assert p != "" by { NotEmpty(p); }
      SegmentsConcat(AfterFirst(p), q);
      Assoc([FirstSegment(p)], AllSegments(AfterFirst(p)), Segments(q));
    }
  }

  lemma NotEmpty(p: string)
    requires HasSlash(p)
    ensures p != ""
  {
  }

  lemma AllFirst(p: string)
    ensures AllSegments(p) == if HasSlash(p) then [FirstSegment(p)] + AllSegments(AfterFirst(p)) else [FirstSegment(p)]
  {
    hide FirstSlash, FirstSegment, AfterFirst;
  }

  lemma ConcatCut(p: string, q: string)
    ensures var s := p + "/" + q;
            && FirstSegment(s) == FirstSegment(p)
            && AfterFirst(s) == if HasSlash(p) then AfterFirst(p) + "/" + q else q
  {
    FirstOf(p, q);
    var j := FirstSlash(p);
    hide FirstSlash;
    var s := p + "/" + q;
    assert s[..j] == p[..j] && s[j + 1..] == if j == |p| then q else p[j + 1..] + "/" + q;
  }

  lemma Assoc<T>(x: seq<T>, y: seq<T>, z: seq<T>)
    ensures x + (y + z) == x + y + z
    ensures x + [] == x
  {
  }

  lemma {:induction false} FirstOf(p: string, q: string)
    ensures FirstSlash(p + "/" + q) == FirstSlash(p)
  {
    if p != "" && p[0] != '/' {
      FirstOf(p[1..], q);
      assert (p + "/" + q)[1..] == p[1..] + "/" + q;
    }
  }

  lemma {:induction false} PartsConcat(a: seq<string>, b: seq<string>)
    ensures Parts(a + b) == Parts(a) + Parts(b)
  {
    if a == [] {
      assert a + b == b;
    } else {
      assert (a + b)[1..] == a[1..] + b;
      PartsConcat(a[1..], b);
    }
  }

  lemma PartsOfConcat(p: string, q: string)
    ensures Parts(Segments(p + "/" + q)) == Parts(Segments(p)) + Parts(Segments(q))
    ensures ".." in Segments(p + "/" + q) <==> ".." in Segments(p) || ".." in Segments(q)
  {
    SegmentsConcat(p, q);
    AllSegmentsOf(p);
    PartsConcat(Segments(p), [""]);
    PartsConcat(Segments(p), Segments(q));
    PartsConcat(Segments(p) + [""], Segments(q));
    assert Parts([""]) == [];
    assert Parts(Segments(p)) + [] == Parts(Segments(p));
  }

  /** Normalising a prefix first does not change what a concatenation normalises to. */
  lemma PrefixFirst(p: string, q: string)
    requires Normalize(p).Some?
    ensures Normalize(Normalize(p).value + "/" + q) == Normalize(p + "/" + q)
  {
    PartsOfConcat(p, q);
    PartsOfConcat(Normalize(p).value, q);
    OutputSegments(p);
    PartsKeepClean(Parts(Segments(p)));
    DropEmpty(Parts(Segments(p)));
  }
}
