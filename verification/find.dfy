/** `FsFind` and its recursive walk (agent/source/handlers/fs.cpp): a capped filename search over a
    directory graph that may be deep or cyclic. */
module Find {
  import opened Options
  import opened Memory
  import Grep

  const MAX_DEPTH := 12
  const MAX_SCAN := 40000

  /** A directory entry; `child` is the directory it leads to, if it is one, and `size` what `stat`
      tells of anything else. */
  datatype Entry = Entry(name: string, child: Option<nat>, size: Option<nat>)

  /** `opendir` and `readdir`: the entries of a directory in order; None when it cannot be opened.
      Nothing keeps directories from containing each other. */
  type Graph = nat -> Option<seq<Entry>>

  predicate IsDot(name: string) {
    name == "." || name == ".."
  }

  function ChildPath(logical: string, name: string): string {
    if logical == "/" then "/" + name else logical + "/" + name
  }

  // ----------------------------------------------------------------------- the uncapped walk

  datatype Visit = Visit(path: string, entry: Entry)

  /** Every entry of the directory at `depth` and below it, parents before children, down to the depth
      `cap`. */
  function PreorderTo(fs: Graph, dir: nat, logical: string, depth: nat, cap: nat): seq<Visit>
    decreases if depth > cap then 0 else cap + 1 - depth, 1, 0
  {
    if depth > cap || fs(dir).None? then [] else PreorderOf(fs, fs(dir).value, logical, depth, cap)
  }

  function PreorderOf(fs: Graph, entries: seq<Entry>, logical: string, depth: nat, cap: nat): seq<Visit>
    requires depth <= cap
    decreases cap + 1 - depth, 0, |entries|
  {
    if entries == [] then []
    else
      var e := entries[0];
      var rest := PreorderOf(fs, entries[1..], logical, depth, cap);
      if IsDot(e.name) then rest
      else
        var path := ChildPath(logical, e.name);
        [Visit(path, e)] + (if e.child.Some? then PreorderTo(fs, e.child.value, path, depth + 1, cap) else []) + rest
  }

  /** The walk of the code: down to depth 12. */
  function Preorder(fs: Graph, dir: nat, logical: string, depth: nat): seq<Visit> {
    PreorderTo(fs, dir, logical, depth, MAX_DEPTH)
  }

  // -------------------------------------------------------------------------------- the caps

  datatype Match = Match(path: string, isDir: bool, size: Option<nat>)

  datatype Query = Query(needle: string, filesOnly: bool, limit: nat)

  predicate Wanted(q: Query, e: Entry) {
    (q.needle == "" || Grep.Contains(Grep.Lower(e.name), q.needle)) && !(q.filesOnly && e.child.Some?)
  }

  function MatchOf(v: Visit): Match {
    Match(v.path, v.entry.child.Some?, if v.entry.child.Some? then None else v.entry.size)
  }

  datatype Progress = Progress(out: seq<Match>, scanned: nat)

  predicate Full(q: Query, p: Progress) {
    |p.out| >= q.limit || p.scanned >= MAX_SCAN
  }

  function Meet(q: Query, p: Progress, v: Visit): Progress {
    Progress(if Wanted(q, v.entry) then p.out + [MatchOf(v)] else p.out, p.scanned + 1)
  }

  /** Entry after entry until a cap is reached. */
  function Process(q: Query, p: Progress, visits: seq<Visit>): Progress
    decreases visits
  {
    if visits == [] || Full(q, p) then p else Process(q, Meet(q, p, visits[0]), visits[1..])
  }

  // -------------------------------------------------------------------------------- the walk

  class FindCtx {
    const q: Query
    var scanned: nat
    var found: nat
    var out: seq<Match>

    constructor (q: Query)
      ensures this.q == q && scanned == 0 && found == 0 && out == []
    {
      this.q := q;
      scanned, found, out := 0, 0, [];
    }

    function State(): Progress
      reads this
    {
      Progress(out, scanned)
    }

    method WalkFind(fs: Graph, dir: nat, logical: string, depth: nat)
      requires found == |out|
      modifies this
      ensures found == |out|
      ensures State() == Process(q, old(State()), Preorder(fs, dir, logical, depth))
      decreases if depth > MAX_DEPTH then 0 else MAX_DEPTH + 1 - depth
    {
      hide Wanted, ChildPath, Process, Meet;
      AtCap(q, State(), Preorder(fs, dir, logical, depth));
      if depth > MAX_DEPTH { return; }
      if found >= q.limit || scanned >= MAX_SCAN { return; }
      if fs(dir).None? { return; }
      var entries := fs(dir).value;
      ghost var goal := Process(q, old(State()), PreorderOf(fs, entries, logical, depth, MAX_DEPTH));
      for k := 0 to |entries|
        invariant found == |out|
        invariant Process(q, State(), PreorderOf(fs, entries[k..], logical, depth, MAX_DEPTH)) == goal
      {
        AtCap(q, State(), PreorderOf(fs, entries[k..], logical, depth, MAX_DEPTH));
        if found >= q.limit || scanned >= MAX_SCAN { break; }
        var e := entries[k];
        ghost var was := State();
        ghost var rest := PreorderOf(fs, entries[k + 1..], logical, depth, MAX_DEPTH);
        assert entries[k..][1..] == entries[k + 1..];
        if IsDot(e.name) { continue; }
        scanned := scanned + 1;
        var path := ChildPath(logical, e.name);
        var isDir := e.child.Some?;
        if Wanted(q, e) {
          out := out + [Match(path, isDir, if isDir then None else e.size)];
          found := found + 1;
        }
        MeetIs(q, was, path, e);
        assert State() == Meet(q, was, Visit(path, e));
        ghost var below := if isDir then Preorder(fs, e.child.value, path, depth + 1) else [];
        ProcessCons(q, was, Visit(path, e), below, rest);
        if isDir { WalkFind(fs, e.child.value, path, depth + 1); }
      }
      assert entries[|entries|..] == [];
      AtCap(q, State(), []);
    }
  }

  lemma AtCap(q: Query, p: Progress, visits: seq<Visit>)
    ensures Full(q, p) || visits == [] ==> Process(q, p, visits) == p
  {
  }

  lemma MeetIs(q: Query, p: Progress, path: string, e: Entry)
    ensures Meet(q, p, Visit(path, e)) == Progress(
      if Wanted(q, e) then p.out + [Match(path, e.child.Some?, if e.child.Some? then None else e.size)] else p.out,
      p.scanned + 1)
  {
  }

  lemma ProcessCons(q: Query, p: Progress, v: Visit, below: seq<Visit>, rest: seq<Visit>)
    requires !Full(q, p)
    ensures Process(q, p, [v] + below + rest) == Process(q, Process(q, Meet(q, p, v), below), rest)
    ensures Process(q, Meet(q, p, v), []) == Meet(q, p, v)
  {
    hide Meet;
    assert ([v] + below + rest)[1..] == below + rest;
    ProcessAppend(q, Meet(q, p, v), below, rest);
  }

  lemma {:induction false} ProcessAppend(q: Query, p: Progress, a: seq<Visit>, b: seq<Visit>)
    ensures Process(q, p, a + b) == Process(q, Process(q, p, a), b)
    decreases a
  {
    hide Meet;
    if a == [] {
      assert a + b == b;
    } else if !Full(q, p) {
      assert (a + b)[1..] == a[1..] + b;
      ProcessAppend(q, Meet(q, p, a[0]), a[1..], b);
    }
  }

  function ClampLimit(limit: int): nat {
    if ToInt32(limit) < 1 || ToInt32(limit) > 2000 then 200 else ToInt32(limit)
  }

  datatype FindResult = FindResult(matches: seq<Match>, count: nat, scanned: nat, byLimit: bool, byScanCap: bool)

  /** `FsFind` from the directory its path resolved to. */
  method FsFind(fs: Graph, root: nat, path: string, nameContains: string, filesOnly: bool, limit: int) returns (r: FindResult)
    ensures var q := Query(Grep.Lower(nameContains), filesOnly, ClampLimit(limit));
            var p := Process(q, Progress([], 0), Preorder(fs, root, path, 0));
            r == FindResult(p.out, |p.out|, p.scanned, |p.out| >= q.limit, p.scanned >= 40000)
  {
    var ctx := new FindCtx(Query(Grep.Lower(nameContains), filesOnly, ClampLimit(limit)));
    ctx.WalkFind(fs, root, path, 0);
    return FindResult(ctx.out, ctx.found, ctx.scanned, ctx.found >= ctx.q.limit, ctx.scanned >= MAX_SCAN);
  }

  // --------------------------------------------------------------- what the search answers

  /** The wanted entries among some visits, in order. */
  function WantedOf(q: Query, visits: seq<Visit>): seq<Match> {
    if visits == [] then []
    else (if Wanted(q, visits[0].entry) then [MatchOf(visits[0])] else []) + WantedOf(q, visits[1..])
  }

  /** The search looks at the first `scanned` entries of the walk and answers exactly the wanted
      ones among them. It stops at the earliest point where the match limit, the scan cap or the
      end is reached, and no count ever passes its cap. */
  lemma FindAnswers(q: Query, visits: seq<Visit>)
    requires q.limit > 0
    ensures var p := Process(q, Progress([], 0), visits);
            && p.scanned <= |visits| && p.scanned <= 40000 && |p.out| <= q.limit
            && p.out == WantedOf(q, visits[..p.scanned])
            && (p.scanned == |visits| || |p.out| == q.limit || p.scanned == 40000)
            && forall k :: 0 <= k < p.scanned ==> |WantedOf(q, visits[..k])| < q.limit
  {
    ProcessFrom(q, Progress([], 0), visits);
    var p := Process(q, Progress([], 0), visits);
    assert [] + WantedOf(q, visits[..p.scanned]) == WantedOf(q, visits[..p.scanned]);
  }

  lemma {:induction false} ProcessFrom(q: Query, p: Progress, visits: seq<Visit>)
    requires |p.out| <= q.limit && p.scanned <= MAX_SCAN
    ensures var r := Process(q, p, visits);
            var n := r.scanned - p.scanned;
            && 0 <= n <= |visits| && r.scanned <= MAX_SCAN && |r.out| <= q.limit
            && r.out == p.out + WantedOf(q, visits[..n])
            && (n == |visits| || |r.out| == q.limit || r.scanned == MAX_SCAN)
            && forall k :: 0 <= k < n ==> |p.out| + |WantedOf(q, visits[..k])| < q.limit
    decreases visits
  {
    hide Wanted, MatchOf;
    if visits == [] || Full(q, p) {
      assert visits[..0] == [] && p.out + [] == p.out;
    } else {
      var next := Meet(q, p, visits[0]);
      ProcessFrom(q, next, visits[1..]);
      var r := Process(q, p, visits);
      var n := r.scanned - p.scanned;
      WantedCons(q, p.out, visits, n);
      forall k | 0 <= k < n ensures |p.out| + |WantedOf(q, visits[..k])| < q.limit {
        if k > 0 {
          WantedCons(q, p.out, visits, k);
          assert |next.out| + |WantedOf(q, visits[1..][..k - 1])| < q.limit;
        }
      }
    }
  }

  lemma WantedCons(q: Query, out: seq<Match>, visits: seq<Visit>, n: nat)
    requires 0 < n <= |visits|
    ensures out + WantedOf(q, visits[..n])
            == (if Wanted(q, visits[0].entry) then out + [MatchOf(visits[0])] else out) + WantedOf(q, visits[1..][..n - 1])
    ensures |WantedOf(q, visits[..n])|
            == (if Wanted(q, visits[0].entry) then 1 else 0) + |WantedOf(q, visits[1..][..n - 1])|
  {
    hide Wanted, MatchOf;
    assert visits[..n][0] == visits[0] && visits[..n][1..] == visits[1..][..n - 1];
  }

  // ------------------------------------------------------------- what the depth cap leaves out

  predicate Barren(fs: Graph, dir: nat) {
    fs(dir).None? || forall i :: 0 <= i < |fs(dir).value| ==> IsDot(fs(dir).value[i].name)
  }

  /** The directories met at depth `cap`, which the walk does not open. */
  function Edge(fs: Graph, dir: nat, depth: nat, cap: nat): seq<nat>
    decreases if depth > cap then 0 else cap + 1 - depth, 1, 0
  {
    if depth > cap then [dir]
    else if fs(dir).None? then []
    else EdgeOf(fs, fs(dir).value, depth, cap)
  }

  function EdgeOf(fs: Graph, entries: seq<Entry>, depth: nat, cap: nat): seq<nat>
    requires depth <= cap
    decreases cap + 1 - depth, 0, |entries|
  {
    if entries == [] then []
    else
      var e := entries[0];
      (if !IsDot(e.name) && e.child.Some? then Edge(fs, e.child.value, depth + 1, cap) else [])
      + EdgeOf(fs, entries[1..], depth, cap)
  }

  predicate AllBarren(fs: Graph, dirs: seq<nat>) {
    forall i :: 0 <= i < |dirs| ==> Barren(fs, dirs[i])
  }

  lemma AllBarrenAppend(fs: Graph, a: seq<nat>, b: seq<nat>)
    ensures AllBarren(fs, a + b) <==> AllBarren(fs, a) && AllBarren(fs, b)
  {
    hide Barren;
    if AllBarren(fs, a + b) {
      forall i | 0 <= i < |a| ensures Barren(fs, a[i]) { assert (a + b)[i] == a[i]; }
      forall i | 0 <= i < |b| ensures Barren(fs, b[i]) { assert (a + b)[|a| + i] == b[i]; }
    }
  }

  /** How the walk to `deeper` relates to the walk to `cap`. */
  ghost predicate Extends(short: seq<Visit>, long: seq<Visit>, complete: bool, deeper: bool) {
    && |short| <= |long|
    && (complete ==> short == long)
    && (!complete && deeper ==> |short| < |long|)
  }

  lemma ExtendsConcat(a: seq<Visit>, a': seq<Visit>, b: seq<Visit>, b': seq<Visit>, v: Visit, p: bool, q: bool, deeper: bool)
    requires Extends(a, a', p, deeper) && Extends(b, b', q, deeper)
    ensures Extends([v] + a + b, [v] + a' + b', p && q, deeper)
  {
  }

  /** Something is met in a directory exactly when it is not barren. */
  lemma {:induction false} MetUnlessBarren(fs: Graph, entries: seq<Entry>, logical: string, depth: nat, cap: nat)
    requires depth <= cap
    ensures PreorderOf(fs, entries, logical, depth, cap) == []
            <==> forall i :: 0 <= i < |entries| ==> IsDot(entries[i].name)
  {
    hide IsDot, PreorderTo;
    if entries != [] && IsDot(entries[0].name) {
      MetUnlessBarren(fs, entries[1..], logical, depth, cap);
      forall i | 0 <= i < |entries| && PreorderOf(fs, entries, logical, depth, cap) == [] ensures IsDot(entries[i].name) {
        if i > 0 { assert entries[1..][i - 1] == entries[i]; }
      }
    }
  }

  lemma {:induction false} DeeperWalk(fs: Graph, dir: nat, logical: string, depth: nat, cap: nat, cap': nat)
    requires depth <= cap + 1 && cap <= cap'
    ensures Extends(PreorderTo(fs, dir, logical, depth, cap), PreorderTo(fs, dir, logical, depth, cap'),
                    AllBarren(fs, Edge(fs, dir, depth, cap)), cap < cap')
    decreases cap + 1 - depth, 1, 0
  {
    if depth > cap {
      assert Edge(fs, dir, depth, cap) == [dir];
      assert AllBarren(fs, [dir]) <==> Barren(fs, [dir][0]);
      if cap < cap' && fs(dir).Some? { MetUnlessBarren(fs, fs(dir).value, logical, depth, cap'); }
    } else if fs(dir).Some? {
      DeeperWalkOf(fs, fs(dir).value, logical, depth, cap, cap');
    }
  }

  lemma {:induction false} DeeperWalkOf(fs: Graph, entries: seq<Entry>, logical: string, depth: nat, cap: nat, cap': nat)
    requires depth <= cap <= cap'
    ensures Extends(PreorderOf(fs, entries, logical, depth, cap), PreorderOf(fs, entries, logical, depth, cap'),
                    AllBarren(fs, EdgeOf(fs, entries, depth, cap)), cap < cap')
    decreases cap + 1 - depth, 0, |entries|
  {
    if entries != [] {
      hide IsDot, ChildPath, AllBarren, Extends, PreorderTo, Edge;
      var e := entries[0];
      var path := ChildPath(logical, e.name);
      var below := if !IsDot(e.name) && e.child.Some? then Edge(fs, e.child.value, depth + 1, cap) else [];
      AllBarrenAppend(fs, below, EdgeOf(fs, entries[1..], depth, cap));
      DeeperWalkOf(fs, entries[1..], logical, depth, cap, cap');
      NothingBelow(fs, cap < cap');
      if !IsDot(e.name) {
        var a := if e.child.Some? then PreorderTo(fs, e.child.value, path, depth + 1, cap) else [];
        var a' := if e.child.Some? then PreorderTo(fs, e.child.value, path, depth + 1, cap') else [];
        if e.child.Some? { DeeperWalk(fs, e.child.value, path, depth + 1, cap, cap'); }
        ExtendsConcat(a, a', PreorderOf(fs, entries[1..], logical, depth, cap), PreorderOf(fs, entries[1..], logical, depth, cap'),
                      Visit(path, e), AllBarren(fs, below), AllBarren(fs, EdgeOf(fs, entries[1..], depth, cap)), cap < cap');
      }
    } else {
      NothingBelow(fs, cap < cap');
    }
  }

  lemma NothingBelow(fs: Graph, deeper: bool)
    ensures AllBarren(fs, []) && Extends([], [], true, deeper)
  {
  }

  /** Walking deeper than `cap` finds nothing new exactly when every directory met at depth `cap` is
      empty or cannot be opened. */
  lemma DepthCapExactly(fs: Graph, root: nat, path: string, cap: nat)
    ensures AllBarren(fs, Edge(fs, root, 0, cap))
            <==> forall cap': nat :: cap' >= cap ==> PreorderTo(fs, root, path, 0, cap') == PreorderTo(fs, root, path, 0, cap)
  {
    hide AllBarren, Edge, PreorderTo;
    if AllBarren(fs, Edge(fs, root, 0, cap)) {
      forall cap': nat | cap' >= cap
        ensures PreorderTo(fs, root, path, 0, cap') == PreorderTo(fs, root, path, 0, cap)
      {
        DeeperWalk(fs, root, path, 0, cap, cap');
      }
    } else {
      DeeperWalk(fs, root, path, 0, cap, cap + 1);
      assert PreorderTo(fs, root, path, 0, cap + 1) != PreorderTo(fs, root, path, 0, cap);
    }
  }

  /** The answer of `FsFind`, as its contract gives it. */
  function Answer(fs: Graph, root: nat, path: string, q: Query): Progress {
    Process(q, Progress([], 0), Preorder(fs, root, path, 0))
  }

  /** When neither flag is set and the depth cap cut nothing off, the results are all the wanted entries
      of the walk to any depth. */
  lemma FindComplete(fs: Graph, root: nat, path: string, q: Query, cap: nat)
    requires |Answer(fs, root, path, q).out| < q.limit && Answer(fs, root, path, q).scanned < MAX_SCAN
    requires AllBarren(fs, Edge(fs, root, 0, MAX_DEPTH)) && cap >= MAX_DEPTH
    ensures Answer(fs, root, path, q).out == WantedOf(q, PreorderTo(fs, root, path, 0, cap))
  {
    hide Process, AllBarren, Edge, PreorderTo, WantedOf;
    var visits := Preorder(fs, root, path, 0);
    FindAnswers(q, visits);
    assert visits[..|visits|] == visits;
    DepthCapExactly(fs, root, path, MAX_DEPTH);
  }

  // ------------------------------------------------- wanted entries that the depth cap cuts off

  /** A wanted entry stands in the directory or at most `levels` directories deeper. */
  predicate HoldsWanted(fs: Graph, dir: nat, levels: nat, q: Query)
    decreases levels, 1, 0
  {
    fs(dir).Some? && WantedAmong(fs, fs(dir).value, levels, q)
  }

  predicate WantedAmong(fs: Graph, entries: seq<Entry>, levels: nat, q: Query)
    decreases levels, 0, |entries|
  {
    && entries != []
    && ((!IsDot(entries[0].name)
         && (Wanted(q, entries[0])
             || (levels > 0 && entries[0].child.Some? && HoldsWanted(fs, entries[0].child.value, levels - 1, q))))
        || WantedAmong(fs, entries[1..], levels, q))
  }

  /** A directory met at depth 12 leads to a wanted entry. */
  ghost predicate WantedBelow(fs: Graph, dirs: seq<nat>, q: Query) {
    exists levels: nat :: SomeHolds(fs, dirs, levels, q)
  }

  predicate SomeHolds(fs: Graph, dirs: seq<nat>, levels: nat, q: Query) {
    exists i :: 0 <= i < |dirs| && HoldsWanted(fs, dirs[i], levels, q)
  }

  lemma SomeHoldsAppend(fs: Graph, a: seq<nat>, b: seq<nat>, levels: nat, q: Query)
    ensures SomeHolds(fs, a + b, levels, q) <==> SomeHolds(fs, a, levels, q) || SomeHolds(fs, b, levels, q)
  {
    hide HoldsWanted;
    if SomeHolds(fs, a, levels, q) {
      var i :| 0 <= i < |a| && HoldsWanted(fs, a[i], levels, q);
      assert (a + b)[i] == a[i];
    }
    if SomeHolds(fs, b, levels, q) {
      var i :| 0 <= i < |b| && HoldsWanted(fs, b[i], levels, q);
      assert (a + b)[|a| + i] == b[i];
    }
  }

  lemma {:induction false} WantedConcat(q: Query, a: seq<Visit>, b: seq<Visit>)
    ensures WantedOf(q, a + b) == WantedOf(q, a) + WantedOf(q, b)
  {
    hide Wanted, MatchOf;
    if a == [] {
      assert a + b == b;
      assert [] + WantedOf(q, b) == WantedOf(q, b);
    } else {
      assert (a + b)[1..] == a[1..] + b;
      WantedConcat(q, a[1..], b);
      var head := if Wanted(q, a[0].entry) then [MatchOf(a[0])] else [];
      assert head + (WantedOf(q, a[1..]) + WantedOf(q, b)) == head + WantedOf(q, a[1..]) + WantedOf(q, b);
    }
  }

  lemma WantedThree(q: Query, v: Visit, a: seq<Visit>, b: seq<Visit>)
    ensures WantedOf(q, [v] + a + b) == WantedOf(q, [v]) + WantedOf(q, a) + WantedOf(q, b)
    ensures WantedOf(q, [v]) == if Wanted(q, v.entry) then [MatchOf(v)] else []
  {
    hide Wanted, MatchOf;
    WantedConcat(q, [v] + a, b);
    WantedConcat(q, [v], a);
    assert [v][1..] == [];
    WantedNone(q);
  }

  lemma WantedNone(q: Query)
    ensures WantedOf(q, []) == []
  {
  }

  /** The walk from a directory meets a wanted entry exactly when one stands there or below. */
  lemma {:induction false} WalkMeetsWanted(fs: Graph, dir: nat, logical: string, depth: nat, cap: nat, q: Query)
    requires depth <= cap
    ensures WantedOf(q, PreorderTo(fs, dir, logical, depth, cap)) != [] <==> HoldsWanted(fs, dir, cap - depth, q)
    decreases cap - depth, 1, 0
  {
    hide Wanted;
    if fs(dir).Some? { WalkMeetsAmong(fs, fs(dir).value, logical, depth, cap, q); }
  }

  lemma {:induction false} WalkMeetsAmong(fs: Graph, entries: seq<Entry>, logical: string, depth: nat, cap: nat, q: Query)
    requires depth <= cap
    ensures WantedOf(q, PreorderOf(fs, entries, logical, depth, cap)) != [] <==> WantedAmong(fs, entries, cap - depth, q)
    decreases cap - depth, 0, |entries|
  {
    hide Wanted, IsDot, ChildPath, WantedOf, PreorderTo, HoldsWanted, MatchOf;
    WantedNone(q);
    if entries != [] {
      var e := entries[0];
      var path := ChildPath(logical, e.name);
      WalkMeetsAmong(fs, entries[1..], logical, depth, cap, q);
      if !IsDot(e.name) {
        var below := if e.child.Some? then PreorderTo(fs, e.child.value, path, depth + 1, cap) else [];
        WantedThree(q, Visit(path, e), below, PreorderOf(fs, entries[1..], logical, depth, cap));
        if e.child.Some? {
          if depth < cap { WalkMeetsWanted(fs, e.child.value, path, depth + 1, cap, q); }
          else { PastCap(fs, e.child.value, path, depth + 1, cap); }
        }
      }
    }
  }

  lemma PastCap(fs: Graph, dir: nat, logical: string, depth: nat, cap: nat)
    requires depth > cap
    ensures PreorderTo(fs, dir, logical, depth, cap) == [] && Edge(fs, dir, depth, cap) == [dir]
  {
  }

  /** The results of a deeper walk: the same when nothing wanted is added, and more otherwise. */
  ghost predicate Adds(short: seq<Match>, long: seq<Match>, more: bool) {
    && |short| <= |long|
    && (!more ==> short == long)
    && (more ==> |short| < |long|)
  }

  lemma AddsConcat(v: seq<Match>, a: seq<Match>, a': seq<Match>, b: seq<Match>, b': seq<Match>, p: bool, r: bool)
    requires Adds(a, a', p) && Adds(b, b', r)
    ensures Adds(v + a + b, v + a' + b', p || r)
  {
  }

  lemma {:induction false} DeeperWanted(fs: Graph, dir: nat, logical: string, depth: nat, cap: nat, cap': nat, q: Query)
    requires depth <= cap + 1 && cap < cap'
    ensures Adds(WantedOf(q, PreorderTo(fs, dir, logical, depth, cap)), WantedOf(q, PreorderTo(fs, dir, logical, depth, cap')),
                 SomeHolds(fs, Edge(fs, dir, depth, cap), cap' - cap - 1, q))
    decreases cap + 1 - depth, 1, 0
  {
    hide WantedOf, HoldsWanted, Wanted;
    WantedNone(q);
    if depth > cap {
      PastCap(fs, dir, logical, depth, cap);
      WalkMeetsWanted(fs, dir, logical, depth, cap', q);
      OneDir(fs, dir, cap' - cap - 1, q);
    } else if fs(dir).Some? {
      DeeperWantedOf(fs, fs(dir).value, logical, depth, cap, cap', q);
    }
  }

  lemma OneDir(fs: Graph, dir: nat, levels: nat, q: Query)
    ensures SomeHolds(fs, [dir], levels, q) <==> HoldsWanted(fs, dir, levels, q)
  {
    hide HoldsWanted;
    if HoldsWanted(fs, dir, levels, q) { assert HoldsWanted(fs, [dir][0], levels, q); }
  }

  lemma {:induction false} DeeperWantedOf(fs: Graph, entries: seq<Entry>, logical: string, depth: nat, cap: nat, cap': nat, q: Query)
    requires depth <= cap < cap'
    ensures Adds(WantedOf(q, PreorderOf(fs, entries, logical, depth, cap)), WantedOf(q, PreorderOf(fs, entries, logical, depth, cap')),
                 SomeHolds(fs, EdgeOf(fs, entries, depth, cap), cap' - cap - 1, q))
    decreases cap + 1 - depth, 0, |entries|
  {
    hide IsDot, ChildPath, Adds, PreorderTo, Edge, WantedOf, Wanted, MatchOf, HoldsWanted, SomeHolds;
    var levels := cap' - cap - 1;
    AddsNothing(fs, levels, q);
    if entries != [] {
      var e := entries[0];
      var path := ChildPath(logical, e.name);
      var below := if !IsDot(e.name) && e.child.Some? then Edge(fs, e.child.value, depth + 1, cap) else [];
      SomeHoldsAppend(fs, below, EdgeOf(fs, entries[1..], depth, cap), levels, q);
      DeeperWantedOf(fs, entries[1..], logical, depth, cap, cap', q);
      if !IsDot(e.name) {
        var a := if e.child.Some? then PreorderTo(fs, e.child.value, path, depth + 1, cap) else [];
        var a' := if e.child.Some? then PreorderTo(fs, e.child.value, path, depth + 1, cap') else [];
        var b, b' := PreorderOf(fs, entries[1..], logical, depth, cap), PreorderOf(fs, entries[1..], logical, depth, cap');
        var v := Visit(path, e);
        if e.child.Some? { DeeperWanted(fs, e.child.value, path, depth + 1, cap, cap', q); }
        WantedThree(q, v, a, b);
        WantedThree(q, v, a', b');
        AddsConcat(WantedOf(q, [v]), WantedOf(q, a), WantedOf(q, a'), WantedOf(q, b), WantedOf(q, b'),
                   SomeHolds(fs, below, levels, q), SomeHolds(fs, EdgeOf(fs, entries[1..], depth, cap), levels, q));
      }
    }
  }

  lemma AddsNothing(fs: Graph, levels: nat, q: Query)
    ensures !SomeHolds(fs, [], levels, q) && WantedOf(q, []) == [] && Adds([], [], false)
  {
  }

  // --------------------------------------------------------- when the flags tell the truth

  /** Some wanted entry, at whatever depth, is not among the results. */
  ghost predicate Missing(fs: Graph, root: nat, path: string, q: Query) {
    exists cap: nat :: cap >= MAX_DEPTH && Answer(fs, root, path, q).out != WantedOf(q, PreorderTo(fs, root, path, 0, cap))
  }

  /** One of the two flags is set. */
  predicate Flagged(q: Query, p: Progress) {
    |p.out| >= q.limit || p.scanned >= 40000
  }

  /** Down to depth 12 there are more wanted entries than the limit, or some beyond the first 40000. */
  predicate CutOff(q: Query, visits: seq<Visit>) {
    var first := if |visits| > 40000 then visits[..40000] else visits;
    |WantedOf(q, visits)| > q.limit || |WantedOf(q, visits)| > |WantedOf(q, first)|
  }

  lemma {:induction false} WantedPrefix(q: Query, visits: seq<Visit>, k: nat)
    requires k <= |visits|
    ensures WantedOf(q, visits[..k]) <= WantedOf(q, visits)
  {
    assert visits[..k] + visits[k..] == visits;
    WantedConcat(q, visits[..k], visits[k..]);
  }

  /** What the capped walk leaves out of its own preorder, and when a flag is set. */
  lemma CapsExactly(q: Query, visits: seq<Visit>)
    requires q.limit > 0
    ensures var p := Process(q, Progress([], 0), visits);
            && p.out <= WantedOf(q, visits)
            && (p.out != WantedOf(q, visits) <==> CutOff(q, visits))
            && (Flagged(q, p) <==> CutOff(q, visits) || |WantedOf(q, visits)| >= q.limit || |visits| >= 40000)
  {
    hide Process, WantedOf;
    var p := Process(q, Progress([], 0), visits);
    FindAnswers(q, visits);
    WantedPrefix(q, visits, p.scanned);
    assert visits[..|visits|] == visits;
    if |visits| > MAX_SCAN {
      WantedPrefix(q, visits, MAX_SCAN);
      WantedPrefix(q, visits[..MAX_SCAN], p.scanned);
      assert visits[..MAX_SCAN][..p.scanned] == visits[..p.scanned];
    }
  }

  /** Something is missing exactly when a cap cut off a wanted entry down to depth 12, or a directory met
      there leads to one. */
  lemma MissingExactly(fs: Graph, root: nat, path: string, q: Query)
    requires q.limit > 0
    ensures Missing(fs, root, path, q)
            <==> CutOff(q, Preorder(fs, root, path, 0)) || WantedBelow(fs, Edge(fs, root, 0, MAX_DEPTH), q)
  {
    hide Process, WantedOf, PreorderTo, Edge, SomeHolds, CutOff;
    var visits := Preorder(fs, root, path, 0);
    var out := Answer(fs, root, path, q).out;
    CapsExactly(q, visits);
    if CutOff(q, visits) {
      assert out != WantedOf(q, PreorderTo(fs, root, path, 0, MAX_DEPTH));
    } else {
      if WantedBelow(fs, Edge(fs, root, 0, MAX_DEPTH), q) {
        var levels: nat :| SomeHolds(fs, Edge(fs, root, 0, MAX_DEPTH), levels, q);
        DeeperWanted(fs, root, path, 0, MAX_DEPTH, MAX_DEPTH + 1 + levels, q);
        assert out != WantedOf(q, PreorderTo(fs, root, path, 0, MAX_DEPTH + 1 + levels));
      }
      if Missing(fs, root, path, q) {
        var cap: nat :| cap >= MAX_DEPTH && out != WantedOf(q, PreorderTo(fs, root, path, 0, cap));
        DeeperWanted(fs, root, path, 0, MAX_DEPTH, cap, q);
      }
    }
  }

  /** The reply says whether it is truncated, that is, a flag is set if and only if something is missing,
      exactly in these cases: a cap cut off a wanted entry; or none did, and there are directories at depth
      12 with wanted entries below them just when the limit or the 40000 entries were reached all the same. */
  lemma FlagsExactly(fs: Graph, root: nat, path: string, q: Query)
    requires q.limit > 0
    ensures var visits := Preorder(fs, root, path, 0);
            (Flagged(q, Answer(fs, root, path, q)) <==> Missing(fs, root, path, q))
            <==> || CutOff(q, visits)
                 || (WantedBelow(fs, Edge(fs, root, 0, MAX_DEPTH), q)
                     <==> |WantedOf(q, visits)| >= q.limit || |visits| >= 40000)
  {
    hide Process, WantedOf, PreorderTo, Edge, CutOff, WantedBelow, Missing, Flagged;
    CapsExactly(q, Preorder(fs, root, path, 0));
    MissingExactly(fs, root, path, q);
  }

  predicate WantsAll(q: Query) {
    q.needle == "" && !q.filesOnly
  }

  lemma {:induction false} WantsEvery(q: Query, visits: seq<Visit>)
    requires WantsAll(q)
    ensures |WantedOf(q, visits)| == |visits|
  {
    if visits != [] { WantsEvery(q, visits[1..]); }
  }

  lemma {:induction false} AmongUnlessDots(fs: Graph, entries: seq<Entry>, levels: nat, q: Query)
    requires WantsAll(q)
    ensures WantedAmong(fs, entries, levels, q) <==> !(forall i :: 0 <= i < |entries| ==> IsDot(entries[i].name))
    decreases |entries|
  {
    hide IsDot, HoldsWanted;
    if entries != [] {
      AmongUnlessDots(fs, entries[1..], levels, q);
      if forall i :: 0 <= i < |entries[1..]| ==> IsDot(entries[1..][i].name) {
        forall i | 0 < i < |entries| ensures IsDot(entries[i].name) { assert entries[1..][i - 1] == entries[i]; }
      }
    }
  }

  /** When everything is wanted, a wanted entry below is any entry below. */
  lemma BelowUnlessBarren(fs: Graph, dirs: seq<nat>, q: Query)
    requires WantsAll(q)
    ensures WantedBelow(fs, dirs, q) <==> !AllBarren(fs, dirs)
  {
    hide WantsAll, WantedAmong;
    forall levels: nat, i | 0 <= i < |dirs| ensures HoldsWanted(fs, dirs[i], levels, q) <==> !Barren(fs, dirs[i]) {
      if fs(dirs[i]).Some? { AmongUnlessDots(fs, fs(dirs[i]).value, levels, q); }
    }
    hide HoldsWanted, Barren;
    if !AllBarren(fs, dirs) {
      var i :| 0 <= i < |dirs| && !Barren(fs, dirs[i]);
      assert HoldsWanted(fs, dirs[i], 0, q);
      assert SomeHolds(fs, dirs, 0, q);
    }
  }

  /** For a listing of `n` entries, fewer than 40000: a flag is set if and only if something is missing,
      exactly when `n` is above the limit, or below it and nothing is cut off at depth 12, or equal to it
      and something is. */
  lemma ListingExactly(fs: Graph, root: nat, path: string, q: Query)
    requires WantsAll(q) && q.limit > 0 && |Preorder(fs, root, path, 0)| < 40000
    ensures var n := |Preorder(fs, root, path, 0)|;
            var barren := AllBarren(fs, Edge(fs, root, 0, MAX_DEPTH));
            (Flagged(q, Answer(fs, root, path, q)) <==> Missing(fs, root, path, q))
            <==> n > q.limit || (n < q.limit && barren) || (n == q.limit && !barren)
  {
    hide Process, PreorderTo, Edge, WantedBelow, Missing, Flagged, WantsAll, AllBarren, WantedOf;
    FlagsExactly(fs, root, path, q);
    WantsEvery(q, Preorder(fs, root, path, 0));
    BelowUnlessBarren(fs, Edge(fs, root, 0, MAX_DEPTH), q);
  }

  /** One file and nothing else. */
  function OneFile(dir: nat): Option<seq<Entry>> {
    if dir == 0 then Some([Entry("f", None, Some(0))]) else None
  }

  /** The other way round: asked for one entry where there is one, the reply says that it is truncated by
      the limit, and nothing is missing. */
  lemma FlaggedWithNothingMissing()
    ensures var q := Query("", false, ClampLimit(1));
            Flagged(q, Answer(OneFile, 0, "/", q)) && !Missing(OneFile, 0, "/", q)
  {
    hide Process, WantedOf, Flagged, Missing, WantedBelow, AllBarren;
    var q := Query("", false, ClampLimit(1));
    OneFileWalk();
    WantsEvery(q, Preorder(OneFile, 0, "/", 0));
    CapsExactly(q, Preorder(OneFile, 0, "/", 0));
    MissingExactly(OneFile, 0, "/", q);
    BelowUnlessBarren(OneFile, Edge(OneFile, 0, 0, MAX_DEPTH), q);
  }

  lemma OneFileWalk()
    ensures |Preorder(OneFile, 0, "/", 0)| == 1
    ensures AllBarren(OneFile, Edge(OneFile, 0, 0, MAX_DEPTH))
  {
    var entries := [Entry("f", None, Some(0))];
    assert OneFile(0) == Some(entries) && entries[1..] == [] && !IsDot("f");
    assert PreorderTo(OneFile, 0, "/", 0, MAX_DEPTH) == PreorderOf(OneFile, entries, "/", 0, MAX_DEPTH);
    assert PreorderOf(OneFile, entries[1..], "/", 0, MAX_DEPTH) == [];
    assert Edge(OneFile, 0, 0, MAX_DEPTH) == EdgeOf(OneFile, entries, 0, MAX_DEPTH);
    assert EdgeOf(OneFile, entries[1..], 0, MAX_DEPTH) == [];
  }

  /** A directory that contains itself. */
  function Loop(dir: nat): Option<seq<Entry>> {
    if dir == 0 then Some([Entry("d", Some(0), None)]) else None
  }

  lemma {:induction false} LoopWalk(logical: string, depth: nat, cap: nat)
    requires depth <= cap + 1
    ensures |PreorderTo(Loop, 0, logical, depth, cap)| == cap + 1 - depth
    decreases cap + 1 - depth
  {
    if depth <= cap {
      var path := ChildPath(logical, "d");
      LoopWalk(path, depth + 1, cap);
      var entries := [Entry("d", Some(0), None)];
      assert Loop(0) == Some(entries) && entries[1..] == [];
      assert !IsDot("d");
      assert PreorderTo(Loop, 0, logical, depth, cap) == PreorderOf(Loop, entries, logical, depth, cap);
      assert PreorderOf(Loop, entries[1..], logical, depth, cap) == [];
    }
  }

  /** The cap is silent: listing that directory answers 13 entries and sets neither flag, while one level
      deeper there is a 14th. */
  lemma DepthCapIsSilent()
    ensures var q := Query("", false, ClampLimit(200)); var p := Answer(Loop, 0, "/", q);
            && |p.out| == p.scanned == 13 && |p.out| < q.limit && p.scanned < MAX_SCAN
            && |WantedOf(q, PreorderTo(Loop, 0, "/", 0, MAX_DEPTH + 1))| == 14
  {
    hide Process, PreorderTo, WantedOf, Loop;
    var q := Query("", false, ClampLimit(200));
    var visits := Preorder(Loop, 0, "/", 0);
    LoopWalk("/", 0, MAX_DEPTH);
    LoopWalk("/", 0, MAX_DEPTH + 1);
    FindAnswers(q, visits);
    WantsEvery(q, visits[..Answer(Loop, 0, "/", q).scanned]);
    WantsEvery(q, PreorderTo(Loop, 0, "/", 0, MAX_DEPTH + 1));
  }
}
