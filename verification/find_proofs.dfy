/** What the directory walk visits and what the search wants, without the walk. */
module FindProofs {
  import opened Options
  import opened Find
  import Grep

  /** The entries lead from the directory one into the next: each stands in the directory before it, and
      none is a dot entry. */
  ghost predicate Leads(fs: Graph, dir: nat, es: seq<Entry>)
    decreases |es|
  {
    es != [] && fs(dir).Some? && es[0] in fs(dir).value && es[0].name !in {".", ".."}
    && (|es| > 1 ==> es[0].child.Some? && Leads(fs, es[0].child.value, es[1..]))
  }

  /** `logical`, and behind it each name after a slash; the root is not named. */
  function PathOf(logical: string, es: seq<Entry>): string
    decreases |es|
  {
    if es == [] then logical
    else PathOf((if logical == "/" then "" else logical) + "/" + es[0].name, es[1..])
  }

  /** `v` is what the entries lead to, over at most `n` directories. */
  ghost predicate Reached(fs: Graph, dir: nat, logical: string, n: int, v: Visit, es: seq<Entry>) {
    |es| <= n && Leads(fs, dir, es) && v == Visit(PathOf(logical, es), es[|es| - 1])
  }

  lemma {:induction false} VisitReached(fs: Graph, dir: nat, logical: string, depth: nat, cap: nat, v: Visit) returns (es: seq<Entry>)
    requires v in PreorderTo(fs, dir, logical, depth, cap)
    ensures Reached(fs, dir, logical, cap - depth + 1, v, es) && es != []
    decreases if depth > cap then 0 else cap + 1 - depth, 1, 0
  {
    es := VisitReachedOf(fs, dir, fs(dir).value, logical, depth, cap, v);
  }

  lemma {:induction false} VisitReachedOf(fs: Graph, dir: nat, entries: seq<Entry>, logical: string, depth: nat, cap: nat, v: Visit)
    returns (es: seq<Entry>)
    requires depth <= cap && v in PreorderOf(fs, entries, logical, depth, cap)
    requires fs(dir).Some? && forall e :: e in entries ==> e in fs(dir).value
    ensures Reached(fs, dir, logical, cap - depth + 1, v, es) && es != []
    decreases cap + 1 - depth, 0, |entries|
  {
    hide PreorderOf, PreorderTo, IsDot, ChildPath;
    SomeEntry(fs, entries, logical, depth, cap, v);
    var e := entries[0];
    var path := ChildPath(logical, e.name);
    var below := if e.child.Some? then PreorderTo(fs, e.child.value, path, depth + 1, cap) else [];
    PreorderCons(fs, entries, logical, depth, cap);
    if v in PreorderOf(fs, entries[1..], logical, depth, cap) {
      es := VisitReachedOf(fs, dir, entries[1..], logical, depth, cap, v);
    } else if v == Visit(path, e) {
      es := [e];
      ReachedStep(fs, dir, logical, cap - depth + 1, v, e, []);
    } else {
      var more := VisitReached(fs, e.child.value, path, depth + 1, cap, v);
      es := [e] + more;
      ReachedStep(fs, dir, logical, cap - depth + 1, v, e, more);
    }
  }

  lemma SomeEntry(fs: Graph, entries: seq<Entry>, logical: string, depth: nat, cap: nat, v: Visit)
    requires depth <= cap && v in PreorderOf(fs, entries, logical, depth, cap)
    ensures entries != []
  {
  }

  lemma PreorderCons(fs: Graph, entries: seq<Entry>, logical: string, depth: nat, cap: nat)
    requires depth <= cap && entries != []
    ensures var e := entries[0];
            var rest := PreorderOf(fs, entries[1..], logical, depth, cap);
            PreorderOf(fs, entries, logical, depth, cap)
            == if IsDot(e.name) then rest
               else [Visit(ChildPath(logical, e.name), e)]
                    + (if e.child.Some? then PreorderTo(fs, e.child.value, ChildPath(logical, e.name), depth + 1, cap) else [])
                    + rest
    ensures IsDot(entries[0].name) <==> entries[0].name in {".", ".."}
    ensures forall e :: e in entries <==> e == entries[0] || e in entries[1..]
  {
    hide PreorderTo, ChildPath;
    assert entries == [entries[0]] + entries[1..];
  }

  /** One directory down. */
  lemma ReachedStep(fs: Graph, dir: nat, logical: string, n: int, v: Visit, e: Entry, more: seq<Entry>)
    requires fs(dir).Some? && e in fs(dir).value && e.name !in {".", ".."}
    ensures Reached(fs, dir, logical, n, Visit(ChildPath(logical, e.name), e), [e]) <==> n >= 1
    ensures e.child.Some? && more != [] ==>
      (Reached(fs, dir, logical, n, v, [e] + more) <==> Reached(fs, e.child.value, ChildPath(logical, e.name), n - 1, v, more))
  {
    assert ([e] + more)[1..] == more && [e][1..] == [];
    assert PathOf(ChildPath(logical, e.name), []) == ChildPath(logical, e.name);
    assert PathOf(logical, [e]) == PathOf(ChildPath(logical, e.name), [e][1..]);
  }

  lemma {:induction false} ReachedVisited(fs: Graph, dir: nat, logical: string, depth: nat, cap: nat, v: Visit, es: seq<Entry>)
    requires Reached(fs, dir, logical, cap - depth + 1, v, es)
    ensures v in PreorderTo(fs, dir, logical, depth, cap)
    decreases |es|, 1, 0
  {
    ReachedVisitedOf(fs, fs(dir).value, dir, logical, depth, cap, v, es);
  }

  lemma {:induction false} ReachedVisitedOf(fs: Graph, entries: seq<Entry>, dir: nat, logical: string, depth: nat, cap: nat, v: Visit,
        es: seq<Entry>)
    requires Reached(fs, dir, logical, cap - depth + 1, v, es) && es[0] in entries && depth <= cap
    ensures v in PreorderOf(fs, entries, logical, depth, cap)
    decreases |es|, 0, |entries|
  {
    var e := entries[0];
    PreorderCons(fs, entries, logical, depth, cap);
    if e == es[0] {
      assert es == [e] + es[1..];
      ReachedStep(fs, dir, logical, cap - depth + 1, v, e, es[1..]);
      if |es| == 1 {
        assert es == [e];
      } else {
        ReachedVisited(fs, e.child.value, ChildPath(logical, e.name), depth + 1, cap, v, es[1..]);
      }
    } else {
      ReachedVisitedOf(fs, entries[1..], dir, logical, depth, cap, v, es);
    }
  }

  /** The walk visits exactly what can be reached over at most thirteen directories, the first included,
      without a dot entry, and each under its full path. */
  lemma VisitsExactly(fs: Graph, root: nat, path: string, v: Visit)
    ensures v in Preorder(fs, root, path, 0) <==> exists es :: Reached(fs, root, path, 13, v, es)
  {
    if v in Preorder(fs, root, path, 0) {
      var es := VisitReached(fs, root, path, 0, MAX_DEPTH, v);
      assert Reached(fs, root, path, 13, v, es);
    }
    if exists es :: Reached(fs, root, path, 13, v, es) {
      var es :| Reached(fs, root, path, 13, v, es);
      ReachedVisited(fs, root, path, 0, MAX_DEPTH, v, es);
    }
  }

  /** What a query wants: an entry with the text somewhere in its name, whatever the case of letters, and no
      directory if only files are asked for. */
  lemma WantedExactly(text: string, filesOnly: bool, limit: nat, e: Entry)
    ensures Wanted(Query(Grep.Lower(text), filesOnly, limit), e)
            <==> (exists k: nat :: Grep.FoldedAt(e.name, text, k)) && !(filesOnly && e.child.Some?)
  {
    Grep.MatchesExactly(Grep.Line(0, 0, e.name), text);
    if text == "" {
      assert Grep.FoldedAt(e.name, text, 0);
    } else {
      assert Grep.Lower(text) != "";
    }
  }

  /** A limit from 1 to 2000 is used as it is, any other is 200. */
  lemma LimitExactly(limit: int)
    requires -0x8000_0000 <= limit < 0x8000_0000
    ensures 1 <= limit <= 2000 ==> ClampLimit(limit) == limit
    ensures limit < 1 || limit > 2000 ==> ClampLimit(limit) == 200
  {
  }
}
