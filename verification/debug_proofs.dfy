/** What `debug.search` leaves out, and when its `truncated` tells the truth. */
module DebugProofs {
  import opened Options
  import opened Memory
  import opened Debug

  // ------------------------------------------------------------------- matches in memory

  predicate InWritable(mi: MemoryInfo, a: nat) {
    mi.writable && !mi.unmapped && Contains(mi, a)
  }

  ghost predicate Writable(regions: seq<MemoryInfo>, a: nat) {
    exists j :: 0 <= j < |regions| && InWritable(regions[j], a)
  }

  /** The octets lie at `a`, all of them in mapped writable memory. */
  ghost predicate MatchAt(mem: Memory, regions: seq<MemoryInfo>, needle: seq<byte>, a: nat) {
    Read(mem, a, |needle|) == needle && forall b :: a <= b < a + |needle| ==> Writable(regions, b)
  }

  /** They lie there inside one region. */
  predicate Holds(mem: Memory, mi: MemoryInfo, needle: seq<byte>, a: nat) {
    mi.writable && !mi.unmapped && NeedleAt(mem, mi, needle, 0, a)
  }

  ghost predicate HeldByOne(mem: Memory, regions: seq<MemoryInfo>, needle: seq<byte>, a: nat) {
    exists j :: 0 <= j < |regions| && Holds(mem, regions[j], needle, a)
  }

  /** A writable region that the search passes over, for its size or because it cannot be read, holds
      the octets at `a`. */
  ghost predicate SkippedAt(mem: Memory, regions: seq<MemoryInfo>, needle: seq<byte>, a: nat) {
    exists j :: 0 <= j < |regions| && SkipHolds(mem, regions[j], needle, a)
  }

  predicate SkipHolds(mem: Memory, mi: MemoryInfo, needle: seq<byte>, a: nat) {
    (mi.size > 64 * 1048576 || !CanRead(mem, mi.addr, mi.size)) && Holds(mem, mi, needle, a)
  }

  /** A match that the search cannot see: in a region passed over, or across the border of two. */
  ghost predicate Unseen(mem: Memory, regions: seq<MemoryInfo>, needle: seq<byte>, a: nat) {
    SkippedAt(mem, regions, needle, a)
    || (MatchAt(mem, regions, needle, a) && !HeldByOne(mem, regions, needle, a))
  }

  ghost predicate Gap(mem: Memory, regions: seq<MemoryInfo>, needle: seq<byte>) {
    exists a :: Unseen(mem, regions, needle, a)
  }

  lemma HeldMatches(mem: Memory, regions: seq<MemoryInfo>, needle: seq<byte>, j: nat, a: nat)
    requires j < |regions| && Holds(mem, regions[j], needle, a)
    ensures MatchAt(mem, regions, needle, a)
  {
    hide Read;
    forall b | a <= b < a + |needle| ensures Writable(regions, b) {
      assert InWritable(regions[j], b);
    }
  }

  lemma HitHolds(mem: Memory, mi: MemoryInfo, needle: seq<byte>, a: nat)
    ensures HitIn(mem, mi, needle, a) <==> Searched(mem, mi) && Holds(mem, mi, needle, a)
    ensures SkipHolds(mem, mi, needle, a) <==> !Searched(mem, mi) && Holds(mem, mi, needle, a)
  {
    hide Read, CanRead;
  }

  /** Two regions of a tiling that hold something at one address are the same. */
  lemma OneRegion(mem: Memory, regions: seq<MemoryInfo>, needle: seq<byte>, from: nat, to: nat, j: nat, k: nat, a: nat)
    requires needle != [] && Tiles(regions, from, to) && j < |regions| && k < |regions|
    requires Holds(mem, regions[j], needle, a) && Holds(mem, regions[k], needle, a)
    ensures j == k
  {
    hide Read, Tiles;
    TilesAscend(regions, from, to);
  }

  /** A match is found exactly when it is not one that cannot be seen. */
  lemma FoundUnlessUnseen(mem: Memory, regions: seq<MemoryInfo>, needle: seq<byte>, from: nat, to: nat, a: nat)
    requires needle != [] && Tiles(regions, from, to)
    ensures FoundIn(mem, regions, needle, a) ==> MatchAt(mem, regions, needle, a)
    ensures Unseen(mem, regions, needle, a)
            <==> MatchAt(mem, regions, needle, a) && !FoundIn(mem, regions, needle, a)
  {
    hide Holds, SkipHolds, MatchAt, HitIn, Searched, Tiles;
    forall j | 0 <= j < |regions|
      ensures HitIn(mem, regions[j], needle, a) <==> Searched(mem, regions[j]) && Holds(mem, regions[j], needle, a)
      ensures SkipHolds(mem, regions[j], needle, a) <==> !Searched(mem, regions[j]) && Holds(mem, regions[j], needle, a)
      ensures Holds(mem, regions[j], needle, a) ==> MatchAt(mem, regions, needle, a)
    {
      HitHolds(mem, regions[j], needle, a);
      if Holds(mem, regions[j], needle, a) { HeldMatches(mem, regions, needle, j, a); }
    }
    if SkippedAt(mem, regions, needle, a) && FoundIn(mem, regions, needle, a) {
      var j :| 0 <= j < |regions| && SkipHolds(mem, regions[j], needle, a);
      var k :| 0 <= k < |regions| && HitIn(mem, regions[k], needle, a);
      OneRegion(mem, regions, needle, from, to, j, k, a);
    }
    if HeldByOne(mem, regions, needle, a) && !FoundIn(mem, regions, needle, a) {
      var j :| 0 <= j < |regions| && Holds(mem, regions[j], needle, a);
      assert SkipHolds(mem, regions[j], needle, a);
    }
  }

  lemma TakeOf(hits: seq<nat>, n: nat)
    requires Ascending(hits)
    ensures |hits| <= n ==> Take(hits, n) == hits
    ensures |hits| > n ==> hits[n] in hits && hits[n] !in Take(hits, n)
    ensures |Take(hits, n)| == n <==> |hits| >= n
  {
  }

  /** The regions the walk sees follow each other. */
  lemma WalkIsTiling(query: Query)
    requires Partition(query)
    ensures Tiles(Visited(query, 0, 0), 0, EndOf(query, 0, 0))
  {
    if query(0).Some? { Answer(query, 0); }
    WalkTiles(query, 0, 0);
  }

  /** A match in mapped writable memory, below the end of the walk, is not among the results. */
  ghost predicate Missing(mem: Memory, regions: seq<MemoryInfo>, needle: seq<byte>, n: nat) {
    exists a :: MissedAt(mem, regions, needle, n, a)
  }

  ghost predicate MissedAt(mem: Memory, regions: seq<MemoryInfo>, needle: seq<byte>, n: nat, a: nat) {
    MatchAt(mem, regions, needle, a) && a !in Take(AllNeedleHits(mem, regions, needle), n)
  }

  lemma MissingExactly(mem: Memory, regions: seq<MemoryInfo>, needle: seq<byte>, from: nat, to: nat, n: nat)
    requires needle != [] && Tiles(regions, from, to)
    ensures Missing(mem, regions, needle, n) <==> |AllNeedleHits(mem, regions, needle)| > n || Gap(mem, regions, needle)
  {
    hide MatchAt, FoundIn, Unseen, AllNeedleHits, Tiles, Take, Ascending;
    var hits := AllNeedleHits(mem, regions, needle);
    AllHitsExactly(mem, regions, needle, from, to);
    TakeOf(hits, n);
    forall a
      ensures FoundIn(mem, regions, needle, a) ==> MatchAt(mem, regions, needle, a)
      ensures Unseen(mem, regions, needle, a) <==> MatchAt(mem, regions, needle, a) && !FoundIn(mem, regions, needle, a)
    {
      FoundUnlessUnseen(mem, regions, needle, from, to, a);
    }
    if |hits| > n {
      assert FoundIn(mem, regions, needle, hits[n]);
      assert MissedAt(mem, regions, needle, n, hits[n]);
    } else {
      if Missing(mem, regions, needle, n) {
        var a :| MissedAt(mem, regions, needle, n, a);
        assert Unseen(mem, regions, needle, a);
      }
      if Gap(mem, regions, needle) {
        var a :| Unseen(mem, regions, needle, a);
        assert MissedAt(mem, regions, needle, n, a);
      }
    }
  }

  /** `truncated` is set if and only if a match is missing, exactly when there are more than `max` hits, or
      just `max` and a match that cannot be seen, or fewer and none. */
  lemma TruncatedExactly(query: Query, mem: Memory, value: int, width: int, max: int)
    requires Partition(query)
    ensures var regions := Visited(query, 0, 0); var needle := Store(ToU64(value), Width(width));
            var hits := AllNeedleHits(mem, regions, needle);
            var truncated := |Take(hits, Limit(max))| == Limit(max);
            var gap := Gap(mem, regions, needle);
            (truncated <==> Missing(mem, regions, needle, Limit(max)))
            <==> |hits| > Limit(max) || (|hits| == Limit(max) && gap) || (|hits| < Limit(max) && !gap)
  {
    hide Visited, EndOf, Partition, Tiles, AllNeedleHits, Missing, Gap, Take;
    var regions := Visited(query, 0, 0);
    var needle := Store(ToU64(value), Width(width));
    assert |needle| > 0;
    WalkIsTiling(query);
    MissingExactly(mem, regions, needle, 0, EndOf(query, 0, 0), Limit(max));
    AllHitsExactly(mem, regions, needle, 0, EndOf(query, 0, 0));
    TakeOf(AllNeedleHits(mem, regions, needle), Limit(max));
  }

  // ------------------------------------------------------- when nothing can be overlooked

  /** Every mapped writable region can be read and has at most 64 MiB, and no two of them touch. */
  predicate AllSearched(mem: Memory, regions: seq<MemoryInfo>) {
    && (forall j :: 0 <= j < |regions| ==> Seen(mem, regions[j]))
    && (forall j :: 0 < j < |regions| ==> Apart(regions, j))
  }

  predicate Seen(mem: Memory, mi: MemoryInfo) {
    mi.writable && !mi.unmapped ==> mi.size <= 64 * 1048576 && CanRead(mem, mi.addr, mi.size)
  }

  predicate Apart(regions: seq<MemoryInfo>, j: nat)
    requires 0 < j < |regions|
  {
    !(regions[j - 1].writable && !regions[j - 1].unmapped && regions[j].writable && !regions[j].unmapped)
  }

  lemma {:induction false} Neighbours(regions: seq<MemoryInfo>, from: nat, to: nat, j: nat)
    requires Tiles(regions, from, to) && j < |regions|
    ensures var end := regions[j].addr + regions[j].size;
            regions[j].size > 0 && if j + 1 < |regions| then regions[j + 1].addr == end && regions[j + 1].size > 0 else end == to
  {
    if j > 0 { Neighbours(regions[1..], from + regions[0].size, to, j - 1); }
  }

  /** Where writable regions do not touch, the address behind one is not writable. */
  lemma BehindWritable(mem: Memory, regions: seq<MemoryInfo>, from: nat, to: nat, j: nat)
    requires Tiles(regions, from, to) && AllSearched(mem, regions)
    requires j < |regions| && regions[j].writable && !regions[j].unmapped
    ensures !Writable(regions, regions[j].addr + regions[j].size)
  {
    hide Tiles, Seen;
    Neighbours(regions, from, to, j);
    TilesAscend(regions, from, to);
    if j + 1 < |regions| { assert Apart(regions, j + 1); }
    forall k | 0 <= k < |regions| ensures !InWritable(regions[k], regions[j].addr + regions[j].size) {
    }
  }

  /** There a match lies in one region. */
  lemma MatchInOne(mem: Memory, regions: seq<MemoryInfo>, needle: seq<byte>, from: nat, to: nat, a: nat)
    requires needle != [] && Tiles(regions, from, to) && AllSearched(mem, regions)
    requires MatchAt(mem, regions, needle, a)
    ensures HeldByOne(mem, regions, needle, a)
  {
    hide Read, Tiles, AllSearched, Writable;
    var j := Owner(regions, a);
    BehindWritable(mem, regions, from, to, j);
    assert Holds(mem, regions[j], needle, a);
  }

  ghost function Owner(regions: seq<MemoryInfo>, a: nat): (j: nat)
    requires Writable(regions, a)
    ensures j < |regions| && InWritable(regions[j], a)
  {
    var j :| 0 <= j < |regions| && InWritable(regions[j], a);
    j
  }

  lemma NotSkipped(mem: Memory, regions: seq<MemoryInfo>, needle: seq<byte>, a: nat)
    requires AllSearched(mem, regions)
    ensures !SkippedAt(mem, regions, needle, a)
  {
    hide Searched, Holds;
    forall j | 0 <= j < |regions| ensures !SkipHolds(mem, regions[j], needle, a) {
      assert Seen(mem, regions[j]);
      HoldsWritable(mem, regions[j], needle, a);
    }
  }

  lemma HoldsWritable(mem: Memory, mi: MemoryInfo, needle: seq<byte>, a: nat)
    ensures Holds(mem, mi, needle, a) ==> mi.writable && !mi.unmapped
  {
  }

  lemma NoGap(mem: Memory, regions: seq<MemoryInfo>, needle: seq<byte>, from: nat, to: nat)
    requires needle != [] && Tiles(regions, from, to) && AllSearched(mem, regions)
    ensures !Gap(mem, regions, needle)
  {
    hide Tiles, MatchAt, HeldByOne, SkippedAt, AllSearched;
    forall a ensures !Unseen(mem, regions, needle, a) {
      NotSkipped(mem, regions, needle, a);
      if MatchAt(mem, regions, needle, a) { MatchInOne(mem, regions, needle, from, to, a); }
    }
  }

  /** What the kernel answers for an address of mapped writable memory. */
  predicate KernelWritable(query: Query, a: nat) {
    a < TOP && query(a).Some? && query(a).value.writable && !query(a).value.unmapped
  }

  /** The walk collects the kernel's answers. */
  lemma {:induction false} VisitedAnswers(query: Query, addr: nat, i: nat, j: nat, a: nat)
    requires Partition(query) && addr < TOP && i <= MAX_REGIONS && j < |Visited(query, addr, i)|
    requires Contains(Visited(query, addr, i)[j], a)
    ensures a < TOP && query(a) == Some(Visited(query, addr, i)[j])
    decreases MAX_REGIONS - i
  {
    hide Contains, NextAddr, Visited, EndOf, Partition;
    WalkStep(query, addr, i);
    Inside(query, addr, a);
    if j > 0 {
      var end := query(addr).value.addr + query(addr).value.size;
      VisitedAnswers(query, end, i + 1, j - 1, a);
    }
  }

  lemma Inside(query: Query, addr: nat, a: nat)
    requires Partition(query) && addr < TOP
    ensures query(addr).Some? && Contains(query(addr).value, a) ==> a < TOP && query(a) == query(addr)
  {
  }

  /** Where nothing can be overlooked and the walk reached the end of the address space, an answer without
      `truncated` lists every place in the process's mapped writable memory that holds the value. */
  lemma SearchComplete(query: Query, mem: Memory, value: int, width: int, max: int, a: nat)
    requires Partition(query) && EndOf(query, 0, 0) == TOP && AllSearched(mem, Visited(query, 0, 0))
    requires var needle := Store(ToU64(value), Width(width));
             && |AllNeedleHits(mem, Visited(query, 0, 0), needle)| < Limit(max)
             && Read(mem, a, |needle|) == needle && forall b :: a <= b < a + |needle| ==> KernelWritable(query, b)
    ensures a in Take(AllNeedleHits(mem, Visited(query, 0, 0), Store(ToU64(value), Width(width))), Limit(max))
  {
    hide Visited, EndOf, Partition, Tiles, AllNeedleHits, Gap, Take, AllSearched, Read;
    var regions := Visited(query, 0, 0);
    var needle := Store(ToU64(value), Width(width));
    assert |needle| > 0;
    WalkIsTiling(query);
    NoGap(mem, regions, needle, 0, TOP);
    MissingExactly(mem, regions, needle, 0, TOP, Limit(max));
    forall b | a <= b < a + |needle| ensures Writable(regions, b) {
      assert KernelWritable(query, b);
      WritableVisited(query, b);
    }
    assert MatchAt(mem, regions, needle, a);
    assert !MissedAt(mem, regions, needle, Limit(max), a);
  }

  lemma WritableVisited(query: Query, b: nat)
    requires Partition(query) && EndOf(query, 0, 0) == TOP && KernelWritable(query, b)
    ensures Writable(Visited(query, 0, 0), b)
  {
    hide Visited, EndOf, Contains, Partition;
    MemoryMapCovers(query);
    var regions := Visited(query, 0, 0);
    assert Covered(regions, b);
    var j :| 0 <= j < |regions| && Contains(regions[j], b);
    VisitedAnswers(query, 0, 0, j, b);
    assert InWritable(regions[j], b);
  }

  /** A width of 1, 2, 4 or 8 is used as it is and any other is 4; a limit from 1 to 1024 likewise, and any
      other is 64. */
  lemma ArgumentsExactly(width: int, max: int)
    requires -0x8000_0000 <= width < 0x8000_0000
    ensures Width(width) == if width in {1, 2, 4, 8} then width else 4
    ensures Limit(max) == if 1 <= max <= 1024 then max else 64
  {
  }

  // ------------------------------------------------------------------------- two failures

  /** One writable octet at address 0 and nothing else. */
  function OneOctet(addr: nat): Option<MemoryInfo> {
    if addr == 0 then Some(MemoryInfo(0, 1, false, true)) else None
  }

  const ZEROS := Memory((addr, n) => true, addr => 0)

  /** Asked for one hit where there is one, the search finds it and says that it is truncated. */
  lemma TruncatedAtTheLimit()
    ensures var hits := AllNeedleHits(ZEROS, Visited(OneOctet, 0, 0), Store(ToU64(0), Width(1)));
            |hits| == 1 == Limit(1) && |Take(hits, Limit(1))| == Limit(1)
  {
    hide NeedleHits, Visited, AllNeedleHits, Store, Read;
    var mi := MemoryInfo(0, 1, false, true);
    var needle := Store(ToU64(0), Width(1));
    ZeroNeedle();
    VisitStep(OneOctet, 0, 0);
    VisitStep(OneOctet, 1, 1);
    NeedleTurn(ZEROS, mi, needle, 0, []);
    NeedleTurn(ZEROS, mi, needle, 1, [0]);
    SearchCons(ZEROS, [], mi, [], needle);
    NoHits(ZEROS, needle);
    Joins([mi], Visited(OneOctet, 1, 1));
    Joins([0], NeedleHits(ZEROS, mi, needle, 1));
    Joins([], NeedleHits(ZEROS, mi, needle, 0));
    Joins([0], AllNeedleHits(ZEROS, [], needle));
    Joins([], AllNeedleHits(ZEROS, [mi], needle));
  }

  lemma ZeroNeedle()
    ensures Store(ToU64(0), Width(1)) == [0] == Read(ZEROS, 0, 1)
  {
  }

  lemma Joins<T>(x: seq<T>, y: seq<T>)
    ensures y == [] ==> x + y == x
    ensures x == [] ==> x + y == y
  {
  }

  const BIG := MemoryInfo(0, 0x400_0001, false, true)

  /** One writable region, an octet larger than the search looks into. */
  function OneBig(addr: nat): Option<MemoryInfo> {
    if addr < 0x400_0001 then Some(BIG) else None
  }

  /** A value in such a region is not found, and the answer does not say that anything was left out. */
  lemma SkippedInSilence()
    ensures var regions := Visited(OneBig, 0, 0); var needle := Store(ToU64(0), Width(1));
            && Partition(OneBig) && AllNeedleHits(ZEROS, regions, needle) == []
            && Missing(ZEROS, regions, needle, Limit(64))
  {
    hide Visited, AllNeedleHits, NeedleHits, Store, Read, Tiles, EndOf;
    var needle := Store(ToU64(0), Width(1));
    ZeroNeedle();
    VisitStep(OneBig, 0, 0);
    VisitStep(OneBig, 0x400_0001, 1);
    Joins([BIG], Visited(OneBig, 0x400_0001, 1));
    SearchCons(ZEROS, [], BIG, [], needle);
    NoHits(ZEROS, needle);
    assert Holds(ZEROS, BIG, needle, 0);
    HeldMatches(ZEROS, [BIG], needle, 0, 0);
    assert MissedAt(ZEROS, [BIG], needle, Limit(64), 0);
  }
}
