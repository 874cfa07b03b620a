/** The debugger's memory-map walk and value search (agent/source/handlers/debug.cpp), and how the
    latter relates to the narrowing search. */
module Debug {
  import opened Options
  import opened Memory
  import MemSearch
  import MemSearchProofs

  const TOP := 0x1_0000_0000_0000_0000
  const MAX_REGIONS := 512
  const MAX_SCAN_SIZE := 64 * 1048576

  datatype MemoryInfo = MemoryInfo(addr: nat, size: nat, unmapped: bool, writable: bool)

  /** `svcQueryDebugProcessMemory` for an address below 2^64; None when it fails. */
  type Query = nat -> Option<MemoryInfo>

  /** `mi.addr + mi.size` in a u64. */
  function NextAddr(mi: MemoryInfo): nat {
    (mi.addr + mi.size) % TOP
  }

  /** The regions the walk looks at from `addr` on, when `i` were looked at before. */
  function Visited(query: Query, addr: nat, i: nat): seq<MemoryInfo>
    decreases MAX_REGIONS - i
  {
    if i >= MAX_REGIONS || query(addr).None? then []
    else
      var mi := query(addr).value;
      [mi] + if NextAddr(mi) <= addr then [] else Visited(query, NextAddr(mi), i + 1)
  }

  function Mapped(regions: seq<MemoryInfo>): seq<MemoryInfo> {
    if regions == [] then []
    else (if regions[0].unmapped then [] else [regions[0]]) + Mapped(regions[1..])
  }

  lemma VisitStep(query: Query, addr: nat, i: nat)
    ensures Visited(query, addr, i) ==
      if i >= MAX_REGIONS || query(addr).None? then []
      else [query(addr).value]
           + if NextAddr(query(addr).value) <= addr then [] else Visited(query, NextAddr(query(addr).value), i + 1)
  {
    hide NextAddr;
  }

  method DebugMemMap(query: Query) returns (regions: seq<MemoryInfo>)
    ensures regions == Mapped(Visited(query, 0, 0))
  {
    regions := [];
    var addr := 0;
    ghost var goal := Mapped(Visited(query, 0, 0));
    NothingMapped(regions);
    assert regions + goal == goal;
    hide Mapped, Visited, NextAddr;
    for i := 0 to MAX_REGIONS
      invariant regions + Mapped(Visited(query, addr, i)) == goal
    {
      VisitStep(query, addr, i);
      NothingMapped(regions);
      if query(addr).None? { return; }
      var mi := query(addr).value;
      var next := NextAddr(mi);
      MappedCons(regions, mi, if next <= addr then [] else Visited(query, next, i + 1));
      if !mi.unmapped { regions := regions + [mi]; }
      NothingMapped(regions);
      if next <= addr { return; }
      addr := next;
    }
    VisitStep(query, addr, MAX_REGIONS);
    NothingMapped(regions);
  }

  lemma NothingMapped(done: seq<MemoryInfo>)
    ensures done + Mapped([]) == done
  {
  }

  lemma MappedCons(done: seq<MemoryInfo>, mi: MemoryInfo, more: seq<MemoryInfo>)
    ensures done + Mapped([mi] + more) == (if mi.unmapped then done else done + [mi]) + Mapped(more)
  {
    assert ([mi] + more)[1..] == more;
    assert [] + Mapped(more) == Mapped(more);
  }

  // ---------------------------------------------------------------------- what the walk sees

  predicate Contains(mi: MemoryInfo, a: nat) {
    mi.addr <= a < mi.addr + mi.size
  }

  /** The kernel's side: it answers with the region that contains the asked address, regions end at
      2^64 at the latest, and every address of a region is answered with that region. */
  ghost predicate Partition(query: Query) {
    && (forall a: nat :: a < TOP && query(a).Some? ==>
          Contains(query(a).value, a) && query(a).value.addr + query(a).value.size <= TOP)
    && (forall a: nat, b: nat :: a < TOP && b < TOP && query(a).Some? && Contains(query(a).value, b) ==> query(b) == query(a))
  }

  /** Regions that follow each other without gap or overlap, from `from` to `to`. */
  predicate Tiles(regions: seq<MemoryInfo>, from: nat, to: nat) {
    if regions == [] then from == to
    else regions[0].addr == from && regions[0].size > 0 && Tiles(regions[1..], from + regions[0].size, to)
  }

  /** Where the walk from `addr` on ends. */
  function EndOf(query: Query, addr: nat, i: nat): nat
    decreases MAX_REGIONS - i
  {
    if i >= MAX_REGIONS || query(addr).None? then addr
    else
      var mi := query(addr).value;
      if NextAddr(mi) <= addr then mi.addr + mi.size else EndOf(query, NextAddr(mi), i + 1)
  }

  /** A region that contains the end of the one before it starts there. */
  lemma NextStarts(query: Query, mi: MemoryInfo, a: nat)
    requires Partition(query) && a < TOP && query(a) == Some(mi) && mi.addr + mi.size < TOP
    requires query(mi.addr + mi.size).Some?
    ensures query(mi.addr + mi.size).value.addr == mi.addr + mi.size
  {
    var b := mi.addr + mi.size;
    assert Contains(mi, a) && Contains(mi, b - 1);
    assert query(b - 1) == query(a);
  }

  lemma Answer(query: Query, a: nat)
    requires Partition(query) && a < TOP && query(a).Some?
    ensures Contains(query(a).value, a) && query(a).value.addr + query(a).value.size <= TOP
  {
  }

  /** The walk visits regions that tile the addresses from 0 without gap or overlap, in ascending
      order. It ends exactly when it reached the 64-bit end, or has looked at 512 regions, or the
      kernel refused the next address. */
  lemma {:induction false} WalkTiles(query: Query, addr: nat, i: nat)
    requires Partition(query) && addr < TOP && i <= MAX_REGIONS
    requires query(addr).Some? ==> query(addr).value.addr == addr
    ensures var v := Visited(query, addr, i); var end := EndOf(query, addr, i);
            && Tiles(v, addr, end) && end <= TOP && |v| <= MAX_REGIONS - i
            && (end == TOP || i + |v| == MAX_REGIONS || query(end).None?)
    decreases MAX_REGIONS - i
  {
    hide NextAddr, Partition, Contains, Visited, EndOf;
    WalkStep(query, addr, i);
    if i < MAX_REGIONS && query(addr).Some? {
      var mi := query(addr).value;
      var end := mi.addr + mi.size;
      if end < TOP {
        if query(end).Some? { NextStarts(query, mi, addr); }
        WalkTiles(query, end, i + 1);
        TilesCons(mi, Visited(query, end, i + 1), EndOf(query, end, i + 1));
      } else {
        TilesCons(mi, [], end);
      }
    }
  }

  lemma TilesCons(mi: MemoryInfo, more: seq<MemoryInfo>, to: nat)
    requires mi.size > 0 && Tiles(more, mi.addr + mi.size, to)
    ensures Tiles([mi] + more, mi.addr, to) && [mi] + [] == [mi]
  {
    assert ([mi] + more)[1..] == more;
  }

  /** One region of the walk: the sum of its address and size wraps exactly at 2^64. */
  lemma WalkStep(query: Query, addr: nat, i: nat)
    requires Partition(query) && addr < TOP
    ensures i < MAX_REGIONS && query(addr).Some? ==>
      var mi := query(addr).value;
      var end := mi.addr + mi.size;
      && addr < end <= TOP && mi.size > 0
      && Visited(query, addr, i) == [mi] + (if end == TOP then [] else Visited(query, end, i + 1))
      && EndOf(query, addr, i) == if end == TOP then end else EndOf(query, end, i + 1)
    ensures i >= MAX_REGIONS || query(addr).None? ==> Visited(query, addr, i) == [] && EndOf(query, addr, i) == addr
  {
    VisitStep(query, addr, i);
    EndStep(query, addr, i);
    if i < MAX_REGIONS && query(addr).Some? {
      Answer(query, addr);
      hide Partition, Visited, EndOf;
      Wraps(query(addr).value);
    }
  }

  lemma EndStep(query: Query, addr: nat, i: nat)
    ensures EndOf(query, addr, i) ==
      if i >= MAX_REGIONS || query(addr).None? then addr
      else if NextAddr(query(addr).value) <= addr then query(addr).value.addr + query(addr).value.size
      else EndOf(query, NextAddr(query(addr).value), i + 1)
  {
    hide NextAddr;
  }

  /** The sum of address and size of a region wraps exactly when it ends at 2^64. */
  lemma Wraps(mi: MemoryInfo)
    requires mi.addr + mi.size <= TOP
    ensures NextAddr(mi) == if mi.addr + mi.size == TOP then 0 else mi.addr + mi.size
  {
  }

  predicate Covered(regions: seq<MemoryInfo>, a: nat) {
    exists j :: 0 <= j < |regions| && Contains(regions[j], a)
  }

  lemma {:induction false} TilesAscend(regions: seq<MemoryInfo>, from: nat, to: nat)
    requires Tiles(regions, from, to)
    ensures forall j :: 0 <= j < |regions| ==> from <= regions[j].addr && regions[j].addr + regions[j].size <= to
    ensures from <= to
    ensures forall j, k :: 0 <= j < k < |regions| ==> regions[j].addr + regions[j].size <= regions[k].addr
    ensures forall a: nat :: from <= a < to ==> Covered(regions, a)
  {
    if regions != [] {
      var rest := regions[1..];
      TilesAscend(rest, from + regions[0].size, to);
      forall a: nat | from <= a < to ensures Covered(regions, a) {
        if a < from + regions[0].size {
          assert Contains(regions[0], a);
        } else {
          assert Covered(rest, a);
          var j :| 0 <= j < |rest| && Contains(rest[j], a);
          assert Contains(regions[j + 1], a);
        }
      }
      forall j | 0 <= j < |regions|
        ensures from <= regions[j].addr && regions[j].addr + regions[j].size <= to
      {
        if j > 0 { assert regions[j] == rest[j - 1]; }
      }
      forall j, k | 0 <= j < k < |regions|
        ensures regions[j].addr + regions[j].size <= regions[k].addr
      {
        assert regions[k] == rest[k - 1];
        if j > 0 { assert regions[j] == rest[j - 1]; }
      }
    }
  }

  /** The walk as a whole: disjoint regions in strictly ascending order that cover an initial
      interval of the address space, all of it unless the kernel refuses or 512 regions are full. */
  lemma MemoryMapCovers(query: Query)
    requires Partition(query)
    ensures var v := Visited(query, 0, 0); var end := EndOf(query, 0, 0);
            && |v| <= 512
            && (end == 0x1_0000_0000_0000_0000 || |v| == 512 || query(end).None?)
            && (forall j, k :: 0 <= j < k < |v| ==> v[j].addr + v[j].size <= v[k].addr)
            && (forall a: nat :: a < end ==> Covered(v, a))
  {
    if query(0).Some? { Answer(query, 0); }
    hide Partition, Visited, EndOf;
    WalkTiles(query, 0, 0);
    TilesAscend(Visited(query, 0, 0), 0, EndOf(query, 0, 0));
  }

  // ------------------------------------------------------------------------- the value search

  /** Every offset of a region from `off` on where the needle lies. */
  function NeedleHits(mem: Memory, mi: MemoryInfo, needle: seq<byte>, off: nat): seq<nat>
    decreases if off < mi.size then mi.size - off else 0
  {
    if off >= mi.size || off + |needle| > mi.size then []
    else (if Read(mem, mi.addr + off, |needle|) == needle then [mi.addr + off] else [])
         + NeedleHits(mem, mi, needle, off + 1)
  }

  predicate Ascending(addrs: seq<nat>) {
    forall i, j :: 0 <= i < j < |addrs| ==> addrs[i] < addrs[j]
  }

  /** The needle lies at `a`, inside the region and at offset `off` or later. */
  predicate NeedleAt(mem: Memory, mi: MemoryInfo, needle: seq<byte>, off: nat, a: nat) {
    mi.addr + off <= a && a + |needle| <= mi.addr + mi.size && Read(mem, a, |needle|) == needle
  }

  /** The hits of a region are exactly the addresses where the needle lies, in ascending order. */
  lemma {:induction false} NeedleHitsExactly(mem: Memory, mi: MemoryInfo, needle: seq<byte>, off: nat)
    requires needle != []
    ensures var hits := NeedleHits(mem, mi, needle, off);
            && Ascending(hits)
            && forall a :: a in hits <==> NeedleAt(mem, mi, needle, off, a)
    decreases if off < mi.size then mi.size - off else 0
  {
    hide Read;
    if off < mi.size && off + |needle| <= mi.size {
      NeedleHitsExactly(mem, mi, needle, off + 1);
      var rest := NeedleHits(mem, mi, needle, off + 1);
      assert [] + rest == rest;
      forall i | 0 <= i < |rest| ensures mi.addr + off < rest[i] {
        assert rest[i] in rest;
        assert NeedleAt(mem, mi, needle, off + 1, rest[i]);
      }
      forall a ensures NeedleAt(mem, mi, needle, off, a)
        <==> NeedleAt(mem, mi, needle, off + 1, a) || (a == mi.addr + off && Read(mem, mi.addr + off, |needle|) == needle)
      {
      }
    }
  }

  predicate Searched(mem: Memory, mi: MemoryInfo) {
    mi.writable && !mi.unmapped && mi.size <= MAX_SCAN_SIZE && CanRead(mem, mi.addr, mi.size)
  }

  function AllNeedleHits(mem: Memory, regions: seq<MemoryInfo>, needle: seq<byte>): seq<nat> {
    if regions == [] then []
    else (if Searched(mem, regions[0]) then NeedleHits(mem, regions[0], needle, 0) else [])
         + AllNeedleHits(mem, regions[1..], needle)
  }

  ghost predicate FoundIn(mem: Memory, regions: seq<MemoryInfo>, needle: seq<byte>, a: nat) {
    exists j :: 0 <= j < |regions| && HitIn(mem, regions[j], needle, a)
  }

  predicate HitIn(mem: Memory, mi: MemoryInfo, needle: seq<byte>, a: nat) {
    Searched(mem, mi) && NeedleAt(mem, mi, needle, 0, a)
  }

  lemma FoundInCons(mem: Memory, regions: seq<MemoryInfo>, needle: seq<byte>, a: nat)
    requires regions != []
    ensures FoundIn(mem, regions, needle, a) <==> HitIn(mem, regions[0], needle, a) || FoundIn(mem, regions[1..], needle, a)
  {
    hide HitIn;
    if FoundIn(mem, regions[1..], needle, a) {
      var j :| 0 <= j < |regions[1..]| && HitIn(mem, regions[1..][j], needle, a);
      assert HitIn(mem, regions[j + 1], needle, a);
    }
    if FoundIn(mem, regions, needle, a) && !HitIn(mem, regions[0], needle, a) {
      var j :| 0 <= j < |regions| && HitIn(mem, regions[j], needle, a);
      assert HitIn(mem, regions[1..][j - 1], needle, a);
    }
  }

  lemma AscendingConcat(x: seq<nat>, y: seq<nat>, at: nat)
    requires Ascending(x) && Ascending(y)
    requires (forall a :: a in x ==> a < at) && (forall a :: a in y ==> at <= a)
    ensures Ascending(x + y)
  {
    forall i, j | 0 <= i < j < |x + y| ensures (x + y)[i] < (x + y)[j] {
      if i < |x| { assert x[i] in x; }
      if j >= |x| { assert y[j - |x|] in y; }
    }
  }

  /** What the walk finds before any limit: exactly the addresses in searched regions where the needle
      lies, in ascending order over regions that follow each other. */
  lemma {:induction false} AllHitsExactly(mem: Memory, regions: seq<MemoryInfo>, needle: seq<byte>, from: nat, to: nat)
    requires needle != [] && Tiles(regions, from, to)
    ensures var hits := AllNeedleHits(mem, regions, needle);
            && Ascending(hits)
            && (forall a :: a in hits <==> FoundIn(mem, regions, needle, a))
            && (forall a :: a in hits ==> from <= a)
  {
    hide NeedleHits, Searched, FoundIn, NeedleAt, Ascending;
    if regions == [] {
      NothingFound(mem, needle);
    } else {
      var mi := regions[0];
      var here := if Searched(mem, mi) then NeedleHits(mem, mi, needle, 0) else [];
      AllHitsExactly(mem, regions[1..], needle, from + mi.size, to);
      RegionHits(mem, mi, needle);
      AscendingConcat(here, AllNeedleHits(mem, regions[1..], needle), from + mi.size);
      forall a ensures FoundIn(mem, regions, needle, a) <==> HitIn(mem, mi, needle, a) || FoundIn(mem, regions[1..], needle, a) {
        FoundInCons(mem, regions, needle, a);
      }
    }
  }

  lemma NothingFound(mem: Memory, needle: seq<byte>)
    ensures Ascending([]) && forall a :: !FoundIn(mem, [], needle, a)
  {
  }

  lemma RegionHits(mem: Memory, mi: MemoryInfo, needle: seq<byte>)
    requires needle != []
    ensures var here := if Searched(mem, mi) then NeedleHits(mem, mi, needle, 0) else [];
            && Ascending(here)
            && (forall a :: a in here <==> HitIn(mem, mi, needle, a))
            && (forall a :: a in here ==> mi.addr <= a < mi.addr + mi.size)
  {
    hide NeedleHits, Read, Searched;
    NeedleHitsExactly(mem, mi, needle, 0);
  }

  function Width(width: int): int {
    if ValidWidth(ToInt32(width)) then ToInt32(width) else 4
  }

  function Limit(max: int): int {
    if max <= 0 || max > 1024 then 64 else max
  }

  function Take<T>(xs: seq<T>, n: nat): seq<T> {
    if |xs| > n then xs[..n] else xs
  }

  /** The first `max` addresses, in ascending order of the regions walked, that hold the low octets
      of `value`; `truncated` says only that `max` were found. */
  method DebugSearch(query: Query, mem: Memory, value: int, width: int, max: int)
    returns (matches: seq<nat>, truncated: bool)
    ensures var needle := Store(ToU64(value), Width(width));
            matches == Take(AllNeedleHits(mem, Visited(query, 0, 0), needle), Limit(max))
    ensures truncated <==> |matches| == Limit(max)
  {
    hide Store, Read, Visited, AllNeedleHits, NeedleHits, Take;
    var needle := Store(ToU64(value), Width(width));
    var most: nat := Limit(max);
    matches := [];
    var addr := 0;
    var i := 0;
    ghost var goal := Take(AllNeedleHits(mem, Visited(query, 0, 0), needle), most);
    Enough([], AllNeedleHits(mem, Visited(query, 0, 0), needle), most);
    while i < MAX_REGIONS && |matches| < most
      invariant |matches| <= most
      invariant Take(matches + AllNeedleHits(mem, Visited(query, addr, i), needle), most) == goal
      decreases MAX_REGIONS - i
    {
      VisitStep(query, addr, i);
      if query(addr).None? { break; }
      var mi := query(addr).value;
      var next := NextAddr(mi);
      ghost var later := if next <= addr then [] else Visited(query, next, i + 1);
      SearchCons(mem, matches, mi, later, needle);
      if Searched(mem, mi) {
        ghost var before := matches;
        matches := SearchRegion(mem, mi, needle, matches, most);
        TakeThen(before, NeedleHits(mem, mi, needle, 0), AllNeedleHits(mem, later, needle), most);
      }
      Enough(matches, AllNeedleHits(mem, later, needle), most);
      NoHits(mem, needle);
      if next <= addr { break; }
      addr := next;
      i := i + 1;
    }
    VisitStep(query, addr, i);
    NoHits(mem, needle);
    Enough(matches, AllNeedleHits(mem, Visited(query, addr, i), needle), most);
    truncated := |matches| >= most;
  }

  method SearchRegion(mem: Memory, mi: MemoryInfo, needle: seq<byte>, found: seq<nat>, most: nat)
    returns (matches: seq<nat>)
    requires |found| <= most
    ensures matches == Take(found + NeedleHits(mem, mi, needle, 0), most) && |matches| <= most
  {
    hide Read, NeedleHits, Take;
    var chunk := Read(mem, mi.addr, mi.size);
    matches := found;
    var off := 0;
    ghost var all := found + NeedleHits(mem, mi, needle, 0);
    while off < mi.size && off + |needle| <= mi.size && |matches| < most
      invariant |matches| <= most && matches + NeedleHits(mem, mi, needle, off) == all
      decreases if off < mi.size then mi.size - off else 0
    {
      ReadPart(mem, mi.addr, mi.size, off, |needle|);
      NeedleTurn(mem, mi, needle, off, matches);
      if chunk[off..off + |needle|] == needle { matches := matches + [mi.addr + off]; }
      off := off + 1;
    }
    NeedleTurn(mem, mi, needle, off, matches);
    Enough(matches, NeedleHits(mem, mi, needle, off), most);
  }

  lemma NeedleTurn(mem: Memory, mi: MemoryInfo, needle: seq<byte>, off: nat, found: seq<nat>)
    ensures off >= mi.size || off + |needle| > mi.size ==> NeedleHits(mem, mi, needle, off) == []
    ensures off < mi.size && off + |needle| <= mi.size ==>
      found + NeedleHits(mem, mi, needle, off)
      == (if Read(mem, mi.addr + off, |needle|) == needle then found + [mi.addr + off] else found)
         + NeedleHits(mem, mi, needle, off + 1)
  {
    hide Read;
    if off < mi.size && off + |needle| <= mi.size {
      var rest := NeedleHits(mem, mi, needle, off + 1);
      assert found + ([mi.addr + off] + rest) == found + [mi.addr + off] + rest && [] + rest == rest;
    }
  }

  lemma Enough<T>(xs: seq<T>, more: seq<T>, n: nat)
    requires |xs| <= n
    ensures |xs| == n ==> Take(xs + more, n) == xs
    ensures Take(xs + [], n) == xs && [] + more == more
  {
    assert xs + [] == xs;
  }

  lemma NoHits(mem: Memory, needle: seq<byte>)
    ensures AllNeedleHits(mem, [], needle) == []
  {
  }

  lemma SearchCons(mem: Memory, found: seq<nat>, mi: MemoryInfo, later: seq<MemoryInfo>, needle: seq<byte>)
    ensures found + AllNeedleHits(mem, [mi] + later, needle)
            == found + (if Searched(mem, mi) then NeedleHits(mem, mi, needle, 0) else []) + AllNeedleHits(mem, later, needle)
    ensures found + [] == found
  {
    hide NeedleHits;
    assert ([mi] + later)[1..] == later;
  }

  lemma TakeThen<T>(xs: seq<T>, ys: seq<T>, zs: seq<T>, n: nat)
    ensures Take(Take(xs + ys, n) + zs, n) == Take(xs + ys + zs, n)
  {
  }

  // -------------------------------------------------- the two searches answer alike

  /** Those of the debugger's hits that lie at a multiple of the width from the region's start. */
  function Aligned(hits: seq<nat>, base: nat, width: nat): seq<nat>
    requires width > 0
  {
    if hits == [] then []
    else (if (hits[0] - base) % width == 0 then [hits[0]] else []) + Aligned(hits[1..], base, width)
  }

  function Addrs(cs: seq<MemSearch.Candidate>): seq<nat> {
    if cs == [] then [] else [cs[0].addr] + Addrs(cs[1..])
  }

  /** Every chunk of the region can be read. */
  ghost predicate AllReadable(mem: Memory, r: MemSearch.Region) {
    forall off :: 0 <= off < r.size ==>
      CanRead(mem, MemSearchProofs.ChunkAt(r, off).addr, MemSearchProofs.ChunkAt(r, off).len)
  }

  /** From an aligned offset on, the walk in steps of the width finds the aligned ones among the
      debugger's hits, when the value fits the width, and nothing when it does not. */
  lemma {:induction false} SameHitsFrom(mem: Memory, mi: MemoryInfo, width: nat, want: nat, off: nat)
    requires ValidWidth(width) && off % width == 0
    requires AllReadable(mem, MemSearch.Region(mi.addr, mi.size))
    ensures Addrs(MemSearchProofs.StrideHits(mem, MemSearch.Region(mi.addr, mi.size), width, want, off))
            == if want < Pow256(width) then Aligned(NeedleHits(mem, mi, Store(want, width), off), mi.addr, width) else []
    decreases if off < mi.size then mi.size - off else 0
  {
    hide Store, Read, Load, Pow256, AllReadable, NeedleHits, MemSearchProofs.StrideHits, Aligned, Addrs;
    if off + width <= mi.size {
      MemSearchProofs.NextMultiple(off, width);
      SameHitsFrom(mem, mi, width, want, off + width);
      AlignedSkip(mem, mi, Store(want, width), off, 1);
      AlignedCons(mi.addr + off, NeedleHits(mem, mi, Store(want, width), off + 1), mi.addr, width);
      SameHitsStep(mem, mi, width, want, off);
    } else {
      HitSteps(mem, mi, width, want, off);
    }
  }

  /** The step of `SameHitsFrom` once divisibility is out of the way. */
  lemma SameHitsStep(mem: Memory, mi: MemoryInfo, width: nat, want: nat, off: nat)
    requires ValidWidth(width) && off + width <= mi.size && AllReadable(mem, MemSearch.Region(mi.addr, mi.size))
    requires var next := NeedleHits(mem, mi, Store(want, width), off + 1);
             Aligned([mi.addr + off] + next, mi.addr, width) == [mi.addr + off] + Aligned(next, mi.addr, width)
    requires var later := MemSearchProofs.StrideHits(mem, MemSearch.Region(mi.addr, mi.size), width, want, off + width);
             var next := NeedleHits(mem, mi, Store(want, width), off + 1);
             Addrs(later) == if want < Pow256(width) then Aligned(next, mi.addr, width) else []
    ensures Addrs(MemSearchProofs.StrideHits(mem, MemSearch.Region(mi.addr, mi.size), width, want, off))
            == if want < Pow256(width) then Aligned(NeedleHits(mem, mi, Store(want, width), off), mi.addr, width) else []
  {
    assert width > 0;
    HitSteps(mem, mi, width, want, off);
    LoadIsStore(Read(mem, mi.addr + off, width), want);
    hide Store, Read, Load, Pow256, ValidWidth, AllReadable, NeedleHits, MemSearchProofs.StrideHits, Aligned, Addrs;
    AddrsCons(MemSearch.Candidate(mi.addr + off, want),
              MemSearchProofs.StrideHits(mem, MemSearch.Region(mi.addr, mi.size), width, want, off + width));
    var next := NeedleHits(mem, mi, Store(want, width), off + 1);
    assert [] + next == next;
  }

  /** What either search does at one aligned offset. */
  lemma HitSteps(mem: Memory, mi: MemoryInfo, width: nat, want: nat, off: nat)
    requires ValidWidth(width) && AllReadable(mem, MemSearch.Region(mi.addr, mi.size))
    ensures var r := MemSearch.Region(mi.addr, mi.size);
            var octets := Read(mem, mi.addr + off, width);
            var needle := Store(want, width);
            && MemSearchProofs.StrideHits(mem, r, width, want, off)
               == (if off + width > mi.size then []
                   else (if Load(octets) == want then [MemSearch.Candidate(mi.addr + off, want)] else [])
                        + MemSearchProofs.StrideHits(mem, r, width, want, off + width))
            && NeedleHits(mem, mi, needle, off)
               == (if off + width > mi.size then []
                   else (if octets == needle then [mi.addr + off] else []) + NeedleHits(mem, mi, needle, off + 1))
            && Aligned([], mi.addr, width) == [] && Addrs([]) == []
  {
    hide Read, Load, Store;
    var r := MemSearch.Region(mi.addr, mi.size);
    if off + width <= mi.size {
      var c := MemSearchProofs.ChunkAt(r, off);
      assert CanRead(mem, c.addr, c.len);
    }
  }

  lemma AddrsCons(c: MemSearch.Candidate, cs: seq<MemSearch.Candidate>)
    ensures Addrs([c] + cs) == [c.addr] + Addrs(cs) && [] + cs == cs
  {
    assert ([c] + cs)[1..] == cs;
  }

  lemma AlignedCons(a: nat, hits: seq<nat>, base: nat, width: nat)
    requires width > 0 && (a - base) % width == 0
    ensures Aligned([a] + hits, base, width) == [a] + Aligned(hits, base, width)
    ensures [] + hits == hits
  {
    assert ([a] + hits)[1..] == hits;
  }

  /** Between two multiples of the width no hit is aligned. */
  lemma {:induction false} AlignedSkip(mem: Memory, mi: MemoryInfo, needle: seq<byte>, off: nat, i: nat)
    requires ValidWidth(|needle|) && off % |needle| == 0 && 1 <= i <= |needle|
    ensures Aligned(NeedleHits(mem, mi, needle, off + i), mi.addr, |needle|)
            == Aligned(NeedleHits(mem, mi, needle, off + |needle|), mi.addr, |needle|)
    decreases |needle| - i
  {
    hide Read, Aligned, ValidWidth;
    if i < |needle| {
      Between(off, i, |needle|);
      AlignedSkip(mem, mi, needle, off, i + 1);
      var later := NeedleHits(mem, mi, needle, off + i + 1);
      AlignedDrop(mi.addr + off + i, later, mi.addr, |needle|);
      NeedleStep(mem, mi, needle, off + i);
      hide NeedleHits;
    }
  }

  lemma NeedleStep(mem: Memory, mi: MemoryInfo, needle: seq<byte>, off: nat)
    ensures NeedleHits(mem, mi, needle, off) == NeedleHits(mem, mi, needle, off + 1)
      || NeedleHits(mem, mi, needle, off) == [mi.addr + off] + NeedleHits(mem, mi, needle, off + 1)
  {
    hide Read;
    assert [] + NeedleHits(mem, mi, needle, off + 1) == NeedleHits(mem, mi, needle, off + 1);
  }

  lemma AlignedDrop(a: nat, hits: seq<nat>, base: nat, width: nat)
    requires width > 0 && (a - base) % width != 0
    ensures Aligned([a] + hits, base, width) == Aligned(hits, base, width)
  {
    assert ([a] + hits)[1..] == hits;
    assert [] + Aligned(hits, base, width) == Aligned(hits, base, width);
  }

  lemma Between(off: nat, i: nat, width: nat)
    requires ValidWidth(width) && off % width == 0 && 0 < i < width
    ensures (off + i) % width != 0
  {
  }

  /** On a readable region with no cap reached, the first scan of the narrowing search finds exactly
      the width-aligned addresses among those the debugger's search finds, when the value is below
      256^width; a larger value the narrowing search never finds, while the debugger's search looks
      for its low octets. */
  lemma SearchesAgree(mem: Memory, mi: MemoryInfo, width: nat, want: nat)
    requires ValidWidth(width)
    requires AllReadable(mem, MemSearch.Region(mi.addr, mi.size))
    ensures Addrs(MemSearchProofs.HitsOf(mem, MemSearch.ChunksFrom(MemSearch.Region(mi.addr, mi.size), 0), width, want))
            == if want < Pow256(width) then Aligned(NeedleHits(mem, mi, Store(want, width), 0), mi.addr, width) else []
  {
    MemSearchProofs.StrideFrom(mem, MemSearch.Region(mi.addr, mi.size), width, want, 0);
    SameHitsFrom(mem, mi, width, want, 0);
  }

  /** The two commands on one region: a `search.begin` that was neither cut off nor out of budget has
      as candidates exactly the width-aligned ones among the debugger's hits. */
  lemma FirstScanAgrees(mem: Memory, mi: MemoryInfo, width: nat, want: nat, budget: nat)
    requires ValidWidth(width) && want < Pow256(width)
    requires AllReadable(mem, MemSearch.Region(mi.addr, mi.size))
    requires var scan := MemSearch.FirstScan(mem, [MemSearch.Region(mi.addr, mi.size)], width, want, budget);
             !scan.truncated && !scan.budgetHit
    ensures Addrs(MemSearch.FirstScan(mem, [MemSearch.Region(mi.addr, mi.size)], width, want, budget).found)
            == Aligned(NeedleHits(mem, mi, Store(want, width), 0), mi.addr, width)
  {
    hide Store, AllReadable, NeedleHits, Aligned, Addrs, MemSearch.FirstScan, MemSearchProofs.HitsOf, MemSearch.ChunksFrom;
    var r := MemSearch.Region(mi.addr, mi.size);
    var cs := MemSearch.ChunksFrom(r, 0);
    assert MemSearch.AllChunks([r]) == cs by { assert cs + [] == cs; }
    var n := MemSearchProofs.FirstScanFinds(mem, [r], width, want, budget);
    assert cs[..n] == cs;
    SearchesAgree(mem, mi, width, want);
  }
}
