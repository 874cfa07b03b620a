/** The narrowing memory search of agent/source/handlers/memsearch.cpp. */
module MemSearch {
  import opened Options
  import opened Memory

  const MAX_CANDIDATES := 32768
  const SCAN_CHUNK := 65536

  datatype Candidate = Candidate(addr: nat, value: nat)

  datatype Region = Region(base: nat, size: nat)

  /** The caller's part of the contract: addresses stay below 2^64 and so does the chunk cursor. Addresses
      are unbounded here, so that no proof needs it; it marks where they agree with the 64-bit ones. What
      the cursor does beyond is `MemSearchProofs.CursorEndsExactly`. */
  predicate NoWrap(r: Region) {
    r.base + r.size <= 0x1_0000_0000_0000_0000 && r.size + SCAN_CHUNK <= 0x1_0000_0000_0000_0000
  }

  // ---------------------------------------------------------------------- the first scan

  /** A stretch that one ReadMem call covers. */
  datatype Chunk = Chunk(addr: nat, len: nat)

  function ChunksFrom(r: Region, off: nat): seq<Chunk>
    decreases if off < r.size then r.size - off else 0
  {
    if off >= r.size then []
    else [Chunk(r.base + off, if r.size - off < SCAN_CHUNK then r.size - off else SCAN_CHUNK)]
         + ChunksFrom(r, off + SCAN_CHUNK)
  }

  function AllChunks(regions: seq<Region>): seq<Chunk> {
    if regions == [] then [] else ChunksFrom(regions[0], 0) + AllChunks(regions[1..])
  }

  /** The hits in one chunk from offset `i` on, in steps of `width`. */
  function ChunkHits(mem: Memory, c: Chunk, width: nat, want: nat, i: nat): seq<Candidate>
    requires width > 0
    decreases if i < c.len then c.len - i else 0
  {
    if i + width > c.len then []
    else (if Load(Read(mem, c.addr + i, width)) == want then [Candidate(c.addr + i, want)] else [])
         + ChunkHits(mem, c, width, want, i + width)
  }

  datatype Scan = Scan(found: seq<Candidate>, scanned: nat, truncated: bool, budgetHit: bool)

  /** `found` after meeting `hits`: at most the cap, and one hit more sets `truncated`. */
  function Collect(st: Scan, hits: seq<Candidate>): Scan {
    var all := st.found + hits;
    if |all| > MAX_CANDIDATES then st.(found := all[..MAX_CANDIDATES], truncated := true)
    else st.(found := all)
  }

  function ScanChunk(mem: Memory, st: Scan, c: Chunk, width: nat, want: nat, budget: nat): Scan
    requires width > 0
  {
    if st.truncated || st.budgetHit then st
    else if st.scanned >= budget then st.(budgetHit := true)
    else if !CanRead(mem, c.addr, c.len) then st
    else Collect(st.(scanned := st.scanned + c.len), ChunkHits(mem, c, width, want, 0))
  }

  function ScanChunks(mem: Memory, st: Scan, cs: seq<Chunk>, width: nat, want: nat, budget: nat): Scan
    requires width > 0
    decreases cs
  {
    if cs == [] then st
    else ScanChunks(mem, ScanChunk(mem, st, cs[0], width, want, budget), cs[1..], width, want, budget)
  }

  const NOTHING_FOUND := Scan([], 0, false, false)

  function FirstScan(mem: Memory, regions: seq<Region>, width: nat, want: nat, budget: nat): Scan
    requires width > 0
  {
    ScanChunks(mem, NOTHING_FOUND, AllChunks(regions), width, want, budget)
  }

  // --------------------------------------------------------------------------- narrowing

  predicate ValidOp(op: string) {
    op in {"eq", "ne", "gt", "lt", "changed", "unchanged", "increased", "decreased"}
  }

  predicate NeedsValue(op: string) {
    op == "eq" || op == "ne" || op == "gt" || op == "lt"
  }

  /** Whether an operator keeps a candidate whose value was `before` and is `now`. */
  predicate Keeps(op: string, now: nat, want: nat, before: nat) {
    (op == "eq" && now == want) || (op == "ne" && now != want)
    || (op == "gt" && now > want) || (op == "lt" && now < want)
    || (op == "changed" && now != before) || (op == "unchanged" && now == before)
    || (op == "increased" && now > before) || (op == "decreased" && now < before)
  }

  function Observe(mem: Memory, c: Candidate, width: nat): nat {
    Load(Read(mem, c.addr, width))
  }

  /** The survivors of one `search.next`, with their new values. */
  function Narrow(mem: Memory, cs: seq<Candidate>, width: nat, op: string, want: nat): seq<Candidate> {
    if cs == [] then []
    else
      var now := Observe(mem, cs[0], width);
      (if CanRead(mem, cs[0].addr, width) && Keeps(op, now, want, cs[0].value)
       then [Candidate(cs[0].addr, now)] else [])
      + Narrow(mem, cs[1..], width, op, want)
  }

  // ------------------------------------------------------------------------- the handlers

  datatype MemoryInfo = MemoryInfo(addr: nat, size: nat, canRead: bool, canWrite: bool, scannableType: bool)

  datatype Extents = Extents(base: nat, size: nat)

  /** The cheat process: whether it is attached and describes itself, its named extents and its mappings. */
  datatype Target = Target(
    attached: bool,
    described: bool,
    heap: Extents,
    main: Extents,
    mappings: Option<seq<MemoryInfo>>
  )

  /** `value` and `maxBytes` as the request's int64; `explicit` when it has both base and size. */
  datatype BeginRequest = BeginRequest(width: int, value: int, explicit: Option<Region>, region: string, maxBytes: int)

  datatype NextRequest = NextRequest(op: string, value: Option<int>)

  datatype SearchError = NotAttached | BadArg | IpcFailed | NoRegions | NoSearch

  predicate Inside(mi: MemoryInfo, e: Extents) {
    mi.addr >= e.base && mi.addr < e.base + e.size
  }

  predicate ScannableRegion(mi: MemoryInfo) {
    mi.canRead && mi.canWrite && mi.scannableType
  }

  predicate Selected(t: Target, want: string, mi: MemoryInfo) {
    ScannableRegion(mi) && (want == "heap" ==> Inside(mi, t.heap)) && (want == "main" ==> Inside(mi, t.main))
  }

  function SelectRegions(t: Target, want: string, maps: seq<MemoryInfo>): seq<Region> {
    if maps == [] then []
    else (if Selected(t, want, maps[0]) then [Region(maps[0].addr, maps[0].size)] else [])
         + SelectRegions(t, want, maps[1..])
  }

  function RegionsFor(t: Target, req: BeginRequest): seq<Region> {
    match req.explicit
    case Some(r) => [r]
    case None => if t.mappings.None? then [] else SelectRegions(t, req.region, t.mappings.value)
  }

  /** The error `search.begin` answers, if any, in the order of its checks. */
  function BeginError(t: Target, req: BeginRequest): Option<SearchError> {
    if !t.attached then Some(NotAttached)
    else if !ValidWidth(ToInt32(req.width)) then Some(BadArg)
    else if !t.described then Some(IpcFailed)
    else if req.explicit.Some? then None
    else if t.mappings.None? then Some(IpcFailed)
    else if RegionsFor(t, req) == [] then Some(NoRegions)
    else None
  }

  function Wanted(req: NextRequest): nat {
    ToU64(if req.value.Some? then req.value.value else 0)
  }

  /** The error `search.next` answers, if any: an unknown operator is noticed only at the first
      candidate that can be read. */
  function NextError(mem: Memory, cs: seq<Candidate>, width: nat, attached: bool, req: NextRequest): Option<SearchError> {
    if !attached then Some(NotAttached)
    else if cs == [] then Some(NoSearch)
    else if NeedsValue(req.op) && req.value.None? then Some(BadArg)
    else if !ValidOp(req.op) && exists i :: 0 <= i < |cs| && CanRead(mem, cs[i].addr, width) then Some(BadArg)
    else None
  }

  function ListLimit(limit: int): nat {
    if ToInt32(limit) < 1 || ToInt32(limit) > 1000 then 50 else ToInt32(limit)
  }

  /** What `search.results` reports as shown, of `total` candidates. */
  function Shown(total: nat, limit: int): nat {
    if total <= ListLimit(limit) then total else ListLimit(limit) + 1
  }

  class Search {
    var candidates: seq<Candidate>
    var width: int
    var generation: nat

    constructor ()
      ensures candidates == [] && width == 4 && generation == 0
    {
      candidates, width, generation := [], 4, 0;
    }

    method PickRegions(t: Target, want: string, maps: seq<MemoryInfo>) returns (regions: seq<Region>)
      ensures regions == SelectRegions(t, want, maps)
    {
      hide Inside, ScannableRegion, Selected, SelectRegions;
      regions := [];
      SelectAll(t, want, maps);
      for i := 0 to |maps|
        invariant regions + SelectRegions(t, want, maps[i..]) == SelectRegions(t, want, maps)
      {
        var mi := maps[i];
        SelectCons(t, want, maps, i, regions);
        if !ScannableRegion(mi) { continue; }
        if want == "heap" && !Inside(mi, t.heap) { continue; }
        if want == "main" && !Inside(mi, t.main) { continue; }
        regions := regions + [Region(mi.addr, mi.size)];
      }
    }

    /** One chunk of the first scan, once it has been read. */
    method ScanBuffer(mem: Memory, c: Chunk, w: nat, want: nat, found: seq<Candidate>)
      returns (found': seq<Candidate>, truncated: bool)
      requires w > 0 && |found| <= MAX_CANDIDATES
      ensures Scan(found', 0, truncated, false) == Collect(Scan(found, 0, false, false), ChunkHits(mem, c, w, want, 0))
    {
      hide Load, Read;
      var buf := Read(mem, c.addr, c.len);
      found' := found;
      var i := 0;
      ghost var all := found + ChunkHits(mem, c, w, want, 0);
      while i + w <= c.len
        invariant found <= found' && |found'| <= MAX_CANDIDATES
        invariant found' + ChunkHits(mem, c, w, want, i) == all
        decreases c.len - i
      {
        ReadPart(mem, c.addr, c.len, i, w);
        ghost var rest := ChunkHits(mem, c, w, want, i + w);
        var hit := Candidate(c.addr + i, want);
        if Load(buf[i..i + w]) == want {
          Push(found', hit, rest);
          if |found'| >= MAX_CANDIDATES {
            assert all[..MAX_CANDIDATES] == found';
            return found', true;
          }
          found' := found' + [hit];
        } else {
          assert [] + rest == rest;
        }
        i := i + w;
      }
      assert found' + [] == found';
      return found', false;
    }

    method SearchBegin(mem: Memory, t: Target, req: BeginRequest) returns (error: Option<SearchError>, scan: Scan)
      requires forall r :: r in RegionsFor(t, req) ==> NoWrap(r)
      modifies this
      ensures error == BeginError(t, req)
      ensures error.Some? ==> candidates == old(candidates) && width == old(width) && generation == old(generation)
      ensures error.None? ==>
        && width == ToInt32(req.width) && generation == 1
        && scan == FirstScan(mem, RegionsFor(t, req), width, ToU64(req.value), ToU64(req.maxBytes))
        && candidates == scan.found
    {
      scan := NOTHING_FOUND;
      if !t.attached { return Some(NotAttached), scan; }
      var w := ToInt32(req.width);
      if !ValidWidth(w) { return Some(BadArg), scan; }
      var want := ToU64(req.value);
      if !t.described { return Some(IpcFailed), scan; }
      var regions: seq<Region>;
      if req.explicit.Some? {
        regions := [req.explicit.value];
      } else {
        if t.mappings.None? { return Some(IpcFailed), scan; }
        regions := PickRegions(t, req.region, t.mappings.value);
        if regions == [] { return Some(NoRegions), scan; }
      }
      var budget := ToU64(req.maxBytes);
      candidates, width, generation := [], w, 1;
      var found, truncated, budgetHit, scanned := ScanRegions(mem, regions, w, want, budget);
      candidates := found;
      scan := Scan(found, scanned, truncated, budgetHit);
      return None, scan;
    }

    /** The nested scan loops of `search.begin`. */
    method ScanRegions(mem: Memory, regions: seq<Region>, w: nat, want: nat, budget: nat)
      returns (found: seq<Candidate>, truncated: bool, budgetHit: bool, scanned: nat)
      requires w > 0
      ensures Scan(found, scanned, truncated, budgetHit) == FirstScan(mem, regions, w, want, budget)
    {
      found, truncated, budgetHit, scanned := [], false, false, 0;
      hide ScanChunks, ScanChunk, AllChunks, ChunksFrom, ChunkHits, Collect, FirstScan;
      ghost var goal := FirstScan(mem, regions, w, want, budget);
      ScanStarts(mem, regions, w, want, budget);
      for k := 0 to |regions|
        invariant |found| <= MAX_CANDIDATES
        invariant ScanChunks(mem, Scan(found, scanned, truncated, budgetHit), AllChunks(regions[k..]), w, want, budget) == goal
      {
        if truncated || budgetHit {
          Stopped(mem, Scan(found, scanned, truncated, budgetHit), AllChunks(regions[k..]), w, want, budget);
          return;
        }
        var reg := regions[k];
        ghost var later := AllChunks(regions[k + 1..]);
        NextRegion(regions, k);
        var off := 0;
        while off < reg.size
          invariant |found| <= MAX_CANDIDATES && !truncated && !budgetHit
          invariant ScanChunks(mem, Scan(found, scanned, truncated, budgetHit), ChunksFrom(reg, off) + later, w, want, budget) == goal
          decreases if off < reg.size then reg.size - off else 0
        {
          ghost var st := Scan(found, scanned, truncated, budgetHit);
          var c := Chunk(reg.base + off, if reg.size - off < SCAN_CHUNK then reg.size - off else SCAN_CHUNK);
          NextChunk(mem, st, reg, off, later, w, want, budget);
          off := off + SCAN_CHUNK;
          if scanned >= budget {
            budgetHit := true;
          } else if CanRead(mem, c.addr, c.len) {
            scanned := scanned + c.len;
            found, truncated := ScanBuffer(mem, c, w, want, found);
            CountAside(Scan(st.found, 0, false, false), ChunkHits(mem, c, w, want, 0), scanned);
          }
          assert Scan(found, scanned, truncated, budgetHit) == ScanChunk(mem, st, c, w, want, budget);
          if truncated || budgetHit { break; }
        }
        if truncated || budgetHit {
          ghost var st := Scan(found, scanned, truncated, budgetHit);
          Stopped(mem, st, ChunksFrom(reg, off) + later, w, want, budget);
          Stopped(mem, st, later, w, want, budget);
        } else {
          LastChunk(reg, off, later);
        }
      }
      ScanEnds(mem, Scan(found, scanned, truncated, budgetHit), regions, w, want, budget);
    }

    method SearchNext(mem: Memory, attached: bool, req: NextRequest) returns (error: Option<SearchError>)
      requires width >= 0
      modifies this
      ensures width == old(width)
      ensures error == NextError(mem, old(candidates), width, attached, req)
      ensures error.Some? ==> candidates == old(candidates) && generation == old(generation)
      ensures error.None? ==>
        && candidates == Narrow(mem, old(candidates), width, req.op, if req.value.Some? then ToU64(req.value.value) else 0)
        && generation == old(generation) + 1
    {
      hide ValidOp, NeedsValue, Keeps, Observe;
      if !attached { return Some(NotAttached); }
      if candidates == [] { return Some(NoSearch); }
      var want := Wanted(req);
      if NeedsValue(req.op) && req.value.None? { return Some(BadArg); }
      var kept := [];
      for i := 0 to |candidates|
        invariant candidates == old(candidates) && width == old(width) && generation == old(generation)
        invariant kept + Narrow(mem, candidates[i..], width, req.op, want) == Narrow(mem, candidates, width, req.op, want)
        invariant ValidOp(req.op) || forall j :: 0 <= j < i ==> !CanRead(mem, candidates[j].addr, width)
      {
        var c := candidates[i];
        assert candidates[i..][1..] == candidates[i + 1..];
        ghost var rest := Narrow(mem, candidates[i + 1..], width, req.op, want);
        assert [] + rest == rest;
        if !CanRead(mem, c.addr, width) { continue; }
        var now := Observe(mem, c, width);
        if !ValidOp(req.op) { return Some(BadArg); }
        Push(kept, Candidate(c.addr, now), rest);
        if Keeps(req.op, now, want, c.value) { kept := kept + [Candidate(c.addr, now)]; }
      }
      assert kept + [] == kept;
      candidates := kept;
      generation := generation + 1;
      return None;
    }

    /** The first `limit` candidates. `shown` counts one more than it shows when some are left out. */
    method SearchResults(limit: int) returns (results: seq<Candidate>, shown: nat, total: nat)
      ensures total == |candidates|
      ensures results == candidates[..if total < ListLimit(limit) then total else ListLimit(limit)]
      ensures shown == Shown(total, limit)
    {
      var most := ToInt32(limit);
      if most < 1 || most > 1000 { most := 50; }
      results := [];
      var n := 0;
      for i := 0 to |candidates|
        invariant n == i && i <= most && results == candidates[..i]
      {
        if n >= most {
          n := n + 1;
          return results, n, |candidates|;
        }
        n := n + 1;
        results := results + [candidates[i]];
      }
      return results, n, |candidates|;
    }

    method SearchReset()
      modifies this
      ensures candidates == [] && generation == 0 && width == old(width)
    {
      candidates, generation := [], 0;
    }
  }

  lemma Push<T>(xs: seq<T>, x: T, rest: seq<T>)
    ensures xs + ([x] + rest) == xs + [x] + rest
  {
  }

  lemma SelectAll(t: Target, want: string, maps: seq<MemoryInfo>)
    ensures maps[0..] == maps && SelectRegions(t, want, maps[|maps|..]) == []
    ensures [] + SelectRegions(t, want, maps) == SelectRegions(t, want, maps)
    ensures forall regions: seq<Region> :: regions + [] == regions
  {
  }

  lemma SelectCons(t: Target, want: string, maps: seq<MemoryInfo>, i: nat, done: seq<Region>)
    requires i < |maps|
    ensures done + SelectRegions(t, want, maps[i..])
            == (if Selected(t, want, maps[i]) then done + [Region(maps[i].addr, maps[i].size)] else done)
               + SelectRegions(t, want, maps[i + 1..])
    ensures Selected(t, want, maps[i])
            <==> ScannableRegion(maps[i]) && !(want == "heap" && !Inside(maps[i], t.heap))
                 && !(want == "main" && !Inside(maps[i], t.main))
  {
    hide Inside, ScannableRegion;
    assert Selected(t, want, maps[i])
      <==> ScannableRegion(maps[i]) && !(want == "heap" && !Inside(maps[i], t.heap))
           && !(want == "main" && !Inside(maps[i], t.main));
    hide Selected;
    assert maps[i..][1..] == maps[i + 1..];
  }

  lemma ScanStarts(mem: Memory, regions: seq<Region>, width: nat, want: nat, budget: nat)
    requires width > 0
    ensures FirstScan(mem, regions, width, want, budget)
            == ScanChunks(mem, Scan([], 0, false, false), AllChunks(regions[0..]), width, want, budget)
  {
    hide ScanChunks, AllChunks;
    assert regions[0..] == regions;
  }

  lemma ScanEnds(mem: Memory, st: Scan, regions: seq<Region>, width: nat, want: nat, budget: nat)
    requires width > 0
    ensures ScanChunks(mem, st, AllChunks(regions[|regions|..]), width, want, budget) == st
  {
  }

  lemma NextRegion(regions: seq<Region>, k: nat)
    requires k < |regions|
    ensures AllChunks(regions[k..]) == ChunksFrom(regions[k], 0) + AllChunks(regions[k + 1..])
  {
    hide ChunksFrom;
    assert regions[k..][1..] == regions[k + 1..];
  }

  lemma LastChunk(r: Region, off: nat, later: seq<Chunk>)
    requires off >= r.size
    ensures ChunksFrom(r, off) + later == later
  {
  }

  /** One turn of the inner scan loop. */
  lemma NextChunk(mem: Memory, st: Scan, r: Region, off: nat, later: seq<Chunk>, width: nat, want: nat, budget: nat)
    requires width > 0 && off < r.size
    ensures var c := Chunk(r.base + off, if r.size - off < SCAN_CHUNK then r.size - off else SCAN_CHUNK);
            && ScanChunks(mem, st, ChunksFrom(r, off) + later, width, want, budget)
               == ScanChunks(mem, ScanChunk(mem, st, c, width, want, budget),
                             ChunksFrom(r, off + SCAN_CHUNK) + later, width, want, budget)
            && ScanChunk(mem, st, c, width, want, budget)
               == if st.truncated || st.budgetHit then st
                  else if st.scanned >= budget then st.(budgetHit := true)
                  else if !CanRead(mem, c.addr, c.len) then st
                  else Collect(st.(scanned := st.scanned + c.len), ChunkHits(mem, c, width, want, 0))
  {
    hide ChunkHits, Collect;
    var c := Chunk(r.base + off, if r.size - off < SCAN_CHUNK then r.size - off else SCAN_CHUNK);
    var cs := ChunksFrom(r, off) + later;
    assert cs[0] == c && cs[1..] == ChunksFrom(r, off + SCAN_CHUNK) + later;
    hide ChunksFrom, ScanChunk;
  }

  /** How many octets were read does not bear on what is collected. */
  lemma CountAside(st: Scan, hits: seq<Candidate>, n: nat)
    ensures Collect(st.(scanned := n), hits) == Collect(st, hits).(scanned := n)
  {
  }

  /** Once the cap or the budget stopped a scan, the remaining chunks change nothing. */
  lemma {:induction false} Stopped(mem: Memory, st: Scan, cs: seq<Chunk>, width: nat, want: nat, budget: nat)
    requires width > 0 && (st.truncated || st.budgetHit)
    ensures ScanChunks(mem, st, cs, width, want, budget) == st
  {
    if cs != [] { Stopped(mem, st, cs[1..], width, want, budget); }
  }
}
