/** What the narrowing search promises: which addresses a first scan finds, and which of them are
    left after any number of narrowing steps. */
module MemSearchProofs {
  import opened Options
  import opened Memory
  import opened MemSearch

  // ------------------------------------------------------------------- caps and budgets

  /** All hits in the readable ones of some chunks, without any cap. */
  function HitsOf(mem: Memory, cs: seq<Chunk>, width: nat, want: nat): seq<Candidate>
    requires width > 0
  {
    if cs == [] then []
    else (if CanRead(mem, cs[0].addr, cs[0].len) then ChunkHits(mem, cs[0], width, want, 0) else [])
         + HitsOf(mem, cs[1..], width, want)
  }

  function ReadableBytes(mem: Memory, cs: seq<Chunk>): nat {
    if cs == [] then 0
    else (if CanRead(mem, cs[0].addr, cs[0].len) then cs[0].len else 0) + ReadableBytes(mem, cs[1..])
  }

  function Capped(hits: seq<Candidate>): seq<Candidate> {
    if |hits| > MAX_CANDIDATES then hits[..MAX_CANDIDATES] else hits
  }

  /** The scan went over exactly the first `n` of the chunks `cs`, from the state `st`. */
  ghost predicate Covers(mem: Memory, st: Scan, cs: seq<Chunk>, width: nat, want: nat, budget: nat, n: nat, r: Scan)
    requires width > 0
  {
    && n <= |cs|
    && r.found == Capped(st.found + HitsOf(mem, cs[..n], width, want))
    && r.scanned == st.scanned + ReadableBytes(mem, cs[..n])
    && (r.truncated <==> |st.found + HitsOf(mem, cs[..n], width, want)| > MAX_CANDIDATES)
    && (r.truncated ==> n > 0 && |st.found + HitsOf(mem, cs[..n - 1], width, want)| <= MAX_CANDIDATES)
    && (r.budgetHit <==> !r.truncated && n < |cs|)
    && (r.budgetHit ==> r.scanned >= budget)
  }

  lemma {:induction false} ScanCovers(mem: Memory, st: Scan, cs: seq<Chunk>, width: nat, want: nat, budget: nat)
    returns (n: nat)
    requires width > 0 && !st.truncated && !st.budgetHit && |st.found| <= MAX_CANDIDATES
    ensures Covers(mem, st, cs, width, want, budget, n, ScanChunks(mem, st, cs, width, want, budget))
    decreases cs
  {
    if cs == [] {
      n := 0;
      assert st.found + [] == st.found;
    } else if st.scanned >= budget {
      n := 0;
      Stopped(mem, st.(budgetHit := true), cs[1..], width, want, budget);
      assert st.found + [] == st.found;
    } else {
      var next := ScanChunk(mem, st, cs[0], width, want, budget);
      if next.truncated {
        n := 1;
        Stopped(mem, next, cs[1..], width, want, budget);
        OneChunk(mem, st, cs, width, want, budget);
      } else {
        var m := ScanCovers(mem, next, cs[1..], width, want, budget);
        n := m + 1;
        CoversMore(mem, st, cs, width, want, budget, m);
      }
    }
  }

  lemma OneChunk(mem: Memory, st: Scan, cs: seq<Chunk>, width: nat, want: nat, budget: nat)
    requires width > 0 && cs != [] && !st.truncated && !st.budgetHit && |st.found| <= MAX_CANDIDATES
    requires ScanChunk(mem, st, cs[0], width, want, budget).truncated
    ensures Covers(mem, st, cs, width, want, budget, 1, ScanChunk(mem, st, cs[0], width, want, budget))
  {
    hide ChunkHits;
    var hits := ChunkHits(mem, cs[0], width, want, 0);
    assert cs[..1][1..] == [] && cs[..0] == [];
    assert hits + [] == hits && st.found + [] == st.found;
    assert HitsOf(mem, cs[..1], width, want) == hits;
    assert HitsOf(mem, cs[..1 - 1], width, want) == [];
    assert ReadableBytes(mem, cs[..1]) == cs[0].len;
  }

  lemma CoversMore(mem: Memory, st: Scan, cs: seq<Chunk>, width: nat, want: nat, budget: nat, m: nat)
    requires width > 0 && cs != [] && !st.truncated && !st.budgetHit && st.scanned < budget
    requires var next := ScanChunk(mem, st, cs[0], width, want, budget);
             && !next.truncated
             && Covers(mem, next, cs[1..], width, want, budget, m, ScanChunks(mem, next, cs[1..], width, want, budget))
    ensures Covers(mem, st, cs, width, want, budget, m + 1, ScanChunks(mem, st, cs, width, want, budget))
  {
    NextFacts(mem, st, cs[0], width, want, budget);
    HitsCons(mem, st.found, cs, width, want, m + 1);
    if m > 0 { HitsCons(mem, st.found, cs, width, want, m); } else { NoHitsYet(mem, st.found, cs, width, want); }
    assert ScanChunks(mem, st, cs, width, want, budget)
        == ScanChunks(mem, ScanChunk(mem, st, cs[0], width, want, budget), cs[1..], width, want, budget);
    hide ChunkHits, Capped, HitsOf, ReadableBytes, ScanChunks, ScanChunk;
  }

  lemma NoHitsYet(mem: Memory, found: seq<Candidate>, cs: seq<Chunk>, width: nat, want: nat)
    requires width > 0
    ensures found + HitsOf(mem, cs[..0], width, want) == found
  {
  }

  lemma NextFacts(mem: Memory, st: Scan, c: Chunk, width: nat, want: nat, budget: nat)
    requires width > 0 && !st.truncated && !st.budgetHit && st.scanned < budget
    ensures var next := ScanChunk(mem, st, c, width, want, budget);
            var first := if CanRead(mem, c.addr, c.len) then ChunkHits(mem, c, width, want, 0) else [];
            !next.truncated ==> next.found == st.found + first && !next.budgetHit
                                && |st.found| <= |next.found| && (CanRead(mem, c.addr, c.len) ==> |next.found| <= MAX_CANDIDATES)
                                && next.scanned == st.scanned + if CanRead(mem, c.addr, c.len) then c.len else 0
  {
    hide ChunkHits;
  }

  lemma HitsCons(mem: Memory, found: seq<Candidate>, cs: seq<Chunk>, width: nat, want: nat, n: nat)
    requires width > 0 && 0 < n <= |cs|
    ensures var first := if CanRead(mem, cs[0].addr, cs[0].len) then ChunkHits(mem, cs[0], width, want, 0) else [];
            found + HitsOf(mem, cs[..n], width, want) == (found + first) + HitsOf(mem, cs[1..][..n - 1], width, want)
            && (first == [] ==> found + first == found)
    ensures ReadableBytes(mem, cs[..n])
            == (if CanRead(mem, cs[0].addr, cs[0].len) then cs[0].len else 0) + ReadableBytes(mem, cs[1..][..n - 1])
  {
    hide ChunkHits;
    assert cs[..n][0] == cs[0] && cs[..n][1..] == cs[1..][..n - 1];
  }

  /** What a first scan finds. It goes over the first `n` chunks and no further; the candidates are
      the first 32768 hits in those; `truncated` is set exactly when there is a hit more, which is
      then in the last of them; it never reads more than 65535 octets past the budget; and when
      neither flag is set every chunk was gone over. */
  lemma FirstScanFinds(mem: Memory, regions: seq<Region>, width: nat, want: nat, budget: nat) returns (n: nat)
    requires width > 0
    ensures var r := FirstScan(mem, regions, width, want, budget);
            var cs := AllChunks(regions);
            && n <= |cs|
            && r.found == Capped(HitsOf(mem, cs[..n], width, want))
            && (r.truncated <==> |HitsOf(mem, cs[..n], width, want)| > 32768)
            && (r.truncated ==> n > 0 && |HitsOf(mem, cs[..n - 1], width, want)| <= 32768)
            && r.scanned == ReadableBytes(mem, cs[..n])
            && r.scanned <= budget + 65535
            && (r.budgetHit <==> !r.truncated && n < |cs|)
            && (r.budgetHit ==> r.scanned >= budget)
            && (!r.truncated && !r.budgetHit ==> n == |cs|)
  {
    var cs := AllChunks(regions);
    n := ScanCovers(mem, NOTHING_FOUND, cs, width, want, budget);
    assert [] + HitsOf(mem, cs[..n], width, want) == HitsOf(mem, cs[..n], width, want);
    if n > 0 { assert [] + HitsOf(mem, cs[..n - 1], width, want) == HitsOf(mem, cs[..n - 1], width, want); }
    ChunksSmall(regions);
    ScannedBound(mem, NOTHING_FOUND, cs, width, want, budget);
  }

  lemma {:induction false} ChunksSmall(regions: seq<Region>)
    ensures forall c :: c in AllChunks(regions) ==> c.len <= SCAN_CHUNK
  {
    if regions != [] {
      ChunksOfSmall(regions[0], 0);
      ChunksSmall(regions[1..]);
    }
  }

  lemma {:induction false} ChunksOfSmall(r: Region, off: nat)
    ensures forall c :: c in ChunksFrom(r, off) ==> c.len <= SCAN_CHUNK
    decreases if off < r.size then r.size - off else 0
  {
    if off < r.size { ChunksOfSmall(r, off + SCAN_CHUNK); }
  }

  lemma {:induction false} ScannedBound(mem: Memory, st: Scan, cs: seq<Chunk>, width: nat, want: nat, budget: nat)
    requires width > 0 && forall c :: c in cs ==> c.len <= SCAN_CHUNK
    requires st.scanned <= (if budget == 0 then 0 else budget + SCAN_CHUNK - 1)
    ensures ScanChunks(mem, st, cs, width, want, budget).scanned <= if budget == 0 then 0 else budget + SCAN_CHUNK - 1
    decreases cs
  {
    if cs != [] {
      assert cs[0] in cs;
      ScannedBound(mem, ScanChunk(mem, st, cs[0], width, want, budget), cs[1..], width, want, budget);
    }
  }

  // ------------------------------------------------------- chunks do not lose or shift hits

  predicate Multiple(i: nat, width: nat) {
    width > 0 && i % width == 0
  }

  /** The chunk that covers offset `off` of a region. */
  function ChunkAt(r: Region, off: nat): Chunk
    requires off < r.size
  {
    var start := off - off % SCAN_CHUNK;
    Chunk(r.base + start, if r.size - start < SCAN_CHUNK then r.size - start else SCAN_CHUNK)
  }

  /** One walk over the whole region in steps of `width`, where the covering chunk is readable. */
  function StrideHits(mem: Memory, r: Region, width: nat, want: nat, off: nat): seq<Candidate>
    requires width > 0
    decreases if off < r.size then r.size - off else 0
  {
    if off + width > r.size then []
    else (if CanRead(mem, ChunkAt(r, off).addr, ChunkAt(r, off).len)
             && Load(Read(mem, r.base + off, width)) == want
          then [Candidate(r.base + off, want)] else [])
         + StrideHits(mem, r, width, want, off + width)
  }

  /** From offset `i` of the chunk at `off` on, the walk finds what the chunk scan finds, then what
      comes after the chunk. */
  lemma {:induction false} StrideChunk(mem: Memory, r: Region, width: nat, want: nat, off: nat, i: nat)
    requires ValidWidth(width) && off < r.size && Multiple(off, SCAN_CHUNK)
    requires Multiple(i, width) && i <= ChunkAt(r, off).len
    ensures var c := ChunkAt(r, off);
            StrideHits(mem, r, width, want, off + i)
            == (if CanRead(mem, c.addr, c.len) then ChunkHits(mem, c, width, want, i) else [])
               + StrideHits(mem, r, width, want, off + SCAN_CHUNK)
    decreases ChunkAt(r, off).len - i
  {
    assert width > 0;
    hide ChunkHits, StrideHits, Load, Read, Multiple, ValidWidth, ChunkAt, CanRead;
    var c := ChunkAt(r, off);
    if i + width > c.len {
      StrideEnd(mem, r, width, want, off, i);
    } else {
      NextMultiple(i, width);
      StrideChunk(mem, r, width, want, off, i + width);
      StrideThrough(mem, r, width, want, off, i);
    }
  }

  lemma StrideThrough(mem: Memory, r: Region, width: nat, want: nat, off: nat, i: nat)
    requires ValidWidth(width) && off < r.size && Multiple(off, SCAN_CHUNK) && i + width <= ChunkAt(r, off).len
    requires var c := ChunkAt(r, off);
             StrideHits(mem, r, width, want, off + (i + width))
             == (if CanRead(mem, c.addr, c.len) then ChunkHits(mem, c, width, want, i + width) else [])
                + StrideHits(mem, r, width, want, off + SCAN_CHUNK)
    ensures var c := ChunkAt(r, off);
            StrideHits(mem, r, width, want, off + i)
            == (if CanRead(mem, c.addr, c.len) then ChunkHits(mem, c, width, want, i) else [])
               + StrideHits(mem, r, width, want, off + SCAN_CHUNK)
  {
    hide ChunkHits, StrideHits, Load, Read, ChunkAt, CanRead;
    var c := ChunkAt(r, off);
    StrideStep(mem, r, width, want, off, i);
    var hit := if Load(Read(mem, c.addr + i, width)) == want then [Candidate(c.addr + i, want)] else [];
    Splice(CanRead(mem, c.addr, c.len), hit, ChunkHits(mem, c, width, want, i + width),
           StrideHits(mem, r, width, want, off + SCAN_CHUNK));
  }

  lemma Splice<T>(on: bool, hit: seq<T>, more: seq<T>, tail: seq<T>)
    ensures (if on then hit else []) + ((if on then more else []) + tail) == (if on then hit + more else []) + tail
  {
  }

  /** No step of the walk starts in what a chunk leaves over. */
  lemma StrideEnd(mem: Memory, r: Region, width: nat, want: nat, off: nat, i: nat)
    requires ValidWidth(width) && off < r.size && Multiple(off, SCAN_CHUNK)
    requires Multiple(i, width) && i <= ChunkAt(r, off).len < i + width
    ensures var c := ChunkAt(r, off);
            StrideHits(mem, r, width, want, off + i)
            == (if CanRead(mem, c.addr, c.len) then ChunkHits(mem, c, width, want, i) else [])
               + StrideHits(mem, r, width, want, off + SCAN_CHUNK)
  {
    hide Load, Read, Multiple, CanRead;
    assert ChunkHits(mem, ChunkAt(r, off), width, want, i) == [];
    if ChunkAt(r, off).len == SCAN_CHUNK {
      ChunkMultiple(width);
      Multiples(i, SCAN_CHUNK, width);
    }
  }

  lemma ChunkMultiple(width: nat)
    requires ValidWidth(width)
    ensures Multiple(SCAN_CHUNK, width)
  {
  }

  lemma StrideStep(mem: Memory, r: Region, width: nat, want: nat, off: nat, i: nat)
    requires ValidWidth(width) && off < r.size && Multiple(off, SCAN_CHUNK) && i + width <= ChunkAt(r, off).len
    ensures var c := ChunkAt(r, off);
            var hit := if Load(Read(mem, c.addr + i, width)) == want then [Candidate(c.addr + i, want)] else [];
            && StrideHits(mem, r, width, want, off + i)
               == (if CanRead(mem, c.addr, c.len) then hit else []) + StrideHits(mem, r, width, want, off + (i + width))
            && ChunkHits(mem, c, width, want, i) == hit + ChunkHits(mem, c, width, want, i + width)
  {
    hide Load, Read, CanRead;
    assert ChunkAt(r, off + i) == ChunkAt(r, off);
  }

  lemma NextMultiple(i: nat, width: nat)
    requires ValidWidth(width) && Multiple(i, width)
    ensures Multiple(i + width, width)
  {
  }

  /** A multiple of the width that is less than one width below another is that other. */
  lemma Multiples(i: nat, n: nat, width: nat)
    requires ValidWidth(width) && Multiple(i, width) && Multiple(n, width) && i <= n < i + width
    ensures i == n
  {
  }

  lemma {:induction false} StrideFrom(mem: Memory, r: Region, width: nat, want: nat, off: nat)
    requires ValidWidth(width) && Multiple(off, SCAN_CHUNK)
    ensures HitsOf(mem, ChunksFrom(r, off), width, want) == StrideHits(mem, r, width, want, off)
    decreases if off < r.size then r.size - off else 0
  {
    assert width > 0;
    if off < r.size {
      NextStart(off, width);
      hide ChunkHits, StrideHits, Multiple, ValidWidth, ChunksFrom, HitsOf, ChunkAt, CanRead;
      StrideChunk(mem, r, width, want, off, 0);
      StrideFrom(mem, r, width, want, off + SCAN_CHUNK);
      ChunkThenHits(mem, r, width, want, off);
    } else {
      NothingAfter(mem, r, width, want, off);
    }
  }

  lemma NextStart(off: nat, width: nat)
    requires width > 0 && Multiple(off, SCAN_CHUNK)
    ensures Multiple(off + SCAN_CHUNK, SCAN_CHUNK) && Multiple(0, width)
  {
  }

  lemma NothingAfter(mem: Memory, r: Region, width: nat, want: nat, off: nat)
    requires width > 0 && off >= r.size
    ensures HitsOf(mem, ChunksFrom(r, off), width, want) == [] == StrideHits(mem, r, width, want, off)
  {
  }

  lemma ChunkThenHits(mem: Memory, r: Region, width: nat, want: nat, off: nat)
    requires width > 0 && off < r.size && Multiple(off, SCAN_CHUNK)
    ensures var c := ChunkAt(r, off);
            HitsOf(mem, ChunksFrom(r, off), width, want)
            == (if CanRead(mem, c.addr, c.len) then ChunkHits(mem, c, width, want, 0) else [])
               + HitsOf(mem, ChunksFrom(r, off + SCAN_CHUNK), width, want)
  {
    hide ChunkHits, CanRead;
    assert ChunksFrom(r, off)[0] == ChunkAt(r, off);
    assert ChunksFrom(r, off)[1..] == ChunksFrom(r, off + SCAN_CHUNK);
  }

  /** A width-aligned address of the region, at offset `off` or later, in a readable chunk, that holds
      the value. */
  predicate HoldsAt(mem: Memory, r: Region, width: nat, want: nat, off: nat, a: nat)
    requires width > 0
  {
    && r.base + off <= a && a + width <= r.base + r.size && Multiple(a - r.base, width)
    && CanRead(mem, ChunkAt(r, a - r.base).addr, ChunkAt(r, a - r.base).len)
    && Load(Read(mem, a, width)) == want
  }

  ghost predicate ExactHits(hits: seq<Candidate>, mem: Memory, r: Region, width: nat, want: nat, off: nat)
    requires width > 0
  {
    Rising(hits) && forall c :: c in hits <==> c.value == want && HoldsAt(mem, r, width, want, off, c.addr)
  }

  predicate Rising(hits: seq<Candidate>) {
    forall i, j :: 0 <= i < j < |hits| ==> hits[i].addr < hits[j].addr
  }

  lemma RisingCons(c: Candidate, rest: seq<Candidate>)
    requires Rising(rest) && forall d :: d in rest ==> c.addr < d.addr
    ensures Rising([c] + rest)
  {
    forall i, j | 0 <= i < j < |[c] + rest| ensures ([c] + rest)[i].addr < ([c] + rest)[j].addr {
      if i == 0 { assert rest[j - 1] in rest; }
    }
  }

  lemma InCons(c: Candidate, rest: seq<Candidate>, d: Candidate)
    ensures d in [c] + rest <==> d == c || d in rest
  {
  }

  /** The walk over a region finds exactly the aligned addresses in readable chunks that hold the value,
      in ascending order. */
  lemma {:induction false} StrideHitsExactly(mem: Memory, r: Region, width: nat, want: nat, off: nat)
    requires ValidWidth(width) && Multiple(off, width)
    ensures ExactHits(StrideHits(mem, r, width, want, off), mem, r, width, want, off)
    decreases if off < r.size then r.size - off else 0
  {
    hide Load, Read, CanRead, Multiple, ValidWidth, ChunkAt, HoldsAt, StrideHits;
    Positive(width);
    StrideTurn(mem, r, width, want, off);
    if off + width <= r.size {
      NextMultiple(off, width);
      StrideHitsExactly(mem, r, width, want, off + width);
      HeadHit(StrideHits(mem, r, width, want, off + width), mem, r, width, want, off);
    }
  }

  /** One turn of the walk; nothing holds the value where no turn is left. */
  lemma StrideTurn(mem: Memory, r: Region, width: nat, want: nat, off: nat)
    requires ValidWidth(width) && Multiple(off, width)
    ensures off + width > r.size ==> ExactHits(StrideHits(mem, r, width, want, off), mem, r, width, want, off)
    ensures off + width <= r.size ==>
      var rest := StrideHits(mem, r, width, want, off + width);
      StrideHits(mem, r, width, want, off)
      == if HoldsAt(mem, r, width, want, off, r.base + off) then [Candidate(r.base + off, want)] + rest else rest
  {
    hide Load, Read, CanRead, Multiple;
    if off + width <= r.size {
      var rest := StrideHits(mem, r, width, want, off + width);
      assert [] + rest == rest;
    }
  }

  lemma HoldsFrom(mem: Memory, r: Region, width: nat, want: nat, off: nat, a: nat)
    requires ValidWidth(width) && Multiple(off, width)
    ensures HoldsAt(mem, r, width, want, off, a)
            <==> (a == r.base + off && HoldsAt(mem, r, width, want, off, a)) || HoldsAt(mem, r, width, want, off + width, a)
  {
    hide Load, Read, CanRead, ChunkAt;
    if HoldsAt(mem, r, width, want, off, a) && a != r.base + off { StepsOn(off, a - r.base, width); }
  }

  /** Two multiples of the width are at least one width apart. */
  lemma StepsOn(i: nat, n: nat, width: nat)
    requires ValidWidth(width) && Multiple(i, width) && Multiple(n, width) && i < n
    ensures i + width <= n
  {
  }

  lemma HeadHit(rest: seq<Candidate>, mem: Memory, r: Region, width: nat, want: nat, off: nat)
    requires ValidWidth(width) && Multiple(off, width) && ExactHits(rest, mem, r, width, want, off + width)
    ensures var all := if HoldsAt(mem, r, width, want, off, r.base + off) then [Candidate(r.base + off, want)] + rest else rest;
            ExactHits(all, mem, r, width, want, off)
  {
    hide HoldsAt, Multiple, ValidWidth, Rising;
    Positive(width);
    var head := Candidate(r.base + off, want);
    forall d | d in rest ensures head.addr < d.addr {
      HoldsBehind(mem, r, width, want, off + width, d.addr);
    }
    RisingCons(head, rest);
    forall d: Candidate
      ensures d in rest ==> d != head
      ensures d in [head] + rest <==> d == head || d in rest
      ensures d.value == want && HoldsAt(mem, r, width, want, off, d.addr)
              <==> d in rest || (d == head && HoldsAt(mem, r, width, want, off, head.addr))
    {
      InCons(head, rest, d);
      HoldsFrom(mem, r, width, want, off, d.addr);
    }
  }

  lemma Positive(width: nat)
    requires ValidWidth(width)
    ensures width > 0
  {
  }

  lemma HoldsBehind(mem: Memory, r: Region, width: nat, want: nat, off: nat, a: nat)
    requires width > 0
    ensures HoldsAt(mem, r, width, want, off, a) ==> r.base + off <= a
  {
    hide Load, Read, CanRead, Multiple, ChunkAt;
  }

  /** Every region walked in one go, one after another. */
  function StrideAll(mem: Memory, regions: seq<Region>, width: nat, want: nat): seq<Candidate>
    requires width > 0
  {
    if regions == [] then []
    else StrideHits(mem, regions[0], width, want, 0) + StrideAll(mem, regions[1..], width, want)
  }

  /** The chunked scan sees what one walk in steps of the width sees, for every region size: no hit
      is lost, doubled or shifted at a chunk boundary. */
  lemma {:induction false} ChunkedIsStride(mem: Memory, regions: seq<Region>, width: nat, want: nat)
    requires ValidWidth(width)
    ensures HitsOf(mem, AllChunks(regions), width, want) == StrideAll(mem, regions, width, want)
  {
    if regions != [] {
      StrideFrom(mem, regions[0], width, want, 0);
      ChunkedIsStride(mem, regions[1..], width, want);
      HitsAppend(mem, ChunksFrom(regions[0], 0), AllChunks(regions[1..]), width, want);
    }
  }

  lemma {:induction false} HitsAppend(mem: Memory, xs: seq<Chunk>, ys: seq<Chunk>, width: nat, want: nat)
    requires width > 0
    ensures HitsOf(mem, xs + ys, width, want) == HitsOf(mem, xs, width, want) + HitsOf(mem, ys, width, want)
  {
    hide ChunkHits;
    if xs == [] {
      assert xs + ys == ys;
      assert [] + HitsOf(mem, ys, width, want) == HitsOf(mem, ys, width, want);
    } else {
      assert (xs + ys)[1..] == xs[1..] + ys;
      HitsAppend(mem, xs[1..], ys, width, want);
      var first := if CanRead(mem, xs[0].addr, xs[0].len) then ChunkHits(mem, xs[0], width, want, 0) else [];
      assert first + (HitsOf(mem, xs[1..], width, want) + HitsOf(mem, ys, width, want))
          == first + HitsOf(mem, xs[1..], width, want) + HitsOf(mem, ys, width, want);
    }
  }

  // ------------------------------------------------------------------- the whole history

  /** One successful `search.next`: the memory it saw, its operator and value. */
  datatype Narrowing = Narrowing(mem: Memory, op: string, want: nat)

  function NarrowAll(cs: seq<Candidate>, width: nat, steps: seq<Narrowing>): seq<Candidate> {
    if steps == [] then cs
    else
      var last := steps[|steps| - 1];
      Narrow(last.mem, NarrowAll(cs, width, steps[..|steps| - 1]), width, last.op, last.want)
  }

  /** The value at an address when step `k` looked, or the first scan's value before any step. */
  function SeenBefore(c: Candidate, width: nat, steps: seq<Narrowing>, k: nat): nat
    requires k <= |steps|
  {
    if k == 0 then c.value else Observe(steps[k - 1].mem, c, width)
  }

  /** Readable at every step, and satisfying every operator against the value seen one step before. */
  predicate PassesAll(c: Candidate, width: nat, steps: seq<Narrowing>) {
    forall k :: 0 <= k < |steps| ==>
      && CanRead(steps[k].mem, c.addr, width)
      && Keeps(steps[k].op, Observe(steps[k].mem, c, width), steps[k].want, SeenBefore(c, width, steps, k))
  }

  /** Those of `cs` that pass every step, in order, each with the latest value. */
  function Survivors(cs: seq<Candidate>, width: nat, steps: seq<Narrowing>): seq<Candidate> {
    if cs == [] then []
    else (if PassesAll(cs[0], width, steps)
          then [Candidate(cs[0].addr, SeenBefore(cs[0], width, steps, |steps|))] else [])
         + Survivors(cs[1..], width, steps)
  }

  /** After any number of narrowing steps, against memories that differ from step to step, the
      candidates are exactly the first hits that pass every one of them, in scan order. */
  lemma {:induction false} HistoryDecides(cs: seq<Candidate>, width: nat, steps: seq<Narrowing>)
    ensures NarrowAll(cs, width, steps) == Survivors(cs, width, steps)
    decreases |steps|
  {
    if steps == [] {
      AllSurvive(cs, width);
    } else {
      HistoryDecides(cs, width, steps[..|steps| - 1]);
      NarrowSurvivors(cs, width, steps);
    }
  }

  lemma {:induction false} AllSurvive(cs: seq<Candidate>, width: nat)
    ensures Survivors(cs, width, []) == cs
  {
    if cs != [] { AllSurvive(cs[1..], width); }
  }

  lemma {:induction false} NarrowSurvivors(cs: seq<Candidate>, width: nat, steps: seq<Narrowing>)
    requires steps != []
    ensures var last := steps[|steps| - 1];
            Narrow(last.mem, Survivors(cs, width, steps[..|steps| - 1]), width, last.op, last.want)
            == Survivors(cs, width, steps)
  {
    if cs == [] {
      NobodySurvives(width, steps);
    } else {
      hide Narrow, Survivors;
      NarrowSurvivors(cs[1..], width, steps);
      SurvivorsStep(cs, width, steps[..|steps| - 1]);
      SurvivorsStep(cs, width, steps);
      HeadNarrows(cs[0], Survivors(cs[1..], width, steps[..|steps| - 1]), width, steps);
    }
  }

  lemma NobodySurvives(width: nat, steps: seq<Narrowing>)
    requires steps != []
    ensures Survivors([], width, steps) == [] == Survivors([], width, steps[..|steps| - 1])
    ensures var last := steps[|steps| - 1]; Narrow(last.mem, [], width, last.op, last.want) == []
  {
  }

  /** `c` with its latest value in front of `rest`, if it passes every step. */
  function Ahead(c: Candidate, width: nat, steps: seq<Narrowing>, rest: seq<Candidate>): seq<Candidate> {
    if PassesAll(c, width, steps) then [Candidate(c.addr, SeenBefore(c, width, steps, |steps|))] + rest else rest
  }

  /** The last step narrows a first survivor as `PassesAll` says. */
  lemma HeadNarrows(c: Candidate, rest: seq<Candidate>, width: nat, steps: seq<Narrowing>)
    requires steps != []
    ensures var last := steps[|steps| - 1];
            Narrow(last.mem, Ahead(c, width, steps[..|steps| - 1], rest), width, last.op, last.want)
            == Ahead(c, width, steps, Narrow(last.mem, rest, width, last.op, last.want))
  {
    var n := |steps| - 1;
    var last := steps[n];
    PassesSplit(c, width, steps);
    var before := Candidate(c.addr, SeenBefore(c, width, steps[..n], n));
    SameAddress(last.mem, before, c, width);
    NarrowStep(last.mem, before, rest, width, last.op, last.want);
    hide PassesAll, SeenBefore, Observe, Keeps, Narrow, CanRead;
  }

  lemma SameAddress(mem: Memory, c: Candidate, d: Candidate, width: nat)
    requires c.addr == d.addr
    ensures Observe(mem, c, width) == Observe(mem, d, width)
  {
  }

  lemma SurvivorsStep(cs: seq<Candidate>, width: nat, steps: seq<Narrowing>)
    requires cs != []
    ensures Survivors(cs, width, steps) == Ahead(cs[0], width, steps, Survivors(cs[1..], width, steps))
  {
    hide PassesAll, SeenBefore;
    assert [] + Survivors(cs[1..], width, steps) == Survivors(cs[1..], width, steps);
  }

  lemma NarrowStep(mem: Memory, c: Candidate, rest: seq<Candidate>, width: nat, op: string, want: nat)
    ensures var now := Observe(mem, c, width);
            Narrow(mem, [c] + rest, width, op, want)
            == if CanRead(mem, c.addr, width) && Keeps(op, now, want, c.value)
               then [Candidate(c.addr, now)] + Narrow(mem, rest, width, op, want) else Narrow(mem, rest, width, op, want)
  {
    hide Keeps, Observe;
    assert ([c] + rest)[1..] == rest;
    assert [] + Narrow(mem, rest, width, op, want) == Narrow(mem, rest, width, op, want);
  }

  lemma PassesSplit(c: Candidate, width: nat, steps: seq<Narrowing>)
    requires steps != []
    ensures var n := |steps| - 1;
            && (PassesAll(c, width, steps) <==>
                 PassesAll(c, width, steps[..n]) && CanRead(steps[n].mem, c.addr, width)
                 && Keeps(steps[n].op, Observe(steps[n].mem, c, width), steps[n].want, SeenBefore(c, width, steps[..n], n)))
            && SeenBefore(c, width, steps, n + 1) == Observe(steps[n].mem, c, width)
  {
    hide Keeps, Load, Read;
    var n := |steps| - 1;
    var init := steps[..n];
    assert forall k :: 0 <= k <= n ==> SeenBefore(c, width, steps, k) == SeenBefore(c, width, init, k);
    assert forall k :: 0 <= k < n ==> steps[k] == init[k];
  }

  /** From the first scan to the last step: when the scan was neither cut off nor out of budget, the
      candidates are exactly the width-aligned addresses of the regions that held the value, and
      since passed every step. */
  lemma SearchHistory(mem: Memory, regions: seq<Region>, width: nat, want: nat, budget: nat, steps: seq<Narrowing>)
    requires ValidWidth(width)
    requires var r := FirstScan(mem, regions, width, want, budget); !r.truncated && !r.budgetHit
    ensures NarrowAll(FirstScan(mem, regions, width, want, budget).found, width, steps)
            == Survivors(StrideAll(mem, regions, width, want), width, steps)
  {
    var n := FirstScanFinds(mem, regions, width, want, budget);
    assert AllChunks(regions)[..n] == AllChunks(regions);
    ChunkedIsStride(mem, regions, width, want);
    HistoryDecides(FirstScan(mem, regions, width, want, budget).found, width, steps);
  }

  // ----------------------------------------------------------- where promises are not kept

  /** A step with an unknown operator that is not refused leaves no candidate. */
  lemma {:induction false} UnknownOperator(mem: Memory, cs: seq<Candidate>, width: nat, op: string, want: nat)
    requires !ValidOp(op)
    ensures Narrow(mem, cs, width, op, want) == []
  {
    if cs != [] { UnknownOperator(mem, cs[1..], width, op, want); }
  }

  /** In an active search an unknown operator is refused exactly when some candidate can be read;
      otherwise the step succeeds and eliminates every candidate. */
  lemma UnknownOperatorExactly(mem: Memory, cs: seq<Candidate>, width: nat, req: NextRequest)
    requires !ValidOp(req.op) && cs != []
    ensures NextError(mem, cs, width, true, req).Some?
            <==> exists i :: 0 <= i < |cs| && CanRead(mem, cs[i].addr, width)
    ensures NextError(mem, cs, width, true, req).None? ==> Narrow(mem, cs, width, req.op, Wanted(req)) == []
  {
    UnknownOperator(mem, cs, width, req.op, Wanted(req));
  }

  const UNREADABLE := Memory((addr, n) => false, addr => 0)

  /** With one candidate that cannot be read, "bogus" is taken for an operator and the search is lost. */
  lemma UnknownOperatorAccepted()
    ensures var req := NextRequest("bogus", None); var cs := [Candidate(0, 0)];
            NextError(UNREADABLE, cs, 4, true, req).None? && Narrow(UNREADABLE, cs, 4, req.op, Wanted(req)) == []
  {
    assert !ValidOp("bogus");
    UnknownOperatorExactly(UNREADABLE, [Candidate(0, 0)], 4, NextRequest("bogus", None));
  }

  /** `shown` is the number of candidates listed exactly when none is left out. */
  lemma ShownExactly(candidates: seq<Candidate>, limit: int)
    ensures var total := |candidates|;
            var results := candidates[..if total < ListLimit(limit) then total else ListLimit(limit)];
            Shown(total, limit) == |results| <==> total <= ListLimit(limit)
  {
  }

  /** Of 51 candidates 50 are listed by default, and 51 said to be shown. */
  lemma ShownOneTooMany()
    ensures ListLimit(0) == 50 && Shown(51, 0) == 51
  {
  }

  /** A value too large for the width is never found: the scan compares it with what fits. */
  lemma {:induction false} TooLargeInChunk(mem: Memory, c: Chunk, width: nat, want: nat, i: nat)
    requires width > 0 && want >= Pow256(width)
    ensures ChunkHits(mem, c, width, want, i) == []
    decreases if i < c.len then c.len - i else 0
  {
    hide Load, Read, Pow256;
    if i + width <= c.len {
      LoadBound(Read(mem, c.addr + i, width));
      TooLargeInChunk(mem, c, width, want, i + width);
    }
  }

  lemma {:induction false} TooLargeNeverFound(mem: Memory, cs: seq<Chunk>, width: nat, want: nat)
    requires width > 0 && want >= Pow256(width)
    ensures HitsOf(mem, cs, width, want) == []
  {
    hide ChunkHits, Pow256;
    if cs != [] {
      TooLargeInChunk(mem, cs[0], width, want, 0);
      TooLargeNeverFound(mem, cs[1..], width, want);
    }
  }

  /** So a search for a negative value finds nothing unless the width is 8, whatever is in memory: the
      value is taken as a u64, the memory as `width` octets without a sign. */
  lemma NegativeNeverFound(mem: Memory, regions: seq<Region>, width: nat, value: int, budget: nat)
    requires ValidWidth(width) && width < 8 && -0x8000_0000_0000_0000 <= value < 0
    ensures FirstScan(mem, regions, width, ToU64(value), budget).found == []
  {
    assert ToU64(value) >= 0x8000_0000_0000_0000;
    assert Pow256(2) == 65536 && Pow256(4) == 256 * Pow256(3) && Pow256(3) == 256 * Pow256(2);
    hide Pow256, FirstScan, HitsOf;
    var n := FirstScanFinds(mem, regions, width, ToU64(value), budget);
    TooLargeNeverFound(mem, AllChunks(regions)[..n], width, ToU64(value));
  }

  const TWO_TO_THE_64 := 0x1_0000_0000_0000_0000

  /** The chunk cursor after `n` turns, as a u64. */
  function Cursor(n: nat): nat {
    n * SCAN_CHUNK % TWO_TO_THE_64
  }

  /** The cursor of the first scan ever reaches the end of a region exactly when the region is not within
      65535 octets of 2^64; in a larger one the loop goes round unless cap or budget stop it. */
  lemma CursorEndsExactly(size: nat)
    ensures (exists n: nat :: Cursor(n) >= size) <==> size + 65536 <= TWO_TO_THE_64
  {
    if size + SCAN_CHUNK <= TWO_TO_THE_64 {
      assert Cursor(0xFFFF_FFFF_FFFF) >= size;
    }
    forall n: nat ensures Cursor(n) + SCAN_CHUNK <= TWO_TO_THE_64 { }
  }

  // -------------------------------------------------------------- what the operators keep

  /** The candidates that can be read and whose value now and value before meet `test`, with the value now. */
  function KeptBy(mem: Memory, cs: seq<Candidate>, width: nat, test: (nat, nat) -> bool): seq<Candidate> {
    if cs == [] then []
    else
      var now := Load(Read(mem, cs[0].addr, width));
      (if CanRead(mem, cs[0].addr, width) && test(now, cs[0].value) then [Candidate(cs[0].addr, now)] else [])
      + KeptBy(mem, cs[1..], width, test)
  }

  lemma {:induction false} NarrowKeeps(mem: Memory, cs: seq<Candidate>, width: nat, op: string, want: nat, test: (nat, nat) -> bool)
    requires forall now, before :: Keeps(op, now, want, before) == test(now, before)
    ensures Narrow(mem, cs, width, op, want) == KeptBy(mem, cs, width, test)
  {
    hide Keeps, Load, Read;
    if cs != [] { NarrowKeeps(mem, cs[1..], width, op, want, test); }
  }

  /** What each of the eight operators keeps: four compare the value now with the one asked for, four with
      the value seen before. */
  lemma OperatorsKeep(mem: Memory, cs: seq<Candidate>, width: nat, want: nat)
    ensures Narrow(mem, cs, width, "eq", want) == KeptBy(mem, cs, width, (now, before) => now == want)
    ensures Narrow(mem, cs, width, "ne", want) == KeptBy(mem, cs, width, (now, before) => now != want)
    ensures Narrow(mem, cs, width, "gt", want) == KeptBy(mem, cs, width, (now, before) => now > want)
    ensures Narrow(mem, cs, width, "lt", want) == KeptBy(mem, cs, width, (now, before) => now < want)
    ensures Narrow(mem, cs, width, "changed", want) == KeptBy(mem, cs, width, (now, before) => now != before)
    ensures Narrow(mem, cs, width, "unchanged", want) == KeptBy(mem, cs, width, (now, before) => now == before)
    ensures Narrow(mem, cs, width, "increased", want) == KeptBy(mem, cs, width, (now, before) => now > before)
    ensures Narrow(mem, cs, width, "decreased", want) == KeptBy(mem, cs, width, (now, before) => now < before)
  {
    hide Narrow, KeptBy;
    NarrowKeeps(mem, cs, width, "eq", want, (now, before) => now == want);
    NarrowKeeps(mem, cs, width, "ne", want, (now, before) => now != want);
    NarrowKeeps(mem, cs, width, "gt", want, (now, before) => now > want);
    NarrowKeeps(mem, cs, width, "lt", want, (now, before) => now < want);
    NarrowKeeps(mem, cs, width, "changed", want, (now, before) => now != before);
    NarrowKeeps(mem, cs, width, "unchanged", want, (now, before) => now == before);
    NarrowKeeps(mem, cs, width, "increased", want, (now, before) => now > before);
    NarrowKeeps(mem, cs, width, "decreased", want, (now, before) => now < before);
  }

  /** An operator needs a value exactly when its verdict depends on one, and is known exactly when there is
      something that it keeps. */
  lemma OperatorsAre(op: string)
    ensures NeedsValue(op) <==> exists now, before, x, y :: Keeps(op, now, x, before) != Keeps(op, now, y, before)
    ensures ValidOp(op) <==> exists now, before, x :: Keeps(op, now, x, before)
  {
    assert op in {"eq", "gt"} ==> Keeps(op, 1, if op == "eq" then 1 else 0, 0) && !Keeps(op, 1, 2, 0);
    assert op in {"ne", "lt"} ==> Keeps(op, 1, 2, 0) && !Keeps(op, 1, 1, 0);
    assert op in {"changed", "increased"} ==> Keeps(op, 1, 0, 0);
    assert op in {"unchanged", "decreased"} ==> Keeps(op, 1, 0, if op == "unchanged" then 1 else 2);
  }

  // ------------------------------------------------------------------ what is scanned and read

  /** The mappings that `search.begin` scans without explicit extent: readable, writable and of a type that
      holds data, and for a named extent those that start inside it. */
  predicate ScannedMapping(t: Target, want: string, mi: MemoryInfo) {
    && mi.canRead && mi.canWrite && mi.scannableType
    && (want == "heap" ==> t.heap.base <= mi.addr < t.heap.base + t.heap.size)
    && (want == "main" ==> t.main.base <= mi.addr < t.main.base + t.main.size)
  }

  lemma {:induction false} RegionsExactly(t: Target, want: string, maps: seq<MemoryInfo>, r: Region)
    ensures r in SelectRegions(t, want, maps)
            <==> exists i :: 0 <= i < |maps| && ScannedMapping(t, want, maps[i]) && r == Region(maps[i].addr, maps[i].size)
  {
    if maps != [] {
      RegionsExactly(t, want, maps[1..], r);
      SelectedIs(t, want, maps[0]);
      hide Selected, ScannedMapping;
      var rest := SelectRegions(t, want, maps[1..]);
      assert r in SelectRegions(t, want, maps)
        <==> (ScannedMapping(t, want, maps[0]) && r == Region(maps[0].addr, maps[0].size)) || r in rest;
      if r in rest {
        var i :| 0 <= i < |maps| - 1 && ScannedMapping(t, want, maps[1..][i]) && r == Region(maps[1..][i].addr, maps[1..][i].size);
        assert maps[i + 1] == maps[1..][i];
      }
      if i :| 0 <= i < |maps| && ScannedMapping(t, want, maps[i]) && r == Region(maps[i].addr, maps[i].size) {
        if i > 0 { assert maps[1..][i - 1] == maps[i]; }
      }
    }
  }

  lemma SelectedIs(t: Target, want: string, mi: MemoryInfo)
    ensures Selected(t, want, mi) <==> ScannedMapping(t, want, mi)
  {
  }

  /** The widths that the search takes are those up to 8 that divide a chunk. */
  lemma WidthsDivide(width: int)
    ensures ValidWidth(width) <==> 0 < width <= 8 && 65536 % width == 0
  {
    if 0 < width <= 8 {
      assert 65536 % 3 == 1 && 65536 % 5 == 1 && 65536 % 6 == 4 && 65536 % 7 == 2;
      assert 65536 % 1 == 0 && 65536 % 2 == 0 && 65536 % 4 == 0 && 65536 % 8 == 0;
    }
  }
}
