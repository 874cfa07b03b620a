/** Runs of the narrowing search: the handlers of agent/source/handlers/memsearch.cpp called in any order,
    with any requests, against memories that change from call to call. */
module SearchRuns {
  import opened Options
  import opened Memory
  import opened MemSearch
  import opened MemSearchProofs

  /** One call of a handler, with what it meets. */
  datatype Op =
    | Begin(mem: Memory, t: Target, begin: BeginRequest)
    | Next(mem: Memory, attached: bool, next: NextRequest)
    | Results(limit: int)
    | Reset

  /** The search's three variables. */
  datatype Table = Table(candidates: seq<Candidate>, width: nat, generation: nat)

  const FRESH := Table([], 4, 0)

  /** A first scan that was made, and the narrowing steps since. */
  datatype History = History(mem: Memory, regions: seq<Region>, width: nat, want: nat, budget: nat, steps: seq<Narrowing>)

  function ScanOf(h: History): Scan
    requires ValidWidth(h.width)
  {
    FirstScan(h.mem, h.regions, h.width, h.want, h.budget)
  }

  /** The history that a successful `search.begin` starts. */
  function Begun(op: Op): History
    requires op.Begin? && BeginError(op.t, op.begin).None?
  {
    History(op.mem, RegionsFor(op.t, op.begin), ToInt32(op.begin.width), ToU64(op.begin.value), ToU64(op.begin.maxBytes), [])
  }

  /** The table after one call: a call that is refused changes nothing. */
  function Apply(s: Table, op: Op): Table {
    match op
    case Begin(_, t, begin) =>
      if BeginError(t, begin).Some? then s else Table(ScanOf(Begun(op)).found, Begun(op).width, 1)
    case Next(mem, attached, next) =>
      if NextError(mem, s.candidates, s.width, attached, next).Some? then s
      else Table(Narrow(mem, s.candidates, s.width, next.op, Wanted(next)), s.width, s.generation + 1)
    case Results(_) => s
    case Reset => Table([], s.width, 0)
  }

  function Run(ops: seq<Op>): Table {
    if ops == [] then FRESH else Apply(Run(ops[..|ops| - 1]), ops[|ops| - 1])
  }

  /** What the calls amount to: the last `search.begin` that was not refused or undone, and the steps
      since that were not refused. */
  function HistoryOf(ops: seq<Op>): Option<History> {
    if ops == [] then None
    else
      var was := HistoryOf(ops[..|ops| - 1]);
      var s := Run(ops[..|ops| - 1]);
      var op := ops[|ops| - 1];
      match op
      case Begin(_, t, begin) => if BeginError(t, begin).Some? then was else Some(Begun(op))
      case Next(mem, attached, next) =>
        if was.None? || NextError(mem, s.candidates, s.width, attached, next).Some? then was
        else Some(was.value.(steps := was.value.steps + [Narrowing(mem, next.op, Wanted(next))]))
      case Results(_) => was
      case Reset => None
  }

  /** The table says what the history comes to. */
  ghost predicate Tells(s: Table, past: Option<History>) {
    match past
    case None => s.candidates == [] && s.generation == 0
    case Some(h) =>
      && ValidWidth(h.width) && s.width == h.width && s.generation == 1 + |h.steps|
      && s.candidates == NarrowAll(ScanOf(h).found, h.width, h.steps)
  }

  lemma TellsNext(s: Table, past: Option<History>, mem: Memory, next: NextRequest)
    requires Tells(s, past) && past.Some?
    ensures var h := past.value;
            Tells(Table(Narrow(mem, s.candidates, s.width, next.op, Wanted(next)), s.width, s.generation + 1),
                  Some(h.(steps := h.steps + [Narrowing(mem, next.op, Wanted(next))])))
  {
    hide FirstScan, Narrow, Wanted;
    var h := past.value;
    assert (h.steps + [Narrowing(mem, next.op, Wanted(next))])[..|h.steps|] == h.steps;
  }

  /** After any run of calls the table is empty, or holds what the last first scan found, narrowed by every
      step since that was not refused. */
  lemma {:induction false} RunTells(ops: seq<Op>)
    ensures Tells(Run(ops), HistoryOf(ops))
  {
    hide FirstScan, Narrow, Wanted, NarrowAll, BeginError, RegionsFor;
    if ops != [] {
      var init := ops[..|ops| - 1];
      var op := ops[|ops| - 1];
      RunTells(init);
      if op.Begin? && BeginError(op.t, op.begin).None? {
        BeginWidth(op.t, op.begin);
        NoSteps(ScanOf(Begun(op)).found, Begun(op).width);
      }
      if op.Next? && HistoryOf(init).Some? { TellsNext(Run(init), HistoryOf(init), op.mem, op.next); }
    }
  }

  lemma BeginWidth(t: Target, req: BeginRequest)
    ensures BeginError(t, req).None? ==> ValidWidth(ToInt32(req.width))
  {
  }

  lemma NoSteps(cs: seq<Candidate>, width: nat)
    ensures NarrowAll(cs, width, []) == cs
  {
  }

  /** The candidates after any run, address by address: where the last first scan was neither cut off nor
      out of budget, they are exactly the aligned addresses that held its value then and have passed every
      step since, in scan order and with the value seen last. */
  lemma CandidatesExactly(ops: seq<Op>)
    ensures var s := Run(ops); var past := HistoryOf(ops);
            && (past.None? ==> s.candidates == [])
            && (past.Some? ==>
                  var h := past.value;
                  && ValidWidth(h.width)
                  && s.candidates == Survivors(ScanOf(h).found, h.width, h.steps)
                  && (!ScanOf(h).truncated && !ScanOf(h).budgetHit ==>
                        s.candidates == Survivors(StrideAll(h.mem, h.regions, h.width, h.want), h.width, h.steps)))
  {
    hide Run, HistoryOf, FirstScan, NarrowAll, Survivors, StrideAll;
    RunTells(ops);
    var past := HistoryOf(ops);
    if past.Some? {
      var h := past.value;
      HistoryDecides(ScanOf(h).found, h.width, h.steps);
      if !ScanOf(h).truncated && !ScanOf(h).budgetHit {
        SearchHistory(h.mem, h.regions, h.width, h.want, h.budget, h.steps);
      }
    }
  }

  // ------------------------------------------------------------------- the handlers themselves

  function TableOf(s: Search): Table
    reads s
    requires s.width >= 0
  {
    Table(s.candidates, s.width, s.generation)
  }

  /** The regions of every `search.begin` stay clear of 2^64. */
  predicate Bounded(op: Op) {
    op.Begin? ==> forall r :: r in RegionsFor(op.t, op.begin) ==> NoWrap(r)
  }

  /** One call. */
  method Perform(s: Search, op: Op)
    requires s.width >= 0 && Bounded(op)
    modifies s
    ensures s.width >= 0 && TableOf(s) == Apply(old(TableOf(s)), op)
  {
    hide FirstScan, Narrow, NextError, RegionsFor;
    match op
    case Begin(mem, t, begin) =>
      BeginWidth(t, begin);
      var error, scan := s.SearchBegin(mem, t, begin);
    case Next(mem, attached, next) =>
      var error := s.SearchNext(mem, attached, next);
    case Results(limit) =>
      var results, shown, total := s.SearchResults(limit);
    case Reset =>
      s.SearchReset();
  }

  /** Any calls, one after another, on a search that was just made. */
  method PerformAll(s: Search, ops: seq<Op>)
    requires s.width == 4 && s.candidates == [] && s.generation == 0
    requires forall i :: 0 <= i < |ops| ==> Bounded(ops[i])
    modifies s
    ensures s.width >= 0 && TableOf(s) == Run(ops)
  {
    hide Apply, Bounded;
    for i := 0 to |ops|
      invariant s.width >= 0 && TableOf(s) == Run(ops[..i])
    {
      assert ops[..i + 1][..i] == ops[..i];
      Perform(s, ops[i]);
    }
    assert ops[..|ops|] == ops;
  }
}
