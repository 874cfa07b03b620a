/** Sleep and wake: the acknowledgement thread of agent/source/power_state.cpp beside the accept loop
    of `Server::Run` in agent/source/server.cpp, as a state machine over their interleaved steps.

    Every access to a shared flag is a step of its own. What the console, the network and the clock
    decide is in the choice of the steps; a step that the state does not allow changes nothing. */
module Power {
  import opened Options

  datatype PowerState = Awake | ReadyAwaken | ReadySleep | ReadySleepCritical | ReadyAwakenCritical
    | ReadyShutdown | Unlisted

  predicate Sleeps(p: PowerState) {
    p.ReadySleep? || p.ReadySleepCritical?
  }

  predicate Wakes(p: PowerState) {
    p.Awake? || p.ReadyAwaken? || p.ReadyAwakenCritical?
  }

  /** Where the acknowledgement thread is. `HalfSet`: g_asleep is cleared, g_woke not yet set. */
  datatype AckPc = Outer | Waiting | Draining | Fetched(p: PowerState) | HalfSet(p: PowerState)
    | FlagsSet(p: PowerState) | Finished

  /** Where the accept loop is. `Clearing`: `TakeWokeFlag` read true and has not cleared the flag yet. */
  datatype LoopPc = Opening | Accepting | Failed | Clearing | Checking

  datatype Event =
    | Request(p: PowerState) | Acknowledged(p: PowerState) | Woke
    | Building | Took | Connected | Counted | Wedged

  datatype State = State(
    asleep: bool,
    woke: bool,
    stop: bool,
    ack: AckPc,
    loop: LoopPc,
    errors: nat,
    log: seq<Event>
  )

  const START := State(false, false, false, Outer, Opening, 0, [])

  const MAX_ERRORS := 20

  datatype Step =
    // acknowledgement thread
    | CheckStop | Wait(fired: bool) | Fetch(p: PowerState) | NoRequest | SetFlags | SetWoke | Acknowledge
    // `Exit`
    | RequestStop
    // accept loop
    | Listen(opened_: bool) | Accept(connected: bool) | ReadWoke | ClearWoke | ReadAsleep

  predicate OfAckThread(step: Step) {
    step.CheckStop? || step.Wait? || step.Fetch? || step.NoRequest? || step.SetFlags? || step.SetWoke?
    || step.Acknowledge? || step.RequestStop?
  }

  function AckStep(s: State, step: Step): State {
    match step
    case CheckStop => if s.ack.Outer? then s.(ack := if s.stop then Finished else Waiting) else s
    case Wait(fired) => if s.ack.Waiting? then s.(ack := if fired then Draining else Outer) else s
    case Fetch(p) => if s.ack.Draining? then s.(ack := Fetched(p), log := s.log + [Request(p)]) else s
    case NoRequest => if s.ack.Draining? then s.(ack := Outer) else s
    case SetFlags =>
      if !s.ack.Fetched? then s
      else if Sleeps(s.ack.p) then s.(asleep := true, ack := FlagsSet(s.ack.p))
      else if Wakes(s.ack.p) then s.(asleep := false, ack := HalfSet(s.ack.p))
      else s.(ack := FlagsSet(s.ack.p))
    case SetWoke => if s.ack.HalfSet? then s.(woke := true, ack := FlagsSet(s.ack.p), log := s.log + [Woke]) else s
    case Acknowledge => if s.ack.FlagsSet? then s.(ack := Draining, log := s.log + [Acknowledged(s.ack.p)]) else s
    case RequestStop => s.(stop := true)
    case _ => s
  }

  function LoopStep(s: State, step: Step): State {
    match step
    case Listen(opened_) =>
      if !s.loop.Opening? then s
      else if opened_ then s.(loop := Accepting, errors := 0, log := s.log + [Building])
      else s.(log := s.log + [Building])
    case Accept(connected) =>
      if !s.loop.Accepting? then s
      else if connected then s.(errors := 0, log := s.log + [Connected])
      else s.(loop := Failed)
    case ReadWoke => if s.loop.Failed? then s.(loop := if s.woke then Clearing else Checking) else s
    case ClearWoke => if s.loop.Clearing? then s.(woke := false, loop := Opening, log := s.log + [Took]) else s
    case ReadAsleep =>
      if !s.loop.Checking? then s
      else if s.asleep then s.(loop := Accepting)
      else if s.errors + 1 >= MAX_ERRORS then s.(errors := s.errors + 1, loop := Opening, log := s.log + [Wedged])
      else s.(errors := s.errors + 1, loop := Accepting, log := s.log + [Counted])
    case _ => s
  }

  function Do(s: State, step: Step): State {
    if OfAckThread(step) then AckStep(s, step) else LoopStep(s, step)
  }

  function Exec(s: State, steps: seq<Step>): State
    decreases steps
  {
    if steps == [] then s else Exec(Do(s, steps[0]), steps[1..])
  }

  // ---------------------------------------------------------------- what a log says, so far

  function Last(log: seq<Event>): Event
    requires log != []
  {
    log[|log| - 1]
  }

  function Init(log: seq<Event>): seq<Event>
    requires log != []
  {
    log[..|log| - 1]
  }

  /** The requests fetched and acknowledged, in order. */
  function Exchanges(log: seq<Event>): seq<Event> {
    if log == [] then []
    else Exchanges(Init(log)) + if Last(log).Request? || Last(log).Acknowledged? then [Last(log)] else []
  }

  /** The latest of the exchanges. */
  function Latest(log: seq<Event>): Option<Event> {
    var xs := Exchanges(log);
    if xs == [] then None else Some(xs[|xs| - 1])
  }

  predicate Owing(log: seq<Event>) {
    |Exchanges(log)| % 2 == 1
  }

  /** A wake after the last rebuild began. */
  predicate Unserved(log: seq<Event>) {
    log != [] && (Last(log).Woke? || (!Last(log).Building? && Unserved(Init(log))))
  }

  /** A wake after the last wake-caused rebuild. */
  predicate WokeSinceTook(log: seq<Event>) {
    log != [] && (Last(log).Woke? || (!Last(log).Took? && WokeSinceTook(Init(log))))
  }

  /** Counted accept failures since the listener was opened or a client connected. */
  function Failures(log: seq<Event>): nat {
    if log == [] || Last(log).Building? || Last(log).Connected? then 0
    else Failures(Init(log)) + if Last(log).Counted? then 1 else 0
  }

  /** Whether the last acknowledged transition was to sleep. */
  predicate LastAsleep(log: seq<Event>) {
    log != []
    && if Last(log).Acknowledged? && Last(log).p in {ReadySleep, ReadySleepCritical} then true
       else if Last(log).Acknowledged? && Last(log).p in {Awake, ReadyAwaken, ReadyAwakenCritical} then false
       else LastAsleep(Init(log))
  }

  /** Each request is followed by its own acknowledgement before the next request. */
  predicate InTurn(exchanges: seq<Event>) {
    forall i :: 0 <= i < |exchanges| ==> TurnAt(exchanges, i)
  }

  /** Requests stand at even places, and after each its own acknowledgement. */
  predicate TurnAt(exchanges: seq<Event>, i: int)
    requires 0 <= i < |exchanges|
  {
    if i % 2 == 0 then exchanges[i].Request?
    else exchanges[i - 1].Request? && exchanges[i] == Acknowledged(exchanges[i - 1].p)
  }

  predicate TakesJustified(log: seq<Event>) {
    forall i :: 0 <= i < |log| && log[i].Took? ==> WokeSinceTook(log[..i])
  }

  predicate WedgesJustified(log: seq<Event>) {
    forall i :: 0 <= i < |log| && log[i].Wedged? ==> Failures(log[..i]) == 19
  }

  // ------------------------------------------------------------------------------ invariants

  function Holding(ack: AckPc): Option<PowerState> {
    match ack
    case Fetched(p) => Some(p)
    case HalfSet(p) => Some(p)
    case FlagsSet(p) => Some(p)
    case _ => None
  }

  predicate AckInv(s: State) {
    && InTurn(Exchanges(s.log))
    && (Owing(s.log) <==> Holding(s.ack).Some?)
    && (Holding(s.ack).Some? ==> Latest(s.log) == Some(Request(Holding(s.ack).value)))
    && (s.ack.HalfSet? ==> Wakes(s.ack.p))
  }

  predicate WakeInv(s: State) {
    && (Unserved(s.log) ==> s.woke || s.loop == Opening)
    && (s.woke <==> WokeSinceTook(s.log))
    && (s.loop == Clearing ==> s.woke)
    && TakesJustified(s.log)
  }

  predicate ErrorInv(s: State) {
    && (s.loop != Opening ==> s.errors == Failures(s.log) && s.errors < MAX_ERRORS)
    && WedgesJustified(s.log)
  }

  predicate AsleepInv(s: State) {
    && ((s.ack.HalfSet? || s.ack.FlagsSet?) && (Sleeps(s.ack.p) || Wakes(s.ack.p)) ==> s.asleep == Sleeps(s.ack.p))
    && (!(s.ack.HalfSet? || s.ack.FlagsSet?) || !(Sleeps(s.ack.p) || Wakes(s.ack.p)) ==> s.asleep == LastAsleep(s.log))
  }

  predicate Inv(s: State) {
    AckInv(s) && WakeInv(s) && ErrorInv(s) && AsleepInv(s)
  }

  /** What one more event changes. */
  lemma Grow(log: seq<Event>, e: Event)
    ensures Exchanges(log + [e]) == if e.Request? || e.Acknowledged? then Exchanges(log) + [e] else Exchanges(log)
    ensures Unserved(log + [e]) <==> e.Woke? || (!e.Building? && Unserved(log))
    ensures WokeSinceTook(log + [e]) <==> e.Woke? || (!e.Took? && WokeSinceTook(log))
    ensures Failures(log + [e]) == if e.Building? || e.Connected? then 0 else Failures(log) + if e.Counted? then 1 else 0
    ensures LastAsleep(log + [e])
            <==> (e.Acknowledged? && Sleeps(e.p)) || (!(e.Acknowledged? && Wakes(e.p)) && LastAsleep(log))
  {
    assert Last(log + [e]) == e && Init(log + [e]) == log;
    hide Init, Last;
  }

  lemma GrowJustified(log: seq<Event>, e: Event)
    requires TakesJustified(log) && (e.Took? ==> WokeSinceTook(log))
    ensures TakesJustified(log + [e])
  {
    hide WokeSinceTook;
    forall i | 0 <= i < |log| + 1 && (log + [e])[i].Took? ensures WokeSinceTook((log + [e])[..i]) {
      assert (log + [e])[..i] == log[..i];
      assert log[..|log|] == log;
    }
  }

  lemma GrowWedged(log: seq<Event>, e: Event)
    requires WedgesJustified(log) && (e.Wedged? ==> Failures(log) == MAX_ERRORS - 1)
    ensures WedgesJustified(log + [e])
  {
    hide Failures;
    forall i | 0 <= i < |log| + 1 && (log + [e])[i].Wedged? ensures Failures((log + [e])[..i]) == MAX_ERRORS - 1 {
      assert (log + [e])[..i] == log[..i];
      assert log[..|log|] == log;
    }
  }

  /** The event a step logs, if any. */
  function Logged(s: State, step: Step): Option<Event> {
    match step
    case Fetch(p) => if s.ack.Draining? then Some(Request(p)) else None
    case SetWoke => if s.ack.HalfSet? then Some(Woke) else None
    case Acknowledge => if s.ack.FlagsSet? then Some(Acknowledged(s.ack.p)) else None
    case Listen(_) => if s.loop.Opening? then Some(Building) else None
    case Accept(connected) => if s.loop.Accepting? && connected then Some(Connected) else None
    case ClearWoke => if s.loop.Clearing? then Some(Took) else None
    case ReadAsleep =>
      if !s.loop.Checking? || s.asleep then None
      else Some(if s.errors + 1 >= MAX_ERRORS then Wedged else Counted)
    case _ => None
  }

  lemma InTurnSnoc(xs: seq<Event>, e: Event)
    requires InTurn(xs)
    requires if |xs| % 2 == 0 then e.Request? else xs[|xs| - 1].Request? && e == Acknowledged(xs[|xs| - 1].p)
    ensures InTurn(xs + [e])
  {
    var ys := xs + [e];
    forall i | 0 <= i < |ys| ensures TurnAt(ys, i) {
      if i < |xs| { TurnStays(xs, e, i); }
    }
  }

  lemma TurnStays(xs: seq<Event>, e: Event, i: nat)
    requires i < |xs| && TurnAt(xs, i)
    ensures TurnAt(xs + [e], i)
  {
  }

  /** A step of the accept loop logs nothing that is exchanged with the power service. */
  lemma LoopIsApart(s: State, step: Step)
    requires !OfAckThread(step)
    ensures var t := Do(s, step);
            t.ack == s.ack && t.asleep == s.asleep && Exchanges(t.log) == Exchanges(s.log) && LastAsleep(t.log) == LastAsleep(s.log)
  {
    hide Exchanges, LastAsleep;
    var e := Logged(s, step);
    if e.Some? { Grow(s.log, e.value); }
  }

  lemma ExchangeMore(log: seq<Event>, e: Event)
    requires InTurn(Exchanges(log))
    requires if Owing(log) then Latest(log).value.Request? && e == Acknowledged(Latest(log).value.p) else e.Request?
    ensures InTurn(Exchanges(log + [e])) && Latest(log + [e]) == Some(e) && Owing(log + [e]) == !Owing(log)
  {
    hide Exchanges, InTurn;
    Grow(log, e);
    InTurnSnoc(Exchanges(log), e);
    Alternate(Exchanges(log), e);
  }

  lemma Alternate(xs: seq<Event>, e: Event)
    ensures |xs + [e]| % 2 != |xs| % 2 && (xs + [e])[|xs|] == e
  {
  }

  lemma ExchangeSame(log: seq<Event>, e: Event)
    requires !e.Request? && !e.Acknowledged?
    ensures Exchanges(log + [e]) == Exchanges(log) && Latest(log + [e]) == Latest(log) && Owing(log + [e]) == Owing(log)
  {
    Grow(log, e);
    hide Exchanges;
  }

  lemma AckInvKept(s: State, step: Step)
    requires AckInv(s)
    ensures AckInv(Do(s, step))
  {
    if !OfAckThread(step) {
      LoopIsApart(s, step);
      hide LoopStep, InTurn, Exchanges;
    } else {
      AckStepKept(s, step);
    }
  }

  lemma AckStepKept(s: State, step: Step)
    requires AckInv(s) && OfAckThread(step)
    ensures AckInv(Do(s, step))
  {
    hide LoopStep, InTurn, Exchanges, Latest, Owing, Sleeps;
    match step
    case Fetch(p) => if s.ack.Draining? { ExchangeMore(s.log, Request(p)); }
    case Acknowledge => if s.ack.FlagsSet? { ExchangeMore(s.log, Acknowledged(s.ack.p)); }
    case SetWoke => ExchangeSame(s.log, Woke);
    case _ =>
  }

  lemma WakeInvKept(s: State, step: Step)
    requires WakeInv(s)
    ensures WakeInv(Do(s, step))
  {
    hide Unserved, WokeSinceTook, TakesJustified;
    var e := Logged(s, step);
    if e.Some? {
      Grow(s.log, e.value);
      GrowJustified(s.log, e.value);
    }
  }

  lemma ErrorInvKept(s: State, step: Step)
    requires ErrorInv(s)
    ensures ErrorInv(Do(s, step))
  {
    hide Failures, WedgesJustified;
    var e := Logged(s, step);
    if e.Some? {
      Grow(s.log, e.value);
      GrowWedged(s.log, e.value);
    }
  }

  lemma AsleepInvKept(s: State, step: Step)
    requires AsleepInv(s)
    ensures AsleepInv(Do(s, step))
  {
    if !OfAckThread(step) {
      LoopKeepsAsleep(s, step);
    } else {
      AckKeepsAsleep(s, step);
    }
  }

  lemma AckKeepsAsleep(s: State, step: Step)
    requires AsleepInv(s) && OfAckThread(step)
    ensures AsleepInv(Do(s, step))
  {
    hide LastAsleep, LoopStep, Exchanges, Unserved, WokeSinceTook, Failures;
    match step
    case Fetch(p) => Grow(s.log, Request(p));
    case Acknowledge => if s.ack.FlagsSet? { Grow(s.log, Acknowledged(s.ack.p)); }
    case SetWoke => Grow(s.log, Woke);
    case _ =>
  }

  lemma LoopKeepsAsleep(s: State, step: Step)
    requires AsleepInv(s) && !OfAckThread(step)
    ensures AsleepInv(Do(s, step))
  {
    hide LastAsleep, Exchanges, Do, OfAckThread, Sleeps, Wakes;
    LoopIsApart(s, step);
  }

  lemma {:induction false} InvAlways(s: State, steps: seq<Step>)
    requires Inv(s)
    ensures Inv(Exec(s, steps))
    decreases steps
  {
    hide AckInv, WakeInv, ErrorInv, AsleepInv, Do;
    if steps != [] {
      AckInvKept(s, steps[0]);
      WakeInvKept(s, steps[0]);
      ErrorInvKept(s, steps[0]);
      AsleepInvKept(s, steps[0]);
      InvAlways(Do(s, steps[0]), steps[1..]);
    }
  }

  lemma Reached(steps: seq<Step>)
    ensures Inv(Exec(START, steps))
  {
    hide Exec;
    InvAlways(START, steps);
  }

  // ------------------------------------------------------------------------------ main results

  /** In every interleaving each fetched request is acknowledged with its own state before the next one
      is fetched, and the thread never ends, or goes back to waiting, owing an acknowledgement. */
  lemma AcknowledgedInTurn(steps: seq<Step>)
    ensures var t := Exec(START, steps);
            && InTurn(Exchanges(t.log))
            && (t.ack.Finished? || t.ack.Waiting? ==> |Exchanges(t.log)| % 2 == 0)
  {
    hide Exec, InTurn, Exchanges, WakeInv, ErrorInv, AsleepInv;
    Reached(steps);
  }

  /** A wake is never lost: the flag is still set, or a rebuild began after it, or one is about to. */
  lemma NoWakeLost(steps: seq<Step>, i: nat)
    requires var t := Exec(START, steps); i < |t.log| && t.log[i].Woke?
    ensures var t := Exec(START, steps);
            t.woke || t.loop == Opening || exists j :: i < j < |t.log| && t.log[j].Building?
  {
    hide Exec, Unserved, AckInv, ErrorInv, AsleepInv;
    Reached(steps);
    var log := Exec(START, steps).log;
    if forall j :: i < j < |log| ==> !log[j].Building? {
      UnservedUntilBuilding(log, i);
    }
  }

  lemma {:induction false} UnservedUntilBuilding(log: seq<Event>, i: nat)
    requires i < |log| && log[i].Woke?
    requires forall j :: i < j < |log| ==> !log[j].Building?
    ensures Unserved(log)
  {
    if i + 1 < |log| {
      UnservedUntilBuilding(Init(log), i);
    }
  }

  /** Each rebuild the loop makes because of a wake has a wake of its own since the previous one. */
  lemma EachTakeHasItsWake(steps: seq<Step>, i: nat)
    requires var t := Exec(START, steps); i < |t.log| && t.log[i].Took?
    ensures var t := Exec(START, steps);
            exists j :: 0 <= j < i && t.log[j].Woke? && forall k :: j < k < i ==> !t.log[k].Took?
  {
    hide Exec, WokeSinceTook, AckInv, ErrorInv, AsleepInv;
    Reached(steps);
    var log := Exec(START, steps).log;
    var j := LatestWake(log[..i]);
    assert log[j] == log[..i][j];
    forall k | j < k < i ensures !log[k].Took? {
      assert log[k] == log[..i][k];
    }
  }

  lemma {:induction false} LatestWake(log: seq<Event>) returns (j: nat)
    requires WokeSinceTook(log)
    ensures j < |log| && log[j].Woke? && forall k :: j < k < |log| ==> !log[k].Took?
  {
    if Last(log).Woke? {
      j := |log| - 1;
    } else {
      j := LatestWake(Init(log));
    }
  }

  /** Without a wake the loop rebuilds on the 20th counted failure in a row and never before: the log
      shows 19 before each such rebuild, a loop that goes on has fewer than 20, and the next failure to
      be counted leads to a rebuild exactly when there are 19. */
  lemma WedgedExactly(steps: seq<Step>)
    ensures var t := Exec(START, steps);
            && WedgesJustified(t.log)
            && (t.loop != Opening ==> Failures(t.log) < 20)
            && (t.loop == Checking && !t.asleep ==>
                  var u := Do(t, ReadAsleep);
                  && (u.loop == Opening <==> Failures(t.log) == 19)
                  && (u.loop == Opening || u.loop == Accepting)
                  && u.log == t.log + [if u.loop == Opening then Wedged else Counted])
            && (t.loop == Checking && t.asleep ==> Do(t, ReadAsleep) == t.(loop := Accepting))
  {
    hide Exec, Failures, WedgesJustified, AckInv, WakeInv, AsleepInv;
    Reached(steps);
  }

  /** Between requests `IsAsleep` tells the last acknowledged transition. */
  lemma AsleepTellsTheLast(steps: seq<Step>)
    ensures var t := Exec(START, steps);
            !t.ack.HalfSet? && !t.ack.FlagsSet? ==> t.asleep == LastAsleep(t.log)
  {
    hide Exec, LastAsleep, AckInv, WakeInv, ErrorInv;
    Reached(steps);
  }

  predicate OnlyAckThread(steps: seq<Step>) {
    forall i :: 0 <= i < |steps| ==> OfAckThread(steps[i])
  }

  lemma {:induction false} AckThreadKeepsWake(s: State, steps: seq<Step>)
    requires OnlyAckThread(steps) && s.woke
    ensures Exec(s, steps).woke && Exec(s, steps).loop == s.loop
    decreases steps
  {
    if steps != [] {
      AckThreadKeepsWake(Do(s, steps[0]), steps[1..]);
    }
  }

  /** Once a wake is flagged, the next failed accept leads to a rebuild in two steps of the loop,
      whatever the acknowledgement thread does meanwhile. */
  lemma WakeRebuildsPromptly(s: State, before: seq<Step>, between: seq<Step>)
    requires s.woke && s.loop == Failed && OnlyAckThread(before) && OnlyAckThread(between)
    ensures Do(Exec(Do(Exec(s, before), ReadWoke), between), ClearWoke).loop == Opening
  {
    hide Exec;
    AckThreadKeepsWake(s, before);
    AckThreadKeepsWake(Do(Exec(s, before), ReadWoke), between);
  }

  /** The thread answers whatever is requested in at most four steps, in which it sets the flags: sleep for
      the two ready-to-sleep states, wake for the three awake ones, nothing for any other. */
  lemma RequestAnswered(s: State, p: PowerState)
    requires s.ack == Draining
    ensures var awake := p in {Awake, ReadyAwaken, ReadyAwakenCritical};
            var asleep := p in {ReadySleep, ReadySleepCritical};
            Do(Do(Do(Do(s, Fetch(p)), SetFlags), SetWoke), Acknowledge)
            == s.(log := s.log + [Request(p)] + (if awake then [Woke] else []) + [Acknowledged(p)],
                  asleep := if awake then false else asleep || s.asleep, woke := awake || s.woke)
  {
  }

  /** It goes on waiting until it is told to stop, and then ends at the head of its loop. */
  lemma StopsWhenTold(s: State, fired: bool)
    requires s.ack == Outer
    ensures Do(s, CheckStop).ack == (if s.stop then Finished else Waiting)
    ensures !s.stop ==> Do(Do(s, CheckStop), Wait(fired)) == s.(ack := if fired then Draining else Outer)
    ensures Do(s, RequestStop).stop
  {
  }

  /** `log` without what the accept loop adds. */
  function Answers(log: seq<Event>): seq<Event> {
    if log == [] then []
    else Answers(Init(log)) + if Last(log).Request? || Last(log).Woke? || Last(log).Acknowledged? then [Last(log)] else []
  }

  /** Every request is answered, and a wake is flagged before the answer exactly where one of the awake
      states was requested. */
  predicate AllAnswered(xs: seq<Event>) {
    xs == []
    || (Last(xs).Acknowledged?
        && var p := Last(xs).p;
           if p in {Awake, ReadyAwaken, ReadyAwakenCritical}
           then |xs| >= 3 && xs[|xs| - 2] == Woke && xs[|xs| - 3] == Request(p) && AllAnswered(xs[..|xs| - 3])
           else |xs| >= 2 && xs[|xs| - 2] == Request(p) && AllAnswered(xs[..|xs| - 2]))
  }

  /** The same with a request under way. */
  predicate Answering(s: State) {
    var xs := Answers(s.log);
    match s.ack
    case Fetched(p) => |xs| >= 1 && Last(xs) == Request(p) && AllAnswered(Init(xs))
    case HalfSet(p) => |xs| >= 1 && Last(xs) == Request(p) && AllAnswered(Init(xs)) && p in {Awake, ReadyAwaken, ReadyAwakenCritical}
    case FlagsSet(p) =>
      if p in {Awake, ReadyAwaken, ReadyAwakenCritical}
      then |xs| >= 2 && Last(xs) == Woke && xs[|xs| - 2] == Request(p) && AllAnswered(xs[..|xs| - 2])
      else |xs| >= 1 && Last(xs) == Request(p) && AllAnswered(Init(xs))
    case _ => AllAnswered(xs)
  }

  lemma AnswersGrow(log: seq<Event>, e: Event)
    ensures Answers(log + [e]) == Answers(log) + if e.Request? || e.Woke? || e.Acknowledged? then [e] else []
  {
    assert Last(log + [e]) == e && Init(log + [e]) == log;
  }

  lemma AnsweringKept(s: State, step: Step)
    requires Answering(s)
    ensures Answering(Do(s, step))
  {
    hide Answering;
    if !OfAckThread(step) {
      LoopAnswersNothing(s, step);
      SameAnswering(s, Do(s, step));
    } else {
      match step
      case Fetch(p) => FetchKept(s, p);
      case SetFlags => FlagsKept(s);
      case SetWoke => WokeKept(s);
      case Acknowledge => AcknowledgeKept(s);
      case _ => QuietKept(s, step);
    }
  }

  lemma LoopAnswersNothing(s: State, step: Step)
    requires !OfAckThread(step)
    ensures Do(s, step).ack == s.ack && Answers(Do(s, step).log) == Answers(s.log)
  {
    hide Answers;
    var e := Logged(s, step);
    if e.Some? {
      AnswersGrow(s.log, e.value);
      assert Answers(s.log) + [] == Answers(s.log);
    }
  }

  lemma SameAnswering(s: State, t: State)
    requires Answering(s) && t.ack == s.ack && Answers(t.log) == Answers(s.log)
    ensures Answering(t)
  {
    hide Answers, AllAnswered;
  }

  lemma FetchKept(s: State, p: PowerState)
    requires Answering(s)
    ensures Answering(AckStep(s, Fetch(p)))
  {
    hide Answers, AllAnswered;
    AnswersGrow(s.log, Request(p));
    Ends(Answers(s.log), Request(p));
  }

  lemma FlagsKept(s: State)
    requires Answering(s)
    ensures Answering(AckStep(s, SetFlags))
  {
    hide Answers, AllAnswered;
  }

  lemma WokeKept(s: State)
    requires Answering(s)
    ensures Answering(AckStep(s, SetWoke))
  {
    hide Answers, AllAnswered;
    AnswersGrow(s.log, Woke);
    Ends(Answers(s.log), Woke);
  }

  lemma AcknowledgeKept(s: State)
    requires Answering(s)
    ensures Answering(AckStep(s, Acknowledge))
  {
    hide Answers, AllAnswered;
    if s.ack.FlagsSet? {
      AnswersGrow(s.log, Acknowledged(s.ack.p));
      Ends(Answers(s.log), Acknowledged(s.ack.p));
      OneMore(Answers(s.log), s.ack.p);
    }
  }

  lemma OneMore(xs: seq<Event>, p: PowerState)
    requires if p in {Awake, ReadyAwaken, ReadyAwakenCritical}
             then |xs| >= 2 && Last(xs) == Woke && xs[|xs| - 2] == Request(p) && AllAnswered(xs[..|xs| - 2])
             else |xs| >= 1 && Last(xs) == Request(p) && AllAnswered(Init(xs))
    ensures AllAnswered(xs + [Acknowledged(p)])
  {
    Ends(xs, Acknowledged(p));
  }

  lemma QuietKept(s: State, step: Step)
    requires Answering(s) && (step.CheckStop? || step.Wait? || step.NoRequest? || step.RequestStop?)
    ensures Answering(AckStep(s, step))
  {
    hide Answers, AllAnswered;
  }

  lemma Ends(xs: seq<Event>, e: Event)
    ensures Last(xs + [e]) == e && Init(xs + [e]) == xs && |xs + [e]| == |xs| + 1
    ensures |xs| >= 1 ==> (xs + [e])[|xs| - 1] == Last(xs) && (xs + [e])[..|xs| - 1] == Init(xs)
    ensures |xs| >= 2 ==> (xs + [e])[|xs| - 2] == xs[|xs| - 2] && (xs + [e])[..|xs| - 2] == xs[..|xs| - 2]
  {
  }

  lemma {:induction false} AnsweringAlways(s: State, steps: seq<Step>)
    requires Answering(s)
    ensures Answering(Exec(s, steps))
    decreases steps
  {
    hide Answering, Do;
    if steps != [] {
      AnsweringKept(s, steps[0]);
      AnsweringAlways(Do(s, steps[0]), steps[1..]);
    }
  }

  /** Over every interleaving the thread flags a wake for every request of an awake state, and for no other,
      before it acknowledges it. */
  lemma WakesAreFlagged(steps: seq<Step>)
    ensures var t := Exec(START, steps);
            t.ack in {Outer, Waiting, Draining, Finished} ==> AllAnswered(Answers(t.log))
  {
    hide Exec, Answers;
    assert Answers(START.log) == [] by { NothingYet(); }
    AnsweringAlways(START, steps);
  }

  lemma NothingYet()
    ensures Answers([]) == []
  {
  }

  /** From its start the thread waits for requests and is ready for the first one, with no flag set. */
  lemma StartsReady()
    ensures Do(Do(START, CheckStop), Wait(true)) == START.(ack := Draining)
    ensures !START.asleep && !START.woke && START.loop == Opening && START.log == []
  {
  }

  /** The accept loop opens its listener until that succeeds, serves each client that connects, and looks at
      the flags after a failed accept: a wake first, which it consumes, and then sleep. */
  lemma LoopTurns(s: State)
    ensures s.loop == Opening ==> Do(s, Listen(false)) == s.(log := s.log + [Building])
                                  && Do(s, Listen(true)) == s.(log := s.log + [Building], loop := Accepting, errors := 0)
    ensures s.loop == Accepting ==> Do(s, Accept(true)) == s.(log := s.log + [Connected], errors := 0)
                                    && Do(s, Accept(false)) == s.(loop := Failed)
    ensures s.loop == Failed && s.woke ==>
      Do(Do(s, ReadWoke), ClearWoke) == s.(woke := false, loop := Opening, log := s.log + [Took])
    ensures s.loop == Failed && !s.woke && s.asleep ==> Do(Do(s, ReadWoke), ReadAsleep) == s.(loop := Accepting)
  {
  }
}
