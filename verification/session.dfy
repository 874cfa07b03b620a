/** The retrying client of server/src/switch_mcp/clients/agentd.py against the agent's one-at-a-time
    connection loop (agent/source/server.cpp), as a transition system.

    One step is one thing that happens between two awaits of the client, one move of the agent, or
    one misfortune of the network. The client never looks at reply ids; that replies still pair up
    with requests is a theorem. A request may go out although its `drain` failed: closing the writer lets
    out what it still holds. Calls are not cancelled, and replies are well-formed JSON. */
module Session {
  import opened Options

  // ------------------------------------------------------------------- what call() decides

  predicate FireAndForget(cmd: string) {
    cmd in {"reboot", "shutdown", "reboot_to_payload", "agent.restart"}
  }

  predicate Idempotent(cmd: string) {
    cmd in {"hello", "agent.info", "sysinfo", "ps", "titles", "title_icon", "running_app",
            "crash_reports", "read_log", "screenshot", "console_info", "controllers",
            "get_clocks", "get_brightness", "get_volume", "get_time",
            "fs.list", "fs.stat", "fs.mounts", "fs.read", "nand.read",
            "album.list", "album.download",
            "debug.memmap", "debug.threads", "debug.registers", "debug.read_mem",
            "debug.search", "cheat.status", "cheat.list",
            "i2c.read", "gpio.read",
            "debug.set_watchpoint", "debug.set_breakpoint", "debug.clear_breakpoint",
            "fs.hash"}
  }

  /** How a call ends. `Reraised` is a raw transport exception; `AssumedDone` the fire-and-forget
      success without a reply. */
  datatype Outcome =
    | Pending
    | Answered(reply: Packet)
    | HandshakeError
    | TooBig
    | Unreachable
    | AssumedDone
    | Reraised
    | Uncertain

  datatype Decision = Retry | Finish(outcome: Outcome)

  /** The `except transient` branch of `call`. */
  function OnTransient(attempt: nat, sent: bool, cmd: string): Decision {
    if attempt == 1 && !sent then Finish(Unreachable)
    else if sent && FireAndForget(cmd) then Finish(AssumedDone)
    else if attempt == 1 then Finish(Reraised)
    else if sent && !Idempotent(cmd) then Finish(Uncertain)
    else Retry
  }

  // --------------------------------------------------------------------------------- states

  /** A request frame; a command remembers which call and which attempt sent it. */
  datatype Body = Hello | AuthAnswer | Command(call: nat, attempt: nat, cmd: string)

  datatype Packet = Packet(id: nat, body: Body)

  /** One connection: requests on their way to the agent, and replies on their way back. A reply is
      represented by the request it answers, which the client cannot see. */
  datatype Conn = Conn(toAgent: seq<Packet>, toClient: seq<Packet>, broken: bool)

  /** Where the client is: lock free; at the top of an attempt; connected and about to send, or
      waiting for, a handshake message; about to send, or waiting for, the command. */
  datatype Phase = Idle | Start | Shake | ShakeWait | Ready | Waiting

  datatype CallRecord = CallRecord(cmd: string, outcome: Outcome)

  datatype State = State(
    conns: seq<Conn>,          // in the order they were opened, and are served
    serving: nat,              // the connection the agent is at
    authed: bool,              // whether that connection passed the handshake
    holding: Option<Packet>,   // the request the agent is working on
    phase: Phase,
    live: Option<nat>,         // the client's connection, if any
    nextId: nat,
    attempt: nat,
    sent: bool,
    last: Packet,              // the latest packet the client sent
    calls: seq<CallRecord>,
    history: seq<Packet>,      // every command packet sent
    flushed: set<Packet>,      // those that went out although their drain had failed
    log: seq<Packet>           // every command the agent executed
  )

  const INITIAL := State([], 0, false, None, Idle, None, 0, 0, false, Packet(0, Hello), [], [], {}, [])

  datatype Step =
    | Begin(cmd: string)
    | UseExisting
    | Connect
    | SendShake(body: Body)
    | ReadShake(done: bool)
    | HandshakeFails
    | Legacy
    | RequestTooBig
    | SendRequest
    | LateFlush
    | ReadReply
    | Transient
    | AgentTakes(execute: bool)
    | AgentReplies(nowAuthed: bool)
    | AgentCloses
    | Break(c: nat)
    | Lose(c: nat, i: nat, j: nat)

  // ----------------------------------------------------------------------------- transitions

  function Open(s: State): State {
    s.(conns := s.conns + [Conn([], [], false)], live := Some(|s.conns|), phase := Shake)
  }

  function BreakConn(s: State, c: nat): State
    requires c < |s.conns|
  {
    s.(conns := s.conns[c := s.conns[c].(broken := true)])
  }

  /** `_discard_connection`. */
  function Discard(s: State): State {
    if s.live.Some? && s.live.value < |s.conns| then BreakConn(s, s.live.value).(live := None)
    else s.(live := None)
  }

  function Put(s: State, body: Body, phase: Phase): State
    requires s.live.Some? && s.live.value < |s.conns|
  {
    var c := s.live.value;
    var p := Packet(s.nextId, body);
    s.(conns := s.conns[c := s.conns[c].(toAgent := s.conns[c].toAgent + [p])],
       nextId := s.nextId + 1, last := p, phase := phase)
  }

  /** Takes the next reply off the client's connection. */
  function Take(s: State, phase: Phase): State
    requires CanTake(s)
  {
    var c := s.live.value;
    s.(conns := s.conns[c := s.conns[c].(toClient := s.conns[c].toClient[1..])], phase := phase)
  }

  predicate CanTake(s: State) {
    s.live.Some? && s.live.value < |s.conns| && s.conns[s.live.value].toClient != []
  }

  function End(s: State, o: Outcome): State
    requires s.calls != []
  {
    var k := |s.calls| - 1;
    s.(phase := Idle, calls := s.calls[k := s.calls[k].(outcome := o)])
  }

  function Fail(s: State): State
    requires s.calls != []
  {
    match OnTransient(s.attempt, s.sent, s.calls[|s.calls| - 1].cmd)
    case Retry => Discard(s).(phase := Start, attempt := 1, sent := false)
    case Finish(o) => End(Discard(s), o)
  }

  /** The request is in the writer's buffer when `drain` fails, and goes out while the writer is closed. */
  function Flush(s: State): State
    requires s.live.Some? && s.live.value < |s.conns| && s.calls != []
  {
    Fail(Buffered(s))
  }

  /** The moment before `drain` fails. */
  function Buffered(s: State): State
    requires s.live.Some? && s.live.value < |s.conns| && s.calls != []
  {
    var t := Put(s, Request(s), s.phase);
    t.(history := t.history + [t.last], flushed := t.flushed + {t.last})
  }

  function Request(s: State): Body
    requires s.calls != []
  {
    Command(|s.calls| - 1, s.attempt, s.calls[|s.calls| - 1].cmd)
  }

  /** One client step; a step that is not enabled changes nothing. */
  function ClientStep(s: State, step: Step): State {
    var linked := s.live.Some? && s.live.value < |s.conns|;
    var calling := s.calls != [];
    match step
    case Begin(cmd) =>
      if s.phase == Idle
      then s.(phase := Start, attempt := 0, sent := false, calls := s.calls + [CallRecord(cmd, Pending)])
      else s
    case UseExisting => if s.phase == Start && linked then s.(phase := Ready) else s
    case Connect => if s.phase == Start && (linked ==> s.conns[s.live.value].broken) then Open(s) else s
    case SendShake(body) => if s.phase == Shake && linked && !body.Command? then Put(s, body, ShakeWait) else s
    case ReadShake(done) => if s.phase == ShakeWait && CanTake(s) then Take(s, if done then Ready else Shake) else s
    case HandshakeFails => if s.phase == Shake && calling then End(s, HandshakeError) else s
    case Legacy => if s.phase == Shake || s.phase == ShakeWait then Open(Discard(s)) else s
    case RequestTooBig => if s.phase == Ready && calling then End(s, TooBig) else s
    case SendRequest =>
      if s.phase == Ready && linked && calling then
        var t := Put(s, Request(s), Waiting);
        t.(sent := true, history := t.history + [t.last])
      else s
    case LateFlush => if s.phase == Ready && linked && calling then Flush(s) else s
    case ReadReply =>
      if s.phase == Waiting && CanTake(s) && calling
      then End(Take(s, Idle), Answered(s.conns[s.live.value].toClient[0]))
      else s
    case Transient => if s.phase != Idle && calling then Fail(s) else s
    case _ => s
  }

  /** One step of the agent, which serves the connections one after another. */
  function AgentStep(s: State, step: Step): State {
    if s.serving >= |s.conns| then s
    else
      var c := s.conns[s.serving];
      match step
      case AgentTakes(execute) =>
        if s.holding.None? && c.toAgent != [] then
          var p := c.toAgent[0];
          s.(conns := s.conns[s.serving := c.(toAgent := c.toAgent[1..])], holding := Some(p),
             log := if s.authed && p.body.Command? && execute then s.log + [p] else s.log)
        else s
      case AgentReplies(nowAuthed) =>
        if s.holding.Some? && (s.authed || !s.holding.value.body.Command?) then
          s.(conns := s.conns[s.serving := c.(toClient := c.toClient + [s.holding.value])],
             holding := None, authed := s.authed || nowAuthed)
        else s
      case AgentCloses =>
        BreakConn(s, s.serving).(serving := s.serving + 1, authed := false, holding := None)
      case _ => s
  }

  /** A connection breaks; what was under way on a broken connection may be lost from some point on. */
  function NetworkStep(s: State, step: Step): State {
    match step
    case Break(c) => if c < |s.conns| then BreakConn(s, c) else s
    case Lose(c, i, j) =>
      if c < |s.conns| && s.conns[c].broken && i <= |s.conns[c].toAgent| && j <= |s.conns[c].toClient|
      then s.(conns := s.conns[c := s.conns[c].(toAgent := s.conns[c].toAgent[..i],
                                                toClient := s.conns[c].toClient[..j])])
      else s
    case _ => s
  }

  function Do(s: State, step: Step): State {
    match step
    case AgentTakes(_) => AgentStep(s, step)
    case AgentReplies(_) => AgentStep(s, step)
    case AgentCloses => AgentStep(s, step)
    case Break(_) => NetworkStep(s, step)
    case Lose(_, _, _) => NetworkStep(s, step)
    case _ => ClientStep(s, step)
  }

  /** The state after any interleaving of steps. */
  function Exec(steps: seq<Step>): State {
    if steps == [] then INITIAL else Do(Exec(steps[..|steps| - 1]), steps[|steps| - 1])
  }

  // ------------------------------------------------------------------------------ invariants

  ghost predicate Shape(s: State) {
    && s.serving <= |s.conns|
    && (s.holding.Some? ==> s.serving < |s.conns|)
    && (s.live.Some? ==> s.live.value == |s.conns| - 1)
    && s.attempt <= 1
    && (s.phase != Idle ==> s.calls != [] && s.calls[|s.calls| - 1].outcome == Pending)
    && (s.phase != Idle && s.phase != Start ==> s.live.Some?)
    && (s.phase != Idle ==> (s.sent <==> s.phase == Waiting))
    && (s.phase == Waiting ==> s.last.body == Request(s) && s.last in s.history)
  }

  function Held(s: State, c: nat): seq<Packet> {
    if s.holding.Some? && s.serving == c then [s.holding.value] else []
  }

  /** Everything under way on connection `c`, in either direction or at the agent. */
  function Underway(s: State, c: nat): seq<Packet>
    requires c < |s.conns|
  {
    s.conns[c].toAgent + Held(s, c) + s.conns[c].toClient
  }

  /** The live connection carries at most the one packet the client waits for, and nothing at all
      when it does not wait. */
  ghost predicate Paired(s: State) {
    s.live.Some? && s.live.value < |s.conns| ==>
      var q := Underway(s, s.live.value);
      if s.phase == Waiting || s.phase == ShakeWait then q == [] || q == [s.last] else q == []
  }

  ghost predicate Ascending(ps: seq<Packet>) {
    forall i, j :: 0 <= i < j < |ps| ==> ps[i].id < ps[j].id
  }

  /** Ids grow along every queue and from each connection to the next. */
  ghost predicate QueuesOrdered(s: State) {
    && (forall c :: 0 <= c < |s.conns| ==> Ascending(s.conns[c].toAgent))
    && (forall c, p :: 0 <= c < |s.conns| && p in s.conns[c].toAgent ==> p.id < s.nextId)
    && (forall c, d, p, q :: 0 <= c < d < |s.conns| && p in s.conns[c].toAgent && q in s.conns[d].toAgent ==> p.id < q.id)
  }

  /** What the agent executed came before everything it has yet to read. */
  ghost predicate LogOrdered(s: State) {
    && Ascending(s.log)
    && (forall p :: p in s.log ==> p in s.history)
    && (forall c, p, q :: s.serving <= c < |s.conns| && p in s.log && q in s.conns[c].toAgent ==> p.id < q.id)
  }

  /** The history is every command packet sent, in order. */
  ghost predicate HistoryOrdered(s: State) {
    && Ascending(s.history)
    && (forall p :: p in s.history ==> p.id < s.nextId)
    && (forall c, p :: 0 <= c < |s.conns| && p in s.conns[c].toAgent && p.body.Command? ==> p in s.history)
  }

  ghost predicate Ordered(s: State) {
    QueuesOrdered(s) && LogOrdered(s) && HistoryOrdered(s)
  }

  /** What may be sent again by the second attempt: an idempotent command, or a request that the client
      does not know went out. */
  predicate Repeatable(s: State, p: Packet)
    requires p.body.Command?
  {
    Idempotent(p.body.cmd) || p in s.flushed
  }

  /** What was sent: a command is sent again only by the second attempt, where the first may be repeated. */
  ghost predicate Sent(s: State) {
    && (forall p :: p in s.flushed ==> p in s.history)
    && (s.phase == Waiting ==> s.last !in s.flushed)
    && (forall p :: p in s.history ==>
          p.body.Command? && p.body.call < |s.calls| && p.body.attempt <= 1 && p.body.cmd == s.calls[p.body.call].cmd)
    && (forall i, j :: 0 <= i < j < |s.history| && s.history[i].body.call == s.history[j].body.call ==>
          Repeatable(s, s.history[i]) && s.history[i].body.attempt == 0 && s.history[j].body.attempt == 1)
    && (forall i, j :: 0 <= i < j < |s.history| ==> s.history[i].body.call <= s.history[j].body.call)
    && (s.phase != Idle ==> forall p :: p in s.history && p.body.call == |s.calls| - 1 ==>
          && p.body.attempt <= s.attempt
          && (p.body.attempt == s.attempt ==> s.sent)
          && (p.body.attempt < s.attempt ==> Repeatable(s, p)))
  }

  /** Call `k` sent at most the request of its first attempt, and that may be sent again. */
  ghost predicate OnlyRepeatable(s: State, k: nat) {
    forall p :: p in s.history && p.body.Command? && p.body.call == k ==> p.body.attempt == 0 && Repeatable(s, p)
  }

  /** Attempt `a` of call `k` sent its request, and the client knows it. */
  ghost predicate Drained(s: State, k: nat, a: nat)
    requires k < |s.calls|
  {
    exists p :: p in s.history && p.body == Command(k, a, s.calls[k].cmd) && p !in s.flushed
  }

  /** What an outcome tells about the requests its call sent. */
  ghost predicate Told(s: State, k: nat)
    requires k < |s.calls|
  {
    match s.calls[k].outcome
    case Answered(r) =>
      && r in s.history && r.body.Command? && r.body.call == k
      && forall p :: p in s.history && p.body.Command? && p.body.call == k ==> p.body.attempt <= r.body.attempt
    case HandshakeError => OnlyRepeatable(s, k)
    case TooBig => OnlyRepeatable(s, k)
    case Unreachable =>
      forall p :: p in s.history && p.body.Command? && p.body.call == k ==>
        p in s.flushed || (p.body.attempt == 0 && Idempotent(p.body.cmd))
    case Uncertain =>
      && !Idempotent(s.calls[k].cmd) && !FireAndForget(s.calls[k].cmd) && Drained(s, k, 0)
      && forall p :: p in s.history && p.body.Command? && p.body.call == k ==> p.body.attempt == 0
    case Reraised =>
      && !FireAndForget(s.calls[k].cmd) && Drained(s, k, 1)
      && forall p :: p in s.history && p.body.Command? && p.body.call == k && p.body.attempt == 0 ==> Repeatable(s, p)
    case AssumedDone =>
      FireAndForget(s.calls[k].cmd) && (Drained(s, k, 0) || Drained(s, k, 1))
    case _ => true
  }

  ghost predicate AllTold(s: State) {
    forall k :: 0 <= k < |s.calls| ==> Told(s, k)
  }

  ghost predicate Inv(s: State) {
    Shape(s) && Paired(s) && Ordered(s) && Sent(s) && AllTold(s)
  }

  // ---------------------------------------------------------------- every step keeps them

  /** From `s` to `t` no request was sent or read: queues towards the agent only lost endings. */
  ghost predicate Thinner(s: State, t: State) {
    && |s.conns| <= |t.conns| && s.serving <= t.serving
    && t.nextId == s.nextId && t.history == s.history && t.log == s.log
    && (forall c :: |s.conns| <= c < |t.conns| ==> t.conns[c].toAgent == [])
    && (forall c :: 0 <= c < |s.conns| ==> t.conns[c].toAgent <= s.conns[c].toAgent)
  }

  /** What is on the way in `t` was on the way in `s`. */
  ghost predicate Within(s: State, t: State) {
    forall c, p :: 0 <= c < |t.conns| && p in t.conns[c].toAgent ==> c < |s.conns| && p in s.conns[c].toAgent
  }

  lemma ThinnerWithin(s: State, t: State)
    requires Thinner(s, t)
    ensures Within(s, t)
  {
  }

  lemma ThinnerQueues(s: State, t: State)
    requires QueuesOrdered(s) && Thinner(s, t) && Within(s, t)
    ensures QueuesOrdered(t)
  {
    hide Ascending;
    forall c | 0 <= c < |t.conns| ensures Ascending(t.conns[c].toAgent) {
      if c < |s.conns| {
        AscendingPrefix(t.conns[c].toAgent, s.conns[c].toAgent);
      } else {
        AscendingPrefix([], []);
      }
    }
  }

  lemma AscendingPrefix(a: seq<Packet>, b: seq<Packet>)
    requires a <= b && Ascending(b)
    ensures Ascending(a)
  {
  }

  lemma ThinnerLog(s: State, t: State)
    requires LogOrdered(s) && Thinner(s, t) && Within(s, t)
    ensures LogOrdered(t)
  {
    hide Ascending;
  }

  lemma ThinnerHistory(s: State, t: State)
    requires HistoryOrdered(s) && Thinner(s, t) && Within(s, t)
    ensures HistoryOrdered(t)
  {
    hide Ascending;
  }

  lemma ThinnerOrdered(s: State, t: State)
    requires Ordered(s) && Thinner(s, t)
    ensures Ordered(t)
  {
    hide Thinner, Within, QueuesOrdered, LogOrdered, HistoryOrdered;
    ThinnerWithin(s, t);
    ThinnerQueues(s, t);
    ThinnerLog(s, t);
    ThinnerHistory(s, t);
  }

  lemma PutIn(s: State, body: Body, phase: Phase, c: nat, p: Packet)
    requires s.live.Some? && s.live.value < |s.conns| && c < |s.conns|
    ensures var t := Put(s, body, phase);
            p in t.conns[c].toAgent <==> p in s.conns[c].toAgent || (c == s.live.value && p == t.last)
  {
  }

  lemma PutQueues(s: State, body: Body, phase: Phase)
    requires QueuesOrdered(s) && s.live.Some? && s.live.value == |s.conns| - 1
    ensures QueuesOrdered(Put(s, body, phase))
  {
    hide Ascending;
    var t := Put(s, body, phase);
    var l := s.live.value;
    AscendingPush(s.conns[l].toAgent, t.last);
    forall c, p | 0 <= c < |t.conns| && p in t.conns[c].toAgent
      ensures p.id < t.nextId
    {
      PutIn(s, body, phase, c, p);
    }
    forall c, d, p, q | 0 <= c < d < |t.conns| && p in t.conns[c].toAgent && q in t.conns[d].toAgent
      ensures p.id < q.id
    {
      PutIn(s, body, phase, c, p);
      PutIn(s, body, phase, d, q);
    }
  }

  lemma AscendingIndex(ps: seq<Packet>, a: nat, b: nat)
    requires Ascending(ps) && a < |ps| && b < |ps| && ps[a].id < ps[b].id
    ensures a < b
  {
  }

  lemma AscendingTail(ps: seq<Packet>)
    requires Ascending(ps) && ps != []
    ensures Ascending(ps[1..])
  {
  }

  lemma AscendingPush(ps: seq<Packet>, p: Packet)
    requires Ascending(ps) && forall q :: q in ps ==> q.id < p.id
    ensures Ascending(ps + [p])
  {
    assert forall i :: 0 <= i < |ps| ==> ps[i] in ps;
  }

  lemma PutLog(s: State, body: Body, phase: Phase)
    requires LogOrdered(s) && HistoryOrdered(s) && s.live.Some? && s.live.value == |s.conns| - 1
    ensures LogOrdered(Put(s, body, phase))
  {
    var t := Put(s, body, phase);
    forall c, p, q | t.serving <= c < |t.conns| && p in t.log && q in t.conns[c].toAgent
      ensures p.id < q.id
    {
      PutIn(s, body, phase, c, q);
    }
  }

  lemma PutHistory(s: State, body: Body, phase: Phase)
    requires HistoryOrdered(s) && s.live.Some? && s.live.value == |s.conns| - 1
    ensures var t := Put(s, body, phase);
            (!body.Command? ==> HistoryOrdered(t)) && HistoryOrdered(t.(history := t.history + [t.last]))
  {
    var t := Put(s, body, phase);
    forall c, p | 0 <= c < |t.conns| && p in t.conns[c].toAgent && p.body.Command?
      ensures p in s.history || p == t.last
    {
      PutIn(s, body, phase, c, p);
    }
    assert forall i :: 0 <= i < |s.history| ==> s.history[i] in s.history;
  }

  /** The head of the queue the agent reads comes before everything it reads later. */
  lemma HeadFirst(s: State, d: nat, q: Packet)
    requires QueuesOrdered(s) && s.serving < |s.conns| && s.conns[s.serving].toAgent != []
    requires s.serving <= d < |s.conns|
    requires if d == s.serving then q in s.conns[d].toAgent[1..] else q in s.conns[d].toAgent
    ensures s.conns[s.serving].toAgent[0].id < q.id && q in s.conns[d].toAgent
  {
    hide Ascending;
    var queue := s.conns[s.serving].toAgent;
    HeadIn(queue);
    if d == s.serving {
      TailLater(queue, q);
    }
  }

  lemma HeadIn(queue: seq<Packet>)
    requires queue != []
    ensures queue[0] in queue
  {
  }

  lemma TailLater(queue: seq<Packet>, q: Packet)
    requires queue != [] && Ascending(queue) && q in queue[1..]
    ensures queue[0].id < q.id && q in queue
  {
    var i :| 0 <= i < |queue| - 1 && queue[1..][i] == q;
    assert queue[i + 1] == q;
  }

  lemma AgentTakesQueues(s: State, execute: bool)
    requires QueuesOrdered(s)
    ensures QueuesOrdered(AgentStep(s, AgentTakes(execute)))
  {
    hide Ascending;
    var t := AgentStep(s, AgentTakes(execute));
    if t != s {
      AscendingTail(s.conns[s.serving].toAgent);
      TakenFrom(s, t);
    }
  }

  lemma TakenFrom(s: State, t: State)
    requires s.serving < |s.conns| && s.conns[s.serving].toAgent != []
    requires t.conns == s.conns[s.serving := s.conns[s.serving].(toAgent := s.conns[s.serving].toAgent[1..])]
    ensures forall d, q :: 0 <= d < |t.conns| && q in t.conns[d].toAgent ==> q in s.conns[d].toAgent
  {
    forall d, q | 0 <= d < |t.conns| && q in t.conns[d].toAgent ensures q in s.conns[d].toAgent {
      if d == s.serving {
        var queue := s.conns[d].toAgent;
        var i :| 0 <= i < |queue| - 1 && queue[1..][i] == q;
        assert queue[i + 1] == q;
      }
    }
  }

  lemma AgentTakesLog(s: State, execute: bool)
    requires QueuesOrdered(s) && LogOrdered(s) && HistoryOrdered(s)
    ensures LogOrdered(AgentStep(s, AgentTakes(execute)))
  {
    var t := AgentStep(s, AgentTakes(execute));
    if t != s {
      var p := s.conns[s.serving].toAgent[0];
      assert p in s.conns[s.serving].toAgent;
      LaterThanHead(s, t);
      hide Ascending, QueuesOrdered;
      if t.log != s.log { AscendingPush(s.log, p); }
      forall q | q in t.log ensures q in s.log || (q == p && p in s.history) {
      }
    }
  }

  lemma LaterThanHead(s: State, t: State)
    requires QueuesOrdered(s) && s.serving < |s.conns| && s.conns[s.serving].toAgent != []
    requires t.conns == s.conns[s.serving := s.conns[s.serving].(toAgent := s.conns[s.serving].toAgent[1..])]
    ensures forall d, r :: s.serving <= d < |t.conns| && r in t.conns[d].toAgent ==>
      s.conns[s.serving].toAgent[0].id < r.id && r in s.conns[d].toAgent
  {
    forall d, r | s.serving <= d < |t.conns| && r in t.conns[d].toAgent
      ensures s.conns[s.serving].toAgent[0].id < r.id && r in s.conns[d].toAgent
    {
      HeadFirst(s, d, r);
    }
  }

  lemma AgentTakesHistory(s: State, execute: bool)
    requires HistoryOrdered(s)
    ensures HistoryOrdered(AgentStep(s, AgentTakes(execute)))
  {
    var t := AgentStep(s, AgentTakes(execute));
    forall d, q | 0 <= d < |t.conns| && q in t.conns[d].toAgent ensures q in s.conns[d].toAgent {
    }
  }

  predicate Sends(step: Step) {
    step.SendShake? || step.SendRequest? || step.LateFlush?
  }

  lemma OthersThin(s: State, step: Step)
    requires Shape(s) && !Sends(step) && !step.AgentTakes?
    ensures Thinner(s, Do(s, step))
  {
    hide OnTransient, Thinner, ClientStep, AgentStep, NetworkStep;
    match step
    case AgentReplies(_) => AgentThin(s, step);
    case AgentCloses => AgentThin(s, step);
    case Break(_) => NetworkThin(s, step);
    case Lose(_, _, _) => NetworkThin(s, step);
    case _ => ClientThin(s, step);
  }

  lemma AgentThin(s: State, step: Step)
    requires Shape(s) && (step.AgentReplies? || step.AgentCloses?)
    ensures Thinner(s, AgentStep(s, step))
  {
  }

  lemma NetworkThin(s: State, step: Step)
    requires step.Break? || step.Lose?
    ensures Thinner(s, NetworkStep(s, step))
  {
  }

  lemma ClientThin(s: State, step: Step)
    requires Shape(s) && !Sends(step)
    ensures Thinner(s, ClientStep(s, step))
  {
    hide OnTransient, Fail;
    if step.Transient? { FailThin(s); }
  }

  lemma FailThin(s: State)
    ensures s.calls != [] ==> Thinner(s, Fail(s))
  {
    hide OnTransient;
  }

  lemma OrderedKept(s: State, step: Step)
    requires Shape(s) && Ordered(s)
    ensures Ordered(Do(s, step))
  {
    if step.AgentTakes? {
      AgentTakesQueues(s, step.execute);
      AgentTakesLog(s, step.execute);
      AgentTakesHistory(s, step.execute);
    } else if Sends(step) {
      SendsOrdered(s, step);
    } else {
      OthersThin(s, step);
      ThinnerOrdered(s, Do(s, step));
    }
  }

  lemma SendsOrdered(s: State, step: Step)
    requires Shape(s) && Ordered(s) && Sends(step)
    ensures Ordered(Do(s, step))
  {
    hide Ordered, Buffered, Put, Request;
    if Do(s, step) != s {
      match step
      case SendShake(body) => ShakeOrdered(s, body);
      case SendRequest => BufferedOrdered(s); RequestPuts(s); SameOrdered(Buffered(s), Do(s, step));
      case LateFlush => FlushOrdered(s);
    }
  }

  lemma RequestPuts(s: State)
    requires Do(s, SendRequest) != s
    ensures s.live.Some? && s.live.value < |s.conns| && s.calls != [] && SameQueues(Buffered(s), Do(s, SendRequest))
  {
    hide Request;
  }

  predicate SameQueues(s: State, t: State) {
    t.conns == s.conns && t.serving == s.serving && t.nextId == s.nextId && t.history == s.history && t.log == s.log
  }

  lemma SameOrdered(s: State, t: State)
    requires Ordered(s) && SameQueues(s, t)
    ensures Ordered(t)
  {
    hide Ascending;
  }

  lemma ShakeOrdered(s: State, body: Body)
    requires Ordered(s) && s.live.Some? && s.live.value == |s.conns| - 1 && !body.Command?
    ensures Ordered(Put(s, body, ShakeWait))
  {
    hide QueuesOrdered, LogOrdered, HistoryOrdered, Put;
    PutQueues(s, body, ShakeWait);
    PutLog(s, body, ShakeWait);
    PutHistory(s, body, ShakeWait);
  }

  lemma BufferedOrdered(s: State)
    requires Ordered(s) && s.live.Some? && s.live.value == |s.conns| - 1 && s.calls != []
    ensures Ordered(Buffered(s))
  {
    hide Ascending, Request, Put;
    PutQueues(s, Request(s), s.phase);
    PutLog(s, Request(s), s.phase);
    PutHistory(s, Request(s), s.phase);
    PutKeeps(s, Request(s), s.phase);
    var t := Put(s, Request(s), s.phase);
    assert forall p :: p in t.log ==> p in t.history;
  }

  lemma PutKeeps(s: State, body: Body, phase: Phase)
    requires s.live.Some? && s.live.value < |s.conns|
    ensures var t := Put(s, body, phase); t.log == s.log && t.history == s.history && t.serving == s.serving
  {
  }

  lemma FlushOrdered(s: State)
    requires Shape(s) && Ordered(s)
    ensures Ordered(Do(s, LateFlush))
  {
    hide Ordered, Buffered, Fail, Thinner;
    if s.phase == Ready && s.live.Some? && s.live.value < |s.conns| && s.calls != [] {
      BufferedOrdered(s);
      FailThin(Buffered(s));
      BufferedCalls(s);
      ThinnerOrdered(Buffered(s), Fail(Buffered(s)));
    }
  }

  lemma BufferedCalls(s: State)
    requires s.live.Some? && s.live.value < |s.conns| && s.calls != []
    ensures Buffered(s).calls == s.calls
  {
  }

  lemma ShapeKept(s: State, step: Step)
    requires Shape(s)
    ensures Shape(Do(s, step))
  {
    hide Shape;
    match step
    case AgentTakes(_) => AgentShape(s, step);
    case AgentReplies(_) => AgentShape(s, step);
    case AgentCloses => AgentShape(s, step);
    case Break(_) => NetworkShape(s, step);
    case Lose(_, _, _) => NetworkShape(s, step);
    case Transient => TransientShape(s);
    case LateFlush => FlushShape(s);
    case _ => ClientShape(s, step);
  }

  lemma AgentShape(s: State, step: Step)
    requires Shape(s)
    ensures Shape(AgentStep(s, step))
  {
  }

  lemma NetworkShape(s: State, step: Step)
    requires Shape(s)
    ensures Shape(NetworkStep(s, step))
  {
  }

  lemma ClientShape(s: State, step: Step)
    requires Shape(s) && !step.Transient? && !step.LateFlush?
    ensures Shape(ClientStep(s, step))
  {
    var t := ClientStep(s, step);
    if step.SendRequest? && t != s { assert t.history[|t.history| - 1] == t.last; }
  }

  lemma TransientShape(s: State)
    requires Shape(s)
    ensures Shape(ClientStep(s, Transient))
  {
    hide OnTransient;
  }

  lemma FlushShape(s: State)
    requires Shape(s)
    ensures Shape(ClientStep(s, LateFlush))
  {
    hide OnTransient, Fail;
    if s.phase == Ready && s.live.Some? && s.live.value < |s.conns| && s.calls != [] {
      assert Shape(Buffered(s));
      TransientShape(Buffered(s));
    }
  }

  lemma PairedKept(s: State, step: Step)
    requires Shape(s) && Paired(s)
    ensures Paired(Do(s, step))
  {
    hide Paired, Shape;
    match step
    case AgentTakes(_) => AgentPaired(s, step);
    case AgentReplies(_) => AgentPaired(s, step);
    case AgentCloses => AgentPaired(s, step);
    case Break(_) => NetworkPaired(s, step);
    case Lose(_, _, _) => NetworkPaired(s, step);
    case Transient => TransientPaired(s);
    case LateFlush => FlushPaired(s);
    case _ => ClientPaired(s, step);
  }

  lemma AgentPaired(s: State, step: Step)
    requires Shape(s) && Paired(s)
    ensures Paired(AgentStep(s, step))
  {
    hide Request, Shape;
    ShapeAgent(s);
    if s.live.Some? && s.live.value < |s.conns| {
      var c := s.live.value;
      Part(s.conns[c].toAgent + Held(s, c), s.conns[c].toClient, s.last);
    }
  }

  lemma ShapeAgent(s: State)
    requires Shape(s)
    ensures s.holding.Some? ==> s.serving < |s.conns|
  {
  }

  lemma Part(x: seq<Packet>, y: seq<Packet>, p: Packet)
    requires x + y == [] || x + y == [p]
    ensures (x == [] && (y == [] || y == [p])) || (x == [p] && y == [])
  {
    if |x| == 1 { assert x == (x + y)[..1]; }
    if |x| == 0 { assert y == x + y; }
  }

  lemma NetworkPaired(s: State, step: Step)
    requires Paired(s)
    ensures Paired(NetworkStep(s, step))
  {
  }

  lemma TransientPaired(s: State)
    requires Shape(s)
    ensures Paired(s) ==> Paired(ClientStep(s, Transient))
  {
    hide OnTransient;
  }

  /** The connection that a request was flushed over is given up. */
  lemma FlushPaired(s: State)
    requires Shape(s) && Paired(s)
    ensures Paired(ClientStep(s, LateFlush))
  {
    hide OnTransient, Request;
  }

  lemma PutPaired(s: State, body: Body, phase: Phase)
    requires Shape(s) && Paired(s) && s.live.Some? && s.live.value < |s.conns| && s.phase != Waiting && s.phase != ShakeWait
    requires phase == Waiting || phase == ShakeWait
    ensures Paired(Put(s, body, phase))
  {
    hide Shape;
    var c := s.live.value;
    Part(s.conns[c].toAgent + Held(s, c), s.conns[c].toClient, s.last);
    assert s.conns[c].toAgent == [] && Held(s, c) == [];
  }

  lemma TakePaired(s: State, phase: Phase)
    requires Paired(s) && CanTake(s) && (s.phase == Waiting || s.phase == ShakeWait)
    requires phase != Waiting && phase != ShakeWait
    ensures Paired(Take(s, phase)) && Take(s, phase).phase == phase
  {
    var c := s.live.value;
    Part(s.conns[c].toAgent + Held(s, c), s.conns[c].toClient, s.last);
    assert s.conns[c].toAgent == [] && Held(s, c) == [];
  }

  lemma OpenPaired(s: State)
    requires s.holding.Some? ==> s.serving < |s.conns|
    ensures Paired(Open(s))
  {
  }

  lemma ClientPaired(s: State, step: Step)
    requires Shape(s) && Paired(s) && !step.Transient? && !step.LateFlush?
    ensures Paired(ClientStep(s, step))
  {
    hide Request, Put, Take, Open, Discard;
    match step
    case Connect => if s.phase == Start { OpenPaired(s); }
    case Legacy => DiscardServes(s); OpenPaired(Discard(s));
    case SendShake(body) =>
      if s.phase == Shake && s.live.Some? && s.live.value < |s.conns| { PutPaired(s, body, ShakeWait); }
    case SendRequest =>
      if s.phase == Ready && s.live.Some? && s.live.value < |s.conns| && s.calls != [] { PutPaired(s, Request(s), Waiting); }
    case ReadShake(done) => if s.phase == ShakeWait && CanTake(s) { TakePaired(s, if done then Ready else Shake); }
    case ReadReply => if s.phase == Waiting && CanTake(s) { TakePaired(s, Idle); }
    case _ =>
  }

  lemma DiscardServes(s: State)
    requires Shape(s)
    ensures Discard(s).holding.Some? ==> Discard(s).serving < |Discard(s).conns|
  {
  }

  /** Nothing was sent, no call was added, and the open call is where it was or over. */
  ghost predicate SameSent(s: State, t: State) {
    && t.history == s.history && t.flushed == s.flushed && |t.calls| == |s.calls|
    && (forall k :: 0 <= k < |s.calls| ==> t.calls[k].cmd == s.calls[k].cmd)
    && (t.phase == Waiting ==> s.phase == Waiting && t.last == s.last)
    && (t.phase != Idle ==> s.phase != Idle && t.attempt == s.attempt && t.sent == s.sent)
  }

  lemma SentKept(s: State, step: Step)
    requires Shape(s) && HistoryOrdered(s) && Sent(s)
    ensures Sent(Do(s, step))
  {
    hide Idempotent, FireAndForget;
    match step
    case SendRequest => RequestSent(s);
    case LateFlush => FlushSent(s);
    case Transient => TransientSent(s);
    case Begin(cmd) => BeginSent(s, step);
    case _ => OthersSameSent(s, step); SameSentKeeps(s, Do(s, step));
  }

  lemma SameSentKeeps(s: State, t: State)
    requires Sent(s) && SameSent(s, t)
    ensures Sent(t)
  {
    hide Idempotent;
  }

  lemma OthersSameSent(s: State, step: Step)
    requires !step.SendRequest? && !step.LateFlush? && !step.Transient? && !step.Begin?
    ensures SameSent(s, Do(s, step))
  {
    hide SameSent, ClientStep, AgentStep, NetworkStep;
    match step
    case AgentTakes(_) => AgentSameSent(s, step);
    case AgentReplies(_) => AgentSameSent(s, step);
    case AgentCloses => AgentSameSent(s, step);
    case Break(_) => NetworkSameSent(s, step);
    case Lose(_, _, _) => NetworkSameSent(s, step);
    case _ => ClientSameSent(s, step);
  }

  lemma AgentSameSent(s: State, step: Step)
    ensures SameSent(s, AgentStep(s, step))
  {
  }

  lemma NetworkSameSent(s: State, step: Step)
    ensures SameSent(s, NetworkStep(s, step))
  {
  }

  lemma ClientSameSent(s: State, step: Step)
    requires !step.SendRequest? && !step.LateFlush? && !step.Transient? && !step.Begin?
    ensures SameSent(s, ClientStep(s, step))
  {
    hide Fail, Request, Flush, Buffered;
  }

  lemma BeginSent(s: State, step: Step)
    requires Shape(s) && Sent(s) && step.Begin?
    ensures Sent(Do(s, step))
  {
    hide Idempotent;
  }

  lemma RequestFacts(s: State)
    requires Shape(s)
    ensures var t := Do(s, SendRequest);
            t != s ==> && t.history == s.history + [t.last] && t.last.body == Request(s) && t.last.id == s.nextId
                       && t.flushed == s.flushed
                       && t.calls == s.calls && t.attempt == s.attempt && t.sent && t.phase != Idle && s.phase == Ready
  {
    hide Request;
  }

  /** A packet with a new id is in no old list. */
  lemma NewPacket(s: State, p: Packet)
    requires HistoryOrdered(s) && Sent(s) && p.id == s.nextId
    ensures p !in s.history && p !in s.flushed
  {
  }

  lemma RequestSent(s: State)
    requires Shape(s) && HistoryOrdered(s) && Sent(s)
    ensures Sent(Do(s, SendRequest))
  {
    hide Idempotent, Do, HistoryOrdered;
    var t := Do(s, SendRequest);
    RequestFacts(s);
    if t != s {
      NewPacket(s, t.last);
      AddSent(s, t, t.last);
    }
  }

  lemma AddSent(s: State, t: State, p: Packet)
    requires Shape(s) && Sent(s) && s.phase == Ready && p.body == Request(s) && p !in s.history && p !in s.flushed
    requires t.history == s.history + [p] && t.flushed == s.flushed && t.calls == s.calls
    requires t.attempt == s.attempt && t.sent && t.last == p
    ensures Sent(t)
  {
    hide Idempotent;
    forall q | q in t.history ensures q in s.history || q == p {
    }
    forall q | q in s.history && q.body.call == |s.calls| - 1 ensures q.body.attempt < s.attempt && Repeatable(t, q) {
      assert Repeatable(s, q);
    }
    PushPairs(s, t, p);
  }

  /** Any two requests of one call are those of its two attempts. */
  lemma PushPairs(s: State, t: State, p: Packet)
    requires Shape(s) && Sent(s) && s.phase == Ready && p.body == Request(s)
    requires t.history == s.history + [p] && s.flushed <= t.flushed && |t.calls| == |s.calls|
    ensures forall i, j :: 0 <= i < j < |t.history| && t.history[i].body.call == t.history[j].body.call ==>
      t.history[i].body.Command? && Repeatable(t, t.history[i]) && t.history[i].body.attempt == 0 && t.history[j].body.attempt == 1
  {
    hide Idempotent;
    forall i, j | 0 <= i < j < |t.history| && t.history[i].body.call == t.history[j].body.call
      ensures t.history[i].body.Command? && Repeatable(t, t.history[i])
      ensures t.history[i].body.attempt == 0 && t.history[j].body.attempt == 1
    {
      assert t.history[i] in s.history;
      if j < |s.history| { assert Repeatable(s, s.history[i]); }
    }
  }

  lemma FlushFacts(s: State)
    requires Shape(s) && s.phase == Ready
    ensures s.live.Some? && s.live.value < |s.conns| && s.calls != []
    ensures var b := Buffered(s);
            && b.history == s.history + [b.last] && b.flushed == s.flushed + {b.last} && b.last.id == s.nextId
            && b.last.body == Request(s) && b.calls == s.calls && b.attempt == s.attempt && !b.sent && b.phase == Ready
  {
  }

  lemma FlushSent(s: State)
    requires Shape(s) && HistoryOrdered(s) && Sent(s)
    ensures Sent(Do(s, LateFlush))
  {
    hide Idempotent, FireAndForget, Fail, Buffered;
    if s.phase == Ready {
      FlushFacts(s);
      var b := Buffered(s);
      NewPacket(s, b.last);
      FailFacts(b);
      var t := Fail(b);
      PushSent(s, t, b.last);
    }
  }

  /** What the flushed request adds. */
  lemma PushSent(s: State, t: State, p: Packet)
    requires Shape(s) && Sent(s) && s.phase == Ready && p.body == Request(s) && p !in s.history
    requires t.history == s.history + [p] && t.flushed == s.flushed + {p} && |t.calls| == |s.calls|
    requires forall k :: 0 <= k < |s.calls| ==> t.calls[k].cmd == s.calls[k].cmd
    requires t.phase == Idle || (t.phase == Start && s.attempt == 0 && t.attempt == 1)
    ensures Sent(t)
  {
    hide Idempotent;
    forall q | q in t.history ensures q in s.history || q == p {
    }
    forall q | q in s.history && q.body.call == |s.calls| - 1 ensures q.body.attempt < s.attempt && Repeatable(t, q) {
      assert Repeatable(s, q);
    }
    PushPairs(s, t, p);
  }

  /** What `Fail` leaves alone. */
  lemma FailFacts(s: State)
    requires s.calls != []
    ensures var t := Fail(s);
            && t.history == s.history && t.flushed == s.flushed && |t.calls| == |s.calls|
            && (forall k :: 0 <= k < |s.calls| - 1 ==> t.calls[k] == s.calls[k])
            && t.calls[|s.calls| - 1].cmd == s.calls[|s.calls| - 1].cmd
            && (match OnTransient(s.attempt, s.sent, s.calls[|s.calls| - 1].cmd)
                case Retry => t.phase == Start && t.attempt == 1 && !t.sent && t.calls == s.calls
                case Finish(o) => t.phase == Idle && t.calls[|s.calls| - 1].outcome == o)
  {
    hide OnTransient;
  }

  lemma TransientSent(s: State)
    requires Shape(s) && Sent(s)
    ensures Sent(Do(s, Transient))
  {
    hide Idempotent, Fail, OnTransient;
    if s.phase != Idle {
      FailFacts(s);
      var n := |s.calls| - 1;
      RetryMeans(s.attempt, s.sent, s.calls[n].cmd);
      forall p | p in s.history && p.body.call == n ensures p.body.attempt < 1 ==> s.attempt == 1 || s.sent {
      }
    }
  }

  lemma RetryMeans(attempt: nat, sent: bool, cmd: string)
    ensures OnTransient(attempt, sent, cmd) == Retry ==> attempt != 1 && (sent ==> Idempotent(cmd))
  {
    hide Idempotent, FireAndForget;
  }

  /** A finished call is told the same by a history that only grew by requests of the open call. */
  lemma ToldStays(s: State, t: State, k: nat)
    requires k < |s.calls| && k < |t.calls| && t.calls[k] == s.calls[k] && Told(s, k)
    requires forall p :: p in s.history ==> p in t.history
    requires forall p :: p in t.history && p !in s.history ==> p.body.Command? && p.body.call != k
    requires s.flushed <= t.flushed && forall p :: p in s.history && p in t.flushed ==> p in s.flushed
    ensures Told(t, k)
  {
    hide Idempotent, FireAndForget;
  }

  lemma ToldKept(s: State, step: Step)
    requires Shape(s) && Paired(s) && HistoryOrdered(s) && Sent(s) && AllTold(s)
    ensures AllTold(Do(s, step))
  {
    hide Idempotent, FireAndForget, Told, Sent, Paired;
    match step
    case Transient => TransientTold(s);
    case ReadReply => ReplyTold(s);
    case SendRequest => RequestTold(s);
    case LateFlush => FlushTold(s);
    case Begin(_) => BeginTold(s, step);
    case HandshakeFails => QuietTold(s, step);
    case RequestTooBig => QuietTold(s, step);
    case _ => SameTold(s, step);
  }

  lemma SameCalls(s: State, step: Step)
    requires !step.Transient? && !step.ReadReply? && !step.SendRequest? && !step.LateFlush? && !step.Begin?
    requires !step.HandshakeFails? && !step.RequestTooBig?
    ensures var t := Do(s, step); t.calls == s.calls && t.history == s.history && t.flushed == s.flushed
  {
    hide Fail, Flush, Buffered, Request;
  }

  lemma SameTold(s: State, step: Step)
    requires AllTold(s)
    requires !step.Transient? && !step.ReadReply? && !step.SendRequest? && !step.LateFlush? && !step.Begin?
    requires !step.HandshakeFails? && !step.RequestTooBig?
    ensures AllTold(Do(s, step))
  {
    hide Told, Do;
    var t := Do(s, step);
    SameCalls(s, step);
    forall k | 0 <= k < |t.calls| ensures Told(t, k) { ToldStays(s, t, k); }
  }

  lemma QuietTold(s: State, step: Step)
    requires Shape(s) && Sent(s) && AllTold(s) && (step.HandshakeFails? || step.RequestTooBig?)
    ensures AllTold(Do(s, step))
  {
    var t := Do(s, step);
    forall k | 0 <= k < |t.calls| ensures Told(t, k) {
      if t.calls[k] == s.calls[k] { ToldStays(s, t, k); }
    }
  }

  lemma BeginTold(s: State, step: Step)
    requires AllTold(s) && step.Begin?
    ensures AllTold(Do(s, step))
  {
    var t := Do(s, step);
    forall k | 0 <= k < |t.calls| ensures Told(t, k) {
      if k < |s.calls| { ToldStays(s, t, k); }
    }
  }

  lemma RequestTold(s: State)
    requires Shape(s) && AllTold(s)
    ensures AllTold(Do(s, SendRequest))
  {
    var t := Do(s, SendRequest);
    forall k | 0 <= k < |t.calls| ensures Told(t, k) {
      if t != s {
        assert t.history == s.history + [t.last] && t.last.body == Request(s);
      }
      if t == s || k < |s.calls| - 1 { ToldStays(s, t, k); }
    }
  }

  lemma ReplyTold(s: State)
    requires Shape(s) && Paired(s) && Sent(s) && AllTold(s)
    ensures AllTold(Do(s, ReadReply))
  {
    var t := Do(s, ReadReply);
    if t != s {
      OnlyReply(s);
    }
    forall k | 0 <= k < |t.calls| ensures Told(t, k) {
      if t.calls[k] == s.calls[k] { ToldStays(s, t, k); }
    }
  }

  /** The reply the client reads answers the last thing it sent. */
  lemma OnlyReply(s: State)
    requires Shape(s) && Paired(s) && (s.phase == Waiting || s.phase == ShakeWait) && CanTake(s)
    ensures s.conns[s.live.value].toClient[0] == s.last
  {
    var q := Underway(s, s.live.value);
    var r := s.conns[s.live.value].toClient;
    assert q[|q| - |r|] == r[0];
  }

  lemma TransientTold(s: State)
    requires Shape(s) && Sent(s) && AllTold(s)
    ensures AllTold(Do(s, Transient))
  {
    var t := Do(s, Transient);
    hide Fail, Idempotent, FireAndForget, OnTransient;
    if s.phase != Idle {
      FailFacts(s);
      var n := |s.calls| - 1;
      forall k | 0 <= k < |t.calls| ensures Told(t, k) {
        if k < n || t.calls == s.calls { ToldStays(s, t, k); } else { VerdictTold(s, t); }
      }
    }
  }

  lemma FlushTold(s: State)
    requires Shape(s) && HistoryOrdered(s) && Sent(s) && AllTold(s)
    ensures AllTold(Do(s, LateFlush))
  {
    hide Fail, Idempotent, FireAndForget, OnTransient, Buffered;
    if s.phase == Ready {
      FlushFacts(s);
      var b := Buffered(s);
      NewPacket(s, b.last);
      FailFacts(b);
      var t := Fail(b);
      var n := |s.calls| - 1;
      forall p | p in t.history && p !in s.history ensures p == b.last {
      }
      forall k | 0 <= k < |t.calls| ensures Told(t, k) {
        if k < n { ToldStays(s, t, k); } else { FlushVerdict(s, t, b.last); }
      }
    }
  }

  /** A call whose request was flushed goes on, or is told `unreachable`. */
  lemma FlushVerdict(s: State, t: State, p: Packet)
    requires Shape(s) && Sent(s) && s.phase == Ready && p.body == Request(s)
    requires t.history == s.history + [p] && t.flushed == s.flushed + {p} && |t.calls| == |s.calls|
    requires t.calls[|s.calls| - 1].cmd == s.calls[|s.calls| - 1].cmd
    requires match OnTransient(s.attempt, false, s.calls[|s.calls| - 1].cmd)
             case Retry => t.calls == s.calls
             case Finish(o) => t.calls[|s.calls| - 1].outcome == o
    ensures Told(t, |s.calls| - 1)
  {
    hide Idempotent, FireAndForget;
  }

  /** The verdict on the open call is backed by what it sent. */
  lemma VerdictTold(s: State, t: State)
    requires Shape(s) && Sent(s) && s.phase != Idle
    requires t.history == s.history && t.flushed == s.flushed && |t.calls| == |s.calls|
    requires t.calls[|s.calls| - 1].cmd == s.calls[|s.calls| - 1].cmd
    requires OnTransient(s.attempt, s.sent, s.calls[|s.calls| - 1].cmd) == Finish(t.calls[|s.calls| - 1].outcome)
    ensures Told(t, |s.calls| - 1)
  {
    hide Idempotent, FireAndForget;
    if s.sent { assert s.last in t.history && s.last.body == Request(s); }
  }

  // ------------------------------------------------------------------------- over every run

  /** The invariants hold after every interleaving of client, agent and network steps. */
  lemma {:induction false} InvAlways(steps: seq<Step>)
    ensures Inv(Exec(steps))
  {
    if steps != [] {
      var s := Exec(steps[..|steps| - 1]);
      var step := steps[|steps| - 1];
      InvAlways(steps[..|steps| - 1]);
      ShapeKept(s, step);
      PairedKept(s, step);
      OrderedKept(s, step);
      SentKept(s, step);
      ToldKept(s, step);
    }
  }

  /** Pairing: a call that returned a reply returned the agent's reply to the last request of that very
      call, not to one of an attempt given up before, although ids are never compared. */
  lemma RepliesAnswerTheirCall(steps: seq<Step>, k: nat)
    requires k < |Exec(steps).calls| && Exec(steps).calls[k].outcome.Answered?
    ensures var r := Exec(steps).calls[k].outcome.reply;
            && r.body.Command? && r.body.call == k && r.body.cmd == Exec(steps).calls[k].cmd && r in Exec(steps).history
            && forall p :: p in Exec(steps).history && p.body.Command? && p.body.call == k ==>
                 p == r || p.body.attempt < r.body.attempt
  {
    InvAlways(steps);
    AnsweredLast(Exec(steps), k);
  }

  lemma AnsweredLast(s: State, k: nat)
    requires Sent(s) && AllTold(s) && k < |s.calls| && s.calls[k].outcome.Answered?
    ensures var r := s.calls[k].outcome.reply;
            && r.body.Command? && r.body.call == k && r.body.cmd == s.calls[k].cmd && r in s.history
            && forall p :: p in s.history && p.body.Command? && p.body.call == k ==> p == r || p.body.attempt < r.body.attempt
  {
    hide Idempotent;
    assert Told(s, k);
    var r := s.calls[k].outcome.reply;
    var b :| 0 <= b < |s.history| && s.history[b] == r;
    forall p | p in s.history && p.body.Command? && p.body.call == k ensures p == r || p.body.attempt < r.body.attempt {
      var a :| 0 <= a < |s.history| && s.history[a] == p;
    }
  }

  /** Resynchronisation: whenever the lock is free, a live connection has no outstanding request
      and no unread reply, in either direction or at the agent. */
  lemma QuietWhenFree(steps: seq<Step>)
    ensures var s := Exec(steps);
            s.phase == Idle && s.live.Some? ==>
              s.live.value < |s.conns| && Underway(s, s.live.value) == []
  {
    InvAlways(steps);
  }

  /** How often the agent executed requests of call `k`. */
  function Executions(log: seq<Packet>, k: nat): nat {
    if log == [] then 0
    else Executions(log[..|log| - 1], k)
         + if log[|log| - 1].body.Command? && log[|log| - 1].body.call == k then 1 else 0
  }

  lemma {:induction false} ExecutionsBound(log: seq<Packet>, k: nat)
    requires forall p :: p in log ==> p.body.Command? && p.body.attempt <= 1
    requires forall i, j :: 0 <= i < j < |log| && log[i].body.call == log[j].body.call ==>
      log[i].body.attempt == 0 && log[j].body.attempt == 1
    ensures Executions(log, k) <= 2
    ensures Executions(log, k) > 0 ==> exists i :: 0 <= i < |log| && log[i].body.call == k
    ensures Executions(log, k) == 2 ==>
      exists i, j :: 0 <= i < j < |log| && log[i].body.call == log[j].body.call == k
  {
    if log != [] {
      var n := |log| - 1;
      var pre := log[..n];
      forall p | p in pre ensures p in log { }
      ExecutionsBound(pre, k);
      if log[n].body.call == k {
        if Executions(pre, k) == 2 {
          assert false;
        } else if Executions(pre, k) == 1 {
          var i :| 0 <= i < |pre| && pre[i].body.call == k;
          assert log[i] == pre[i];
        }
      } else if Executions(pre, k) == 2 {
        var i, j :| 0 <= i < j < |pre| && pre[i].body.call == pre[j].body.call == k;
        assert log[j] == pre[j] && log[i] == pre[i];
      } else if Executions(pre, k) == 1 {
        var i :| 0 <= i < |pre| && pre[i].body.call == k;
        assert log[i] == pre[i];
      }
    }
  }

  /** Executed requests were sent, once each and in the same order. */
  lemma LogFollowsHistory(s: State)
    requires Ordered(s) && Sent(s)
    ensures forall i, j :: 0 <= i < j < |s.log| && s.log[i].body.call == s.log[j].body.call ==>
      Repeatable(s, s.log[i]) && s.log[i].body.attempt == 0 && s.log[j].body.attempt == 1
  {
    hide Repeatable;
    forall i, j | 0 <= i < j < |s.log| && s.log[i].body.call == s.log[j].body.call
      ensures Repeatable(s, s.log[i]) && s.log[i].body.attempt == 0 && s.log[j].body.attempt == 1
    {
      assert s.log[i] in s.history && s.log[j] in s.history;
      var a :| 0 <= a < |s.history| && s.history[a] == s.log[i];
      var b :| 0 <= b < |s.history| && s.history[b] == s.log[j];
      assert s.log[i].id < s.log[j].id;
      AscendingIndex(s.history, a, b);
    }
  }

  /** The first request of call `k` went out although its drain had failed. */
  ghost predicate FlushedFirst(s: State, k: nat) {
    exists p :: p in s.flushed && p.body.Command? && p.body.call == k && p.body.attempt == 0
  }

  /** The agent executed the request of attempt `a`. */
  ghost predicate Ran(log: seq<Packet>, k: nat, a: nat) {
    exists p :: p in log && p.body.Command? && p.body.call == k && p.body.attempt == a
  }

  lemma ExecutedAtMostIn(s: State, k: nat)
    requires Ordered(s) && Sent(s) && k < |s.calls|
    ensures Executions(s.log, k) <= if Idempotent(s.calls[k].cmd) || FlushedFirst(s, k) then 2 else 1
  {
    hide Idempotent, Ascending, QueuesOrdered, HistoryOrdered;
    LogFollowsHistory(s);
    ExecutionsBound(s.log, k);
    if Executions(s.log, k) == 2 {
      var i, j :| 0 <= i < j < |s.log| && s.log[i].body.call == s.log[j].body.call == k;
      assert s.log[i] in s.history && Repeatable(s, s.log[i]);
    }
  }

  lemma TwiceIn(s: State, k: nat)
    requires Ordered(s) && Sent(s)
    ensures Executions(s.log, k) == 2 <==> Ran(s.log, k, 0) && Ran(s.log, k, 1)
  {
    hide Repeatable, Ascending, QueuesOrdered, HistoryOrdered, Executions, Ran;
    LogFollowsHistory(s);
    TwiceRan(s.log, k);
    BothTwice(s.log, k);
  }

  lemma TwiceRan(log: seq<Packet>, k: nat)
    requires forall p :: p in log ==> p.body.Command? && p.body.attempt <= 1
    requires forall i, j :: 0 <= i < j < |log| && log[i].body.call == log[j].body.call ==>
      log[i].body.attempt == 0 && log[j].body.attempt == 1
    ensures Executions(log, k) <= 2
    ensures Executions(log, k) == 2 ==> Ran(log, k, 0) && Ran(log, k, 1)
  {
    ExecutionsBound(log, k);
    if Executions(log, k) == 2 {
      hide Executions;
      var i, j :| 0 <= i < j < |log| && log[i].body.call == log[j].body.call == k;
      assert log[i] in log && log[j] in log;
    }
  }

  lemma BothTwice(log: seq<Packet>, k: nat)
    ensures Ran(log, k, 0) && Ran(log, k, 1) ==> Executions(log, k) >= 2
  {
    hide Executions;
    if Ran(log, k, 0) && Ran(log, k, 1) {
      var p :| p in log && p.body.Command? && p.body.call == k && p.body.attempt == 0;
      var q :| q in log && q.body.Command? && q.body.call == k && q.body.attempt == 1;
      var i :| 0 <= i < |log| && log[i] == p;
      var j :| 0 <= j < |log| && log[j] == q;
      ExecutionsTwo(log, k, if i < j then i else j, if i < j then j else i);
    }
  }

  lemma {:induction false} ExecutionsTwo(log: seq<Packet>, k: nat, i: nat, j: nat)
    requires i < j < |log| && log[i].body.Command? && log[j].body.Command? && log[i].body.call == log[j].body.call == k
    ensures Executions(log, k) >= 2
  {
    var pre := log[..|log| - 1];
    if j < |pre| { ExecutionsTwo(pre, k, i, j); } else { ExecutionsOne(pre, k, i); }
  }

  lemma {:induction false} ExecutionsOne(log: seq<Packet>, k: nat, i: nat)
    requires i < |log| && log[i].body.Command? && log[i].body.call == k
    ensures Executions(log, k) >= 1
  {
    if i < |log| - 1 { ExecutionsOne(log[..|log| - 1], k, i); }
  }

  /** At most once: one call makes the agent execute a command at most twice, and one outside the
      idempotent set at most once unless its first request was flushed, whatever is lost, broken or retried.
      It is twice exactly when the requests of both attempts are executed. */
  lemma ExecutedAtMost(steps: seq<Step>, k: nat)
    requires k < |Exec(steps).calls|
    ensures var s := Exec(steps);
            && Executions(s.log, k) <= (if Idempotent(s.calls[k].cmd) || FlushedFirst(s, k) then 2 else 1)
            && (Executions(s.log, k) == 2 <==> Ran(s.log, k, 0) && Ran(s.log, k, 1))
  {
    InvAlways(steps);
    ExecutedAtMostIn(Exec(steps), k);
    TwiceIn(Exec(steps), k);
  }

  /** The agent executes commands in the order in which the calls were made. */
  lemma ExecutedInOrder(steps: seq<Step>)
    ensures var log := Exec(steps).log;
            && (forall p :: p in log ==> p.body.Command?)
            && (forall i, j :: 0 <= i < j < |log| ==> log[i].body.call <= log[j].body.call)
  {
    InvAlways(steps);
    var s := Exec(steps);
    forall i, j | 0 <= i < j < |s.log| ensures s.log[i].body.call <= s.log[j].body.call {
      assert s.log[i] in s.history && s.log[j] in s.history;
      var a :| 0 <= a < |s.history| && s.history[a] == s.log[i];
      var b :| 0 <= b < |s.history| && s.history[b] == s.log[j];
      assert s.log[i].id < s.log[j].id;
      AscendingIndex(s.history, a, b);
    }
  }

  /** `unreachable` for a command outside the idempotent set means that the client knows of no request
      that went out: where none was flushed, none was executed and none ever will be. */
  lemma UnreachableSentNothing(steps: seq<Step>, k: nat)
    requires k < |Exec(steps).calls| && Exec(steps).calls[k].outcome == Unreachable
    ensures var s := Exec(steps);
            && (forall p :: p in s.history && p.body.Command? && p.body.call == k ==>
                  p in s.flushed || (p.body.attempt == 0 && Idempotent(s.calls[k].cmd)))
            && (forall p :: p in s.log && p.body.Command? && p.body.call == k && !Idempotent(s.calls[k].cmd) ==> p in s.flushed)
  {
    InvAlways(steps);
    UnreachableIn(Exec(steps), k);
  }

  lemma UnreachableIn(s: State, k: nat)
    requires Ordered(s) && Sent(s) && AllTold(s) && k < |s.calls| && s.calls[k].outcome == Unreachable
    ensures forall p :: p in s.history && p.body.Command? && p.body.call == k ==>
              p in s.flushed || (p.body.attempt == 0 && Idempotent(s.calls[k].cmd))
    ensures forall p :: p in s.log && p.body.Command? && p.body.call == k && !Idempotent(s.calls[k].cmd) ==> p in s.flushed
  {
    hide Idempotent, Ascending, QueuesOrdered;
    assert Told(s, k);
  }

  /** `uncertain` is raised only for a command outside the idempotent set that was sent, and then
      it was sent exactly once. */
  lemma UncertainWasSentOnce(steps: seq<Step>, k: nat)
    requires k < |Exec(steps).calls| && Exec(steps).calls[k].outcome == Uncertain
    ensures var s := Exec(steps);
            && !Idempotent(s.calls[k].cmd)
            && exists i :: 0 <= i < |s.history| && s.history[i].body == Command(k, 0, s.calls[k].cmd)
                 && forall j :: 0 <= j < |s.history| && s.history[j].body.Command? && s.history[j].body.call == k ==> j == i
  {
    InvAlways(steps);
    UncertainIn(Exec(steps), k);
  }

  lemma UncertainIn(s: State, k: nat)
    requires Sent(s) && AllTold(s) && k < |s.calls| && s.calls[k].outcome == Uncertain
    ensures !Idempotent(s.calls[k].cmd)
    ensures exists i :: 0 <= i < |s.history| && s.history[i].body == Command(k, 0, s.calls[k].cmd)
              && forall j :: 0 <= j < |s.history| && s.history[j].body.Command? && s.history[j].body.call == k ==> j == i
  {
    hide Idempotent;
    assert Told(s, k);
    var p :| p in s.history && p.body == Command(k, 0, s.calls[k].cmd);
    var i :| 0 <= i < |s.history| && s.history[i] == p;
    forall j | 0 <= j < |s.history| && s.history[j].body.Command? && s.history[j].body.call == k ensures j == i {
      assert s.history[j] in s.history;
    }
  }

  /** Call `k` is over, and no reply was returned. */
  predicate EndedInVain(s: State, k: nat) {
    k < |s.calls| && s.calls[k].outcome != Pending && !s.calls[k].outcome.Answered?
  }

  /** No attempt of call `k` is known to have gone out, or only the first of a command that may be repeated. */
  ghost predicate SafelyFailed(s: State, k: nat)
    requires k < |s.calls|
  {
    !Drained(s, k, 1) && (Drained(s, k, 0) ==> Idempotent(s.calls[k].cmd))
  }

  lemma NotBoth(cmd: string)
    ensures !(FireAndForget(cmd) && Idempotent(cmd))
  {
  }

  /** How a call without a reply ends, for every command: a command that takes the console down is taken to
      have worked exactly when the client knows that some attempt sent it; any other ends `uncertain`
      exactly when it may not be repeated and the first attempt is known to have sent it, and with the
      transport exception exactly when the second is. */
  lemma OutcomeExactly(steps: seq<Step>, k: nat)
    requires EndedInVain(Exec(steps), k)
    ensures var s := Exec(steps); var cmd := s.calls[k].cmd;
            && (s.calls[k].outcome == AssumedDone <==> FireAndForget(cmd) && (Drained(s, k, 0) || Drained(s, k, 1)))
            && (s.calls[k].outcome == Uncertain <==> !FireAndForget(cmd) && !Idempotent(cmd) && Drained(s, k, 0))
            && (s.calls[k].outcome == Reraised <==> !FireAndForget(cmd) && Drained(s, k, 1))
            && (s.calls[k].outcome in {HandshakeError, TooBig, Unreachable} <==> SafelyFailed(s, k))
            && (Drained(s, k, 0) && Drained(s, k, 1) ==> Idempotent(cmd))
  {
    InvAlways(steps);
    NotBoth(Exec(steps).calls[k].cmd);
    OutcomeIn(Exec(steps), k);
  }

  lemma OutcomeIn(s: State, k: nat)
    requires Sent(s) && AllTold(s) && EndedInVain(s, k) && !(FireAndForget(s.calls[k].cmd) && Idempotent(s.calls[k].cmd))
    ensures var cmd := s.calls[k].cmd;
            && (s.calls[k].outcome == AssumedDone <==> FireAndForget(cmd) && (Drained(s, k, 0) || Drained(s, k, 1)))
            && (s.calls[k].outcome == Uncertain <==> !FireAndForget(cmd) && !Idempotent(cmd) && Drained(s, k, 0))
            && (s.calls[k].outcome == Reraised <==> !FireAndForget(cmd) && Drained(s, k, 1))
            && (s.calls[k].outcome in {HandshakeError, TooBig, Unreachable} <==> SafelyFailed(s, k))
            && (Drained(s, k, 0) && Drained(s, k, 1) ==> Idempotent(cmd))
  {
    hide Idempotent, FireAndForget;
    assert Told(s, k);
    if Drained(s, k, 0) && Drained(s, k, 1) { BothDrained(s, k); }
    hide Sent;
  }

  lemma BothDrained(s: State, k: nat)
    requires Sent(s) && k < |s.calls| && Drained(s, k, 0) && Drained(s, k, 1)
    ensures Idempotent(s.calls[k].cmd)
  {
    hide Idempotent;
    var p :| p in s.history && p.body == Command(k, 0, s.calls[k].cmd) && p !in s.flushed;
    var q :| q in s.history && q.body == Command(k, 1, s.calls[k].cmd) && q !in s.flushed;
    var i :| 0 <= i < |s.history| && s.history[i] == p;
    var j :| 0 <= j < |s.history| && s.history[j] == q;
    assert i < j;
    assert Repeatable(s, s.history[i]);
  }

  lemma ExecMore(steps: seq<Step>, step: Step)
    ensures Exec(steps + [step]) == Do(Exec(steps), step)
  {
    assert (steps + [step])[..|steps|] == steps;
  }

  // -------------------------------------------------------------------------- four runs

  lemma ExecFour(steps: seq<Step>, a: Step, b: Step, c: Step, d: Step)
    ensures Exec(steps + [a, b, c, d]) == Do(Do(Do(Do(Exec(steps), a), b), c), d)
  {
    hide Exec, Do;
    ExecMore(steps, a);
    ExecMore(steps + [a], b);
    ExecMore(steps + [a] + [b], c);
    ExecMore(steps + [a] + [b] + [c], d);
    assert steps + [a] + [b] + [c] + [d] == steps + [a, b, c, d];
  }

  const OPENED := Conn([], [], false)

  /** The client has just opened the connection that the agent serves. */
  predicate Shaking(s: State, before: seq<Conn>) {
    && s.conns == before + [OPENED] && s.live == Some(|before|) && s.serving == |before|
    && s.phase == Shake && s.holding == None && !s.authed && !s.sent
  }

  /** The greeting was sent and answered. */
  function Greeted(s: State): State {
    s.(authed := true, phase := Ready, nextId := s.nextId + 1, last := Packet(s.nextId, Hello))
  }

  /** The greeting is under way. */
  function Greeting(s: State, before: seq<Conn>, toAgent: seq<Packet>, toClient: seq<Packet>, holding: Option<Packet>,
        authed: bool): State {
    s.(conns := before + [Conn(toAgent, toClient, false)], phase := ShakeWait, nextId := s.nextId + 1,
       last := Packet(s.nextId, Hello), holding := holding, authed := authed)
  }

  lemma SetLast(before: seq<Conn>, c: Conn, d: Conn, p: Packet)
    ensures (before + [c])[|before|] == c && (before + [c])[|before| := d] == before + [d]
    ensures [] + [p] == [p] && [p][1..] == []
  {
  }

  lemma GreetingSent(s: State, before: seq<Conn>)
    requires Shaking(s, before)
    ensures Do(s, SendShake(Hello)) == Greeting(s, before, [Packet(s.nextId, Hello)], [], None, false)
  {
    SetLast(before, OPENED, Conn([Packet(s.nextId, Hello)], [], false), Packet(s.nextId, Hello));
  }

  lemma GreetingTaken(s: State, before: seq<Conn>)
    requires Shaking(s, before)
    ensures Do(Greeting(s, before, [Packet(s.nextId, Hello)], [], None, false), AgentTakes(false))
            == Greeting(s, before, [], [], Some(Packet(s.nextId, Hello)), false)
  {
    SetLast(before, Conn([Packet(s.nextId, Hello)], [], false), OPENED, Packet(s.nextId, Hello));
  }

  lemma GreetingAnswered(s: State, before: seq<Conn>)
    requires Shaking(s, before)
    ensures Do(Greeting(s, before, [], [], Some(Packet(s.nextId, Hello)), false), AgentReplies(true))
            == Greeting(s, before, [], [Packet(s.nextId, Hello)], None, true)
  {
    SetLast(before, OPENED, Conn([], [Packet(s.nextId, Hello)], false), Packet(s.nextId, Hello));
  }

  lemma GreetingHeard(s: State, before: seq<Conn>)
    requires Shaking(s, before)
    ensures Do(Greeting(s, before, [], [Packet(s.nextId, Hello)], None, true), ReadShake(true)) == Greeted(s)
  {
    SetLast(before, Conn([], [Packet(s.nextId, Hello)], false), OPENED, Packet(s.nextId, Hello));
  }

  /** The handshake on that connection. */
  lemma Shakes(steps: seq<Step>, before: seq<Conn>) returns (more: seq<Step>)
    requires Shaking(Exec(steps), before)
    ensures Exec(more) == Greeted(Exec(steps))
  {
    hide Exec, Do, Greeting, Greeted, Shaking;
    var s := Exec(steps);
    more := steps + [SendShake(Hello), AgentTakes(false), AgentReplies(true), ReadShake(true)];
    ExecFour(steps, SendShake(Hello), AgentTakes(false), AgentReplies(true), ReadShake(true));
    GreetingSent(s, before);
    GreetingTaken(s, before);
    GreetingAnswered(s, before);
    GreetingHeard(s, before);
  }

  /** Connected to the agent that serves the connection, with nothing under way. */
  predicate Linked(s: State, before: seq<Conn>) {
    && s.conns == before + [OPENED] && s.live == Some(|before|) && s.serving == |before|
    && s.phase == Ready && s.holding == None && s.authed && s.calls != [] && !s.sent
  }

  /** The first call, about to shake hands on its attempt `a`. */
  function FirstCall(a: nat, cmd: string): State {
    INITIAL.(conns := [OPENED], phase := Shake, live := Some(0), attempt := a, calls := [CallRecord(cmd, Pending)])
  }

  /** The first call has begun, on attempt `a`. */
  function FirstBegun(a: nat, cmd: string): State {
    INITIAL.(phase := Start, attempt := a, calls := [CallRecord(cmd, Pending)])
  }

  lemma FirstBegins(cmd: string)
    ensures Do(INITIAL, Begin(cmd)) == FirstBegun(0, cmd)
  {
    assert [] + [CallRecord(cmd, Pending)] == [CallRecord(cmd, Pending)];
  }

  lemma FirstFails(cmd: string)
    ensures Do(FirstBegun(0, cmd), Transient) == FirstBegun(1, cmd)
  {
    hide Idempotent, FireAndForget;
  }

  lemma FirstConnects(a: nat, cmd: string)
    ensures Do(FirstBegun(a, cmd), Connect) == FirstCall(a, cmd) && Shaking(FirstCall(a, cmd), [])
  {
    assert [] + [OPENED] == [OPENED];
  }

  lemma ShookIsLinked(s: State, before: seq<Conn>)
    requires Shaking(s, before) && s.calls != []
    ensures Linked(Greeted(s), before)
  {
  }

  lemma FirstReady(a: nat, cmd: string) returns (steps: seq<Step>)
    requires a <= 1
    ensures Exec(steps) == Greeted(FirstCall(a, cmd)) && Linked(Exec(steps), [])
  {
    var none: seq<Step> := [];
    assert Exec(none) == INITIAL;
    hide Exec, Do, Shaking, Linked, Greeted, FirstBegun;
    ExecMore(none, Begin(cmd));
    FirstBegins(cmd);
    steps := none + [Begin(cmd)];
    if a == 1 {
      ExecMore(steps, Transient);
      FirstFails(cmd);
      steps := steps + [Transient];
    }
    ExecMore(steps, Connect);
    FirstConnects(a, cmd);
    steps := Shakes(steps + [Connect], []);
    ShookIsLinked(FirstCall(a, cmd), []);
  }

  /** The request that is sent next. */
  function NextPacket(s: State): Packet
    requires s.calls != []
  {
    Packet(s.nextId, Request(s))
  }

  /** Its request is sent and the agent executes it. */
  lemma RequestRuns(s: State, before: seq<Conn>)
    requires Linked(s, before)
    ensures var t := Do(Do(s, SendRequest), AgentTakes(true));
            && t.log == s.log + [NextPacket(s)] && t.calls == s.calls && t.attempt == s.attempt && t.sent && t.phase == Waiting
  {
    SetLast(before, OPENED, Conn([NextPacket(s)], [], false), NextPacket(s));
  }

  /** The state once the request was flushed and executed, on the first attempt. */
  function AfterFlush(s: State, before: seq<Conn>, toAgent: seq<Packet>): State
    requires s.calls != []
  {
    var p := NextPacket(s);
    s.(conns := before + [Conn(toAgent, [], true)], live := None, phase := Start, attempt := 1, sent := false,
       nextId := s.nextId + 1, last := p, history := s.history + [p], flushed := s.flushed + {p})
  }

  lemma FlushGoesOut(s: State, before: seq<Conn>)
    requires Linked(s, before) && s.attempt == 0
    ensures Do(s, LateFlush) == AfterFlush(s, before, [NextPacket(s)])
  {
    hide Idempotent, FireAndForget;
    var p := NextPacket(s);
    SetLast(before, OPENED, Conn([p], [], false), p);
    SetLast(before, Conn([p], [], false), Conn([p], [], true), p);
    var b := Buffered(s);
    assert b.conns == before + [Conn([p], [], false)] && b.last == p;
    assert OnTransient(b.attempt, b.sent, b.calls[|b.calls| - 1].cmd) == Retry;
  }

  /** The agent executes the flushed request. */
  function AfterTaking(s: State, before: seq<Conn>): State
    requires s.calls != []
  {
    AfterFlush(s, before, []).(log := s.log + [NextPacket(s)], holding := Some(NextPacket(s)))
  }

  lemma FlushTaken(s: State, before: seq<Conn>)
    requires Linked(s, before)
    ensures Do(AfterFlush(s, before, [NextPacket(s)]), AgentTakes(true)) == AfterTaking(s, before)
  {
    SetLast(before, Conn([NextPacket(s)], [], true), DROPPED, NextPacket(s));
  }

  lemma FlushDropped(s: State, before: seq<Conn>)
    requires Linked(s, before)
    ensures Do(Do(AfterTaking(s, before), AgentCloses), Connect) == Again(s, before)
  {
    hide Request;
    SetLast(before, DROPPED, DROPPED, NextPacket(s));
    assert before + [DROPPED] + [OPENED] == before + [DROPPED, OPENED];
  }

  /** The agent executed the flushed request and dropped the connection; the client opened another. */
  function Again(s: State, before: seq<Conn>): State
    requires s.calls != []
  {
    AfterFlush(s, before, []).(log := s.log + [NextPacket(s)], conns := before + [DROPPED, OPENED], serving := |before| + 1,
                               live := Some(|before| + 1), authed := false, phase := Shake)
  }

  const DROPPED := Conn([], [], true)

  lemma FlushRuns(s: State, before: seq<Conn>)
    requires Linked(s, before) && s.attempt == 0
    ensures Do(Do(Do(Do(s, LateFlush), AgentTakes(true)), AgentCloses), Connect) == Again(s, before)
  {
    hide Do, AfterFlush, AfterTaking, Again;
    FlushGoesOut(s, before);
    FlushTaken(s, before);
    FlushDropped(s, before);
  }

  /** The first attempt of a call is about to send, over a connection that the agent serves. */
  ghost predicate AboutToSend(s: State) {
    && s.phase == Ready && s.attempt == 0 && s.authed
    && s.live == Some(s.serving) && s.serving < |s.conns| && !s.conns[s.serving].broken
  }

  lemma AboutIsLinked(s: State)
    requires Shape(s) && Paired(s) && AboutToSend(s)
    ensures Linked(s, s.conns[..s.serving])
  {
    hide Request;
    var c := s.serving;
    var q := Underway(s, c);
    Part(s.conns[c].toAgent + Held(s, c), s.conns[c].toClient, s.last);
    assert s.conns[c] == OPENED && s.conns == s.conns[..c] + [s.conns[c]];
  }

  /** Wherever the first request of a call is about to be sent over a connection that the agent serves, a
      flush can have the command executed twice, also outside the idempotent set. */
  lemma FlushRunsTwice(steps: seq<Step>) returns (more: seq<Step>)
    requires AboutToSend(Exec(steps))
    ensures var k := |Exec(steps).calls| - 1;
            k >= 0 && Exec(more).calls == Exec(steps).calls && Executions(Exec(more).log, k) == 2
  {
    hide Exec, Do, Executions, AfterFlush;
    var s := Exec(steps);
    InvAlways(steps);
    AboutIsLinked(s);
    var before := s.conns[..s.serving];
    ExecFour(steps, LateFlush, AgentTakes(true), AgentCloses, Connect);
    FlushRuns(s, before);
    AgainShakes(s, before);
    var again := steps + [LateFlush, AgentTakes(true), AgentCloses, Connect];
    more := AgainRuns(again, before + [DROPPED]);
    var k := |s.calls| - 1;
    TwoRun(s.log, NextPacket(s), NextPacket(Greeted(Exec(again))), k);
    ExecutedAtMost(more, k);
  }

  lemma AgainShakes(s: State, before: seq<Conn>)
    requires Linked(s, before) && s.attempt == 0
    ensures var t := Again(s, before);
            Shaking(t, before + [DROPPED]) && t.calls == s.calls && t.log == s.log + [NextPacket(s)]
  {
    assert before + [DROPPED] + [OPENED] == before + [DROPPED, OPENED];
  }

  lemma AgainRuns(steps: seq<Step>, before: seq<Conn>) returns (more: seq<Step>)
    requires Shaking(Exec(steps), before) && Exec(steps).calls != []
    ensures var g := Greeted(Exec(steps));
            Exec(more).calls == g.calls && Exec(more).log == g.log + [NextPacket(g)]
  {
    hide Exec, Do, Request;
    var ready := Shakes(steps, before);
    RequestRuns(Exec(ready), before);
    ExecMore(ready, SendRequest);
    ExecMore(ready + [SendRequest], AgentTakes(true));
    more := ready + [SendRequest] + [AgentTakes(true)];
  }

  lemma TwoRun(log: seq<Packet>, p: Packet, q: Packet, k: nat)
    requires p.body.Command? && q.body.Command? && p.body.call == q.body.call == k
    ensures Executions(log + [p] + [q], k) >= 2
  {
    ExecutionsTwo(log + [p] + [q], k, |log|, |log| + 1);
  }

  /** `fs.write`, which is outside the idempotent set, is executed twice by one call. */
  lemma ExecutedTwice() returns (steps: seq<Step>)
    ensures var s := Exec(steps); s.calls == [CallRecord("fs.write", Pending)] && Executions(s.log, 0) == 2
  {
    hide Exec, Executions;
    var ready := FirstReady(0, "fs.write");
    steps := FlushRunsTwice(ready);
  }

  /** A call ends `unreachable` although the agent executes its command. */
  lemma UnreachableButExecuted() returns (steps: seq<Step>)
    ensures var s := Exec(steps);
            s.calls == [CallRecord("fs.write", Unreachable)] && |s.log| == 1 && s.log[0].body == Command(0, 1, "fs.write")
  {
    hide Exec, Do, Linked;
    var ready := FirstReady(1, "fs.write");
    ExecMore(ready, LateFlush);
    ExecMore(ready + [LateFlush], AgentTakes(true));
    FlushUnreachable(Exec(ready));
    FlushTakenLast(Exec(ready), Do(Exec(ready), LateFlush));
    steps := ready + [LateFlush] + [AgentTakes(true)];
  }

  /** On the second attempt a flush ends the call `unreachable`, with the request on its way. */
  lemma FlushUnreachable(s: State)
    requires Linked(s, []) && s.attempt == 1 && s.calls == [CallRecord("fs.write", Pending)]
    ensures var t := Do(s, LateFlush);
            && t.conns == [Conn([NextPacket(s)], [], true)] && t.serving == 0 && t.authed && t.holding == None
            && t.log == s.log && t.calls == [CallRecord("fs.write", Unreachable)]
  {
    hide Idempotent, FireAndForget;
    var p := NextPacket(s);
    SetLast([], OPENED, Conn([p], [], false), p);
    SetLast([], Conn([p], [], false), Conn([p], [], true), p);
    var b := Buffered(s);
    assert b.conns == [Conn([p], [], false)];
  }

  lemma FlushTakenLast(s: State, t: State)
    requires s.calls != []
    requires t.conns == [Conn([NextPacket(s)], [], true)] && t.serving == 0 && t.authed && t.holding == None
    ensures Do(t, AgentTakes(true)).log == t.log + [NextPacket(s)] && Do(t, AgentTakes(true)).calls == t.calls
  {
  }

  lemma LossReraises(s: State)
    requires s.calls == [CallRecord("fs.write", Pending)] && s.attempt == 1 && s.sent && s.phase == Waiting
    ensures Do(s, Transient).calls == [CallRecord("fs.write", Reraised)] && Do(s, Transient).log == s.log
  {
  }

  /** A loss on the second attempt: the link fails before the first attempt sends anything, the request of
      the second is executed and its reply lost, and no `uncertain` is raised. */
  lemma LostOnSecondAttempt() returns (steps: seq<Step>)
    ensures var s := Exec(steps);
            s.calls == [CallRecord("fs.write", Reraised)] && |s.log| == 1 && s.log[0].body == Command(0, 1, "fs.write")
  {
    hide Exec, Do;
    var ready := FirstReady(1, "fs.write");
    RequestRuns(Exec(ready), []);
    ExecMore(ready, SendRequest);
    ExecMore(ready + [SendRequest], AgentTakes(true));
    ExecMore(ready + [SendRequest] + [AgentTakes(true)], Transient);
    LossReraises(Do(Do(Exec(ready), SendRequest), AgentTakes(true)));
    steps := ready + [SendRequest] + [AgentTakes(true)] + [Transient];
  }
}
