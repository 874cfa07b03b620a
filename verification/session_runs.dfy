/** What calls come to, step by step and over whole runs: that they complete, what ends them, and what the
    agent does not do. */
module SessionRuns {
  import opened Options
  import opened Session

  // ------------------------------------------------------------------------- how calls end

  function Verdict(s: State): Outcome
    requires s.calls != []
  {
    s.calls[|s.calls| - 1].outcome
  }

  function Cmd(s: State): string
    requires s.calls != []
  {
    s.calls[|s.calls| - 1].cmd
  }

  /** A connection is lost: before the request is known to have gone out, or while its reply is awaited. */
  predicate LostUnsent(s: State, step: Step) {
    (step == Transient && s.phase != Waiting) || (step == LateFlush && s.phase == Ready)
  }

  predicate LostSent(s: State, step: Step) {
    step == Transient && s.phase == Waiting
  }

  /** The verdict that `step` brings on the open call, in the terms of the code's exceptions. */
  ghost predicate EndsBy(s: State, step: Step, t: State)
    requires s.calls != [] && t.calls != []
  {
    && (Verdict(t) == HandshakeError <==> step == HandshakeFails && s.phase == Shake)
    && (Verdict(t) == TooBig <==> step == RequestTooBig && s.phase == Ready)
    && (Verdict(t).Answered? <==> step == ReadReply && s.phase == Waiting && CanTake(s))
    && (Verdict(t).Answered? ==> Verdict(t).reply == s.last)
    && (Verdict(t) == Unreachable <==> LostUnsent(s, step) && s.attempt == 1)
    && (Verdict(t) == AssumedDone <==> LostSent(s, step) && FireAndForget(Cmd(s)))
    && (Verdict(t) == Uncertain <==>
          LostSent(s, step) && s.attempt == 0 && !FireAndForget(Cmd(s)) && !Idempotent(Cmd(s)))
    && (Verdict(t) == Reraised <==> LostSent(s, step) && s.attempt == 1 && !FireAndForget(Cmd(s)))
  }

  /** The call goes on with its second attempt, over another connection. */
  predicate TriesAgain(s: State, t: State) {
    t.phase == Start && t.attempt == 1 && !t.sent && t.live == None && t.calls == s.calls
  }

  /** What ends a call, from every reachable state: a refused handshake, an oversized request, the reply to
      the last packet sent, or the loss of the connection, which on the first attempt is followed by a
      second unless the request is known to have gone out and may not be repeated. */
  lemma CallEnds(steps: seq<Step>, step: Step)
    requires Exec(steps).phase != Idle
    ensures var s := Exec(steps); var t := Do(s, step);
            && s.calls != [] && |t.calls| == |s.calls| && Verdict(s) == Pending && EndsBy(s, step, t)
            && (TriesAgain(s, t) <== s.attempt == 0 && (LostUnsent(s, step) || (LostSent(s, step) && Idempotent(Cmd(s)))))
  {
    hide Exec, Do, Sent, AllTold, Ordered, EndsBy, TriesAgain, Idempotent, FireAndForget, LostUnsent, LostSent;
    InvAlways(steps);
    var s := Exec(steps);
    NotBoth(Cmd(s));
    match step {
      case Transient => LossEnds(s);
      case LateFlush => FlushEnds(s);
      case ReadReply => ReplyEnds(s);
      case HandshakeFails => RefusalEnds(s, step);
      case RequestTooBig => RefusalEnds(s, step);
      case SendRequest => RequestEndsNothing(s);
      case Begin(cmd) => NothingEnds(s, step, s);
      case _ =>
        SameCalls(s, step);
        NothingEnds(s, step, Do(s, step));
    }
  }

  lemma NothingEnds(s: State, step: Step, t: State)
    requires Shape(s) && s.phase != Idle && t.calls == s.calls
    requires !step.Transient? && !step.LateFlush? && !step.ReadReply? && !step.HandshakeFails? && !step.RequestTooBig?
    ensures EndsBy(s, step, t) && !LostUnsent(s, step) && !LostSent(s, step)
    ensures step.Begin? ==> Do(s, step) == s
  {
    hide Idempotent, FireAndForget;
  }

  lemma RequestEndsNothing(s: State)
    requires Shape(s) && s.phase != Idle
    ensures Do(s, SendRequest).calls == s.calls && EndsBy(s, SendRequest, Do(s, SendRequest))
    ensures !LostUnsent(s, SendRequest) && !LostSent(s, SendRequest)
  {
    hide Idempotent, FireAndForget, Request;
  }

  lemma RefusalEnds(s: State, step: Step)
    requires Shape(s) && s.phase != Idle && (step.HandshakeFails? || step.RequestTooBig?)
    ensures |Do(s, step).calls| == |s.calls| && EndsBy(s, step, Do(s, step))
    ensures !LostUnsent(s, step) && !LostSent(s, step)
  {
    hide Idempotent, FireAndForget;
  }

  lemma ReplyEnds(s: State)
    requires Shape(s) && Paired(s) && s.phase != Idle
    ensures |Do(s, ReadReply).calls| == |s.calls| && EndsBy(s, ReadReply, Do(s, ReadReply))
    ensures !LostUnsent(s, ReadReply) && !LostSent(s, ReadReply)
  {
    if s.phase == Waiting && CanTake(s) { OnlyReply(s); }
    hide Idempotent, FireAndForget, Paired;
  }

  lemma LossEnds(s: State)
    requires Shape(s) && s.phase != Idle && !(FireAndForget(Cmd(s)) && Idempotent(Cmd(s)))
    ensures |Do(s, Transient).calls| == |s.calls| && EndsBy(s, Transient, Do(s, Transient))
    ensures s.attempt == 0 && (LostUnsent(s, Transient) || Idempotent(Cmd(s))) ==> TriesAgain(s, Do(s, Transient))
  {
    hide Idempotent, FireAndForget;
    FailFacts(s);
  }

  lemma FlushEnds(s: State)
    requires Shape(s) && s.phase != Idle
    ensures |Do(s, LateFlush).calls| == |s.calls| && EndsBy(s, LateFlush, Do(s, LateFlush))
    ensures LostUnsent(s, LateFlush) && s.attempt == 0 ==> TriesAgain(s, Do(s, LateFlush))
    ensures !LostSent(s, LateFlush)
  {
    hide Idempotent, FireAndForget, Request;
    if s.phase == Ready {
      FlushFacts(s);
      FailFacts(Buffered(s));
    }
  }

  // ------------------------------------------------------------------------- calls complete

  /** The lock is free, and the agent serves the client's connection. */
  predicate Resting(s: State) {
    s.phase == Idle && s.authed && s.live == Some(s.serving) && s.serving < |s.conns| && !s.conns[s.serving].broken
  }

  /** The next call, on its first attempt over the connection that is there. */
  function Opened(s: State, cmd: string): State {
    s.(phase := Ready, attempt := 0, sent := false, calls := s.calls + [CallRecord(cmd, Pending)])
  }

  lemma OpensReady(s: State, cmd: string)
    requires Resting(s)
    ensures Do(Do(s, Begin(cmd)), UseExisting) == Opened(s, cmd) && AboutToSend(Opened(s, cmd))
  {
  }

  /** The request on its way, at the agent, and answered. */
  function Asking(s: State, before: seq<Conn>, toAgent: seq<Packet>, toClient: seq<Packet>, holding: Option<Packet>,
        log: seq<Packet>): State
    requires s.calls != []
  {
    var p := NextPacket(s);
    s.(conns := before + [Conn(toAgent, toClient, false)], nextId := s.nextId + 1, last := p, phase := Waiting, sent := true,
       history := s.history + [p], holding := holding, log := log)
  }

  lemma Sends(s: State, before: seq<Conn>)
    requires Linked(s, before)
    ensures Do(s, SendRequest) == Asking(s, before, [NextPacket(s)], [], None, s.log)
  {
    SetLast(before, OPENED, Conn([NextPacket(s)], [], false), NextPacket(s));
  }

  lemma Takes(s: State, before: seq<Conn>)
    requires Linked(s, before)
    ensures Do(Asking(s, before, [NextPacket(s)], [], None, s.log), AgentTakes(true))
            == Asking(s, before, [], [], Some(NextPacket(s)), s.log + [NextPacket(s)])
  {
    SetLast(before, Conn([NextPacket(s)], [], false), OPENED, NextPacket(s));
  }

  lemma Replies(s: State, before: seq<Conn>, log: seq<Packet>)
    requires Linked(s, before)
    ensures Do(Asking(s, before, [], [], Some(NextPacket(s)), log), AgentReplies(false))
            == Asking(s, before, [], [NextPacket(s)], None, log)
  {
    hide Request;
    SetLast(before, OPENED, Conn([], [NextPacket(s)], false), NextPacket(s));
  }

  lemma Hears(s: State, before: seq<Conn>, log: seq<Packet>)
    requires Linked(s, before)
    ensures var k := |s.calls| - 1;
            Do(Asking(s, before, [], [NextPacket(s)], None, log), ReadReply)
            == Asking(s, before, [], [], None, log).(phase := Idle,
                 calls := s.calls[k := s.calls[k].(outcome := Answered(NextPacket(s)))])
  {
    hide Request;
    SetLast(before, Conn([], [NextPacket(s)], false), OPENED, NextPacket(s));
  }

  /** `t` is `s` one executed and answered call later, and as ready for the next. */
  ghost predicate OneCallLater(s: State, t: State, k: nat, cmd: string) {
    && Resting(t) && |t.calls| == k + 1 && |s.calls| <= k + 1
    && t.calls[k].cmd == cmd && t.calls[k].outcome.Answered? && (forall j :: 0 <= j < k && j < |s.calls| ==> t.calls[j] == s.calls[j])
    && t.log == s.log + [t.calls[k].outcome.reply]
    && t.calls[k].outcome.reply.body.Command? && t.calls[k].outcome.reply.body.call == k
  }

  lemma Completes(steps: seq<Step>, before: seq<Conn>) returns (more: seq<Step>)
    requires Linked(Exec(steps), before)
    ensures var s := Exec(steps); OneCallLater(s, Exec(more), |s.calls| - 1, Cmd(s))
  {
    hide Exec, Do, Asking, Linked, NextPacket;
    var s := Exec(steps);
    LinkedCalls(s, before);
    ExecFour(steps, SendRequest, AgentTakes(true), AgentReplies(false), ReadReply);
    more := steps + [SendRequest, AgentTakes(true), AgentReplies(false), ReadReply];
    Sends(s, before);
    Takes(s, before);
    Replies(s, before, s.log + [NextPacket(s)]);
    Hears(s, before, s.log + [NextPacket(s)]);
    CallAnswered(s, before, Exec(more));
  }

  lemma LinkedCalls(s: State, before: seq<Conn>)
    requires Linked(s, before)
    ensures s.calls != []
  {
  }

  lemma CallAnswered(s: State, before: seq<Conn>, t: State)
    requires Linked(s, before)
    requires var k := |s.calls| - 1;
             t == Asking(s, before, [], [], None, s.log + [NextPacket(s)]).(phase := Idle,
                    calls := s.calls[k := s.calls[k].(outcome := Answered(NextPacket(s)))])
    ensures OneCallLater(s, t, |s.calls| - 1, Cmd(s))
  {
  }

  /** Whenever the lock is free and the agent serves the client's connection, the next call, of any command,
      can be executed once and answered, and leaves things as they were. */
  lemma CallCompletes(steps: seq<Step>, cmd: string) returns (more: seq<Step>)
    requires Resting(Exec(steps))
    ensures OneCallLater(Exec(steps), Exec(more), |Exec(steps).calls|, cmd)
  {
    hide Exec, Do;
    var s := Exec(steps);
    OpensReady(s, cmd);
    ExecMore(steps, Begin(cmd));
    ExecMore(steps + [Begin(cmd)], UseExisting);
    var ready := steps + [Begin(cmd)] + [UseExisting];
    InvAlways(ready);
    AboutIsLinked(Exec(ready));
    more := Completes(ready, Exec(ready).conns[..s.serving]);
    hide Resting, Linked, AboutToSend;
  }

  /** Each call was answered by the one execution of its command, in the order of the calls. */
  ghost predicate AllAnswered(s: State, cmds: seq<string>) {
    && |s.calls| == |cmds| == |s.log|
    && forall k :: 0 <= k < |cmds| ==>
         s.calls[k] == CallRecord(cmds[k], Answered(s.log[k])) && s.log[k].body.Command? && s.log[k].body.call == k
  }

  /** From the first connection on, any commands can be called one after another. */
  lemma {:induction false} CallsComplete(cmds: seq<string>) returns (steps: seq<Step>)
    requires cmds != []
    ensures Resting(Exec(steps)) && AllAnswered(Exec(steps), cmds)
  {
    hide Exec, Resting;
    if |cmds| == 1 {
      var ready := FirstReady(0, cmds[0]);
      steps := Completes(ready, []);
    } else {
      var n := |cmds| - 1;
      var most := CallsComplete(cmds[..n]);
      steps := CallCompletes(most, cmds[n]);
    }
  }

  // ----------------------------------------------------------- what the agent does not do

  lemma NoStepRuns(s: State, step: Step)
    requires !s.authed && step != AgentReplies(true)
    ensures !Do(s, step).authed && Do(s, step).log == s.log
  {
    hide Fail, Flush, Request;
    match step
    case Transient => if s.calls != [] { FailLog(s); }
    case LateFlush => if s.live.Some? && s.live.value < |s.conns| && s.calls != [] { FailLog(Buffered(s)); BufferedLog(s); }
    case _ =>
  }

  lemma FailLog(s: State)
    requires s.calls != []
    ensures Fail(s).log == s.log && Fail(s).authed == s.authed
  {
    hide OnTransient;
  }

  lemma BufferedLog(s: State)
    requires s.live.Some? && s.live.value < |s.conns| && s.calls != []
    ensures Buffered(s).log == s.log && Buffered(s).authed == s.authed && Flush(s) == Fail(Buffered(s))
  {
    hide Fail;
  }

  /** Nothing is executed over a connection that has not passed the handshake, whatever is sent. */
  lemma {:induction false} NothingRuns(steps: seq<Step>, more: seq<Step>)
    requires !Exec(steps).authed && forall i :: 0 <= i < |more| ==> more[i] != AgentReplies(true)
    ensures !Exec(steps + more).authed && Exec(steps + more).log == Exec(steps).log
    decreases |more|
  {
    hide Exec, Do;
    if more == [] {
      assert steps + more == steps;
    } else {
      var n := |more| - 1;
      NothingRuns(steps, more[..n]);
      ExecMore(steps + more[..n], more[n]);
      assert steps + more[..n] + [more[n]] == steps + more;
      NoStepRuns(Exec(steps + more[..n]), more[n]);
    }
  }

  /** A handshake counts for its own connection only. */
  lemma ClosingForgets(steps: seq<Step>)
    requires Exec(steps).serving < |Exec(steps).conns|
    ensures var t := Exec(steps + [AgentCloses]); !t.authed && t.serving == Exec(steps).serving + 1 && t.holding == None
  {
    ExecMore(steps, AgentCloses);
  }
}
