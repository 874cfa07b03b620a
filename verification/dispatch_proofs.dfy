/** What a run of one connection guarantees, whatever is read from it. */
module DispatchProofs {
  import opened Options
  import opened Json
  import opened Commands
  import Frames
  import opened Dispatch

  // ------------------------------------------------------------------------- which handlers run

  /** The conditions under which a handler may be entered. */
  predicate Permitted(cfg: Config, cmd: string, dryRun: bool) {
    && Find(cfg, cmd).Some?
    && Rank(Find(cfg, cmd).value.tier) <= Rank(cfg.tier)
    && GateOf(cfg, cmd).None?
    && !(Find(cfg, cmd).value.mutating && dryRun)
  }

  predicate Allowed(cfg: Config, f: Frames.Frame, trunc: Trunc) {
    Permitted(cfg, CommandOf(f.msg), IsDryRun(f.msg, trunc))
  }

  predicate Ascending(ran: seq<Ran>) {
    forall i, j :: 0 <= i < j < |ran| ==> ran[i].k < ran[j].k
  }

  ghost predicate Answerable(cfg: Config, handle: Handlers, k: nat, fs: seq<Frames.Frame>, trunc: Trunc, r: Ran) {
    && k <= r.k < k + |fs|
    && Allowed(cfg, fs[r.k - k], trunc)
    && r == Ran(r.k, CommandOf(fs[r.k - k].msg), handle(r.k, fs[r.k - k]).ok)
  }

  lemma RunsWhenAllowed(cfg: Config, handle: Handlers, k: nat, f: Frames.Frame, trunc: Trunc)
    ensures RanFor(cfg, handle, k, f, trunc)
            == if Allowed(cfg, f, trunc) then [Ran(k, CommandOf(f.msg), handle(k, f).ok)] else []
  {
    hide Find, GateOf, GateMessage, TierMessage, CommandOf, IsDryRun, Rank;
  }

  ghost predicate ExactlyAllowed(ran: seq<Ran>, cfg: Config, handle: Handlers, k: nat, fs: seq<Frames.Frame>, trunc: Trunc) {
    Ascending(ran) && forall r :: r in ran <==> Answerable(cfg, handle, k, fs, trunc, r)
  }

  /** A handler runs once for each request that is listed, permitted by tier and sub-gates and not
      diverted by dry_run, for no other request, and in the order of the requests. */
  lemma {:induction false} RunsExactlyTheAllowed(cfg: Config, handle: Handlers, k: nat, fs: seq<Frames.Frame>, trunc: Trunc)
    ensures ExactlyAllowed(RanAll(cfg, handle, k, fs, trunc), cfg, handle, k, fs, trunc)
    decreases fs
  {
    hide RanFor, Allowed, Answerable, CommandOf;
    if fs == [] {
      NothingAllowed(cfg, handle, k, trunc);
    } else {
      RunsExactlyTheAllowed(cfg, handle, k + 1, fs[1..], trunc);
      RunsWhenAllowed(cfg, handle, k, fs[0], trunc);
      HeadRan(RanAll(cfg, handle, k + 1, fs[1..], trunc), cfg, handle, k, fs, trunc);
    }
  }

  lemma NothingAllowed(cfg: Config, handle: Handlers, k: nat, trunc: Trunc)
    ensures ExactlyAllowed([], cfg, handle, k, [], trunc)
  {
  }

  lemma HeadRan(rest: seq<Ran>, cfg: Config, handle: Handlers, k: nat, fs: seq<Frames.Frame>, trunc: Trunc)
    requires fs != [] && ExactlyAllowed(rest, cfg, handle, k + 1, fs[1..], trunc)
    ensures var head := if Allowed(cfg, fs[0], trunc) then [Ran(k, CommandOf(fs[0].msg), handle(k, fs[0]).ok)] else [];
            ExactlyAllowed(head + rest, cfg, handle, k, fs, trunc)
  {
    hide Allowed, Answerable, CommandOf, Ascending;
    var first := Ran(k, CommandOf(fs[0].msg), handle(k, fs[0]).ok);
    forall r ensures r in rest ==> k < r.k {
      AnswerableFrom(cfg, handle, k + 1, fs[1..], trunc, r);
    }
    AscendingCons(first, rest);
    forall r
      ensures r in [first] + rest <==> r == first || r in rest
      ensures Answerable(cfg, handle, k, fs, trunc, r) <==> (r == first && Allowed(cfg, fs[0], trunc)) || r in rest
    {
      InCons(first, rest, r);
      AnswerableStep(cfg, handle, k, fs, trunc, r);
    }
    assert [] + rest == rest;
  }

  lemma AscendingCons(first: Ran, rest: seq<Ran>)
    requires Ascending(rest) && forall r :: r in rest ==> first.k < r.k
    ensures Ascending([first] + rest)
  {
    forall i, j | 0 <= i < j < |[first] + rest| ensures ([first] + rest)[i].k < ([first] + rest)[j].k {
      if i == 0 { assert rest[j - 1] in rest; }
    }
  }

  lemma InCons(first: Ran, rest: seq<Ran>, r: Ran)
    ensures r in [first] + rest <==> r == first || r in rest
  {
  }

  lemma AnswerableFrom(cfg: Config, handle: Handlers, k: nat, fs: seq<Frames.Frame>, trunc: Trunc, r: Ran)
    ensures Answerable(cfg, handle, k, fs, trunc, r) ==> k <= r.k < k + |fs|
  {
    hide Allowed, CommandOf;
  }

  lemma AnswerableStep(cfg: Config, handle: Handlers, k: nat, fs: seq<Frames.Frame>, trunc: Trunc, r: Ran)
    requires fs != []
    ensures Answerable(cfg, handle, k, fs, trunc, r)
            <==> || (r == Ran(k, CommandOf(fs[0].msg), handle(k, fs[0]).ok) && Allowed(cfg, fs[0], trunc))
                 || Answerable(cfg, handle, k + 1, fs[1..], trunc, r)
  {
    hide Allowed, CommandOf;
    if k < r.k < k + |fs| { assert fs[1..][r.k - k - 1] == fs[r.k - k]; }
  }

  // ------------------------------------------------------------------------------- refusals

  /** The configuration with the flag set that the refusal of gate `g` names. */
  function Opened(cfg: Config, g: Gate): Config {
    match g
    case Hardware => cfg.(allowHardware := true)
    case Overclock => cfg.(allowOverclock := true)
    case NandWrite => cfg.(allowNandWrite := true)
  }

  /** A refusal names the one change of configuration that permits the command: raising the tier as told
      lifts `tier_denied`, and setting the flag as told leaves nothing in the way. */
  lemma RefusalNamesTheRemedy(cfg: Config, cmd: string, dryRun: bool)
    ensures var v := Decide(cfg, cmd, dryRun);
            && (v.Refuse? && v.code == "tier_denied" ==>
                  && Find(cfg, cmd).Some? && v.message == TierMessage(cfg, cmd, Find(cfg, cmd).value)
                  && !DeniedByTable(Decide(cfg.(tier := Find(cfg, cmd).value.tier), cmd, dryRun)))
            && (v.Refuse? && v.code == "disabled" ==>
                  && GateOf(cfg, cmd).Some? && v.message == GateMessage(GateOf(cfg, cmd).value, cmd)
                  && !Decide(Opened(cfg, GateOf(cfg, cmd).value), cmd, dryRun).Refuse?)
  {
    hide GateMessage, TierMessage, Rank;
  }

  /** `text` says that `flag` must be set. */
  ghost predicate Demands(text: string, flag: string) {
    exists subject :: text == subject + (" requires " + flag + "=true in config")
  }

  ghost predicate Begins(text: string, part: string) {
    exists rest :: text == part + rest
  }

  function TierWord(t: Tier): string {
    match t
    case Observe => "observe"
    case Control => "control"
    case Invasive => "invasive"
  }

  /** A refusal tells what would permit the command: the tier it needs, or the flag that shuts it off. */
  lemma RefusalsSay(cfg: Config, cmd: string, dryRun: bool)
    ensures var v := Decide(cfg, cmd, dryRun);
            && (v.Refuse? && v.code == "tier_denied" ==>
                  && cmd in cfg.commands
                  && Begins(v.message, "'" + cmd + "' requires tier=" + TierWord(cfg.commands[cmd].tier)))
            && (v.Refuse? && v.code == "disabled" ==>
                  && (cmd in {"i2c.read", "i2c.write", "gpio.read"} ==> Demands(v.message, "allow_hardware"))
                  && (cmd == "set_clocks" ==> Demands(v.message, "allow_overclock"))
                  && (cmd in {"uninstall", "save.restore"} ==> Demands(v.message, "allow_nand_write")))
  {
    GateIs(cfg, cmd);
    GatesDemand(cmd);
    if cmd in cfg.commands { TierIsNamed(cfg, cmd, cfg.commands[cmd]); }
    hide GateOf, GateMessage, TierMessage, Rank, Demands, Begins;
  }

  lemma GateIs(cfg: Config, cmd: string)
    ensures var g := GateOf(cfg, cmd);
            g.Some? ==> && (cmd in {"i2c.read", "i2c.write", "gpio.read"} ==> g.value == Hardware)
                        && (cmd == "set_clocks" ==> g.value == Overclock)
                        && (cmd in {"uninstall", "save.restore"} ==> g.value == NandWrite)
  {
  }

  lemma GatesDemand(cmd: string)
    ensures Demands(GateMessage(Hardware, cmd), "allow_hardware")
    ensures Demands(GateMessage(Overclock, cmd), "allow_overclock")
    ensures Demands(GateMessage(NandWrite, cmd), "allow_nand_write")
  {
    DemandIs("allow_hardware");
    DemandIs("allow_overclock");
    DemandIs("allow_nand_write");
    hide Demand;
  }

  lemma DemandIs(flag: string)
    ensures Demand(flag) == " requires " + flag + "=true in config"
  {
  }

  lemma TierIsNamed(cfg: Config, cmd: string, c: Command)
    ensures Begins(TierMessage(cfg, cmd, c), "'" + cmd + "' requires tier=" + TierWord(c.tier))
  {
    assert TierName(c.tier) == TierWord(c.tier);
    hide TierName, TierWord, TierAdvice;
  }

  // ---------------------------------------------------------------------------- the journal

  /** The entries the journal owes to the requests `fs`. */
  function Owed(cfg: Config, handle: Handlers, k: nat, fs: seq<Frames.Frame>, trunc: Trunc): seq<JournalEntry>
    decreases fs
  {
    if fs == [] then []
    else
      var cmd := CommandOf(fs[0].msg);
      var rest := Owed(cfg, handle, k + 1, fs[1..], trunc);
      if Allowed(cfg, fs[0], trunc) && Mutating(cfg, cmd)
      then [JournalEntry(cmd, if handle(k, fs[0]).ok then "ok" else "FAILED")] + rest
      else rest
  }

  /** The journal of a connection is the executed mutating commands, in order, with their outcomes. */
  lemma {:induction false} JournalIsExecutedMutations(cfg: Config, handle: Handlers, k: nat, fs: seq<Frames.Frame>, trunc: Trunc)
    ensures JournalOf(cfg, RanAll(cfg, handle, k, fs, trunc)) == Owed(cfg, handle, k, fs, trunc)
    decreases fs
  {
    hide RanFor, Allowed, CommandOf, Mutating;
    if fs != [] {
      RunsWhenAllowed(cfg, handle, k, fs[0], trunc);
      JournalIsExecutedMutations(cfg, handle, k + 1, fs[1..], trunc);
      JournalOfAppend(cfg, RanFor(cfg, handle, k, fs[0], trunc), RanAll(cfg, handle, k + 1, fs[1..], trunc));
    }
  }

  /** At the observe tier nothing mutating runs and the journal stays empty. */
  lemma ObserveChangesNothing(cfg: Config, handle: Handlers, k: nat, fs: seq<Frames.Frame>, trunc: Trunc)
    requires cfg.tier == Observe && Tiered(cfg.commands)
    ensures var ran := RanAll(cfg, handle, k, fs, trunc);
            JournalOf(cfg, ran) == [] && forall i :: 0 <= i < |ran| ==> !Mutating(cfg, ran[i].cmd)
  {
    hide RanAll, GateOf, CommandOf, IsDryRun, JournalOf;
    RunsExactlyTheAllowed(cfg, handle, k, fs, trunc);
    var ran := RanAll(cfg, handle, k, fs, trunc);
    forall i | 0 <= i < |ran| ensures !Mutating(cfg, ran[i].cmd) {
      assert ran[i] in ran && Answerable(cfg, handle, k, fs, trunc, ran[i]);
    }
    NoMutationNoJournal(cfg, ran);
  }

  /** The agent's own table is such a table. */
  lemma AgentObserves(cfg: Config, handle: Handlers, k: nat, fs: seq<Frames.Frame>, trunc: Trunc)
    requires cfg.tier == Observe && cfg.commands == Table()
    ensures var ran := RanAll(cfg, handle, k, fs, trunc);
            JournalOf(cfg, ran) == [] && forall i :: 0 <= i < |ran| ==> !Mutating(cfg, ran[i].cmd)
  {
    hide Table, RanAll, JournalOf, Mutating;
    TableIsTiered();
    ObserveChangesNothing(cfg, handle, k, fs, trunc);
  }

  lemma {:induction false} NoMutationNoJournal(cfg: Config, ran: seq<Ran>)
    requires forall i :: 0 <= i < |ran| ==> !Mutating(cfg, ran[i].cmd)
    ensures JournalOf(cfg, ran) == []
  {
    hide Mutating;
    if ran != [] {
      NoMutationNoJournal(cfg, ran[1..]);
    }
  }

  // ------------------------------------------------------------------------------- replies

  lemma SetFieldLooksUp(v: Value, k: string, x: Value)
    requires v.Obj? && Sorted(v.members)
    ensures SetField(v, k, x).Obj? && Sorted(SetField(v, k, x).members)
    ensures AsMap(SetField(v, k, x).members) == AsMap(v.members)[k := x]
  {
    hide SetMember, Sorted;
    SetMemberSorted(v.members, k, x);
    SetMemberIsMapUpdate(v.members, k, x);
  }

  /** What every handler's reply is: an object, whose "bin" is left to the dispatcher. */
  ghost predicate Plain(r: Reply) {
    && r.json.Obj? && Sorted(r.json.members)
    && !Has(r.json, "bin") && |r.out| <= 0x7FFF_FFFF_FFFF_FFFF
  }

  /** The reply frame announces its payload as `ReadFrame` expects it: see `ReplySendable`. */
  ghost predicate Framed(r: Reply) {
    && r.json.Obj? && Sorted(r.json.members)
    && (Has(r.json, "bin") <==> r.out != "")
    && |r.out| <= 0x7FFF_FFFF_FFFF_FFFF
    && (r.out != "" ==> Lookup(r.json, "bin") == Int(|r.out|))
  }

  lemma FailPlain(code: string, message: string)
    ensures Plain(Fail(code, message))
  {
    hide SetMember;
    SetFieldLooksUp(Obj([]), "error", SetField(SetField(Obj([]), "code", Str(code)), "message", Str(message)));
  }

  lemma PreviewPlain(cmd: string, tier: Tier)
    ensures Plain(PreviewReply(cmd, tier))
  {
    hide SetMember, SetField, Sorted, PreviewNote;
    var one := SetField(Obj([]), "dry_run", Bool(true));
    var two := SetField(one, "would_run", Str(cmd));
    var three := SetField(two, "tier", Str(TierName(tier)));
    EmptySorted();
    SetFieldLooksUp(Obj([]), "dry_run", Bool(true));
    SetFieldLooksUp(one, "would_run", Str(cmd));
    SetFieldLooksUp(two, "tier", Str(TierName(tier)));
    SetFieldLooksUp(three, "note", Str(PreviewNote()));
  }

  lemma EmptySorted()
    ensures Sorted([])
  {
  }

  lemma StampFrames(r: Reply, id: int64)
    requires Plain(r)
    ensures Framed(Stamp(r, id)) && Lookup(Stamp(r, id).json, "id") == Int(id)
  {
    hide SetField, Sorted;
    SetFieldLooksUp(r.json, "id", Int(id));
    if r.out != "" {
      SetFieldLooksUp(SetField(r.json, "id", Int(id)), "bin", Int(|r.out|));
    }
  }

  lemma ReplyFramed(cfg: Config, handle: Handlers, k: nat, f: Frames.Frame, trunc: Trunc)
    requires Plain(handle(k, f).reply)
    ensures var r := ReplyFor(cfg, handle, k, f, trunc);
            Framed(r) && Lookup(r.json, "id") == Int(RequestId(f.msg, trunc))
  {
    hide Decide, CommandOf, IsDryRun, RequestId, Fail, PreviewReply, Stamp, Plain, Framed, Lookup;
    var cmd := CommandOf(f.msg);
    match Decide(cfg, cmd, IsDryRun(f.msg, trunc)) {
      case Refuse(code, message) => FailPlain(code, message);
      case Preview => PreviewPlain(cmd, if Find(cfg, cmd).Some? then Find(cfg, cmd).value.tier else Observe);
      case Run =>
    }
    StampFrames(BaseReply(cfg, handle, k, f, trunc), RequestId(f.msg, trunc));
  }

  /** An object as the codec prints it so that it reads back: see `JsonProofs.RoundTrip`. */
  ghost predicate Regular(v: Value) {
    v.Obj? && Valid(v) && DoubleFree(v)
  }

  lemma {:induction false} SetFieldRegular(v: Value, k: string, x: Value)
    requires Regular(v) && Valid(x) && DoubleFree(x)
    ensures Regular(SetField(v, k, x))
  {
    hide SetMember, Sorted;
    SetMemberSorted(v.members, k, x);
    SetMemberFrom(v.members, k, x);
    var now := SetMember(v.members, k, x);
    forall i | 0 <= i < |now| ensures Valid(now[i].value) && DoubleFree(now[i].value) {
      assert now[i] in now;
    }
  }

  lemma EmptyRegular()
    ensures Regular(Obj([]))
  {
  }

  lemma FailRegular(code: string, message: string)
    ensures Regular(Fail(code, message).json) && Fail(code, message).out == ""
  {
    hide Regular, SetField;
    EmptyRegular();
    SetFieldRegular(Obj([]), "code", Str(code));
    SetFieldRegular(SetField(Obj([]), "code", Str(code)), "message", Str(message));
    var described := SetField(SetField(Obj([]), "code", Str(code)), "message", Str(message));
    assert Valid(described) && DoubleFree(described) by { IsRegular(described); }
    SetFieldRegular(Obj([]), "error", described);
  }

  lemma IsRegular(v: Value)
    requires Regular(v)
    ensures v.Obj? && Valid(v) && DoubleFree(v)
  {
  }

  lemma PreviewRegular(cmd: string, tier: Tier)
    ensures Regular(PreviewReply(cmd, tier).json) && PreviewReply(cmd, tier).out == ""
  {
    hide Regular, SetField, PreviewNote, TierName;
    var one := SetField(Obj([]), "dry_run", Bool(true));
    var two := SetField(one, "would_run", Str(cmd));
    var three := SetField(two, "tier", Str(TierName(tier)));
    EmptyRegular();
    SetFieldRegular(Obj([]), "dry_run", Bool(true));
    SetFieldRegular(one, "would_run", Str(cmd));
    SetFieldRegular(two, "tier", Str(TierName(tier)));
    SetFieldRegular(three, "note", Str(PreviewNote()));
  }

  lemma StampRegular(r: Reply, id: int64)
    requires Regular(r.json)
    ensures Regular(Stamp(r, id).json) && Stamp(r, id).out == r.out
  {
    hide Regular, SetField;
    SetFieldRegular(r.json, "id", Int(id));
    if r.out != "" && |r.out| <= 0x7FFF_FFFF_FFFF_FFFF {
      SetFieldRegular(SetField(r.json, "id", Int(id)), "bin", Int(|r.out|));
    }
  }

  function FrameOf(r: Reply): Frames.Frame {
    Frames.Frame(r.json, r.out)
  }

  /** What the protocol leaves to the handlers: an object without doubles and without a "bin" of its own. */
  ghost predicate WellFormed(r: Reply) {
    Plain(r) && Regular(r.json)
  }

  predicate Fits(r: Reply) {
    DoubleFree(r.json) && |Dump(r.json)| <= Frames.MAX_JSON && |r.out| <= Frames.MAX_BINARY
  }

  lemma ReplyRegular(cfg: Config, handle: Handlers, k: nat, f: Frames.Frame, trunc: Trunc)
    requires Regular(handle(k, f).reply.json)
    ensures Regular(ReplyFor(cfg, handle, k, f, trunc).json)
  {
    hide Decide, CommandOf, IsDryRun, RequestId, Fail, PreviewReply, Stamp, Regular;
    var cmd := CommandOf(f.msg);
    match Decide(cfg, cmd, IsDryRun(f.msg, trunc)) {
      case Refuse(code, message) => FailRegular(code, message);
      case Preview => PreviewRegular(cmd, if Find(cfg, cmd).Some? then Find(cfg, cmd).value.tier else Observe);
      case Run =>
    }
    StampRegular(BaseReply(cfg, handle, k, f, trunc), RequestId(f.msg, trunc));
  }

  /** A reply within the size limits is a frame that `Frames.FrameReads` gives back whole. */
  lemma ReplySendable(cfg: Config, handle: Handlers, k: nat, f: Frames.Frame, trunc: Trunc)
    requires WellFormed(handle(k, f).reply)
    ensures var r := ReplyFor(cfg, handle, k, f, trunc);
            Fits(r) ==> Frames.Sendable(FrameOf(r))
  {
    hide ReplyFor, Dump, DoubleFree, Valid, Plain, Lookup, Has;
    ReplyRegular(cfg, handle, k, f, trunc);
    ReplyFramed(cfg, handle, k, f, trunc);
  }

  ghost predicate AnswersRequest(s: Sent, f: Frames.Frame, trunc: Trunc) {
    s.Answer? && Framed(s.reply) && Lookup(s.reply.json, "id") == Int(RequestId(f.msg, trunc))
  }

  /** Every request is answered, in order, under its own id, until a reply cannot be written. */
  lemma {:induction false} RepliesCarryTheirIds(cfg: Config, handle: Handlers, k: nat, fs: seq<Frames.Frame>, room: nat, trunc: Trunc)
    requires forall j, f :: Plain(handle(j, f).reply)
    ensures var answers := Answers(cfg, handle, k, fs, room, trunc);
            && |answers| == (if |fs| <= room then |fs| else room)
            && forall j :: 0 <= j < |answers| ==> AnswersRequest(answers[j], fs[j], trunc)
    decreases fs
  {
    hide ReplyFor, Plain, Framed, Lookup, RequestId;
    if fs != [] && room > 0 {
      ReplyFramed(cfg, handle, k, fs[0], trunc);
      RepliesCarryTheirIds(cfg, handle, k + 1, fs[1..], room - 1, trunc);
    }
  }

  /** The frames of some answers. */
  function FramesOf(answers: seq<Sent>): seq<Frames.Frame>
    requires forall i :: 0 <= i < |answers| ==> answers[i].Answer?
  {
    seq(|answers|, i requires 0 <= i < |answers| => FrameOf(answers[i].reply))
  }

  ghost predicate AllFit(answers: seq<Sent>) {
    forall i :: 0 <= i < |answers| ==> answers[i].Answer? && Fits(answers[i].reply)
  }

  lemma {:induction false} AnswersSendable(cfg: Config, handle: Handlers, k: nat, fs: seq<Frames.Frame>, room: nat, trunc: Trunc)
    requires forall j, f :: WellFormed(handle(j, f).reply)
    requires AllFit(Answers(cfg, handle, k, fs, room, trunc))
    ensures Frames.AllSendable(FramesOf(Answers(cfg, handle, k, fs, room, trunc)))
    decreases fs
  {
    hide ReplyFor, WellFormed, Fits, Frames.Sendable, FrameOf, AllFit, FramesOf;
    var answers := Answers(cfg, handle, k, fs, room, trunc);
    if fs != [] && room > 0 {
      var rest := Answers(cfg, handle, k + 1, fs[1..], room - 1, trunc);
      assert answers == [answers[0]] + rest;
      FitCons(answers[0], rest);
      ReplySendable(cfg, handle, k, fs[0], trunc);
      hide Answers;
      AnswersSendable(cfg, handle, k + 1, fs[1..], room - 1, trunc);
      SendableCons(answers[0], rest);
    } else {
      NothingToSend();
    }
  }

  lemma NothingToSend()
    ensures Frames.AllSendable(FramesOf([]))
  {
  }

  lemma FitCons(first: Sent, rest: seq<Sent>)
    requires AllFit([first] + rest)
    ensures first.Answer? && Fits(first.reply) && AllFit(rest)
  {
    hide Fits;
    assert ([first] + rest)[0] == first && forall i :: 0 <= i < |rest| ==> ([first] + rest)[i + 1] == rest[i];
  }

  lemma SendableCons(first: Sent, rest: seq<Sent>)
    requires AllFit([first] + rest) && AllFit(rest)
    requires first.Answer? && Frames.Sendable(FrameOf(first.reply)) && Frames.AllSendable(FramesOf(rest))
    ensures Frames.AllSendable(FramesOf([first] + rest))
  {
    hide Fits, Frames.Sendable, FrameOf;
    var all := [first] + rest;
    forall i | 0 <= i < |all| ensures Frames.Sendable(FramesOf(all)[i]) {
      if i > 0 { assert FramesOf(rest)[i - 1] == FramesOf(all)[i]; }
    }
  }

  /** The octets of the replies, one frame after another. */
  ghost function WireOfAnswers(cfg: Config, handle: Handlers, k: nat, fs: seq<Frames.Frame>, room: nat, trunc: Trunc): string
    requires forall j, f :: WellFormed(handle(j, f).reply)
    requires AllFit(Answers(cfg, handle, k, fs, room, trunc))
  {
    AnswersSendable(cfg, handle, k, fs, room, trunc);
    Frames.WireAll(FramesOf(Answers(cfg, handle, k, fs, room, trunc)))
  }

  /** From the requests to the far end of the wire: whatever the network does to the octets of the replies,
      the frames received are the first replies, whole and in order, each under the id of its request. */
  lemma RepliesArrive(cfg: Config, handle: Handlers, k: nat, fs: seq<Frames.Frame>, room: nat, trunc: Trunc,
        evs: seq<Frames.Event>)
    requires forall j, f :: WellFormed(handle(j, f).reply)
    requires AllFit(Answers(cfg, handle, k, fs, room, trunc))
    requires Frames.Bytes(evs) <= WireOfAnswers(cfg, handle, k, fs, room, trunc)
    ensures var got := Frames.Received(evs, trunc);
            && got <= FramesOf(Answers(cfg, handle, k, fs, room, trunc)) && |got| <= |fs|
            && forall i :: 0 <= i < |got| ==> Lookup(got[i].msg, "id") == Int(RequestId(fs[i].msg, trunc))
  {
    hide Plain, Regular, Fits, Lookup, RequestId, ReplyFor, Framed, Frames.Received, Frames.Bytes, Frames.WireAll;
    var answers := Answers(cfg, handle, k, fs, room, trunc);
    AnswersSendable(cfg, handle, k, fs, room, trunc);
    Frames.ReceivedIsPrefix(evs, FramesOf(answers), trunc);
    RepliesCarryTheirIds(cfg, handle, k, fs, room, trunc);
    forall i | 0 <= i < |answers| ensures Lookup(FramesOf(answers)[i].msg, "id") == Int(RequestId(fs[i].msg, trunc)) {
      assert AnswersRequest(answers[i], fs[i], trunc);
    }
  }

  /** Only the last request of a connection can be left without its reply. */
  lemma {:induction false} AtMostOneUnanswered(inbox: seq<ReadResult>, idle: nat, room: nat)
    ensures |Requests(inbox, idle, room)| <= room + 1
    decreases inbox
  {
    if inbox != [] {
      match inbox[0]
      case Gone =>
      case Idle => AtMostOneUnanswered(inbox[1..], idle + 1, room);
      case Got(_) => if room > 0 { AtMostOneUnanswered(inbox[1..], 0, room - 1); }
    }
  }

  // ------------------------------------------------------------------ one request, by its members

  /** An agent at tier `has` runs commands of tier `needs`. */
  predicate Reaches(has: Tier, needs: Tier) {
    needs == Observe || has == Invasive || (needs == Control && has == Control)
  }

  /** A flag of the configuration shuts the command off. */
  predicate ShutOff(cfg: Config, cmd: string) {
    || (cmd in {"i2c.read", "i2c.write", "gpio.read"} && !cfg.allowHardware)
    || (cmd == "set_clocks" && !cfg.allowOverclock)
    || (cmd in {"uninstall", "save.restore"} && !cfg.allowNandWrite)
  }

  /** The request has a "dry_run" that is `true` or the number 1. */
  predicate AsksPreview(msg: Value, trunc: Trunc) {
    var d := Lookup(msg, "dry_run");
    d == Bool(true) || d == Int(1) || (d.Double? && trunc(d.literal) == 1)
  }

  ghost predicate IsError(r: Reply, code: string) {
    Lookup(Lookup(r.json, "error"), "code") == Str(code) && !Has(r.json, "would_run") && r.out == ""
  }

  ghost predicate IsPreview(r: Reply, cmd: string, tier: Tier) {
    && Lookup(r.json, "dry_run") == Bool(true) && Lookup(r.json, "would_run") == Str(cmd) && !Has(r.json, "error")
    && Lookup(r.json, "tier") == Str(match tier case Observe => "observe" case Control => "control" case Invasive => "invasive")
    && r.out == ""
  }

  lemma StampKeeps(r: Reply, id: int64, k: string)
    requires r.json.Obj? && Sorted(r.json.members) && k != "id" && k != "bin"
    ensures Lookup(Stamp(r, id).json, k) == Lookup(r.json, k) && Has(Stamp(r, id).json, k) == Has(r.json, k)
    ensures Stamp(r, id).out == r.out && Lookup(Stamp(r, id).json, "id") == Int(id)
  {
    hide SetField, Sorted;
    SetFieldLooksUp(r.json, "id", Int(id));
    if r.out != "" && |r.out| <= 0x7FFF_FFFF_FFFF_FFFF {
      SetFieldLooksUp(SetField(r.json, "id", Int(id)), "bin", Int(|r.out|));
    }
  }

  lemma FailIsError(code: string, message: string)
    ensures IsError(Fail(code, message), code) && Plain(Fail(code, message))
  {
    hide SetMember, SetField, Sorted;
    EmptySorted();
    var inner := SetField(Obj([]), "code", Str(code));
    SetFieldLooksUp(Obj([]), "code", Str(code));
    SetFieldLooksUp(inner, "message", Str(message));
    SetFieldLooksUp(Obj([]), "error", SetField(inner, "message", Str(message)));
  }

  lemma PreviewIsPreview(cmd: string, tier: Tier)
    ensures IsPreview(PreviewReply(cmd, tier), cmd, tier) && Plain(PreviewReply(cmd, tier))
  {
    hide SetMember, SetField, Sorted, PreviewNote;
    var one := SetField(Obj([]), "dry_run", Bool(true));
    var two := SetField(one, "would_run", Str(cmd));
    var three := SetField(two, "tier", Str(TierName(tier)));
    EmptySorted();
    SetFieldLooksUp(Obj([]), "dry_run", Bool(true));
    SetFieldLooksUp(one, "would_run", Str(cmd));
    SetFieldLooksUp(two, "tier", Str(TierName(tier)));
    SetFieldLooksUp(three, "note", Str(PreviewNote()));
  }

  lemma StampedError(r: Reply, id: int64, code: string)
    requires Plain(r) && IsError(r, code)
    ensures IsError(Stamp(r, id), code) && Lookup(Stamp(r, id).json, "id") == Int(id)
  {
    hide Stamp, Lookup, Has, Sorted;
    StampKeeps(r, id, "error");
    StampKeeps(r, id, "would_run");
  }

  lemma StampedPreview(r: Reply, id: int64, cmd: string, tier: Tier)
    requires Plain(r) && IsPreview(r, cmd, tier)
    ensures IsPreview(Stamp(r, id), cmd, tier) && Lookup(Stamp(r, id).json, "id") == Int(id)
  {
    hide Stamp, Lookup, Has, Sorted;
    StampKeeps(r, id, "dry_run");
    StampKeeps(r, id, "would_run");
    StampKeeps(r, id, "error");
    StampKeeps(r, id, "tier");
  }

  /** What becomes of a request, in terms of its members, the table and the configuration. */
  ghost predicate Becomes(cfg: Config, handle: Handlers, k: nat, f: Frames.Frame, trunc: Trunc, cmd: string,
        reply: Reply, ran: seq<Ran>) {
    if cmd !in cfg.commands then ran == [] && IsError(reply, "unknown_command")
    else
      var c := cfg.commands[cmd];
      if !Reaches(cfg.tier, c.tier) then ran == [] && IsError(reply, "tier_denied")
      else if ShutOff(cfg, cmd) then ran == [] && IsError(reply, "disabled")
      else if c.mutating && AsksPreview(f.msg, trunc) then ran == [] && IsPreview(reply, cmd, c.tier)
      else
        var h := handle(k, f);
        && ran == [Ran(k, cmd, h.ok)] && reply == Stamp(h.reply, RequestId(f.msg, trunc))
        && JournalOf(cfg, ran) == if c.mutating then [JournalEntry(cmd, if h.ok then "ok" else "FAILED")] else []
  }

  /** A request is refused, previewed or run by what its members say: "cmd" names the command, "dry_run" as
      `true` or 1 asks for a preview, and "id" comes back in the reply. */
  lemma RequestBecomes(cfg: Config, handle: Handlers, k: nat, f: Frames.Frame, trunc: Trunc)
    ensures var v := Lookup(f.msg, "cmd"); var cmd := if v.Str? then v.s else "";
            Becomes(cfg, handle, k, f, trunc, cmd, ReplyFor(cfg, handle, k, f, trunc), RanFor(cfg, handle, k, f, trunc))
    ensures var id := Lookup(f.msg, "id");
            RequestId(f.msg, trunc) == if id.Int? then id.i else if id.Double? then trunc(id.literal) else 0
  {
    var v := Lookup(f.msg, "cmd");
    var cmd := if v.Str? then v.s else "";
    var id := RequestId(f.msg, trunc);
    DecidedBy(cfg, cmd, f.msg, trunc);
    assert CommandOf(f.msg) == cmd;
    hide Decide, CommandOf, IsDryRun, Lookup, AsksPreview, Fail, PreviewReply, Stamp, Plain, IsError, IsPreview, ShutOff, Reaches;
    match Decide(cfg, cmd, IsDryRun(f.msg, trunc)) {
      case Refuse(code, message) =>
        FailIsError(code, message);
        StampedError(Fail(code, message), id, code);
      case Preview =>
        PreviewIsPreview(cmd, cfg.commands[cmd].tier);
        StampedPreview(PreviewReply(cmd, cfg.commands[cmd].tier), id, cmd, cfg.commands[cmd].tier);
      case Run => JournalOfOne(cfg, Ran(k, cmd, handle(k, f).ok));
    }
  }

  lemma JournalOfOne(cfg: Config, r: Ran)
    ensures JournalOf(cfg, [r]) == if r.cmd in cfg.commands && cfg.commands[r.cmd].mutating
                                   then [JournalEntry(r.cmd, if r.ok then "ok" else "FAILED")] else []
  {
    assert [r][1..] == [];
  }

  lemma DecidedBy(cfg: Config, cmd: string, msg: Value, trunc: Trunc)
    ensures var v := Decide(cfg, cmd, IsDryRun(msg, trunc));
            if cmd !in cfg.commands then v.Refuse? && v.code == "unknown_command"
            else if !Reaches(cfg.tier, cfg.commands[cmd].tier) then v.Refuse? && v.code == "tier_denied"
            else if ShutOff(cfg, cmd) then v.Refuse? && v.code == "disabled"
            else if cfg.commands[cmd].mutating && AsksPreview(msg, trunc) then v == Preview
            else v == Run
  {
    hide GateMessage, TierMessage, Lookup;
    GateIsShut(cfg, cmd);
    hide GateOf, ShutOff;
  }

  lemma GateIsShut(cfg: Config, cmd: string)
    ensures GateOf(cfg, cmd).Some? <==> ShutOff(cfg, cmd)
  {
  }

  // ---------------------------------------------------------------------- the advertised list

  predicate DeniedByTable(v: Verdict) {
    v.Refuse? && (v.code == "tier_denied" || v.code == "unknown_command")
  }

  /** The welcome message lists exactly the commands that are never refused as unknown or for their tier. */
  lemma AdvertisedIsNeverDenied(cfg: Config, cmd: string, dryRun: bool)
    ensures cmd in Advertised(cfg)
            <==> !DeniedByTable(Decide(cfg, cmd, dryRun))
  {
    hide GateOf, GateMessage, TierMessage, Rank;
  }

  /** `AgentClient.supports`, given the command list of the welcome message, if there was one. */
  predicate Supports(commands: Option<set<string>>, cmd: string) {
    commands.None? || cmd in commands.value
  }

  /** After a successful handshake `supports` answers exactly whether the agent will look past the
      command's name and tier. */
  lemma SupportsTellsTheTier(cfg: Config, mac: Mac, nonce: string, fw: string, inbox: seq<ReadResult>, room: nat, trunc: Trunc,
        cmd: string, dryRun: bool)
    requires Shake(cfg, mac, nonce, fw, inbox, room, trunc).ok
    ensures var sent := Shake(cfg, mac, nonce, fw, inbox, room, trunc).sent;
            && sent != [] && sent[|sent| - 1].Welcome?
            && (Supports(Some(sent[|sent| - 1].commands), cmd)
                <==> !DeniedByTable(Decide(cfg, cmd, dryRun)))
  {
    AdvertisedIsNeverDenied(cfg, cmd, dryRun);
    hide Advertised, Decide, CommandOf, AsString, Lookup, AsInt, RequestId;
  }

  /** What the welcome message tells of the configuration, and that its flags are what shuts commands off. */
  lemma WelcomeTells(cfg: Config, mac: Mac, nonce: string, fw: string, inbox: seq<ReadResult>, room: nat, trunc: Trunc)
    requires Shake(cfg, mac, nonce, fw, inbox, room, trunc).ok
    ensures var sent := Shake(cfg, mac, nonce, fw, inbox, room, trunc).sent; var w := sent[|sent| - 1];
            && w.Welcome? && w.ok && w.agentVersion == "0.2.0" && w.protocolVersion == 1 && w.fw == fw
            && w.tier == cfg.tier && w.emummc == cfg.isEmummc
            && (forall cmd :: cmd in {"i2c.read", "i2c.write", "gpio.read"} ==> (w.hardware <==> !ShutOff(cfg, cmd)))
            && (w.overclock <==> !ShutOff(cfg, "set_clocks"))
            && (forall cmd :: cmd in {"uninstall", "save.restore"} ==> (w.nandWrite <==> !ShutOff(cfg, cmd)))
            && (forall cmd :: cmd in w.commands <==> cmd in cfg.commands && Reaches(cfg.tier, cfg.commands[cmd].tier))
  {
    WelcomeIs(cfg, mac, nonce, fw, inbox, room, trunc);
    hide Shake;
  }

  lemma WelcomeIs(cfg: Config, mac: Mac, nonce: string, fw: string, inbox: seq<ReadResult>, room: nat, trunc: Trunc)
    requires Shake(cfg, mac, nonce, fw, inbox, room, trunc).ok
    ensures var sent := Shake(cfg, mac, nonce, fw, inbox, room, trunc).sent;
            sent != [] && sent[|sent| - 1].Welcome? && sent[|sent| - 1] == Greeting(cfg, sent[|sent| - 1].id, fw)
  {
    hide CommandOf, AsString, Lookup, AsInt, RequestId, Advertised;
  }

  /** Nine receive timeouts in a row are borne, and a request after them is handled; the tenth ends the
      connection. A request starts the count again. */
  lemma {:induction false} TenTimeoutsEnd(n: nat, f: Frames.Frame, later: seq<ReadResult>, room: nat)
    requires room > 0
    ensures Requests(seq(n, _ => Idle) + ([Got(f)] + later), 0, room)
            == if n >= 10 then [] else [f] + Requests(later, 0, room - 1)
  {
    TimeoutsFrom(n, 0, f, later, room);
  }

  lemma {:induction false} TimeoutsFrom(n: nat, idle: nat, f: Frames.Frame, later: seq<ReadResult>, room: nat)
    requires room > 0 && idle < 10
    ensures Requests(seq(n, _ => Idle) + ([Got(f)] + later), idle, room)
            == if idle + n >= 10 then [] else [f] + Requests(later, 0, room - 1)
  {
    var inbox := seq(n, _ => Idle) + ([Got(f)] + later);
    if n == 0 {
      assert inbox == [Got(f)] + later && inbox[1..] == later;
    } else {
      assert inbox[0] == Idle && inbox[1..] == seq(n - 1, _ => Idle) + ([Got(f)] + later);
      if idle + 1 < 10 { TimeoutsFrom(n - 1, idle + 1, f, later, room); }
    }
  }

  // ------------------------------------------------------------------------- authentication

  /** The frames a successful handshake consists of. */
  predicate PlainHello(cfg: Config, inbox: seq<ReadResult>) {
    && inbox != [] && inbox[0].Got?
    && CommandOf(inbox[0].frame.msg) == "hello"
    && AsString(Lookup(inbox[0].frame.msg, "auth")) != "hmac"
    && AsString(Lookup(inbox[0].frame.msg, "token")) == cfg.token
  }

  predicate SignedHello(cfg: Config, mac: Mac, nonce: string, inbox: seq<ReadResult>) {
    && |inbox| > 1 && inbox[0].Got? && inbox[1].Got?
    && CommandOf(inbox[0].frame.msg) == "hello"
    && AsString(Lookup(inbox[0].frame.msg, "auth")) == "hmac"
    && AsString(Lookup(inbox[1].frame.msg, "hmac")) == mac(cfg.token, nonce)
  }

  /** Exactly when a peer is let in. */
  lemma HandshakeExactly(cfg: Config, mac: Mac, nonce: string, fw: string, inbox: seq<ReadResult>, room: nat, trunc: Trunc)
    requires |mac(cfg.token, nonce)| == 64
    ensures Shake(cfg, mac, nonce, fw, inbox, room, trunc).ok
            <==> (&& cfg.token != ""
                  && ((PlainHello(cfg, inbox) && !cfg.requireHmacAuth && room >= 1)
                      || (SignedHello(cfg, mac, nonce, inbox) && room >= 2)))
  {
    hide CommandOf, AsString, Lookup, AsInt, RequestId, Advertised;
  }

  /** Where plaintext tokens are refused, a recorded conversation that was accepted under one nonce is
      accepted under another only if the two MACs collide. */
  lemma ReplayNeedsCollision(cfg: Config, mac: Mac, nonce1: string, nonce2: string, fw: string, inbox: seq<ReadResult>,
        room: nat, trunc: Trunc)
    requires cfg.requireHmacAuth
    requires |mac(cfg.token, nonce1)| == |mac(cfg.token, nonce2)| == 64
    requires Shake(cfg, mac, nonce1, fw, inbox, room, trunc).ok
    ensures Shake(cfg, mac, nonce2, fw, inbox, room, trunc).ok <==> mac(cfg.token, nonce1) == mac(cfg.token, nonce2)
  {
    hide Shake, CommandOf, AsString, Lookup;
    HandshakeExactly(cfg, mac, nonce1, fw, inbox, room, trunc);
    HandshakeExactly(cfg, mac, nonce2, fw, inbox, room, trunc);
  }

  /** What goes out in a handshake that fails does not depend on the token or on the tier. */
  lemma RefusalsTellNothing(cfg: Config, other: Config, mac: Mac, nonce: string, fw: string, inbox: seq<ReadResult>,
        room: nat, trunc: Trunc)
    requires !Shake(cfg, mac, nonce, fw, inbox, room, trunc).ok && !Shake(other, mac, nonce, fw, inbox, room, trunc).ok
    ensures Shake(cfg, mac, nonce, fw, inbox, room, trunc) == Shake(other, mac, nonce, fw, inbox, room, trunc)
  {
    hide CommandOf, AsString, Lookup, AsInt, RequestId, Advertised;
  }
}
