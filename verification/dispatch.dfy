/** Authentication and dispatch of agent/source/server.cpp: what one connection may make the agent do.

    Frames arrive as `ReadFrame` delivers them. Handlers are an oracle, asked with the number of the
    request, since they depend on the console. */
module Dispatch {
  import opened Options
  import opened Json
  import opened Commands
  import Frames

  /** The agent's configuration, and the command table of its build. */
  datatype Config = Config(
    commands: map<string, Command>,
    token: string,
    tier: Tier,
    isEmummc: bool,
    allowNandWrite: bool,
    allowOverclock: bool,
    allowHardware: bool,
    requireHmacAuth: bool
  )

  function Find(cfg: Config, cmd: string): Option<Command> {
    if cmd in cfg.commands then Some(cfg.commands[cmd]) else None
  }

  function TierName(t: Tier): string {
    match t
    case Observe => "observe"
    case Control => "control"
    case Invasive => "invasive"
  }

  /** The sub-gates of `CheckTier`. */
  datatype Gate = Hardware | Overclock | NandWrite

  function GateOf(cfg: Config, cmd: string): Option<Gate> {
    if (cmd == "i2c.write" || cmd == "gpio.read" || cmd == "i2c.read") && !cfg.allowHardware then Some(Hardware)
    else if cmd == "set_clocks" && !cfg.allowOverclock then Some(Overclock)
    else if (cmd == "uninstall" || cmd == "save.restore") && !cfg.allowNandWrite then Some(NandWrite)
    else None
  }

  function GateMessage(g: Gate, cmd: string): string {
    match g
    case Hardware => "raw hardware bus access" + Demand("allow_hardware")
    case Overclock => "clock control" + Demand("allow_overclock")
    case NandWrite => "'" + cmd + "' writes to NAND and" + Demand("allow_nand_write")
  }

  function Demand(flag: string): string {
    " requires " + flag + "=true in config"
  }

  function TierMessage(cfg: Config, cmd: string, c: Command): string {
    "'" + cmd + "' requires tier=" + TierName(c.tier) + TierAdvice(cfg)
  }

  function TierAdvice(cfg: Config): string {
    " but the agent is configured for tier=" + TierName(cfg.tier)
    + ". Raise `tier` in sd:/config/switch-agentd/config.ini and restart the agent."
  }

  datatype Verdict = Refuse(code: string, message: string) | Preview | Run

  function Decide(cfg: Config, cmd: string, dryRun: bool): Verdict {
    match Find(cfg, cmd)
    case None => Refuse("unknown_command", cmd)
    case Some(c) =>
      if Rank(c.tier) > Rank(cfg.tier) then Refuse("tier_denied", TierMessage(cfg, cmd, c))
      else if GateOf(cfg, cmd).Some? then Refuse("disabled", GateMessage(GateOf(cfg, cmd).value, cmd))
      else if c.mutating && dryRun then Preview
      else Run
  }

  /** What the welcome message lists. */
  function Advertised(cfg: Config): set<string> {
    set cmd | cmd in cfg.commands && Rank(cfg.commands[cmd].tier) <= Rank(cfg.tier)
  }

  // -------------------------------------------------------------------------- one request

  type Trunc = string -> int64

  function RequestId(msg: Value, trunc: Trunc): int64 {
    AsInt(Lookup(msg, "id"), 0, trunc)
  }

  function CommandOf(msg: Value): string {
    AsString(Lookup(msg, "cmd"))
  }

  predicate IsDryRun(msg: Value, trunc: Trunc) {
    AsBool(Lookup(msg, "dry_run"), false) || AsInt(Lookup(msg, "dry_run"), 0, trunc) == 1
  }

  /** `Value::set`. */
  function SetField(v: Value, k: string, x: Value): Value {
    Obj(SetMember(if v.Obj? then v.members else [], k, x))
  }

  datatype Reply = Reply(json: Value, out: string)

  function Fail(code: string, message: string): Reply {
    Reply(SetField(Obj([]), "error", SetField(SetField(Obj([]), "code", Str(code)), "message", Str(message))), "")
  }

  function PreviewNote(): string {
    "not executed; re-send without dry_run to apply"
  }

  function PreviewReply(cmd: string, tier: Tier): Reply {
    var described := SetField(SetField(Obj([]), "dry_run", Bool(true)), "would_run", Str(cmd));
    Reply(SetField(SetField(described, "tier", Str(TierName(tier))), "note", Str(PreviewNote())), "")
  }

  /** What a handler does with the k-th request of a connection: success, and its reply. */
  datatype Handled = Handled(ok: bool, reply: Reply)

  type Handlers = (nat, Frames.Frame) -> Handled

  function BaseReply(cfg: Config, handle: Handlers, k: nat, f: Frames.Frame, trunc: Trunc): Reply {
    var cmd := CommandOf(f.msg);
    match Decide(cfg, cmd, IsDryRun(f.msg, trunc))
    case Refuse(code, message) => Fail(code, message)
    case Preview => PreviewReply(cmd, if Find(cfg, cmd).Some? then Find(cfg, cmd).value.tier else Observe)
    case Run => handle(k, f).reply
  }

  function Stamp(r: Reply, id: int64): Reply {
    var withId := SetField(r.json, "id", Int(id));
    if r.out == "" || |r.out| > 0x7FFF_FFFF_FFFF_FFFF then r.(json := withId)
    else r.(json := SetField(withId, "bin", Int(|r.out|)))
  }

  /** The reply to the k-th request. */
  function ReplyFor(cfg: Config, handle: Handlers, k: nat, f: Frames.Frame, trunc: Trunc): Reply {
    Stamp(BaseReply(cfg, handle, k, f, trunc), RequestId(f.msg, trunc))
  }

  /** A handler that ran, for which request, and how it ended. */
  datatype Ran = Ran(k: nat, cmd: string, ok: bool)

  function RanFor(cfg: Config, handle: Handlers, k: nat, f: Frames.Frame, trunc: Trunc): seq<Ran> {
    if Decide(cfg, CommandOf(f.msg), IsDryRun(f.msg, trunc)).Run? then [Ran(k, CommandOf(f.msg), handle(k, f).ok)] else []
  }

  datatype JournalEntry = JournalEntry(cmd: string, outcome: string)

  predicate Mutating(cfg: Config, cmd: string) {
    Find(cfg, cmd).Some? && Find(cfg, cmd).value.mutating
  }

  /** What the journal should say about some handler runs. */
  function JournalOf(cfg: Config, ran: seq<Ran>): seq<JournalEntry> {
    if ran == [] then []
    else (if Mutating(cfg, ran[0].cmd) then [JournalEntry(ran[0].cmd, if ran[0].ok then "ok" else "FAILED")] else [])
         + JournalOf(cfg, ran[1..])
  }

  // ------------------------------------------------------------------------ a connection

  /** What successive `ReadFrame` calls answer; after the last one the peer is gone. */
  datatype ReadResult = Idle | Gone | Got(frame: Frames.Frame)

  datatype Sent = Challenge(id: int64, nonce: string) | AuthError(id: int64)
    | Welcome(id: int64, ok: bool, agentVersion: string, protocolVersion: int, fw: string, tier: Tier, emummc: bool,
              nandWrite: bool, overclock: bool, hardware: bool, commands: set<string>)
    | Answer(reply: Reply)

  const AGENT_VERSION := "0.2.0"
  const PROTOCOL_VERSION := 1

  /** The welcome message; `fw` is the console's firmware version. */
  function Greeting(cfg: Config, id: int64, fw: string): Sent {
    Welcome(id, true, AGENT_VERSION, PROTOCOL_VERSION, fw, cfg.tier, cfg.isEmummc,
            cfg.allowNandWrite, cfg.allowOverclock, cfg.allowHardware, Advertised(cfg))
  }

  class Connection {
    var inbox: seq<ReadResult>
    var room: nat            // frames that can still be written before writing fails
    var written: seq<Sent>

    constructor (inbox: seq<ReadResult>, room: nat)
      ensures this.inbox == inbox && this.room == room && written == []
    {
      this.inbox, this.room, written := inbox, room, [];
    }

    method ReadFrame() returns (r: ReadResult)
      modifies this`inbox
      ensures old(inbox) == [] ==> r == Gone && inbox == []
      ensures old(inbox) != [] ==> r == old(inbox)[0] && inbox == old(inbox)[1..]
    {
      if inbox == [] { return Gone; }
      r := inbox[0];
      inbox := inbox[1..];
    }

    method WriteFrame(f: Sent) returns (ok: bool)
      modifies this`room, this`written
      ensures ok <==> old(room) > 0
      ensures ok ==> room == old(room) - 1 && written == old(written) + [f]
      ensures !ok ==> room == old(room) && written == old(written)
    {
      if room == 0 { return false; }
      room := room - 1;
      written := written + [f];
      return true;
    }
  }

  const MAX_IDLE := 10

  /** The requests a connection handles: it ends when the peer is gone, after ten idle timeouts in a
      row, or when a reply cannot be written. */
  function Requests(inbox: seq<ReadResult>, idle: nat, room: nat): seq<Frames.Frame>
    decreases inbox
  {
    if inbox == [] then []
    else
      match inbox[0]
      case Gone => []
      case Idle => if idle + 1 >= MAX_IDLE then [] else Requests(inbox[1..], idle + 1, room)
      case Got(f) => [f] + if room == 0 then [] else Requests(inbox[1..], 0, room - 1)
  }

  /** The handlers run for the requests `fs`, the first of which has number `k`. */
  function RanAll(cfg: Config, handle: Handlers, k: nat, fs: seq<Frames.Frame>, trunc: Trunc): seq<Ran>
    decreases fs
  {
    if fs == [] then []
    else RanFor(cfg, handle, k, fs[0], trunc) + RanAll(cfg, handle, k + 1, fs[1..], trunc)
  }

  /** The replies to `fs`, as far as they can be written. */
  function Answers(cfg: Config, handle: Handlers, k: nat, fs: seq<Frames.Frame>, room: nat, trunc: Trunc): seq<Sent>
    decreases fs
  {
    if fs == [] || room == 0 then []
    else [Answer(ReplyFor(cfg, handle, k, fs[0], trunc))] + Answers(cfg, handle, k + 1, fs[1..], room - 1, trunc)
  }

  /** Whether the handshake succeeds, given what is read and written. `mac` stands for HMAC-SHA256. */
  datatype Handshake = Handshake(ok: bool, sent: seq<Sent>, inbox: seq<ReadResult>, room: nat)

  type Mac = (string, string) -> string

  function Say(f: Sent, room: nat): seq<Sent> {
    if room == 0 then [] else [f]
  }

  function Conclude(cfg: Config, fw: string, authed: bool, id: int64, okId: int64, inbox: seq<ReadResult>,
        sent: seq<Sent>, room: nat): Handshake {
    var last := if authed then Greeting(cfg, okId, fw) else AuthError(id);
    Handshake(authed && room > 0, sent + Say(last, room), inbox, if room == 0 then 0 else room - 1)
  }

  function Shake(cfg: Config, mac: Mac, nonce: string, fw: string, inbox: seq<ReadResult>, room: nat, trunc: Trunc): Handshake {
    if inbox == [] then Handshake(false, [], [], room)
    else if !inbox[0].Got? || CommandOf(inbox[0].frame.msg) != "hello" then Handshake(false, [], inbox[1..], room)
    else
      var msg := inbox[0].frame.msg;
      var id := RequestId(msg, trunc);
      if AsString(Lookup(msg, "auth")) != "hmac" then
        var authed := !cfg.requireHmacAuth && cfg.token != "" && AsString(Lookup(msg, "token")) == cfg.token;
        Conclude(cfg, fw, authed, id, id, inbox[1..], [], room)
      else if room == 0 then Handshake(false, [], inbox[1..], room)
      else
        var sent := [Challenge(id, nonce)];
        if inbox[1..] == [] || !inbox[1].Got? then Handshake(false, sent, if inbox[1..] == [] then [] else inbox[2..], room - 1)
        else
          var resp := inbox[1].frame.msg;
          var presented := AsString(Lookup(resp, "hmac"));
          var authed := cfg.token != "" && |presented| == 64 && presented == mac(cfg.token, nonce);
          Conclude(cfg, fw, authed, AsInt(Lookup(resp, "id"), id, trunc), RequestId(resp, trunc), inbox[2..], sent, room - 1)
  }

  /** `SecureEqual`; `diff` tells whether any bit of the accumulated difference is set. */
  method SecureEqual(a: string, b: string) returns (equal: bool)
    ensures equal <==> a == b
  {
    if |a| != |b| { return false; }
    var diff := false;
    for i := 0 to |a|
      invariant diff <==> a[..i] != b[..i]
    {
      assert a[..i + 1] == a[..i] + [a[i]] && b[..i + 1] == b[..i] + [b[i]];
      diff := diff || a[i] != b[i];
    }
    assert a[..|a|] == a && b[..|b|] == b;
    return !diff;
  }

  // --------------------------------------------------------------- steps of the connection loop

  lemma NothingYet(cfg: Config, written: seq<Sent>, journal: seq<JournalEntry>)
    ensures written + [] == written && journal + JournalOf(cfg, []) == journal
  {
  }

  lemma AnswersStep(done: seq<Sent>, cfg: Config, handle: Handlers, k: nat, fs: seq<Frames.Frame>, room: nat, trunc: Trunc)
    requires fs != []
    ensures room == 0 ==> done + Answers(cfg, handle, k, fs, room, trunc) == done
    ensures room > 0 ==>
              done + Answers(cfg, handle, k, fs, room, trunc)
              == done + [Answer(ReplyFor(cfg, handle, k, fs[0], trunc))] + Answers(cfg, handle, k + 1, fs[1..], room - 1, trunc)
  {
    hide ReplyFor;
  }

  lemma RanStep(done: seq<Ran>, cfg: Config, handle: Handlers, k: nat, fs: seq<Frames.Frame>, trunc: Trunc)
    requires fs != []
    ensures done + RanAll(cfg, handle, k, fs, trunc)
            == done + RanFor(cfg, handle, k, fs[0], trunc) + RanAll(cfg, handle, k + 1, fs[1..], trunc)
  {
    hide RanFor;
  }

  lemma {:induction false} JournalOfAppend(cfg: Config, a: seq<Ran>, b: seq<Ran>)
    ensures JournalOf(cfg, a + b) == JournalOf(cfg, a) + JournalOf(cfg, b)
  {
    hide Mutating;
    if a == [] {
      assert a + b == b;
    } else {
      assert (a + b)[1..] == a[1..] + b;
      JournalOfAppend(cfg, a[1..], b);
    }
  }

  lemma JournalAppend(cfg: Config, journal: seq<JournalEntry>, a: seq<Ran>, b: seq<Ran>)
    ensures journal + JournalOf(cfg, a) + JournalOf(cfg, b) == journal + JournalOf(cfg, a + b)
  {
    hide JournalOf;
    JournalOfAppend(cfg, a, b);
  }

  class Server {
    const cfg: Config
    var journal: seq<JournalEntry>
    ghost var ran: seq<Ran>    // handlers run over the current connection

    constructor (cfg: Config)
      ensures this.cfg == cfg && journal == [] && ran == []
    {
      this.cfg := cfg;
      journal, ran := [], [];
    }

    method Authenticate(fd: Connection, mac: Mac, nonce: string, fw: string, trunc: Trunc) returns (ok: bool)
      modifies fd
      ensures var h := Shake(cfg, mac, nonce, fw, old(fd.inbox), old(fd.room), trunc);
              ok == h.ok && fd.written == old(fd.written) + h.sent && fd.inbox == h.inbox && fd.room == h.room
    {
      hide Advertised, CommandOf, RequestId, Lookup, AsString, AsInt;
      ghost var before := fd.written;
      assert before + [] == before;
      var hello := fd.ReadFrame();
      if !hello.Got? { return false; }
      var msg := hello.frame.msg;
      if CommandOf(msg) != "hello" { return false; }
      var helloId := RequestId(msg, trunc);
      var authed := false;
      if AsString(Lookup(msg, "auth")) == "hmac" {
        var written := fd.WriteFrame(Challenge(helloId, nonce));
        if !written { return false; }
        var answer := fd.ReadFrame();
        if !answer.Got? { return false; }
        var presented := AsString(Lookup(answer.frame.msg, "hmac"));
        if cfg.token != "" && |presented| == 64 {
          authed := SecureEqual(presented, mac(cfg.token, nonce));
        }
        msg := answer.frame.msg;
        helloId := AsInt(Lookup(msg, "id"), helloId, trunc);
      } else if !cfg.requireHmacAuth {
        authed := false;
        if cfg.token != "" { authed := SecureEqual(AsString(Lookup(msg, "token")), cfg.token); }
      }
      ghost var sent := fd.written;
      assert sent + [] == sent;
      if !authed {
        var _ := fd.WriteFrame(AuthError(helloId));
        return false;
      }
      ok := fd.WriteFrame(Greeting(cfg, RequestId(msg, trunc), fw));
    }

    /** `CheckTier`: the tier first, then the sub-gates, each with its own refusal. */
    method CheckTier(cmd: string, c: Command) returns (permitted: bool, refusal: Reply)
      ensures permitted <==> Rank(c.tier) <= Rank(cfg.tier) && GateOf(cfg, cmd).None?
      ensures Rank(c.tier) > Rank(cfg.tier) ==> refusal == Fail("tier_denied", TierMessage(cfg, cmd, c))
      ensures Rank(c.tier) <= Rank(cfg.tier) && GateOf(cfg, cmd).Some? ==>
        refusal == Fail("disabled", GateMessage(GateOf(cfg, cmd).value, cmd))
    {
      hide Fail, GateMessage, TierMessage;
      refusal := Reply(Null, "");
      if Rank(c.tier) > Rank(cfg.tier) { return false, Fail("tier_denied", TierMessage(cfg, cmd, c)); }
      if (cmd == "i2c.write" || cmd == "gpio.read" || cmd == "i2c.read") && !cfg.allowHardware {
        return false, Fail("disabled", GateMessage(Hardware, cmd));
      }
      if cmd == "set_clocks" && !cfg.allowOverclock { return false, Fail("disabled", GateMessage(Overclock, cmd)); }
      if (cmd == "uninstall" || cmd == "save.restore") && !cfg.allowNandWrite {
        return false, Fail("disabled", GateMessage(NandWrite, cmd));
      }
      permitted := true;
    }

    /** One turn of `ServeConnection`, up to the write of the reply. */
    method Handle(k: nat, f: Frames.Frame, handle: Handlers, trunc: Trunc) returns (reply: Reply)
      modifies this
      ensures reply == ReplyFor(cfg, handle, k, f, trunc)
      ensures ran == old(ran) + RanFor(cfg, handle, k, f, trunc)
      ensures journal == old(journal) + JournalOf(cfg, RanFor(cfg, handle, k, f, trunc))
    {
      hide Find, GateOf, CommandOf, IsDryRun, RequestId, PreviewReply, Fail, SetField, GateMessage, TierMessage;
      assert ran + [] == ran && journal + [] == journal;
      var cmd := CommandOf(f.msg);
      var it := Find(cfg, cmd);
      if it == None {
        reply := Fail("unknown_command", cmd);
      } else {
        var permitted;
        permitted, reply := CheckTier(cmd, it.value);
        if !permitted {
          // the refusal is the reply
        } else if it.value.mutating && IsDryRun(f.msg, trunc) {
          reply := PreviewReply(cmd, it.value.tier);
        } else {
          var h := handle(k, f);
          reply := h.reply;
          ran := ran + [Ran(k, cmd, h.ok)];
          if it.value.mutating {
            journal := journal + [JournalEntry(cmd, if h.ok then "ok" else "FAILED")];
          }
        }
      }
      reply := Stamp(reply, RequestId(f.msg, trunc));
    }

    /** `ServeConnection`: after a successful handshake the requests of `Requests` are handled, each
        gets its own reply, and the journal grows by exactly the mutating handlers that ran. */
    method ServeConnection(fd: Connection, mac: Mac, nonce: string, fw: string, handle: Handlers, trunc: Trunc)
      modifies this, fd
      ensures var h := Shake(cfg, mac, nonce, fw, old(fd.inbox), old(fd.room), trunc);
              var fs := if h.ok then Requests(h.inbox, 0, h.room) else [];
              && fd.written == old(fd.written) + h.sent + Answers(cfg, handle, 0, fs, h.room, trunc)
              && ran == RanAll(cfg, handle, 0, fs, trunc)
              && journal == old(journal) + JournalOf(cfg, ran)
    {
      hide Shake, ReplyFor, RanFor, JournalOf;
      ran := [];
      ghost var h := Shake(cfg, mac, nonce, fw, fd.inbox, fd.room, trunc);
      var ok := Authenticate(fd, mac, nonce, fw, trunc);
      NothingYet(cfg, fd.written, journal);
      if !ok { return; }
      var k: nat := 0;    // which request this is, for the oracle
      ghost var fs := Requests(h.inbox, 0, h.room);
      ghost var toWrite := fd.written + Answers(cfg, handle, 0, fs, h.room, trunc);
      ghost var toRun := RanAll(cfg, handle, 0, fs, trunc);
      var idle := 0;
      while true
        invariant idle < MAX_IDLE
        invariant fs == Requests(fd.inbox, idle, fd.room)
        invariant fd.written + Answers(cfg, handle, k, fs, fd.room, trunc) == toWrite
        invariant ran + RanAll(cfg, handle, k, fs, trunc) == toRun
        invariant journal == old(journal) + JournalOf(cfg, ran)
        decreases |fd.inbox|
      {
        var r := fd.ReadFrame();
        if r.Idle? {
          idle := idle + 1;
          if idle >= MAX_IDLE { break; }
          continue;
        }
        if !r.Got? { break; }
        idle := 0;
        AnswersStep(fd.written, cfg, handle, k, fs, fd.room, trunc);
        RanStep(ran, cfg, handle, k, fs, trunc);
        JournalAppend(cfg, old(journal), ran, RanFor(cfg, handle, k, r.frame, trunc));
        var reply := Handle(k, r.frame, handle, trunc);
        var sent := fd.WriteFrame(Answer(reply));
        if !sent { break; }
        fs := fs[1..];
        k := k + 1;
      }
    }
  }
}
