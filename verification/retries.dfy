/** The client's idempotent set (server/src/switch_mcp/clients/agentd.py) against the agent's command
    table (agent/source/server.cpp): what a retry can do twice. */
module Retries {
  import opened Commands
  import Session

  /** Setting a breakpoint slot to a value twice leaves it at that value. */
  predicate SetsSlot(cmd: string) {
    cmd == "debug.set_watchpoint" || cmd == "debug.set_breakpoint" || cmd == "debug.clear_breakpoint"
  }

  lemma InvasiveOnce(cmd: string)
    requires cmd in InvasiveCommands()
    ensures !Session.Idempotent(cmd)
  {
  }

  lemma ShortWritesOnce(cmd: string)
    requires cmd in ControlWrites() && |cmd| < 9
    ensures !Session.Idempotent(cmd)
  {
  }

  lemma LongWritesOnce(cmd: string)
    requires cmd in ControlWrites() && 9 <= |cmd| < 13
    ensures !Session.Idempotent(cmd)
  {
  }

  lemma LongestWrites(cmd: string)
    requires cmd in ControlWrites() && 13 <= |cmd|
    ensures Session.Idempotent(cmd) ==> SetsSlot(cmd)
  {
  }

  /** Of the commands that change the console the client repeats only those that set a breakpoint slot. */
  lemma RepeatsOnlySlots(cmd: string)
    requires cmd in Table() && Table()[cmd].mutating && Session.Idempotent(cmd)
    ensures SetsSlot(cmd)
  {
    hide Table, ObserveCommands, ControlReads, ControlWrites, InvasiveCommands, Session.Idempotent, SetsSlot;
    TableAt(cmd);
    if cmd in ControlWrites() {
      if |cmd| < 9 { ShortWritesOnce(cmd); } else if |cmd| < 13 { LongWritesOnce(cmd); } else { LongestWrites(cmd); }
    } else {
      InvasiveOnce(cmd);
    }
  }

  /** Over every run of client, agent and network, one call makes the agent carry out a command that
      changes the console at most once, unless it sets a breakpoint slot or its first request was flushed. */
  lemma MutatesAtMostOnce(steps: seq<Session.Step>, k: nat)
    requires k < |Session.Exec(steps).calls|
    requires var cmd := Session.Exec(steps).calls[k].cmd; cmd in Table() && Table()[cmd].mutating && !SetsSlot(cmd)
    ensures Session.Executions(Session.Exec(steps).log, k) <= if Session.FlushedFirst(Session.Exec(steps), k) then 2 else 1
  {
    hide Table, Session.Idempotent, SetsSlot, Session.Exec, Session.Executions;
    Session.ExecutedAtMost(steps, k);
    var cmd := Session.Exec(steps).calls[k].cmd;
    if Session.Idempotent(cmd) { RepeatsOnlySlots(cmd); }
  }

  /** The commands whose lost reply counts as success are those four that take the console or the agent
      down. */
  lemma ForgetsExactly(cmd: string)
    ensures Session.FireAndForget(cmd)
            <==> cmd == "reboot" || cmd == "shutdown" || cmd == "reboot_to_payload" || cmd == "agent.restart"
  {
  }

  /** Each of them changes the console and is never repeated. */
  lemma ForgetsChanges(cmd: string)
    requires Session.FireAndForget(cmd)
    ensures InTable(cmd).Some? && InTable(cmd).value.mutating && !Session.Idempotent(cmd)
  {
    hide InTable, Listed, Session.Idempotent, Session.FireAndForget;
    TableAt(cmd);
    DownIsListed(cmd);
    Session.NotBoth(cmd);
  }

  lemma DownIsListed(cmd: string)
    requires Session.FireAndForget(cmd)
    ensures Listed(cmd).Some? && Listed(cmd).value.mutating
  {
    hide ObserveCommands, ControlReads, ControlWrites, InvasiveCommands;
    DownEnds(cmd);
    NotObserving(cmd);
    NotReading(cmd);
    TakesDown(cmd);
  }

  /** What tells the four from the commands that do not change anything. */
  predicate EndsDown(cmd: string) {
    || (|cmd| == 6 && cmd[5] == 't') || (|cmd| == 8 && cmd[7] == 'n')
    || (|cmd| == 13 && cmd[12] == 't') || (|cmd| == 17 && cmd[16] == 'd')
  }

  lemma DownEnds(cmd: string)
    requires Session.FireAndForget(cmd)
    ensures EndsDown(cmd)
  {
  }

  lemma NotObserving(cmd: string)
    requires EndsDown(cmd)
    ensures cmd !in ObserveCommands()
  {
    NotReport(cmd);
    NotProbe(cmd);
    hide ConsoleReads, StatusReads, FileReads, ProbeReads;
  }

  lemma NotReport(cmd: string)
    requires EndsDown(cmd)
    ensures cmd !in ConsoleReads() && cmd !in StatusReads()
  {
  }

  lemma NotProbe(cmd: string)
    requires EndsDown(cmd)
    ensures cmd !in FileReads() && cmd !in ProbeReads()
  {
  }

  lemma NotReading(cmd: string)
    requires EndsDown(cmd)
    ensures cmd !in ControlReads()
  {
  }

  lemma TakesDown(cmd: string)
    requires Session.FireAndForget(cmd)
    ensures cmd in ControlWrites() || cmd in InvasiveCommands()
  {
    ForgetsExactly(cmd);
    hide Session.FireAndForget;
    if cmd == "reboot" { Stands(ControlWrites(), 2, cmd); }
    if cmd == "shutdown" { Stands(ControlWrites(), 3, cmd); }
    if cmd == "agent.restart" { Stands(ControlWrites(), 4, cmd); }
    if cmd == "reboot_to_payload" { Stands(InvasiveCommands(), 2, cmd); }
  }

  lemma Stands(names: seq<string>, i: nat, cmd: string)
    requires i < |names| && names[i] == cmd
    ensures cmd in names
  {
  }
}
