/** The agent's command table (agent/source/server.cpp, `Dispatch`): the authority each command needs
    and whether it changes the console. */
module Commands {
  import opened Options

  datatype Tier = Observe | Control | Invasive

  function Rank(t: Tier): nat {
    match t
    case Observe => 0
    case Control => 1
    case Invasive => 2
  }

  datatype Command = Command(tier: Tier, mutating: bool)

  function ObserveCommands(): seq<string> {
    ConsoleReads() + StatusReads() + FileReads() + ProbeReads()
  }

  function ConsoleReads(): seq<string> {
    ["agent.info", "screenshot", "sysinfo", "ps", "crash_reports", "read_log", "titles", "title_icon",
    "running_app", "console_info", "net_info", "fatal_reports", "preflight", "journal", "watchdog"]
  }

  function StatusReads(): seq<string> {
    ["controllers", "read_input", "wait_event", "record_input", "get_clocks", "get_brightness",
    "get_volume", "get_time", "get_sleep", "settings.get"]
  }

  function FileReads(): seq<string> {
    ["fs.list", "fs.read", "fs.stat", "fs.mounts", "fs.hash", "fs.freespace", "fs.find", "fs.grep",
    "save.list", "save.mount", "save.unmount", "nand.read", "album.list", "album.download"]
  }

  function ProbeReads(): seq<string> {
    ["i2c.read", "gpio.read", "cheat.status", "cheat.list", "cheat.meta", "cheat.mappings",
    "cheat.read_mem", "search.begin", "search.next", "search.results", "search.reset", "debug.modules"]
  }

  function ControlReads(): seq<string> {
    ["input", "touch", "type_text", "debug.poll_events", "debug.read_mem", "debug.memmap",
    "debug.threads", "debug.registers", "debug.search", "debug.backtrace"]
  }

  function ControlWrites(): seq<string> {
    ["launch", "terminate", "reboot", "shutdown", "agent.restart", "set_brightness",
    "set_auto_brightness", "set_volume", "set_sleep", "set_time", "set_wireless", "fs.write",
    "fs.delete", "fs.mkdir", "fs.rename", "fs.copy", "save.backup", "debug.attach", "debug.detach",
    "debug.continue", "debug.break", "cheat.toggle", "debug.set_watchpoint", "debug.set_breakpoint",
    "debug.clear_breakpoint"]
  }

  function InvasiveCommands(): seq<string> {
    ["save.restore", "uninstall", "reboot_to_payload", "set_clocks", "debug.write_mem",
    "debug.write_registers", "debug.set_hwbp_raw", "cheat.write_mem", "cheat.freeze",
    "cheat.unfreeze", "i2c.write"]
  }

  function Entries(names: seq<string>, c: Command, others: map<string, Command>): map<string, Command> {
    if names == [] then others else Entries(names[1..], c, others)[names[0] := c]
  }

  /** The command table, keyed by name. */
  function Table(): map<string, Command> {
    Entries(ObserveCommands(), Command(Observe, false),
      Entries(ControlReads(), Command(Control, false),
        Entries(ControlWrites(), Command(Control, true),
          Entries(InvasiveCommands(), Command(Invasive, true), map[]))))
  }

  lemma {:induction false} EntriesAt(names: seq<string>, c: Command, others: map<string, Command>, cmd: string)
    ensures cmd in Entries(names, c, others) <==> cmd in names || cmd in others
    ensures cmd in names ==> Entries(names, c, others)[cmd] == c
    ensures cmd !in names && cmd in others ==> Entries(names, c, others)[cmd] == others[cmd]
  {
    if names != [] { EntriesAt(names[1..], c, others, cmd); }
  }

  function InTable(cmd: string): Option<Command> {
    if cmd in Table() then Some(Table()[cmd]) else None
  }

  /** Which list a command stands in decides what the table says of it. */
  function Listed(cmd: string): Option<Command> {
    if cmd in ObserveCommands() then Some(Command(Observe, false))
    else if cmd in ControlReads() then Some(Command(Control, false))
    else if cmd in ControlWrites() then Some(Command(Control, true))
    else if cmd in InvasiveCommands() then Some(Command(Invasive, true))
    else None
  }

  lemma TableAt(cmd: string)
    ensures InTable(cmd) == Listed(cmd)
  {
    hide Entries, ObserveCommands, ControlReads, ControlWrites, InvasiveCommands;
    var invasive := Entries(InvasiveCommands(), Command(Invasive, true), map[]);
    var writes := Entries(ControlWrites(), Command(Control, true), invasive);
    var inputs := Entries(ControlReads(), Command(Control, false), writes);
    EntriesAt(ObserveCommands(), Command(Observe, false), inputs, cmd);
    EntriesAt(ControlReads(), Command(Control, false), writes, cmd);
    EntriesAt(ControlWrites(), Command(Control, true), invasive, cmd);
    EntriesAt(InvasiveCommands(), Command(Invasive, true), map[], cmd);
  }

  /** Whatever changes the console needs more than the observe tier. */
  ghost predicate Tiered(commands: map<string, Command>) {
    forall cmd :: cmd in commands && commands[cmd].mutating ==> Rank(commands[cmd].tier) >= 1
  }

  lemma TableIsTiered()
    ensures Tiered(Table())
  {
    hide Table, ObserveCommands, ControlReads, ControlWrites, InvasiveCommands;
    forall cmd | cmd in Table() && Table()[cmd].mutating ensures Rank(Table()[cmd].tier) >= 1 {
      TableAt(cmd);
    }
  }

  /** How many commands there are of each kind. */
  lemma TableCounts()
    ensures |ObserveCommands()| == 51 && |ControlReads()| == 10 && |ControlWrites()| == 25 && |InvasiveCommands()| == 11
  {
  }
}
