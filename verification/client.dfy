/** `AgentClient.call`, `read_file` and `write_file` of server/src/switch_mcp/clients/agentd.py over
    a lossy link, with the `fs.read` and `fs.write` handlers of agent/source/handlers/fs.cpp at the
    other end. */
module Client {
  import opened Options
  import Session

  type byte = x: int | 0 <= x < 256

  const CHUNK := 1048576

  // ------------------------------------------------------------------------------ the device

  datatype Request =
    | FsRead(path: string, offset: int, len: int)
    | FsWrite(path: string, offset: int, payload: seq<byte>)
    | Other(name: string)

  function CommandName(req: Request): string {
    match req
    case FsRead(_, _, _) => "fs.read"
    case FsWrite(_, _, _) => "fs.write"
    case Other(name) => name
  }

  datatype Reply =
    | Block(bytes: seq<byte>, eof: bool)
    | Written(n: nat)
    | Failed
    | Done

  type Files = map<string, seq<byte>>

  /** `fseek` and `fwrite`: a gap is filled with zeros, and writing nothing extends nothing. */
  function WriteAt(file: seq<byte>, offset: nat, payload: seq<byte>): seq<byte> {
    if payload == [] then file
    else
      var padded := file + seq(if offset > |file| then offset - |file| else 0, _ => 0);
      padded[..offset] + payload
        + if offset + |payload| < |padded| then padded[offset + |payload|..] else []
  }

  /** Where `fseek` leaves the file: it refuses a negative offset, and the position stays at the start. */
  function Position(offset: int): nat {
    if offset < 0 then 0 else offset
  }

  /** The files after a request: only a write changes them, and at offset 0 it starts afresh. */
  function FilesAfter(files: Files, req: Request): Files {
    match req
    case FsWrite(path, offset, payload) =>
      var was := if offset == 0 || path !in files then [] else files[path];
      files[path := WriteAt(was, Position(offset), payload)]
    case _ => files
  }

  /** `fread` from the position, at most `len` octets; `eof` says that fewer than `len` were left. */
  function ReplyTo(files: Files, req: Request): Reply {
    match req
    case FsRead(path, offset, len) =>
      if path !in files then Failed
      else
        var want := ClampLen(len);
        var file := files[path];
        var left := if Position(offset) < |file| then file[Position(offset)..] else [];
        if |left| < want then Block(left, true) else Block(left[..want], false)
    case FsWrite(_, _, payload) => Written(|payload|)
    case Other(_) => Done
  }

  function ClampLen(len: int): nat {
    if len < 0 || len > CHUNK then CHUNK else len
  }

  /** What stands at `i` after `payload` was written at `offset` over the file `was`. */
  function OctetAt(was: seq<byte>, offset: nat, payload: seq<byte>, i: nat): byte {
    if offset <= i < offset + |payload| then payload[i - offset] else if i < |was| then was[i] else 0
  }

  /** `now` is `was` with `payload` written at `offset`, octet by octet. */
  ghost predicate Overwritten(was: seq<byte>, offset: nat, payload: seq<byte>, now: seq<byte>) {
    && |now| == (if payload == [] || offset + |payload| < |was| then |was| else offset + |payload|)
    && forall i :: 0 <= i < |now| ==> now[i] == OctetAt(was, offset, payload, i)
  }

  /** `bytes` are the octets of `file` from `offset` on, as many as there are but at most `want`. */
  ghost predicate BlockOf(file: seq<byte>, offset: nat, want: nat, bytes: seq<byte>) {
    && |bytes| == (if offset + want <= |file| then want else if offset <= |file| then |file| - offset else 0)
    && forall i :: 0 <= i < |bytes| ==> bytes[i] == file[offset + i]
  }

  /** `WriteAt` is the one file that meets the octet-by-octet description. */
  lemma WriteAtIs(was: seq<byte>, offset: nat, payload: seq<byte>, now: seq<byte>)
    ensures Overwritten(was, offset, payload, now) <==> now == WriteAt(was, offset, payload)
  {
    var spec := WriteAt(was, offset, payload);
    assert Overwritten(was, offset, payload, spec);
    if Overwritten(was, offset, payload, now) {
      forall i | 0 <= i < |now| ensures now[i] == spec[i] {
        assert now[i] == OctetAt(was, offset, payload, i) == spec[i];
      }
    }
  }

  class Device {
    var files: Files
    var log: seq<Request>  // every request executed

    constructor (files: Files)
      ensures this.files == files && log == []
    {
      this.files := files;
      log := [];
    }

    /** `FsRead`: a missing file is an error; otherwise the block at its position, and whether it is short. */
    method FsRead(path: string, offset: int, len: int) returns (reply: Reply)
      ensures path !in files ==> reply == Failed
      ensures path in files ==>
        var at := if offset < 0 then 0 else offset;
        var want := if 0 <= len <= 1048576 then len else 1048576;
        && reply.Block? && BlockOf(files[path], at, want, reply.bytes)
        && (reply.eof <==> |reply.bytes| < want)
    {
      if path !in files { return Failed; }
      var file, want, at := files[path], ClampLen(len), Position(offset);
      var out: seq<byte> := [];
      while |out| < want && at + |out| < |file|
        invariant |out| <= want && (|out| > 0 ==> at + |out| <= |file|)
        invariant forall i :: 0 <= i < |out| ==> out[i] == file[at + i]
      {
        out := out + [file[at + |out|]];
      }
      return Block(out, |out| < want);
    }

    /** `FsWrite`: at offset 0 the file is made or emptied first, elsewhere it is made if it is missing;
        then `payload` lies at the position, a gap before it holds zeros, and all other files are as
        before. */
    method FsWrite(path: string, offset: int, payload: seq<byte>) returns (reply: Reply)
      modifies this`files
      ensures reply == Written(|payload|)
      ensures files.Keys == old(files).Keys + {path}
      ensures forall q :: q in old(files) && q != path ==> files[q] == old(files)[q]
      ensures var was := if offset == 0 || path !in old(files) then [] else old(files)[path];
              Overwritten(was, if offset < 0 then 0 else offset, payload, files[path])
    {
      ghost var was: seq<byte> := if offset == 0 || path !in files then [] else files[path];
      var at := Position(offset);
      var f: seq<byte> := [];
      if offset != 0 && path in files { f := files[path]; }
      if payload != [] {
        while |f| < at
          invariant |f| == |was| || |was| < |f| <= at
          invariant forall i :: 0 <= i < |f| ==> f[i] == if i < |was| then was[i] else 0
        {
          f := f + [0];
        }
        var k := 0;
        while k < |payload|
          invariant 0 <= k <= |payload| && at <= |f|
          invariant |f| == if at + k > |was| then at + k else if |was| > at then |was| else at
          invariant forall i :: 0 <= i < |f| ==> f[i] == OctetAt(was, at, payload[..k], i)
        {
          if at + k < |f| { f := f[at + k := payload[k]]; } else { f := f + [payload[k]]; }
          k := k + 1;
        }
        assert payload[..|payload|] == payload;
      }
      files := files[path := f];
      return Written(|payload|);
    }

    method Execute(req: Request) returns (reply: Reply)
      modifies this
      ensures log == old(log) + [req]
      ensures files == FilesAfter(old(files), req) && reply == ReplyTo(old(files), req)
    {
      match req {
        case FsRead(path, offset, len) =>
          reply := FsRead(path, offset, len);
          if reply.Block? { BlockIs(files[path], Position(offset), ClampLen(len), reply.bytes); }
        case FsWrite(path, offset, payload) =>
          reply := FsWrite(path, offset, payload);
          var was := if offset == 0 || path !in old(files) then [] else old(files)[path];
          WriteAtIs(was, Position(offset), payload, files[path]);
          hide WriteAt;
          assert files == FilesAfter(old(files), req);
        case Other(_) =>
          reply := Done;
      }
      log := log + [req];
    }
  }

  lemma BlockIs(file: seq<byte>, offset: nat, want: nat, bytes: seq<byte>)
    requires BlockOf(file, offset, want, bytes)
    ensures var left := if offset < |file| then file[offset..] else [];
            if |left| < want then bytes == left else bytes == left[..want]
  {
  }

  // ------------------------------------------------------------------------------ the client

  /** What the link does to one attempt. */
  datatype Exchange =
    | ConnectFails                // a transport exception while connecting or shaking hands
    | HandshakeRefused            // a ClientError from the handshake
    | Oversized                   // the request JSON is over 64 KiB
    | NotSent                     // a transport exception before `drain` returned, and nothing went out
    | Flushed(executed: bool)     // the same, but closing the writer let the request out
    | SentAndLost(executed: bool) // a transport exception after it; the agent may have acted
    | Refused                     // an error reply; the handler did nothing
    | Answered

  datatype CallResult =
    | Returned(reply: Reply)
    | AssumedDone
    | AgentError
    | Raised(outcome: Session.Outcome)

  class AgentClient {
    const device: Device
    var script: seq<Exchange>  // what the link does to the attempts to come
    var connected: bool
    var calls: nat             // calls made so far

    constructor (device: Device, script: seq<Exchange>)
      ensures this.device == device && this.script == script && !connected && calls == 0
    {
      this.device := device;
      this.script := script;
      connected := false;
      calls := 0;
    }

    /** One attempt of `call`: `sent` is what `sent_flag` holds at the end, `ran` whether the agent
        executed the request. All of it is decided by what the link does next. */
    method Attempt(req: Request) returns (result: Option<CallResult>, sent: bool, ghost ran: bool)
      modifies this`script, this`connected, device
      ensures script == Later(old(script), 1)
      ensures var x := Coming(old(script), 0);
              && (sent <==> x.SentAndLost? || x.Refused? || x.Answered?)
              && (ran <==> Executes(x))
              && (result.None? <==> Transient(x))
              && (result.Some? ==> result.value == Settled(x, ReplyTo(old(device.files), req)))
              && (connected <==> !Transient(x) && (x.HandshakeRefused? ==> old(connected)))
      ensures device.log == old(device.log) + if ran then [req] else []
      ensures device.files == if ran then FilesAfter(old(device.files), req) else old(device.files)
    {
      ran := false;
      var x := if script == [] then ConnectFails else script[0];
      if script != [] { script := script[1..]; }
      match x
      case ConnectFails => connected := false; return None, false, ran;
      case HandshakeRefused => return Some(Raised(Session.HandshakeError)), false, ran;
      case Oversized => connected := true; return Some(Raised(Session.TooBig)), false, ran;
      case NotSent => connected := false; return None, false, ran;
      case Flushed(executed) =>
        connected := false;
        if executed { var _ := device.Execute(req); }
        return None, false, executed;
      case SentAndLost(executed) =>
        connected := false;
        if executed { var _ := device.Execute(req); }
        return None, true, executed;
      case Refused => connected := true; return Some(AgentError), true, ran;
      case Answered =>
        connected := true;
        var reply := device.Execute(req);
        return Some(if reply.Failed? then AgentError else Returned(reply)), true, true;
    }

    /** `call`: at most two attempts, the second only when the command is idempotent or the client does not
        know of a request that went out. How it ends is decided by what the link does. */
    method Call(req: Request) returns (result: CallResult, ghost times: nat)
      modifies this`script, this`connected, this`calls, device
      ensures calls == old(calls) + 1
      ensures device.log == old(device.log) + Repeat(req, times)
      ensures device.files == FilesRepeated(old(device.files), req, times)
      ensures var x := Coming(old(script), 0); var y := Coming(old(script), 1); var cmd := CommandName(req);
              var again := SecondTry(x, cmd);
              && script == Later(old(script), if again then 2 else 1)
              && times == (if Executes(x) then 1 else 0) + (if again && Executes(y) then 1 else 0)
      ensures EndsAs(old(script), old(device.files), req, result)
      ensures times <= if Session.Idempotent(CommandName(req)) || FlushRuns(old(script), 0) then 2 else 1
      ensures result.Returned? ==>
        times > 0 && !result.reply.Failed?
        && result.reply == ReplyTo(FilesRepeated(old(device.files), req, times - 1), req)
      ensures result == Raised(Session.Unreachable) && !Session.Idempotent(CommandName(req)) && times > 0 ==>
        FlushRuns(old(script), 0) || FlushRuns(old(script), 1)
    {
      hide Session.Idempotent, Session.FireAndForget, ReplyTo, FilesAfter, CommandName, Repeat;
      calls := calls + 1;
      times := 0;
      result := AssumedDone;
      var cmd := CommandName(req);
      var attempt := 0;
      Twice(old(device.files), old(device.log), req);
      LaterTwice(script);
      while attempt < 2
        invariant 0 <= attempt <= 1 && times <= attempt
        invariant calls == old(calls) + 1
        invariant device.log == old(device.log) + Repeat(req, times)
        invariant device.files == FilesRepeated(old(device.files), req, times)
        invariant script == Later(old(script), attempt)
        invariant attempt == 1 ==>
          SecondTry(Coming(old(script), 0), cmd) && times == if Executes(Coming(old(script), 0)) then 1 else 0
        decreases 2 - attempt
      {
        var outcome, sent, ran := Attempt(req);
        if ran { times := times + 1; }
        if outcome.Some? { return outcome.value, times; }
        match Session.OnTransient(attempt, sent, cmd)
        case Retry => attempt := attempt + 1;
        case Finish(o) => return (if o == Session.AssumedDone then AssumedDone else Raised(o)), times;
      }
    }

    /** `write_file`: it returns normally exactly when the link carries a call for each chunk; then the
        device holds exactly `data`, and nothing else changed. When it raises, nothing changed at all or
        the one file holds whole chunks from the start of `data`. */
    method WriteFile(path: string, data: seq<byte>) returns (ok: bool)
      modifies this`script, this`connected, this`calls, device
      ensures ok ==> device.files == old(device.files)[path := data]
      ensures !ok ==> device.files == old(device.files)
                      || exists n: nat :: ChunksOf(data, n) && device.files == old(device.files)[path := data[..n]]
      ensures ok <==> Carries(old(script), if data == [] then 1 else Chunks(|data|), false)
      ensures ok ==> calls == old(calls) + if data == [] then 1 else Chunks(|data|)
    {
      hide Session.Idempotent, Session.FireAndForget, FilesAfter, FilesRepeated, ReplyTo, Repeat, EndsAs, SecondTry, Carries,
        OneCarried, Chunks, Executes, Transient;
      TransferCommands();
      var offset := 0;
      ghost var total := if data == [] then 1 else Chunks(|data|);
      ghost var left: nat := total;
      while offset < |data| || offset == 0
        invariant 0 <= offset <= |data| && (offset == |data| || offset % CHUNK == 0)
        invariant left == if data == [] then 1 else Chunks(|data| - offset)
        invariant calls + left == old(calls) + total
        invariant Carries(script, left, false) <==> Carries(old(script), total, false)
        invariant device.files == if offset == 0 then old(device.files) else old(device.files)[path := data[..offset]]
        decreases |data| - offset
      {
        var chunk := data[offset..if offset + CHUNK < |data| then offset + CHUNK else |data|];
        ghost var before, ahead := device.files, script;
        var req := FsWrite(path, offset, chunk);
        var result, times := Call(req);
        ChunkSent(old(device.files), before, path, data, offset, chunk, times);
        ChunkCount(|data| - offset);
        CarriesOne(ahead, left, false);
        WriteReturns(ahead, before, req, result);
        left := left - 1;
        assert ChunksOf(data, offset) && ChunksOf(data, offset + |chunk|);
        if !result.Returned? { return false; }
        offset := offset + |chunk|;
        if chunk == [] { break; }
      }
      CarriesNone(script, false);
      assert data[..|data|] == data;
      return true;
    }

    /** `read_file`: it returns normally exactly when the file is there and the link carries a call for each
        full chunk and one more; then it returns the file. The device's files stay as they are in any case. */
    method ReadFile(path: string) returns (ok: bool, data: seq<byte>)
      modifies this`script, this`connected, this`calls, device
      ensures device.files == old(device.files)
      ensures ok ==> path in device.files && data == device.files[path]
                     && calls == old(calls) + |data| / 1048576 + 1
      ensures ok <==> path in device.files && Carries(old(script), |device.files[path]| / 1048576 + 1, true)
    {
      hide Session.Idempotent, Session.FireAndForget, ReplyTo, FilesAfter, FilesRepeated, Repeat, EndsAs, SecondTry, Carries,
        OneCarried;
      TransferCommands();
      data := [];
      var offset := 0;
      ghost var file := if path in device.files then device.files[path] else [];
      ghost var left: nat := |file| / CHUNK + 1;
      while true
        invariant left == (|file| - offset) / CHUNK + 1
        invariant offset > 0 ==> path in device.files
        invariant Carries(script, left, true) <==> Carries(old(script), |file| / CHUNK + 1, true)
        invariant device.files == old(device.files)
        invariant 0 <= offset <= |file| && data == file[..offset]
        invariant calls + left == old(calls) + |file| / CHUNK + 1
        decreases |file| - offset
      {
        var req := FsRead(path, offset, CHUNK);
        ghost var ahead := script;
        var result, times := Call(req);
        CarriesOne(ahead, left, true);
        ReadReturns(ahead, old(device.files), path, offset, result);
        ReadReplies(old(device.files), path, offset);
        ReadsChangeNothing(old(device.files), req, times);
        left := left - 1;
        if !result.Returned? { return false, []; }
        ReadsChangeNothing(old(device.files), req, times - 1);
        var blob := result.reply.bytes;
        Extend(file, offset, blob);
        data := data + blob;
        offset := offset + |blob|;
        if result.reply.eof {
          CarriesNone(script, true);
          return true, data;
        }
      }
    }
  }

  /** On attempt `i` a request goes out that the client does not know of, and is executed. */
  predicate FlushRuns(script: seq<Exchange>, i: nat) {
    i < |script| && script[i] == Flushed(true)
  }

  // ---------------------------------------------------------------- what the link decides

  /** What the link does to attempt `i`; behind the script nothing can be reached. */
  function Coming(script: seq<Exchange>, i: nat): Exchange {
    if i < |script| then script[i] else ConnectFails
  }

  function Later(script: seq<Exchange>, n: nat): seq<Exchange> {
    if n <= |script| then script[n..] else []
  }

  /** A transport exception, after which `call` may try again. */
  predicate Transient(x: Exchange) {
    x.ConnectFails? || x.NotSent? || x.Flushed? || x.SentAndLost?
  }

  predicate Executes(x: Exchange) {
    x.Answered? || x == Flushed(true) || x == SentAndLost(true)
  }

  /** After `x` the command is sent again. */
  predicate SecondTry(x: Exchange, cmd: string) {
    Transient(x) && (x.SentAndLost? ==> Session.Idempotent(cmd) && !Session.FireAndForget(cmd))
  }

  /** How an attempt ends that needs no other. */
  function Settled(x: Exchange, reply: Reply): CallResult {
    match x
    case HandshakeRefused => Raised(Session.HandshakeError)
    case Oversized => Raised(Session.TooBig)
    case Answered => if reply.Failed? then AgentError else Returned(reply)
    case _ => AgentError
  }

  /** How a call ends, given what the link does: an attempt that is not lost decides; of a lost one the client
      says that it worked, if that is what a lost reply means, or what it knows of the request. */
  ghost predicate EndsAs(script: seq<Exchange>, files: Files, req: Request, result: CallResult) {
    var x := Coming(script, 0);
    var y := Coming(script, 1);
    var cmd := CommandName(req);
    var again := SecondTry(x, cmd);
    && (!Transient(x) ==> result == Settled(x, ReplyTo(files, req)))
    && (Transient(x) && !again ==> result == if Session.FireAndForget(cmd) then AssumedDone else Raised(Session.Uncertain))
    && (again && !Transient(y) ==>
          result == Settled(y, ReplyTo(if Executes(x) then FilesAfter(files, req) else files, req)))
    && (again && Transient(y) ==>
          result == if !y.SentAndLost? then Raised(Session.Unreachable)
                    else if Session.FireAndForget(cmd) then AssumedDone else Raised(Session.Reraised))
  }

  /** A read that starts inside the file returns exactly when the file is there and the link carries it. */
  lemma ReadReturns(script: seq<Exchange>, files: Files, path: string, offset: nat, result: CallResult)
    requires path in files ==> offset <= |files[path]|
    requires EndsAs(script, files, FsRead(path, offset, CHUNK), result)
    ensures result.Returned? <==> path in files && OneCarried(script, true)
    ensures OneCarried(script, true) ==> (SecondTry(Coming(script, 0), "fs.read") <==> !Coming(script, 0).Answered?)
  {
    hide Session.Idempotent, Session.FireAndForget;
    TransferCommands();
    ReadReplies(files, path, offset);
    hide ReplyTo;
  }

  /** A write returns exactly when the link carries it. */
  lemma WriteReturns(script: seq<Exchange>, files: Files, req: Request, result: CallResult)
    requires req.FsWrite? && EndsAs(script, files, req, result)
    ensures result.Returned? <==> OneCarried(script, false)
    ensures OneCarried(script, false) ==> (SecondTry(Coming(script, 0), "fs.write") <==> !Coming(script, 0).Answered?)
  {
    hide Session.Idempotent, Session.FireAndForget;
    TransferCommands();
    WriteReplies(files, req);
    WriteReplies(FilesAfter(files, req), req);
    hide ReplyTo, FilesAfter;
  }

  /** The link carries `n` calls to an answer, each on its first attempt or, where that may be tried again,
      on its second. */
  predicate Carries(script: seq<Exchange>, n: nat, repeatable: bool)
    decreases n
  {
    n == 0
    || (Coming(script, 0).Answered? && Carries(Later(script, 1), n - 1, repeatable))
    || (Transient(Coming(script, 0)) && (Coming(script, 0).SentAndLost? ==> repeatable)
        && Coming(script, 1).Answered? && Carries(Later(script, 2), n - 1, repeatable))
  }

  /** The next call is answered. */
  predicate OneCarried(script: seq<Exchange>, repeatable: bool) {
    || Coming(script, 0).Answered?
    || (Transient(Coming(script, 0)) && (Coming(script, 0).SentAndLost? ==> repeatable) && Coming(script, 1).Answered?)
  }

  lemma CarriesOne(script: seq<Exchange>, n: nat, repeatable: bool)
    requires n > 0
    ensures !OneCarried(script, repeatable) ==> !Carries(script, n, repeatable)
    ensures OneCarried(script, repeatable) ==>
      (Carries(script, n, repeatable)
       <==> Carries(Later(script, if Coming(script, 0).Answered? then 1 else 2), n - 1, repeatable))
  {
  }

  lemma CarriesNone(script: seq<Exchange>, repeatable: bool)
    ensures Carries(script, 0, repeatable)
  {
  }

  lemma Extend(file: seq<byte>, offset: nat, blob: seq<byte>)
    requires offset + |blob| <= |file| && blob == file[offset..offset + |blob|]
    ensures file[..offset] + blob == file[..offset + |blob|]
    ensures |blob| == CHUNK ==> (|file| - offset) / CHUNK == 1 + (|file| - offset - CHUNK) / CHUNK
  {
  }

  lemma LaterTwice(script: seq<Exchange>)
    ensures Later(script, 0) == script && Later(Later(script, 1), 1) == Later(script, 2)
    ensures Coming(Later(script, 1), 0) == Coming(script, 1)
  {
  }

  /** The first `n` octets are whole chunks of `data`, or all of it. */
  predicate ChunksOf(data: seq<byte>, n: nat) {
    n <= |data| && (n % CHUNK == 0 || n == |data|)
  }

  lemma WriteReplies(files: Files, req: Request)
    requires req.FsWrite?
    ensures ReplyTo(files, req) == Written(|req.payload|)
  {
  }

  /** What a full-chunk read at an offset inside the file answers. */
  lemma ReadReplies(files: Files, path: string, offset: nat)
    requires path in files ==> offset <= |files[path]|
    ensures var reply := ReplyTo(files, FsRead(path, offset, CHUNK));
            if path !in files then reply == Failed
            else
              var n := if |files[path]| - offset < CHUNK then |files[path]| - offset else CHUNK;
              reply == Block(files[path][offset..offset + n], |files[path]| - offset < CHUNK)
  {
  }

  /** How the transfer commands are classified. */
  lemma TransferCommands()
    ensures !Session.Idempotent("fs.write") && !Session.FireAndForget("fs.write")
    ensures Session.Idempotent("fs.read") && !Session.FireAndForget("fs.read")
  {
  }

  /** How many chunks of 1 MiB it takes to hold `n` octets. */
  function Chunks(n: nat): (r: nat)
    ensures r * 1048576 >= n && (r > 0 ==> (r - 1) * 1048576 < n)
  {
    (n + CHUNK - 1) / CHUNK
  }

  lemma ChunkCount(n: nat)
    ensures Chunks(0) == 0 && (n > 0 ==> Chunks(n) == 1 + Chunks(if n > CHUNK then n - CHUNK else 0))
  {
  }

  /** One call for a chunk, whether it was applied once, twice or not at all. */
  lemma ChunkSent(start: Files, before: Files, path: string, data: seq<byte>, offset: nat, chunk: seq<byte>, times: nat)
    requires offset + |chunk| <= |data| && chunk == data[offset..offset + |chunk|] && times <= 2
    requires before == if offset == 0 then start else start[path := data[..offset]]
    ensures var after := FilesRepeated(before, FsWrite(path, offset, chunk), times);
            after == if times == 0 then before else start[path := data[..offset + |chunk|]]
  {
    hide FilesAfter, FilesRepeated;
    Twice(before, [], FsWrite(path, offset, chunk));
    ChunkWritten(start, before, path, data, offset, chunk);
    WrittenAgain(before, path, offset, chunk);
  }

  /** What executing one chunk of `write_file` does to the files. */
  lemma ChunkWritten(start: Files, before: Files, path: string, data: seq<byte>, offset: nat, chunk: seq<byte>)
    requires offset + |chunk| <= |data| && chunk == data[offset..offset + |chunk|]
    requires before == if offset == 0 then start else start[path := data[..offset]]
    ensures FilesAfter(before, FsWrite(path, offset, chunk)) == start[path := data[..offset + |chunk|]]
  {
    hide WriteAt;
    Append(data[..offset], chunk);
    assert data[..offset] + chunk == data[..offset + |chunk|];
  }

  /** Writing one chunk twice is writing it once. */
  lemma WrittenAgain(files: Files, path: string, offset: int, payload: seq<byte>)
    ensures var req := FsWrite(path, offset, payload); FilesAfter(FilesAfter(files, req), req) == FilesAfter(files, req)
  {
    var was := if offset == 0 || path !in files then [] else files[path];
    OverwrittenAgain(was, Position(offset), payload);
    hide WriteAt;
    var req := FsWrite(path, offset, payload);
    assert FilesAfter(files, req)[path] == WriteAt(was, Position(offset), payload);
  }

  lemma OverwrittenAgain(was: seq<byte>, offset: nat, payload: seq<byte>)
    ensures var now := WriteAt(was, offset, payload); WriteAt(now, offset, payload) == now
  {
    hide WriteAt;
    var now := WriteAt(was, offset, payload);
    WriteAtIs(was, offset, payload, now);
    forall i | 0 <= i < |now| ensures now[i] == OctetAt(now, offset, payload, i) {
      assert now[i] == OctetAt(was, offset, payload, i);
    }
    WriteAtIs(now, offset, payload, now);
  }

  lemma Append(file: seq<byte>, payload: seq<byte>)
    ensures WriteAt(file, |file|, payload) == file + payload
  {
  }

  lemma {:induction false} ReadsChangeNothing(files: Files, req: Request, times: nat)
    requires req.FsRead?
    ensures FilesRepeated(files, req, times) == files
  {
    if times > 0 { ReadsChangeNothing(files, req, times - 1); }
  }

  function Repeat(req: Request, times: nat): seq<Request> {
    seq(times, _ => req)
  }

  function FilesRepeated(files: Files, req: Request, times: nat): Files {
    if times == 0 then files else FilesAfter(FilesRepeated(files, req, times - 1), req)
  }

  lemma Twice(files: Files, log: seq<Request>, req: Request)
    ensures FilesRepeated(files, req, 0) == files
    ensures FilesRepeated(files, req, 1) == FilesAfter(files, req)
    ensures FilesRepeated(files, req, 2) == FilesAfter(FilesAfter(files, req), req)
    ensures Repeat(req, 0) == [] && log + [] == log
    ensures log + Repeat(req, 1) == log + [req] && log + Repeat(req, 2) == log + [req] + [req]
    ensures log + Repeat(req, 1) + [req] == log + Repeat(req, 2)
  {
    assert FilesRepeated(files, req, 2) == FilesAfter(FilesRepeated(files, req, 1), req);
  }
}
