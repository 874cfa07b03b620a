/** The frame layer of agent/source/server.cpp: `ReadExactEx`, `WriteAll`, `ReadFrame` and
    `WriteFrame`, over a socket that splits and interrupts the stream as it likes. */
module Frames {
  import opened Json
  import opened JsonProofs
  import JsonCodec
  import Memory

  const MAX_JSON := 64 * 1024
  const MAX_BINARY := 1048576

  // ------------------------------------------------------------------ little-endian integers

  /** The octets of an unsigned integer of `width` octets; higher ones are cut off. */
  function Le(n: nat, width: nat): (s: string)
    ensures |s| == width
  {
    if width == 0 then "" else [(n % 256) as char] + Le(n / 256, width - 1)
  }

  function LeValue(s: string): nat {
    if s == "" then 0 else s[0] as int + 256 * LeValue(s[1..])
  }

  lemma {:induction false} LeReads(n: nat, width: nat)
    requires n < Memory.Pow256(width)
    ensures LeValue(Le(n, width)) == n
  {
    if width > 0 {
      LeReads(n / 256, width - 1);
      assert Le(n, width)[1..] == Le(n / 256, width - 1);
    }
  }

  // ------------------------------------------------------------------------------ the socket

  /** What successive `recv` calls find: octets (none: the peer shut down), EINTR, EAGAIN after the
      receive timeout, or another error. After the last event the peer has shut down. */
  datatype Event = Data(bytes: string) | Interrupted | WouldBlock | Broken

  /** What successive `send` calls do: take at most `n` octets, EINTR, or fail. */
  datatype SendStep = Takes(n: nat) | SendInterrupted | SendFails

  datatype RecvResult = Got(bytes: string) | Eintr | Eagain | Error

  datatype IoResult = Ok | Timeout | Closed

  class Socket {
    var inbound: seq<Event>
    var sends: seq<SendStep>
    var sent: string

    constructor (inbound: seq<Event>, sends: seq<SendStep>)
      ensures this.inbound == inbound && this.sends == sends && sent == ""
    {
      this.inbound := inbound;
      this.sends := sends;
      sent := "";
    }

    /** `recv(fd, buf, n, 0)`. */
    method Recv(n: nat) returns (r: RecvResult)
      requires n > 0
      modifies this`inbound
      ensures old(inbound) == [] ==> r == Got("") && inbound == []
      ensures old(inbound) != [] ==>
        match old(inbound)[0]
        case Data(b) =>
          if |b| <= n then r == Got(b) && inbound == old(inbound)[1..]
          else r == Got(b[..n]) && inbound == [Data(b[n..])] + old(inbound)[1..]
        case Interrupted => r == Eintr && inbound == old(inbound)[1..]
        case WouldBlock => r == Eagain && inbound == old(inbound)[1..]
        case Broken => r == Error && inbound == old(inbound)[1..]
    {
      if inbound == [] { return Got(""); }
      var e := inbound[0];
      inbound := inbound[1..];
      match e
      case Data(b) =>
        if |b| <= n { return Got(b); }
        inbound := [Data(b[n..])] + inbound;
        return Got(b[..n]);
      case Interrupted => return Eintr;
      case WouldBlock => return Eagain;
      case Broken => return Error;
    }

    /** `send(fd, data, size, 0)`: the octets taken, or Eintr, or Error. */
    method Send(data: string) returns (r: RecvResult)
      requires data != ""
      modifies this`sends, this`sent
      ensures old(sends) == [] ==> r == Error && sends == [] && sent == old(sent)
      ensures old(sends) != [] ==> sends == old(sends)[1..]
      ensures old(sends) != [] ==>
        match old(sends)[0]
        case Takes(n) =>
          var k := if n < |data| then n else |data|;
          r == Got(data[..k]) && sent == old(sent) + data[..k]
        case SendInterrupted => r == Eintr && sent == old(sent)
        case SendFails => r == Error && sent == old(sent)
    {
      if sends == [] { return Error; }
      var e := sends[0];
      sends := sends[1..];
      match e
      case Takes(n) =>
        var k := if n < |data| then n else |data|;
        sent := sent + data[..k];
        return Got(data[..k]);
      case SendInterrupted => return Eintr;
      case SendFails => return Error;
    }
  }

  /** All octets still to arrive. */
  function Bytes(evs: seq<Event>): string {
    if evs == [] then ""
    else (if evs[0].Data? then evs[0].bytes else "") + Bytes(evs[1..])
  }

  // --------------------------------------------------------------------------------- reading

  datatype Pull = Pull(result: IoResult, data: string, rest: seq<Event>)

  /** `ReadExactEx` when `need` octets are missing and `got` have arrived. */
  function ReadN(evs: seq<Event>, need: nat, got: string): (r: Pull)
    ensures r.result.Ok? ==> |Bytes(r.rest)| + need == |Bytes(evs)|
    ensures |Bytes(r.rest)| <= |Bytes(evs)|
    ensures r.result.Timeout? ==> |r.rest| < |evs|
  {
    if need == 0 then Pull(Ok, got, evs)
    else if evs == [] then Pull(Closed, got, [])
    else
      match evs[0]
      case Data(b) =>
        if b == "" then Pull(Closed, got, evs[1..])
        else if |b| <= need then ReadN(evs[1..], need - |b|, got + b)
        else Pull(Ok, got + b[..need], [Data(b[need..])] + evs[1..])
      case Interrupted => ReadN(evs[1..], need, got)
      case WouldBlock => Pull(if got == "" then Timeout else Closed, got, evs[1..])
      case Broken => Pull(Closed, got, evs[1..])
  }

  method ReadExactEx(fd: Socket, n: nat) returns (result: IoResult, buf: string)
    modifies fd`inbound
    ensures Pull(result, buf, fd.inbound) == ReadN(old(fd.inbound), n, "")
  {
    buf := "";
    while |buf| < n
      invariant |buf| <= n
      invariant ReadN(fd.inbound, n - |buf|, buf) == ReadN(old(fd.inbound), n, "")
      decreases |fd.inbound|, n - |buf|
    {
      var r := fd.Recv(n - |buf|);
      match r
      case Got(b) =>
        if b == "" { return Closed, buf; }
        buf := buf + b;
      case Eintr =>
      case Eagain => return (if buf == "" then Timeout else Closed), buf;
      case Error => return Closed, buf;
    }
    return Ok, buf;
  }

  datatype Frame = Frame(msg: Value, payload: string)

  datatype FrameRead = FrameRead(result: IoResult, frame: Frame, rest: seq<Event>)

  const NO_FRAME := Frame(Null, "")

  /** `ReadFrame`; the frame counts only when the result is Ok. */
  function TakeFrame(evs: seq<Event>, trunc: string -> int64): FrameRead {
    var a := ReadN(evs, 4, "");
    if a.result != Ok then FrameRead(a.result, NO_FRAME, a.rest)
    else if LeValue(a.data) == 0 || LeValue(a.data) > MAX_JSON then FrameRead(Closed, NO_FRAME, a.rest)
    else
      var b := ReadN(a.rest, LeValue(a.data), "");
      if b.result != Ok then FrameRead(Closed, NO_FRAME, b.rest)
      else
        var v := ReadValue(b.data);
        if v.Bad? then FrameRead(Closed, NO_FRAME, b.rest)
        else if !Has(v.value, "bin") then FrameRead(Ok, Frame(v.value, ""), b.rest)
        else TakePayload(b.rest, v.value, AsInt(Lookup(v.value, "bin"), -1, trunc))
  }

  function TakePayload(evs: seq<Event>, msg: Value, blen: int64): FrameRead {
    if blen < 0 || blen > MAX_BINARY then FrameRead(Closed, NO_FRAME, evs)
    else
      var c := ReadN(evs, 8, "");
      if c.result != Ok || LeValue(c.data) != blen then FrameRead(Closed, NO_FRAME, c.rest)
      else
        var d := ReadN(c.rest, blen, "");
        if d.result != Ok then FrameRead(Closed, NO_FRAME, d.rest)
        else FrameRead(Ok, Frame(msg, d.data), d.rest)
  }

  method ReadFrame(fd: Socket, trunc: string -> int64) returns (result: IoResult, frame: Frame)
    modifies fd`inbound
    ensures var r := TakeFrame(old(fd.inbound), trunc);
            result == r.result && fd.inbound == r.rest && (result.Ok? ==> frame == r.frame)
  {
    frame := NO_FRAME;
    var prefix, text, length;
    result, prefix := ReadExactEx(fd, 4);
    if result != Ok { return; }
    var jlen := LeValue(prefix);
    if jlen == 0 || jlen > MAX_JSON { return Closed, frame; }
    result, text := ReadExactEx(fd, jlen);
    if result != Ok { return Closed, frame; }
    var ok, msg := JsonCodec.Parse(text);
    if !ok { return Closed, frame; }
    frame := Frame(msg, "");
    if Has(msg, "bin") {
      var blen := AsInt(Lookup(msg, "bin"), -1, trunc);
      if blen < 0 || blen > MAX_BINARY { return Closed, frame; }
      result, length := ReadExactEx(fd, 8);
      if result != Ok { return Closed, frame; }
      var wireLen := LeValue(length);
      if wireLen != blen || wireLen > MAX_BINARY { return Closed, frame; }
      var payload := "";
      if wireLen != 0 {
        result, payload := ReadExactEx(fd, wireLen);
        if result != Ok { return Closed, frame; }
      }
      frame := Frame(msg, payload);
    }
    return Ok, frame;
  }

  // --------------------------------------------------------------------------------- writing

  /** A proper beginning of `data` went out. */
  ghost predicate CutShort(before: string, data: string, now: string) {
    exists k :: 0 <= k < |data| && now == before + data[..k]
  }

  datatype Push = Push(ok: bool, rest: seq<SendStep>)

  /** Whether `need` octets are taken by successive sends, and the sends left then. */
  function SendN(sends: seq<SendStep>, need: nat): (r: Push)
    ensures |r.rest| <= |sends|
  {
    if need == 0 then Push(true, sends)
    else if sends == [] then Push(false, [])
    else
      match sends[0]
      case Takes(n) =>
        if n == 0 then Push(false, sends[1..]) else SendN(sends[1..], if n < need then need - n else 0)
      case SendInterrupted => SendN(sends[1..], need)
      case SendFails => Push(false, sends[1..])
  }

  /** The same for pieces that are sent one after another. */
  function SendPieces(sends: seq<SendStep>, sizes: seq<nat>): Push
    decreases sizes
  {
    if sizes == [] then Push(true, sends)
    else
      var r := SendN(sends, sizes[0]);
      if r.ok then SendPieces(r.rest, sizes[1..]) else r
  }

  method WriteAll(fd: Socket, data: string) returns (ok: bool)
    modifies fd`sends, fd`sent
    ensures Push(ok, fd.sends) == SendN(old(fd.sends), |data|)
    ensures ok ==> fd.sent == old(fd.sent) + data
    ensures !ok ==> CutShort(old(fd.sent), data, fd.sent)
  {
    var sent := 0;
    assert data[..0] == "";
    while sent < |data|
      invariant 0 <= sent <= |data| && fd.sent == old(fd.sent) + data[..sent]
      invariant SendN(fd.sends, |data| - sent) == SendN(old(fd.sends), |data|)
      decreases |fd.sends|
    {
      if fd.sends == [] { return false; }
      var w := fd.Send(data[sent..]);
      if w.Eintr? { continue; }
      if w.Error? || w.bytes == "" { return false; }
      TakeMore(data, sent, |w.bytes|);
      sent := sent + |w.bytes|;
    }
    assert data[..|data|] == data;
    return true;
  }

  lemma TakeMore(data: string, i: nat, k: nat)
    requires i + k <= |data|
    ensures data[..i] + data[i..][..k] == data[..i + k]
  {
  }

  /** What `WriteFrame` puts on the wire. */
  function WireOf(f: Frame, fmt: Style): string {
    var text := Print(f.msg, fmt);
    Le(|text|, 4) + text + if f.payload == "" then "" else Le(|f.payload|, 8) + f.payload
  }

  /** The same for a message without doubles. */
  function Wire(f: Frame): string
    requires DoubleFree(f.msg)
  {
    WireOf(f, NoDoubles)
  }

  lemma WireIsPrinted(f: Frame, fmt: Style)
    requires DoubleFree(f.msg)
    ensures WireOf(f, fmt) == Wire(f)
  {
    hide Print, DoubleFree, Le;
    PrintIsDump(f.msg, fmt);
  }

  /** The pieces that `WriteFrame` sends: each prefix by itself, and no piece for an empty payload. */
  function PieceSizes(f: Frame, fmt: Style): seq<nat> {
    [4] + ([|Print(f.msg, fmt)|] + if f.payload == "" then [] else [8] + [|f.payload|])
  }

  lemma SendCons(sends: seq<SendStep>, x: nat, xs: seq<nat>)
    ensures var r := SendN(sends, x); SendPieces(sends, [x] + xs) == if r.ok then SendPieces(r.rest, xs) else r
    ensures SendPieces(sends, []) == Push(true, sends) && [x] + [] == [x]
  {
    hide SendN;
    assert ([x] + xs)[1..] == xs;
  }

  lemma PiecesOf(sends: seq<SendStep>, msg: Value, payload: string, fmt: Style)
    ensures var n := |Print(msg, fmt)|;
            var a := SendN(sends, 4); var b := SendN(a.rest, n);
            SendPieces(sends, PieceSizes(Frame(msg, payload), fmt))
            == if !a.ok then a else if !b.ok || payload == "" then b
               else var c := SendN(b.rest, 8); if c.ok then SendN(c.rest, |payload|) else c
  {
    hide Print, SendN, SendPieces;
    var n, m := |Print(msg, fmt)|, |payload|;
    var tail := if payload == "" then [] else [8] + [m];
    var b := SendN(SendN(sends, 4).rest, n);
    var c := SendN(b.rest, 8);
    SendCons(sends, 4, [n] + tail);
    SendCons(SendN(sends, 4).rest, n, tail);
    SendCons(b.rest, 8, [m]);
    SendCons(c.rest, m, []);
    SendCons(SendN(c.rest, m).rest, 0, []);
  }

  method WriteFrame(fd: Socket, msg: Value, payload: string, fmt: Style) returns (ok: bool)
    modifies fd`sends, fd`sent
    ensures Push(ok, fd.sends) == SendPieces(old(fd.sends), PieceSizes(Frame(msg, payload), fmt))
    ensures ok ==> fd.sent == old(fd.sent) + WireOf(Frame(msg, payload), fmt)
    ensures !ok ==> CutShort(old(fd.sent), WireOf(Frame(msg, payload), fmt), fd.sent)
  {
    hide WireOf, Le, Print, CutShort, SendN, SendPieces, PieceSizes;
    PiecesOf(fd.sends, msg, payload, fmt);
    ghost var s0 := fd.sent;
    var text := JsonCodec.Write(msg, "", fmt);
    WireParts(msg, payload, fmt);
    var jlen, blen := Le(|text|, 4), Le(|payload|, 8);
    ghost var tail := if payload == "" then "" else blen + payload;
    ok := WriteAll(fd, jlen);
    if !ok { CutRight(s0, jlen, text + tail, fd.sent); return; }
    ghost var s1 := fd.sent;
    ok := WriteAll(fd, text);
    if !ok { CutRight(s1, text, tail, fd.sent); CutLeft(s0, jlen, text + tail, fd.sent); return; }
    ghost var s2 := fd.sent;
    if payload != "" {
      ok := WriteAll(fd, blen);
      ghost var s3 := fd.sent;
      if !ok {
        CutRight(s2, blen, payload, fd.sent);
      } else {
        ok := WriteAll(fd, payload);
        if !ok { CutLeft(s2, blen, payload, fd.sent); }
      }
      if !ok { CutLeft(s1, text, tail, fd.sent); CutLeft(s0, jlen, text + tail, fd.sent); return; }
      InOrder(s2, blen, payload, "");
    }
    InOrder(s0, jlen, text, tail);
  }

  lemma WireParts(msg: Value, payload: string, fmt: Style)
    ensures "" + Print(msg, fmt) == Print(msg, fmt)
    ensures var text := Print(msg, fmt);
            WireOf(Frame(msg, payload), fmt)
            == Le(|text|, 4) + (text + if payload == "" then "" else Le(|payload|, 8) + payload)
  {
    hide Print, Le;
  }

  lemma CutRight(before: string, x: string, rest: string, now: string)
    requires CutShort(before, x, now)
    ensures CutShort(before, x + rest, now)
  {
    var k :| 0 <= k < |x| && now == before + x[..k];
    assert (x + rest)[..k] == x[..k];
  }

  lemma CutLeft(before: string, x: string, y: string, now: string)
    requires CutShort(before + x, y, now)
    ensures CutShort(before, x + y, now)
  {
    var k :| 0 <= k < |y| && now == before + x + y[..k];
    assert (x + y)[..|x| + k] == x + y[..k];
    assert now == before + (x + y)[..|x| + k];
  }

  lemma InOrder(before: string, x: string, y: string, z: string)
    ensures before + x + y + z == before + (x + (y + z))
    ensures before + x + y + "" == before + x + y == before + (x + y)
  {
  }

  // ---------------------------------------------------------------------------- the theorems

  /** Only octets and interrupts: every `recv` makes progress. */
  predicate Clean(evs: seq<Event>) {
    forall i :: 0 <= i < |evs| ==> evs[i].Interrupted? || (evs[i].Data? && evs[i].bytes != "")
  }

  /** A frame the protocol allows: an object without doubles, within the size limits, whose `bin`
      member is there exactly when a payload is, and then tells its length. */
  ghost predicate Sendable(f: Frame) {
    && f.msg.Obj? && DoubleFree(f.msg) && Valid(f.msg)
    && |Dump(f.msg)| <= MAX_JSON && |f.payload| <= MAX_BINARY
    && (Has(f.msg, "bin") <==> f.payload != "")
    && (f.payload != "" ==> Lookup(f.msg, "bin") == Int(|f.payload|))
  }

  ghost predicate AllSendable(frames: seq<Frame>) {
    forall i :: 0 <= i < |frames| ==> Sendable(frames[i])
  }

  ghost function WireAll(frames: seq<Frame>): string
    requires AllSendable(frames)
  {
    if frames == [] then "" else Wire(frames[0]) + WireAll(frames[1..])
  }

  lemma {:induction false} WireAllSnoc(frames: seq<Frame>)
    requires frames != [] && AllSendable(frames)
    ensures AllSendable(frames[..|frames| - 1])
    ensures WireAll(frames) == WireAll(frames[..|frames| - 1]) + Wire(frames[|frames| - 1])
  {
    hide Sendable, Wire;
    var n := |frames| - 1;
    SendableIsDoubleFree(frames[0]);
    SendableIsDoubleFree(frames[n]);
    if n > 0 {
      WireAllSnoc(frames[1..]);
      assert frames[1..][..n - 1] == frames[..n][1..];
      Grouping(Wire(frames[0]), WireAll(frames[1..][..n - 1]), Wire(frames[n]));
    } else {
      assert WireAll(frames) == Wire(frames[0]) + "";
    }
  }

  lemma SendableIsDoubleFree(f: Frame)
    requires Sendable(f)
    ensures DoubleFree(f.msg)
  {
    hide DoubleFree, Valid, Dump;
  }

  /** Whether the sends take all the pieces of all the frames. */
  function SendFrames(sends: seq<SendStep>, frames: seq<Frame>, fmt: Style): Push
    decreases frames
  {
    if frames == [] then Push(true, sends)
    else
      var r := SendPieces(sends, PieceSizes(frames[0], fmt));
      if r.ok then SendFrames(r.rest, frames[1..], fmt) else r
  }

  /** How many octets the sends take at least, before one of them fails or takes none. */
  function Patience(sends: seq<SendStep>): nat {
    if sends == [] then 0
    else
      match sends[0]
      case Takes(n) => if n == 0 then 0 else 1 + Patience(sends[1..])
      case SendInterrupted => Patience(sends[1..])
      case SendFails => 0
  }

  lemma {:induction false} PatientSend(sends: seq<SendStep>, need: nat)
    requires Patience(sends) >= need
    ensures SendN(sends, need).ok && Patience(SendN(sends, need).rest) >= Patience(sends) - need
    decreases |sends|
  {
    if need > 0 {
      match sends[0]
      case Takes(n) => PatientSend(sends[1..], if n < need then need - n else 0);
      case SendInterrupted => PatientSend(sends[1..], need);
    }
  }

  function Sum(sizes: seq<nat>): nat {
    if sizes == [] then 0 else sizes[0] + Sum(sizes[1..])
  }

  lemma {:induction false} PatientPieces(sends: seq<SendStep>, sizes: seq<nat>)
    requires Patience(sends) >= Sum(sizes)
    ensures SendPieces(sends, sizes).ok && Patience(SendPieces(sends, sizes).rest) >= Patience(sends) - Sum(sizes)
    decreases sizes
  {
    hide SendN, Patience;
    if sizes != [] {
      PatientSend(sends, sizes[0]);
      PatientPieces(SendN(sends, sizes[0]).rest, sizes[1..]);
    }
  }

  lemma SumCons(x: nat, xs: seq<nat>)
    ensures Sum([x] + xs) == x + Sum(xs) && Sum([]) == 0 && [x] + [] == [x]
  {
    assert ([x] + xs)[1..] == xs;
  }

  lemma PieceSum(f: Frame, fmt: Style)
    ensures Sum(PieceSizes(f, fmt)) == |WireOf(f, fmt)|
  {
    hide Print, Le, Sum;
    var n, m := |Print(f.msg, fmt)|, |f.payload|;
    var tail := if f.payload == "" then [] else [8] + [m];
    SumCons(4, [n] + tail);
    SumCons(n, tail);
    SumCons(8, [m]);
    SumCons(m, []);
  }

  /** Writing succeeds over every socket that goes on taking octets, in pieces of any size and with any
      interrupts, until all are sent. */
  lemma {:induction false} PatientFrames(sends: seq<SendStep>, frames: seq<Frame>, fmt: Style)
    requires AllSendable(frames) && Patience(sends) >= |WireAll(frames)|
    ensures SendFrames(sends, frames, fmt).ok
    decreases frames
  {
    hide Sendable, Wire, WireOf, SendPieces, PieceSizes, Patience;
    if frames != [] {
      SendableIsDoubleFree(frames[0]);
      WireIsPrinted(frames[0], fmt);
      PieceSum(frames[0], fmt);
      PatientPieces(sends, PieceSizes(frames[0], fmt));
      PatientFrames(SendPieces(sends, PieceSizes(frames[0], fmt)).rest, frames[1..], fmt);
    }
  }

  /** Frames written back to back. */
  method WriteFrames(fd: Socket, frames: seq<Frame>, fmt: Style) returns (ok: bool)
    requires AllSendable(frames)
    modifies fd`sends, fd`sent
    ensures Push(ok, fd.sends) == SendFrames(old(fd.sends), frames, fmt)
    ensures ok ==> fd.sent == old(fd.sent) + WireAll(frames)
    ensures !ok ==> exists k :: 0 <= k < |frames| && CutAfter(old(fd.sent), frames, k, fmt, fd.sent)
  {
    hide Sendable, Wire, WireOf, WireAll, CutShort, SendPieces, PieceSizes;
    NothingWired(frames, fd.sent);
    assert frames[0..] == frames;
    for k := 0 to |frames|
      invariant SendFrames(fd.sends, frames[k..], fmt) == SendFrames(old(fd.sends), frames, fmt)
      invariant fd.sent == old(fd.sent) + WireAll(frames[..k])
    {
      WireAllSnoc(frames[..k + 1]);
      assert frames[..k + 1][..k] == frames[..k] && frames[k..][1..] == frames[k + 1..];
      SendableIsDoubleFree(frames[k]);
      WireIsPrinted(frames[k], fmt);
      assert Frame(frames[k].msg, frames[k].payload) == frames[k];
      ok := WriteFrame(fd, frames[k].msg, frames[k].payload, fmt);
      if !ok {
        assert CutAfter(old(fd.sent), frames, k, fmt, fd.sent);
        return;
      }
      Grouping(old(fd.sent), WireAll(frames[..k]), Wire(frames[k]));
    }
    assert frames[..|frames|] == frames;
    return true;
  }

  /** The first `k` frames went out whole, and a proper beginning of the next. */
  ghost predicate CutAfter(before: string, frames: seq<Frame>, k: nat, fmt: Style, now: string)
    requires k < |frames| && AllSendable(frames)
  {
    CutShort(before + WireAll(frames[..k]), WireOf(frames[k], fmt), now)
  }

  /** Even so, what is on the wire begins what was to be written. */
  lemma CutAfterBegins(before: string, frames: seq<Frame>, k: nat, fmt: Style, now: string)
    requires k < |frames| && AllSendable(frames) && CutAfter(before, frames, k, fmt, now)
    ensures now <= before + WireAll(frames)
  {
    hide Sendable, Wire, WireOf, WireAll;
    SendableIsDoubleFree(frames[k]);
    WireIsPrinted(frames[k], fmt);
    WireAllBegins(frames, k + 1);
    WireAllSnoc(frames[..k + 1]);
    assert frames[..k + 1][..k] == frames[..k];
    CutBeginsMore(before, WireAll(frames[..k]), Wire(frames[k]), WireAll(frames), now);
  }

  lemma {:induction false} WireAllBegins(frames: seq<Frame>, k: nat)
    requires k <= |frames| && AllSendable(frames)
    ensures AllSendable(frames[..k]) && WireAll(frames[..k]) <= WireAll(frames)
    decreases |frames| - k
  {
    hide Sendable, Wire, WireAll;
    if k < |frames| {
      WireAllBegins(frames, k + 1);
      WireAllSnoc(frames[..k + 1]);
      assert frames[..k + 1][..k] == frames[..k];
    } else {
      assert frames[..k] == frames;
    }
  }

  lemma CutBeginsMore(before: string, x: string, y: string, all: string, now: string)
    requires CutShort(before + x, y, now) && x + y <= all
    ensures now <= before + all
  {
    var k :| 0 <= k < |y| && now == before + x + y[..k];
    assert x + y[..k] == all[..|x| + k] by {
      assert (x + y)[..|x| + k] == x + y[..k];
    }
    assert now == before + all[..|x| + k];
    assert now == (before + all)[..|now|];
  }

  lemma NothingWired(frames: seq<Frame>, before: string)
    ensures frames[..0] == [] && before + WireAll([]) == before
  {
  }

  /** A successful read returns the next octets of the stream; a timeout consumed none. */
  lemma {:induction false} ReadNTakes(evs: seq<Event>, need: nat, got: string)
    ensures var r := ReadN(evs, need, got);
            && (r.result.Ok? ==> r.data + Bytes(r.rest) == got + Bytes(evs) && |r.data| == |got| + need)
            && (r.result.Timeout? ==> got == "" && Bytes(r.rest) == Bytes(evs))
  {
    if need > 0 && evs != [] {
      BytesCons(evs, got);
      ReadNStep(evs, [], need, got);
      ReadNStops(evs, need, got);
      hide ReadN, Bytes;
      match evs[0]
      case Data(b) =>
        if b != "" && |b| <= need {
          ReadNTakes(evs[1..], need - |b|, got + b);
        } else if b != "" {
          BytesSplit(b, need, evs[1..], got);
        }
      case Interrupted => ReadNTakes(evs[1..], need, got);
      case _ =>
    }
  }

  /** What ends a read early. */
  lemma ReadNStops(evs: seq<Event>, need: nat, got: string)
    requires need > 0 && evs != []
    ensures evs[0] == Data("") || evs[0].Broken? ==> ReadN(evs, need, got).result.Closed?
    ensures evs[0].WouldBlock? ==> ReadN(evs, need, got) == Pull(if got == "" then Timeout else Closed, got, evs[1..])
  {
  }

  lemma BytesCons(evs: seq<Event>, got: string)
    requires evs != []
    ensures Bytes(evs) == if evs[0].Data? then evs[0].bytes + Bytes(evs[1..]) else Bytes(evs[1..])
    ensures evs[0].Data? ==> got + evs[0].bytes + Bytes(evs[1..]) == got + Bytes(evs)
  {
  }

  lemma BytesSplit(b: string, need: nat, more: seq<Event>, got: string)
    requires need < |b|
    ensures got + b[..need] + Bytes([Data(b[need..])] + more) == got + (b + Bytes(more))
  {
    assert ([Data(b[need..])] + more)[1..] == more;
    assert got + b[..need] + (b[need..] + Bytes(more)) == got + (b + Bytes(more));
  }

  /** The same when the stream begins what was written, `x` and then `more`. */
  lemma ReadNCut(evs: seq<Event>, x: string, more: string)
    requires Bytes(evs) <= x + more
    ensures var r := ReadN(evs, |x|, "");
            && (r.result.Ok? ==> r.data == x && Bytes(evs) == x + Bytes(r.rest) && Bytes(r.rest) <= more)
            && (r.result.Timeout? ==> Bytes(r.rest) == Bytes(evs))
  {
    hide ReadN, Bytes;
    ReadNTakes(evs, |x|, "");
    var r := ReadN(evs, |x|, "");
    assert "" + Bytes(evs) == Bytes(evs);
    if r.result.Ok? { CutBegins(r.data, Bytes(r.rest), x, more); }
  }

  /** The same when exactly that was written. */
  lemma ReadNExact(evs: seq<Event>, x: string, more: string)
    requires Bytes(evs) == x + more
    ensures var r := ReadN(evs, |x|, "");
            && (r.result.Ok? ==> r.data == x && Bytes(r.rest) == more)
            && (r.result.Timeout? ==> Bytes(r.rest) == x + more)
  {
    hide ReadN, Bytes;
    ReadNCut(evs, x, more);
    var r := ReadN(evs, |x|, "");
    if r.result.Ok? { CutEqual(x, Bytes(r.rest), x, more); }
  }

  lemma CutBegins(a: string, b: string, x: string, y: string)
    requires a + b <= x + y && |a| == |x|
    ensures a == x && b <= y
  {
    assert a == (a + b)[..|a|] == (x + y)[..|x|] == x;
    assert b == (a + b)[|a|..];
    assert y == (x + y)[|x|..];
    forall i | 0 <= i < |b| ensures b[i] == y[i] {
      assert (a + b)[|a| + i] == (x + y)[|a| + i];
    }
  }

  lemma CutEqual(a: string, b: string, x: string, y: string)
    requires a + b == x + y && |a| == |x|
    ensures a == x && b == y
  {
    assert a == (a + b)[..|a|] == (x + y)[..|x|] == x;
    assert b == (a + b)[|a|..] == (x + y)[|x|..] == y;
  }

  /** Over a clean stretch that is long enough every read succeeds, however the octets are split,
      and what comes after the stretch is left alone. */
  lemma {:induction false} ReadNClean(evs: seq<Event>, tail: seq<Event>, need: nat, got: string)
    requires Clean(evs) && need <= |Bytes(evs)|
    ensures var r := ReadN(evs, need, got);
            r.result.Ok? && Clean(r.rest) && ReadN(evs + tail, need, got) == Pull(Ok, r.data, r.rest + tail)
  {
    if need > 0 {
      CleanTail(evs, need);
      ReadNStep(evs, tail, need, got);
      hide ReadN, Bytes, Clean;
      match evs[0]
      case Data(b) => if |b| <= need { ReadNClean(evs[1..], tail, need - |b|, got + b); }
      case Interrupted => ReadNClean(evs[1..], tail, need, got);
    }
  }

  lemma CleanTail(evs: seq<Event>, need: nat)
    requires Clean(evs) && 0 < need <= |Bytes(evs)|
    ensures evs != [] && Clean(evs[1..])
    ensures evs[0].Interrupted? || (evs[0].Data? && evs[0].bytes != "")
    ensures evs[0].Interrupted? ==> |Bytes(evs[1..])| == |Bytes(evs)|
    ensures evs[0].Data? ==> |Bytes(evs[1..])| == |Bytes(evs)| - |evs[0].bytes|
    ensures evs[0].Data? && |evs[0].bytes| > need ==> Clean([Data(evs[0].bytes[need..])] + evs[1..])
  {
  }

  /** What one `recv` does to a read, with or without more events at the end. */
  lemma ReadNStep(evs: seq<Event>, tail: seq<Event>, need: nat, got: string)
    requires need > 0 && evs != []
    ensures evs[0].Interrupted? ==>
      ReadN(evs, need, got) == ReadN(evs[1..], need, got) && ReadN(evs + tail, need, got) == ReadN(evs[1..] + tail, need, got)
    ensures evs[0].Data? && 0 < |evs[0].bytes| <= need ==>
      var b := evs[0].bytes;
      && ReadN(evs, need, got) == ReadN(evs[1..], need - |b|, got + b)
      && ReadN(evs + tail, need, got) == ReadN(evs[1..] + tail, need - |b|, got + b)
    ensures evs[0].Data? && |evs[0].bytes| > need ==>
      var b := evs[0].bytes;
      && ReadN(evs, need, got) == Pull(Ok, got + b[..need], [Data(b[need..])] + evs[1..])
      && ReadN(evs + tail, need, got) == Pull(Ok, got + b[..need], [Data(b[need..])] + evs[1..] + tail)
  {
    assert (evs + tail)[1..] == evs[1..] + tail;
    if evs[0].Data? && |evs[0].bytes| > need {
      var rest := [Data(evs[0].bytes[need..])];
      assert rest + (evs[1..] + tail) == rest + evs[1..] + tail;
    }
    hide Bytes;
  }

  /** A frame that is next on the wire is read exactly, if at all, also when the stream ends early. */
  lemma FrameReads(evs: seq<Event>, f: Frame, more: string, trunc: string -> int64)
    requires Sendable(f) && Bytes(evs) <= Wire(f) + more
    ensures var r := TakeFrame(evs, trunc);
            && (r.result.Ok? ==> r.frame == f && Bytes(evs) == Wire(f) + Bytes(r.rest) && Bytes(r.rest) <= more)
            && (r.result.Timeout? ==> Bytes(r.rest) == Bytes(evs))
  {
    hide ReadN, Bytes, LeValue, Le, Dump, DoubleFree, Valid, ReadValue, Wire;
    var text := Dump(f.msg);
    var tail := if f.payload == "" then "" else Le(|f.payload|, 8) + f.payload;
    WireIs(f, more);
    ReadNCut(evs, Le(|text|, 4), text + (tail + more));
    LengthPrefix(|text|, |f.payload|);
    var a := ReadN(evs, 4, "");
    if a.result.Ok? {
      ReadNCut(a.rest, text, tail + more);
      var b := ReadN(a.rest, |text|, "");
      if b.result.Ok? {
        RoundTrip(f.msg, "");
        assert text + "" == text;
        WireIs(f, Bytes(TakeFrame(evs, trunc).rest));
        if f.payload != "" {
          PayloadReads(b.rest, f, more);
        } else {
          assert tail + more == more;
        }
      }
    }
  }

  /** The parts of a frame, and what follows it. */
  lemma WireIs(f: Frame, more: string)
    requires DoubleFree(f.msg)
    ensures var text := Dump(f.msg);
            var tail := if f.payload == "" then "" else Le(|f.payload|, 8) + f.payload;
            && Wire(f) + more == Le(|text|, 4) + (text + (tail + more))
            && (f.payload == "" ==> tail + more == more)
  {
    hide Print, Le;
  }

  lemma LengthPrefix(n: nat, k: nat)
    requires n <= MAX_JSON && k <= MAX_BINARY
    ensures LeValue(Le(n, 4)) == n && LeValue(Le(k, 8)) == k
  {
    assert Memory.Pow256(4) == 256 * Memory.Pow256(3);
    assert Memory.Pow256(3) == 256 * Memory.Pow256(2) && Memory.Pow256(2) == 65536;
    assert Memory.Pow256(8) == 256 * Memory.Pow256(7) && Memory.Pow256(7) >= Memory.Pow256(6) >= Memory.Pow256(5);
    LeReads(n, 4);
    LeReads(k, 8);
  }

  lemma PayloadReads(evs: seq<Event>, f: Frame, more: string)
    requires Sendable(f) && f.payload != "" && Bytes(evs) <= Le(|f.payload|, 8) + f.payload + more
    ensures var r := TakePayload(evs, f.msg, |f.payload|);
            && !r.result.Timeout?
            && (r.result.Ok? ==>
                  r.frame == f && Bytes(evs) == Le(|f.payload|, 8) + f.payload + Bytes(r.rest) && Bytes(r.rest) <= more)
  {
    hide ReadN, Bytes, LeValue, Le, Dump, DoubleFree, Valid;
    var size := Le(|f.payload|, 8);
    Grouping(size, f.payload, more);
    ReadNCut(evs, size, f.payload + more);
    LengthPrefix(0, |f.payload|);
    var c := ReadN(evs, 8, "");
    if c.result.Ok? {
      ReadNCut(c.rest, f.payload, more);
      Grouping(size, f.payload, Bytes(ReadN(c.rest, |f.payload|, "").rest));
    }
  }

  lemma Grouping(x: string, y: string, z: string)
    ensures x + y + z == x + (y + z)
  {
  }

  /** Over a clean stretch that holds the whole frame it is read. */
  lemma FrameReadsClean(evs: seq<Event>, tail: seq<Event>, f: Frame, more: string, trunc: string -> int64)
    requires Sendable(f) && Clean(evs) && Bytes(evs) == Wire(f) + more
    ensures var r := TakeFrame(evs, trunc);
            && r.result.Ok? && r.frame == f && Bytes(r.rest) == more && Clean(r.rest)
            && TakeFrame(evs + tail, trunc) == FrameRead(Ok, f, r.rest + tail)
  {
    hide ReadN, Bytes, LeValue, Le, Dump, DoubleFree, Valid, ReadValue, Wire;
    FrameReads(evs, f, more, trunc);
    var text := Dump(f.msg);
    var after := if f.payload == "" then "" else Le(|f.payload|, 8) + f.payload;
    WireIs(f, more);
    LengthPrefix(|text|, |f.payload|);
    ReadNClean(evs, tail, 4, "");
    ReadNExact(evs, Le(|text|, 4), text + (after + more));
    var a := ReadN(evs, 4, "");
    ReadNClean(a.rest, tail, |text|, "");
    ReadNExact(a.rest, text, after + more);
    RoundTrip(f.msg, "");
    assert text + "" == text;
    var b := ReadN(a.rest, |text|, "");
    if f.payload != "" {
      assert after + more == Le(|f.payload|, 8) + (f.payload + more);
      ReadNClean(b.rest, tail, 8, "");
      ReadNExact(b.rest, Le(|f.payload|, 8), f.payload + more);
      ReadNClean(ReadN(b.rest, 8, "").rest, tail, |f.payload|, "");
    }
  }

  /** A timeout means that not one octet was consumed, so the next try starts on the same frame
      boundary. */
  lemma TimeoutConsumesNothing(evs: seq<Event>, trunc: string -> int64)
    requires TakeFrame(evs, trunc).result.Timeout?
    ensures Bytes(TakeFrame(evs, trunc).rest) == Bytes(evs)
  {
    ReadNTakes(evs, 4, "");
  }

  lemma FrameConsumes(evs: seq<Event>, trunc: string -> int64)
    ensures var r := TakeFrame(evs, trunc);
            && (r.result.Ok? ==> |Bytes(r.rest)| < |Bytes(evs)|)
            && (r.result.Timeout? ==> |Bytes(r.rest)| <= |Bytes(evs)| && |r.rest| < |evs|)
  {
  }

  /** Every frame a reader gets that asks again after a timeout and gives up on Closed. */
  ghost function Received(evs: seq<Event>, trunc: string -> int64): seq<Frame>
    decreases |Bytes(evs)|, |evs|
  {
    var r := TakeFrame(evs, trunc);
    FrameConsumes(evs, trunc);
    match r.result
    case Ok => [r.frame] + Received(r.rest, trunc)
    case Timeout => Received(r.rest, trunc)
    case Closed => []
  }

  /** Repeated `ReadFrame` calls: a timeout is tried again, Closed ends it. */
  method ReadFrames(fd: Socket, trunc: string -> int64) returns (frames: seq<Frame>)
    modifies fd`inbound
    ensures frames == Received(old(fd.inbound), trunc)
  {
    hide Received, TakeFrame, Bytes;
    frames := [];
    ghost var goal := Received(fd.inbound, trunc);
    while true
      invariant frames + Received(fd.inbound, trunc) == goal
      decreases |Bytes(fd.inbound)|, |fd.inbound|
    {
      FrameConsumes(fd.inbound, trunc);
      ReceivedStep(fd.inbound, trunc);
      ghost var later := Received(TakeFrame(fd.inbound, trunc).rest, trunc);
      var result, frame := ReadFrame(fd, trunc);
      match result
      case Ok =>
        assert frames + ([frame] + later) == frames + [frame] + later;
        frames := frames + [frame];
      case Timeout =>
      case Closed =>
        assert frames + [] == frames;
        return;
    }
  }

  /** Safety over every stream of events: whatever splitting, interrupts, timeouts and errors happen,
      and wherever the stream ends, the frames received are the first of the frames sent. */
  lemma {:induction false} ReceivedIsPrefix(evs: seq<Event>, frames: seq<Frame>, trunc: string -> int64)
    requires AllSendable(frames) && Bytes(evs) <= WireAll(frames)
    ensures Received(evs, trunc) <= frames
    decreases |Bytes(evs)|, |evs|
  {
    var r := TakeFrame(evs, trunc);
    FrameConsumes(evs, trunc);
    ReceivedStep(evs, trunc);
    if frames != [] { FrameReads(evs, frames[0], WireAll(frames[1..]), trunc); }
    hide TakeFrame, Received, Wire, Sendable, Bytes;
    match r.result
    case Ok =>
      ReceivedIsPrefix(r.rest, frames[1..], trunc);
      assert frames == [frames[0]] + frames[1..];
    case Timeout =>
      TimeoutConsumesNothing(evs, trunc);
      ReceivedIsPrefix(r.rest, frames, trunc);
    case Closed =>
  }

  /** A clean stretch of events that carries whole frames. */
  datatype Burst = Burst(evs: seq<Event>, frames: seq<Frame>)

  ghost predicate WholeFrames(b: Burst) {
    Clean(b.evs) && AllSendable(b.frames) && Bytes(b.evs) == WireAll(b.frames)
  }

  /** Bursts with a receive timeout after each. */
  ghost function Joined(bursts: seq<Burst>): seq<Event> {
    if bursts == [] then [] else bursts[0].evs + ([WouldBlock] + Joined(bursts[1..]))
  }

  ghost function FramesOf(bursts: seq<Burst>): seq<Frame> {
    if bursts == [] then [] else bursts[0].frames + FramesOf(bursts[1..])
  }

  /** Completeness: when receive timeouts fall only between frames, every frame sent is received,
      in order, whatever the splitting and however many interrupts and timeouts. */
  lemma {:induction false} AllReceived(bursts: seq<Burst>, trunc: string -> int64)
    requires forall i :: 0 <= i < |bursts| ==> WholeFrames(bursts[i])
    ensures Received(Joined(bursts), trunc) == FramesOf(bursts)
  {
    if bursts != [] {
      BurstReceived(bursts[0].evs, bursts[0].frames, Joined(bursts[1..]), trunc);
      AllReceived(bursts[1..], trunc);
    }
  }

  lemma {:induction false} BurstReceived(evs: seq<Event>, frames: seq<Frame>, more: seq<Event>, trunc: string -> int64)
    requires Clean(evs) && AllSendable(frames) && Bytes(evs) == WireAll(frames)
    ensures Received(evs + ([WouldBlock] + more), trunc) == frames + Received(more, trunc)
    decreases frames
  {
    hide TakeFrame, Received, Sendable, Clean, Bytes, Wire, ReadN;
    if frames == [] {
      IdleReceived(evs, more, trunc);
      assert frames + Received(more, trunc) == Received(more, trunc);
    } else {
      var rest := FirstReceived(evs, frames, more, trunc);
      BurstReceived(rest, frames[1..], more, trunc);
      assert [frames[0]] + (frames[1..] + Received(more, trunc)) == frames + Received(more, trunc);
    }
  }

  lemma IdleReceived(evs: seq<Event>, more: seq<Event>, trunc: string -> int64)
    requires Clean(evs) && Bytes(evs) == ""
    ensures Received(evs + ([WouldBlock] + more), trunc) == Received(more, trunc)
  {
    IdleThenTimeout(evs, more);
    ReceivedStep(evs + ([WouldBlock] + more), trunc);
  }

  lemma FirstReceived(evs: seq<Event>, frames: seq<Frame>, more: seq<Event>, trunc: string -> int64) returns (rest: seq<Event>)
    requires Clean(evs) && AllSendable(frames) && frames != [] && Bytes(evs) == WireAll(frames)
    ensures Clean(rest) && Bytes(rest) == WireAll(frames[1..])
    ensures Received(evs + ([WouldBlock] + more), trunc) == [frames[0]] + Received(rest + ([WouldBlock] + more), trunc)
  {
    hide Received, TakeFrame, Wire, Clean, Bytes, Sendable;
    var tail := [WouldBlock] + more;
    FrameReadsClean(evs, tail, frames[0], WireAll(frames[1..]), trunc);
    rest := TakeFrame(evs, trunc).rest;
    ReceivedStep(evs + tail, trunc);
  }

  lemma ReceivedStep(evs: seq<Event>, trunc: string -> int64)
    ensures var r := TakeFrame(evs, trunc);
            && (r.result.Ok? ==> Received(evs, trunc) == [r.frame] + Received(r.rest, trunc))
            && (r.result.Timeout? ==> Received(evs, trunc) == Received(r.rest, trunc))
            && (r.result.Closed? ==> Received(evs, trunc) == [])
  {
  }

  lemma {:induction false} IdleThenTimeout(evs: seq<Event>, more: seq<Event>)
    requires Clean(evs) && Bytes(evs) == ""
    ensures ReadN(evs + ([WouldBlock] + more), 4, "") == Pull(Timeout, "", more)
  {
    var all := evs + ([WouldBlock] + more);
    if evs == [] {
      assert all[1..] == more;
    } else {
      assert all[1..] == evs[1..] + ([WouldBlock] + more);
      IdleThenTimeout(evs[1..], more);
    }
  }

  // -------------------------------------------------------------------------------- the limits

  /** An announced length of 0 or above 64 KiB, or a "bin" that is negative or above 1 MiB, closes the
      connection, whatever follows. */
  lemma OversizedRefused(evs: seq<Event>, msg: Value, blen: int64, trunc: string -> int64)
    requires ReadN(evs, 4, "").result == Ok
    ensures var n := LeValue(ReadN(evs, 4, "").data);
            n == 0 || n > 65536 ==> TakeFrame(evs, trunc) == FrameRead(Closed, NO_FRAME, ReadN(evs, 4, "").rest)
    ensures blen < 0 || blen > 1048576 ==> TakePayload(evs, msg, blen) == FrameRead(Closed, NO_FRAME, evs)
  {
    hide ReadN, LeValue;
  }

  /** A frame that announces its payload rightly is sent and read back if it keeps to 64 KiB of JSON and
      1 MiB of payload. */
  lemma WithinLimits(f: Frame)
    requires f.msg.Obj? && DoubleFree(f.msg) && Valid(f.msg)
    requires |f.payload| <= 0x7FFF_FFFF_FFFF_FFFF
    requires (Has(f.msg, "bin") <==> f.payload != "") && (f.payload != "" ==> Lookup(f.msg, "bin") == Int(|f.payload|))
    ensures Sendable(f) <==> |Dump(f.msg)| <= 65536 && |f.payload| <= 1048576
  {
    hide Dump, DoubleFree, Valid, Has, Lookup;
  }
}
