# switchMCP: a verified model of the control protocol

switchMCP lets a Python client drive a console through `switch-agentd`, a C++ sysmodule. The two
speak length-prefixed JSON frames over TCP; the agent answers one request at a time, decides by tier
whether a command may run, and runs stateful handlers (file access, memory search, debugging).

This project models that path from octets to handlers in Dafny and proves what it promises:

| file | what it models |
|---|---|
| `json.dfy`, `json_codec.dfy`, `json_proofs.dfy`, `json_grammar.dfy` | the agent's JSON values, its printer and its cursor-driven parser; printing and reading undo each other, a read depends only on what it consumed, and characters mean what RFC 8259 and RFC 3629 say |
| `frames.dfy` | `ReadExactEx`, `ReadFrame`, `WriteAll`, `WriteFrame` over a socket that splits, interrupts, times out and breaks |
| `session.dfy`, `session_runs.dfy` | the retrying client, the network and the one-at-a-time agent as interleaved steps; what calls come to over whole runs |
| `client.dfy` | `call`, `write_file` and `read_file` over a lossy link, with the device's files at the other end |
| `commands.dfy` | the command table, and what it says of each command |
| `retries.dfy` | the client's idempotent set against the command table |
| `dispatch.dfy`, `dispatch_proofs.dfy` | the handshake, tiers, sub-gates, dry runs, journal and replies of one connection |
| `memory.dfy`, `memsearch.dfy`, `memsearch_proofs.dfy`, `search_runs.dfy` | the chunked first scan and the narrowing steps of the memory search, and runs of its handlers in any order |
| `debug.dfy`, `debug_proofs.dfy` | the debugger's memory-map walk and value search, how the two searches relate, and what the value search overlooks |
| `path.dfy`, `grep.dfy`, `find.dfy`, `find_proofs.dfy` | path normalisation, the one-pass grep, the capped directory walk |
| `guards.dfy` | the confirmation tokens of the server's destructive tools |
| `power.dfy` | the sleep/wake acknowledgement thread beside the accept loop |

Code that changes state step by step is modelled by methods with loops and by classes, each proved
against a specification function; the theorems are about those functions. The two concurrent parts
(client against agent, acknowledgement thread against accept loop) are state machines over every
interleaving of their steps.

`dafny verify dfyconfig.toml` checks everything. Module `Options` (`options.dfy`) holds the optional
value used throughout.

## Assumptions

- One `char` stands for one octet in JSON texts and on the wire.
- Calls are not cancelled; replies are well-formed JSON objects.
- The target's memory does not change while one command runs. It may be a different memory for every
  command. Regions end at 2^64 at the latest, and `size + 65536` stays below 2^64.
- The kernel's memory query answers with the region that contains the asked address, and alike for
  every address of that region.
- `fwrite` writes everything; the client never looks at `written`.
- HMAC-SHA256, nonces, clock readings and fresh tokens are parameters.
- The two flags of the power module are read and written atomically.

## Where code and documentation differ

The model follows the code. The first eight have a lemma at a failing input and one that says exactly
when the promise is kept; the last two are about what the code leaves unchecked.

- `fs_find` promises that the reply says explicitly whether it was truncated
  (server/src/switch_mcp/tools/fs.py:176-178), that is, that a flag is set if and only if something is
  missing. Neither half holds: the depth cap sets no flag (`Find.DepthCapIsSilent`), and a flag is set
  when the limit is just reached (`Find.FlaggedWithNothingMissing`). When it holds: `Find.FlagsExactly`
  for every query, `Find.ListingExactly` for a listing in terms of its size.
- `call` promises that a command which may not be repeated is not sent again once it may have reached
  the agent (server/src/switch_mcp/clients/agentd.py:245-248), and takes `drain` for the point where it
  has (199-201, 217-219). Where `drain` times out, closing the writer lets the request out all the same
  (280-288), and it is sent again: `Session.ExecutedTwice`. It is executed at most once unless that
  happened to the first attempt (`Session.ExecutedAtMost`), and wherever a first attempt is about to be
  sent it can happen (`Session.FlushRunsTwice`). A file uploaded by `write_file` is right even then
  (`Client.AgentClient.WriteFile`).
- `unreachable` promises that no attempt got the request out
  (server/src/switch_mcp/clients/agentd.py:258-265). For the same reason one may have, and been
  executed: `Session.UnreachableButExecuted`, `Session.UnreachableSentNothing`.
- `call` promises `uncertain` when a command that may not be repeated was sent and its reply lost. On
  the second attempt the transport exception comes out instead
  (server/src/switch_mcp/clients/agentd.py:269-270): `Session.LostOnSecondAttempt`,
  `Session.OutcomeExactly`.
- An unknown `op` of `search.next` is refused only when some candidate can be read; otherwise the step
  succeeds and leaves nothing (agent/source/handlers/memsearch.cpp:399-415):
  `MemSearchProofs.UnknownOperatorAccepted`, `MemSearchProofs.UnknownOperatorExactly`.
- `search.results` reports a `shown` that is one too high when candidates are left out
  (agent/source/handlers/memsearch.cpp:442): `MemSearchProofs.ShownOneTooMany`,
  `MemSearchProofs.ShownExactly`.
- `debug.search` promises a search of the process's writable memory and says whether it was truncated
  (server/src/switch_mcp/tools/debug.py:219-227). `truncated` only says that `max` addresses were found
  (agent/source/handlers/debug.cpp:354, `DebugProofs.TruncatedAtTheLimit`), and a region above 64 MiB, or
  one that cannot be read, is passed over in silence (`DebugProofs.SkippedInSilence`), as is a value that
  lies across the border of two regions. When `truncated` tells what is missing:
  `DebugProofs.TruncatedExactly`. Nothing is when every writable mapped region can be read and has at
  most 64 MiB, no two of them touch, the walk ends at 2^64, and `truncated` is not set:
  `DebugProofs.SearchComplete`.
- `fs.grep` never examines a last line without a newline: `Grep.LastLineMissed`, `Grep.ExaminedExactly`.
  It also drops every carriage return and matches on the first 4096 remaining octets of a line, which
  is part of what `Grep.FileLines` calls the text of a line.
- `parse_number` accepts `+5`, `-` alone and leading zeros, and the parser encodes surrogates one by
  one; section 6 of RFC 8259 and section 3 of RFC 3629 allow neither (`JsonProofs.LenientNumbers`,
  `JsonProofs.LoneSurrogate`).
- A confirmation token is bound to `detail` only; `operation` is not compared
  (server/src/switch_mcp/guards.py:76, `Guards.OperationIgnored`).

## Model

| member | source | states |
|---|---|---|
| Json.SetMemberSorted | agent/source/json.hpp:78-85 | setting a member keeps the keys of an object strictly ascending, as `std::map` does |
| Json.SetMemberIsMapUpdate | agent/source/json.hpp:61-85 | after `set(k, v)` every lookup answers as before, except that `k` now gives `v` |
| JsonCodec.WriteString | agent/source/json.cpp:15-37 | the loop appends exactly the quoted, escaped string to whatever the output held |
| JsonCodec.Write | agent/source/json.cpp:39-82 | appends exactly the printed value to the output, for every value; the text of a double is a parameter |
| JsonCodec.WriteItems | agent/source/json.cpp:57-66 | the element loop with its `first` flag prints the elements with a comma between any two |
| JsonCodec.WriteMembers | agent/source/json.cpp:68-79 | the member loop prints `"key":value` pairs in key order with a comma between any two |
| Json.PrintIsDump | agent/source/json.cpp:39-82 | a value without doubles prints the same whatever doubles would print as |
| JsonCodec.Parser.SkipWs | agent/source/json.cpp:90-92 | moves the cursor past the longest run of white space, never backwards and never past the end |
| JsonCodec.Parser.ParseChars | agent/source/json.cpp:134-180 | the escape loop accepts and decodes exactly what the reader function does (`JsonGrammar.StringExactly` says what that is), and leaves the cursor right behind the closing quote |
| JsonCodec.Parser.ParseHex | agent/source/json.cpp:149-159 | succeeds if and only if all four characters are hex digits, with their value, most significant digit first |
| JsonCodec.Parser.ParseString | agent/source/json.cpp:131-181 | accepts, decodes and consumes exactly what the reader function does; advances strictly on success |
| JsonCodec.Parser.ScanNumber | agent/source/json.cpp:183-198 | the cursor ends behind the longest run of number characters, and the flag tells whether one of them makes it a double |
| JsonCodec.Parser.ParseNumber | agent/source/json.cpp:183-206 | a token of an optional sign and digits becomes an integer that saturates at 64 bits, any other a double; no token is a failure |
| JsonCodec.Parser.ParseWord | agent/source/json.cpp:106-126 | succeeds if and only if the literal is next, and consumes just it |
| JsonCodec.Parser.ParseValue | agent/source/json.cpp:94-129 | ends on every text, accepts and consumes exactly what the reader function says, stays inside the buffer and advances strictly on success |
| JsonCodec.Parser.ParseArray | agent/source/json.cpp:208-232 | the element loop agrees with the reader on value, success and cursor |
| JsonCodec.Parser.ParseMember | agent/source/json.cpp:243-250 | key, colon and value agree with the reader on success, contents and cursor |
| JsonCodec.Parser.ParseObject | agent/source/json.cpp:234-264 | the member loop agrees with the reader; a later duplicate key overwrites an earlier one |
| JsonCodec.Parse | agent/source/json.cpp:269-277 | tolerates trailing text, and leaves Null on failure |
| JsonProofs.IntTextReads | agent/source/json.cpp:44-47 | printing any 64-bit integer and reading it gives it back, in front of anything but a number character |
| JsonProofs.EscapeReads | agent/source/json.cpp:15-37 | decoding undoes escaping for every octet string, whatever follows |
| JsonProofs.RoundTrip | agent/source/json.cpp:15-82 | for every double-free value and every suffix (for an integer: one that starts with no number character), reading the printed value followed by the suffix gives the value and stops exactly at the suffix |
| JsonProofs.DumpInjective | agent/source/json.cpp:39-82 | two values that print alike are equal |
| JsonProofs.DumpPrefixFree | agent/source/json.cpp:39-82 | what a non-integer prints as begins what another value prints as only if the two are equal |
| JsonProofs.ReadValueValid | agent/source/json.cpp:94-264 | whatever text is accepted, all objects in the result have strictly ascending keys |
| JsonProofs.NormalForm | agent/source/json.cpp:269-277 | print, read, print again changes nothing, for every accepted text without doubles |
| JsonProofs.ReadLocal | agent/source/json.cpp:94-264 | replacing what a parse left over by any other text (behind a number: one that starts with no number character) changes neither its value nor what it consumes; in particular the consumed octets alone give the same value and are all consumed |
| JsonProofs.LenientNumbers | agent/source/json.cpp:183-206 | `+5`, `-` and `007` are accepted, with the values 5, 0 and 7 |
| JsonProofs.LoneSurrogate | agent/source/json.cpp:160-171 | a lone surrogate becomes three octets |
| JsonGrammar.Utf8Encodes | agent/source/json.cpp:160-171 | for every code point below 0x10000 the octets are the one, two or three that RFC 3629 lays down: lead octet, following octets and payload bits in order |
| JsonGrammar.StringExactly | agent/source/json.cpp:131-181 | a text is read as a string literal if and only if it is a quote, plain characters, short escapes from a table of octets and `\u` escapes with four hex digits in either case, and a quote; the value is the octets these stand for, in order |
| JsonGrammar.PrintedPiece | agent/source/json.cpp:15-37 | each octet is printed as itself where that is allowed, else with a short escape where there is one, else as `\u` with lower-case digits |
| JsonGrammar.NumberExactly | agent/source/json.cpp:183-206 | a number is the longest run of digits, points, exponents and signs; it is an integer if and only if it has nothing but digits behind at most one sign, and keeps its literal otherwise |
| JsonGrammar.IntegerSaturates | agent/source/json.cpp:200-204 | every integer, however large, is read as the 64-bit integer nearest to it |
| JsonGrammar.IntTextCanonical | agent/source/json.cpp:44-47 | an integer prints without plus sign and leading zeros |
| JsonGrammar.BlankSkipped | agent/source/json.cpp:90-97 | spaces, tabs and line ends in front of a value change nothing, and no other character is skipped |
| JsonGrammar.LessIsBefore | agent/source/json.hpp:22-25 | members stand in the lexicographic order of their keys' octets |
| JsonGrammar.LookupExactly | agent/source/json.hpp:61-69 | `operator[]` and `has` answer by the members of an object, and Null for anything else |
| Frames.ReadExactEx | agent/source/server.cpp:165-183 | reads exactly n octets through any splitting and any interrupts; Timeout only when none had arrived |
| Frames.ReadFrame | agent/source/server.cpp:232-270 | the checks on both lengths, on the JSON and on `bin`, in the order and with the results of the code |
| Frames.WriteAll | agent/source/server.cpp:189-199 | whether all the data goes out is decided by what the sends take; success means that exactly the data went out, failure that a proper beginning of it did |
| Frames.WriteFrame | agent/source/server.cpp:272-284 | whether the frame goes out is decided by what the sends take of its pieces; success means that exactly one whole frame went out, failure that a proper beginning of it did, for every message |
| Frames.WireIsPrinted | agent/source/server.cpp:272-284 | what `WriteFrame` puts on the wire for a message without doubles is the same however doubles are printed: the frame the theorems speak of |
| Frames.WriteFrames | agent/source/server.cpp:272-284 | frames written one after another put exactly their wire forms on the wire, back to back; on failure some first frames went out whole and a proper beginning of the next |
| Frames.CutAfterBegins | agent/source/server.cpp:272-284 | what such a failure leaves on the wire is a beginning of what was to be written, as the reader's theorems ask |
| Frames.PatientFrames | agent/source/server.cpp:189-199 | writing succeeds over every socket that goes on taking octets, in pieces of any size and with any interrupts, until all are sent |
| Frames.OversizedRefused | agent/source/server.cpp:244-262 | an announced length of 0 or above 65536, or a `bin` that is negative or above 1048576, closes the connection, whatever follows |
| Frames.WithinLimits | agent/source/server.cpp:23-24 | the frames the theorems are about are all those of up to 65536 octets of JSON and 1048576 of payload |
| Frames.ReadNTakes | agent/source/server.cpp:165-183 | a successful read returns the next octets of the stream and leaves the rest; a timeout consumed none |
| Frames.ReadNClean | agent/source/server.cpp:165-183 | over octets and interrupts only, a read that is short enough always succeeds and does not look past them |
| Frames.FrameReads | agent/source/server.cpp:232-284 | a frame that `WriteFrame` put next on the wire is read back exactly, if a read succeeds at all |
| Frames.FrameReadsClean | agent/source/server.cpp:232-284 | with only splitting and interrupts it is always read back, and not one octet more is taken |
| Frames.TimeoutConsumesNothing | agent/source/server.cpp:226-235 | a `ReadFrame` that answers Timeout has consumed nothing, so every retry starts on a frame boundary |
| Frames.ReadFrames | agent/source/server.cpp:526-538 | repeated `ReadFrame` calls, a timeout being tried again, return exactly the frames of `Received` |
| Frames.ReceivedIsPrefix | agent/source/server.cpp:165-284 | over every stream of events, wherever it ends, the frames received are the first of the frames sent, unaltered and in order |
| Frames.AllReceived | agent/source/server.cpp:165-284 | when timeouts fall only between frames, every frame sent is received, in order, with nothing left over |
| Session.InvAlways | server/src/switch_mcp/clients/agentd.py:190-288 | what every step of client, agent and network keeps: pairing on the live connection, the order of ids along all queues, what was sent, and what every outcome tells about it |
| Session.OnlyReply | server/src/switch_mcp/clients/agentd.py:221-232 | the reply a waiting client can read is the one to the last thing it sent |
| Session.RepliesAnswerTheirCall | server/src/switch_mcp/clients/agentd.py:234-288 | over every run, a reply that `call` returns answers the last request of that very call and none of an attempt given up before, although ids are never compared |
| Session.QuietWhenFree | server/src/switch_mcp/clients/agentd.py:242-288 | whenever the lock is free, a live connection has no outstanding request and no unread reply |
| Session.ExecutedAtMost | server/src/switch_mcp/clients/agentd.py:58-81 | one call makes the agent execute a command at most once, or at most twice when it is in the idempotent set or its first request was flushed by closing the writer, whatever is lost or retried; twice exactly when the requests of both attempts are executed |
| Session.FlushRunsTwice | server/src/switch_mcp/clients/agentd.py:214-288 | from every reachable state in which a first request is about to be sent to an agent that serves the connection, a run leads to two executions of the command, whichever it is |
| Session.ExecutedTwice | server/src/switch_mcp/clients/agentd.py:217-288 | a run in which one call of `fs.write` is executed twice |
| Session.ExecutedInOrder | server/src/switch_mcp/clients/agentd.py:234-278 | the agent executes commands in the order of the calls, late leftovers of broken connections included |
| Session.UnreachableSentNothing | server/src/switch_mcp/clients/agentd.py:258-265 | `unreachable` means that outside the idempotent set no request went out or was executed, but for those flushed by closing the writer; inside it the second attempt sent nothing but those |
| Session.UnreachableButExecuted | server/src/switch_mcp/clients/agentd.py:258-288 | a run in which a call ends `unreachable` and its write is executed |
| Session.UncertainWasSentOnce | server/src/switch_mcp/clients/agentd.py:271-278 | `uncertain` is raised only outside the idempotent set, for a request that was sent exactly once |
| Session.OutcomeExactly | server/src/switch_mcp/clients/agentd.py:256-278 | how a call without a reply ends, for every command: the success of a fire-and-forget command if and only if some attempt is known to have sent it, `uncertain` if and only if the first attempt of any other command that may not be repeated is, the raw exception if and only if the second is, and one of the three safe failures in all other cases |
| SessionRuns.CallEnds | server/src/switch_mcp/clients/agentd.py:249-278 | from every reachable state, which step ends the open call and how, and when the call goes on with a second attempt; a reply that ends it is that to the last packet sent |
| SessionRuns.CallCompletes | server/src/switch_mcp/clients/agentd.py:234-256 | whenever the lock is free and the agent serves the connection, the next call of any command can be executed once and answered, and leaves things as they were |
| SessionRuns.CallsComplete | server/src/switch_mcp/clients/agentd.py:234-256 | from the first connection on, any commands can be called one after another, each answered by the one execution of it |
| SessionRuns.NothingRuns | agent/source/server.cpp:516-517 | over a connection that has not passed the handshake nothing is executed, whatever is sent |
| SessionRuns.ClosingForgets | agent/source/server.cpp:516-579 | a handshake counts for its own connection only |
| Session.LostOnSecondAttempt | server/src/switch_mcp/clients/agentd.py:269-270 | a run in which an executed write is lost on the second attempt and no `uncertain` is raised |
| Commands.TableAt | agent/source/server.cpp:35-144 | the table holds exactly the commands of the four groups, each with its group's tier and mutating flag |
| Commands.TableIsTiered | agent/source/server.cpp:27-34 | every command that changes the console needs more than the observe tier |
| Retries.RepeatsOnlySlots | server/src/switch_mcp/clients/agentd.py:67-81 | of the commands the agent's table marks as mutating, the client's idempotent set holds only the three that set a breakpoint slot |
| Retries.MutatesAtMostOnce | server/src/switch_mcp/clients/agentd.py:58-81 | over every run, one call makes the agent carry out a mutating command at most once, those three excepted, unless its first request was flushed |
| Retries.ForgetsExactly | server/src/switch_mcp/clients/agentd.py:61-65 | the commands whose lost reply counts as success are the four that take the console or the agent down |
| Retries.ForgetsChanges | server/src/switch_mcp/clients/agentd.py:61-81 | each of them is in the agent's table as mutating, and none may be repeated |
| Client.Device.FsRead | agent/source/handlers/fs.cpp:69-88 | a missing file is an error; otherwise every octet of the block is that of the file at its offset (from the start, if the offset is negative), as many as there are up to the clamped length, and `eof` is set if and only if the block is short |
| Client.Device.FsWrite | agent/source/handlers/fs.cpp:111-126 | the length of the file after a write, and each octet of it: payload, old octet, or zero in a gap; offset 0 empties the file first, a negative one does not but writes at the start, and no other file changes |
| Client.WriteAtIs | agent/source/handlers/fs.cpp:111-126 | the write that `write_file` is proved against is the only file that fits that octet-by-octet description |
| Client.AgentClient.Attempt | server/src/switch_mcp/clients/agentd.py:190-232 | one attempt is decided by what the link does: result, sent flag, connection and what reaches the device, for every misfortune |
| Client.AgentClient.Call | server/src/switch_mcp/clients/agentd.py:234-278 | what the link does on one or two attempts decides the result, how often the request is applied (at most once outside the idempotent set unless the first attempt was flushed) and whether there is a second attempt; a returned reply is the reply to the last application |
| Client.AgentClient.WriteFile | server/src/switch_mcp/clients/agentd.py:303-311 | returns normally if and only if the link carries a call for each chunk of 1 MiB (one for an empty file), on its first attempt or on a second one that may be made; then the device's file equals the data, also where a chunk was applied twice; otherwise the files are as before, or only that file changed and holds whole chunks from the start of the data |
| Client.AgentClient.ReadFile | server/src/switch_mcp/clients/agentd.py:293-301 | returns normally if and only if the file is there and the link carries floor(n / 1 MiB) + 1 calls; then it gives the file's contents; no file changes in any case |
| Client.ChunkWritten | agent/source/handlers/fs.cpp:111-126 | writing the next chunk at its offset extends the file from one prefix of the data to the next |
| Client.WrittenAgain | agent/source/handlers/fs.cpp:111-126 | the same write executed twice leaves what it leaves executed once, for every file, offset and payload |
| Client.ReadsChangeNothing | agent/source/handlers/fs.cpp:69-88 | reads, repeated any number of times, leave all files alone |
| Client.TransferCommands | server/src/switch_mcp/clients/agentd.py:65-81 | of the two transfer commands only `fs.read` may be repeated |
| Dispatch.SecureEqual | agent/source/server.cpp:335-340 | the loop without early exit answers true if and only if the strings are equal |
| Dispatch.Server.CheckTier | agent/source/server.cpp:298-332 | permitted if and only if the tier suffices and no sub-gate is shut; each refusal has its own code and message, the tier first |
| Dispatch.Server.Authenticate | agent/source/server.cpp:399-514 | what is read, what is answered and whether the peer is let in, on every path of both handshakes, with all fields of the welcome message |
| Dispatch.Server.Handle | agent/source/server.cpp:541-572 | one request: its reply with code and message, the handler that ran if any, and the journal entry if it was a mutation (`DispatchProofs.RequestBecomes` says it by the members of the message) |
| Dispatch.Server.ServeConnection | agent/source/server.cpp:516-579 | nothing is handled unless the handshake succeeded; then exactly the requests up to the end, ten idle timeouts in a row or a failed write, with their replies, handler runs and journal entries in order |
| DispatchProofs.RunsExactlyTheAllowed | agent/source/server.cpp:541-569 | a handler runs once for each request that is listed, permitted by tier and sub-gates and not diverted by dry_run, for no other, and in request order |
| DispatchProofs.RefusalNamesTheRemedy | agent/source/server.cpp:294-325 | the change of configuration that a refusal names lifts it: the tier it asks for lifts `tier_denied`, and the flag it asks for leaves nothing in the way |
| DispatchProofs.RefusalsSay | agent/source/server.cpp:298-325 | the text of a refusal names the tier the command needs, or the flag that shuts it off, for each gated command |
| DispatchProofs.RequestBecomes | agent/source/server.cpp:541-573 | what becomes of a request by its members: refused by name, tier or flag, answered with a preview exactly when `dry_run` is `true` or 1 and the command is mutating, run and journalled otherwise |
| DispatchProofs.JournalIsExecutedMutations | agent/source/server.cpp:560-566 | the journal is exactly the executed mutating commands, in order, with their outcomes |
| DispatchProofs.ObserveChangesNothing | agent/source/server.cpp:27-34 | with a table like the agent's, no mutating handler runs at the observe tier and the journal stays empty |
| DispatchProofs.AgentObserves | agent/source/server.cpp:27-144 | the same for the agent's own table |
| DispatchProofs.ReplyFramed | agent/source/server.cpp:571-573 | the reply to a request carries its id, and `bin` with the payload's length exactly when there is a payload |
| DispatchProofs.RepliesCarryTheirIds | agent/source/server.cpp:526-574 | the k-th reply carries the k-th request's id, and replies are missing only from where writing failed |
| DispatchProofs.ReplySendable | agent/source/server.cpp:541-574 | the reply to any request, refusals and previews included, is a frame that reads back whole, if it is within the size limits and the handler's own reply is an object without doubles and without `bin` |
| DispatchProofs.RepliesArrive | agent/source/server.cpp:165-579 | from requests to the far end of the wire: over every stream of events the frames received are the first replies, whole and in order, each with the id of its request |
| DispatchProofs.AtMostOneUnanswered | agent/source/server.cpp:571-574 | only the last request handled can be without its reply |
| DispatchProofs.TenTimeoutsEnd | agent/source/server.cpp:519-539 | nine receive timeouts in a row are borne and a request after them is handled; the tenth ends the connection |
| DispatchProofs.AdvertisedIsNeverDenied | agent/source/server.cpp:504-509 | a command is advertised if and only if it is never refused as `tier_denied` or `unknown_command` |
| DispatchProofs.SupportsTellsTheTier | server/src/switch_mcp/clients/agentd.py:181-188 | after a successful handshake `supports` is true exactly for the commands the agent does not refuse by name or tier |
| DispatchProofs.WelcomeTells | agent/source/server.cpp:484-512 | the welcome message tells versions, tier and emuMMC, its three flags are what shuts the gated commands off, and its list holds exactly the commands the tier reaches |
| DispatchProofs.HandshakeExactly | agent/source/server.cpp:399-514 | the exact condition under which a peer is let in |
| DispatchProofs.ReplayNeedsCollision | agent/source/server.cpp:386-398 | where plaintext is refused, a recorded conversation is accepted under another nonce if and only if the MACs collide |
| DispatchProofs.RefusalsTellNothing | agent/source/server.cpp:469-482 | what goes out in a failed handshake does not depend on token, tier or flags |
| Memory.LoadIsStore | agent/source/handlers/memsearch.cpp:177-181 | comparing loaded integers is comparing octets, for values that fit the width, and never holds for others |
| Memory.LittleEndian | agent/source/handlers/memsearch.cpp:177-181 | the value at an address has the octet there as its least significant one, for widths 1, 2, 4 and 8 |
| Memory.CastsAre | agent/source/handlers/memsearch.cpp:294-297 | the casts to `int` and `u64` keep the number modulo the size of the type |
| MemSearch.Search.PickRegions | agent/source/handlers/memsearch.cpp:302-322 | the regions scanned are exactly the scannable mappings inside the named extent, in order |
| MemSearchProofs.RegionsExactly | agent/source/handlers/memsearch.cpp:302-322 | a region is scanned if and only if some mapping with its extent is readable, writable, of a data type and, for a named extent, starts inside it |
| MemSearchProofs.WidthsDivide | agent/source/handlers/memsearch.cpp:294-296 | the widths taken are those up to 8 that divide a chunk |
| MemSearch.Search.ScanBuffer | agent/source/handlers/memsearch.cpp:349-355 | one chunk adds its hits in order up to the cap, and reports truncation exactly when one more was met |
| MemSearch.Search.ScanRegions | agent/source/handlers/memsearch.cpp:338-357 | the nested loops with cap and budget equal the scan over the list of all chunks |
| MemSearch.Search.SearchBegin | agent/source/handlers/memsearch.cpp:291-380 | errors come in the order of the checks and leave the state alone; otherwise width, generation and candidates are those of a fresh scan |
| MemSearch.Search.SearchNext | agent/source/handlers/memsearch.cpp:383-432 | errors leave the state alone; otherwise the candidates are narrowed by the operator against fresh values and the generation grows by one |
| MemSearchProofs.OperatorsKeep | agent/source/handlers/memsearch.cpp:399-416 | for each of the eight operators: the candidates that can be read and whose value now compares so with the value asked for, or with the value seen before, each with its value now |
| MemSearchProofs.OperatorsAre | agent/source/handlers/memsearch.cpp:392-415 | an operator needs a value if and only if its verdict depends on one, and is known if and only if there is something it keeps |
| MemSearch.Search.SearchResults | agent/source/handlers/memsearch.cpp:435-455 | the first `limit` candidates and the total; `shown` as the code counts it |
| MemSearch.Search.SearchReset | agent/source/handlers/memsearch.cpp:457-464 | no candidates and generation 0, whatever was there |
| MemSearchProofs.FirstScanFinds | agent/source/handlers/memsearch.cpp:338-357 | the first 32768 hits of the chunks gone over, `truncated` exactly when one more was met, at most budget + 65535 octets read, and neither flag means every chunk was attempted |
| MemSearchProofs.ChunkedIsStride | agent/source/handlers/memsearch.cpp:341-356 | for widths 1, 2, 4 and 8 and any region size the chunked scan finds what one walk in steps of the width finds; nothing is lost at a chunk boundary |
| MemSearchProofs.StrideHitsExactly | agent/source/handlers/memsearch.cpp:341-356 | that walk finds exactly the width-aligned addresses in readable chunks that hold the value, in ascending order |
| MemSearchProofs.HistoryDecides | agent/source/handlers/memsearch.cpp:396-419 | after any sequence of narrowing steps the candidates are those that were readable at every step and met every operator against the value of the step before, in scan order, with the latest values |
| MemSearchProofs.SearchHistory | agent/source/handlers/memsearch.cpp:338-419 | the same from an untruncated first scan on, in terms of the target's memory alone |
| SearchRuns.RunTells | agent/source/handlers/memsearch.cpp:291-464 | after any run of begins, nexts, results and resets, refused ones included, candidates, width and generation are those of the last begin that was not refused or undone and of the steps since that were not refused |
| SearchRuns.CandidatesExactly | agent/source/handlers/memsearch.cpp:291-464 | after any such run whose last first scan was uncut, the candidates are exactly the aligned addresses that held its value and passed every step since, with the latest values |
| SearchRuns.Perform | agent/source/handlers/memsearch.cpp:291-464 | each handler does to the search's three variables what the run's step function says |
| SearchRuns.PerformAll | agent/source/handlers/memsearch.cpp:173-464 | so do any handlers called one after another on a search just made |
| MemSearchProofs.UnknownOperator | agent/source/handlers/memsearch.cpp:399-415 | a step with an unknown operator that is not refused leaves no candidate |
| MemSearchProofs.UnknownOperatorExactly | agent/source/handlers/memsearch.cpp:396-415 | in an active search an unknown operator is refused if and only if some candidate can be read; otherwise the step succeeds and leaves nothing |
| MemSearchProofs.UnknownOperatorAccepted | agent/source/handlers/memsearch.cpp:399-415 | one unreadable candidate and the operator "bogus": no error, and the search is lost |
| MemSearchProofs.ShownExactly | agent/source/handlers/memsearch.cpp:437-452 | `shown` is the number of candidates listed if and only if none is left out |
| MemSearchProofs.ShownOneTooMany | agent/source/handlers/memsearch.cpp:437-452 | of 51 candidates 50 are listed by default and 51 reported as shown |
| MemSearchProofs.CursorEndsExactly | agent/source/handlers/memsearch.cpp:343 | the 64-bit chunk cursor can reach the end of a region if and only if its size is at most 2^64 - 65536 |
| MemSearchProofs.TooLargeNeverFound | agent/source/handlers/memsearch.cpp:349-353 | a value of 256^width or more is found nowhere, whatever is in memory |
| MemSearchProofs.NegativeNeverFound | agent/source/handlers/memsearch.cpp:297-353 | a search for a negative value finds nothing unless the width is 8 |
| Debug.DebugMemMap | agent/source/handlers/debug.cpp:238-266 | reports the mapped ones of the regions walked, in order |
| Debug.Wraps | agent/source/handlers/debug.cpp:260-262 | the 64-bit sum wraps exactly at the end of the address space |
| Debug.WalkTiles | agent/source/handlers/debug.cpp:242-263 | the regions walked follow each other without gap or overlap and stop only at 2^64, after 512, or when the kernel refuses |
| Debug.MemoryMapCovers | agent/source/handlers/debug.cpp:242-263 | the walk from address 0: disjoint, ascending, and covering every address below its end |
| Debug.DebugSearch | agent/source/handlers/debug.cpp:314-356 | the first `max` addresses in walk order that hold the value's low octets in a searched region |
| Debug.SearchRegion | agent/source/handlers/debug.cpp:336-347 | the hits of one region are appended in address order up to the limit |
| Debug.NeedleHitsExactly | agent/source/handlers/debug.cpp:338-346 | the hits of a region are exactly the addresses where the octets lie, in ascending order |
| Debug.AllHitsExactly | agent/source/handlers/debug.cpp:329-351 | over the regions walked: exactly the addresses in searched regions where the octets lie, in ascending order |
| DebugProofs.FoundUnlessUnseen | agent/source/handlers/debug.cpp:329-351 | over the regions walked, a place in mapped writable memory that holds the value is found unless it lies in a region passed over or across a border |
| DebugProofs.MissingExactly | agent/source/handlers/debug.cpp:329-354 | a match is missing from an answer if and only if there are more than `max` hits, or a match lies in a region passed over or across a border |
| DebugProofs.TruncatedExactly | agent/source/handlers/debug.cpp:329-354 | `truncated` is set if and only if a match is missing, exactly when there are more than `max` hits, or `max` and a match that is overlooked, or fewer and none |
| DebugProofs.TruncatedAtTheLimit | agent/source/handlers/debug.cpp:354 | one hit, asked for one: `truncated` is set although nothing is missing |
| DebugProofs.SkippedInSilence | agent/source/handlers/debug.cpp:334-336 | a region of 64 MiB and one octet full of the value: no hit, `truncated` not set, and a match missing |
| DebugProofs.SearchComplete | agent/source/handlers/debug.cpp:329-354 | where every mapped writable region is readable, has at most 64 MiB and touches no other, and the walk reaches 2^64, an answer without `truncated` lists every address of mapped writable memory that holds the value |
| DebugProofs.ArgumentsExactly | agent/source/handlers/debug.cpp:317-320 | which widths and limits are used as they are, and which are replaced by 4 and 64 |
| Debug.SearchesAgree | agent/source/handlers/debug.cpp:338-346 | on a readable region the narrowing search's hits are the width-aligned ones among the debugger's when the value is below 256^width, and none otherwise |
| Debug.FirstScanAgrees | agent/source/handlers/memsearch.cpp:338-357 | the candidates of an untruncated `search.begin` are exactly the width-aligned ones among the debugger's hits |
| Path.Split | agent/source/path.cpp:12-17 | each turn of the loop splits off the next segment |
| Path.NormalizePath | agent/source/path.cpp:7-25 | refuses or returns what the specification says |
| Path.WriteParts | agent/source/path.cpp:19-23 | the output loop writes a slash before each part and nothing behind the last |
| Path.ResolveSdPath | agent/source/path.cpp:27-32 | the device path is `sdmc:` and the normalised path; refused paths are refused |
| Path.Accepts | agent/source/path.cpp:8-15 | accepted if and only if the path starts with a slash and `..` stands nowhere between slashes or ends |
| Path.SegmentsAreThose | agent/source/path.cpp:11-18 | the segments split off are exactly the non-empty texts between slashes |
| Path.OutputSegments | agent/source/path.cpp:16-23 | the output's segments are the input's without the empty ones and the dots; none is empty, `.` or `..` |
| Path.Idempotent | agent/source/path.cpp:7-25 | normalising twice is normalising once |
| Path.SamePlace | agent/source/path.cpp:7-25 | in every directory tree the normalised path leads where the path leads |
| Path.PrefixFirst | agent/source/path.cpp:7-25 | normalising a prefix first does not change what a concatenation normalises to |
| Grep.FsGrep | agent/source/handlers/fs.cpp:477-528 | bad pattern, missing file, or the first `limit` matching lines, `truncated` exactly when there is a further one, and as `lines_scanned` the number of that line or of all lines |
| Grep.Scan | agent/source/handlers/fs.cpp:491-521 | the one-pass octet loop equals the line-by-line specification |
| Grep.FileLines | agent/source/handlers/fs.cpp:499-520 | as many lines as newlines, numbered from 1, each with its exact start offset and the text the buffer keeps |
| Grep.MatchesExactly | agent/source/handlers/fs.cpp:491-504 | a line matches if and only if the pattern stands in it somewhere, with `ignore_case` whatever the case of ASCII letters on either side |
| Grep.KeptOfLine | agent/source/handlers/fs.cpp:517-519 | carriage returns disappear wherever they stand, and of the rest the first 4096 octets are kept |
| Grep.EchoExactly | agent/source/handlers/fs.cpp:509-511 | a matching line of up to 300 octets comes back whole, a longer one as its first 300 and three dots |
| Grep.ExaminedExactly | agent/source/handlers/fs.cpp:499-520 | every octet of a file belongs to an examined line if and only if the file is empty or ends in a newline |
| Grep.LastLineMissed | agent/source/handlers/fs.cpp:499-520 | a file that is just the pattern, without a newline, has no match |
| Find.FindCtx.WalkFind | agent/source/handlers/fs.cpp:405-442 | ends on every directory graph, cyclic ones included, and does to the shared counters and results what going over the preorder entry by entry does |
| Find.FsFind | agent/source/handlers/fs.cpp:450-473 | results, counts and both truncation flags are those of the capped preorder |
| FindProofs.VisitsExactly | agent/source/handlers/fs.cpp:405-442 | the walk visits exactly the entries that a chain of at most thirteen directories leads to without a dot entry, each under the names of its chain joined by slashes |
| FindProofs.WantedExactly | agent/source/handlers/fs.cpp:427-429 | an entry is wanted if and only if the text stands somewhere in its name, whatever the case of letters, and it is no directory where only files are asked for |
| Find.FindAnswers | agent/source/handlers/fs.cpp:405-442 | the results are exactly the wanted ones among the first `scanned` entries; the walk stops at the earliest point where the match limit, the scan cap or the end is reached, and never passes a cap |
| Find.DepthCapExactly | agent/source/handlers/fs.cpp:405-442 | walking deeper than the cap finds nothing new if and only if every directory met at the cap is empty or cannot be opened |
| Find.FindComplete | agent/source/handlers/fs.cpp:450-473 | when that holds and neither flag is set, the results are all the wanted entries of the walk to any depth |
| Find.CapsExactly | agent/source/handlers/fs.cpp:405-442 | of its own preorder the capped walk leaves out something wanted if and only if a cap cut it off; a flag is set if and only if that is so, or as many wanted entries as the limit, or 40000 entries, were met |
| Find.MissingExactly | agent/source/handlers/fs.cpp:405-442 | for every query something is missing from the answer if and only if a cap cut off a wanted entry, or a directory met at depth 12 leads to one |
| Find.FlagsExactly | agent/source/handlers/fs.cpp:450-473 | for every query: a flag is set if and only if something is missing, exactly when a cap cut off a wanted entry, or the limit or the 40000 entries were reached just when wanted entries lie below depth 12 |
| Find.ListingExactly | agent/source/handlers/fs.cpp:450-473 | for a listing of n < 40000 entries to depth 12: a flag is set if and only if something is missing, exactly when n is above the limit, or below it and every directory met at depth 12 is empty or cannot be opened, or equal to it and some is neither |
| Find.DepthCapIsSilent | agent/source/handlers/fs.cpp:386-442 | a directory that contains itself: 13 entries and no flag, while one level deeper there is a 14th |
| Find.FlaggedWithNothingMissing | agent/source/handlers/fs.cpp:405-473 | one entry, asked for one: the reply says truncated by the limit, and nothing is missing |
| Guards.Guard.Purge | server/src/switch_mcp/guards.py:62-65 | drops exactly the expired entries |
| Guards.Guard.RequireConfirmation | server/src/switch_mcp/guards.py:49-93 | outcome and table after one call, on every branch |
| Guards.OperationIgnored | server/src/switch_mcp/guards.py:67-83 | the outcome and the table do not depend on `operation` |
| Guards.TableIsHistory | server/src/switch_mcp/guards.py:59-86 | after any run the table holds exactly the tokens issued, not used and not expired since, each with its effect and expiry |
| Guards.ProceedsExactly | server/src/switch_mcp/guards.py:49-93 | a call proceeds if and only if an earlier refusal issued the presented token for the same effect at most 300 s before and no call in between used it |
| Guards.RefusalOf | server/src/switch_mcp/guards.py:67-83 | every call that proceeds has such a refusal |
| Guards.RefusalsDistinct | server/src/switch_mcp/guards.py:82-86 | two calls never proceed on one refusal |
| Guards.Conservation | server/src/switch_mcp/guards.py:62-86 | per effect, tokens issued = used + expired + still pending |
| Power.InvAlways | agent/source/power_state.cpp:55-85 | what every interleaving of the thread's and the loop's steps keeps |
| Power.AcknowledgedInTurn | agent/source/power_state.cpp:55-85 | each fetched request is acknowledged with its own state before the next is fetched, and the thread never ends or waits owing one |
| Power.AsleepTellsTheLast | agent/source/power_state.cpp:64-80 | between requests `IsAsleep` tells the last acknowledged transition |
| Power.NoWakeLost | agent/source/power_state.cpp:134-142 | after every wake the flag is still set, or a rebuild of the listener began after that wake, or the loop is about to begin one |
| Power.EachTakeHasItsWake | agent/source/power_state.cpp:138-142 | each wake-caused rebuild has a wake of its own since the previous one, even with `TakeWokeFlag` split in two steps |
| Power.WakeRebuildsPromptly | agent/source/server.cpp:625-632 | with the flag set, a failed accept leads to a rebuild in two steps of the loop, whatever the thread does meanwhile |
| Power.WedgedExactly | agent/source/server.cpp:637-643 | a failed accept that sees neither flag leads to a rebuild if and only if 19 were counted since the listener was opened or a client connected; a loop that goes on has counted fewer than 20 |
| Power.RequestAnswered | agent/source/power_state.cpp:63-85 | a request is answered in at most four steps of the thread, with the flags set as its state demands, for each of the seven states |
| Power.WakesAreFlagged | agent/source/power_state.cpp:63-85 | over every interleaving a wake is flagged before the acknowledgement of each request for an awake state, and for no other |
| Power.LoopTurns | agent/source/server.cpp:606-657 | the accept loop opens its listener until that succeeds, serves each client, and after a failed accept consumes a wake first and then looks at sleep |

## Left out

- Doubles: a double keeps its literal; its value, `strtod` and `%.10g` are not modelled. What a double prints as is a parameter, and the round trips are about values without doubles, because `%.10g` loses precision and `3.0` comes back as an integer.
- Parser recursion depth: the console's stack limit is not modelled.
- Dispatch.Server.Handle: handlers are an oracle, and log lines are not modelled.
- Dispatch.Server.Authenticate: the two-second delay after a refusal and the watchdog are not modelled; the firmware version is a parameter.
- Dispatch works on frames as values; that `ReadFrame` and `WriteFrame` deliver them is the subject of `frames.dfy`.
- Timeout values: a receive either delivers, is interrupted, times out or fails; how long it waited is not modelled.
- Session: Python's `json` module is an abstract codec there, and the legacy fallback of the handshake is a fresh connection.
- Client.AgentClient.Attempt: a request that outlives its call is executed before the attempt ends or not at all (in `session.dfy` it may be executed at any later time); an open failure on the device appears as an error reply; `capabilities` and `auth_method` are not fields of the model.
- Client.Device.FsRead and Client.Device.FsWrite: device and path resolution and a short `fwrite` are not modelled; `fseek` is taken to refuse a negative offset and to leave the position at the start.
- MemSearch.Search.SearchBegin: regions that wrap 2^64, or whose size is within 65535 of it, are excluded; in the latter the chunk cursor never reaches the end (`MemSearchProofs.CursorEndsExactly`), so where nothing can be read the loop of the source does not end. Whether the cheat process attaches and describes itself are two flags, and the mappings are an input.
- SearchRuns.Perform and SearchRuns.PerformAll: the same regions are excluded.
- Debug.DebugSearch: attaching is taken as done, and the kernel's query and the reads are oracles.
- Find.FsFind and Grep.FsGrep: device and path resolution, and all of `stat`, are inputs; the names of the entries come from an oracle that may describe a cyclic graph.
- Guards: host path roots, bind checks and the parsing of the environment variable depend on the host.
- Guards.Conservation: needs tokens that are never issued twice; `_token_for` hashes the clock, so two equal calls at the same reading would share one.
- Power: `Init`, `Exit` and the serving of a connection are single steps; serving is part of a successful accept.
- The USB transport, screenshots, input injection, and the other service handlers only wrap foreign calls.
- The MCP tools, discovery, the FTP fallback and the deploy scripts are thin plumbing.
