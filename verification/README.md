# Verification of axil

This project models the connection engine of the axil HTTP and WebSocket
server and the codecs around it, and proves their properties with Dafny 4.11.
`dafny verify dfyconfig.toml` checks all of it.

Code that updates state is modelled by methods on arrays and class fields, and
each such method is proved against a function on values; the properties are
lemmas about those functions. The parts are:

- `Fifo`, `OutputQueue`: the output queue of a descriptor. `Fifo` says what it
  means (bytes pending, bytes on the wire); `OutputQueue` is the growing,
  compacting buffer that implements it.
- `Tunnel`, `TunnelProofs`, `Engine`: the connection engine with its WebSocket
  proxy. `Tunnel` is the state machine over descriptor slots, `Engine` the
  tables updated in place, `TunnelProofs` the invariant and its preservation.
- `TunnelLimits`, `Replies`, `Failures`: exactly when the invariant is kept, by
  a step, a handler, each answer of the library and a whole run, and runs in
  which it is not.
- `TunnelHistory`, `TunnelOrigin`: what the ends of a tunnel have been sent, in
  terms of what was read and what the kernel answered during the whole run, and
  that every tunnel has such a history.
- `TunnelExact`, `TunnelLink`: what a step, a flushing pass, a turn and a run
  make of one connection, exactly. `TunnelLink` is two connected ends and
  nothing else; every tunnel of the engine behaves like that, whatever the
  other slots do (`RunShows`), and from this it follows what ends a tunnel.
- `Answers`: what the answers of the library do to their connection.
- `PathGate`, `Pattern`, `RouteSegments`, `Router`, `Headers`, `Forms`: what
  happens to a request. `RouteSegments` says what a route means for paths written
  segment by segment.
- `Calendar`, `HttpDate`: calendar arithmetic and the date round trip.
- `WebSocket`, `Base64`, `Escape`: codecs and their inverses.
- `Rules`: the rules file that is rewritten while it is read.
- `Text`, `Wrappers`: bytes, C strings, character classes, `Option`.

What a handler does to its own slot is a list of actions (write, set or
overwrite flags, the ways of closing), and none of them looks whether the slot
is still open, as in the code. A run is `AllowedRun` if the kernel hands out
fresh numbers and clients, upstreams and handlers are `Polite`; `SafetyIff` says that
of the runs with fresh numbers exactly these keep the invariant throughout.

BUFSIZ and FD_SETSIZE are parameters. What the kernel answers (accept, read,
write, send, select) is an input of each step. Allocation succeeds. qmap is a
map; where its iteration order matters it is a sequence in any order. Bytes
are numbers below 256; masks, shifts and OR of disjoint bits are written as
remainder, division and sum, exclusive or bit by bit.

## What turned out to need a condition

- `axil_rem_may_inc` loops forever when the space needed is exactly the buffer
  size times a power of two of at least two (the outer test at line 547 is
  `>=`, the inner one at line 548 is `<`). `GrowthTerminatesIff` is the exact
  condition, `GrowthStalls` an instance; `LowWrite` requires the condition.
- `axil_low_write` drops its data when nothing is queued and the write fails
  with anything but EAGAIN (EINTR included). The FIFO theorem holds if and only
  if that never happened (`FifoRun`, `SomeDrop`), and each direction of a tunnel
  carries all that was read if and only if it never happened to a byte relayed
  in that direction since the answer (`TunnelFidelity`, `DroppedSince`);
  `RelayDrops` is an allowed run in which a signal costs a byte and both ends
  stay open. With kernels that answer only with room or EAGAIN nothing is
  dropped (`ErrorlessDropsNothing`).
- A handler keeps the tables right if and only if it does nothing to its slot
  after that was closed (except a close that first looks at DF_TO_CLOSE, or a
  write that fails with EBADF) and does not overwrite the flags of a paired
  slot (`PerformIff`). The library's own answers do not all keep to that:
  - `axil_set_flags` in `buffer_post_body` drops DF_WS_PROXY_PENDING, so an
    oversized request by a client whose upgrade is pending closes the client
    alone and leaves the entry of its upstream stale (`TooLargeIff`);
    `StaleEntryHits` is a run in which that closes somebody else's connection.
  - `axil_respond`, the redirects and 304 close a second time if their own
    write has closed the slot (`RespondIff`, `RedirectIff`, `AddSlashIff`).
    A reply is safe for every answer of the kernel if and only if nothing is
    queued and it goes out in one write (`RespondAlwaysIff`), the redirects if
    and only if nothing is queued (`RedirectAlwaysIff`, `AddSlashAlwaysIff`).
  - Status 414 and `axil_sendfile` close twice whenever the answer goes out at
    once (`TooLongIff`, `SendFileIff`, `TooLongClosesTwice`,
    `SendFileClosesTwice`).
  - A static answer is safe if and only if the client is unpaired or no write
    before the last closes it (`StaticIff`): while an upgrade is pending, the
    close empties the `io` entry and the next write calls a null pointer
    (`StaticFaults`). For every answer of the kernel that is an unpaired client,
    one write, or two with nothing queued (`StaticAlwaysIff`).
- A second upgrade by a client that is still paired leaves its first upstream
  with a stale entry: the pairing is kept if and only if the client is unpaired
  (`SecondUpgradeIff`, `SecondUpgradeLeavesStaleEntry`). Section 4.1 of RFC 6455
  forbids clients to send one.
- If forwarding the upstream's answer closes the client (a backlog that fails,
  or that drains on a connection marked to close), a 101 then marks two closed
  slots as a tunnel and any other answer closes the upstream twice. The
  invariant is kept if and only if the write leaves the client open
  (`AnswerIff`, `AnswerMeetsBacklog`), and for every answer of the kernel if
  and only if nothing is queued for the client (`AnswerAlwaysIff`).
- The gate accepts a path before `request_handle` cuts the decoded target at
  its first '?', which may come from an escape in the path. `DocumentUriIff`
  says exactly when the cut text has a ".." segment; without an escaped '?' in
  the path it never has, and "/..%3F" is a path where it has
  (`DocumentUriCanHaveDots`).

## Model

| member | source | states |
|---|---|---|
| Fifo.FifoRun | src/libaxil.c:492-594 | over any run of writes, retries and close marks, wire followed by queue is exactly the data handed over, if and only if no write met a hard error while the queue was empty; a close on drain leaves nothing queued |
| Fifo.SendAppends | src/libaxil.c:559-594 | one write extends the stream by all its data, or by nothing exactly when it is dropped |
| Fifo.FlushKeeps | src/libaxil.c:492-524 | a flush moves bytes from queue to wire without changing the stream |
| Fifo.RetryDrains | src/libaxil.c:517-521 | with enough room a retry puts the whole backlog on the wire, and the connection closes exactly if it was marked to close |
| Fifo.KernelTakes | src/libaxil.c:559-594 | after a write that meets room for n bytes the wire is the earlier stream and the data up to n bytes behind the earlier wire, whether or not anything was queued; with any error the wire is as before |
| Fifo.FlushTakes | src/libaxil.c:492-524 | the same of a retry, which with any error changes nothing |
| Fifo.ClosesExactly | src/libaxil.c:497-521 | a write or a retry closes exactly if there was a backlog and it met a hard error, or all of it went out on a connection marked to close |
| OutputQueue.DoubleToHits | src/libaxil.c:547-549 | the inner doubling loop stops exactly on the need if and only if the need is a doubling of the size |
| OutputQueue.GrowthTerminatesIff | src/libaxil.c:544-556 | the outer loop ever gets above the need if and only if no size·2^k with k≥1 equals it |
| OutputQueue.GrowthStalls | src/libaxil.c:544-556 | an instance: a buffer of 8 MiB that needs 16 MiB |
| OutputQueue.OutputBuffer.MayInc | src/libaxil.c:526-557 | keeps the queued bytes, makes room for the request, and grows only when needed, to the smallest doubling above the need |
| OutputQueue.OutputBuffer.Compact | src/libaxil.c:535-539 | moves the queue to the front unchanged |
| OutputQueue.OutputBuffer.WriteRemaining | src/libaxil.c:492-524 | the buffer does what the FIFO says, with the return values of the code |
| OutputQueue.OutputBuffer.LowWrite | src/libaxil.c:559-594 | the buffer does what the FIFO says, with the return values of the code |
| TunnelProofs.Safety | src/libaxil.c:1285-1336 | every state of every allowed run satisfies the invariant: symmetric pairs without fixed points that agree with the flags, live ends, one waiting end per pending pair, clean dead slots, delivered bytes, and as many closes as opens less the live one |
| TunnelProofs.ServeKeeps | src/libaxil.c:955-1055 | serving one readable slot keeps the invariant if kernel, clients and handlers are as allowed |
| TunnelProofs.PerformKeeps | src/libaxil.c:1051-1053 | a handler that leaves a closed slot alone, and the flags of a paired one, keeps the invariant |
| TunnelProofs.CloseRawKeeps | src/libaxil.c:933-948 | tearing down a pair keeps the invariant |
| TunnelProofs.CloseKeeps | src/libaxil.c:302-368 | closing any live slot keeps the invariant |
| TunnelProofs.AcceptKeeps | src/libaxil.c:605-667 | a new connection keeps the invariant although its `tunnel_pair` entry is not initialised |
| TunnelProofs.ProxyKeeps | src/libaxil.c:2393-2457 | every outcome of an upgrade (no key, request too long, number too large, partial send, success) keeps the invariant |
| TunnelProofs.EnterKeeps | src/libaxil.c:1006-1011 | forwarding a 101 and entering tunnel mode keeps the invariant |
| TunnelProofs.ServeWaitingKeeps | src/libaxil.c:984-1019 | whatever the waiting upstream sends, the invariant is kept |
| TunnelProofs.RelayKeeps | src/libaxil.c:1022-1049 | relaying keeps both directions of the tunnel complete and in order |
| TunnelProofs.WriteRemainingKeeps | src/libaxil.c:492-524 | flushing any slot keeps the invariant |
| TunnelProofs.ProcReadsKeeps | src/libaxil.c:955-1055 | a whole read pass of an allowed run keeps the invariant |
| TunnelProofs.FlushFromKeeps | src/libaxil.c:872-891 | a whole flushing pass keeps the invariant |
| TunnelProofs.DeadIsClean | src/libaxil.c:309-314 | in every allowed run a number that is not live has no pair, is nobody's pair, is in no fd set and was closed as often as opened, so its next connection starts unpaired |
| TunnelProofs.ClosedExactlyOnce | src/libaxil.c:893-948 | in every allowed run each number is closed as often as it was handed out, less once while live |
| TunnelOrigin.TunnelFidelity | src/libaxil.c:984-1049 | whatever tunnel there is in whatever allowed run: there is the turn of its 101, and since then the upstream's stream is what it had been sent and then all bytes read from the client, the client's is its earlier output and then all bytes read from the upstream, each if and only if no relayed write in that direction met an empty queue and an error other than EAGAIN |
| TunnelOrigin.PassOrigin | src/libaxil.c:955-1055 | in a read pass only an answer read by an upstream that was waiting at its start makes a tunnel |
| TunnelProofs.TunnelStarts | src/libaxil.c:1006-1011 | the history starts with the client's earlier output and with the answer as first relayed chunk |
| TunnelProofs.UpgradeSent | src/libaxil.c:2410-2453 | a successful upgrade puts exactly the request on the upstream's wire and leaves the upstream waiting |
| TunnelProofs.TeardownExact | src/libaxil.c:302-318 | closing either end closes exactly the two descriptors once each, removes them from all four sets and all pair entries, and changes nothing else |
| TunnelProofs.DeadNotServed | src/libaxil.c:973-975 | after a number is torn down in a read pass, that pass does not act on it again, even if it has been reused |
| TunnelLimits.SecondUpgradeIff | src/libaxil.c:2432-2441 | a further upgrade keeps the invariant if and only if the client is unpaired |
| TunnelLimits.AnswerIff | src/libaxil.c:1004-1019 | forwarding the answer keeps the invariant if and only if the write leaves the client open |
| TunnelLimits.AnswerAlwaysIff | src/libaxil.c:1004-1019 | forwarding is safe for every answer of the kernel if and only if nothing is queued for the client |
| TunnelLimits.PerformIff | src/libaxil.c:1051-1053 | a handler keeps the invariant if and only if it leaves its slot alone once closed and its flags alone while paired; nothing it does later repairs the tables |
| TunnelLimits.ServeIff | src/libaxil.c:955-1055 | with fresh numbers from the kernel, serving a slot keeps the invariant if and only if client, upstream and handler are polite |
| TunnelLimits.SafetyIff | src/libaxil.c:1285-1336 | with fresh numbers from the kernel, a run keeps the invariant throughout if and only if it is an allowed run |
| Replies.RespondIff | src/libaxil.c:258-288 | a reply keeps the invariant if and only if none of its writes closes the slot |
| Replies.RespondBalancedIff | src/libaxil.c:258-288 | after a reply the number is closed as often as handed out, less once while live, if and only if none of its writes closed it |
| Replies.RespondAlwaysIff | src/libaxil.c:258-288 | a reply is safe for every answer of the kernel if and only if nothing is queued and it goes out in one write |
| Replies.TooLargeIff | src/libaxil.c:2234-2238 | status 413 keeps the invariant if and only if the client is unpaired and the write does not close it |
| Replies.TooLongIff | src/libaxil.c:2341-2345 | status 414 keeps the invariant if and only if a backlog outlives the whole answer |
| Replies.TooLongBalancedIff | src/libaxil.c:2341-2345 | and only then are its closes balanced |
| Replies.RedirectIff | src/libaxil.c:1931-1950 | the redirect to TLS keeps the invariant if and only if its write does not close the slot; likewise status 304 (lines 1751-1761) |
| Replies.AddSlashIff | src/libaxil.c:2291-2303 | the trailing-slash redirect keeps the invariant if and only if its write does not close the slot |
| Replies.TooLargeAlwaysIff | src/libaxil.c:2234-2238 | status 413 is safe for every answer of the kernel if and only if the client is unpaired and nothing is queued |
| Replies.RedirectAlwaysIff | src/libaxil.c:1931-1950 | the redirect to TLS is safe for every answer of the kernel if and only if nothing is queued |
| Replies.AddSlashAlwaysIff | src/libaxil.c:2291-2303 | likewise the trailing-slash redirect |
| Replies.NeverAlways | src/libaxil.c:2341-2345 | for status 414 and for sending a file there is in every state an answer of the kernel that breaks the invariant |
| Replies.SendFileIff | src/axil-posix.c:634-677 | sending a file keeps the invariant if and only if the header leaves a backlog and nothing closes the slot before the end |
| Replies.StaticIff | src/libaxil.c:1784-1830 | a static answer keeps the invariant if and only if the client is unpaired or no write before the last closes it |
| Replies.StaticAlwaysIff | src/libaxil.c:1784-1830 | it is safe for every answer of the kernel if and only if the client is unpaired, or there is one write, or two with nothing queued |
| Replies.StaticKeeps | src/libaxil.c:1828-1829 | the guarded close at the end leaves a slot alone that a write has closed, if the client was unpaired |
| Answers.ClosingLive | src/libaxil.c:283-287 | marking changes the mark only; each of the three ways of closing closes the slot and its peer, once each, exactly under its test, and otherwise changes nothing |
| Answers.RespondEnds | src/libaxil.c:258-288 | a reply that its writes leave open is closed unless a backlog remains, and then it is marked to close |
| Answers.WrittenWhole | src/libaxil.c:258-288 | without a write error the stream is everything before, then header and body |
| Answers.RedirectEnds | src/libaxil.c:1931-1950 | the redirect to TLS and status 304 leave the slot open only with a backlog and the mark |
| Answers.AddSlashEnds | src/libaxil.c:2291-2303 | likewise the trailing-slash redirect |
| Answers.StaticEnds | src/libaxil.c:1784-1830 | after a static answer an unpaired client is closed exactly if a write closed it, or it was marked and nothing is left in the queue |
| Answers.AllSentWhole | src/libaxil.c:1818-1820 | without a write error the stream has grown by all chunks in order |
| Failures.TunnelReached | src/libaxil.c:1006-1011 | an allowed run that ends in a tunnel, with the request on the one wire and the 101 on the other |
| Failures.OversizedLeavesStaleEntry | src/libaxil.c:2234-2238 | a run in which status 413 leaves the stale entry that lines 309-314 warn of |
| Failures.StaleEntryHits | src/libaxil.c:309-314 | its continuation: a new connection reuses the number and the other upstream's answer closes it |
| Failures.SecondUpgradeLeavesStaleEntry | src/libaxil.c:2432-2441 | a run in which a second upgrade leaves a stale entry |
| Failures.AnswerMeetsBacklog | src/libaxil.c:1004-1019 | runs in which the upstream's answer revives two closed slots, or closes one twice |
| Failures.TooLongClosesTwice | src/libaxil.c:2341-2345 | a run in which status 414 closes twice |
| Failures.SendFileClosesTwice | src/axil-posix.c:634-677 | a run in which sending a file closes twice |
| Failures.ReplyClosesTwice | src/libaxil.c:258-288 | a run in which a reply behind a backlog closes twice |
| Failures.RedirectClosesTwice | src/libaxil.c:1931-1950 | a run in which the redirect to TLS, or status 304, closes twice |
| Failures.AddSlashClosesTwice | src/libaxil.c:2291-2303 | a run in which the trailing-slash redirect closes twice |
| Failures.StaticFaults | src/libaxil.c:1818-1820 | a run in which a static answer to a pending client calls a null function pointer |
| Failures.RelayDrops | src/libaxil.c:1042-1048 | an allowed run in which a relayed byte is dropped and both ends stay in the tunnel |
| Failures.PremiseReached | src/libaxil.c:2393-2457 | the premise of the end-to-end theorem is met in the run that reaches a tunnel |
| TunnelHistory.EndToEnd | src/libaxil.c:984-1049 | once an upgrade request has got through, and until the upstream is closed, it waits having been sent exactly the request, or there is a turn of its 101 since which both directions carry exactly what the inputs of the run say |
| TunnelHistory.StoryHolds | src/libaxil.c:1006-1049 | after the 101, the upstream's stream is the request then all bytes read from the client, the client's is its earlier output then all bytes read from the upstream with the 101 first, each if and only if none of the relayed writes in that direction was dropped |
| TunnelHistory.ErrorlessDropsNothing | src/libaxil.c:559-594 | if every write has room or meets EAGAIN, none is dropped |
| TunnelHistory.RunOnward | src/libaxil.c:1022-1049 | over any number of turns a tunnel is torn down, or the history of each end grows by exactly the bytes read from it, and it loses data exactly if a write of its peer in these turns was dropped |
| TunnelHistory.ServeOnward | src/libaxil.c:955-1055 | the same for one served slot, and for a waiting upstream |
| TunnelHistory.AnswerTurn | src/libaxil.c:985-1019 | when the waiting upstream becomes ready, the pair is torn down or its 101 starts the tunnel where the earlier output ends |
| TunnelHistory.WaitRun | src/libaxil.c:984-1019 | a waiting upstream that is not closed waits for the same client, or has become the end of a tunnel to it |
| TunnelExact.RelayExact | src/libaxil.c:1022-1049 | a relayed chunk ends the tunnel exactly at end of input or if its write closes the peer; otherwise both ends stay in it, the peer's queue has taken the data, the reader's history has grown by it and no other field of any slot has changed |
| TunnelExact.AnswerExact | src/libaxil.c:984-1019 | serving a waiting upstream starts the tunnel exactly for a 101, which is in the client's queue; end of input and any other answer close both |
| TunnelExact.AcceptExact | src/libaxil.c:605-667 | an accepted number is an open, unpaired, watched slot with nothing queued; one that is too large is closed at once |
| TunnelExact.CloseExact | src/libaxil.c:302-368 | closing an unpaired slot closes that one once and removes it from the four sets, and no other slot changes |
| TunnelExact.UpgradeExact | src/libaxil.c:2393-2457 | without a key, with a request that is empty or of 2048 bytes and more, or with a number too large, the upstream alone is closed; after a partial send both are; otherwise both are pending with exactly the request on the wire |
| TunnelExact.FlushFromExact | src/libaxil.c:1304-1306 | a flushing pass, for every slot: it is closed, once, exactly if its own flush or its peer's closes it; otherwise its queue has been flushed if the pass looks at it, and nothing else of it has changed |
| TunnelExact.DrainExact | src/libaxil.c:1304-1306 | with room for every backlog the pass closes exactly the slots marked to close that had one, and their peers; on every other wire is all that was written |
| TunnelLink.ServeApart | src/libaxil.c:955-1055 | serving a slot leaves every open connection untouched except that slot and its peer |
| TunnelLink.ServeShows | src/libaxil.c:955-1055 | serving any slot carries what is read across a tunnel if it is one of its ends, and otherwise leaves the tunnel as it is |
| TunnelLink.ReadsShow | src/libaxil.c:955-1055 | a whole read pass carries across a tunnel exactly what is read from its two ends, whatever other slots do |
| TunnelLink.CarryCommutes | src/libaxil.c:955-1055 | it does not matter which of the two ends has the lower number |
| TunnelLink.TurnShows | src/libaxil.c:1291-1333 | one turn, for a tunnel or a connection that is not read: both queues flushed, writable ones a module asked for flushed again, then what is ready carried across; torn down exactly if one of these does it |
| TunnelLink.LoopDrains | src/libaxil.c:1291-1333 | a turn with room for every backlog closes a connection that is not read exactly if it or its peer was marked with a backlog; otherwise all it was ever written is on the wire |
| TunnelLink.RunShows | src/libaxil.c:1285-1336 | over any run a tunnel is what its own inputs make of two connected ends: same queues, same histories, torn down exactly when they are |
| TunnelLink.TunnelEndsAtEof | src/libaxil.c:1022-1049 | a tunnel with unmarked ends for which no write meets a hard error is torn down in a run if and only if end of input is read from one of its ends |
| TunnelLink.MarkedIsClosed | src/libaxil.c:1304-1306 | a connection marked to close is closed after at most as many turns as bytes are queued, if in each the kernel takes some and nothing is read |
| Engine.Tables.constructor | src/libaxil.c:2673-2700 | the tables start as the initial state |
| Engine.Tables.RawDescrReset | src/libaxil.c:893-931 | resets one slot and nothing else |
| Engine.Tables.TunnelCloseRaw | src/libaxil.c:933-948 | the in-place teardown is the one of the state machine |
| Engine.Tables.AxilClose | src/libaxil.c:302-368 | closing in place is closing in the state machine |
| Engine.Tables.LowWriteTo | src/libaxil.c:559-594 | a write to a slot with the close it may cause; to a closed slot it fails, through an empty io entry it faults |
| Engine.Tables.WriteRemainingOf | src/libaxil.c:492-524 | a flush of a slot, with the close it may cause |
| Engine.Tables.DescrNew | src/libaxil.c:605-667 | accepting in place is accepting in the state machine |
| Engine.Tables.PairUpstream | src/libaxil.c:2393-2457 | pairing in place is pairing in the state machine |
| Engine.Tables.SendUpgrade | src/libaxil.c:2445-2453 | a partial send takes the pair down again |
| Engine.Tables.WsTunnel | src/libaxil.c:2587-2608 | both slots become a tunnel and name each other |
| Engine.Tables.ServeWaitingSlot | src/libaxil.c:984-1019 | the waiting branch in place |
| Engine.Tables.ServeTunnelSlot | src/libaxil.c:1022-1049 | the relay branch in place is the relay of the state machine, whose effect `RelayExact` states |
| Engine.Tables.EndRespond | src/libaxil.c:283-287 | marking to close, then closing or flushing |
| Engine.Tables.RunHandler | src/libaxil.c:1051-1053 | the actions of a handler in place are those of the state machine, in order |
| Engine.Tables.DescrProcReads | src/libaxil.c:955-1055 | the read loop in place is the pass of the state machine |
| Engine.Tables.FlushSlots | src/libaxil.c:872-891 | the flushing loop in place is the pass of the state machine, whose effect on every slot `FlushFromExact` states |
| Engine.Tables.MainTurn | src/libaxil.c:1291-1333 | one turn of the main loop |
| Engine.Tables.AxilMain | src/libaxil.c:1285-1336 | a whole run of the program reaches the state of the run of the state machine, and so satisfies the invariant if the run is allowed |
| PathGate.RequestPathIsSafe | src/libaxil.c:1390-1449 | accepts exactly the targets whose path is non-empty, below BUFSIZ, decodes without a bad escape to a text free of '%', and that text is absolute without bad bytes or ".." segments |
| PathGate.DecodeRound | src/libaxil.c:1401-1432 | one round is strict percent-decoding, and stops early only if decoding fails or its result has a bad byte |
| PathGate.ScanSegments | src/libaxil.c:1434-1443 | finds a ".." segment exactly if there is one |
| PathGate.BadStays | src/libaxil.c:1427-1428 | a bad byte survives a decoding round |
| PathGate.DotDotStays | src/libaxil.c:1434-1443 | a ".." segment survives a decoding round |
| PathGate.DotDotIsSegment | src/libaxil.c:1434-1443 | the declared test holds exactly if ".." is one of the segments between slashes |
| PathGate.EscapedDotsRefused | src/libaxil.c:1401-1443 | a path with a ".." segment is refused however its dots are written, as ".", "%2e" or "%2E" |
| Text.HexDigits | src/axil-encode.c:11-20 | the value of each of the 22 hexadecimal digits, and the digit that is written for each value |
| Text.HexExactly | src/axil-encode.c:11-20 | no other character is a hexadecimal digit |
| PathGate.FlawsReachTheEnd | src/libaxil.c:1400-1448 | a flaw in any round is a flaw of the fixpoint |
| PathGate.RoundVerdict | src/libaxil.c:1400-1448 | one round neither gains nor loses acceptance |
| PathGate.SafePathDecodesSafely | src/axil-encode.c:41-72 | the lenient decoding of an accepted path has no ".." segment |
| PathGate.DocumentUriIff | src/libaxil.c:2335-2357 | for accepted targets, when exactly the text after the second cut has a ".." segment |
| PathGate.DocumentUriCanHaveDots | src/libaxil.c:2335-2357 | an accepted target whose text after the second cut has one |
| Pattern.PatternMatch | src/libaxil.c:2077-2171 | matches exactly when the token matcher accepts, and then reports its literals, counts and captured segments in order |
| Pattern.AtTerminalStar | src/libaxil.c:2103-2110 | the wildcard test on the bytes holds exactly at a last "*" segment followed by at most one slash |
| Pattern.MatchSegment | src/libaxil.c:2121-2169 | consumes one segment of each text, or rejects a pair that cannot match |
| Pattern.SkipRedundant | src/libaxil.c:2084-2090 | skipping slashes does not change the tokens |
| Pattern.EnvKey | src/libaxil.c:2143-2152 | the capture key is the upper-cased name with its prefix, cut to the key buffer |
| Pattern.PathNormalization | src/libaxil.c:2083-2090 | doubled slashes, a trailing slash and the query of the path change neither verdict nor report |
| RouteSegments.ExactRoute | src/libaxil.c:2077-2171 | a route without a wildcard matches exactly the paths with as many segments, literal ones equal and named ones below 256 bytes, with at most 16 names |
| RouteSegments.StarRoute | src/libaxil.c:2103-2110 | a route that ends in "*" matches exactly the paths with at least as many segments whose first ones fit |
| RouteSegments.ExactCaptures | src/libaxil.c:2125-2160 | what is captured: each name with the segment in its place |
| RouteSegments.ReportExact | src/libaxil.c:2103-2169 | the rank of a match: whether there is a wildcard, the characters of the literal segments, the number of names |
| RouteSegments.KeyExample | src/libaxil.c:2143-2152 | ":id" is stored as PATTERN_PARAM_ID |
| Router.MatchPattern | src/libaxil.c:2177-2218 | the winner is the first of the best matches, and only its captures reach the environment |
| Router.MostSpecific | src/libaxil.c:2053-2069 | no matching route has fewer wildcards than the winner, or as many and more literal characters, or the same and fewer captures, and of equals the first registered wins |
| Router.NextRoute | src/libaxil.c:2201-2207 | one comparison keeps the best so far |
| Router.OrderIndependent | src/libaxil.c:2177-2218 | two iteration orders agree on whether and how well a route matches, and on the route unless there is a tie |
| Router.BetterIsStrict | src/libaxil.c:2053-2069 | the comparison is the strict part of the lexicographic order |
| Router.GoodIsTotalOrder | src/libaxil.c:2053-2069 | that order is total and transitive, and ties are equal ranks |
| Router.CommitParams | src/libaxil.c:2042-2051 | exactly the captures of the match are stored, later ones over earlier ones of the same key, and nothing else changes |
| Router.CapturesCommitted | src/libaxil.c:2042-2051 | afterwards exactly the keys of before and of the captures are there, each with its last capture or else its old value |
| Router.CapturesFound | src/libaxil.c:2042-2051 | with distinct names each captured segment is found under its key |
| Headers.HeadersGet | src/libaxil.c:1356-1388 | a block of lines, an empty line and a body: every line is stored, over-long ones cut, and the body is where body_start + 1 says, unchanged |
| Headers.TakeLine | src/libaxil.c:1371-1379 | the two C strings read from a finished line |
| Headers.EnvNameOf | src/libaxil.c:1340-1354 | the key is prefix and normalized name, cut to the key buffer |
| Headers.InlineKey | src/libaxil.c:232-242 | the second normalization loop computes the same key |
| Headers.KeyExact | src/libaxil.c:1340-1354 | the key letter by letter: HTTP_, letters in upper case, hyphens as underscores, the rest unchanged, at most 127 characters |
| Headers.HeaderGet | src/libaxil.c:230-256 | returns the stored value cut only by the buffer, or -1 without touching it |
| Headers.HeadersRoundTrip | src/libaxil.c:1356-1388 | printed headers are stored as exactly their keys and values |
| Headers.PutAllHolds | src/libaxil.c:596-603 | entries with distinct keys are all present and nothing else changes |
| Headers.HeaderFound | src/libaxil.c:230-256 | after a request each header is found under its name in any letter case |
| Forms.FormRoundTrip | src/libaxil.c:1479-1532 | parsing a printed form yields exactly its fields |
| Forms.ParseAndRead | src/libaxil.c:1479-1552 | whatever was parsed before, parsing a form and looking up a name returns its value, cut only by the buffer |
| Forms.QueryDb.Parse | src/libaxil.c:1479-1532 | the table is what the body says, nothing of an earlier parse is kept |
| Forms.QueryDb.Param | src/libaxil.c:1534-1552 | the value cut to the buffer, or -1 and an empty buffer |
| Forms.DecodeValue | src/libaxil.c:1506-1523 | the decoding loop computes the form decoding |
| Forms.FormDecodeMeans | src/libaxil.c:1506-1523 | plain characters, plus signs and escapes of either letter case mean the same in a form as in a URL |
| Calendar.ClosedFormCounts | src/libaxil.c:1664-1682 | for every year the closed form equals counting days by years and months |
| Calendar.YearsAgree | src/libaxil.c:1674-1679 | the era arithmetic equals the sum of the Gregorian year lengths, forwards and backwards |
| Calendar.StrictlyIncreasing | src/libaxil.c:1664-1682 | calendar order is exactly the order of the results, and equal results come from equal dates |
| Calendar.GmtimeInverse | src/libaxil.c:1664-1682 | converting a broken-down second gives that second |
| HttpDate.RoundTrip | src/libaxil.c:1599-1709 | until the end of year 9999, parsing a printed date gives the second it was printed for |
| HttpDate.Example | src/libaxil.c:1599-1625 | second 784111777 is "Sun, 06 Nov 1994 08:49:37 GMT", the date of section 7.1.1.1 of RFC 7231 |
| HttpDate.DayAfterDay | src/libaxil.c:1616 | a day later the name of the day is the next of the seven |
| HttpDate.ScanPrinted | src/libaxil.c:1684-1707 | what strftime prints, sscanf reads back field by field |
| HttpDate.MonthNumber | src/libaxil.c:1652-1662 | the search loop finds the first month of that name |
| HttpDate.MonthFound | src/libaxil.c:1637-1662 | every month is found by its name in any letter case |
| HttpDate.HttpDateParse | src/libaxil.c:1684-1709 | the result is that of the declared parser, day numbers wrapping as unsigned |
| HttpDate.DateCache.HttpDate | src/libaxil.c:1599-1625 | after any history of the cache the buffer gets the date of the requested second |
| HttpDate.DateCache.OwnDateNotModified | src/libaxil.c:1911-1919 | a client that returns a file's own date meets the condition for 304 |
| WebSocket.FramesDecode | src/ws.c:121-150 | the stream of server frames determines the payloads |
| WebSocket.FrameParses | test-ws.py:47-75 | a server frame followed by anything is read as one final binary message |
| WebSocket.WsFrame | src/ws.c:121-148 | the buffer holds the frame of the payload |
| WebSocket.WsWrite | src/ws.c:121-150 | the kernel gets a prefix of the frame, and a short write is reported exactly if there was no room for all of it |
| WebSocket.BufferedSocket.RecvExact | test-ws.py:10-17 | gives the next bytes of the stream however it is cut into chunks, or nothing if it ends early |
| WebSocket.BufferedSocket.RecvFrame | test-ws.py:47-75 | reads exactly the first frame of the stream |
| WebSocket.BufferedSocket.RecvAll | test-ws.py:165-183 | repeated reading gives the frames of the stream up to its end or a close frame |
| WebSocket.ReceivePayloads | test-ws.py:33-75 | for any chunking the client reads back the payloads the server wrote |
| WebSocket.FrameReader.WsRead | src/ws.c:161-229 | returns the unmasked payload, leaves the frame state zero and the input after the frame; close, end of input and incomplete frames give 0 or -1 |
| WebSocket.FrameReader.Unmask | src/ws.c:218-219 | the in-place loop is exclusive or with the repeated key, which `MaskedBits` states bit by bit |
| WebSocket.ServerReadsClientFrame | test-ws.py:78-94 | what the client sends in one frame of 1 to 125 bytes the server returns |
| WebSocket.MaskTwice | src/ws.c:218-219 | masking twice is the identity |
| WebSocket.XorTwice | src/ws.c:218-219 | exclusive or undoes itself |
| WebSocket.XorBits | src/ws.c:218-221 | bit j of the result is set exactly where bit j of the two operands differs |
| WebSocket.MaskedBits | src/ws.c:218-221 | masking flips exactly the bits that are set in the key byte of the position modulo four |
| WebSocket.BinaryFrame | src/ws.c:121-148 | 256 bytes of binary data are framed as in section 5.7 of RFC 6455 |
| Base64.RoundTrip | src/ws.c:40-77 | a strict decoder inverts the encoding for byte strings of every length |
| Base64.Alphabet | src/ws.c:45-46 | the character of each of the 64 values |
| Base64.TestVectors | src/ws.c:40-77 | the first test vectors of section 10 of RFC 4648 |
| Base64.PaddingExact | src/ws.c:65-72 | the padding is exactly what the length demands |
| Base64.Picks | src/ws.c:57-72 | the masks of the 24-bit word pick the four sextets |
| Base64.B64Ntop | src/ws.c:40-77 | writes the encoding and a NUL and nothing behind them, or fails without writing |
| Escape.UrlRoundTrip | src/axil-encode.c:22-72 | decoding undoes encoding for every byte string |
| Escape.EncodedExactly | src/axil-encode.c:22-39 | exactly the unreserved characters stand for themselves; the others are written as two upper-case hexadecimal digits |
| Escape.UrlDecodeMeans | src/axil-encode.c:41-72 | any text of plain characters, plus signs and escapes of either letter case decodes to what these stand for |
| Escape.LonePercent | src/axil-encode.c:41-72 | a "%" without two digits behind it stands for itself |
| Escape.EncodeDecodePrefix | src/axil-encode.c:22-72 | what fits a buffer decodes to a prefix of the input, all of it when there is room |
| Escape.AxilUrlEncode | src/axil-encode.c:22-39 | writes the encoding of the longest prefix its guard allows, whole escapes only |
| Escape.AxilUrlDecode | src/axil-encode.c:41-72 | writes the decoded text, cut only by the buffer |
| Escape.JsonRoundTrip | src/axil-encode.c:74-104 | a strict reader of JSON strings recovers every byte string |
| Escape.JsonExactly | src/axil-encode.c:81-99 | the escape of each character, short for five and \u00XX for the other control characters |
| Escape.JsonWhole | src/axil-encode.c:78-99 | nothing is left out when the buffer has two spare bytes |
| Escape.AxilJsonEscape | src/axil-encode.c:74-104 | stops at the first character whose escape might not fit, never inside one |
| Rules.Mapping.CachePolicy | src/axil-posix.c:328-352 | every call answers from the original file, and the mapping still differs from it only by newlines turned into NULs |
| Rules.Mapping.MmapIter | src/axil-posix.c:136-144 | finds the line of the original file at this position |
| Rules.Mapping.TryLine | src/axil-posix.c:338-348 | splits, matches and restores one line |
| Rules.DirectiveIsFirst | src/axil-posix.c:328-352 | the answer is that of the first applicable rule, or no rule applies |
| Rules.LinesExact | src/axil-posix.c:136-144 | lines are what newlines separate, and one at the end starts no line |
| Rules.StripExact | src/axil-posix.c:319-326 | stripping removes every CR and LF and nothing else |
| Rules.CacheDirectiveCopy | src/axil-posix.c:319-326 | the directive without CR and LF, cut to the buffer |

## Left out

- TLS, `select` errors and the SSL listener: foreign calls; only the plain listener is modelled.
- DF_EXTERN descriptors, pseudo-terminals, `axil_exec` and command dispatch other than HTTP handlers: operating-system effects.
- Handlers and modules that write to, close or set flags of other descriptors than the one they serve (`axil_wall`, `axil_clear_active`): every action is on the served slot.
- DF_ACCEPTED and DF_HEAD: a slot that is no longer read because its flags were overwritten is one on which nothing more happens.
- Upgraded connections (`axil_ws_upgrade`): their writes go through `ws_write`, which bypasses the output queue, and `axil_close` sends them a close frame; also the hooks that `axil_close` calls.
- Shrinking and growing of the shared input buffer, and overflow of `size_t`.
- The connection engine uses the FIFO for each descriptor, not a buffer object; that the buffer implements the FIFO is proved in `OutputQueue`.
- OutputQueue.OutputBuffer.LowWrite: requires that growing terminates; `GrowthTerminatesIff` says when.
- OutputQueue.OutputBuffer.MayInc: requires the same, as the loop has no result otherwise.
- WebSocket.FrameReader.WsRead: from a state between two frames and for lengths below 126; extended lengths are read in host byte order and resumption after a short read loses the length.
- WebSocket.WsFrame: payloads below 65536 bytes and the flags set by `ws_init`; longer frames write their length in the wrong half of eight bytes.
- WebSocket.WsWrite: the same payloads and flags.
- Headers.HeadersGet: blocks that end in an empty line, whose lines do not end in their first colon; otherwise the scan can step over the terminating NUL.
- HttpDate.HttpDateParse: numbers that do not fit an int, where sscanf is undefined.
- WebSocket.BufferedSocket.RecvAll: the deadline and the marker text at which the loops of the client also stop.
- HttpDate.DateCache.HttpDate: times from 1970 to 9999 and buffers of at least 30 bytes; gmtime, strftime and sscanf are modelled for the formats used.
- Forms.QueryDb.Parse: a '%' pair that is not two hexadecimal digits gives any character that depends on the rest of the value, as sscanf skips blanks; the code leaves a variable unset there.
- ETag comparison, the choice of static files, directory listings, redirects and authentication, and slugs: they depend on the file system, `fnmatch` or locale; what these answers do to their slot is in `Replies`.
- Windows stubs, the command line and the status table.
