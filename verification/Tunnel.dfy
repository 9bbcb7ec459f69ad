// The connection engine as a state machine over descriptor slots: the values
// that every operation of class `Engine` is specified by.
module Tunnel {
  import opened Fifo
  import opened Wrappers

  const NONE := -1  // INVALID_SOCKET

  datatype Flags = Flags(toClose: bool, tunnel: bool, waiting: bool, pending: bool) {
    /** Any of DF_TUNNEL, DF_WS_PROXY_PENDING, DF_WS_WAITING. */
    predicate Paired() { tunnel || waiting || pending }
  }

  /** One slot of `descr_map`.  `out` is its output queue.  `base` and `rx` are
      history: what had been written to this connection when it joined its
      peer, and the bytes read from it for the peer since. */
  datatype Descr = Descr(fd: int, flags: Flags, out: Queue, base: seq<Byte>, rx: seq<Byte>)

  const NO_FLAGS := Flags(false, false, false, false)
  const DEAD := Descr(NONE, NO_FLAGS, EMPTY, [], [])

  /** `io` holds the slots whose entry in the `io` table is filled in.
      `opens` and `closes` count, per number, the descriptors the kernel
      handed out and the close(2) calls made; `fault` records a call through
      an empty `io` entry, a null function pointer. */
  datatype State = State(descr: seq<Descr>, pair: seq<int>, io: set<int>,
                         active: set<int>, wactive: set<int>, read: set<int>, write: set<int>,
                         srv: int, opens: multiset<int>, closes: multiset<int>, fault: bool) {
    predicate Sized() { |descr| == |pair| }
    predicate Slot(i: int) { 0 <= i < |descr| && i < |pair| }
    predicate Live(i: int) requires Slot(i) { descr[i].fd == i }
    /** The peer `axil_tunnel_close_raw` would also tear down. */
    predicate HasPeer(i: int) requires Slot(i) { Slot(pair[i]) && pair[i] != i }
  }

  /** What the program starts from: `descr_map` is zeroed static storage, so
      slot 0 already carries its own number; the listener is bound and watched. */
  function Init(size: nat, srv: int): (s: State)
    requires 0 < srv < size
    ensures s.Sized() && |s.descr| == size && s.srv == srv
  {
    var zero := DEAD.(fd := 0);
    State(seq(size, i => if i == srv then zero.(fd := srv) else zero), seq(size, i => NONE), {},
          {srv}, {}, {}, {}, srv, multiset{}, multiset{}, false)
  }

  // ---- Teardown ----

  /** The end of `axil_close`, which leaves the `io` entry as it is. */
  function Reset(s: State, i: int): (t: State)
    requires s.Sized() && s.Slot(i)
    ensures t.Sized() && |t.descr| == |s.descr| && t.srv == s.srv
  {
    s.(descr := s.descr[i := DEAD], pair := s.pair[i := NONE],
       active := s.active - {i}, wactive := s.wactive - {i},
       read := s.read - {i}, write := s.write - {i},
       closes := s.closes + multiset{i})
  }

  /** `axil_raw_descr_reset`. */
  function RawReset(s: State, i: int): (t: State)
    requires s.Sized() && s.Slot(i)
    ensures t.Sized() && |t.descr| == |s.descr| && t.srv == s.srv
  {
    Reset(s.(io := s.io - {i}), i)
  }

  /** `axil_tunnel_close_raw`. */
  function CloseRaw(s: State, i: int): (t: State)
    requires s.Sized() && s.Slot(i)
    ensures t.Sized() && |t.descr| == |s.descr| && t.srv == s.srv
  {
    if s.HasPeer(i) then
      var unlinked := s.(pair := s.pair[i := NONE][s.pair[i] := NONE]);
      RawReset(RawReset(unlinked, i), s.pair[i])
    else
      RawReset(s.(pair := s.pair[i := NONE]), i)
  }

  /** `axil_close`. */
  function Close(s: State, i: int): (t: State)
    requires s.Sized()
    ensures t.Sized() && |t.descr| == |s.descr| && t.srv == s.srv
  {
    if !s.Slot(i) then s
    else if s.descr[i].flags.Paired() then CloseRaw(s, i)
    else Reset(s, i)
  }

  // ---- Writing ----

  function SetOut(s: State, i: int, q: Queue): (t: State)
    requires s.Sized() && s.Slot(i)
    ensures t.Sized() && |t.descr| == |s.descr| && t.srv == s.srv
  {
    s.(descr := s.descr[i := s.descr[i].(out := q)])
  }

  /** `axil_write` on slot `i`: through `io[i].write`, and so `axil_low_write`,
      if the entry is there.  The number of a slot that was closed is not open
      any more, so writing to it fails with EBADF. */
  function LowWrite(s: State, i: int, data: seq<Byte>, r: Outcome): (t: State)
    requires s.Sized() && s.Slot(i)
    ensures t.Sized() && |t.descr| == |s.descr| && t.srv == s.srv
  {
    var d := s.descr[i];
    var t := SetOut(s, i, Send(d.out, data, r));
    if i !in s.io then s.(fault := true)
    else if !s.Live(i) then s
    else if SendCloses(d.out, d.flags.toClose, data, r) then Close(t, i) else t
  }

  /** `axil_write_remaining` on slot `i`. */
  function WriteRemaining(s: State, i: int, r: Outcome): (t: State)
    requires s.Sized() && s.Slot(i)
    ensures t.Sized() && |t.descr| == |s.descr| && t.srv == s.srv
  {
    var d := s.descr[i];
    if d.out.pending == [] then s
    else
      var t := SetOut(s, i, Flush(d.out, r));
      if FlushCloses(d.out, d.flags.toClose, r) then Close(t, i) else t
  }

  // ---- New connections ----

  /** `descr_new` when accept(2) returns `fd`. */
  function Accept(s: State, fd: int): (t: State)
    requires s.Sized()
    ensures t.Sized() && |t.descr| == |s.descr| && t.srv == s.srv
  {
    if fd <= 0 then s
    else if !s.Slot(fd) then OpenAndClose(s, fd)
    else s.(descr := s.descr[fd := DEAD.(fd := fd)], io := s.io + {fd}, active := s.active + {fd},
            opens := s.opens + multiset{fd})
  }

  function OpenAndClose(s: State, fd: int): (t: State)
    ensures s.Sized() ==> t.Sized() && |t.descr| == |s.descr| && t.srv == s.srv
  {
    s.(opens := s.opens + multiset{fd}, closes := s.closes + multiset{fd})
  }

  const REQ_BUF := 2048

  /** The pairing part of `request_handle`: the handler connected `up` for
      client `i`; `req` is the formatted upgrade request. */
  function Proxy(s: State, i: int, up: int, hasKey: bool, req: seq<Byte>, sent: Outcome): (t: State)
    requires s.Sized() && s.Slot(i)
    ensures t.Sized() && |t.descr| == |s.descr| && t.srv == s.srv
  {
    if up == NONE then s
    else if !hasKey || req == [] || |req| >= REQ_BUF || !s.Slot(up) then OpenAndClose(s, up)
    else SendRequest(Join(s, i, up, req), up, req, sent)
  }

  /** The request is sent; unless all of it is, the pair is taken down again. */
  function SendRequest(s: State, up: int, req: seq<Byte>, sent: Outcome): (t: State)
    requires s.Sized() && s.Slot(up)
    ensures t.Sized() && |t.descr| == |s.descr| && t.srv == s.srv
  {
    var k := if sent.Room? then Min(sent.n, |req|) else 0;
    var t := SetOut(s, up, Queue([], req[..k], false));
    if k < |req| || !sent.Room? then CloseRaw(t, up) else t
  }

  /** Lines 2432-2443: both ends enter the pending pair. */
  function Join(s: State, i: int, up: int, req: seq<Byte>): (t: State)
    requires s.Sized() && s.Slot(i) && s.Slot(up)
    ensures t.Sized() && |t.descr| == |s.descr| && t.srv == s.srv
  {
    var d0 := s.descr[up := Descr(up, NO_FLAGS, EMPTY, req, [])];
    var d1 := d0[i := d0[i].(flags := d0[i].flags.(pending := true))];
    var d2 := d1[up := d1[up].(flags := d1[up].flags.(waiting := true, pending := true))];
    s.(descr := d2, pair := s.pair[i := up][up := i], io := s.io + {up},
       active := s.active + {up}, opens := s.opens + multiset{up})
  }

  /** `axil_ws_tunnel`. */
  function Enter(s: State, a: int, b: int): (t: State)
    requires s.Sized() && s.Slot(a) && s.Slot(b)
    ensures t.Sized() && |t.descr| == |s.descr| && t.srv == s.srv
  {
    var d := s.descr[a := Tunneled(s.descr[a])];
    s.(descr := d[b := Tunneled(d[b])], active := s.active + {a, b},
       pair := s.pair[a := b][b := a])
  }

  function Tunneled(d: Descr): Descr {
    d.(flags := Flags(d.flags.toClose, true, false, false))
  }

  // ---- One readable slot ----

  /** What the code behind a readable slot in normal mode does to that slot:
      a handler, `axil_respond` and the request checks are lists of these. */
  datatype Act =
    | Emit(data: seq<Byte>, room: Outcome)   // axil_write
    | Mark                                   // flags |= DF_TO_CLOSE
    | Overwrite                              // axil_set_flags(fd, DF_TO_CLOSE)
    | Settle(flush: Outcome)                 // the end of axil_respond
    | CloseIfEmpty                           // if (!remaining_len) axil_close(fd)
    | CloseIfMarked                          // the same, if DF_TO_CLOSE is set
    | CloseNow                               // axil_close(fd)

  /** `Handle([CloseNow])` is also what end of input and read errors do. */
  datatype App =
    | Handle(acts: seq<Act>)
    | Upgrade(up: int, hasKey: bool, req: seq<Byte>, sent: Outcome)

  /** Everything the outside world may answer while a slot is served. */
  datatype Input = Input(fd: int, data: seq<Byte>, room: Outcome, app: App)

  predicate Is101(data: seq<Byte>) {
    |data| >= 12 &&
    data[..12] == [72, 84, 84, 80, 47, 49, 46, 49, 32, 49, 48, 49]  // "HTTP/1.1 101"
  }

  /** The test at lines 995-998 that the peer is the client waiting for us. */
  predicate GoodPeer(s: State, i: int)
    requires s.Sized() && s.Slot(i)
  {
    s.HasPeer(i) && s.Live(s.pair[i]) && s.pair[s.pair[i]] == i && s.descr[s.pair[i]].flags.pending
  }

  /** History bookkeeping of lines 1006-1011: the tunnel starts from what the
      client has been sent so far, with the answer as the first relayed bytes. */
  function MarkStart(s: State, client: int, up: int, data: seq<Byte>): (t: State)
    requires s.Sized() && s.Slot(client) && s.Slot(up)
    ensures t.Sized() && |t.descr| == |s.descr| && t.srv == s.srv
  {
    var c := s.descr[client];
    var d := s.descr[client := c.(out := c.out.(lost := false), base := c.out.Stream(), rx := [])];
    s.(descr := d[up := d[up].(rx := data)])
  }

  /** Upstream data arrives while its 101 is awaited (lines 985-1019). */
  function ServeWaiting(s: State, i: int, data: seq<Byte>, r: Outcome): (t: State)
    requires s.Sized() && s.Slot(i)
    ensures t.Sized() && |t.descr| == |s.descr| && t.srv == s.srv
  {
    if data == [] || !GoodPeer(s, i) then CloseRaw(s, i)
    else
      var peer := s.pair[i];
      if Is101(data) then Enter(LowWrite(MarkStart(s, peer, i, data), peer, data, r), peer, i)
      else CloseRaw(LowWrite(s, peer, data, r), i)
  }

  /** Raw relay (lines 1022-1049). */
  function ServeTunnel(s: State, i: int, data: seq<Byte>, r: Outcome): (t: State)
    requires s.Sized() && s.Slot(i)
    ensures t.Sized() && |t.descr| == |s.descr| && t.srv == s.srv
  {
    if data == [] || !s.HasPeer(i) || !s.Live(s.pair[i]) then CloseRaw(s, i)
    else
      var t := s.(descr := s.descr[i := s.descr[i].(rx := s.descr[i].rx + data)]);
      LowWrite(t, s.pair[i], data, r)
  }

  /** The normal path: the list of actions, or pairing with an upstream. */
  function ServeNormal(s: State, i: int, app: App): (t: State)
    requires s.Sized() && s.Slot(i)
    ensures t.Sized() && |t.descr| == |s.descr| && t.srv == s.srv
  {
    match app
    case Handle(acts) => Perform(s, i, acts)
    case Upgrade(up, hasKey, req, sent) => Proxy(s, i, up, hasKey, req, sent)
  }

  function Perform(s: State, i: int, acts: seq<Act>): (t: State)
    requires s.Sized() && s.Slot(i)
    ensures t.Sized() && |t.descr| == |s.descr| && t.srv == s.srv
    decreases |acts|
  {
    if acts == [] then s else Perform(Do(s, i, acts[0]), i, acts[1..])
  }

  /** None of these looks whether the slot is still its own. */
  function Do(s: State, i: int, a: Act): (t: State)
    requires s.Sized() && s.Slot(i)
    ensures t.Sized() && |t.descr| == |s.descr| && t.srv == s.srv
  {
    var d := s.descr[i];
    match a
    case Emit(data, r) => LowWrite(s, i, data, r)
    case Mark => SetFlags(s, i, d.flags.(toClose := true))
    case Overwrite => SetFlags(s, i, NO_FLAGS.(toClose := true))
    case Settle(r) =>
      var t := SetFlags(s, i, d.flags.(toClose := true));
      if d.out.pending == [] then Close(t, i) else WriteRemaining(t, i, r)
    case CloseIfEmpty => if d.out.pending == [] then Close(s, i) else s
    case CloseIfMarked => if d.flags.toClose && d.out.pending == [] then Close(s, i) else s
    case CloseNow => Close(s, i)
  }

  function SetFlags(s: State, i: int, f: Flags): (t: State)
    requires s.Sized() && s.Slot(i)
    ensures t.Sized() && |t.descr| == |s.descr| && t.srv == s.srv
  {
    s.(descr := s.descr[i := s.descr[i].(flags := f)])
  }

  /** One turn of the loop in `descr_proc_reads`. */
  function Serve(s: State, i: int, x: Input): (t: State)
    requires s.Sized() && s.Slot(i)
    ensures t.Sized() && |t.descr| == |s.descr| && t.srv == s.srv
  {
    if i !in s.read then s
    else if i == s.srv then Accept(s, x.fd)
    else if !s.Live(i) then s
    else if s.descr[i].flags.waiting then ServeWaiting(s, i, x.data, x.room)
    else if s.descr[i].flags.tunnel then ServeTunnel(s, i, x.data, x.room)
    else ServeNormal(s, i, x.app)
  }

  // ---- Whole passes and runs ----

  /** `descr_proc_reads` from slot `i` on. */
  function ProcReads(s: State, i: nat, xs: seq<Input>): (t: State)
    requires s.Sized() && i <= |s.descr| == |xs|
    ensures t.Sized() && |t.descr| == |s.descr| && t.srv == s.srv
    decreases |xs| - i
  {
    if i == |xs| then s else ProcReads(Serve(s, i, xs[i]), i + 1, xs)
  }

  /** The body of the flushing loops: the one in `axil_main` looks at every
      slot, `descr_proc_writes` only at writable ones other than the listener. */
  function FlushSlot(s: State, i: int, r: Outcome, onlyWritable: bool): (t: State)
    requires s.Sized() && s.Slot(i)
    ensures t.Sized() && |t.descr| == |s.descr| && t.srv == s.srv
  {
    if onlyWritable && (i !in s.write || i == s.srv) then s else WriteRemaining(s, i, r)
  }

  /** From slot `i` on. */
  function FlushFrom(s: State, i: nat, rs: seq<Outcome>, onlyWritable: bool): (t: State)
    requires s.Sized() && i <= |s.descr| == |rs|
    ensures t.Sized() && |t.descr| == |s.descr| && t.srv == s.srv
    decreases |rs| - i
  {
    if i == |rs| then s else FlushFrom(FlushSlot(s, i, rs[i], onlyWritable), i + 1, rs, onlyWritable)
  }

  /** One turn of the loop in `axil_main`: what select(2) reports ready, the
      slots a module marked for writing, and the answers during each pass. */
  datatype Turn = Turn(marked: set<int>, drain: seq<Outcome>, ready: set<int>, writable: set<int>,
                       some: bool, flush: seq<Outcome>, inputs: seq<Input>)

  predicate Fits(size: nat, t: Turn) {
    size == |t.drain| == |t.flush| == |t.inputs|
  }

  function Select(s: State, ready: set<int>, writable: set<int>): State {
    s.(read := s.active * ready, write := s.wactive * writable)
  }

  /** Modules may mark live slots for writing at any time between turns. */
  function BeforeDrain(s: State, t: Turn): (u: State)
    requires s.Sized()
    ensures u.Sized() && |u.descr| == |s.descr| && u.srv == s.srv
  {
    s.(wactive := s.wactive + set i | i in t.marked && s.Slot(i) && 0 < i && s.Live(i) :: i)
  }

  /** The state in which `descr_proc_reads` starts, if it runs. */
  function BeforeReads(s: State, t: Turn): (u: State)
    requires s.Sized() && Fits(|s.descr|, t)
    ensures u.Sized() && |u.descr| == |s.descr| && u.srv == s.srv
  {
    var s1 := FlushFrom(BeforeDrain(s, t), 0, t.drain, false);
    var s2 := Select(s1, t.ready, t.writable);
    if t.some then FlushFrom(s2, 0, t.flush, true) else s2
  }

  function Loop(s: State, t: Turn): (u: State)
    requires s.Sized() && Fits(|s.descr|, t)
    ensures u.Sized() && |u.descr| == |s.descr| && u.srv == s.srv
  {
    if t.some then ProcReads(BeforeReads(s, t), 0, t.inputs) else BeforeReads(s, t)
  }

  // ---- What is assumed of the outside world ----

  /** The kernel never hands out a number that is still open here. */
  predicate Fresh(s: State, fd: int) {
    0 < fd && (s.Slot(fd) ==> !s.Live(fd))
  }

  /** What the kernel answers while slot `i` is served: fresh numbers. */
  predicate KernelOk(s: State, i: int, x: Input)
    requires s.Sized() && s.Slot(i)
  {
    i in s.read && s.Live(i) ==>
      if i == s.srv then x.fd <= 0 || Fresh(s, x.fd)
      else if s.descr[i].flags.waiting || s.descr[i].flags.tunnel || x.app.Handle? then true
      else x.app.up == NONE || (Fresh(s, x.app.up) && x.app.up != i)
  }

  /** What clients and handlers must not do: forwarding the upstream's answer
      must not meet a backlog whose flush closes the client; a handler leaves
      a slot alone that is closed, and the flags of one that is paired; and a
      client asks for no second upgrade while one is pending (section 4.1 of
      RFC 6455). */
  predicate Polite(s: State, i: int, x: Input)
    requires s.Sized() && s.Slot(i)
  {
    i in s.read && s.Live(i) && i != s.srv ==>
      if s.descr[i].flags.waiting then AnswerFits(s, i, x.data, x.room)
      else if s.descr[i].flags.tunnel then true
      else match x.app
        case Handle(acts) => ActsOk(s, i, acts)
        case Upgrade(_, _, _, _) => Pairs(s, x.app) ==> s.pair[i] == NONE
  }

  predicate Allowed(s: State, i: int, x: Input)
    requires s.Sized() && s.Slot(i)
  {
    KernelOk(s, i, x) && Polite(s, i, x)
  }

  predicate ActOk(s: State, i: int, a: Act)
    requires s.Sized() && s.Slot(i)
  {
    if s.Live(i) then a.Overwrite? ==> s.pair[i] == NONE
    else a.CloseIfMarked? || (a.Emit? && i in s.io)
  }

  predicate ActsOk(s: State, i: int, acts: seq<Act>)
    requires s.Sized() && s.Slot(i)
    decreases |acts|
  {
    acts != [] ==> ActOk(s, i, acts[0]) && ActsOk(Do(s, i, acts[0]), i, acts[1..])
  }

  /** The upgrade gets as far as linking the two slots. */
  predicate Pairs(s: State, a: App)
    requires a.Upgrade?
  {
    a.up != NONE && a.hasKey && 0 < |a.req| < REQ_BUF && s.Slot(a.up)
  }

  predicate AnswerFits(s: State, i: int, data: seq<Byte>, r: Outcome)
    requires s.Sized() && s.Slot(i)
  {
    data != [] && GoodPeer(s, i) ==>
      var c := s.descr[s.pair[i]];
      !SendCloses(c.out, c.flags.toClose, data, r)
  }

  predicate AllowedFrom(s: State, i: nat, xs: seq<Input>)
    requires s.Sized() && i <= |s.descr| == |xs|
    decreases |xs| - i
  {
    i == |xs| || (Allowed(s, i, xs[i]) && AllowedFrom(Serve(s, i, xs[i]), i + 1, xs))
  }

  predicate AllowedTurn(s: State, t: Turn)
    requires s.Sized() && Fits(|s.descr|, t)
  {
    t.some ==> AllowedFrom(BeforeReads(s, t), 0, t.inputs)
  }

  /** The same of the kernel alone. */
  predicate KernelFrom(s: State, i: nat, xs: seq<Input>)
    requires s.Sized() && i <= |s.descr| == |xs|
    decreases |xs| - i
  {
    i == |xs| || (KernelOk(s, i, xs[i]) && KernelFrom(Serve(s, i, xs[i]), i + 1, xs))
  }

  predicate KernelTurn(s: State, t: Turn)
    requires s.Sized() && Fits(|s.descr|, t)
  {
    t.some ==> KernelFrom(BeforeReads(s, t), 0, t.inputs)
  }

  // ---- Runs of the program ----

  predicate AllFit(size: nat, turns: seq<Turn>) {
    forall k :: 0 <= k < |turns| ==> Fits(size, turns[k])
  }

  function Execute(size: nat, srv: int, turns: seq<Turn>): (s: State)
    requires 0 < srv < size && AllFit(size, turns)
    ensures s.Sized() && |s.descr| == size && s.srv == srv
  {
    if turns == [] then Init(size, srv)
    else Loop(Execute(size, srv, turns[..|turns|-1]), turns[|turns|-1])
  }

  /** The outside world kept to the assumptions throughout the run. */
  predicate AllowedRun(size: nat, srv: int, turns: seq<Turn>)
    requires 0 < srv < size && AllFit(size, turns)
  {
    turns == [] ||
    (AllowedRun(size, srv, turns[..|turns|-1]) &&
     AllowedTurn(Execute(size, srv, turns[..|turns|-1]), turns[|turns|-1]))
  }

  predicate KernelRun(size: nat, srv: int, turns: seq<Turn>)
    requires 0 < srv < size && AllFit(size, turns)
  {
    turns == [] ||
    (KernelRun(size, srv, turns[..|turns|-1]) &&
     KernelTurn(Execute(size, srv, turns[..|turns|-1]), turns[|turns|-1]))
  }
}
