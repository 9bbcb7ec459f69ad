// What every step of the connection engine keeps, and what that gives for
// whole runs.
module TunnelProofs {
  import opened Fifo
  import opened Wrappers
  import opened Tunnel

  // ---- The invariant ----

  /** A pair is either pending, with exactly one waiting end, or a tunnel. */
  predicate SamePhase(f: Flags, g: Flags) {
    if f.tunnel then g.tunnel && !f.waiting && !f.pending && !g.waiting && !g.pending
    else !g.tunnel && f.pending && g.pending && f.waiting != g.waiting
  }

  predicate Reserved(s: State, i: int) { i == 0 || i == s.srv }

  /** `tunnel_pair` is symmetric at `i`, has no fixed point there, and agrees
      with the flags; a paired slot is live. */
  predicate LinkOk(s: State, i: int)
    requires s.Sized() && s.Slot(i)
  {
    var p := s.pair[i];
    && (p != NONE ==> s.Slot(p) && p != i && s.pair[p] == i)
    && (p != NONE <==> s.descr[i].flags.Paired())
    && (p != NONE ==> s.Live(i) && !Reserved(s, i) && SamePhase(s.descr[i].flags, s.descr[p].flags))
  }

  predicate SlotOk(s: State, i: int)
    requires s.Sized() && s.Slot(i)
  {
    var d := s.descr[i];
    && LinkOk(s, i)
    && (!s.Live(i) ==> d.flags == NO_FLAGS && d.out.pending == [] && d.rx == [])
    && (Reserved(s, i) ==> s.Live(i) && d.flags == NO_FLAGS && d.out.pending == [])
    && (s.Live(i) && !Reserved(s, i) ==> i in s.io)
    && (!Reserved(s, i) ==> s.opens[i] == s.closes[i] + if s.Live(i) then 1 else 0)
  }

  predicate Delivered(d: Descr, relayed: seq<Byte>) {
    var sent := d.base + relayed;
    if d.out.lost then |d.out.Stream()| < |sent| else d.out.Stream() == sent
  }

  /** The bytes relayed towards slot `i` arrived in its output stream in order,
      with none dropped, if and only if no direct write to it failed. */
  predicate FlowOk(s: State, i: int)
    requires s.Sized() && s.Slot(i) && LinkOk(s, i)
  {
    var d := s.descr[i];
    if d.flags.tunnel then Delivered(d, s.descr[s.pair[i]].rx)
    else
      d.rx == [] && (d.flags.waiting ==> d.out == Queue([], d.base, false))
  }

  /** Exactly the live slots are watched; the other sets are part of these. */
  ghost predicate SetsOk(s: State) {
    && (forall i :: i in s.active <==> s.Slot(i) && s.Live(i) && 0 < i)
    && s.wactive + s.read + s.write <= s.active
  }

  ghost predicate Inv(s: State) {
    && s.Sized() && 0 < s.srv < |s.descr| && !s.fault
    && SetsOk(s)
    && (forall i {:trigger SlotOk(s, i)} {:trigger FlowOk(s, i)} :: s.Slot(i) ==> SlotOk(s, i) && FlowOk(s, i))
    && (forall i {:trigger s.opens[i]} {:trigger s.closes[i]} :: 0 < i && !s.Slot(i) ==> s.opens[i] == s.closes[i])
  }

  // ---- Steps that leave a slot alone ----

  predicate Untouched(s: State, t: State, j: int)
    requires s.Sized() && t.Sized() && |t.descr| == |s.descr| && s.Slot(j)
  {
    && t.descr[j] == s.descr[j] && t.pair[j] == s.pair[j] && (j in t.io <==> j in s.io)
    && t.opens[j] == s.opens[j] && t.closes[j] == s.closes[j]
  }

  /** A slot that is untouched, and its peer too, is as right as before. */
  lemma Framed(s: State, t: State, j: int)
    requires Inv(s) && s.Slot(j) && t.Sized() && |t.descr| == |s.descr| && t.srv == s.srv && Untouched(s, t, j)
    requires s.pair[j] != NONE ==> s.Slot(s.pair[j]) && Untouched(s, t, s.pair[j])
    ensures SlotOk(t, j) && FlowOk(t, j)
  {
    assert SlotOk(s, j) && FlowOk(s, j);
  }

  lemma CloseApart(s: State, i: int, j: int)
    requires s.Sized() && s.Slot(i) && s.Slot(j) && j != i && j != s.pair[i]
    ensures Untouched(s, Close(s, i), j) && Untouched(s, CloseRaw(s, i), j)
  {
  }

  lemma JoinApart(s: State, i: int, up: int, req: seq<Byte>, q: Queue, j: int)
    requires s.Sized() && s.Slot(i) && s.Slot(up) && s.Slot(j) && j != i && j != up && up != i
    ensures var t := SetOut(Join(s, i, up, req), up, q);
            Untouched(s, t, j) && t.pair[up] == i && Untouched(s, CloseRaw(t, up), j)
  {
    CloseApart(SetOut(Join(s, i, up, req), up, q), up, j);
  }

  // ---- Steps ----

  lemma ResetKeeps(s: State, i: int)
    requires Inv(s) && s.Slot(i) && s.Live(i) && !Reserved(s, i) && s.pair[i] == NONE
    ensures Inv(Reset(s, i))
  {
    var t := Reset(s, i);
    forall j | t.Slot(j) ensures SlotOk(t, j) && FlowOk(t, j) {
      assert SlotOk(s, j) && FlowOk(s, j);
    }
  }

  lemma CloseRawKeeps(s: State, i: int)
    requires Inv(s) && s.Slot(i) && s.pair[i] != NONE
    ensures Inv(CloseRaw(s, i))
  {
    var p, t := s.pair[i], CloseRaw(s, i);
    assert SlotOk(s, i) && SlotOk(s, p);
    ClosedEnds(s, i, p);
    forall j | t.Slot(j) ensures SlotOk(t, j) && FlowOk(t, j) {
      assert SlotOk(s, j);
      if j != i && j != p {
        CloseApart(s, i, j);
        if s.pair[j] != NONE {
          CloseApart(s, i, s.pair[j]);
        }
        Framed(s, t, j);
      }
    }
  }

  /** Both ends of the pair are clean afterwards. */
  lemma ClosedEnds(s: State, i: int, p: int)
    requires Inv(s) && s.Slot(i) && s.Slot(p) && p != i && s.pair[i] == p && s.pair[p] == i
    ensures var t := CloseRaw(s, i);
            SetsOk(t) && SlotOk(t, i) && FlowOk(t, i) && SlotOk(t, p) && FlowOk(t, p)
  {
    assert SlotOk(s, i) && SlotOk(s, p);
  }

  lemma CloseKeeps(s: State, i: int)
    requires Inv(s) && s.Slot(i) && s.Live(i) && !Reserved(s, i)
    ensures Inv(Close(s, i))
  {
    assert SlotOk(s, i);
    if s.descr[i].flags.Paired() {
      CloseRawKeeps(s, i);
    } else {
      ResetKeeps(s, i);
    }
  }

  /** Replacing a queue by one with the same stream keeps everything. */
  lemma SetOutKeeps(s: State, i: int, q: Queue)
    requires Inv(s) && s.Slot(i) && s.Live(i) && !Reserved(s, i)
    requires s.descr[i].flags.waiting ==> q == s.descr[i].out
    requires s.descr[i].flags.tunnel ==> q.Stream() == s.descr[i].out.Stream() && q.lost == s.descr[i].out.lost
    ensures Inv(SetOut(s, i, q))
  {
    var t := SetOut(s, i, q);
    forall j | t.Slot(j) ensures SlotOk(t, j) && FlowOk(t, j) {
      assert SlotOk(s, j) && FlowOk(s, j);
    }
  }

  lemma WriteRemainingKeeps(s: State, i: int, r: Outcome)
    requires Inv(s) && s.Slot(i)
    ensures Inv(WriteRemaining(s, i, r))
  {
    var d := s.descr[i];
    assert SlotOk(s, i) && FlowOk(s, i);
    if d.out.pending != [] {
      FlushKeeps(d.out, r);
      SetOutKeeps(s, i, Flush(d.out, r));
      if FlushCloses(d.out, d.flags.toClose, r) {
        CloseKeeps(SetOut(s, i, Flush(d.out, r)), i);
      }
    }
  }

  /** A handler's write to a slot in normal mode, pending or not. */
  lemma LowWriteKeeps(s: State, i: int, data: seq<Byte>, r: Outcome)
    requires Inv(s) && s.Slot(i) && s.Live(i) && !Reserved(s, i)
    requires !s.descr[i].flags.waiting && !s.descr[i].flags.tunnel
    ensures Inv(LowWrite(s, i, data, r))
  {
    var d := s.descr[i];
    var t := SetOut(s, i, Send(d.out, data, r));
    assert SlotOk(s, i);
    SetOutKeeps(s, i, Send(d.out, data, r));
    if SendCloses(d.out, d.flags.toClose, data, r) {
      CloseKeeps(t, i);
    }
  }

  /** Setting the flags of a slot that is in no pair, or only its close mark. */
  lemma SetFlagsKeeps(s: State, i: int, f: Flags)
    requires Inv(s) && s.Slot(i) && s.Live(i) && !Reserved(s, i)
    requires f == s.descr[i].flags.(toClose := f.toClose)
    ensures Inv(SetFlags(s, i, f))
  {
    var t := SetFlags(s, i, f);
    forall j | t.Slot(j) ensures SlotOk(t, j) && FlowOk(t, j) {
      assert SlotOk(s, j) && FlowOk(s, j);
    }
  }

  /** A slot that runs handlers, or one that is closed. */
  predicate Normal(s: State, i: int)
    requires s.Sized()
  {
    s.Slot(i) && !Reserved(s, i) && !s.descr[i].flags.waiting && !s.descr[i].flags.tunnel
  }

  lemma SettleKeeps(s: State, i: int, flush: Outcome)
    requires Inv(s) && Normal(s, i) && s.Live(i)
    ensures Inv(Do(s, i, Settle(flush))) && Normal(Do(s, i, Settle(flush)), i)
  {
    var d := s.descr[i];
    var t := SetFlags(s, i, d.flags.(toClose := true));
    SetFlagsKeeps(s, i, d.flags.(toClose := true));
    if d.out.pending == [] {
      CloseKeeps(t, i);
    } else {
      WriteRemainingKeeps(t, i, flush);
    }
  }

  lemma DoKeeps(s: State, i: int, a: Act)
    requires Inv(s) && Normal(s, i) && ActOk(s, i, a)
    ensures Inv(Do(s, i, a)) && Normal(Do(s, i, a), i)
  {
    assert SlotOk(s, i);
    if s.Live(i) {
      match a
      case Emit(data, r) => LowWriteKeeps(s, i, data, r);
      case Mark => SetFlagsKeeps(s, i, s.descr[i].flags.(toClose := true));
      case Overwrite => SetFlagsKeeps(s, i, NO_FLAGS.(toClose := true));
      case Settle(flush) => SettleKeeps(s, i, flush);
      case _ => CloseKeeps(s, i);
    }
  }

  /** A handler that keeps to `ActsOk` keeps the invariant. */
  lemma {:induction false} PerformKeeps(s: State, i: int, acts: seq<Act>)
    requires Inv(s) && Normal(s, i) && ActsOk(s, i, acts)
    ensures Inv(Perform(s, i, acts))
    decreases |acts|
  {
    if acts != [] {
      DoKeeps(s, i, acts[0]);
      PerformKeeps(Do(s, i, acts[0]), i, acts[1..]);
    }
  }

  lemma OpenAndCloseKeeps(s: State, fd: int)
    requires Inv(s) && 0 < fd
    ensures Inv(OpenAndClose(s, fd))
  {
    var t := OpenAndClose(s, fd);
    forall j | t.Slot(j) ensures SlotOk(t, j) && FlowOk(t, j) {
      assert SlotOk(s, j) && FlowOk(s, j);
    }
  }

  lemma AcceptKeeps(s: State, fd: int)
    requires Inv(s) && (fd <= 0 || Fresh(s, fd))
    ensures Inv(Accept(s, fd))
  {
    var t := Accept(s, fd);
    if s.Slot(fd) && fd > 0 {
      assert SlotOk(s, fd);
      forall j | t.Slot(j) ensures SlotOk(t, j) && FlowOk(t, j) {
        assert SlotOk(s, j) && FlowOk(s, j);
      }
    } else if fd > 0 {
      OpenAndCloseKeeps(s, fd);
    }
  }

  lemma JoinKeeps(s: State, i: int, up: int, req: seq<Byte>)
    requires Inv(s) && s.Slot(i) && s.Live(i) && !Reserved(s, i) && s.pair[i] == NONE
    requires s.Slot(up) && Fresh(s, up) && up != i
    ensures Inv(SetOut(Join(s, i, up, req), up, Queue([], req, false)))
  {
    var t := SetOut(Join(s, i, up, req), up, Queue([], req, false));
    assert SlotOk(s, up);
    JoinedEnds(s, i, up, req);
    forall j | t.Slot(j) ensures SlotOk(t, j) && FlowOk(t, j) {
      assert SlotOk(s, j);
      if j != i && j != up {
        JoinApart(s, i, up, req, Queue([], req, false), j);
        if s.pair[j] != NONE {
          JoinApart(s, i, up, req, Queue([], req, false), s.pair[j]);
        }
        Framed(s, t, j);
      }
    }
  }

  lemma JoinedEnds(s: State, i: int, up: int, req: seq<Byte>)
    requires Inv(s) && s.Slot(i) && s.Live(i) && !Reserved(s, i) && s.pair[i] == NONE
    requires s.Slot(up) && Fresh(s, up) && up != i
    ensures var t := SetOut(Join(s, i, up, req), up, Queue([], req, false));
            SetsOk(t) && SlotOk(t, i) && FlowOk(t, i) && SlotOk(t, up) && FlowOk(t, up)
  {
    assert SlotOk(s, i) && SlotOk(s, up) && FlowOk(s, i) && FlowOk(s, up);
  }

  /** A request that is not sent in full takes the new pair down again. */
  lemma PartialSend(s: State, i: int, up: int, req: seq<Byte>, q: Queue)
    requires Inv(s) && s.Slot(i) && s.Live(i) && !Reserved(s, i) && s.pair[i] == NONE
    requires s.Slot(up) && Fresh(s, up) && up != i
    ensures Inv(CloseRaw(SetOut(Join(s, i, up, req), up, q), up))
  {
    var t := Join(s, i, up, req);
    var full, part := SetOut(t, up, Queue([], req, false)), SetOut(t, up, q);
    JoinKeeps(s, i, up, req);
    CloseRawKeeps(full, up);
    assert CloseRaw(part, up).descr == CloseRaw(full, up).descr;
  }

  lemma ProxyKeeps(s: State, i: int, a: App)
    requires Inv(s) && s.Slot(i) && s.Live(i) && !Reserved(s, i) && a.Upgrade?
    requires a.up != NONE ==> Fresh(s, a.up) && a.up != i
    requires Pairs(s, a) ==> s.pair[i] == NONE
    ensures Inv(Proxy(s, i, a.up, a.hasKey, a.req, a.sent))
  {
    if Pairs(s, a) {
      var k := if a.sent.Room? then Min(a.sent.n, |a.req|) else 0;
      if k < |a.req| || !a.sent.Room? {
        PartialSend(s, i, a.up, a.req, Queue([], a.req[..k], false));
      } else {
        JoinKeeps(s, i, a.up, a.req);
        assert a.req[..k] == a.req;
      }
    } else if a.up != NONE {
      OpenAndCloseKeeps(s, a.up);
    }
  }

  /** Rewriting both ends of a pair into a tunnel. */
  lemma TunnelEnds(s: State, i: int, di: Descr, dp: Descr)
    requires Inv(s) && s.Slot(i) && s.pair[i] != NONE && s.Slot(s.pair[i])
    requires di.fd == i && dp.fd == s.pair[i]
    requires di.flags.tunnel && SamePhase(di.flags, dp.flags)
    requires Delivered(di, dp.rx) && Delivered(dp, di.rx)
    ensures Inv(s.(descr := s.descr[i := di][s.pair[i] := dp]))
  {
    var t := s.(descr := s.descr[i := di][s.pair[i] := dp]);
    assert SlotOk(s, i) && SlotOk(s, s.pair[i]);
    forall j | t.Slot(j) ensures SlotOk(t, j) && FlowOk(t, j) {
      assert SlotOk(s, j) && FlowOk(s, j);
    }
  }

  /** The upstream answered 101 and the write left the client open. */
  lemma EnterKeeps(s: State, i: int, data: seq<Byte>, r: Outcome)
    requires Inv(s) && s.Slot(i) && s.descr[i].flags.waiting && GoodPeer(s, i)
    requires AnswerFits(s, i, data, r) && data != []
    ensures var p := s.pair[i];
            Inv(Enter(LowWrite(MarkStart(s, p, i, data), p, data, r), p, i))
  {
    var p := s.pair[i];
    var c, d := s.descr[p], s.descr[i];
    assert SlotOk(s, i) && SlotOk(s, p) && FlowOk(s, i) && FlowOk(s, p);
    var start := c.out.(lost := false);
    SendIgnoresLost(c.out, data, r);
    SendAppends(start, data, r);
    assert d.out.Stream() == d.base + [];
    var c' := Tunneled(Descr(p, c.flags, Send(start, data, r), c.out.Stream(), []));
    var d' := Tunneled(d.(rx := data));
    TunnelEnds(s, i, d', c');
    var u := s.(descr := s.descr[i := d'][p := c']);
    var t := Enter(LowWrite(MarkStart(s, p, i, data), p, data, r), p, i);
    assert t.descr == u.descr && t.pair == u.pair;
    SetsKeep(u, t);
  }

  lemma SendIgnoresLost(q: Queue, data: seq<Byte>, r: Outcome)
    ensures forall b: bool, c: bool :: SendCloses(q.(lost := b), c, data, r) == SendCloses(q, c, data, r)
  {
  }

  lemma ServeWaitingKeeps(s: State, i: int, data: seq<Byte>, r: Outcome)
    requires Inv(s) && s.Slot(i) && s.descr[i].flags.waiting && AnswerFits(s, i, data, r)
    ensures Inv(ServeWaiting(s, i, data, r))
  {
    assert SlotOk(s, i);
    if data == [] || !GoodPeer(s, i) {
      CloseRawKeeps(s, i);
    } else if Is101(data) {
      EnterKeeps(s, i, data, r);
    } else {
      var p := s.pair[i];
      assert SlotOk(s, p);
      LowWriteKeeps(s, p, data, r);
      CloseRawKeeps(LowWrite(s, p, data, r), i);
    }
  }

  lemma RelayKeeps(s: State, i: int, data: seq<Byte>, r: Outcome)
    requires Inv(s) && s.Slot(i) && s.descr[i].flags.tunnel && s.Slot(s.pair[i])
    ensures var e, p := s.descr[i], s.pair[i];
            Inv(LowWrite(s.(descr := s.descr[i := e.(rx := e.rx + data)]), p, data, r))
  {
    var p := s.pair[i];
    assert SlotOk(s, i) && SlotOk(s, p);
    var e' := s.descr[i].(rx := s.descr[i].rx + data);
    var d' := s.descr[p].(out := Send(s.descr[p].out, data, r));
    RelayDelivers(s, i, data, r);
    TunnelEnds(s, i, e', d');
    var u := s.(descr := s.descr[i := e'][p := d']);
    assert SetOut(s.(descr := s.descr[i := e']), p, d'.out) == u;
    CloseKeeps(u, p);
  }

  /** After the write both directions of the tunnel are still accounted for. */
  lemma RelayDelivers(s: State, i: int, data: seq<Byte>, r: Outcome)
    requires Inv(s) && s.Slot(i) && s.descr[i].flags.tunnel && s.Slot(s.pair[i])
    ensures var d, e := s.descr[s.pair[i]], s.descr[i];
            && Delivered(d.(out := Send(d.out, data, r)), e.rx + data)
            && Delivered(e.(rx := e.rx + data), d.rx)
  {
    assert SlotOk(s, i) && SlotOk(s, s.pair[i]) && FlowOk(s, i) && FlowOk(s, s.pair[i]);
    SendDelivers(s.descr[s.pair[i]], s.descr[i].rx, data, r);
  }

  lemma Regroup(x: seq<Byte>, y: seq<Byte>, z: seq<Byte>)
    ensures (x + y) + z == x + (y + z)
  {
  }

  lemma SendDelivers(d: Descr, relayed: seq<Byte>, data: seq<Byte>, r: Outcome)
    requires Delivered(d, relayed)
    ensures Delivered(d.(out := Send(d.out, data, r)), relayed + data)
  {
    SendAppends(d.out, data, r);
    Regroup(d.base, relayed, data);
  }

  lemma ServeTunnelKeeps(s: State, i: int, data: seq<Byte>, r: Outcome)
    requires Inv(s) && s.Slot(i) && s.descr[i].flags.tunnel
    ensures Inv(ServeTunnel(s, i, data, r))
  {
    assert SlotOk(s, i);
    if data == [] {
      CloseRawKeeps(s, i);
    } else {
      assert SlotOk(s, s.pair[i]);
      RelayKeeps(s, i, data, r);
    }
  }

  lemma ServeKeeps(s: State, i: int, x: Input)
    requires Inv(s) && s.Slot(i) && Allowed(s, i, x)
    ensures Inv(Serve(s, i, x))
  {
    assert SlotOk(s, i);
    if i in s.read && s.Live(i) {
      if i == s.srv {
        AcceptKeeps(s, x.fd);
      } else if s.descr[i].flags.waiting {
        ServeWaitingKeeps(s, i, x.data, x.room);
      } else if s.descr[i].flags.tunnel {
        ServeTunnelKeeps(s, i, x.data, x.room);
      } else {
        match x.app
        case Handle(acts) => PerformKeeps(s, i, acts);
        case Upgrade(_, _, _, _) => ProxyKeeps(s, i, x.app);
      }
    }
  }

  // ---- Passes and runs ----

  lemma {:induction false} ProcReadsKeeps(s: State, i: nat, xs: seq<Input>)
    requires Inv(s) && i <= |s.descr| == |xs| && AllowedFrom(s, i, xs)
    ensures Inv(ProcReads(s, i, xs))
    decreases |xs| - i
  {
    if i < |xs| {
      ServeKeeps(s, i, xs[i]);
      ProcReadsKeeps(Serve(s, i, xs[i]), i + 1, xs);
    }
  }

  lemma FlushSlotKeeps(s: State, i: int, r: Outcome, onlyWritable: bool)
    requires Inv(s) && s.Slot(i)
    ensures Inv(FlushSlot(s, i, r, onlyWritable))
  {
    WriteRemainingKeeps(s, i, r);
  }

  lemma {:induction false} FlushFromKeeps(s: State, i: nat, rs: seq<Outcome>, onlyWritable: bool)
    requires Inv(s) && i <= |s.descr| == |rs|
    ensures Inv(FlushFrom(s, i, rs, onlyWritable))
    decreases |rs| - i
  {
    if i < |rs| {
      FlushSlotKeeps(s, i, rs[i], onlyWritable);
      FlushFromKeeps(FlushSlot(s, i, rs[i], onlyWritable), i + 1, rs, onlyWritable);
    }
  }

  lemma SetsKeep(s: State, t: State)
    requires Inv(s) && SetsOk(t)
    requires t == s.(active := t.active, wactive := t.wactive, read := t.read, write := t.write)
    ensures Inv(t)
  {
    forall j | t.Slot(j) ensures SlotOk(t, j) && FlowOk(t, j) {
      assert SlotOk(s, j) && FlowOk(s, j);
    }
  }

  lemma BeforeReadsKeeps(s: State, t: Turn)
    requires Inv(s) && Fits(|s.descr|, t)
    ensures Inv(BeforeReads(s, t))
  {
    var s0 := BeforeDrain(s, t);
    SetsKeep(s, s0);
    FlushFromKeeps(s0, 0, t.drain, false);
    var s1 := FlushFrom(s0, 0, t.drain, false);
    SetsKeep(s1, Select(s1, t.ready, t.writable));
    if t.some {
      FlushFromKeeps(Select(s1, t.ready, t.writable), 0, t.flush, true);
    }
  }

  /** Every state of every run satisfies the invariant: no stale
      `tunnel_pair` entry, every relayed byte accounted for, and for every
      number as many close(2) calls as descriptors handed out, less the one
      still live. */
  lemma {:induction false} Safety(size: nat, srv: int, turns: seq<Turn>)
    requires 0 < srv < size && AllFit(size, turns) && AllowedRun(size, srv, turns)
    ensures Inv(Execute(size, srv, turns))
  {
    if turns == [] {
    } else {
      var before, t := turns[..|turns|-1], turns[|turns|-1];
      Safety(size, srv, before);
      var s := Execute(size, srv, before);
      BeforeReadsKeeps(s, t);
      if t.some {
        ProcReadsKeeps(BeforeReads(s, t), 0, t.inputs);
      }
    }
  }

  // ---- What the invariant says ----

  ghost predicate Named(s: State, i: int)
    requires s.Sized()
  {
    exists j :: s.Slot(j) && s.pair[j] == i
  }

  /** A number that is not live is clean: nothing pairs with it, nothing
      watches it, and it was closed as often as it was handed out, so the next
      connection that gets it starts unpaired. */
  lemma DeadIsClean(size: nat, srv: int, turns: seq<Turn>, i: int)
    requires 0 < srv < size && AllFit(size, turns) && AllowedRun(size, srv, turns)
    requires 0 <= i < size
    ensures var s := Execute(size, srv, turns);
            !s.Live(i) ==>
              && s.pair[i] == NONE && !Named(s, i)
              && i !in s.active + s.wactive + s.read + s.write
              && s.opens[i] == s.closes[i]
              && Accept(s, i).pair[i] == NONE
  {
    Safety(size, srv, turns);
    var s := Execute(size, srv, turns);
    assert SlotOk(s, i);
    forall j | s.Slot(j) ensures !s.Live(i) ==> s.pair[j] != i {
      assert SlotOk(s, j);
    }
  }

  /** In every run a number is closed as often as it was handed out, less once
      while it is live: no descriptor is closed twice and none is leaked. */
  lemma ClosedExactlyOnce(size: nat, srv: int, turns: seq<Turn>, i: int)
    requires 0 < srv < size && AllFit(size, turns) && AllowedRun(size, srv, turns)
    requires 0 < i && i != srv
    ensures var s := Execute(size, srv, turns);
            s.opens[i] == s.closes[i] + if i < size && s.Live(i) then 1 else 0
  {
    Safety(size, srv, turns);
    CountAt(Execute(size, srv, turns), i);
  }

  lemma CountAt(s: State, i: int)
    requires Inv(s) && 0 < i && i != s.srv
    ensures s.opens[i] == s.closes[i] + if s.Slot(i) && s.Live(i) then 1 else 0
  {
    if s.Slot(i) {
      assert SlotOk(s, i);
    }
  }

  /** In every allowed run the two ends of a tunnel name each other, and what
      each has been sent is its `base` and then the `rx` of the other end, in
      order, exactly if it has not `lost` any. */
  lemma FlowHolds(size: nat, srv: int, turns: seq<Turn>, i: int)
    requires 0 < srv < size && AllFit(size, turns) && AllowedRun(size, srv, turns)
    requires 0 <= i < size
    ensures var s := Execute(size, srv, turns);
            var p := s.pair[i];
            s.descr[i].flags.tunnel ==>
              && 0 <= p < size && p != i && s.pair[p] == i && s.Live(i) && s.Live(p)
              && s.descr[p].flags.tunnel
              && (s.descr[i].out.Stream() == s.descr[i].base + s.descr[p].rx <==> !s.descr[i].out.lost)
  {
    Safety(size, srv, turns);
    var s := Execute(size, srv, turns);
    assert SlotOk(s, i) && FlowOk(s, i);
    if s.descr[i].flags.tunnel {
      assert SlotOk(s, s.pair[i]);
    }
  }

  /** A successful upgrade leaves exactly the request on the upstream's wire,
      and both ends pending with the upstream waiting. */
  lemma UpgradeSent(s: State, i: int, a: App)
    requires Inv(s) && s.Slot(i) && s.Live(i) && !Reserved(s, i) && s.pair[i] == NONE
    requires a.Upgrade? && Pairs(s, a) && Fresh(s, a.up) && a.up != i
    requires a.sent.Room? && a.sent.n >= |a.req|
    ensures var t := Proxy(s, i, a.up, a.hasKey, a.req, a.sent);
            && t.pair[i] == a.up && t.descr[a.up].flags.waiting && !t.descr[i].flags.waiting
            && t.descr[a.up].out == Queue([], a.req, false) && t.descr[a.up].base == a.req
            && t.descr[i].out == s.descr[i].out
  {
    assert SlotOk(s, i);
  }

  /** Where a tunnel's history starts: the client's from what it had been sent,
      the upstream's from the request, the answer being the first relayed chunk. */
  lemma TunnelStarts(s: State, i: int, data: seq<Byte>, r: Outcome)
    requires Inv(s) && s.Slot(i) && s.descr[i].flags.waiting && AnswerFits(s, i, data, r) && Is101(data)
    ensures var p, t := s.pair[i], ServeWaiting(s, i, data, r);
            && s.Slot(p) && t.descr[i].flags.tunnel && t.descr[p].flags.tunnel
            && t.descr[p].base == s.descr[p].out.Stream() && t.descr[p].rx == []
            && t.descr[i].base == s.descr[i].out.Stream() && t.descr[i].rx == data
  {
    assert SlotOk(s, i) && SlotOk(s, s.pair[i]) && FlowOk(s, i);
    var c := s.descr[s.pair[i]];
    SendIgnoresLost(c.out, data, r);
    assert s.descr[i].base + [] == s.descr[i].base;
  }

  /** Two ends that name each other, in either order. */
  lemma TeardownShape(s: State, i: int, p: int)
    requires s.Sized() && s.Slot(i) && s.Slot(p) && p != i && s.pair[i] == p && s.pair[p] == i
    ensures var t := CloseRaw(s, i);
            && t.descr == s.descr[i := DEAD][p := DEAD] && t.pair == s.pair[i := NONE][p := NONE]
            && t.opens == s.opens && t == CloseRaw(s, p)
  {
    var t, u := CloseRaw(s, i), CloseRaw(s, p);
    assert t.descr == u.descr && t.pair == u.pair && t.io == u.io && t.closes == u.closes;
    assert t.active == u.active && t.wactive == u.wactive && t.read == u.read && t.write == u.write;
  }

  lemma TeardownSets(s: State, i: int, p: int)
    requires s.Sized() && s.Slot(i) && s.Slot(p) && p != i && s.pair[i] == p && s.pair[p] == i
    ensures var t := CloseRaw(s, i);
            && t.closes == s.closes + multiset{i, p}
            && t.active == s.active - {i, p} && t.wactive == s.wactive - {i, p}
            && t.read == s.read - {i, p} && t.write == s.write - {i, p}
  {
  }

  /** Tearing down a pair by `axil_close` of either end closes exactly those
      two descriptors, once each, removes both from every set, leaves no entry
      naming either, and changes nothing else. */
  lemma TeardownExact(s: State, i: int)
    requires Inv(s) && s.Slot(i) && s.pair[i] != NONE
    ensures var p, t := s.pair[i], Close(s, i);
            && s.Slot(p) && p != i && t == Close(s, p) == CloseRaw(s, i)
            && t.descr == s.descr[i := DEAD][p := DEAD]
            && t.pair == s.pair[i := NONE][p := NONE]
            && t.closes == s.closes + multiset{i, p} && t.opens == s.opens
            && t.active == s.active - {i, p} && t.wactive == s.wactive - {i, p}
            && t.read == s.read - {i, p} && t.write == s.write - {i, p}
            && !Named(t, i) && !Named(t, p)
  {
    var p, t := s.pair[i], Close(s, i);
    assert SlotOk(s, i) && SlotOk(s, p);
    TeardownShape(s, i, p);
    TeardownSets(s, i, p);
    forall j | t.Slot(j) ensures t.pair[j] != i && t.pair[j] != p {
      assert SlotOk(s, j);
    }
  }

  // ---- One pass never acts on stale readiness ----

  /** The state in which `descr_proc_reads` reaches slot `j`. */
  function Upto(s: State, i: nat, j: nat, xs: seq<Input>): (t: State)
    requires s.Sized() && i <= j <= |s.descr| == |xs|
    ensures t.Sized() && |t.descr| == |s.descr|
    decreases j - i
  {
    if i == j then s else Upto(Serve(s, i, xs[i]), i + 1, j, xs)
  }

  /** Slot `j` is not watched anew, and stops being watched only by a close. */
  predicate Later(s: State, t: State, j: int) {
    && s.closes[j] <= t.closes[j]
    && (j in t.read ==> j in s.read) && (j in t.wactive ==> j in s.wactive)
    && (s.closes[j] == t.closes[j] ==> (j in s.read ==> j in t.read) && (j in s.wactive ==> j in t.wactive))
  }

  lemma CloseLater(s: State, i: int, j: int)
    requires s.Sized() && s.Slot(i)
    ensures Later(s, Close(s, i), j) && Later(s, CloseRaw(s, i), j)
  {
  }

  lemma WriteLater(s: State, i: int, data: seq<Byte>, r: Outcome, j: int)
    requires s.Sized() && s.Slot(i)
    ensures Later(s, LowWrite(s, i, data, r), j)
  {
    CloseLater(SetOut(s, i, Send(s.descr[i].out, data, r)), i, j);
  }

  lemma FlushLater(s: State, i: int, r: Outcome, j: int)
    requires s.Sized() && s.Slot(i)
    ensures Later(s, WriteRemaining(s, i, r), j)
  {
    CloseLater(SetOut(s, i, Flush(s.descr[i].out, r)), i, j);
  }

  lemma DoLater(s: State, i: int, a: Act, j: int)
    requires s.Sized() && s.Slot(i)
    ensures Later(s, Do(s, i, a), j)
  {
    var t := SetFlags(s, i, s.descr[i].flags.(toClose := true));
    match a
    case Emit(data, r) => WriteLater(s, i, data, r, j);
    case Mark =>
    case Overwrite =>
    case Settle(r) => CloseLater(t, i, j); FlushLater(t, i, r, j);
    case _ => CloseLater(s, i, j);
  }

  lemma {:induction false} PerformLater(s: State, i: int, acts: seq<Act>, j: int)
    requires s.Sized() && s.Slot(i)
    ensures Later(s, Perform(s, i, acts), j)
    decreases |acts|
  {
    if acts != [] {
      DoLater(s, i, acts[0], j);
      PerformLater(Do(s, i, acts[0]), i, acts[1..], j);
    }
  }

  lemma ProxyLater(s: State, i: int, a: App, j: int)
    requires s.Sized() && s.Slot(i) && a.Upgrade?
    ensures Later(s, Proxy(s, i, a.up, a.hasKey, a.req, a.sent), j)
  {
    if Pairs(s, a) {
      RequestLater(Join(s, i, a.up, a.req), a.up, a.req, a.sent, j);
    }
  }

  lemma RequestLater(s: State, up: int, req: seq<Byte>, sent: Outcome, j: int)
    requires s.Sized() && s.Slot(up)
    ensures Later(s, SendRequest(s, up, req, sent), j)
  {
    var k := if sent.Room? then Min(sent.n, |req|) else 0;
    CloseLater(SetOut(s, up, Queue([], req[..k], false)), up, j);
  }

  lemma WaitingLater(s: State, i: int, data: seq<Byte>, r: Outcome, j: int)
    requires s.Sized() && s.Slot(i)
    ensures Later(s, ServeWaiting(s, i, data, r), j)
  {
    CloseLater(s, i, j);
    if data != [] && GoodPeer(s, i) {
      WriteLater(MarkStart(s, s.pair[i], i, data), s.pair[i], data, r, j);
      WriteLater(s, s.pair[i], data, r, j);
      CloseLater(LowWrite(s, s.pair[i], data, r), i, j);
    }
  }

  lemma TunnelLater(s: State, i: int, data: seq<Byte>, r: Outcome, j: int)
    requires s.Sized() && s.Slot(i)
    ensures Later(s, ServeTunnel(s, i, data, r), j)
  {
    CloseLater(s, i, j);
    if data != [] && s.HasPeer(i) {
      WriteLater(s.(descr := s.descr[i := s.descr[i].(rx := s.descr[i].rx + data)]), s.pair[i], data, r, j);
    }
  }

  lemma ServeLater(s: State, i: int, x: Input, j: int)
    requires s.Sized() && s.Slot(i)
    ensures Later(s, Serve(s, i, x), j)
  {
    if i in s.read && i != s.srv && s.Live(i) {
      if s.descr[i].flags.waiting {
        WaitingLater(s, i, x.data, x.room, j);
      } else if s.descr[i].flags.tunnel {
        TunnelLater(s, i, x.data, x.room, j);
      } else {
        NormalLater(s, i, x.app, j);
      }
    }
  }

  lemma NormalLater(s: State, i: int, a: App, j: int)
    requires s.Sized() && s.Slot(i)
    ensures Later(s, ServeNormal(s, i, a), j)
  {
    match a
    case Handle(acts) => PerformLater(s, i, acts, j);
    case Upgrade(_, _, _, _) => ProxyLater(s, i, a, j);
  }

  lemma {:induction false} UptoLater(s: State, i: nat, k: nat, xs: seq<Input>, j: int)
    requires s.Sized() && i <= k <= |s.descr| == |xs|
    ensures Later(s, Upto(s, i, k, xs), j)
    ensures ProcReads(s, i, xs) == ProcReads(Upto(s, i, k, xs), k, xs)
    decreases k - i
  {
    if i < k {
      ServeLater(s, i, xs[i], j);
      UptoLater(Serve(s, i, xs[i]), i + 1, k, xs, j);
    }
  }

  /** Once a number is torn down in the middle of a pass, that pass does not
      act on it any more, whatever connection reuses it meanwhile. */
  lemma DeadNotServed(u: State, i: nat, xs: seq<Input>, j: int)
    requires Inv(u) && i <= j < |u.descr| == |xs| && !u.Live(j)
    ensures var t := Upto(u, i, j, xs);
            Serve(t, j, xs[j]) == t && ProcReads(u, i, xs) == ProcReads(t, j + 1, xs)
  {
    UptoLater(u, i, j, xs, j);
  }
}
