// The global tables of the connection engine, updated in place: `descr_map`
// and `tunnel_pair` are arrays, the fd sets are reassigned.  Every method's
// effect is a function of `Tunnel`, where the properties are proved.
module Engine {
  import opened Fifo
  import opened Wrappers
  import opened Tunnel
  import TunnelProofs

  class Tables {
    const descr: array<Descr>
    const pair: array<int>
    const srv: int
    var io: set<int>  // the filled entries of the table of that name
    var active: set<int>
    var wactive: set<int>
    var read: set<int>
    var write: set<int>
    ghost var opens: multiset<int>
    ghost var closes: multiset<int>
    ghost var fault: bool

    ghost predicate Valid()
      reads this
    {
      && descr.Length == pair.Length
      && 0 < srv < descr.Length
    }

    ghost function Now(): (s: State)
      requires Valid()
      reads this, descr, pair
      ensures s.Sized() && |s.descr| == descr.Length && s.srv == srv
    {
      State(descr[..], pair[..], io, active, wactive, read, write, srv, opens, closes, fault)
    }

    /** Static initialisation, `axil_pre_init` and `axil_bind`. */
    constructor (size: nat, listener: int)
      requires 0 < listener < size
      ensures Valid() && fresh(descr) && fresh(pair) && descr.Length == size
      ensures Now() == Init(size, listener)
    {
      descr := new Descr[size](i => DEAD.(fd := 0));
      pair := new int[size](i => NONE);
      srv := listener;
      active, wactive, read, write := {listener}, {}, {}, {};
      opens, closes, io, fault := multiset{}, multiset{}, {}, false;
      new;
      descr[srv] := descr[srv].(fd := srv);
      assert descr[..] == Init(size, srv).descr && pair[..] == Init(size, srv).pair;
    }

    /** `axil_raw_descr_reset`. */
    method RawDescrReset(fd: int)
      requires Valid()
      modifies this, descr, pair
      ensures Valid()
      ensures Now() == if old(Now()).Slot(fd) then RawReset(old(Now()), fd) else old(Now())
    {
      if fd == NONE || fd < 0 || fd >= descr.Length {
        return;
      }
      active := active - {fd};
      wactive := wactive - {fd};
      read := read - {fd};
      write := write - {fd};
      closes := closes + multiset{fd};
      pair[fd] := NONE;
      io := io - {fd};
      descr[fd] := DEAD;
    }

    /** `axil_tunnel_close_raw`. */
    method TunnelCloseRaw(fd: int)
      requires Valid()
      modifies this, descr, pair
      ensures Valid()
      ensures Now() == if old(Now()).Slot(fd) then CloseRaw(old(Now()), fd) else old(Now())
    {
      if fd == NONE || fd < 0 || fd >= descr.Length {
        return;
      }
      var peer := pair[fd];
      pair[fd] := NONE;
      if 0 <= peer < descr.Length && peer != fd {
        pair[peer] := NONE;
      }
      RawDescrReset(fd);
      if 0 <= peer < descr.Length && peer != fd {
        RawDescrReset(peer);
      }
    }

    /** `axil_close`. */
    method AxilClose(fd: int)
      requires Valid()
      modifies this, descr, pair
      ensures Valid() && Now() == Close(old(Now()), fd)
    {
      if fd < 0 || fd >= descr.Length {
        return;
      }
      if descr[fd].flags.Paired() {
        TunnelCloseRaw(fd);
        return;
      }
      active := active - {fd};
      read := read - {fd};
      wactive := wactive - {fd};
      write := write - {fd};
      closes := closes + multiset{fd};
      pair[fd] := NONE;
      descr[fd] := DEAD;
    }

    /** `axil_write`; the buffer of `axil_low_write` itself is `OutputQueue`. */
    method LowWriteTo(fd: int, data: seq<Byte>, r: Outcome)
      requires Valid() && 0 <= fd < descr.Length
      modifies this, descr, pair
      ensures Valid() && Now() == LowWrite(old(Now()), fd, data, r)
    {
      if fd !in io {
        fault := true;
        return;
      }
      var d := descr[fd];
      if d.fd != fd {
        return;
      }
      descr[fd] := d.(out := Send(d.out, data, r));
      if SendCloses(d.out, d.flags.toClose, data, r) {
        AxilClose(fd);
      }
    }

    method WriteRemainingOf(fd: int, r: Outcome)
      requires Valid() && 0 <= fd < descr.Length
      modifies this, descr, pair
      ensures Valid() && Now() == WriteRemaining(old(Now()), fd, r)
    {
      var d := descr[fd];
      if d.out.pending == [] {
        return;
      }
      descr[fd] := d.(out := Flush(d.out, r));
      if FlushCloses(d.out, d.flags.toClose, r) {
        AxilClose(fd);
      }
    }

    /** `descr_new`, given what accept(2) returned. */
    method DescrNew(fd: int)
      requires Valid()
      modifies this, descr
      ensures Valid() && Now() == Accept(old(Now()), fd)
    {
      if fd <= 0 {
        return;
      }
      opens := opens + multiset{fd};
      if fd >= descr.Length {
        closes := closes + multiset{fd};
        return;
      }
      active := active + {fd};
      descr[fd] := DEAD.(fd := fd);
      io := io + {fd};
    }

    /** The pairing part of `request_handle`. */
    method PairUpstream(fd: int, up: int, hasKey: bool, req: seq<Byte>, sent: Outcome)
      requires Valid() && 0 <= fd < descr.Length && (up == NONE || 0 <= up)
      modifies this, descr, pair
      ensures Valid() && Now() == Proxy(old(Now()), fd, up, hasKey, req, sent)
    {
      if up == NONE {
        return;
      }
      if !hasKey || req == [] || |req| >= REQ_BUF || up >= descr.Length {
        opens := opens + multiset{up};
        closes := closes + multiset{up};
        return;
      }
      LinkUpstream(fd, up, req);
      SendUpgrade(up, req, sent);
    }

    /** The request itself; a partial send takes the pair down again. */
    method SendUpgrade(up: int, req: seq<Byte>, sent: Outcome)
      requires Valid() && 0 <= up < descr.Length
      modifies this, descr, pair
      ensures Valid() && Now() == SendRequest(old(Now()), up, req, sent)
    {
      var wr := if sent.Room? then Min(sent.n, |req|) else 0;
      descr[up] := descr[up].(out := Queue([], req[..wr], false));
      if !sent.Room? || wr < |req| {
        TunnelCloseRaw(up);
      }
    }

    /** Both ends enter the pending pair. */
    method LinkUpstream(fd: int, up: int, req: seq<Byte>)
      requires Valid() && 0 <= fd < descr.Length && 0 <= up < descr.Length
      modifies this, descr, pair
      ensures Valid() && Now() == Join(old(Now()), fd, up, req)
    {
      opens := opens + multiset{up};
      descr[up] := Descr(up, NO_FLAGS, EMPTY, req, []);
      io := io + {up};
      pair[fd] := up;
      pair[up] := fd;
      descr[fd] := descr[fd].(flags := descr[fd].flags.(pending := true));
      descr[up] := descr[up].(flags := descr[up].flags.(waiting := true, pending := true));
      active := active + {up};
    }

    /** `axil_ws_tunnel`. */
    method WsTunnel(a: int, b: int)
      requires Valid() && 0 <= a < descr.Length && 0 <= b < descr.Length
      modifies this, descr, pair
      ensures Valid() && Now() == Enter(old(Now()), a, b)
    {
      active := active + {a} + {b};
      descr[a] := Tunneled(descr[a]);
      descr[b] := Tunneled(descr[b]);
      pair[a] := b;
      pair[b] := a;
      assert old(active) + {a} + {b} == old(active) + {a, b};
    }

    method ServeWaitingSlot(i: int, data: seq<Byte>, r: Outcome)
      requires Valid() && 0 <= i < descr.Length
      modifies this, descr, pair
      ensures Valid() && Now() == ServeWaiting(old(Now()), i, data, r)
    {
      if data == [] {
        TunnelCloseRaw(i);
        return;
      }
      var peer := pair[i];
      if peer == NONE || peer == i || peer < 0 || peer >= descr.Length || descr[peer].fd != peer ||
         pair[peer] != i || !descr[peer].flags.pending
      {
        TunnelCloseRaw(i);
        return;
      }
      if Is101(data) {
        ForwardUpgrade(peer, i, data, r);
      } else {
        LowWriteTo(peer, data, r);
        TunnelCloseRaw(i);
      }
    }

    /** The 101 goes to the client, and the pair becomes a tunnel. */
    method ForwardUpgrade(peer: int, i: int, data: seq<Byte>, r: Outcome)
      requires Valid() && 0 <= i < descr.Length && 0 <= peer < descr.Length
      modifies this, descr, pair
      ensures Valid() && Now() == Enter(LowWrite(MarkStart(old(Now()), peer, i, data), peer, data, r), peer, i)
    {
      Mark(peer, i, data);
      LowWriteTo(peer, data, r);
      WsTunnel(peer, i);
    }

    /** History only: the tunnel of this pair starts here. */
    method Mark(client: int, up: int, data: seq<Byte>)
      requires Valid() && 0 <= client < descr.Length && 0 <= up < descr.Length
      modifies descr
      ensures Valid() && Now() == MarkStart(old(Now()), client, up, data)
    {
      var c := descr[client];
      descr[client] := c.(out := c.out.(lost := false), base := c.out.Stream(), rx := []);
      descr[up] := descr[up].(rx := data);
    }

    method ServeTunnelSlot(i: int, data: seq<Byte>, r: Outcome)
      requires Valid() && 0 <= i < descr.Length
      modifies this, descr, pair
      ensures Valid() && Now() == ServeTunnel(old(Now()), i, data, r)
    {
      if data == [] {
        TunnelCloseRaw(i);
        return;
      }
      var peer := pair[i];
      if peer == NONE || peer == i || peer < 0 || peer >= descr.Length || descr[peer].fd != peer {
        TunnelCloseRaw(i);
        return;
      }
      descr[i] := descr[i].(rx := descr[i].rx + data);
      LowWriteTo(peer, data, r);
    }

    method ServeNormalSlot(i: int, app: App)
      requires Valid() && 0 <= i < descr.Length
      requires app.Upgrade? ==> app.up == NONE || 0 <= app.up
      modifies this, descr, pair
      ensures Valid() && Now() == ServeNormal(old(Now()), i, app)
    {
      match app
      case Handle(acts) => RunHandler(i, acts);
      case Upgrade(up, hasKey, req, sent) => PairUpstream(i, up, hasKey, req, sent);
    }

    /** The actions of a handler, one after the other. */
    method RunHandler(i: int, acts: seq<Act>)
      requires Valid() && 0 <= i < descr.Length
      modifies this, descr, pair
      ensures Valid() && Now() == Perform(old(Now()), i, acts)
    {
      ghost var end := Perform(Now(), i, acts);
      for k := 0 to |acts|
        invariant Valid() && Perform(Now(), i, acts[k..]) == end
      {
        assert acts[k..][0] == acts[k] && acts[k..][1..] == acts[k + 1..];
        DoAct(i, acts[k]);
      }
    }

    method DoAct(i: int, a: Act)
      requires Valid() && 0 <= i < descr.Length
      modifies this, descr, pair
      ensures Valid() && Now() == Do(old(Now()), i, a)
    {
      match a
      case Emit(data, r) => LowWriteTo(i, data, r);
      case Mark => SetFlagsOf(i, descr[i].flags.(toClose := true));
      case Overwrite => SetFlagsOf(i, NO_FLAGS.(toClose := true));
      case Settle(r) => EndRespond(i, r);
      case CloseIfEmpty =>
        if descr[i].out.pending == [] {
          AxilClose(i);
        }
      case CloseIfMarked =>
        if descr[i].flags.toClose && descr[i].out.pending == [] {
          AxilClose(i);
        }
      case CloseNow => AxilClose(i);
    }

    /** `axil_set_flags` and assignments to `d->flags`. */
    method SetFlagsOf(i: int, f: Flags)
      requires Valid() && 0 <= i < descr.Length
      modifies descr
      ensures Valid() && Now() == SetFlags(old(Now()), i, f)
    {
      descr[i] := descr[i].(flags := f);
    }

    /** The last lines of `axil_respond`. */
    method EndRespond(i: int, flush: Outcome)
      requires Valid() && 0 <= i < descr.Length
      modifies this, descr, pair
      ensures Valid() && Now() == Do(old(Now()), i, Settle(flush))
    {
      SetFlagsOf(i, descr[i].flags.(toClose := true));
      if descr[i].out.pending == [] {
        AxilClose(i);
      } else {
        WriteRemainingOf(i, flush);
      }
    }

    /** The body of the loop in `descr_proc_reads`. */
    method ServeSlot(i: int, x: Input)
      requires Valid() && 0 <= i < descr.Length
      requires x.app.Upgrade? ==> x.app.up == NONE || 0 <= x.app.up
      modifies this, descr, pair
      ensures Valid() && Now() == Serve(old(Now()), i, x)
    {
      if i !in read {
      } else if i == srv {
        DescrNew(x.fd);
      } else if descr[i].fd != i {
      } else if descr[i].flags.waiting {
        ServeWaitingSlot(i, x.data, x.room);
      } else if descr[i].flags.tunnel {
        ServeTunnelSlot(i, x.data, x.room);
      } else {
        ServeNormalSlot(i, x.app);
      }
    }

    /** `descr_proc_reads`. */
    method DescrProcReads(xs: seq<Input>)
      requires Valid() && |xs| == descr.Length
      requires forall x :: x in xs && x.app.Upgrade? ==> x.app.up == NONE || 0 <= x.app.up
      modifies this, descr, pair
      ensures Valid() && Now() == ProcReads(old(Now()), 0, xs)
    {
      ghost var end := ProcReads(Now(), 0, xs);
      for i := 0 to descr.Length
        invariant Valid() && ProcReads(Now(), i, xs) == end
      {
        assert xs[i] in xs;
        ServeSlot(i, xs[i]);
      }
    }

    /** The flushing loops of `axil_main` and `descr_proc_writes`. */
    method FlushSlots(rs: seq<Outcome>, onlyWritable: bool)
      requires Valid() && |rs| == descr.Length
      modifies this, descr, pair
      ensures Valid() && Now() == FlushFrom(old(Now()), 0, rs, onlyWritable)
    {
      ghost var end := FlushFrom(Now(), 0, rs, onlyWritable);
      for i := 0 to descr.Length
        invariant Valid() && FlushFrom(Now(), i, rs, onlyWritable) == end
      {
        FlushNext(i, rs, onlyWritable, end);
      }
    }

    /** One turn of these loops, which will end in state `end`. */
    method FlushNext(i: int, rs: seq<Outcome>, onlyWritable: bool, ghost end: State)
      requires Valid() && 0 <= i < |rs| == descr.Length && FlushFrom(Now(), i, rs, onlyWritable) == end
      modifies this, descr, pair
      ensures Valid() && FlushFrom(Now(), i + 1, rs, onlyWritable) == end
    {
      ghost var s := Now();
      FlushOne(i, rs[i], onlyWritable);
      FlushFirst(s, Now(), i, rs, onlyWritable);
    }

    static lemma FlushFirst(s: State, t: State, i: nat, rs: seq<Outcome>, onlyWritable: bool)
      requires s.Sized() && i < |s.descr| == |rs| && t == FlushSlot(s, i, rs[i], onlyWritable)
      ensures FlushFrom(s, i, rs, onlyWritable) == FlushFrom(t, i + 1, rs, onlyWritable)
    {
    }

    method FlushOne(i: int, r: Outcome, onlyWritable: bool)
      requires Valid() && 0 <= i < descr.Length
      modifies this, descr, pair
      ensures Valid() && Now() == FlushSlot(old(Now()), i, r, onlyWritable)
    {
      if onlyWritable && (i !in write || i == srv) {
        return;
      }
      WriteRemainingOf(i, r);
    }

    /** One turn of the loop in `axil_main`. */
    method MainTurn(t: Turn)
      requires Valid() && Fits(descr.Length, t)
      requires forall x :: x in t.inputs && x.app.Upgrade? ==> x.app.up == NONE || 0 <= x.app.up
      modifies this, descr, pair
      ensures Valid() && Now() == Loop(old(Now()), t)
    {
      wactive := wactive + set i | i in t.marked && 0 < i < descr.Length && descr[i].fd == i :: i;
      assert wactive == BeforeDrain(old(Now()), t).wactive;
      FlushSlots(t.drain, false);
      read := active * t.ready;
      write := wactive * t.writable;
      if t.some {
        FlushSlots(t.flush, true);
        DescrProcReads(t.inputs);
      }
    }

    /** `axil_main` from start-up over the turns of a run. */
    method AxilMain(turns: seq<Turn>)
      requires Valid() && Now() == Init(descr.Length, srv) && AllFit(descr.Length, turns)
      requires forall t, x :: t in turns && x in t.inputs && x.app.Upgrade? ==> x.app.up == NONE || 0 <= x.app.up
      modifies this, descr, pair
      ensures Valid() && Now() == Execute(descr.Length, srv, turns)
      ensures AllowedRun(descr.Length, srv, turns) ==> TunnelProofs.Inv(Now())
    {
      assert turns[..0] == [];
      for k := 0 to |turns|
        invariant Valid() && Now() == Execute(descr.Length, srv, turns[..k])
      {
        assert turns[..k + 1][..k] == turns[..k] && turns[k] in turns;
        MainTurn(turns[k]);
      }
      assert turns[..|turns|] == turns;
      if AllowedRun(descr.Length, srv, turns) {
        TunnelProofs.Safety(descr.Length, srv, turns);
      }
    }
  }
}
