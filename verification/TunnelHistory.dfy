// What the two ends of a tunnel have been sent, in terms of the inputs of the
// whole run: from the upgrade request to the last byte relayed.
module TunnelHistory {
  import opened Fifo
  import opened Wrappers
  import opened Tunnel
  import opened TunnelProofs

  // ---- Bytes read from a slot ----

  /** What is read from slot `j` of a tunnel during a turn. */
  function ReadIn(t: Turn, j: int): seq<Byte> {
    if t.some && j in t.ready && 0 <= j < |t.inputs| then t.inputs[j].data else []
  }

  /** The same from turn `a` to the end. */
  function Received(turns: seq<Turn>, a: nat, j: int): seq<Byte> {
    if |turns| <= a then []
    else Received(turns[..|turns|-1], a, j) + ReadIn(turns[|turns|-1], j)
  }

  lemma {:induction false} ReceivedFirst(turns: seq<Turn>, a: nat, j: int)
    requires a < |turns|
    ensures Received(turns, a, j) == ReadIn(turns[a], j) + Received(turns, a + 1, j)
  {
    var before, t := turns[..|turns|-1], turns[|turns|-1];
    var first, last := ReadIn(turns[a], j), ReadIn(t, j);
    if a < |before| {
      ReceivedFirst(before, a, j);
      Regroup(first, Received(before, a + 1, j), last);
    } else {
      assert Received(before, a, j) == [] && Received(turns, a + 1, j) == [];
      assert [] + last == last + [];
    }
  }

  // ---- One step seen from one pair ----

  /** What happened to one end: the bytes read from it, and whether data
      written to it was dropped. */
  datatype Gain = Gain(bytes: seq<Byte>, dropped: bool) {
    function Plus(g: Gain): Gain { Gain(bytes + g.bytes, dropped || g.dropped) }
  }

  const NOTHING := Gain([], false)

  /** Slot `j` is still in the same pair and mode, and `g` happened to it. */
  predicate Continues(s: State, t: State, j: int, g: Gain)
    requires s.Sized() && t.Sized() && s.Slot(j) && t.Slot(j)
  {
    var d, e := s.descr[j], t.descr[j];
    && t.closes[j] == s.closes[j] && t.pair[j] == s.pair[j]
    && e.flags.tunnel == d.flags.tunnel && e.flags.waiting == d.flags.waiting
    && e.base == d.base && e.rx == d.rx + g.bytes
    && (d.flags.tunnel ==> e.out.lost == (d.out.lost || g.dropped))
  }

  /** The pair of `u` was torn down, or both of its ends went on. */
  predicate Onward(s: State, t: State, u: int, ofU: Gain, ofPeer: Gain)
    requires s.Sized() && t.Sized() && |t.descr| == |s.descr| && s.Slot(u) && s.HasPeer(u)
  {
    s.closes[u] < t.closes[u] || (Continues(s, t, u, ofU) && Continues(s, t, s.pair[u], ofPeer))
  }

  predicate Linked(s: State, i: int)
    requires s.Sized() && s.Slot(i)
  {
    && (s.pair[i] != NONE <==> s.descr[i].flags.Paired())
    && (s.pair[i] != NONE ==> s.HasPeer(i) && s.pair[s.pair[i]] == i)
  }

  predicate PairAt(s: State, u: int) {
    s.Sized() && s.Slot(u) && s.pair[u] != NONE && Linked(s, u) && s.HasPeer(u) && Linked(s, s.pair[u])
  }

  lemma Same(s: State, t: State, u: int)
    requires PairAt(s, u) && t.Sized() && |t.descr| == |s.descr|
    requires Untouched(s, t, u) && Untouched(s, t, s.pair[u])
    ensures Onward(s, t, u, NOTHING, NOTHING)
  {
    assert s.descr[u].rx + [] == s.descr[u].rx && s.descr[s.pair[u]].rx + [] == s.descr[s.pair[u]].rx;
  }

  // ---- Steps that leave a slot alone ----

  lemma WriteApart(s: State, i: int, data: seq<Byte>, r: Outcome, j: int)
    requires s.Sized() && s.Slot(i) && s.Slot(j) && j != i && j != s.pair[i]
    ensures Untouched(s, LowWrite(s, i, data, r), j)
  {
    CloseApart(SetOut(s, i, Send(s.descr[i].out, data, r)), i, j);
  }

  lemma FlushApart(s: State, i: int, r: Outcome, j: int)
    requires s.Sized() && s.Slot(i) && s.Slot(j) && j != i && j != s.pair[i]
    ensures Untouched(s, WriteRemaining(s, i, r), j)
  {
    CloseApart(SetOut(s, i, Flush(s.descr[i].out, r)), i, j);
  }

  lemma DoApart(s: State, i: int, a: Act, j: int)
    requires s.Sized() && s.Slot(i) && s.Slot(j) && j != i && j != s.pair[i]
    ensures Untouched(s, Do(s, i, a), j)
  {
    match a
    case Emit(data, r) => WriteApart(s, i, data, r, j);
    case Mark =>
    case Overwrite =>
    case Settle(r) =>
      var t := SetFlags(s, i, s.descr[i].flags.(toClose := true));
      CloseApart(t, i, j);
      FlushApart(t, i, r, j);
    case _ => CloseApart(s, i, j);
  }

  // ---- Steps at an end of the pair ----

  predicate EndOf(s: State, i: int, u: int)
    requires s.Sized() && s.Slot(u)
  {
    i == u || i == s.pair[u]
  }

  lemma CloseOwn(s: State, i: int, u: int)
    requires PairAt(s, u) && EndOf(s, i, u)
    ensures s.closes[u] < Close(s, i).closes[u] && s.closes[u] < CloseRaw(s, i).closes[u]
  {
  }

  /** Only the queue or the close mark of slot `i` is changed. */
  predicate Touches(s: State, t: State, i: int)
    requires s.Sized() && s.Slot(i)
  {
    && t.Sized() && |t.descr| == |s.descr|
    && t.descr == s.descr[i := t.descr[i]] && t.pair == s.pair && t.closes == s.closes
    && var d, e := s.descr[i], t.descr[i];
       && e.base == d.base && e.rx == d.rx
       && e.flags == d.flags.(toClose := e.flags.toClose)
       && (d.flags.tunnel ==> e.out.lost == d.out.lost)
  }

  lemma TouchOwn(s: State, t: State, i: int, u: int)
    requires PairAt(s, u) && EndOf(s, i, u) && Touches(s, t, i)
    ensures Onward(s, t, u, NOTHING, NOTHING) && PairAt(t, u) && EndOf(t, i, u)
  {
    assert s.descr[u].rx + [] == s.descr[u].rx && s.descr[s.pair[u]].rx + [] == s.descr[s.pair[u]].rx;
  }

  /** Then the queue is changed, and the slot perhaps closed. */
  lemma OutOwn(s: State, t: State, i: int, q: Queue, u: int)
    requires PairAt(s, u) && EndOf(s, i, u) && Touches(s, t, i)
    requires s.descr[i].flags.tunnel ==> q.lost == s.descr[i].out.lost
    ensures Onward(s, SetOut(t, i, q), u, NOTHING, NOTHING)
    ensures s.closes[u] < Close(SetOut(t, i, q), i).closes[u]
  {
    var w := SetOut(t, i, q);
    assert w.descr == s.descr[i := w.descr[i]];
    TouchOwn(s, w, i, u);
    CloseOwn(w, i, u);
  }

  // ---- Closing, writing and flushing any slot ----

  lemma Apart(s: State, i: int, u: int)
    requires PairAt(s, u) && s.Slot(i) && Linked(s, i) && !EndOf(s, i, u)
    ensures u != i && u != s.pair[i] && s.pair[u] != i && s.pair[u] != s.pair[i]
  {
  }

  lemma CloseOnward(s: State, i: int, u: int)
    requires PairAt(s, u) && s.Slot(i) && Linked(s, i)
    ensures Onward(s, Close(s, i), u, NOTHING, NOTHING) && Onward(s, CloseRaw(s, i), u, NOTHING, NOTHING)
  {
    if EndOf(s, i, u) {
      CloseOwn(s, i, u);
    } else {
      Apart(s, i, u);
      CloseApart(s, i, u);
      CloseApart(s, i, s.pair[u]);
      Same(s, Close(s, i), u);
      Same(s, CloseRaw(s, i), u);
    }
  }

  lemma FlushOnward(s: State, i: int, r: Outcome, u: int)
    requires PairAt(s, u) && s.Slot(i) && Linked(s, i)
    ensures Onward(s, WriteRemaining(s, i, r), u, NOTHING, NOTHING)
  {
    if EndOf(s, i, u) {
      Same(s, s, u);
      OutOwn(s, s, i, Flush(s.descr[i].out, r), u);
    } else {
      Apart(s, i, u);
      FlushApart(s, i, r, u);
      FlushApart(s, i, r, s.pair[u]);
      Same(s, WriteRemaining(s, i, r), u);
    }
  }

  /** A pair that goes on from `s` to `t` and from `t` to `v`. */
  lemma Chain(s: State, t: State, v: State, u: int, a: Gain, b: Gain, c: Gain, d: Gain)
    requires PairAt(s, u) && t.Sized() && v.Sized() && |s.descr| == |t.descr| == |v.descr|
    requires Onward(s, t, u, a, b) && t.closes[u] <= v.closes[u]
    requires t.closes[u] == s.closes[u] ==> t.Slot(u) && t.HasPeer(u) && Onward(t, v, u, c, d)
    ensures Onward(s, v, u, a.Plus(c), b.Plus(d))
  {
    var p := s.pair[u];
    if v.closes[u] == s.closes[u] {
      Regroup(s.descr[u].rx, a.bytes, c.bytes);
      Regroup(s.descr[p].rx, b.bytes, d.bytes);
    }
  }

  lemma ChainTo(s: State, t: State, v: State, u: int, a: Gain, b: Gain, c: Gain, d: Gain, ofU: Gain, ofPeer: Gain)
    requires PairAt(s, u) && t.Sized() && v.Sized() && |s.descr| == |t.descr| == |v.descr|
    requires Onward(s, t, u, a, b) && t.closes[u] <= v.closes[u]
    requires t.closes[u] == s.closes[u] ==>
      t.Slot(u) && t.HasPeer(u) && Onward(t, v, u, c, d) && a.Plus(c) == ofU && b.Plus(d) == ofPeer
    ensures Onward(s, v, u, ofU, ofPeer)
  {
    Chain(s, t, v, u, a, b, c, d);
  }

  /** Two stretches in which nothing happens. */
  lemma ChainQuiet(s: State, t: State, v: State, u: int)
    requires PairAt(s, u) && t.Sized() && v.Sized() && |s.descr| == |t.descr| == |v.descr|
    requires Onward(s, t, u, NOTHING, NOTHING) && t.closes[u] <= v.closes[u]
    requires t.closes[u] == s.closes[u] ==> t.Slot(u) && t.HasPeer(u) && Onward(t, v, u, NOTHING, NOTHING)
    ensures Onward(s, v, u, NOTHING, NOTHING)
  {
    Chain(s, t, v, u, NOTHING, NOTHING, NOTHING, NOTHING);
    assert NOTHING.Plus(NOTHING) == NOTHING;
  }

  // ---- Handlers, upgrades, new connections ----

  lemma InvLinks(s: State, i: int)
    requires Inv(s) && s.Slot(i)
    ensures Linked(s, i) && (s.pair[i] != NONE ==> PairAt(s, i))
  {
    assert SlotOk(s, i);
    if s.pair[i] != NONE {
      assert SlotOk(s, s.pair[i]);
    }
  }

  /** A handler of the client in the pair. */
  lemma DoOwn(s: State, i: int, a: Act, u: int)
    requires PairAt(s, u) && EndOf(s, i, u) && !s.descr[i].flags.tunnel && !s.descr[i].flags.waiting && !a.Overwrite?
    ensures Onward(s, Do(s, i, a), u, NOTHING, NOTHING)
  {
    var t := SetFlags(s, i, s.descr[i].flags.(toClose := true));
    Same(s, s, u);
    TouchOwn(s, t, i, u);
    match a
    case Emit(data, r) => EmitOwn(s, i, data, r, u);
    case Mark =>
    case Settle(r) =>
      SettleOwn(s, t, i, r, u);
    case _ => CloseOwn(s, i, u);
  }

  lemma SettleOwn(s: State, t: State, i: int, r: Outcome, u: int)
    requires PairAt(s, u) && EndOf(s, i, u) && !s.descr[i].flags.tunnel
    requires t == SetFlags(s, i, s.descr[i].flags.(toClose := true))
    ensures s.closes[u] < Close(t, i).closes[u] && Onward(s, WriteRemaining(t, i, r), u, NOTHING, NOTHING)
  {
    TouchOwn(s, t, i, u);
    CloseOwn(t, i, u);
    OutOwn(s, t, i, Flush(t.descr[i].out, r), u);
  }

  lemma EmitOwn(s: State, i: int, data: seq<Byte>, r: Outcome, u: int)
    requires PairAt(s, u) && EndOf(s, i, u) && !s.descr[i].flags.tunnel
    ensures Onward(s, LowWrite(s, i, data, r), u, NOTHING, NOTHING)
  {
    if i !in s.io || !s.Live(i) {
      Same(s, LowWrite(s, i, data, r), u);
    } else {
      OutOwn(s, s, i, Send(s.descr[i].out, data, r), u);
    }
  }

  lemma DoOnward(s: State, i: int, a: Act, u: int)
    requires Inv(s) && Normal(s, i) && ActOk(s, i, a) && s.Slot(u) && s.pair[u] != NONE
    ensures PairAt(s, u) && Onward(s, Do(s, i, a), u, NOTHING, NOTHING)
  {
    InvLinks(s, u);
    InvLinks(s, i);
    if EndOf(s, i, u) {
      assert SlotOk(s, i);
      DoOwn(s, i, a, u);
    } else {
      Apart(s, i, u);
      DoApart(s, i, a, u);
      DoApart(s, i, a, s.pair[u]);
      Same(s, Do(s, i, a), u);
    }
  }

  lemma {:induction false} PerformOnward(s: State, i: int, acts: seq<Act>, u: int)
    requires Inv(s) && Normal(s, i) && ActsOk(s, i, acts) && s.Slot(u) && s.pair[u] != NONE
    ensures PairAt(s, u) && Onward(s, Perform(s, i, acts), u, NOTHING, NOTHING)
    decreases |acts|
  {
    InvLinks(s, u);
    if acts == [] {
      Same(s, s, u);
    } else {
      var t := Do(s, i, acts[0]);
      DoOnward(s, i, acts[0], u);
      DoKeeps(s, i, acts[0]);
      PerformLater(t, i, acts[1..], u);
      if t.closes[u] == s.closes[u] {
        PerformOnward(t, i, acts[1..], u);
      }
      ChainQuiet(s, t, Perform(s, i, acts), u);
    }
  }

  lemma JoinOnward(s: State, i: int, up: int, req: seq<Byte>, q: Queue, u: int)
    requires Inv(s) && s.Slot(i) && s.pair[i] == NONE && s.Slot(up) && Fresh(s, up) && up != i
    requires PairAt(s, u)
    ensures var t := SetOut(Join(s, i, up, req), up, q);
            Onward(s, t, u, NOTHING, NOTHING) && Onward(s, CloseRaw(t, up), u, NOTHING, NOTHING)
  {
    assert SlotOk(s, u) && SlotOk(s, s.pair[u]);
    var t := SetOut(Join(s, i, up, req), up, q);
    JoinApart(s, i, up, req, q, u);
    JoinApart(s, i, up, req, q, s.pair[u]);
    Same(s, t, u);
    Same(s, CloseRaw(t, up), u);
  }

  lemma RefusedOnward(s: State, up: int, u: int)
    requires Inv(s) && Fresh(s, up) && PairAt(s, u)
    ensures Onward(s, OpenAndClose(s, up), u, NOTHING, NOTHING)
  {
    assert SlotOk(s, u) && SlotOk(s, s.pair[u]);
    Same(s, OpenAndClose(s, up), u);
  }

  lemma ProxyOnward(s: State, i: int, a: App, u: int)
    requires Inv(s) && Normal(s, i) && s.Live(i) && a.Upgrade? && s.Slot(u) && s.pair[u] != NONE
    requires a.up == NONE || (Fresh(s, a.up) && a.up != i)
    requires Pairs(s, a) ==> s.pair[i] == NONE
    ensures PairAt(s, u) && Onward(s, Proxy(s, i, a.up, a.hasKey, a.req, a.sent), u, NOTHING, NOTHING)
  {
    InvLinks(s, u);
    if Pairs(s, a) {
      var k := if a.sent.Room? then Min(a.sent.n, |a.req|) else 0;
      JoinOnward(s, i, a.up, a.req, Queue([], a.req[..k], false), u);
    } else if a.up != NONE {
      RefusedOnward(s, a.up, u);
    } else {
      Same(s, s, u);
    }
  }

  lemma AcceptOnward(s: State, fd: int, u: int)
    requires Inv(s) && (fd <= 0 || Fresh(s, fd)) && s.Slot(u) && s.pair[u] != NONE
    ensures PairAt(s, u) && Onward(s, Accept(s, fd), u, NOTHING, NOTHING)
  {
    InvLinks(s, u);
    assert SlotOk(s, u) && SlotOk(s, s.pair[u]);
    Same(s, Accept(s, fd), u);
  }

  // ---- Waiting upstreams and tunnels ----

  lemma EnterApart(s: State, p: int, i: int, data: seq<Byte>, r: Outcome, j: int)
    requires PairAt(s, p) && s.pair[p] == i && s.Slot(j) && j != i && j != p
    ensures Untouched(s, Enter(LowWrite(MarkStart(s, p, i, data), p, data, r), p, i), j)
    ensures Untouched(s, CloseRaw(LowWrite(s, p, data, r), i), j)
  {
    WriteApart(MarkStart(s, p, i, data), p, data, r, j);
    WriteApart(s, p, data, r, j);
    WritePair(s, p, data, r);
    CloseApart(LowWrite(s, p, data, r), i, j);
  }

  lemma WritePair(s: State, p: int, data: seq<Byte>, r: Outcome)
    requires PairAt(s, p)
    ensures var t := LowWrite(s, p, data, r);
            t.pair[s.pair[p]] == p || t.pair[s.pair[p]] == NONE
  {
  }

  /** Serving the upstream of another pair. */
  lemma OtherWaitingOnward(s: State, i: int, data: seq<Byte>, r: Outcome, u: int)
    requires Inv(s) && s.Slot(i) && s.descr[i].flags.waiting && AnswerFits(s, i, data, r)
    requires s.Slot(u) && s.pair[u] != NONE && u != i && u != s.pair[i]
    ensures PairAt(s, u) && Onward(s, ServeWaiting(s, i, data, r), u, NOTHING, NOTHING)
  {
    InvLinks(s, u);
    InvLinks(s, i);
    Apart(s, i, u);
    var p := s.pair[i];
    if data == [] || !GoodPeer(s, i) {
      CloseOnward(s, i, u);
    } else {
      EnterApart(s, p, i, data, r, u);
      EnterApart(s, p, i, data, r, s.pair[u]);
      Same(s, ServeWaiting(s, i, data, r), u);
    }
  }

  /** What relaying `data` from `i` means for slot `j` of a tunnel. */
  function Relayed(s: State, i: int, data: seq<Byte>, r: Outcome, j: int): Gain
    requires s.Sized() && s.Slot(j)
  {
    Gain(if i == j then data else [], i == s.pair[j] && Drops(s.descr[j].out, data, r))
  }

  /** Relaying, in any pair. */
  lemma TunnelOnward(s: State, i: int, data: seq<Byte>, r: Outcome, u: int)
    requires Inv(s) && s.Slot(i) && s.descr[i].flags.tunnel && s.Slot(u) && s.pair[u] != NONE
    ensures PairAt(s, u)
    ensures if EndOf(s, i, u)
            then Onward(s, ServeTunnel(s, i, data, r), u, Relayed(s, i, data, r, u), Relayed(s, i, data, r, s.pair[u]))
            else Onward(s, ServeTunnel(s, i, data, r), u, NOTHING, NOTHING)
  {
    InvLinks(s, u);
    InvLinks(s, i);
    CloseOnward(s, i, u);
    assert SlotOk(s, i) && SlotOk(s, s.pair[i]);
    if data != [] {
      RelayOnward(s, i, data, r, u);
    }
  }

  lemma RelayOnward(s: State, i: int, data: seq<Byte>, r: Outcome, u: int)
    requires PairAt(s, u) && PairAt(s, i) && s.descr[i].flags.tunnel && s.Live(s.pair[i]) && s.pair[i] in s.io
    ensures var v := LowWrite(Grown(s, i, data), s.pair[i], data, r);
            if EndOf(s, i, u)
            then Onward(s, v, u, Relayed(s, i, data, r, u), Relayed(s, i, data, r, s.pair[u]))
            else Onward(s, v, u, NOTHING, NOTHING)
  {
    var p, t := s.pair[i], Grown(s, i, data);
    if EndOf(s, i, u) {
      var w := SetOut(t, p, Send(s.descr[p].out, data, r));
      CloseOwn(w, p, u);
      RelayOwn(s, i, data, r, u);
    } else {
      Apart(s, i, u);
      WriteApart(t, p, data, r, u);
      WriteApart(t, p, data, r, s.pair[u]);
      Same(s, LowWrite(t, p, data, r), u);
    }
  }

  function Grown(s: State, i: int, data: seq<Byte>): State
    requires s.Sized() && s.Slot(i)
  {
    s.(descr := s.descr[i := s.descr[i].(rx := s.descr[i].rx + data)])
  }

  lemma RelayOwn(s: State, i: int, data: seq<Byte>, r: Outcome, u: int)
    requires PairAt(s, u) && PairAt(s, i) && EndOf(s, i, u)
    ensures var p := s.pair[i];
            Onward(s, SetOut(Grown(s, i, data), p, Send(s.descr[p].out, data, r)), u,
                   Relayed(s, i, data, r, u), Relayed(s, i, data, r, s.pair[u]))
  {
    var p := s.pair[i];
    SendAppends(s.descr[p].out, data, r);
    assert s.descr[p].rx + [] == s.descr[p].rx;
  }

  /** Serving slot `i` writes what it read to its peer, and that is dropped. */
  predicate DropsTo(s: State, i: int, x: Input)
    requires s.Sized() && s.Slot(i)
  {
    && i in s.read && (s.descr[i].flags.tunnel || s.descr[i].flags.waiting)
    && s.HasPeer(i) && Drops(s.descr[s.pair[i]].out, x.data, x.room)
  }

  /** What serving slot `i` means for slot `j` of a tunnel. */
  function Part(s: State, i: int, x: Input, j: int): Gain
    requires s.Sized() && s.Slot(i) && s.Slot(j)
  {
    if !s.descr[j].flags.tunnel then NOTHING
    else Gain(if i == j && j in s.read then x.data else [], i == s.pair[j] && DropsTo(s, i, x))
  }

  /** One served slot: a pair in which no answer arrives is torn down or goes
      on, and its history grows by exactly what was read from each end. */
  lemma ServeOnward(s: State, i: int, x: Input, u: int)
    requires Inv(s) && s.Slot(i) && Allowed(s, i, x) && s.Slot(u)
    requires s.descr[u].flags.tunnel || (s.descr[u].flags.waiting && (i != u || u !in s.read))
    ensures PairAt(s, u) && Onward(s, Serve(s, i, x), u, Part(s, i, x, u), Part(s, i, x, s.pair[u]))
  {
    InvLinks(s, u);
    InvLinks(s, i);
    assert SlotOk(s, u) && SlotOk(s, i);
    if i !in s.read || !s.Live(i) {
      Same(s, s, u);
    } else if i == s.srv {
      AcceptOnward(s, x.fd, u);
    } else if s.descr[i].flags.waiting {
      OtherWaitingOnward(s, i, x.data, x.room, u);
    } else if s.descr[i].flags.tunnel {
      TunnelOnward(s, i, x.data, x.room, u);
    } else if x.app.Handle? {
      PerformOnward(s, i, x.app.acts, u);
    } else {
      ProxyOnward(s, i, x.app, u);
    }
  }

  // ---- Passes ----

  /** Slot `p` is one of `i` to `k` in a read pass, and what it writes to its
      peer is dropped. */
  predicate DropsIn(s: State, i: nat, k: nat, xs: seq<Input>, p: int)
    requires s.Sized() && i <= k <= |s.descr| == |xs|
  {
    i <= p < k && DropsTo(Upto(s, i, p, xs), p, xs[p])
  }

  lemma DropsInStep(s: State, i: nat, k: nat, xs: seq<Input>, p: int)
    requires s.Sized() && i < k <= |s.descr| == |xs|
    ensures DropsIn(s, i, k, xs, p) <==>
            (i == p && DropsTo(s, i, xs[i])) || DropsIn(Serve(s, i, xs[i]), i + 1, k, xs, p)
  {
  }

  /** What slots `i` to `k` of a read pass mean for slot `j` of a tunnel. */
  function Pass(s: State, i: nat, k: nat, xs: seq<Input>, j: int): Gain
    requires s.Sized() && s.Slot(j) && i <= k <= |s.descr| == |xs|
  {
    if !s.descr[j].flags.tunnel then NOTHING
    else Gain(if i <= j < k && j in s.read then xs[j].data else [], DropsIn(s, i, k, xs, s.pair[j]))
  }

  lemma {:induction false} UptoKeeps(s: State, i: nat, k: nat, xs: seq<Input>)
    requires Inv(s) && i <= k <= |s.descr| == |xs| && AllowedFrom(s, i, xs)
    ensures Inv(Upto(s, i, k, xs)) && AllowedFrom(Upto(s, i, k, xs), k, xs)
    decreases k - i
  {
    if i < k {
      ServeKeeps(s, i, xs[i]);
      UptoKeeps(Serve(s, i, xs[i]), i + 1, k, xs);
    }
  }

  /** No answer is read for the pair of `u` by slots `i` to `k`. */
  predicate NoAnswer(s: State, i: nat, k: nat, u: int)
    requires s.Sized() && s.Slot(u)
  {
    s.descr[u].flags.tunnel || (s.descr[u].flags.waiting && (u !in s.read || !(i <= u < k)))
  }

  /** Of a pair that went on, each end is still watched if it was. */
  lemma PassStep(s: State, t: State, i: nat, k: nat, xs: seq<Input>, j: int)
    requires s.Sized() && t.Sized() && |s.descr| == |t.descr| == |xs| && i < k <= |xs| && s.Slot(j)
    requires Continues(s, t, j, Part(s, i, xs[i], j)) && Later(s, t, j)
    requires var p := s.pair[j];
      DropsIn(s, i, k, xs, p) == ((i == p && DropsTo(s, i, xs[i])) || DropsIn(t, i + 1, k, xs, p))
    ensures Part(s, i, xs[i], j).Plus(Pass(t, i + 1, k, xs, j)) == Pass(s, i, k, xs, j)
    ensures NoAnswer(s, i, k, j) ==> NoAnswer(t, i + 1, k, j)
  {
  }

  /** The first slot of a pass is served in `s`, which gives `t`. */
  predicate FirstStep(s: State, t: State, i: nat, k: nat, xs: seq<Input>, u: int)
    requires PairAt(s, u) && t.Sized() && |s.descr| == |t.descr| == |xs| && i < k <= |xs|
  {
    var p := s.pair[u];
    && Onward(s, t, u, Part(s, i, xs[i], u), Part(s, i, xs[i], p))
    && Later(s, t, u) && Later(s, t, p)
    && DropsIn(s, i, k, xs, u) == ((i == u && DropsTo(s, i, xs[i])) || DropsIn(t, i + 1, k, xs, u))
    && DropsIn(s, i, k, xs, p) == ((i == p && DropsTo(s, i, xs[i])) || DropsIn(t, i + 1, k, xs, p))
  }

  lemma UptoStep(s: State, t: State, v: State, i: nat, k: nat, xs: seq<Input>, u: int)
    requires PairAt(s, u) && t.Sized() && v.Sized() && |s.descr| == |t.descr| == |v.descr| == |xs| && i < k <= |xs|
    requires FirstStep(s, t, i, k, xs, u) && Later(t, v, u)
    requires t.closes[u] == s.closes[u] ==>
      t.HasPeer(u) && Onward(t, v, u, Pass(t, i + 1, k, xs, u), Pass(t, i + 1, k, xs, t.pair[u]))
    ensures Onward(s, v, u, Pass(s, i, k, xs, u), Pass(s, i, k, xs, s.pair[u]))
  {
    var p := s.pair[u];
    if t.closes[u] == s.closes[u] {
      PassStep(s, t, i, k, xs, u);
      PassStep(s, t, i, k, xs, p);
    }
    ChainTo(s, t, v, u, Part(s, i, xs[i], u), Part(s, i, xs[i], p), Pass(t, i + 1, k, xs, u), Pass(t, i + 1, k, xs, p),
            Pass(s, i, k, xs, u), Pass(s, i, k, xs, p));
  }

  lemma {:induction false} UptoOnward(s: State, i: nat, k: nat, xs: seq<Input>, u: int)
    requires Inv(s) && i <= k <= |s.descr| == |xs| && AllowedFrom(s, i, xs) && s.Slot(u) && NoAnswer(s, i, k, u)
    ensures PairAt(s, u)
    ensures Onward(s, Upto(s, i, k, xs), u, Pass(s, i, k, xs, u), Pass(s, i, k, xs, s.pair[u]))
    decreases k - i, 0
  {
    if i == k {
      Unmoved(s, u);
    } else {
      var t, v := FirstServed(s, i, k, xs, u);
      UptoRest(s, t, v, i, k, xs, u);
    }
  }

  /** The slots behind the first one. */
  lemma {:induction false} UptoRest(s: State, t: State, v: State, i: nat, k: nat, xs: seq<Input>, u: int)
    requires Inv(t) && PairAt(s, u) && |s.descr| == |t.descr| == |v.descr| == |xs| && i < k <= |xs| && v.Sized()
    requires FirstStep(s, t, i, k, xs, u) && AllowedFrom(t, i + 1, xs)
    requires t.closes[u] == s.closes[u] ==> NoAnswer(t, i + 1, k, u)
    requires v == Upto(t, i + 1, k, xs) && Later(t, v, u)
    ensures Onward(s, v, u, Pass(s, i, k, xs, u), Pass(s, i, k, xs, s.pair[u]))
    decreases k - i - 1, 1
  {
    if t.closes[u] == s.closes[u] {
      UptoOnward(t, i + 1, k, xs, u);
    }
    UptoStep(s, t, v, i, k, xs, u);
  }

  lemma FirstServed(s: State, i: nat, k: nat, xs: seq<Input>, u: int) returns (t: State, v: State)
    requires Inv(s) && i < k <= |s.descr| == |xs| && AllowedFrom(s, i, xs) && s.Slot(u) && NoAnswer(s, i, k, u)
    ensures Inv(t) && |t.descr| == |s.descr| && AllowedFrom(t, i + 1, xs)
    ensures PairAt(s, u) && FirstStep(s, t, i, k, xs, u)
    ensures t.closes[u] == s.closes[u] ==> NoAnswer(t, i + 1, k, u)
    ensures v == Upto(t, i + 1, k, xs) == Upto(s, i, k, xs) && Later(t, v, u)
  {
    t := Serve(s, i, xs[i]);
    v := Upto(t, i + 1, k, xs);
    ServeStep(s, t, i, k, xs, u);
    UptoLater(t, i + 1, k, xs, u);
  }

  lemma Unmoved(s: State, u: int)
    requires Inv(s) && s.Slot(u) && (s.descr[u].flags.tunnel || s.descr[u].flags.waiting)
    ensures PairAt(s, u) && Onward(s, s, u, NOTHING, NOTHING)
  {
    InvLinks(s, u);
    Same(s, s, u);
  }

  lemma ServeStep(s: State, t: State, i: nat, k: nat, xs: seq<Input>, u: int)
    requires Inv(s) && i < k <= |s.descr| == |xs| && Allowed(s, i, xs[i]) && s.Slot(u) && NoAnswer(s, i, k, u)
    requires t == Serve(s, i, xs[i])
    ensures Inv(t) && PairAt(s, u) && FirstStep(s, t, i, k, xs, u)
    ensures t.closes[u] == s.closes[u] ==> NoAnswer(t, i + 1, k, u)
  {
    ServeKeeps(s, i, xs[i]);
    ServeOnward(s, i, xs[i], u);
    DropsInStep(s, i, k, xs, u);
    DropsInStep(s, i, k, xs, s.pair[u]);
    ServeLater(s, i, xs[i], u);
    ServeLater(s, i, xs[i], s.pair[u]);
    if t.closes[u] == s.closes[u] {
      PassStep(s, t, i, k, xs, u);
    }
  }

  lemma {:induction false} FlushFromLater(s: State, i: nat, rs: seq<Outcome>, onlyWritable: bool, j: int)
    requires s.Sized() && i <= |s.descr| == |rs|
    ensures Later(s, FlushFrom(s, i, rs, onlyWritable), j)
    decreases |rs| - i
  {
    if i < |rs| {
      FlushLater(s, i, rs[i], j);
      FlushFromLater(FlushSlot(s, i, rs[i], onlyWritable), i + 1, rs, onlyWritable, j);
    }
  }

  lemma FlushSlotOnward(s: State, t: State, i: int, r: Outcome, onlyWritable: bool, u: int)
    requires Inv(s) && s.Slot(i) && PairAt(s, u) && t == FlushSlot(s, i, r, onlyWritable)
    ensures Inv(t) && Onward(s, t, u, NOTHING, NOTHING) && (t.closes[u] == s.closes[u] ==> PairAt(t, u))
  {
    InvLinks(s, i);
    Same(s, s, u);
    FlushOnward(s, i, r, u);
    FlushSlotKeeps(s, i, r, onlyWritable);
    InvLinks(t, u);
  }

  lemma {:induction false} FlushFromOnward(s: State, i: nat, rs: seq<Outcome>, onlyWritable: bool, u: int)
    requires Inv(s) && i <= |s.descr| == |rs| && PairAt(s, u)
    ensures Onward(s, FlushFrom(s, i, rs, onlyWritable), u, NOTHING, NOTHING)
    decreases |rs| - i, 0
  {
    if i == |rs| {
      Same(s, s, u);
    } else {
      var t := FlushSlot(s, i, rs[i], onlyWritable);
      FlushSlotOnward(s, t, i, rs[i], onlyWritable, u);
      FlushFromLater(t, i + 1, rs, onlyWritable, u);
      FlushRest(s, t, FlushFrom(t, i + 1, rs, onlyWritable), i + 1, rs, onlyWritable, u);
    }
  }

  /** The slots behind the first one. */
  lemma {:induction false} FlushRest(s: State, t: State, v: State, i: nat, rs: seq<Outcome>, onlyWritable: bool, u: int)
    requires PairAt(s, u) && Inv(t) && |s.descr| == |t.descr| && i <= |t.descr| == |rs|
    requires Onward(s, t, u, NOTHING, NOTHING) && (t.closes[u] == s.closes[u] ==> PairAt(t, u))
    requires v == FlushFrom(t, i, rs, onlyWritable) && t.closes[u] <= v.closes[u]
    ensures Onward(s, v, u, NOTHING, NOTHING)
    decreases |rs| - i, 1
  {
    if t.closes[u] == s.closes[u] {
      FlushFromOnward(t, i, rs, onlyWritable, u);
    }
    ChainQuiet(s, t, v, u);
  }

  // ---- Turns ----

  /** After select, a live slot is in `read` exactly if it is ready. */
  lemma Selected(s: State, ready: set<int>, writable: set<int>, j: int)
    requires Inv(s) && s.Slot(j) && s.pair[j] != NONE
    ensures j in Select(s, ready, writable).read <==> j in ready
  {
    assert SlotOk(s, j);
  }

  /** The first flushing pass. */
  lemma DrainOnward(s: State, t: Turn, u: int) returns (s1: State)
    requires Inv(s) && Fits(|s.descr|, t) && PairAt(s, u)
    ensures s1 == FlushFrom(BeforeDrain(s, t), 0, t.drain, false) && Inv(s1)
    ensures Onward(s, s1, u, NOTHING, NOTHING) && s.closes[u] <= s1.closes[u]
    ensures s.closes[u] == s1.closes[u] ==> PairAt(s1, u)
  {
    var s0 := BeforeDrain(s, t);
    s1 := FlushFrom(s0, 0, t.drain, false);
    SetsKeep(s, s0);
    FlushFromOnward(s0, 0, t.drain, false, u);
    FlushFromLater(s0, 0, t.drain, false, u);
    FlushFromKeeps(s0, 0, t.drain, false);
    InvLinks(s1, u);
  }

  /** Select and the second flushing pass. */
  lemma SelectOnward(s1: State, s2: State, v: State, t: Turn, u: int)
    requires Inv(s1) && Fits(|s1.descr|, t) && PairAt(s1, u)
    requires s2 == Select(s1, t.ready, t.writable) && v == if t.some then FlushFrom(s2, 0, t.flush, true) else s2
    ensures Onward(s1, v, u, NOTHING, NOTHING)
    ensures t.some && s1.closes[u] == v.closes[u] ==>
              (u in v.read <==> u in t.ready) && (s1.pair[u] in v.read <==> s1.pair[u] in t.ready)
  {
    var p := s1.pair[u];
    SetsKeep(s1, s2);
    Selected(s1, t.ready, t.writable, u);
    Selected(s1, t.ready, t.writable, p);
    Same(s1, s2, u);
    FlushFromOnward(s2, 0, t.flush, true, u);
    FlushFromLater(s2, 0, t.flush, true, u);
    FlushFromLater(s2, 0, t.flush, true, p);
  }

  /** The flushing passes and select, seen from one pair. */
  lemma BeforeReadsOnward(s: State, t: Turn, u: int)
    requires Inv(s) && Fits(|s.descr|, t) && PairAt(s, u)
    ensures var v := BeforeReads(s, t);
            && Onward(s, v, u, NOTHING, NOTHING) && s.closes[u] <= v.closes[u]
            && (t.some && s.closes[u] == v.closes[u] ==>
                 (u in v.read <==> u in t.ready) && (s.pair[u] in v.read <==> s.pair[u] in t.ready))
  {
    var s1 := DrainOnward(s, t, u);
    var s2, v := Select(s1, t.ready, t.writable), BeforeReads(s, t);
    FlushFromLater(s2, 0, t.flush, true, u);
    if s1.closes[u] == s.closes[u] {
      SelectOnward(s1, s2, v, t, u);
    }
    ChainQuiet(s, s1, v, u);
  }

  /** What the read pass of `t`, which starts in `v`, means for slot `j` of a
      tunnel in `s`. */
  function InReads(s: State, v: State, t: Turn, j: int): Gain
    requires s.Sized() && v.Sized() && Fits(|v.descr|, t) && s.Slot(j) && t.some
  {
    if !s.descr[j].flags.tunnel then NOTHING
    else Gain(ReadIn(t, j), DropsIn(v, 0, |t.inputs|, t.inputs, s.pair[j]))
  }

  /** The read pass of a turn in which no answer arrives for the pair of `u`. */
  lemma ReadsOnward(v: State, t: Turn, u: int)
    requires Inv(v) && Fits(|v.descr|, t) && AllowedFrom(v, 0, t.inputs) && v.Slot(u) && t.some
    requires v.descr[u].flags.tunnel || (v.descr[u].flags.waiting && u !in t.ready)
    requires v.Slot(v.pair[u]) && (u in v.read <==> u in t.ready) && (v.pair[u] in v.read <==> v.pair[u] in t.ready)
    ensures PairAt(v, u)
    ensures Onward(v, ProcReads(v, 0, t.inputs), u, InReads(v, v, t, u), InReads(v, v, t, v.pair[u]))
  {
    var n, p := |t.inputs|, v.pair[u];
    assert SlotOk(v, u) && SlotOk(v, p);
    UptoLater(v, 0, n, t.inputs, u);
    UptoOnward(v, 0, n, t.inputs, u);
  }

  lemma LoopLater(s: State, t: Turn, j: int)
    requires s.Sized() && Fits(|s.descr|, t)
    ensures s.closes[j] <= BeforeReads(s, t).closes[j] <= Loop(s, t).closes[j]
  {
    var s0 := BeforeDrain(s, t);
    var s2 := Select(FlushFrom(s0, 0, t.drain, false), t.ready, t.writable);
    FlushFromLater(s0, 0, t.drain, false, j);
    FlushFromLater(s2, 0, t.flush, true, j);
    UptoLater(BeforeReads(s, t), 0, |t.inputs|, t.inputs, j);
  }

  /** The state in which slot `i` is served in a turn that starts in `s`. */
  function Reaches(s: State, t: Turn, i: nat): (u: State)
    requires s.Sized() && Fits(|s.descr|, t) && i <= |s.descr|
    ensures u.Sized() && |u.descr| == |s.descr|
  {
    Upto(BeforeReads(s, t), 0, i, t.inputs)
  }

  /** During the turn slot `p` writes to its peer, and that is dropped. */
  predicate DropsDuring(s: State, t: Turn, p: int)
    requires s.Sized() && Fits(|s.descr|, t)
  {
    t.some && s.Slot(p) && DropsTo(Reaches(s, t, p), p, t.inputs[p])
  }

  /** What a turn means for slot `j` of a tunnel. */
  function InTurn(s: State, t: Turn, j: int): Gain
    requires s.Sized() && Fits(|s.descr|, t) && s.Slot(j)
  {
    if !s.descr[j].flags.tunnel then NOTHING
    else Gain(ReadIn(t, j), DropsDuring(s, t, s.pair[j]))
  }

  /** A turn in which no answer arrives for the pair of `u`. */
  lemma TurnOnward(s: State, t: Turn, u: int)
    requires Inv(s) && Fits(|s.descr|, t) && AllowedTurn(s, t) && s.Slot(u)
    requires s.descr[u].flags.tunnel || (s.descr[u].flags.waiting && !(t.some && u in t.ready))
    ensures PairAt(s, u) && Onward(s, Loop(s, t), u, InTurn(s, t, u), InTurn(s, t, s.pair[u]))
  {
    InvLinks(s, u);
    assert SlotOk(s, u) && SlotOk(s, s.pair[u]);
    var v := BeforeReads(s, t);
    BeforeReadsOnward(s, t, u);
    BeforeReadsKeeps(s, t);
    LoopLater(s, t, u);
    if t.some {
      if v.closes[u] == s.closes[u] {
        ReadsOnward(v, t, u);
      }
      var a, b := InTurn(s, t, u), InTurn(s, t, s.pair[u]);
      ChainTo(s, v, Loop(s, t), u, NOTHING, NOTHING, a, b, a, b);
    }
  }

  // ---- The turn of the answer ----

  /** How far a pair has come while slot `i` is reached. */
  lemma ReachesOnward(s: State, t: Turn, u: int, i: nat)
    requires Inv(s) && Fits(|s.descr|, t) && AllowedTurn(s, t) && t.some && s.Slot(u) && s.descr[u].flags.waiting && i <= u
    ensures PairAt(s, u) && i <= |s.descr|
    ensures var m := Reaches(s, t, i);
            && Inv(m) && AllowedFrom(m, i, t.inputs) && Loop(s, t) == ProcReads(m, i, t.inputs)
            && s.closes[u] <= m.closes[u] <= Loop(s, t).closes[u]
            && Onward(s, m, u, NOTHING, NOTHING)
            && (m.closes[u] == s.closes[u] ==>
                 (u in m.read <==> u in t.ready) && (s.pair[u] in m.read <==> s.pair[u] in t.ready))
  {
    InvLinks(s, u);
    var v, m := BeforeReads(s, t), Reaches(s, t, i);
    BeforeReadsOnward(s, t, u);
    BeforeReadsKeeps(s, t);
    UptoKeeps(v, 0, i, t.inputs);
    UptoLater(v, 0, i, t.inputs, u);
    UptoLater(v, 0, i, t.inputs, s.pair[u]);
    UptoLater(m, i, |t.inputs|, t.inputs, u);
    if v.closes[u] == s.closes[u] {
      InvLinks(v, u);
      assert SlotOk(v, u) && SlotOk(v, v.pair[u]);
      UptoOnward(v, 0, i, t.inputs, u);
    }
    ChainQuiet(s, v, m, u);
  }

  /** The 101 in `x` was read from upstream `u` in `m`, and forwarded. */
  predicate Opened(m: State, v: State, u: int, x: Input)
    requires PairAt(m, u) && v.Sized() && |v.descr| == |m.descr|
  {
    var c := m.pair[u];
    && v.pair == m.pair && v.closes == m.closes && v.read == m.read
    && Is101(x.data) && v.descr[u].flags.tunnel && v.descr[c].flags.tunnel
    && v.descr[u].base == m.descr[u].base && v.descr[u].rx == x.data && !v.descr[u].out.lost
    && v.descr[c].base == m.descr[c].out.Stream() && v.descr[c].rx == [] && v.descr[c].out.lost == DropsTo(m, u, x)
  }

  /** Serving the waiting upstream itself, if that does not close it. */
  lemma AnswerServed(m: State, u: int, x: Input)
    requires Inv(m) && m.Slot(u) && m.descr[u].flags.waiting && Allowed(m, u, x) && u in m.read
    ensures PairAt(m, u) && (Serve(m, u, x).closes[u] == m.closes[u] ==> Opened(m, Serve(m, u, x), u, x))
  {
    InvLinks(m, u);
    assert SlotOk(m, u) && SlotOk(m, m.pair[u]) && FlowOk(m, u);
    var c := m.descr[m.pair[u]];
    SendIgnoresLost(c.out, x.data, x.room);
    SendAppends(c.out.(lost := false), x.data, x.room);
  }

  /** The slots behind `i`, for a pair that gets no answer from them. */
  lemma RestOnward(m: State, v: State, f: State, i: nat, xs: seq<Input>, u: int)
    requires Inv(m) && i < |m.descr| == |xs| && AllowedFrom(m, i, xs)
    requires v == Serve(m, i, xs[i]) && f == ProcReads(m, i, xs)
    requires v.Slot(u) && NoAnswer(v, i + 1, |xs|, u)
    ensures PairAt(v, u) && |f.descr| == |v.descr| && v.closes[u] <= f.closes[u]
    ensures Onward(v, f, u, Pass(v, i + 1, |xs|, xs, u), Pass(v, i + 1, |xs|, xs, v.pair[u]))
  {
    ServeKeeps(m, i, xs[i]);
    RestIs(m, v, i, xs, u);
    UptoOnward(v, i + 1, |xs|, xs, u);
  }

  lemma RestIs(m: State, v: State, i: nat, xs: seq<Input>, u: int)
    requires m.Sized() && i < |m.descr| == |xs| && v == Serve(m, i, xs[i])
    ensures ProcReads(m, i, xs) == Upto(v, i + 1, |xs|, xs) && Later(v, ProcReads(m, i, xs), u)
  {
    UptoLater(v, i + 1, |xs|, xs, u);
  }

  lemma AnswerThen(m: State, u: nat, xs: seq<Input>)
    requires Inv(m) && u < |m.descr| == |xs| && AllowedFrom(m, u, xs) && m.descr[u].flags.waiting && u in m.read
    ensures PairAt(m, u)
    ensures ProcReads(m, u, xs).closes[u] == m.closes[u] ==> Carried(m, ProcReads(m, u, xs), u, xs)
  {
    var v := Serve(m, u, xs[u]);
    AnswerServed(m, u, xs[u]);
    ServeLater(m, u, xs[u], u);
    RestIs(m, v, u, xs, u);
    if ProcReads(m, u, xs).closes[u] == m.closes[u] {
      RestOnward(m, v, ProcReads(m, u, xs), u, xs, u);
      DropsInStep(m, u, |xs|, xs, m.pair[u]);
      OpenedCarried(m, v, ProcReads(m, u, xs), u, xs);
    }
  }

  /** The read pass from upstream `u` on, whose answer opens the tunnel. */
  predicate Carried(m: State, f: State, u: nat, xs: seq<Input>)
    requires PairAt(m, u) && f.Sized() && |f.descr| == |m.descr| == |xs|
  {
    var c := m.pair[u];
    && Is101(xs[u].data) && f.pair[u] == c && f.descr[u].flags.tunnel
    && f.descr[u].base == m.descr[u].base && f.descr[u].rx == xs[u].data
    && f.descr[c].base == m.descr[c].out.Stream()
    && f.descr[c].rx == (if u < c && c in m.read then xs[c].data else [])
    && f.descr[u].out.lost == DropsIn(m, u, |xs|, xs, c)
    && f.descr[c].out.lost == DropsTo(m, u, xs[u])
  }

  lemma OpenedCarried(m: State, v: State, f: State, u: nat, xs: seq<Input>)
    requires PairAt(m, u) && v.Sized() && f.Sized() && |v.descr| == |f.descr| == |m.descr| == |xs|
    requires Opened(m, v, u, xs[u]) && f.closes[u] == m.closes[u]
    requires Onward(v, f, u, Pass(v, u + 1, |xs|, xs, u), Pass(v, u + 1, |xs|, xs, v.pair[u]))
    requires var c := m.pair[u]; DropsIn(m, u, |xs|, xs, c) <==> (u == c && DropsTo(m, u, xs[u])) || DropsIn(v, u + 1, |xs|, xs, c)
    ensures Carried(m, f, u, xs)
  {
  }

  /** Turn `t`, from `s` to `f`, has started the tunnel of upstream `u`: the
      upstream's side begins with what it had been sent, the client's with its
      output so far, the answer being the first bytes relayed to it. */
  predicate Started(s: State, t: Turn, f: State, u: int)
    requires PairAt(s, u) && Fits(|s.descr|, t) && f.Sized() && |f.descr| == |s.descr|
  {
    var c, m := s.pair[u], Reaches(s, t, u);
    && Is101(t.inputs[u].data) && f.pair[u] == c && f.descr[u].flags.tunnel
    && f.descr[u].base == s.descr[u].base && f.descr[u].rx == ReadIn(t, u)
    && f.descr[c].base == m.descr[c].out.Stream()
    && f.descr[c].rx == (if u < c then ReadIn(t, c) else [])
    && f.descr[u].out.lost == DropsDuring(s, t, c)
    && f.descr[c].out.lost == DropsDuring(s, t, u)
  }

  /** When the waiting upstream becomes ready, its pair is torn down, or its
      answer is a 101, which starts the tunnel. */
  lemma AnswerTurn(s: State, t: Turn, u: int)
    requires Inv(s) && Fits(|s.descr|, t) && AllowedTurn(s, t) && t.some && u in t.ready
    requires s.Slot(u) && s.descr[u].flags.waiting
    ensures PairAt(s, u)
    ensures Loop(s, t).closes[u] == s.closes[u] ==> Started(s, t, Loop(s, t), u)
  {
    ReachesOnward(s, t, u, u);
    if Loop(s, t).closes[u] == s.closes[u] {
      AnswerThen(Reaches(s, t, u), u, t.inputs);
      ClientDrops(s, t, u);
    }
  }

  /** The client writes to the upstream only from the answer on. */
  lemma ClientDrops(s: State, t: Turn, u: nat)
    requires Inv(s) && Fits(|s.descr|, t) && AllowedTurn(s, t) && t.some
    requires s.Slot(u) && s.descr[u].flags.waiting && s.Slot(s.pair[u])
    requires Reaches(s, t, u).closes[u] == s.closes[u]
    ensures DropsIn(Reaches(s, t, u), u, |t.inputs|, t.inputs, s.pair[u]) <==> DropsDuring(s, t, s.pair[u])
  {
    var c, b := s.pair[u], BeforeReads(s, t);
    InvLinks(s, u);
    if u < c {
      UptoTwice(b, 0, u, c, t.inputs);
    } else {
      ReachesOnward(s, t, u, c);
      UptoTwice(b, 0, c, u, t.inputs);
      UptoLater(Reaches(s, t, c), c, u, t.inputs, u);
      assert SlotOk(Reaches(s, t, c), u) && SlotOk(Reaches(s, t, c), c);
    }
  }

  lemma {:induction false} UptoTwice(s: State, i: nat, j: nat, k: nat, xs: seq<Input>)
    requires s.Sized() && i <= j <= k <= |s.descr| == |xs|
    ensures Upto(s, i, k, xs) == Upto(Upto(s, i, j, xs), j, k, xs)
    decreases j - i
  {
    if i < j {
      UptoTwice(Serve(s, i, xs[i]), i + 1, j, k, xs);
    }
  }

  // ---- The turn of the upgrade ----

  /** Slot `c` gets its upgrade request through to a new upstream. */
  predicate Connects(m: State, c: int, x: Input)
    requires m.Sized() && m.Slot(c)
  {
    && c in m.read && Normal(m, c) && m.Live(c)
    && x.app.Upgrade? && Pairs(m, x.app) && x.app.sent.Room? && x.app.sent.n >= |x.app.req|
  }

  lemma ConnectServed(m: State, c: int, x: Input)
    requires Inv(m) && m.Slot(c) && Connects(m, c, x) && Allowed(m, c, x)
    ensures var v, u := Serve(m, c, x), x.app.up;
            && v.Slot(u) && u !in v.read && v.pair[u] == c && v.closes == m.closes
            && v.descr[u].flags.waiting && v.descr[u].base == x.app.req
  {
    UpgradeSent(m, c, x.app);
  }

  lemma PairingTurn(s: State, t: Turn, c: nat)
    requires Inv(s) && Fits(|s.descr|, t) && AllowedTurn(s, t) && t.some && c < |s.descr|
    requires Connects(Reaches(s, t, c), c, t.inputs[c])
    ensures var m, f, u := Reaches(s, t, c), Loop(s, t), t.inputs[c].app.up;
            && f.Slot(u) && m.closes[u] <= f.closes[u]
            && (f.closes[u] == m.closes[u] ==>
                 f.pair[u] == c && f.descr[u].flags.waiting && f.descr[u].base == t.inputs[c].app.req)
  {
    var b, m := BeforeReads(s, t), Reaches(s, t, c);
    BeforeReadsKeeps(s, t);
    UptoKeeps(b, 0, c, t.inputs);
    UptoLater(b, 0, c, t.inputs, 0);
    ConnectServed(m, c, t.inputs[c]);
    RestOnward(m, Serve(m, c, t.inputs[c]), Loop(s, t), c, t.inputs, t.inputs[c].app.up);
  }

  // ---- Whole runs ----

  lemma {:induction false} RunLater(size: nat, srv: int, turns: seq<Turn>, a: nat, j: int)
    requires 0 < srv < size && AllFit(size, turns) && a <= |turns|
    ensures Execute(size, srv, turns[..a]).closes[j] <= Execute(size, srv, turns).closes[j]
  {
    if a == |turns| {
      assert turns[..a] == turns;
    } else {
      var before := turns[..|turns|-1];
      RunLater(size, srv, before, a, j);
      assert before[..a] == turns[..a];
      LoopLater(Execute(size, srv, before), turns[|turns|-1], j);
    }
  }

  lemma AllowedInit(size: nat, srv: int, turns: seq<Turn>)
    requires 0 < srv < size && AllFit(size, turns) && AllowedRun(size, srv, turns) && turns != []
    ensures AllowedRun(size, srv, turns[..|turns|-1])
  {
  }

  lemma {:induction false} AllowedBefore(size: nat, srv: int, turns: seq<Turn>, a: nat)
    requires 0 < srv < size && AllFit(size, turns) && AllowedRun(size, srv, turns) && a <= |turns|
    ensures AllowedRun(size, srv, turns[..a])
  {
    if a == |turns| {
      assert turns[..a] == turns;
    } else {
      AllowedInit(size, srv, turns);
      AllowedBefore(size, srv, turns[..|turns|-1], a);
      ShorterStill(turns, a);
    }
  }

  lemma ShorterStill(turns: seq<Turn>, a: nat)
    requires a < |turns|
    ensures turns[..|turns|-1][..a] == turns[..a]
  {
  }

  /** In turn `k` slot `p` writes to its peer, and that is dropped: nothing is
      queued for the peer, and the kernel answers with an error but EAGAIN. */
  predicate DropAt(size: nat, srv: int, turns: seq<Turn>, k: nat, p: int)
    requires 0 < srv < size && AllFit(size, turns)
  {
    k < |turns| && DropsDuring(Execute(size, srv, turns[..k]), turns[k], p)
  }

  /** Some data written by slot `p` to its peer since turn `a` was dropped. */
  predicate DroppedSince(size: nat, srv: int, turns: seq<Turn>, a: nat, p: int)
    requires 0 < srv < size && AllFit(size, turns)
  {
    a < |turns| &&
    (DroppedSince(size, srv, turns[..|turns|-1], a, p) || DropAt(size, srv, turns, |turns| - 1, p))
  }

  lemma DropAtBefore(size: nat, srv: int, turns: seq<Turn>, k: nat, p: int)
    requires 0 < srv < size && AllFit(size, turns) && k < |turns| - 1
    ensures DropAt(size, srv, turns[..|turns|-1], k, p) == DropAt(size, srv, turns, k, p)
  {
    assert turns[..|turns|-1][..k] == turns[..k];
  }

  lemma {:induction false} DroppedFirst(size: nat, srv: int, turns: seq<Turn>, a: nat, p: int)
    requires 0 < srv < size && AllFit(size, turns) && a < |turns|
    ensures DroppedSince(size, srv, turns, a, p) <==>
            DropAt(size, srv, turns, a, p) || DroppedSince(size, srv, turns, a + 1, p)
    decreases |turns|
  {
    if a < |turns| - 1 {
      DroppedFirst(size, srv, turns[..|turns|-1], a, p);
      DropAtBefore(size, srv, turns, a, p);
    }
  }

  /** The kernel answers no write with an error other than EAGAIN. */
  predicate Errorless(turns: seq<Turn>) {
    forall k, i :: 0 <= k < |turns| && 0 <= i < |turns[k].inputs| ==>
      var r := turns[k].inputs[i].room; r.Room? || r.Again?
  }

  lemma {:induction false} ErrorlessDropsNothing(size: nat, srv: int, turns: seq<Turn>, a: nat, p: int)
    requires 0 < srv < size && AllFit(size, turns) && Errorless(turns)
    ensures !DroppedSince(size, srv, turns, a, p)
  {
    if a < |turns| {
      ErrorlessDropsNothing(size, srv, turns[..|turns|-1], a, p);
    }
  }

  /** What the turns from `a` on mean for the slot of a tunnel with peer `p`. */
  function Since(size: nat, srv: int, turns: seq<Turn>, a: nat, j: int, p: int): Gain
    requires 0 < srv < size && AllFit(size, turns)
  {
    Gain(Received(turns, a, j), DroppedSince(size, srv, turns, a, p))
  }

  lemma SinceLast(size: nat, srv: int, turns: seq<Turn>, a: nat, j: int, p: int, g: State)
    requires 0 < srv < size && AllFit(size, turns) && a < |turns| && g == Execute(size, srv, turns[..|turns|-1])
    ensures var before, t := turns[..|turns|-1], turns[|turns|-1];
            Since(size, srv, turns, a, j, p) ==
            Since(size, srv, before, a, j, p).Plus(Gain(ReadIn(t, j), DropsDuring(g, t, p)))
  {
  }

  /** One more turn of a tunnel that was there in `s`. */
  lemma TurnLater(s: State, g: State, f: State, t: Turn, u: int, a: Gain, b: Gain)
    requires PairAt(s, u) && s.descr[u].flags.tunnel && s.descr[s.pair[u]].flags.tunnel
    requires Inv(g) && |g.descr| == |s.descr| && Fits(|g.descr|, t) && AllowedTurn(g, t) && f == Loop(g, t)
    requires Onward(s, g, u, a, b)
    ensures Onward(s, f, u, a.Plus(Gain(ReadIn(t, u), DropsDuring(g, t, s.pair[u]))),
                            b.Plus(Gain(ReadIn(t, s.pair[u]), DropsDuring(g, t, u))))
  {
    LoopLater(g, t, u);
    if g.closes[u] == s.closes[u] {
      TurnOnward(g, t, u);
    }
    Chain(s, g, f, u, a, b, Gain(ReadIn(t, u), DropsDuring(g, t, s.pair[u])), Gain(ReadIn(t, s.pair[u]), DropsDuring(g, t, u)));
  }

  /** A tunnel over any number of turns: as long as it is not torn down, each
      end's history grows by exactly the bytes read from it, and it loses data
      exactly if some that its peer wrote in these turns was dropped. */
  lemma {:induction false} RunOnward(size: nat, srv: int, turns: seq<Turn>, a: nat, u: int)
    requires 0 < srv < size && AllFit(size, turns) && AllowedRun(size, srv, turns)
    requires a <= |turns| && 0 <= u < size && Execute(size, srv, turns[..a]).descr[u].flags.tunnel
    ensures var s := Execute(size, srv, turns[..a]);
            PairAt(s, u) &&
            Onward(s, Execute(size, srv, turns), u,
                   Since(size, srv, turns, a, u, s.pair[u]), Since(size, srv, turns, a, s.pair[u], u))
  {
    var s, f := Execute(size, srv, turns[..a]), Execute(size, srv, turns);
    AllowedBefore(size, srv, turns, a);
    Safety(size, srv, turns[..a]);
    Unmoved(s, u);
    assert s.descr[s.pair[u]].flags.tunnel by {
      assert SlotOk(s, u);
    }
    if a == |turns| {
      assert turns[..a] == turns;
    } else {
      var before, t := turns[..|turns|-1], turns[|turns|-1];
      assert before[..a] == turns[..a];
      var g, p := Execute(size, srv, before), s.pair[u];
      RunOnward(size, srv, before, a, u);
      Safety(size, srv, before);
      SinceLast(size, srv, turns, a, u, p, g);
      SinceLast(size, srv, turns, a, p, u, g);
      TurnLater(s, g, f, t, u, Since(size, srv, before, a, u, p), Since(size, srv, before, a, p, u));
    }
  }

  /** A waiting upstream that is not torn down waits on for the same client,
      or has become the end of a tunnel to it. */
  lemma {:induction false} WaitRun(size: nat, srv: int, turns: seq<Turn>, a: nat, u: int)
    requires 0 < srv < size && AllFit(size, turns) && AllowedRun(size, srv, turns)
    requires a <= |turns| && 0 <= u < size && Execute(size, srv, turns[..a]).descr[u].flags.waiting
    ensures var s, f := Execute(size, srv, turns[..a]), Execute(size, srv, turns);
            f.closes[u] == s.closes[u] ==>
              f.pair[u] == s.pair[u] && f.descr[u].base == s.descr[u].base &&
              (f.descr[u].flags.waiting || f.descr[u].flags.tunnel)
  {
    var s, f := Execute(size, srv, turns[..a]), Execute(size, srv, turns);
    if a == |turns| {
      assert turns[..a] == turns;
    } else {
      var before, t := turns[..|turns|-1], turns[|turns|-1];
      assert before[..a] == turns[..a];
      WaitRun(size, srv, before, a, u);
      RunLater(size, srv, before, a, u);
      Safety(size, srv, before);
      var g := Execute(size, srv, before);
      LoopLater(g, t, u);
      if f.closes[u] == s.closes[u] {
        if g.descr[u].flags.waiting && t.some && u in t.ready {
          AnswerTurn(g, t, u);
        } else {
          TurnOnward(g, t, u);
        }
      }
    }
  }

  // ---- End to end ----

  /** In turn `e` the upstream's answer is read. */
  predicate AnswersAt(size: nat, srv: int, turns: seq<Turn>, e: nat, u: int)
    requires 0 < srv < size && AllFit(size, turns) && 0 <= u < size
  {
    e < |turns| && turns[e].some && u in turns[e].ready && Execute(size, srv, turns[..e]).descr[u].flags.waiting
  }

  /** From turn `a` on the upstream waits, and at the end of the run it is
      in a tunnel and has not been closed. */
  predicate WaitedThenTunnel(size: nat, srv: int, turns: seq<Turn>, a: nat, u: int)
    requires 0 < srv < size && AllFit(size, turns) && 0 <= u < size
  {
    && AllowedRun(size, srv, turns) && a <= |turns|
    && var s, f := Execute(size, srv, turns[..a]), Execute(size, srv, turns);
       s.descr[u].flags.waiting && f.descr[u].flags.tunnel && f.closes[u] == s.closes[u]
  }

  lemma {:induction false} AnswerFound(size: nat, srv: int, turns: seq<Turn>, a: nat, u: int) returns (e: nat)
    requires 0 < srv < size && AllFit(size, turns) && 0 <= u < size && WaitedThenTunnel(size, srv, turns, a, u)
    ensures a <= e < |turns| && AnswersAt(size, srv, turns, e, u)
  {
    NotYet(size, srv, turns, a, u);
    var before := turns[..|turns|-1];
    LastTurn(size, srv, turns, a, u);
    if AnswersAt(size, srv, turns, |turns| - 1, u) {
      e := |turns| - 1;
    } else {
      e := AnswerFound(size, srv, before, a, u);
      AnswersEarlier(size, srv, turns, e, u);
    }
  }

  lemma AnswersEarlier(size: nat, srv: int, turns: seq<Turn>, e: nat, u: int)
    requires 0 < srv < size && AllFit(size, turns) && 0 <= u < size && turns != []
    requires AnswersAt(size, srv, turns[..|turns|-1], e, u)
    ensures AnswersAt(size, srv, turns, e, u)
  {
    assert turns[..|turns|-1][..e] == turns[..e];
  }

  lemma NotYet(size: nat, srv: int, turns: seq<Turn>, a: nat, u: int)
    requires 0 < srv < size && AllFit(size, turns) && 0 <= u < size && WaitedThenTunnel(size, srv, turns, a, u)
    ensures a < |turns|
  {
    Safety(size, srv, turns);
    NotBoth(Execute(size, srv, turns), u);
    assert turns[..|turns|] == turns;
  }

  lemma LastTurn(size: nat, srv: int, turns: seq<Turn>, a: nat, u: int)
    requires 0 < srv < size && AllFit(size, turns) && 0 <= u < size && WaitedThenTunnel(size, srv, turns, a, u)
    requires a < |turns|
    ensures WaitedThenTunnel(size, srv, turns[..|turns|-1], a, u) || AnswersAt(size, srv, turns, |turns| - 1, u)
  {
    var before, t := turns[..|turns|-1], turns[|turns|-1];
    var g := Execute(size, srv, before);
    assert before[..a] == turns[..a];
    RunLater(size, srv, before, a, u);
    LoopLater(g, t, u);
    WaitRun(size, srv, before, a, u);
    if g.descr[u].flags.waiting {
      Safety(size, srv, before);
      BecomesTunnel(g, t, u);
    }
  }

  lemma NotBoth(s: State, u: int)
    requires Inv(s) && s.Slot(u)
    ensures !(s.descr[u].flags.waiting && s.descr[u].flags.tunnel)
  {
    assert SlotOk(s, u);
  }

  lemma BecomesTunnel(g: State, t: Turn, u: int)
    requires Inv(g) && Fits(|g.descr|, t) && AllowedTurn(g, t) && g.Slot(u) && g.descr[u].flags.waiting
    requires Loop(g, t).descr[u].flags.tunnel && Loop(g, t).closes[u] == g.closes[u]
    ensures t.some && u in t.ready
  {
    NotBoth(g, u);
    if !(t.some && u in t.ready) {
      TurnOnward(g, t, u);
    }
  }

  /** The whole history of the tunnel between client `c` and upstream `u`
      whose answer was read in turn `e`: the upstream has been sent the request
      and then every byte read from the client, the client its earlier output
      and then every byte read from the upstream, the 101 first; each of them
      exactly if nothing that its peer wrote since was dropped. */
  predicate Story(size: nat, srv: int, turns: seq<Turn>, c: int, u: int, req: seq<Byte>, e: nat)
    requires 0 < srv < size && AllFit(size, turns) && 0 <= c < size && 0 <= u < size && e < |turns|
  {
    var f, g := Execute(size, srv, turns), Execute(size, srv, turns[..e]);
    var fromClient := (if u < c then ReadIn(turns[e], c) else []) + Received(turns, e + 1, c);
    var earlier := Reaches(g, turns[e], u).descr[c].out.Stream();
    && AnswersAt(size, srv, turns, e, u) && Is101(turns[e].inputs[u].data)
    && f.descr[u].flags.tunnel && f.descr[c].flags.tunnel && f.Live(u) && f.Live(c) && f.pair[u] == c && f.pair[c] == u
    && (f.descr[u].out.Stream() == req + fromClient <==> !DroppedSince(size, srv, turns, e, c))
    && (f.descr[c].out.Stream() == earlier + Received(turns, e, u) <==> !DroppedSince(size, srv, turns, e, u))
  }

  lemma TurnExecutes(size: nat, srv: int, turns: seq<Turn>, k: nat)
    requires 0 < srv < size && AllFit(size, turns) && k < |turns|
    ensures Execute(size, srv, turns[..k + 1]) == Loop(Execute(size, srv, turns[..k]), turns[k])
  {
    assert turns[..k + 1][..k] == turns[..k];
  }

  lemma TurnAllowed(size: nat, srv: int, turns: seq<Turn>, k: nat)
    requires 0 < srv < size && AllFit(size, turns) && AllowedRun(size, srv, turns) && k < |turns|
    ensures AllowedRun(size, srv, turns[..k]) && AllowedTurn(Execute(size, srv, turns[..k]), turns[k])
  {
    AllowedBefore(size, srv, turns, k + 1);
    assert turns[..k + 1][..k] == turns[..k];
  }

  lemma OneTurn(size: nat, srv: int, turns: seq<Turn>, k: nat)
    requires 0 < srv < size && AllFit(size, turns) && AllowedRun(size, srv, turns) && k < |turns|
    ensures var s := Execute(size, srv, turns[..k]);
            Inv(s) && AllowedTurn(s, turns[k]) && Execute(size, srv, turns[..k + 1]) == Loop(s, turns[k])
  {
    TurnAllowed(size, srv, turns, k);
    TurnExecutes(size, srv, turns, k);
    Safety(size, srv, turns[..k]);
  }

  /** The state at the end of the answering turn. */
  lemma AfterAnswer(size: nat, srv: int, turns: seq<Turn>, u: int, e: nat)
    requires 0 < srv < size && AllFit(size, turns) && AllowedRun(size, srv, turns)
    requires 0 <= u < size && AnswersAt(size, srv, turns, e, u)
    requires Execute(size, srv, turns).closes[u] == Execute(size, srv, turns[..e]).closes[u]
    ensures var g, h := Execute(size, srv, turns[..e]), Execute(size, srv, turns[..e + 1]);
            PairAt(g, u) && h.closes[u] == g.closes[u] && Started(g, turns[e], h, u)
  {
    OneTurn(size, srv, turns, e);
    LoopLater(Execute(size, srv, turns[..e]), turns[e], u);
    RunLater(size, srv, turns, e + 1, u);
    AnswerTurn(Execute(size, srv, turns[..e]), turns[e], u);
  }

  lemma StoryHolds(size: nat, srv: int, turns: seq<Turn>, c: int, u: int, req: seq<Byte>, e: nat)
    requires 0 < srv < size && AllFit(size, turns) && AllowedRun(size, srv, turns)
    requires 0 <= c < size && 0 <= u < size && AnswersAt(size, srv, turns, e, u)
    requires var g, f := Execute(size, srv, turns[..e]), Execute(size, srv, turns);
             g.pair[u] == c && g.descr[u].base == req && f.closes[u] == g.closes[u]
    ensures Story(size, srv, turns, c, u, req, e)
  {
    AfterAnswer(size, srv, turns, u, e);
    RunOnward(size, srv, turns, e + 1, u);
    ReceivedFirst(turns, e, u);
    DroppedFirst(size, srv, turns, e, u);
    DroppedFirst(size, srv, turns, e, c);
    FlowHolds(size, srv, turns, u);
    FlowHolds(size, srv, turns, c);
  }

  /** From the request to the last byte.  Once slot `c` has got its upgrade
      request through to upstream `u` in turn `p`, and until `u` is closed, `u`
      is paired with `c` and either has been sent the request and nothing else,
      or is the end of a tunnel with its `Story`. */
  lemma EndToEnd(size: nat, srv: int, turns: seq<Turn>, p: nat, c: nat)
    requires 0 < srv < size && AllFit(size, turns) && AllowedRun(size, srv, turns)
    requires p < |turns| && turns[p].some && c < size
    requires Connects(Reaches(Execute(size, srv, turns[..p]), turns[p], c), c, turns[p].inputs[c])
    ensures var a, m := turns[p].inputs[c].app, Reaches(Execute(size, srv, turns[..p]), turns[p], c);
            var f := Execute(size, srv, turns);
            && m.closes[a.up] <= f.closes[a.up]
            && (f.closes[a.up] == m.closes[a.up] ==>
                 && f.pair[a.up] == c
                 && if f.descr[a.up].flags.waiting then f.descr[a.up].out == Queue([], a.req, false)
                    else exists e :: p < e < |turns| && Story(size, srv, turns, c, a.up, a.req, e))
  {
    var a, s, t := turns[p].inputs[c].app, Execute(size, srv, turns[..p]), turns[p];
    var m, h, f := Reaches(s, t, c), Execute(size, srv, turns[..p + 1]), Execute(size, srv, turns);
    OneTurn(size, srv, turns, p);
    PairingTurn(s, t, c);
    RunLater(size, srv, turns, p + 1, a.up);
    if f.closes[a.up] == m.closes[a.up] {
      WaitRun(size, srv, turns, p + 1, a.up);
      Safety(size, srv, turns);
      assert SlotOk(f, a.up) && FlowOk(f, a.up);
      if f.descr[a.up].flags.tunnel {
        var e := AnswerFound(size, srv, turns, p + 1, a.up);
        StillWaiting(size, srv, turns, p + 1, e, a.up);
        StoryHolds(size, srv, turns, c, a.up, a.req, e);
      }
    }
  }

  lemma StillWaiting(size: nat, srv: int, turns: seq<Turn>, a: nat, e: nat, u: int)
    requires 0 < srv < size && AllFit(size, turns) && AllowedRun(size, srv, turns) && a <= e <= |turns| && 0 <= u < size
    requires Execute(size, srv, turns[..a]).descr[u].flags.waiting
    requires Execute(size, srv, turns).closes[u] == Execute(size, srv, turns[..a]).closes[u]
    ensures var s, g := Execute(size, srv, turns[..a]), Execute(size, srv, turns[..e]);
            g.closes[u] == s.closes[u] && g.pair[u] == s.pair[u] && g.descr[u].base == s.descr[u].base
  {
    assert turns[..e][..a] == turns[..a];
    AllowedBefore(size, srv, turns, e);
    NotClosed(size, srv, turns, a, e, u);
    WaitRun(size, srv, turns[..e], a, u);
  }

  lemma NotClosed(size: nat, srv: int, turns: seq<Turn>, a: nat, e: nat, u: int)
    requires 0 < srv < size && AllFit(size, turns) && a <= e <= |turns|
    requires Execute(size, srv, turns).closes[u] == Execute(size, srv, turns[..a]).closes[u]
    ensures Execute(size, srv, turns[..e]).closes[u] == Execute(size, srv, turns[..a]).closes[u]
  {
    assert turns[..e][..a] == turns[..a];
    RunLater(size, srv, turns[..e], a, u);
    RunLater(size, srv, turns, e, u);
  }
}
