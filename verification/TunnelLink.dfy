// A tunnel by itself: two ends and what is read from and written to them.
// Whatever the rest of the engine does, the two slots behave like this.
module TunnelLink {
  import opened Fifo
  import opened Wrappers
  import opened Tunnel
  import opened TunnelProofs
  import opened TunnelHistory
  import opened TunnelExact

  // ---- Two connected ends ----

  /** `wanted`: a module asked to hear when the slot becomes writable. */
  datatype End = End(descr: Descr, wanted: bool)

  /** A slot with its peer, or with `NOBODY`. */
  datatype Link = Torn | Link(mine: End, theirs: End)

  const NOBODY := End(DEAD, false)

  predicate FlushEndsIt(e: End, on: bool, r: Outcome) {
    on && FlushCloses(e.descr.out, e.descr.flags.toClose, r)
  }

  function FlushEnd(e: End, on: bool, r: Outcome): End {
    if on then e.(descr := e.descr.(out := Flush(e.descr.out, r))) else e
  }

  /** Both queues are flushed, each if `on`. */
  function FlushLink(l: Link, onMine: bool, r: Outcome, onTheirs: bool, q: Outcome): Link {
    match l
    case Torn => Torn
    case Link(mine, theirs) =>
      if FlushEndsIt(mine, onMine, r) || FlushEndsIt(theirs, onTheirs, q) then Torn
      else Link(FlushEnd(mine, onMine, r), FlushEnd(theirs, onTheirs, q))
  }

  /** End of input, or a write that closes the receiver. */
  predicate CarryEndsIt(to: End, data: seq<Byte>, r: Outcome) {
    data == [] || SendCloses(to.descr.out, to.descr.flags.toClose, data, r)
  }

  /** What is read from one end is written to the other. */
  function Carry(l: Link, data: seq<Byte>, r: Outcome): Link {
    match l
    case Torn => Torn
    case Link(from, to) =>
      if CarryEndsIt(to, data, r) then Torn
      else Link(from.(descr := from.descr.(rx := from.descr.rx + data)),
                to.(descr := to.descr.(out := Send(to.descr.out, data, r))))
  }

  function Swap(l: Link): Link {
    if l.Torn? then Torn else Link(l.theirs, l.mine)
  }

  /** Both ends are read, each if it is ready. */
  function CarryBoth(l: Link, mine: bool, data: seq<Byte>, r: Outcome, theirs: bool, back: seq<Byte>, q: Outcome): Link {
    var m := if mine then Carry(l, data, r) else l;
    if theirs then Swap(Carry(Swap(m), back, q)) else m
  }

  /** It does not matter which end is read first. */
  lemma CarryCommutes(l: Link, data: seq<Byte>, r: Outcome, back: seq<Byte>, q: Outcome)
    ensures Swap(Carry(Swap(Carry(l, data, r)), back, q)) == Carry(Swap(Carry(Swap(l), back, q)), data, r)
  {
  }

  // ---- The link in the engine ----

  function EndAt(s: State, k: int): End
    requires s.Sized()
  {
    if s.Slot(k) then End(s.descr[k], k in s.wactive) else NOBODY
  }

  function LinkAt(s: State, k: int): Link
    requires s.Sized() && s.Slot(k)
  {
    Link(EndAt(s, k), EndAt(s, s.pair[k]))
  }

  /** Slot `k` of `s` and its peer have since become `l`: torn down, or open
      and still joined. */
  predicate Shows(s: State, t: State, k: int, l: Link)
    requires s.Sized() && t.Sized() && |t.descr| == |s.descr| && s.Slot(k)
  {
    if l.Torn? then s.closes[k] < t.closes[k]
    else
      && t.closes[k] == s.closes[k] && t.pair[k] == s.pair[k]
      && (s.pair[k] != NONE ==> t.closes[s.pair[k]] == s.closes[s.pair[k]])
      && t.descr[k].fd == s.descr[k].fd && t.descr[k].flags == s.descr[k].flags
      && LinkAt(t, k) == l
  }

  lemma ShowsThen(s: State, t: State, v: State, k: int, l: Link, m: Link)
    requires s.Sized() && t.Sized() && v.Sized() && |s.descr| == |t.descr| == |v.descr| && s.Slot(k)
    requires Shows(s, t, k, l) && t.closes[k] <= v.closes[k]
    requires if l.Torn? then m.Torn? else Shows(t, v, k, m)
    ensures Shows(s, v, k, m)
  {
  }

  /** A connection: a slot the engine accepted or connected, and open. */
  predicate Open(s: State, k: int)
    requires s.Sized()
  {
    s.Slot(k) && s.Live(k) && !Reserved(s, k)
  }

  // ---- Steps that leave the link alone ----

  lemma DoPair(s: State, i: int, a: Act)
    requires s.Sized() && s.Slot(i)
    ensures Do(s, i, a).pair[i] == s.pair[i] || Do(s, i, a).pair[i] == NONE
  {
    ClosedPair(s, i);
    match a
    case Emit(data, r) =>
      ClosedPair(SetOut(s, i, Send(s.descr[i].out, data, r)), i);
    case Settle(r) =>
      var t := SetFlags(s, i, s.descr[i].flags.(toClose := true));
      ClosedPair(t, i);
      ClosedPair(SetOut(t, i, Flush(t.descr[i].out, r)), i);
    case _ =>
  }

  lemma ClosedPair(s: State, i: int)
    requires s.Sized() && s.Slot(i)
    ensures Close(s, i).pair[i] == NONE
  {
  }

  lemma {:induction false} PerformApart(s: State, i: int, acts: seq<Act>, j: int)
    requires s.Sized() && s.Slot(i) && s.Slot(j) && j != i && j != s.pair[i]
    ensures Untouched(s, Perform(s, i, acts), j)
    decreases |acts|
  {
    if acts != [] {
      var t := Do(s, i, acts[0]);
      DoApart(s, i, acts[0], j);
      DoPair(s, i, acts[0]);
      PerformApart(t, i, acts[1..], j);
    }
  }

  lemma ProxyApart(s: State, i: int, a: App, j: int)
    requires s.Sized() && s.Slot(i) && a.Upgrade? && s.Slot(j) && j != i && j != a.up && a.up != i
    ensures Untouched(s, Proxy(s, i, a.up, a.hasKey, a.req, a.sent), j)
  {
    if Pairs(s, a) {
      var k := if a.sent.Room? then Min(a.sent.n, |a.req|) else 0;
      JoinApart(s, i, a.up, a.req, Queue([], a.req[..k], false), j);
    }
  }

  lemma WaitingApart(s: State, i: int, data: seq<Byte>, r: Outcome, j: int)
    requires Inv(s) && s.Slot(i) && s.descr[i].flags.waiting && s.Slot(j) && j != i && j != s.pair[i]
    ensures Untouched(s, ServeWaiting(s, i, data, r), j)
  {
    InvLinks(s, i);
    CloseApart(s, i, j);
    InvLinks(s, s.pair[i]);
    EnterApart(s, s.pair[i], i, data, r, j);
  }

  lemma TunnelApart(s: State, i: int, data: seq<Byte>, r: Outcome, j: int)
    requires Inv(s) && s.Slot(i) && s.descr[i].flags.tunnel && s.Slot(j) && j != i && j != s.pair[i]
    ensures Untouched(s, ServeTunnel(s, i, data, r), j)
  {
    InvLinks(s, i);
    CloseApart(s, i, j);
    WriteApart(Grown(s, i, data), s.pair[i], data, r, j);
  }

  /** Serving a slot leaves every open connection alone but that slot and its
      peer. */
  lemma ServeApart(s: State, i: int, x: Input, j: int)
    requires Inv(s) && s.Slot(i) && KernelOk(s, i, x) && s.Slot(j) && s.Live(j) && j != i && j != s.pair[i]
    ensures Untouched(s, Serve(s, i, x), j)
  {
    if i in s.read && s.Live(i) && i != s.srv {
      if s.descr[i].flags.waiting {
        WaitingApart(s, i, x.data, x.room, j);
      } else if s.descr[i].flags.tunnel {
        TunnelApart(s, i, x.data, x.room, j);
      } else if x.app.Handle? {
        PerformApart(s, i, x.app.acts, j);
      } else if x.app.up != NONE {
        ProxyApart(s, i, x.app, j);
      }
    }
  }

  // ---- The flushing passes ----

  predicate On(s: State, onlyWritable: bool, k: int) {
    !onlyWritable || (k in s.write && k != s.srv)
  }

  function AnswerAt(rs: seq<Outcome>, k: int): Outcome {
    if 0 <= k < |rs| then rs[k] else Again
  }

  /** A flushing pass, seen from one link. */
  lemma FlushShows(s: State, t: State, rs: seq<Outcome>, w: bool, k: int)
    requires Inv(s) && |rs| == |s.descr| && s.Slot(k) && t == FlushFrom(s, 0, rs, w)
    ensures Inv(t)
    ensures var p, l := s.pair[k], FlushLink(LinkAt(s, k), On(s, w, k), AnswerAt(rs, k), On(s, w, s.pair[k]), AnswerAt(rs, s.pair[k]));
            Shows(s, t, k, l) && (l.Link? ==> (k in t.read <==> k in s.read) && (p in t.read <==> p in s.read))
  {
    InvLinks(s, k);
    FlushFromKeeps(s, 0, rs, w);
    FlushFromExact(s, 0, rs, w, k);
    if s.pair[k] != NONE {
      FlushFromExact(s, 0, rs, w, s.pair[k]);
    } else {
      InvLinks(t, k);
      NoSlot(s);
      NoSlot(t);
      EmptyFlush(EMPTY, Again);
    }
  }

  lemma NoSlot(s: State)
    requires Inv(s)
    ensures NONE !in s.read && NONE !in s.active
  {
  }

  // ---- The read pass ----

  /** Slot `k` is still to be served from slot `i` on. */
  predicate Reading(s: State, i: nat, k: int) {
    i <= k && k in s.read
  }

  function DataAt(xs: seq<Input>, k: int): seq<Byte> {
    if 0 <= k < |xs| then xs[k].data else []
  }

  function RoomAt(xs: seq<Input>, k: int): Outcome {
    if 0 <= k < |xs| then xs[k].room else Again
  }

  /** What the slots from `i` on make of the link of `k`. */
  function ReadLink(s: State, i: nat, xs: seq<Input>, k: int): Link
    requires s.Sized() && s.Slot(k)
  {
    var p := s.pair[k];
    CarryBoth(LinkAt(s, k), Reading(s, i, k), DataAt(xs, k), RoomAt(xs, k), Reading(s, i, p), DataAt(xs, p), RoomAt(xs, p))
  }

  /** A tunnel, or a connection that is not read from. */
  predicate Followed(s: State, i: nat, k: int)
    requires s.Sized()
  {
    Open(s, k) && (s.descr[k].flags.tunnel || (!Reading(s, i, k) && !Reading(s, i, s.pair[k])))
  }

  /** What serving slot `i` makes of it. */
  function ServedLink(s: State, i: nat, x: Input, k: int): Link
    requires s.Sized() && s.Slot(k)
  {
    var l := LinkAt(s, k);
    if i !in s.read then l
    else if i == k then Carry(l, x.data, x.room)
    else if i == s.pair[k] then Swap(Carry(Swap(l), x.data, x.room))
    else l
  }

  lemma ServeShows(s: State, t: State, i: nat, x: Input, k: int)
    requires Inv(s) && s.Slot(i) && Allowed(s, i, x) && Followed(s, i, k) && t == Serve(s, i, x)
    ensures Shows(s, t, k, ServedLink(s, i, x, k))
  {
    if i in s.read && (i == k || i == s.pair[k]) {
      EndShows(s, t, i, x, k);
    } else {
      QuietShows(s, t, i, x, k);
    }
  }

  /** Slot `i` is one of the ends. */
  lemma EndShows(s: State, t: State, i: nat, x: Input, k: int)
    requires Inv(s) && s.Slot(i) && Open(s, k) && s.descr[k].flags.tunnel && t == Serve(s, i, x)
    requires i in s.read && (i == k || i == s.pair[k])
    ensures Shows(s, t, k, ServedLink(s, i, x, k))
  {
    InvLinks(s, k);
    assert SlotOk(s, i) && SlotOk(s, k);
    RelayExact(s, i, x.data, x.room);
    ServeLater(s, i, x, k);
  }

  lemma QuietShows(s: State, t: State, i: nat, x: Input, k: int)
    requires Inv(s) && s.Slot(i) && Allowed(s, i, x) && Open(s, k) && t == Serve(s, i, x)
    requires i !in s.read || (i != k && i != s.pair[k])
    ensures Shows(s, t, k, LinkAt(s, k))
  {
    InvLinks(s, k);
    InvLinks(s, i);
    ServeLater(s, i, x, k);
    if i in s.read {
      ServeApart(s, i, x, k);
      if s.pair[k] != NONE {
        assert SlotOk(s, k) && SlotOk(s, s.pair[k]);
        ServeLater(s, i, x, s.pair[k]);
        ServeApart(s, i, x, s.pair[k]);
      }
    }
  }

  /** After slot `i` the rest of the pass finds the link as before, or read. */
  lemma ServeFollowed(s: State, t: State, i: nat, x: Input, k: int)
    requires Inv(s) && Inv(t) && |t.descr| == |s.descr| && s.Slot(i) && Followed(s, i, k) && t == Serve(s, i, x)
    requires Shows(s, t, k, ServedLink(s, i, x, k)) && ServedLink(s, i, x, k).Link?
    ensures Followed(t, i + 1, k) && t.pair[k] == s.pair[k]
    ensures Reading(t, i + 1, k) == (Reading(s, i, k) && i != k)
    ensures Reading(t, i + 1, s.pair[k]) == (Reading(s, i, s.pair[k]) && i != s.pair[k])
  {
    InvLinks(s, k);
    ServeLater(s, i, x, k);
    ServeLater(s, i, x, s.pair[k]);
  }

  /** The read pass, seen from one link: what is ready is carried across. */
  lemma {:induction false} ReadsShow(s: State, i: nat, xs: seq<Input>, k: int)
    requires Inv(s) && i <= |s.descr| == |xs| && AllowedFrom(s, i, xs) && Followed(s, i, k)
    ensures Shows(s, ProcReads(s, i, xs), k, ReadLink(s, i, xs, k))
    decreases |xs| - i, 0
  {
    InvLinks(s, k);
    if i < |xs| {
      var t := Serve(s, i, xs[i]);
      ServeKeeps(s, i, xs[i]);
      ServeShows(s, t, i, xs[i], k);
      RestIs(s, t, i, xs, k);
      ReadRest(s, t, ProcReads(s, i, xs), i, xs, k);
    }
  }

  lemma {:induction false} ReadRest(s: State, t: State, v: State, i: nat, xs: seq<Input>, k: int)
    requires Inv(s) && Inv(t) && v.Sized() && i < |s.descr| == |t.descr| == |v.descr| == |xs| && Followed(s, i, k)
    requires t == Serve(s, i, xs[i]) && AllowedFrom(t, i + 1, xs) && v == ProcReads(t, i + 1, xs) && t.closes[k] <= v.closes[k]
    requires Shows(s, t, k, ServedLink(s, i, xs[i], k))
    ensures Shows(s, v, k, ReadLink(s, i, xs, k))
    decreases |xs| - i - 1, 1
  {
    var l, p := ServedLink(s, i, xs[i], k), s.pair[k];
    InvLinks(s, k);
    if l.Link? {
      ServeFollowed(s, t, i, xs[i], k);
      ReadsShow(t, i + 1, xs, k);
    }
    CarryLater(LinkAt(s, k), i, xs, k, p, Reading(s, i, k), Reading(s, i, p), l);
    ShowsThen(s, t, v, k, l, ReadLink(s, i, xs, k));
  }

  /** Taking one ready end out of the two. */
  lemma CarryLater(l: Link, i: nat, xs: seq<Input>, k: int, p: int, mine: bool, theirs: bool, m: Link)
    requires i < |xs| && k != p && (mine ==> i <= k) && (theirs ==> i <= p)
    requires m == if mine && i == k then Carry(l, xs[i].data, xs[i].room)
                  else if theirs && i == p then Swap(Carry(Swap(l), xs[i].data, xs[i].room)) else l
    ensures CarryBoth(m, mine && i != k, DataAt(xs, k), RoomAt(xs, k), theirs && i != p, DataAt(xs, p), RoomAt(xs, p)) ==
            CarryBoth(l, mine, DataAt(xs, k), RoomAt(xs, k), theirs, DataAt(xs, p), RoomAt(xs, p))
    ensures m.Torn? ==> CarryBoth(l, mine, DataAt(xs, k), RoomAt(xs, k), theirs, DataAt(xs, p), RoomAt(xs, p)).Torn?
  {
    CarryCommutes(l, DataAt(xs, k), RoomAt(xs, k), DataAt(xs, p), RoomAt(xs, p));
  }

  // ---- Turns ----

  /** What one turn brings to one end: the kernel's answers to the two flushes,
      whether the slot is writable, and what is read from it. */
  datatype Share = Share(marked: bool, drain: Outcome, writable: bool, flush: Outcome,
                         ready: bool, data: seq<Byte>, room: Outcome)

  const IDLE := Share(false, Again, false, Again, false, [], Again)

  function ShareOf(t: Turn, k: int): Share {
    if 0 < k < |t.drain| && |t.drain| == |t.flush| == |t.inputs| then
      Share(k in t.marked, t.drain[k], k in t.writable, t.flush[k], k in t.ready, t.inputs[k].data, t.inputs[k].room)
    else IDLE
  }

  /** The link after the drain pass. */
  function RestLink(l: Link, a: Share, b: Share, some: bool): Link
    requires l.Link?
  {
    if !some then l
    else
      var l2 := FlushLink(l, l.mine.wanted && a.writable, a.flush, l.theirs.wanted && b.writable, b.flush);
      CarryBoth(l2, a.ready, a.data, a.room, b.ready, b.data, b.room)
  }

  /** One turn of the main loop for two connected ends: both queues are
      flushed; if select reports anything, the writable ones that a module
      asked for are flushed again, and then what is ready is carried across. */
  function TurnLink(l: Link, a: Share, b: Share, some: bool): Link {
    match l
    case Torn => Torn
    case Link(mine, theirs) =>
      var marked := Link(mine.(wanted := mine.wanted || a.marked), theirs.(wanted := theirs.wanted || b.marked));
      var l1 := FlushLink(marked, true, a.drain, true, b.drain);
      if l1.Torn? then Torn else RestLink(l1, a, b, some)
  }

  lemma MarkedShows(s: State, t: Turn, k: int)
    requires Inv(s) && Fits(|s.descr|, t) && Open(s, k)
    ensures var u, l, a, b := BeforeDrain(s, t), LinkAt(s, k), ShareOf(t, k), ShareOf(t, s.pair[k]);
            Inv(u) && u.pair == s.pair && u.closes == s.closes &&
            LinkAt(u, k) == Link(l.mine.(wanted := l.mine.wanted || a.marked), l.theirs.(wanted := l.theirs.wanted || b.marked))
  {
    SetsKeep(s, BeforeDrain(s, t));
    assert SlotOk(s, k);
    if s.pair[k] != NONE {
      assert SlotOk(s, s.pair[k]);
    }
  }

  /** The second half of `BeforeReads`. */
  function Flushed(s1: State, t: Turn): (u: State)
    requires s1.Sized() && Fits(|s1.descr|, t) && t.some
    ensures u.Sized() && |u.descr| == |s1.descr|
  {
    FlushFrom(Select(s1, t.ready, t.writable), 0, t.flush, true)
  }

  lemma SelectShows(s: State, t: Turn, k: int)
    requires Inv(s) && Fits(|s.descr|, t) && Open(s, k)
    ensures var u, l, a, b := Select(s, t.ready, t.writable), LinkAt(s, k), ShareOf(t, k), ShareOf(t, s.pair[k]);
            && Inv(u) && u.pair == s.pair && u.closes == s.closes && u.descr == s.descr && LinkAt(u, k) == l
            && (On(u, true, k) <==> l.mine.wanted && a.writable) && (On(u, true, s.pair[k]) <==> l.theirs.wanted && b.writable)
            && (k in u.read <==> a.ready) && (s.pair[k] in u.read <==> b.ready)
  {
    SetsKeep(s, Select(s, t.ready, t.writable));
    assert SlotOk(s, k);
    if s.pair[k] != NONE {
      assert SlotOk(s, s.pair[k]);
    }
  }

  /** Select and the second flushing pass. */
  lemma WritesShow(s: State, t: Turn, k: int)
    requires Inv(s) && Fits(|s.descr|, t) && Open(s, k) && t.some
    ensures var u, l, a, b := Flushed(s, t), LinkAt(s, k), ShareOf(t, k), ShareOf(t, s.pair[k]);
            var m := FlushLink(l, l.mine.wanted && a.writable, a.flush, l.theirs.wanted && b.writable, b.flush);
            && Inv(u) && Shows(s, u, k, m)
            && (m.Link? ==> (k in u.read <==> a.ready) && (s.pair[k] in u.read <==> b.ready))
  {
    var s2 := Select(s, t.ready, t.writable);
    SelectShows(s, t, k);
    FlushShows(s2, Flushed(s, t), t.flush, true, k);
    PairOf(s, k);
  }

  lemma PairOf(s: State, k: int)
    requires Inv(s) && s.Slot(k)
    ensures s.pair[k] == NONE || (0 < s.pair[k] < |s.descr| && s.pair[k] != k)
  {
    assert SlotOk(s, k);
    if s.pair[k] != NONE {
      assert SlotOk(s, s.pair[k]);
    }
  }

  /** Of this turn only the flushes matter for the connection, or it is a tunnel. */
  predicate FollowedIn(s: State, t: Turn, k: int)
    requires s.Sized()
  {
    Open(s, k) && (s.descr[k].flags.tunnel || !t.some || (k !in t.ready && s.pair[k] !in t.ready))
  }

  /** The drain pass. */
  lemma DrainShows(s: State, t: Turn, k: int)
    requires Inv(s) && Fits(|s.descr|, t) && Open(s, k)
    ensures var u := FlushFrom(BeforeDrain(s, t), 0, t.drain, false);
            Inv(u) && Shows(s, u, k, TurnLink(LinkAt(s, k), ShareOf(t, k), ShareOf(t, s.pair[k]), false))
  {
    MarkedShows(s, t, k);
    FlushShows(BeforeDrain(s, t), FlushFrom(BeforeDrain(s, t), 0, t.drain, false), t.drain, false, k);
    PairOf(s, k);
  }

  /** The read pass after the flushes. */
  lemma CarryShows(s: State, t: Turn, k: int)
    requires Inv(s) && Fits(|s.descr|, t) && Open(s, k) && AllowedFrom(s, 0, t.inputs)
    requires var a, b := ShareOf(t, k), ShareOf(t, s.pair[k]); (k in s.read <==> a.ready) && (s.pair[k] in s.read <==> b.ready)
    requires s.descr[k].flags.tunnel || (k !in t.ready && s.pair[k] !in t.ready)
    ensures var a, b := ShareOf(t, k), ShareOf(t, s.pair[k]);
            Shows(s, ProcReads(s, 0, t.inputs), k, CarryBoth(LinkAt(s, k), a.ready, a.data, a.room, b.ready, b.data, b.room))
  {
    PairOf(s, k);
    NoSlot(s);
    ReadsShow(s, 0, t.inputs, k);
  }

  /** What follows the drain pass. */
  function AfterDrain(s: State, t: Turn): (u: State)
    requires s.Sized() && Fits(|s.descr|, t)
    ensures u.Sized() && |u.descr| == |s.descr|
  {
    if t.some then ProcReads(Flushed(s, t), 0, t.inputs) else Select(s, t.ready, t.writable)
  }

  lemma AfterDrainLater(s: State, t: Turn, k: int)
    requires s.Sized() && Fits(|s.descr|, t)
    ensures s.closes[k] <= AfterDrain(s, t).closes[k]
    ensures t.some ==> Flushed(s, t).closes[k] <= AfterDrain(s, t).closes[k]
  {
    if t.some {
      FlushFromLater(Select(s, t.ready, t.writable), 0, t.flush, true, k);
      UptoLater(Flushed(s, t), 0, |t.inputs|, t.inputs, k);
    }
  }

  lemma AfterDrainShows(s: State, t: Turn, k: int)
    requires Inv(s) && Fits(|s.descr|, t) && FollowedIn(s, t, k) && (t.some ==> AllowedFrom(Flushed(s, t), 0, t.inputs))
    ensures Shows(s, AfterDrain(s, t), k, RestLink(LinkAt(s, k), ShareOf(t, k), ShareOf(t, s.pair[k]), t.some))
  {
    SelectShows(s, t, k);
    if t.some {
      var a, b, l, u := ShareOf(t, k), ShareOf(t, s.pair[k]), LinkAt(s, k), Flushed(s, t);
      var l2 := FlushLink(l, l.mine.wanted && a.writable, a.flush, l.theirs.wanted && b.writable, b.flush);
      WritesShow(s, t, k);
      AfterDrainLater(s, t, k);
      if l2.Link? {
        CarryShows(u, t, k);
      }
      ShowsThen(s, u, AfterDrain(s, t), k, l2, RestLink(l, a, b, true));
    }
  }

  /** A turn, seen from one link: two connected ends and nothing else. */
  lemma TurnShows(s: State, t: Turn, k: int)
    requires Inv(s) && Fits(|s.descr|, t) && AllowedTurn(s, t) && FollowedIn(s, t, k)
    ensures Shows(s, Loop(s, t), k, TurnLink(LinkAt(s, k), ShareOf(t, k), ShareOf(t, s.pair[k]), t.some))
  {
    var s1 := FlushFrom(BeforeDrain(s, t), 0, t.drain, false);
    var l, a, b := LinkAt(s, k), ShareOf(t, k), ShareOf(t, s.pair[k]);
    var l1 := TurnLink(l, a, b, false);
    DrainShows(s, t, k);
    AfterDrainLater(s1, t, k);
    if l1.Link? {
      AfterDrainShows(s1, t, k);
    }
    ShowsThen(s, s1, Loop(s, t), k, l1, TurnLink(l, a, b, t.some));
  }

  /** The end with all its backlog on the wire. */
  function Emptied(e: End, marked: bool): End {
    End(e.descr.(out := Queue([], e.descr.out.Stream(), e.descr.out.lost)), e.wanted || marked)
  }

  predicate FinishesAt(e: End) { e.descr.flags.toClose && e.descr.out.pending != [] }

  lemma EmptiedStays(e: End, on: bool, r: Outcome)
    requires e.descr.out.pending == []
    ensures FlushEnd(e, on, r) == e && !FlushEndsIt(e, on, r)
  {
    EmptyFlush(e.descr.out, r);
  }

  lemma DrainsEnd(e: End, marked: bool, r: Outcome)
    requires r.Room? && r.n >= |e.descr.out.pending|
    ensures var m := e.(wanted := e.wanted || marked);
            FlushEnd(m, true, r) == Emptied(e, marked) && (FlushEndsIt(m, true, r) <==> FinishesAt(e))
  {
    Drained(e.descr.out, e.descr.flags.toClose, r);
  }

  predicate TakesAll(e: End, x: Share) {
    e == NOBODY || (x.drain.Room? && x.drain.n >= |e.descr.out.pending|)
  }

  lemma DrainsLink(l: Link, a: Share, b: Share, some: bool)
    requires l.Link? && TakesAll(l.mine, a) && TakesAll(l.theirs, b)
    requires some ==> !a.ready && !b.ready
    ensures TurnLink(l, a, b, some) ==
            if FinishesAt(l.mine) || FinishesAt(l.theirs) then Torn
            else Link(Emptied(l.mine, a.marked), Emptied(l.theirs, b.marked))
  {
    var x, y := Emptied(l.mine, a.marked), Emptied(l.theirs, b.marked);
    DrainsOne(l.mine, a);
    DrainsOne(l.theirs, b);
    EmptiedStays(x, x.wanted && a.writable, a.flush);
    EmptiedStays(y, y.wanted && b.writable, b.flush);
  }

  lemma DrainsOne(e: End, x: Share)
    requires TakesAll(e, x)
    ensures var m := e.(wanted := e.wanted || x.marked);
            FlushEnd(m, true, x.drain) == Emptied(e, x.marked) && (FlushEndsIt(m, true, x.drain) <==> FinishesAt(e))
  {
    if e == NOBODY {
      EmptiedStays(e.(wanted := x.marked), true, x.drain);
    } else {
      DrainsEnd(e, x.marked, x.drain);
    }
  }

  /** A turn in which the kernel takes every backlog and nothing is read from
      slot `k` or its peer: it is closed if it or its peer was to be closed
      after a backlog, and otherwise all it was ever written is on the wire. */
  lemma LoopDrains(s: State, t: Turn, k: int)
    requires Inv(s) && Fits(|s.descr|, t) && AllowedTurn(s, t) && RoomForAll(s, t.drain)
    requires Open(s, k) && (!t.some || (k !in t.ready && s.pair[k] !in t.ready))
    ensures var f, q := Loop(s, t), s.descr[k].out;
            if Finishes(s, k) || Finishes(s, s.pair[k]) then s.closes[k] < f.closes[k]
            else
              f.closes[k] == s.closes[k] && f.pair[k] == s.pair[k] &&
              f.descr[k] == s.descr[k].(out := Queue([], q.Stream(), q.lost))
  {
    TurnShows(s, t, k);
    PairOf(s, k);
    DrainsLink(LinkAt(s, k), ShareOf(t, k), ShareOf(t, s.pair[k]), t.some);
  }

  // ---- Runs ----

  /** The turns from `a` on, for the ends `k` and `p`. */
  function RunLink(l: Link, turns: seq<Turn>, a: nat, k: int, p: int): Link {
    if |turns| <= a then l
    else
      var t := turns[|turns|-1];
      TurnLink(RunLink(l, turns[..|turns|-1], a, k, p), ShareOf(t, k), ShareOf(t, p), t.some)
  }

  /** Nothing is read from `k` or `p` in the turns from `a` on. */
  predicate NotRead(turns: seq<Turn>, a: nat, k: int, p: int) {
    forall j {:trigger turns[j]} :: a <= j < |turns| ==> !turns[j].some || (k !in turns[j].ready && p !in turns[j].ready)
  }

  /** A run, seen from one tunnel, or from one connection that is not read:
      whatever else is connected, served, paired and closed meanwhile, its two
      ends are what `RunLink` makes of them, and they are torn down exactly if
      that tears them down. */
  lemma {:induction false} RunShows(size: nat, srv: int, turns: seq<Turn>, a: nat, k: int)
    requires 0 < srv < size && AllFit(size, turns) && AllowedRun(size, srv, turns) && a <= |turns|
    requires var s := Execute(size, srv, turns[..a]);
             Open(s, k) && (s.descr[k].flags.tunnel || NotRead(turns, a, k, s.pair[k]))
    ensures var s := Execute(size, srv, turns[..a]);
            Shows(s, Execute(size, srv, turns), k, RunLink(LinkAt(s, k), turns, a, k, s.pair[k]))
  {
    var s := Execute(size, srv, turns[..a]);
    if a == |turns| {
      assert turns[..a] == turns;
    } else {
      var before, t := turns[..|turns|-1], turns[|turns|-1];
      assert before[..a] == turns[..a];
      RunShows(size, srv, before, a, k);
      Safety(size, srv, before);
      OneMoreTurn(s, Execute(size, srv, before), t, k, RunLink(LinkAt(s, k), before, a, k, s.pair[k]));
    }
  }

  lemma OneMoreTurn(s: State, g: State, t: Turn, k: int, l: Link)
    requires s.Sized() && Inv(g) && |g.descr| == |s.descr| && g.srv == s.srv && Fits(|g.descr|, t) && AllowedTurn(g, t)
    requires Open(s, k) && Shows(s, g, k, l)
    requires s.descr[k].flags.tunnel || !t.some || (k !in t.ready && s.pair[k] !in t.ready)
    ensures Shows(s, Loop(g, t), k, TurnLink(l, ShareOf(t, k), ShareOf(t, s.pair[k]), t.some))
  {
    LoopLater(g, t, k);
    if l.Link? {
      TurnShows(g, t, k);
    }
    ShowsThen(s, g, Loop(g, t), k, l, TurnLink(l, ShareOf(t, k), ShareOf(t, s.pair[k]), t.some));
  }

  // ---- What ends a tunnel ----

  predicate Unmarked(l: Link) {
    l.Link? ==> !l.mine.descr.flags.toClose && !l.theirs.descr.flags.toClose
  }

  /** The kernel answers no write of this turn with a hard error. */
  predicate Unbroken(x: Share) {
    !x.drain.Broken? && !x.flush.Broken? && !x.room.Broken?
  }

  /** End of input is read. */
  predicate Eof(x: Share) {
    x.ready && x.data == []
  }

  lemma FlushEndsNothing(l: Link, on: bool, r: Outcome, onTheirs: bool, q: Outcome)
    requires l.Link? && Unmarked(l) && !r.Broken? && !q.Broken?
    ensures var m := FlushLink(l, on, r, onTheirs, q); m.Link? && Unmarked(m)
  {
  }

  lemma CarryEndsAtEof(l: Link, mine: bool, data: seq<Byte>, r: Outcome, theirs: bool, back: seq<Byte>, q: Outcome)
    requires l.Link? && Unmarked(l) && !r.Broken? && !q.Broken?
    ensures var m := CarryBoth(l, mine, data, r, theirs, back, q);
            Unmarked(m) && (m.Torn? <==> (mine && data == []) || (theirs && back == []))
  {
  }

  lemma TurnEndsAtEof(l: Link, a: Share, b: Share, some: bool)
    requires l.Link? && Unmarked(l) && Unbroken(a) && Unbroken(b)
    ensures var m := TurnLink(l, a, b, some);
            Unmarked(m) && (m.Torn? <==> some && (Eof(a) || Eof(b)))
  {
    var marked := Link(l.mine.(wanted := l.mine.wanted || a.marked), l.theirs.(wanted := l.theirs.wanted || b.marked));
    var l1 := FlushLink(marked, true, a.drain, true, b.drain);
    FlushEndsNothing(marked, true, a.drain, true, b.drain);
    if some {
      var l2 := FlushLink(l1, l1.mine.wanted && a.writable, a.flush, l1.theirs.wanted && b.writable, b.flush);
      FlushEndsNothing(l1, l1.mine.wanted && a.writable, a.flush, l1.theirs.wanted && b.writable, b.flush);
      CarryEndsAtEof(l2, a.ready, a.data, a.room, b.ready, b.data, b.room);
    }
  }

  /** End of input is read from `k` or `p` in some turn from `a` on. */
  predicate EofSince(turns: seq<Turn>, a: nat, k: int, p: int) {
    exists j {:trigger turns[j]} :: a <= j < |turns| && turns[j].some && (Eof(ShareOf(turns[j], k)) || Eof(ShareOf(turns[j], p)))
  }

  predicate UnbrokenSince(turns: seq<Turn>, a: nat, k: int) {
    forall j {:trigger turns[j]} :: a <= j < |turns| ==> Unbroken(ShareOf(turns[j], k))
  }

  lemma {:induction false} LinkEndsAtEof(l: Link, turns: seq<Turn>, a: nat, k: int, p: int)
    requires l.Link? && Unmarked(l) && UnbrokenSince(turns, a, k) && UnbrokenSince(turns, a, p)
    ensures var m := RunLink(l, turns, a, k, p); Unmarked(m) && (m.Torn? <==> EofSince(turns, a, k, p))
  {
    if a < |turns| {
      var before, t := turns[..|turns|-1], turns[|turns|-1];
      LinkEndsAtEof(l, before, a, k, p);
      var m := RunLink(l, before, a, k, p);
      if m.Link? {
        TurnEndsAtEof(m, ShareOf(t, k), ShareOf(t, p), t.some);
      }
      assert EofSince(turns, a, k, p) <==>
             EofSince(before, a, k, p) || (t.some && (Eof(ShareOf(t, k)) || Eof(ShareOf(t, p)))) by {
        forall j | a <= j < |before| ensures before[j] == turns[j] { }
      }
    }
  }

  /** A tunnel whose ends are not marked to close, and for which the kernel
      answers no write with a hard error, lives exactly until end of input is
      read from one of its ends. */
  lemma TunnelEndsAtEof(size: nat, srv: int, turns: seq<Turn>, a: nat, k: int)
    requires 0 < srv < size && AllFit(size, turns) && AllowedRun(size, srv, turns) && a <= |turns|
    requires var s := Execute(size, srv, turns[..a]);
             && Open(s, k) && s.descr[k].flags.tunnel && Unmarked(LinkAt(s, k))
             && UnbrokenSince(turns, a, k) && UnbrokenSince(turns, a, s.pair[k])
    ensures var s, f := Execute(size, srv, turns[..a]), Execute(size, srv, turns);
            && (f.closes[k] == s.closes[k] <==> !EofSince(turns, a, k, s.pair[k]))
            && (f.closes[k] == s.closes[k] ==> f.descr[k].flags.tunnel && f.pair[k] == s.pair[k])
  {
    var s := Execute(size, srv, turns[..a]);
    RunShows(size, srv, turns, a, k);
    LinkEndsAtEof(LinkAt(s, k), turns, a, k, s.pair[k]);
  }

  // ---- What closes a connection that is marked to close ----

  /** In each turn from `a` on the kernel takes at least one byte for `k`. */
  predicate RoomSince(turns: seq<Turn>, a: nat, k: int) {
    forall j {:trigger turns[j]} :: a <= j < |turns| ==>
      var r := ShareOf(turns[j], k).drain; r.Room? && r.n > 0
  }

  lemma {:induction false} BacklogShrinks(l: Link, turns: seq<Turn>, a: nat, k: int, p: int)
    requires l.Link? && l.mine.descr.flags.toClose && l.mine.descr.out.pending != []
    requires NotRead(turns, a, k, p) && RoomSince(turns, a, k) && a <= |turns|
    ensures var m := RunLink(l, turns, a, k, p);
            m.Link? ==> m.mine.descr.flags.toClose && 0 < |m.mine.descr.out.pending| <= |l.mine.descr.out.pending| - (|turns| - a)
  {
    if a < |turns| {
      BacklogShrinks(l, turns[..|turns|-1], a, k, p);
    }
  }

  /** A connection marked to close that has a backlog is closed after as many
      turns as there are bytes in it, if in each of them the kernel takes some
      and nothing is read from it or its peer. */
  lemma MarkedIsClosed(size: nat, srv: int, turns: seq<Turn>, a: nat, k: int)
    requires 0 < srv < size && AllFit(size, turns) && AllowedRun(size, srv, turns) && a <= |turns|
    requires var s := Execute(size, srv, turns[..a]);
             Open(s, k) && s.descr[k].flags.toClose && 0 < |s.descr[k].out.pending| <= |turns| - a && NotRead(turns, a, k, s.pair[k])
    requires RoomSince(turns, a, k)
    ensures Execute(size, srv, turns).closes[k] > Execute(size, srv, turns[..a]).closes[k]
  {
    var s := Execute(size, srv, turns[..a]);
    RunShows(size, srv, turns, a, k);
    BacklogShrinks(LinkAt(s, k), turns, a, k, s.pair[k]);
  }
}
