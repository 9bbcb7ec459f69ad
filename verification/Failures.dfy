// Runs of the program, turn by turn from start-up: one that leads to a tunnel,
// and runs in which a condition of `TunnelLimits` or `Replies` is not met, so
// that each condition excludes something that can happen.
module Failures {
  import opened Fifo
  import opened Tunnel
  import opened TunnelProofs
  import opened Replies
  import TunnelHistory

  const QUIET := Input(NONE, [], Again, Handle([]))

  /** A turn in which only slot `j` becomes ready. */
  function Only(n: nat, j: int, x: Input): Turn {
    Turn({}, seq(n, k => Again), {j}, {}, true, seq(n, k => Again), seq(n, k => if k == j then x else QUIET))
  }

  lemma {:induction false} FlushNothing(s: State, i: nat, rs: seq<Outcome>, onlyWritable: bool)
    requires s.Sized() && i <= |s.descr| == |rs| && forall k :: 0 <= k < |rs| ==> rs[k] == Again
    ensures FlushFrom(s, i, rs, onlyWritable) == s
    decreases |rs| - i
  {
    if i < |rs| {
      assert s.descr[i := s.descr[i]] == s.descr;
      assert FlushSlot(s, i, rs[i], onlyWritable) == s;
      FlushNothing(s, i + 1, rs, onlyWritable);
    }
  }

  lemma {:induction false} ReadsNothing(s: State, i: nat, xs: seq<Input>, j: int)
    requires s.Sized() && i <= |s.descr| == |xs| && j < i && forall k :: k in s.read ==> k == j
    ensures ProcReads(s, i, xs) == s && AllowedFrom(s, i, xs) && KernelFrom(s, i, xs)
    decreases |xs| - i
  {
    if i < |xs| {
      assert Serve(s, i, xs[i]) == s;
      ReadsNothing(s, i + 1, xs, j);
    }
  }

  lemma {:induction false} ReadsOnly(s: State, i: nat, xs: seq<Input>, j: int)
    requires s.Sized() && i <= j < |s.descr| == |xs| && forall k :: k in s.read ==> k == j
    ensures ProcReads(s, i, xs) == Serve(s, j, xs[j])
    ensures AllowedFrom(s, i, xs) == Allowed(s, j, xs[j]) && KernelFrom(s, i, xs) == KernelOk(s, j, xs[j])
    decreases |xs| - i
  {
    var t := Serve(s, i, xs[i]);
    if i < j {
      assert t == s;
      ReadsOnly(s, i + 1, xs, j);
    } else {
      forall k | k in t.read ensures k == j {
        ServeLater(s, j, xs[j], k);
      }
      ReadsNothing(t, i + 1, xs, j);
    }
  }

  /** What slot `j` finds in a turn in which only it is ready. */
  function Ready(s: State, j: int): State { s.(read := {j}, write := {}) }

  lemma OnlyReads(s: State, n: nat, j: int, x: Input)
    requires s.Sized() && |s.descr| == n && 0 <= j < n && j in s.active
    ensures BeforeReads(s, Only(n, j, x)) == Ready(s, j)
  {
    var t := Only(n, j, x);
    assert BeforeDrain(s, t) == s by {
      assert BeforeDrain(s, t).wactive == s.wactive;
    }
    FlushNothing(s, 0, t.drain, false);
    var u := Select(s, t.ready, t.writable);
    assert u == Ready(s, j);
    FlushNothing(u, 0, t.flush, true);
  }

  lemma OnlyTurn(s: State, n: nat, j: int, x: Input)
    requires s.Sized() && |s.descr| == n && 0 <= j < n && j in s.active
    ensures Loop(s, Only(n, j, x)) == Serve(Ready(s, j), j, x)
    ensures AllowedTurn(s, Only(n, j, x)) == Allowed(Ready(s, j), j, x)
    ensures KernelTurn(s, Only(n, j, x)) == KernelOk(Ready(s, j), j, x)
  {
    OnlyReads(s, n, j, x);
    ReadsOnly(Ready(s, j), 0, Only(n, j, x).inputs, j);
  }

  // ---- A run with five slots, the listener being slot 1 ----

  const N: nat := 5

  predicate Fit(ts: seq<Turn>) { AllFit(N, ts) }

  function After(ts: seq<Turn>): State
    requires Fit(ts)
  {
    Execute(N, 1, ts)
  }

  /** One more turn, given the state `s` before it. */
  lemma More(ts: seq<Turn>, j: int, x: Input, s: State)
    requires Fit(ts) && After(ts) == s && 0 <= j < N && j in s.active
    ensures Fit(ts + [Only(N, j, x)]) && After(ts + [Only(N, j, x)]) == Serve(Ready(s, j), j, x)
    ensures AllowedRun(N, 1, ts + [Only(N, j, x)]) == (AllowedRun(N, 1, ts) && Allowed(Ready(s, j), j, x))
    ensures KernelRun(N, 1, ts + [Only(N, j, x)]) == (KernelRun(N, 1, ts) && KernelOk(Ready(s, j), j, x))
  {
    var us := ts + [Only(N, j, x)];
    assert us[..|us|-1] == ts;
    OnlyTurn(s, N, j, x);
  }

  /** An allowed run that ends in state `s`. */
  predicate Leads(ts: seq<Turn>, s: State) { Fit(ts) && After(ts) == s && AllowedRun(N, 1, ts) }

  /** It goes on as allowed. */
  lemma GoesOn(ts: seq<Turn>, s: State, j: int, x: Input, t: State)
    requires Leads(ts, s) && 0 <= j < N && j in s.active
    requires Allowed(Ready(s, j), j, x) && Serve(Ready(s, j), j, x) == t
    ensures Leads(ts + [Only(N, j, x)], t)
  {
    More(ts, j, x, s);
  }

  /** A run to `t` in which only the kernel keeps to its side. */
  predicate Reached(ts: seq<Turn>, t: State) { Fit(ts) && KernelRun(N, 1, ts) && After(ts) == t }

  lemma {:induction false} KernelAllows(ts: seq<Turn>)
    requires Fit(ts) && AllowedRun(N, 1, ts)
    ensures KernelRun(N, 1, ts)
  {
    if ts != [] {
      KernelAllows(ts[..|ts|-1]);
      var s, t := After(ts[..|ts|-1]), ts[|ts|-1];
      if t.some {
        KernelFromAllowed(BeforeReads(s, t), 0, t.inputs);
      }
    }
  }

  lemma {:induction false} KernelFromAllowed(s: State, i: nat, xs: seq<Input>)
    requires s.Sized() && i <= |s.descr| == |xs| && AllowedFrom(s, i, xs)
    ensures KernelFrom(s, i, xs)
    decreases |xs| - i
  {
    if i < |xs| {
      KernelFromAllowed(Serve(s, i, xs[i]), i + 1, xs);
    }
  }

  lemma GoesWrong(ts: seq<Turn>, s: State, j: int, x: Input, t: State)
    requires Leads(ts, s) && 0 <= j < N && j in s.active
    requires KernelOk(Ready(s, j), j, x) && Serve(Ready(s, j), j, x) == t
    ensures Reached(ts + [Only(N, j, x)], t)
  {
    KernelAllows(ts);
    More(ts, j, x, s);
  }

  /** A handler that answers client 2. */
  lemma Handled(s: State, acts: seq<Act>)
    requires s.Sized() && |s.descr| == N && s.srv == 1 && s.Live(2)
    requires !s.descr[2].flags.waiting && !s.descr[2].flags.tunnel
    ensures var x := QUIET.(app := Handle(acts));
            KernelOk(Ready(s, 2), 2, x) && Serve(Ready(s, 2), 2, x) == Perform(Ready(s, 2), 2, acts)
  {
  }

  const ACCEPT := QUIET.(fd := 2)
  const UPGRADE := QUIET.(app := Upgrade(3, true, [71], Room(1)))

  const ACCEPTED: seq<Turn> := [Only(N, 1, ACCEPT)]
  const PENDING := ACCEPTED + [Only(N, 2, UPGRADE)]

  const ZERO := DEAD.(fd := 0)
  const CLIENT := DEAD.(fd := 2)

  /** A client is connected as number 2. */
  const CONNECTED := State([ZERO, ZERO.(fd := 1), CLIENT, ZERO, ZERO], [NONE, NONE, NONE, NONE, NONE], {2},
                           {1, 2}, {}, {1}, {}, 1, multiset{2}, multiset{}, false)

  lemma Accepted()
    ensures Leads(ACCEPTED, CONNECTED)
  {
    var s := Init(N, 1);
    assert s.descr == [ZERO, ZERO.(fd := 1), ZERO, ZERO, ZERO];
    assert s.pair == [NONE, NONE, NONE, NONE, NONE];
    assert After([]) == s;
    More([], 1, ACCEPT, s);
    assert [] + [Only(N, 1, ACCEPT)] == ACCEPTED;
    assert {1} + {2} == {1, 2};
  }

  /** The client's upgrade is pending at the upstream with number 3. */
  const PAIRED := State([ZERO, ZERO.(fd := 1), CLIENT.(flags := NO_FLAGS.(pending := true)),
                         Descr(3, Flags(false, false, true, true), Queue([], [71], false), [71], []), ZERO],
                        [NONE, NONE, 3, 2, NONE], {2, 3},
                        {1, 2, 3}, {}, {2}, {}, 1, multiset{2, 3}, multiset{}, false)

  lemma Pending()
    ensures Leads(PENDING, PAIRED)
  {
    Accepted();
    UpgradeServed(CONNECTED, PAIRED, EMPTY);
    GoesOn(ACCEPTED, CONNECTED, 2, UPGRADE, PAIRED);
  }

  /** Upgrading client 2, with or without a backlog. */
  lemma UpgradeServed(s: State, t: State, q: Queue)
    requires s == CONNECTED.(descr := CONNECTED.descr[2 := CLIENT.(out := q)], read := s.read)
    requires t == PAIRED.(descr := PAIRED.descr[2 := PAIRED.descr[2].(out := q)])
    ensures Allowed(Ready(s, 2), 2, UPGRADE) && Serve(Ready(s, 2), 2, UPGRADE) == t
  {
    var u, r := Ready(s, 2), UPGRADE.app.req;
    assert r[..1] == r;
    var v := SetOut(Join(u, 2, 3, r), 3, Queue([], r, false));
    assert v.descr == t.descr && v.pair == t.pair;
    assert {1, 2} + {3} == {1, 2, 3} && {2} + {3} == {2, 3};
  }

  // ---- Runs without a failure ----

  const ANSWERED := PAIRED.(descr := PAIRED.descr[2 := CLIENT.(flags := NO_FLAGS.(tunnel := true))]
                                                 [3 := PAIRED.descr[3].(flags := NO_FLAGS.(tunnel := true))],
                            read := {3})

  /** The two ends of a tunnel that has carried nothing but the answer. */
  function Answered(data: seq<Byte>): State {
    ANSWERED.(descr := ANSWERED.descr[2 := ANSWERED.descr[2].(out := Queue([], data, false))]
                                     [3 := ANSWERED.descr[3].(rx := data)])
  }

  function Answer(data: seq<Byte>): Turn { Only(N, 3, QUIET.(data := data, room := Room(|data|))) }

  /** An allowed run with a tunnel: the upstream has been sent the request and
      the client the 101. */
  lemma TunnelReached(data: seq<Byte>)
    requires Is101(data)
    ensures Leads(PENDING + [Answer(data)], Answered(data))
    ensures var s := Answered(data);
            && s.descr[2].flags.tunnel && s.descr[3].flags.tunnel && s.pair[2] == 3 && s.pair[3] == 2
            && s.descr[2].out == Queue([], data, false) && s.descr[3].out == Queue([], [71], false)
  {
    Pending();
    AnswerServed(data);
    GoesOn(PENDING, PAIRED, 3, QUIET.(data := data, room := Room(|data|)), Answered(data));
  }

  lemma AnswerServed(data: seq<Byte>)
    requires Is101(data)
    ensures var x := QUIET.(data := data, room := Room(|data|));
            Allowed(Ready(PAIRED, 3), 3, x) && Serve(Ready(PAIRED, 3), 3, x) == Answered(data)
  {
    AnswerRelayed(Ready(PAIRED, 3), data);
  }

  lemma AnswerRelayed(s: State, data: seq<Byte>)
    requires s == Ready(PAIRED, 3) && Is101(data)
    ensures AnswerFits(s, 3, data, Room(|data|)) && ServeWaiting(s, 3, data, Room(|data|)) == Answered(data)
  {
    var m := MarkStart(s, 2, 3, data);
    assert Send(EMPTY, data, Room(|data|)) == Queue([], data, false) && EMPTY.Stream() == [];
    assert LowWrite(m, 2, data, Room(|data|)) == SetOut(m, 2, Queue([], data, false));
    var t := Enter(SetOut(m, 2, Queue([], data, false)), 2, 3);
    assert t.active == {1, 2, 3};
    assert t.descr[2] == Answered(data).descr[2] && t.descr[3] == Answered(data).descr[3];
    assert t.descr == Answered(data).descr && t.pair == PAIRED.pair;
  }

  /** The premise of `TunnelHistory.EndToEnd` is met in that run. */
  lemma PremiseReached(data: seq<Byte>)
    requires Is101(data)
    ensures var ts := PENDING + [Answer(data)];
            && Fit(ts) && AllowedRun(N, 1, ts) && ts[1].some
            && TunnelHistory.Connects(TunnelHistory.Reaches(Execute(N, 1, ts[..1]), ts[1], 2), 2, ts[1].inputs[2])
  {
    var ts := PENDING + [Answer(data)];
    TunnelReached(data);
    Accepted();
    assert ts[..1] == ACCEPTED && ts[1] == Only(N, 2, UPGRADE);
    ReadyReached(CONNECTED, 2, UPGRADE);
  }

  lemma ReadyReached(s: State, j: int, x: Input)
    requires s.Sized() && |s.descr| == N && 0 <= j < N && j in s.active
    ensures TunnelHistory.Reaches(s, Only(N, j, x), j) == Ready(s, j)
  {
    OnlyReads(s, N, j, x);
    SkipsTo(Ready(s, j), 0, j, Only(N, j, x).inputs);
  }

  lemma {:induction false} SkipsTo(s: State, i: nat, j: nat, xs: seq<Input>)
    requires s.Sized() && i <= j < |s.descr| == |xs| && s.read == {j}
    ensures Upto(s, i, j, xs) == s
    decreases j - i
  {
    if i < j {
      SkipsTo(s, i + 1, j, xs);
    }
  }

  // ---- A byte that is dropped ----

  /** In an allowed run a relayed byte is dropped when the write is interrupted
      by a signal: both ends stay open, and the client never gets the byte. */
  lemma RelayDrops(data: seq<Byte>)
    requires Is101(data)
    ensures var ts := PENDING + [Answer(data)] + [Only(N, 3, QUIET.(data := [98], room := Interrupted))];
            && Fit(ts) && AllowedRun(N, 1, ts)
            && var s := After(ts);
               && s.descr[2].flags.tunnel && s.descr[3].flags.tunnel && s.descr[3].rx == data + [98]
               && s.descr[2].out == Queue([], data, true)
  {
    TunnelReached(data);
    var s, x := Answered(data), QUIET.(data := [98], room := Interrupted);
    More(PENDING + [Answer(data)], 3, x, s);
    ByteDropped(Ready(s, 3), data);
  }

  lemma ByteDropped(s: State, data: seq<Byte>)
    requires s == Ready(Answered(data), 3)
    ensures var t := ServeTunnel(s, 3, [98], Interrupted);
            && t.descr[2].flags.tunnel && t.descr[3].flags.tunnel && t.descr[3].rx == data + [98]
            && t.descr[2].out == Queue([], data, true)
  {
  }

  // ---- An oversized request while an upgrade is pending ----

  const OVERSIZED := TooLarge([52], Room(1), Again)
  const STALE := PENDING + [Only(N, 2, QUIET.(app := Handle(OVERSIZED)))]

  const SPOILED := PAIRED.(descr := PAIRED.descr[2 := DEAD], pair := [NONE, NONE, NONE, 2, NONE],
                           active := {1, 3}, read := {}, closes := multiset{2})

  /** Status 413 closes the client but not its upstream, which still names the
      number: the stale entry that `axil_close` is meant to prevent. */
  lemma OversizedLeavesStaleEntry()
    ensures Reached(STALE, SPOILED)
    ensures !SPOILED.Live(2) && SPOILED.pair[2] == NONE
    ensures SPOILED.Live(3) && SPOILED.descr[3].flags.waiting && SPOILED.pair[3] == 2
  {
    Pending();
    OversizedServed();
    Handled(PAIRED, OVERSIZED);
    GoesWrong(PENDING, PAIRED, 2, QUIET.(app := Handle(OVERSIZED)), SPOILED);
  }

  lemma OversizedServed()
    ensures Perform(Ready(PAIRED, 2), 2, OVERSIZED) == SPOILED
  {
    var t := Perform(Ready(PAIRED, 2), 2, OVERSIZED);
    ThreeActs(Ready(PAIRED, 2), 2, OVERSIZED);
    assert t.descr == SPOILED.descr && t.pair == SPOILED.pair;
    assert {1, 2, 3} - {2} == {1, 3} && {2} - {2} == {};
  }

  lemma ThreeActs(s: State, i: int, acts: seq<Act>)
    requires s.Sized() && s.Slot(i) && |acts| == 3
    ensures Perform(s, i, acts) == Do(Do(Do(s, i, acts[0]), i, acts[1]), i, acts[2])
  {
    var t := Do(s, i, acts[0]);
    assert Perform(t, i, acts[1..]) == Perform(Do(t, i, acts[1]), i, acts[1..][1..]);
  }

  const REUSED := SPOILED.(descr := PAIRED.descr[2 := CLIENT], active := {1, 2, 3}, read := {1}, opens := multiset{2, 2, 3})

  /** The next connection gets the number, and the upstream's answer, meant
      for somebody else, closes it. */
  lemma StaleEntryHits(data: seq<Byte>)
    ensures var ts := STALE + [Only(N, 1, ACCEPT)];
            && Reached(ts, REUSED) && REUSED.Live(2)
            && var us := ts + [Only(N, 3, QUIET.(data := data))];
               Fit(us) && KernelRun(N, 1, us) && !After(us).Live(2)
  {
    OversizedLeavesStaleEntry();
    NumberReused();
    More(STALE, 1, ACCEPT, SPOILED);
    More(STALE + [Only(N, 1, ACCEPT)], 3, QUIET.(data := data), REUSED);
    ReusedClosed(data);
  }

  lemma NumberReused()
    ensures KernelOk(Ready(SPOILED, 1), 1, ACCEPT) && Serve(Ready(SPOILED, 1), 1, ACCEPT) == REUSED
  {
    var t := Serve(Ready(SPOILED, 1), 1, ACCEPT);
    assert {1, 3} + {2} == {1, 2, 3} && {2, 3} + {2} == {2, 3};
    assert t.descr == REUSED.descr;
  }

  lemma ReusedClosed(data: seq<Byte>)
    ensures var x := QUIET.(data := data);
            KernelOk(Ready(REUSED, 3), 3, x) && !Serve(Ready(REUSED, 3), 3, x).Live(2)
  {
  }

  // ---- A second upgrade ----

  const AGAIN := QUIET.(app := Upgrade(4, true, [71], Room(1)))

  lemma SecondUpgradeLeavesStaleEntry()
    ensures var ts := PENDING + [Only(N, 2, AGAIN)];
            Fit(ts) && KernelRun(N, 1, ts) && After(ts).pair[2] == 4 && After(ts).pair[3] == 2
  {
    Pending();
    SecondServed();
    GoesWrong(PENDING, PAIRED, 2, AGAIN, Serve(Ready(PAIRED, 2), 2, AGAIN));
  }

  lemma SecondServed()
    ensures KernelOk(Ready(PAIRED, 2), 2, AGAIN)
    ensures var t := Serve(Ready(PAIRED, 2), 2, AGAIN); t.pair[2] == 4 && t.pair[3] == 2
  {
  }

  // ---- An answer that meets a backlog ----

  const BACKLOG := [Emit([72], Room(0))]
  const WAITING := ACCEPTED + [Only(N, 2, QUIET.(app := Handle(BACKLOG)))]
  const BACKLOGGED := CONNECTED.(descr := CONNECTED.descr[2 := CLIENT.(out := Queue([72], [], false))], read := {2})

  lemma Waiting()
    ensures Leads(WAITING, BACKLOGGED)
  {
    Accepted();
    Handled(CONNECTED, BACKLOG);
    BacklogServed();
    GoesOn(ACCEPTED, CONNECTED, 2, QUIET.(app := Handle(BACKLOG)), BACKLOGGED);
  }

  lemma BacklogServed()
    ensures ActsOk(Ready(CONNECTED, 2), 2, BACKLOG) && Perform(Ready(CONNECTED, 2), 2, BACKLOG) == BACKLOGGED
  {
    var t := Do(Ready(CONNECTED, 2), 2, BACKLOG[0]);
    assert Send(EMPTY, BACKLOG[0].data, Room(0)) == Queue([72], [], false);
    assert t.descr == BACKLOGGED.descr;
  }

  const BEHIND := WAITING + [Only(N, 2, UPGRADE)]
  const BEHIND_STATE := PAIRED.(descr := PAIRED.descr[2 := PAIRED.descr[2].(out := Queue([72], [], false))])

  lemma Behind()
    ensures Leads(BEHIND, BEHIND_STATE)
  {
    Waiting();
    UpgradeServed(BACKLOGGED, BEHIND_STATE, Queue([72], [], false));
    GoesOn(WAITING, BACKLOGGED, 2, UPGRADE, BEHIND_STATE);
  }

  /** The client is gone when the 101 is forwarded: both closed slots become
      a tunnel; any other answer closes the upstream's number twice. */
  lemma AnswerMeetsBacklog(data: seq<Byte>)
    requires data != []
    ensures var ts := BEHIND + [Only(N, 3, QUIET.(data := data, room := Broken))];
            && Fit(ts) && KernelRun(N, 1, ts)
            && var s := After(ts);
               !s.Live(2) && !s.Live(3) &&
               if Is101(data) then s.descr[2].flags.tunnel && s.pair[2] == 3 else s.opens[3] == 1 && s.closes[3] == 2
  {
    Behind();
    More(BEHIND, 3, QUIET.(data := data, room := Broken), BEHIND_STATE);
    KernelAllows(BEHIND);
    BehindServed(data);
  }

  lemma BehindServed(data: seq<Byte>)
    requires data != []
    ensures var s := ServeWaiting(Ready(BEHIND_STATE, 3), 3, data, Broken);
            !s.Live(2) && !s.Live(3) &&
            if Is101(data) then s.descr[2].flags.tunnel && s.pair[2] == 3 else s.opens[3] == 1 && s.closes[3] == 2
  {
    var s := Ready(BEHIND_STATE, 3);
    if Is101(data) {
      BacklogBreaks(MarkStart(s, 2, 3, data), data);
    } else {
      BacklogBreaks(s, data);
    }
  }

  /** Writing behind the backlog takes the pair down. */
  lemma BacklogBreaks(s: State, data: seq<Byte>)
    requires s.Sized() && |s.descr| == N && 2 in s.io && s.Live(2) && s.descr[2].flags.pending && s.pair[2] == 3
    requires s.descr[2].out.pending != []
    ensures var t := LowWrite(s, 2, data, Broken);
            && t.descr == s.descr[2 := DEAD][3 := DEAD] && t.pair == s.pair[2 := NONE][3 := NONE]
            && t.closes == s.closes + multiset{2} + multiset{3} && t.opens == s.opens && 2 !in t.io
  {
  }

  // ---- A static answer while an upgrade is pending ----

  const PAGE := Static([[72], [70]], [Broken, Room(1)])

  /** The first write takes the pair down, the second calls a null pointer. */
  lemma StaticFaults()
    ensures var ts := BEHIND + [Only(N, 2, QUIET.(app := Handle(PAGE)))];
            Fit(ts) && KernelRun(N, 1, ts) && After(ts).fault
  {
    Behind();
    PageServed(Ready(BEHIND_STATE, 2));
    Handled(BEHIND_STATE, PAGE);
    GoesWrong(BEHIND, BEHIND_STATE, 2, QUIET.(app := Handle(PAGE)), Perform(Ready(BEHIND_STATE, 2), 2, PAGE));
  }

  lemma PageServed(s: State)
    requires s == Ready(BEHIND_STATE, 2)
    ensures Perform(s, 2, PAGE).fault
  {
    BacklogBreaks(s, [72]);
    assert PAGE == [Emit([72], Broken), Emit([70], Room(1)), CloseIfMarked];
    ThreeActs(s, 2, PAGE);
  }

  // ---- Replies that close twice ----

  const LONG := TooLong([52], Room(1), Again)
  const FILE := SendFile([72], [70], Room(1), Again, Room(1), Again)

  /** Client 2, which was connected once, is closed twice. */
  predicate ClosedTwice(s: State) { s.opens[2] == 1 && s.closes[2] == 2 }

  predicate RunClosesTwice(ts: seq<Turn>) { Fit(ts) && KernelRun(N, 1, ts) && ClosedTwice(After(ts)) }

  lemma ClosesTwice(ts: seq<Turn>, s: State, acts: seq<Act>)
    requires Leads(ts, s) && s.srv == 1 && 2 in s.active && s.Live(2)
    requires !s.descr[2].flags.waiting && !s.descr[2].flags.tunnel && ClosedTwice(Perform(Ready(s, 2), 2, acts))
    ensures RunClosesTwice(ts + [Only(N, 2, QUIET.(app := Handle(acts)))])
  {
    Handled(s, acts);
    GoesWrong(ts, s, 2, QUIET.(app := Handle(acts)), Perform(Ready(s, 2), 2, acts));
  }

  /** Status 414 closes its number twice even when everything goes out at once. */
  lemma TooLongClosesTwice()
    ensures RunClosesTwice(ACCEPTED + [Only(N, 2, QUIET.(app := Handle(LONG)))])
  {
    Accepted();
    LongServed(Ready(CONNECTED, 2));
    ClosesTwice(ACCEPTED, CONNECTED, LONG);
  }

  lemma LongServed(s: State)
    requires s == Ready(CONNECTED, 2)
    ensures ClosedTwice(Perform(s, 2, LONG))
  {
    ThreeActs(s, 2, LONG);
  }

  /** So does sending a file, of which no byte reaches the wire. */
  lemma SendFileClosesTwice()
    ensures RunClosesTwice(ACCEPTED + [Only(N, 2, QUIET.(app := Handle(FILE)))])
  {
    Accepted();
    FileServed(Ready(CONNECTED, 2));
    ClosesTwice(ACCEPTED, CONNECTED, FILE);
  }

  lemma FileServed(s: State)
    requires s == Ready(CONNECTED, 2)
    ensures ClosedTwice(Perform(s, 2, FILE))
  {
    var t := Do(s, 2, FILE[0]);
    assert Perform(s, 2, FILE) == Perform(t, 2, FILE[1..]);
    assert FILE[1..] == [FILE[1], FILE[2], FILE[3]];
    ThreeActs(t, 2, FILE[1..]);
  }

  /** So do a reply and the redirects behind a backlog, if the connection is
      broken. */
  lemma ReplyClosesTwice()
    ensures RunClosesTwice(WAITING + [Only(N, 2, QUIET.(app := Handle(Respond([72], [66], Broken, Again, Again))))])
  {
    Waiting();
    var acts := Respond([72], [66], Broken, Again, Again);
    ReplyServed(Ready(BACKLOGGED, 2), [72] + [66]);
    ClosesTwice(WAITING, BACKLOGGED, acts);
  }

  lemma ReplyServed(s: State, data: seq<Byte>)
    requires s == Ready(BACKLOGGED, 2)
    ensures ClosedTwice(Perform(s, 2, [Emit(data, Broken), Settle(Again)]))
  {
    var acts := [Emit(data, Broken), Settle(Again)];
    var t := Do(s, 2, acts[0]);
    BacklogCloses(s, data);
    assert acts[1..] == [Settle(Again)] && acts[1..][1..] == [];
    assert Perform(t, 2, acts[1..]) == Do(t, 2, Settle(Again));
  }

  /** Writing behind a backlog to an unpaired client closes it. */
  lemma BacklogCloses(s: State, data: seq<Byte>)
    requires s.Sized() && |s.descr| == N && 2 in s.io && s.Live(2) && !s.descr[2].flags.Paired()
    requires s.descr[2].out.pending != []
    ensures var t := LowWrite(s, 2, data, Broken);
            t.descr == s.descr[2 := DEAD] && t.closes == s.closes + multiset{2} && t.opens == s.opens
  {
  }

  lemma RedirectClosesTwice()
    ensures RunClosesTwice(WAITING + [Only(N, 2, QUIET.(app := Handle(Redirect([72], Broken))))])
  {
    Waiting();
    RedirectServed(Ready(BACKLOGGED, 2));
    ClosesTwice(WAITING, BACKLOGGED, Redirect([72], Broken));
  }

  lemma RedirectServed(s: State)
    requires s == Ready(BACKLOGGED, 2)
    ensures ClosedTwice(Perform(s, 2, Redirect([72], Broken)))
  {
    ThreeActs(s, 2, Redirect([72], Broken));
    BacklogCloses(Do(s, 2, Mark), [72]);
  }

  lemma AddSlashClosesTwice()
    ensures RunClosesTwice(WAITING + [Only(N, 2, QUIET.(app := Handle(AddSlash([72], Broken))))])
  {
    Waiting();
    AddSlashServed(Ready(BACKLOGGED, 2));
    ClosesTwice(WAITING, BACKLOGGED, AddSlash([72], Broken));
  }

  lemma AddSlashServed(s: State)
    requires s == Ready(BACKLOGGED, 2)
    ensures ClosedTwice(Perform(s, 2, AddSlash([72], Broken)))
  {
    var acts := AddSlash([72], Broken);
    ThreeActs(s, 2, acts);
    BacklogCloses(s, [72]);
  }
}
