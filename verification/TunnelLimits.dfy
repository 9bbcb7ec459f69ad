// Exactly when the connection engine keeps its invariant, and what happens
// when it does not.
module TunnelLimits {
  import opened Fifo
  import opened Tunnel
  import opened TunnelProofs

  // ---- Upgrades and answers ----


  /** A second upgrade by a client breaks the pairing exactly when the client
      is still paired: its first upstream would keep a stale entry. */
  lemma SecondUpgradeIff(s: State, i: int, a: App)
    requires Inv(s) && s.Slot(i) && s.Live(i) && !Reserved(s, i)
    requires !s.descr[i].flags.waiting && !s.descr[i].flags.tunnel
    requires a.Upgrade? && Pairs(s, a) && Fresh(s, a.up) && a.up != i
    ensures Inv(Proxy(s, i, a.up, a.hasKey, a.req, a.sent)) <==> s.pair[i] == NONE
  {
    var t := Proxy(s, i, a.up, a.hasKey, a.req, a.sent);
    assert SlotOk(s, i) && SlotOk(s, a.up);
    if s.pair[i] == NONE {
      ProxyKeeps(s, i, a);
    } else {
      var first := s.pair[i];
      assert SlotOk(s, first);
      assert first != a.up;
      assert t.pair[first] == i && t.pair[i] != first;
      assert !SlotOk(t, first);
    }
  }

  lemma RevivedByAnswer(s: State, i: int, data: seq<Byte>, r: Outcome)
    requires Inv(s) && s.Slot(i) && s.descr[i].flags.waiting
    requires !AnswerFits(s, i, data, r) && Is101(data)
    ensures var t := ServeWaiting(s, i, data, r);
            !t.Live(i) && t.pair[i] == s.pair[i] != NONE
  {
    assert SlotOk(s, i) && SlotOk(s, s.pair[i]);
  }

  lemma ClosedTwiceByAnswer(s: State, i: int, data: seq<Byte>, r: Outcome)
    requires Inv(s) && s.Slot(i) && s.descr[i].flags.waiting
    requires !AnswerFits(s, i, data, r) && !Is101(data)
    ensures var t := ServeWaiting(s, i, data, r);
            !t.Live(i) && !Reserved(t, i) && t.closes[i] == t.opens[i] + 1
  {
    assert SlotOk(s, i) && SlotOk(s, s.pair[i]);
  }

  /** Forwarding the upstream's answer keeps the invariant exactly when the
      write does not itself close the client: otherwise a 101 revives two
      closed slots, and any other answer closes the upstream twice. */
  lemma AnswerIff(s: State, i: int, data: seq<Byte>, r: Outcome)
    requires Inv(s) && s.Slot(i) && s.descr[i].flags.waiting
    ensures Inv(ServeWaiting(s, i, data, r)) <==> AnswerFits(s, i, data, r)
  {
    if AnswerFits(s, i, data, r) {
      ServeWaitingKeeps(s, i, data, r);
    } else {
      assert SlotOk(s, i) && SlotOk(s, s.pair[i]);
      if Is101(data) {
        RevivedByAnswer(s, i, data, r);
      } else {
        ClosedTwiceByAnswer(s, i, data, r);
      }
      assert !SlotOk(ServeWaiting(s, i, data, r), i);
    }
  }

  /** Before the kernel has answered: the upstream may be forwarded safely
      exactly if nothing is queued for the client. */
  lemma AnswerAlwaysIff(s: State, i: int, data: seq<Byte>)
    requires Inv(s) && s.Slot(i) && s.descr[i].flags.waiting && data != []
    ensures s.Slot(s.pair[i])
    ensures (forall r: Outcome :: Inv(ServeWaiting(s, i, data, r))) <==> s.descr[s.pair[i]].out.pending == []
  {
    assert SlotOk(s, i) && SlotOk(s, s.pair[i]);
    forall r: Outcome ensures Inv(ServeWaiting(s, i, data, r)) <==> AnswerFits(s, i, data, r) {
      AnswerIff(s, i, data, r);
    }
    assert Inv(ServeWaiting(s, i, data, Broken)) <==> AnswerFits(s, i, data, Broken);
  }

  // ---- Handlers ----

  /** Another slot names `i`, which does not know of it. */
  ghost predicate Stale(s: State, i: int)
    requires s.Sized() && s.Slot(i)
  {
    !s.descr[i].flags.Paired() && exists up :: s.Slot(up) && up != i && s.pair[up] == i
  }

  /** Closed twice, marked while closed, or named by a stale entry. */
  ghost predicate Spoiled(s: State, i: int)
    requires s.Sized() && s.Slot(i)
  {
    || s.fault
    || (!s.Live(i) && s.closes[i] > s.opens[i])
    || (!s.Live(i) && s.closes[i] == s.opens[i] && s.descr[i].flags == NO_FLAGS.(toClose := true))
    || Stale(s, i)
  }

  lemma InvNotSpoiled(s: State, i: int)
    requires Inv(s) && s.Slot(i) && !Reserved(s, i)
    ensures !Spoiled(s, i)
  {
    assert SlotOk(s, i);
    forall up | s.Slot(up) && up != i && s.pair[up] == i ensures s.descr[i].flags.Paired() {
      assert SlotOk(s, up);
    }
  }

  lemma StaleStays(s: State, i: int, a: Act, up: int)
    requires s.Sized() && s.Slot(i) && !s.descr[i].flags.Paired() && s.Slot(up) && up != i && s.pair[up] == i
    ensures var t := Do(s, i, a); !t.descr[i].flags.Paired() && t.pair[up] == i
  {
  }

  lemma ClosesAgain(s: State, i: int)
    requires s.Sized() && s.Slot(i)
    ensures var t := Close(s, i); !t.Live(i) && t.opens == s.opens && s.closes[i] < t.closes[i]
  {
  }

  lemma FlushesClosed(s: State, i: int, r: Outcome)
    requires s.Sized() && s.Slot(i) && !s.Live(i)
    ensures var t := WriteRemaining(s, i, r);
            && !t.Live(i) && t.opens == s.opens
            && (t.closes[i] > s.closes[i] || (t.closes == s.closes && t.descr[i].flags == s.descr[i].flags))
  {
    ClosesAgain(SetOut(s, i, Flush(s.descr[i].out, r)), i);
  }

  lemma ClosedStays(s: State, i: int, a: Act)
    requires s.Sized() && s.Slot(i) && !s.Live(i)
    ensures var t := Do(s, i, a); !t.Live(i) && t.opens == s.opens && s.closes[i] <= t.closes[i]
    ensures s.descr[i].flags == NO_FLAGS.(toClose := true) && Do(s, i, a).closes[i] == s.closes[i] ==>
            Do(s, i, a).descr[i].flags == s.descr[i].flags
  {
    var t := SetFlags(s, i, s.descr[i].flags.(toClose := true));
    match a
    case Emit(_, _) =>
    case Mark =>
    case Overwrite =>
    case Settle(r) => ClosesAgain(t, i); FlushesClosed(t, i, r);
    case _ => ClosesAgain(s, i);
  }

  lemma SpoiledStays(s: State, i: int, a: Act)
    requires s.Sized() && s.Slot(i) && Spoiled(s, i)
    ensures Spoiled(Do(s, i, a), i)
  {
    if !s.Live(i) {
      ClosedStays(s, i, a);
    }
    if up :| s.Slot(up) && up != i && s.pair[up] == i && !s.descr[i].flags.Paired() {
      StaleStays(s, i, a, up);
    }
    FaultStays(s, i, a);
  }

  lemma FaultStays(s: State, i: int, a: Act)
    requires s.Sized() && s.Slot(i)
    ensures s.fault ==> Do(s, i, a).fault
  {
  }

  lemma DoSpoils(s: State, i: int, a: Act)
    requires Inv(s) && Normal(s, i) && !ActOk(s, i, a)
    ensures Spoiled(Do(s, i, a), i) && Do(s, i, a).srv == s.srv
  {
    assert SlotOk(s, i);
    if s.Live(i) {
      assert SlotOk(s, s.pair[i]);
      assert Do(s, i, a).pair[s.pair[i]] == i;
    }
  }

  lemma {:induction false} PerformSpoiled(s: State, i: int, acts: seq<Act>)
    requires s.Sized() && s.Slot(i) && Spoiled(s, i)
    ensures Spoiled(Perform(s, i, acts), i)
    decreases |acts|
  {
    if acts != [] {
      SpoiledStays(s, i, acts[0]);
      PerformSpoiled(Do(s, i, acts[0]), i, acts[1..]);
    }
  }

  /** A handler keeps the invariant exactly if it leaves its slot alone once
      that is closed, and its flags while it is paired; nothing that it does
      later repairs the tables. */
  lemma {:induction false} PerformIff(s: State, i: int, acts: seq<Act>)
    requires Inv(s) && Normal(s, i)
    ensures Inv(Perform(s, i, acts)) <==> ActsOk(s, i, acts)
    decreases |acts|
  {
    if acts != [] {
      var t := Do(s, i, acts[0]);
      if ActOk(s, i, acts[0]) {
        DoKeeps(s, i, acts[0]);
        PerformIff(t, i, acts[1..]);
      } else {
        DoSpoils(s, i, acts[0]);
        PerformSpoiled(t, i, acts[1..]);
        if Inv(Perform(s, i, acts)) {
          InvNotSpoiled(Perform(s, i, acts), i);
        }
      }
    }
  }

  // ---- Every step and every run ----

  /** Given a kernel that hands out fresh numbers, serving a slot keeps the
      invariant exactly if client, upstream and handler are `Polite`. */
  lemma ServeIff(s: State, i: int, x: Input)
    requires Inv(s) && s.Slot(i) && KernelOk(s, i, x)
    ensures Inv(Serve(s, i, x)) <==> Polite(s, i, x)
  {
    assert SlotOk(s, i);
    if Polite(s, i, x) {
      ServeKeeps(s, i, x);
    } else if s.descr[i].flags.waiting {
      AnswerIff(s, i, x.data, x.room);
    } else if x.app.Handle? {
      PerformIff(s, i, x.app.acts);
    } else {
      SecondUpgradeIff(s, i, x.app);
    }
  }

  ghost predicate InvFrom(s: State, i: nat, xs: seq<Input>)
    requires s.Sized() && i <= |s.descr| == |xs|
    decreases |xs| - i
  {
    Inv(s) && (i == |xs| || InvFrom(Serve(s, i, xs[i]), i + 1, xs))
  }

  lemma {:induction false} ProcReadsIff(s: State, i: nat, xs: seq<Input>)
    requires Inv(s) && i <= |s.descr| == |xs| && KernelFrom(s, i, xs)
    ensures InvFrom(s, i, xs) <==> AllowedFrom(s, i, xs)
    decreases |xs| - i, 0
  {
    if i < |xs| {
      var t := Serve(s, i, xs[i]);
      ServeIff(s, i, xs[i]);
      RestIff(t, i + 1, xs, Polite(s, i, xs[i]));
      assert InvFrom(s, i, xs) == InvFrom(t, i + 1, xs);
      assert AllowedFrom(s, i, xs) == (Polite(s, i, xs[i]) && AllowedFrom(t, i + 1, xs));
    }
  }

  /** The slots behind the first one, whose step was polite or not. */
  lemma {:induction false} RestIff(t: State, i: nat, xs: seq<Input>, polite: bool)
    requires t.Sized() && i <= |t.descr| == |xs| && KernelFrom(t, i, xs) && (Inv(t) <==> polite)
    ensures InvFrom(t, i, xs) <==> polite && AllowedFrom(t, i, xs)
    decreases |xs| - i, 1
  {
    if polite {
      ProcReadsIff(t, i, xs);
    }
  }

  /** The invariant holds after every slot that is served in the run. */
  ghost predicate InvThroughout(size: nat, srv: int, turns: seq<Turn>)
    requires 0 < srv < size && AllFit(size, turns)
  {
    turns == [] ||
    var before, t := turns[..|turns|-1], turns[|turns|-1];
    InvThroughout(size, srv, before) &&
    (t.some ==> InvFrom(BeforeReads(Execute(size, srv, before), t), 0, t.inputs))
  }

  /** `Safety` asks for no more than it needs: in a run whose kernel hands out
      fresh numbers, the invariant holds throughout exactly if every client,
      upstream and handler in it is `Polite`. */
  lemma {:induction false} SafetyIff(size: nat, srv: int, turns: seq<Turn>)
    requires 0 < srv < size && AllFit(size, turns) && KernelRun(size, srv, turns)
    ensures InvThroughout(size, srv, turns) <==> AllowedRun(size, srv, turns)
  {
    if turns != [] {
      var before, t := turns[..|turns|-1], turns[|turns|-1];
      SafetyIff(size, srv, before);
      if AllowedRun(size, srv, before) {
        Safety(size, srv, before);
        BeforeReadsKeeps(Execute(size, srv, before), t);
        if t.some {
          ProcReadsIff(BeforeReads(Execute(size, srv, before), t), 0, t.inputs);
        }
      }
    }
  }
}
