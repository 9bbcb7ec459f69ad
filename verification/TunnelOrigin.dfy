// Every tunnel of every reachable state has a story: nothing but an answer
// that is read by a waiting upstream makes one.
module TunnelOrigin {
  import opened Fifo
  import opened Wrappers
  import opened Tunnel
  import opened TunnelProofs
  import opened TunnelHistory

  // ---- What other steps do not do ----

  /** Slot `j` is in a tunnel, or waiting, only if it was so before, and no
      descriptor was handed out. */
  predicate NoNews(s: State, t: State, j: int)
    requires s.Sized() && t.Sized() && |t.descr| == |s.descr| && s.Slot(j)
  {
    && (t.descr[j].flags.tunnel ==> s.descr[j].flags.tunnel)
    && (t.descr[j].flags.waiting ==> s.descr[j].flags.waiting)
    && t.opens == s.opens
  }

  lemma CloseNoNews(s: State, i: int, j: int)
    requires s.Sized() && s.Slot(i) && s.Slot(j)
    ensures NoNews(s, Close(s, i), j) && NoNews(s, CloseRaw(s, i), j)
  {
  }

  lemma WriteNoNews(s: State, i: int, data: seq<Byte>, r: Outcome, j: int)
    requires s.Sized() && s.Slot(i) && s.Slot(j)
    ensures NoNews(s, LowWrite(s, i, data, r), j)
  {
    CloseNoNews(SetOut(s, i, Send(s.descr[i].out, data, r)), i, j);
  }

  lemma FlushNoNews(s: State, i: int, r: Outcome, j: int)
    requires s.Sized() && s.Slot(i) && s.Slot(j)
    ensures NoNews(s, WriteRemaining(s, i, r), j)
  {
    CloseNoNews(SetOut(s, i, Flush(s.descr[i].out, r)), i, j);
  }

  lemma DoNoNews(s: State, i: int, a: Act, j: int)
    requires s.Sized() && s.Slot(i) && s.Slot(j)
    ensures NoNews(s, Do(s, i, a), j)
  {
    match a
    case Emit(data, r) => WriteNoNews(s, i, data, r, j);
    case Mark =>
    case Overwrite =>
    case Settle(r) =>
      var t := SetFlags(s, i, s.descr[i].flags.(toClose := true));
      CloseNoNews(t, i, j);
      FlushNoNews(t, i, r, j);
    case _ => CloseNoNews(s, i, j);
  }

  lemma {:induction false} PerformNoNews(s: State, i: int, acts: seq<Act>, j: int)
    requires s.Sized() && s.Slot(i) && s.Slot(j)
    ensures NoNews(s, Perform(s, i, acts), j)
    decreases |acts|
  {
    if acts != [] {
      DoNoNews(s, i, acts[0], j);
      PerformNoNews(Do(s, i, acts[0]), i, acts[1..], j);
    }
  }

  lemma {:induction false} FlushFromNoNews(s: State, i: nat, rs: seq<Outcome>, onlyWritable: bool, j: int)
    requires s.Sized() && i <= |s.descr| == |rs| && s.Slot(j)
    ensures NoNews(s, FlushFrom(s, i, rs, onlyWritable), j)
    decreases |rs| - i
  {
    if i < |rs| {
      FlushNoNews(s, i, rs[i], j);
      FlushFromNoNews(FlushSlot(s, i, rs[i], onlyWritable), i + 1, rs, onlyWritable, j);
    }
  }

  lemma TunnelNoNews(s: State, i: int, data: seq<Byte>, r: Outcome, j: int)
    requires s.Sized() && s.Slot(i) && s.Slot(j)
    ensures NoNews(s, ServeTunnel(s, i, data, r), j)
  {
    CloseNoNews(s, i, j);
    if s.HasPeer(i) {
      WriteNoNews(Grown(s, i, data), s.pair[i], data, r, j);
    }
  }

  /** A waiting upstream, unless its answer is a 101. */
  lemma RefusalNoNews(s: State, i: int, data: seq<Byte>, r: Outcome, j: int)
    requires s.Sized() && s.Slot(i) && s.Slot(j) && !Is101(data)
    ensures NoNews(s, ServeWaiting(s, i, data, r), j)
  {
    CloseNoNews(s, i, j);
    if s.HasPeer(i) {
      WriteNoNews(s, s.pair[i], data, r, j);
      CloseNoNews(LowWrite(s, s.pair[i], data, r), i, j);
    }
  }

  lemma EnterNoNews(s: State, i: int, data: seq<Byte>, r: Outcome, j: int)
    requires s.Sized() && s.Slot(i) && s.Slot(j)
    ensures var t := ServeWaiting(s, i, data, r);
            && t.opens == s.opens && (j != i && j != s.pair[i] ==> NoNews(s, t, j))
            && (t.descr[j].flags.waiting ==> s.descr[j].flags.waiting)
  {
    if data == [] || !GoodPeer(s, i) || !Is101(data) {
      if Is101(data) {
        CloseNoNews(s, i, j);
      } else {
        RefusalNoNews(s, i, data, r, j);
      }
    } else {
      var m := MarkStart(s, s.pair[i], i, data);
      WriteNoNews(m, s.pair[i], data, r, j);
    }
  }

  // ---- One served slot ----

  /** The answer that makes slot `j` an end of a tunnel. */
  predicate Answers(s: State, i: int, x: Input, j: int)
    requires s.Sized() && s.Slot(i)
  {
    i in s.read && s.Live(i) && s.descr[i].flags.waiting && Is101(x.data) && (j == i || j == s.pair[i])
  }

  lemma RequestNoNews(s: State, up: int, req: seq<Byte>, sent: Outcome, j: int)
    requires s.Sized() && s.Slot(up) && s.Slot(j)
    ensures NoNews(s, SendRequest(s, up, req, sent), j)
  {
    var k := if sent.Room? then Min(sent.n, |req|) else 0;
    CloseNoNews(SetOut(s, up, Queue([], req[..k], false)), up, j);
  }

  lemma JoinOrigin(s: State, i: int, up: int, req: seq<Byte>, j: int)
    requires s.Sized() && s.Slot(i) && s.Slot(j) && s.Slot(up) && Fresh(s, up) && up != i
    ensures var t := Join(s, i, up, req);
            && (t.descr[j].flags.tunnel ==> s.descr[j].flags.tunnel)
            && (s.Live(j) ==> t.opens[j] == s.opens[j] && (t.descr[j].flags.waiting ==> s.descr[j].flags.waiting))
  {
  }

  /** Only numbers that are not live are handed out. */
  lemma ProxyOrigin(s: State, i: int, a: App, j: int)
    requires s.Sized() && s.Slot(i) && s.Slot(j) && a.Upgrade?
    requires a.up == NONE || (Fresh(s, a.up) && a.up != i)
    ensures var t := Proxy(s, i, a.up, a.hasKey, a.req, a.sent);
            && (t.descr[j].flags.tunnel ==> s.descr[j].flags.tunnel)
            && (s.Live(j) ==> t.opens[j] == s.opens[j] && (t.descr[j].flags.waiting ==> s.descr[j].flags.waiting))
  {
    if Pairs(s, a) {
      JoinOrigin(s, i, a.up, a.req, j);
      RequestNoNews(Join(s, i, a.up, a.req), a.up, a.req, a.sent, j);
    }
  }

  lemma ServeOrigin(s: State, i: int, x: Input, j: int)
    requires s.Sized() && s.Slot(i) && s.Slot(j) && KernelOk(s, i, x) && (i == s.srv ==> s.Live(i))
    ensures var t := Serve(s, i, x);
            && (t.descr[j].flags.tunnel ==> s.descr[j].flags.tunnel || Answers(s, i, x, j))
            && (s.Live(j) ==> t.opens[j] == s.opens[j] && (t.descr[j].flags.waiting ==> s.descr[j].flags.waiting))
  {
    if i in s.read && s.Live(i) && i != s.srv {
      if s.descr[i].flags.waiting {
        EnterNoNews(s, i, x.data, x.room, j);
        if !Is101(x.data) {
          RefusalNoNews(s, i, x.data, x.room, j);
        }
      } else if s.descr[i].flags.tunnel {
        TunnelNoNews(s, i, x.data, x.room, j);
      } else if x.app.Handle? {
        PerformNoNews(s, i, x.app.acts, j);
      } else {
        ProxyOrigin(s, i, x.app, j);
      }
    }
  }

  /** A slot that is live before and after was not closed in between. */
  lemma StillOpen(s: State, t: State, j: int)
    requires Inv(s) && Inv(t) && s.Slot(j) && t.Slot(j) && t.srv == s.srv && !Reserved(s, j)
    requires s.Live(j) && t.Live(j) && t.opens[j] == s.opens[j]
    ensures t.closes[j] == s.closes[j]
  {
    assert SlotOk(s, j) && SlotOk(t, j);
  }

  // ---- A read pass ----

  /** The pair of `j` was a tunnel all along, or its upstream's answer was
      read since. */
  predicate Origin(s: State, t: State, j: int, u: int)
    requires s.Sized() && t.Sized() && |t.descr| == |s.descr| && s.Slot(j)
  {
    || (s.descr[j].flags.tunnel && t.closes[j] == s.closes[j] && t.pair[j] == s.pair[j])
    || ((u == j || u == t.pair[j]) && s.Slot(u) && s.descr[u].flags.waiting && u in s.read && t.closes[u] == s.closes[u])
  }

  /** A waiting upstream that is served in a pass was waiting at its start. */
  lemma {:induction false} WaitedBefore(s: State, k: nat, xs: seq<Input>, u: int)
    requires Inv(s) && k <= |s.descr| == |xs| && AllowedFrom(s, 0, xs) && s.Slot(u)
    requires var m := Upto(s, 0, k, xs); m.descr[u].flags.waiting && u in m.read
    ensures s.descr[u].flags.waiting && u in s.read && Upto(s, 0, k, xs).closes[u] == s.closes[u]
    decreases k
  {
    if k > 0 {
      var m, t := UptoLast(s, k, xs);
      assert SlotOk(m, k - 1);
      ServeLater(m, k - 1, xs[k-1], u);
      ServeOrigin(m, k - 1, xs[k-1], u);
      assert SlotOk(m, u) && SlotOk(t, u);
      StillOpen(m, t, u);
      WaitedBefore(s, k - 1, xs, u);
    }
  }

  /** The last slot of a pass is served in `m`, which gives `t`. */
  lemma UptoLast(s: State, k: nat, xs: seq<Input>) returns (m: State, t: State)
    requires Inv(s) && 0 < k <= |s.descr| == |xs| && AllowedFrom(s, 0, xs)
    ensures m == Upto(s, 0, k - 1, xs) && t == Upto(s, 0, k, xs) == Serve(m, k - 1, xs[k-1])
    ensures Inv(m) && Inv(t) && Allowed(m, k - 1, xs[k-1])
  {
    m, t := Upto(s, 0, k - 1, xs), Upto(s, 0, k, xs);
    LastServed(s, k, xs);
    UptoKeeps(s, 0, k - 1, xs);
    UptoKeeps(s, 0, k, xs);
    HeadAllowed(m, k - 1, xs);
  }

  lemma LastServed(s: State, k: nat, xs: seq<Input>)
    requires s.Sized() && 0 < k <= |s.descr| == |xs|
    ensures Upto(s, 0, k, xs) == Serve(Upto(s, 0, k - 1, xs), k - 1, xs[k-1])
  {
    UptoTwice(s, 0, k - 1, k, xs);
  }

  lemma HeadAllowed(m: State, i: nat, xs: seq<Input>)
    requires m.Sized() && i < |m.descr| == |xs| && AllowedFrom(m, i, xs)
    ensures Allowed(m, i, xs[i])
  {
  }

  /** One step further. */
  lemma OriginStep(m: State, t: State, i: nat, x: Input, j: int)
    requires Inv(m) && Inv(t) && m.Slot(i) && m.Slot(j) && Allowed(m, i, x) && t == Serve(m, i, x)
    requires t.descr[j].flags.tunnel
    ensures if m.descr[j].flags.tunnel
            then t.closes[j] == m.closes[j] && t.pair[j] == m.pair[j] && m.Slot(m.pair[j]) && t.closes[m.pair[j]] == m.closes[m.pair[j]]
            else Answers(m, i, x, j) && t.closes[i] == m.closes[i] && (i == j || i == t.pair[j])
  {
    assert SlotOk(m, j) && SlotOk(t, j) && SlotOk(m, i);
    ServeOrigin(m, i, x, j);
    if m.descr[j].flags.tunnel {
      StillOpen(m, t, j);
      ServeOnward(m, i, x, j);
    } else {
      AnsweredPair(m, t, i, x, j);
    }
  }

  lemma AnsweredPair(m: State, t: State, i: nat, x: Input, j: int)
    requires Inv(m) && Inv(t) && m.Slot(i) && m.Slot(j) && Allowed(m, i, x) && t == Serve(m, i, x)
    requires t.descr[j].flags.tunnel && Answers(m, i, x, j)
    ensures t.closes[i] == m.closes[i] && (i == j || i == t.pair[j])
  {
    assert SlotOk(m, i) && SlotOk(m, m.pair[i]) && SlotOk(t, j);
    SendIgnoresLost(m.descr[m.pair[i]].out, x.data, x.room);
  }

  lemma {:induction false} PassOrigin(s: State, k: nat, xs: seq<Input>, j: int) returns (u: int)
    requires Inv(s) && k <= |s.descr| == |xs| && AllowedFrom(s, 0, xs) && s.Slot(j)
    requires Upto(s, 0, k, xs).descr[j].flags.tunnel
    ensures Origin(s, Upto(s, 0, k, xs), j, u)
    decreases k, 0
  {
    u := j;
    if k > 0 {
      var m, t := UptoLast(s, k, xs);
      OriginStep(m, t, k - 1, xs[k-1], j);
      u := LastOrigin(s, m, t, k, xs, j);
    }
  }

  /** The last slot of the pass is behind, the others are before. */
  lemma {:induction false} LastOrigin(s: State, m: State, t: State, k: nat, xs: seq<Input>, j: int) returns (u: int)
    requires Inv(s) && 0 < k <= |s.descr| == |xs| == |m.descr| == |t.descr| && AllowedFrom(s, 0, xs) && s.Slot(j)
    requires m.Sized() && t.Sized() && m == Upto(s, 0, k - 1, xs)
    requires if m.descr[j].flags.tunnel
             then t.closes[j] == m.closes[j] && t.pair[j] == m.pair[j] && t.closes[m.pair[j]] == m.closes[m.pair[j]]
             else Answers(m, k - 1, xs[k-1], j) && t.closes[k-1] == m.closes[k-1] && (k - 1 == j || k - 1 == t.pair[j])
    ensures Origin(s, t, j, u)
    decreases k - 1, 1
  {
    if m.descr[j].flags.tunnel {
      u := PassOrigin(s, k - 1, xs, j);
      OriginChain(s, m, t, j, u);
    } else {
      u := k - 1;
      WaitedBefore(s, k - 1, xs, u);
    }
  }

  lemma OriginChain(s: State, m: State, t: State, j: int, u: int)
    requires s.Sized() && m.Sized() && t.Sized() && |s.descr| == |m.descr| == |t.descr| && s.Slot(j)
    requires Origin(s, m, j, u)
    requires t.closes[j] == m.closes[j] && t.pair[j] == m.pair[j] && t.closes[m.pair[j]] == m.closes[m.pair[j]]
    ensures Origin(s, t, j, u)
  {
  }

  // ---- A whole turn ----

  /** The same of a turn: the pair was there, or its upstream answered in it. */
  lemma TurnOrigin(s: State, t: Turn, j: int) returns (u: int)
    requires Inv(s) && Fits(|s.descr|, t) && AllowedTurn(s, t) && s.Slot(j) && Loop(s, t).descr[j].flags.tunnel
    ensures var f := Loop(s, t);
            || (s.descr[j].flags.tunnel && f.closes[j] == s.closes[j])
            || ((u == j || u == f.pair[j]) && s.Slot(u) && s.descr[u].flags.waiting && t.some && u in t.ready
                && f.closes[u] == s.closes[u])
  {
    var v := BeforeReads(s, t);
    BeforeReadsKeeps(s, t);
    u := j;
    if t.some {
      UptoLater(v, 0, |t.inputs|, t.inputs, j);
      u := PassOrigin(v, |t.inputs|, t.inputs, j);
      if !(v.descr[j].flags.tunnel && Loop(s, t).closes[j] == v.closes[j]) {
        FlushedOrigin(s, t, u);
        return;
      }
    }
    FlushedOrigin(s, t, j);
  }

  /** Before the read pass nothing begins, and what is in `read` is ready. */
  lemma FlushedOrigin(s: State, t: Turn, j: int)
    requires Inv(s) && Fits(|s.descr|, t) && s.Slot(j) && Inv(BeforeReads(s, t))
    ensures var v := BeforeReads(s, t);
            && (v.descr[j].flags.tunnel ==> s.descr[j].flags.tunnel && v.closes[j] == s.closes[j])
            && (v.descr[j].flags.waiting ==> s.descr[j].flags.waiting && v.closes[j] == s.closes[j])
            && (t.some && j in v.read ==> j in t.ready)
  {
    var s0, v := BeforeDrain(s, t), BeforeReads(s, t);
    var s2 := Select(FlushFrom(s0, 0, t.drain, false), t.ready, t.writable);
    FlushFromNoNews(s0, 0, t.drain, false, j);
    FlushFromNoNews(s2, 0, t.flush, true, j);
    FlushFromLater(s2, 0, t.flush, true, j);
    assert SlotOk(s, j) && SlotOk(v, j);
    if s.Live(j) && v.Live(j) && !Reserved(s, j) {
      StillOpen(s, v, j);
    }
  }

  // ---- Whole runs ----

  /** Turn `e` is the one in which the upstream `u` of the pair of `j` answered. */
  predicate Began(size: nat, srv: int, turns: seq<Turn>, j: int, e: nat, u: int)
    requires 0 < srv < size && AllFit(size, turns) && 0 <= j < size && e < |turns| && 0 <= u < size
  {
    var g, f := Execute(size, srv, turns[..e]), Execute(size, srv, turns);
    (u == j || u == f.pair[j]) && AnswersAt(size, srv, turns, e, u) && f.closes[u] == g.closes[u]
  }

  lemma {:induction false} Beginning(size: nat, srv: int, turns: seq<Turn>, j: int) returns (e: nat, u: int)
    requires 0 < srv < size && AllFit(size, turns) && AllowedRun(size, srv, turns) && 0 <= j < size
    requires Execute(size, srv, turns).descr[j].flags.tunnel
    ensures e < |turns| && 0 <= u < size && Began(size, srv, turns, j, e, u)
  {
    var before, t := turns[..|turns|-1], turns[|turns|-1];
    var g, f := Execute(size, srv, before), Execute(size, srv, turns);
    Safety(size, srv, before);
    u := TurnOrigin(g, t, j);
    e := |before|;
    if g.descr[j].flags.tunnel && f.closes[j] == g.closes[j] {
      e, u := Beginning(size, srv, before, j);
      TurnOnward(g, t, j);
      BeganEarlier(size, srv, turns, j, e, u);
    }
  }

  lemma BeganEarlier(size: nat, srv: int, turns: seq<Turn>, j: int, e: nat, u: int)
    requires 0 < srv < size && AllFit(size, turns) && 0 <= j < size && e < |turns| - 1 && 0 <= u < size
    requires Began(size, srv, turns[..|turns|-1], j, e, u)
    requires var g, f := Execute(size, srv, turns[..|turns|-1]), Execute(size, srv, turns);
      f.pair[j] == g.pair[j] && f.closes[j] == g.closes[j] && f.closes[g.pair[j]] == g.closes[g.pair[j]]
    ensures Began(size, srv, turns, j, e, u)
  {
    AnswersEarlier(size, srv, turns, e, u);
    ShorterStill(turns, e);
  }

  /** Whatever tunnel there is in whatever allowed run: its upstream has been
      sent what it had been sent when its answer was read, and then every byte
      read from the client; the client what it had been sent by then, and then
      every byte read from the upstream; each of them exactly if nothing that
      its peer wrote since was dropped. */
  lemma TunnelFidelity(size: nat, srv: int, turns: seq<Turn>, j: int) returns (e: nat, u: int, c: int)
    requires 0 < srv < size && AllFit(size, turns) && AllowedRun(size, srv, turns) && 0 <= j < size
    requires Execute(size, srv, turns).descr[j].flags.tunnel
    ensures e < |turns| && 0 <= u < size && 0 <= c < size && (j == u || j == c)
    ensures Story(size, srv, turns, c, u, Execute(size, srv, turns[..e]).descr[u].out.Stream(), e)
  {
    e, u := Beginning(size, srv, turns, j);
    AllowedBefore(size, srv, turns, e);
    Safety(size, srv, turns[..e]);
    c := WaitingSent(Execute(size, srv, turns[..e]), u);
    StoryHolds(size, srv, turns, c, u, Execute(size, srv, turns[..e]).descr[u].out.Stream(), e);
    Safety(size, srv, turns);
    NamesEachOther(Execute(size, srv, turns), j);
  }

  lemma WaitingSent(g: State, u: int) returns (c: int)
    requires Inv(g) && g.Slot(u) && g.descr[u].flags.waiting
    ensures g.Slot(c) && c == g.pair[u] && g.descr[u].base == g.descr[u].out.Stream()
  {
    assert SlotOk(g, u) && FlowOk(g, u);
    assert g.descr[u].base + [] == g.descr[u].base;
    c := g.pair[u];
  }

  lemma NamesEachOther(f: State, j: int)
    requires Inv(f) && f.Slot(j) && f.descr[j].flags.tunnel
    ensures f.Slot(f.pair[j]) && f.pair[f.pair[j]] == j
  {
    assert SlotOk(f, j);
  }
}
