// What a step, a flushing pass and a turn do to a slot, exactly: which of them
// end a connection, and what the others leave in its queue.
module TunnelExact {
  import opened Fifo
  import opened Wrappers
  import opened Tunnel
  import opened TunnelProofs
  import opened TunnelHistory

  // ---- Relaying ----

  /** Reading `data` from end `i` of a tunnel ends it exactly at end of input,
      or if the write to the peer closes that. */
  predicate RelayEnds(s: State, i: int, data: seq<Byte>, r: Outcome)
    requires s.Sized() && s.Slot(i) && s.Slot(s.pair[i])
  {
    var d := s.descr[s.pair[i]];
    data == [] || SendCloses(d.out, d.flags.toClose, data, r)
  }

  /** One relayed chunk.  Otherwise both ends stay open and in the tunnel, the
      chunk is written or queued for the peer, and nothing else changes. */
  lemma RelayExact(s: State, i: int, data: seq<Byte>, r: Outcome)
    requires Inv(s) && s.Slot(i) && s.descr[i].flags.tunnel
    ensures s.Slot(s.pair[i])
    ensures var p, t := s.pair[i], ServeTunnel(s, i, data, r);
            && (t.closes[i] == s.closes[i] && t.closes[p] == s.closes[p] <==> !RelayEnds(s, i, data, r))
            && if RelayEnds(s, i, data, r) then
                 t.descr == s.descr[i := DEAD][p := DEAD] && t.pair == s.pair[i := NONE][p := NONE] &&
                 t.closes == s.closes + multiset{i, p}
               else
                 t == s.(descr := s.descr[i := s.descr[i].(rx := s.descr[i].rx + data)]
                                         [p := s.descr[p].(out := Send(s.descr[p].out, data, r))])
  {
    var p := s.pair[i];
    assert SlotOk(s, i) && SlotOk(s, p);
    if data == [] {
      TeardownShape(s, i, p);
      TeardownSets(s, i, p);
    } else {
      RelayWrites(s, i, p, data, r);
    }
  }

  lemma RelayWrites(s: State, i: int, p: int, data: seq<Byte>, r: Outcome)
    requires s.Sized() && s.Slot(i) && s.Slot(p) && p != i && s.pair[i] == p && s.pair[p] == i
    requires s.Live(p) && p in s.io && s.descr[p].flags.tunnel && data != []
    ensures var d, t := s.descr[p], ServeTunnel(s, i, data, r);
            if SendCloses(d.out, d.flags.toClose, data, r) then
              t.descr == s.descr[i := DEAD][p := DEAD] && t.pair == s.pair[i := NONE][p := NONE] &&
              t.closes == s.closes + multiset{i, p}
            else
              t == s.(descr := s.descr[i := s.descr[i].(rx := s.descr[i].rx + data)]
                                      [p := d.(out := Send(d.out, data, r))])
  {
    var t := SetOut(Grown(s, i, data), p, Send(s.descr[p].out, data, r));
    TeardownShape(t, p, i);
    TeardownSets(t, p, i);
  }

  // ---- New and closed connections ----

  /** A fresh number becomes an open, unpaired, watched slot with an empty
      queue; a number that is too large is closed at once. */
  lemma AcceptExact(s: State, fd: int)
    requires Inv(s) && Fresh(s, fd)
    ensures var t := Accept(s, fd);
            && t.opens == s.opens + multiset{fd}
            && if s.Slot(fd) then
                 t.descr == s.descr[fd := Descr(fd, NO_FLAGS, EMPTY, [], [])] && t.pair == s.pair && t.pair[fd] == NONE &&
                 t.active == s.active + {fd} && t.read == s.read && t.closes == s.closes
               else t.descr == s.descr && t.pair == s.pair && t.closes == s.closes + multiset{fd}
  {
    if s.Slot(fd) {
      assert SlotOk(s, fd);
    }
  }

  /** Closing an unpaired slot closes that one, once, and changes nothing else. */
  lemma CloseExact(s: State, i: int)
    requires Inv(s) && s.Slot(i) && s.Live(i) && s.pair[i] == NONE
    ensures var t := Close(s, i);
            && t.descr == s.descr[i := DEAD] && t.pair == s.pair && t.closes == s.closes + multiset{i} && t.opens == s.opens
            && t.active == s.active - {i} && t.wactive == s.wactive - {i} && t.read == s.read - {i} && t.write == s.write - {i}
  {
    assert SlotOk(s, i);
  }

  /** Serving a waiting upstream starts the tunnel exactly for a 101; end of
      input and every other answer end the pair. */
  lemma AnswerExact(s: State, i: int, data: seq<Byte>, r: Outcome)
    requires Inv(s) && s.Slot(i) && s.descr[i].flags.waiting && AnswerFits(s, i, data, r)
    ensures s.Slot(s.pair[i])
    ensures var p, t := s.pair[i], ServeWaiting(s, i, data, r);
            && (t.closes[i] == s.closes[i] && t.closes[p] == s.closes[p] <==> Is101(data))
            && if Is101(data) then
                 t.descr[i].flags.tunnel && t.descr[p].flags.tunnel && t.pair == s.pair &&
                 t.descr[p].out == Send(s.descr[p].out.(lost := false), data, r) && t.descr[i].out == s.descr[i].out
               else t.descr[i] == DEAD && t.descr[p] == DEAD
  {
    var p := s.pair[i];
    assert SlotOk(s, i) && SlotOk(s, p);
    SendIgnoresLost(s.descr[p].out, data, r);
    if data == [] || !Is101(data) {
      RefusalEnds(s, i, p, data, r);
    }
  }

  lemma RefusalEnds(s: State, i: int, p: int, data: seq<Byte>, r: Outcome)
    requires s.Sized() && s.Slot(i) && s.Slot(p) && p != i && s.pair[i] == p && s.pair[p] == i && !Is101(data)
    requires s.Live(p) && p in s.io && s.descr[p].flags.pending
    requires data != [] ==> !SendCloses(s.descr[p].out, s.descr[p].flags.toClose, data, r)
    ensures var t := ServeWaiting(s, i, data, r);
            t.descr[i] == DEAD && t.descr[p] == DEAD && t.closes == s.closes + multiset{i, p}
  {
    TeardownShape(s, i, p);
    TeardownSets(s, i, p);
    var w := SetOut(s, p, Send(s.descr[p].out, data, r));
    TeardownShape(w, i, p);
    TeardownSets(w, i, p);
  }

  /** What an upgrade comes to once an upstream is connected: it is closed at
      once, or both are closed because the request did not go out whole, or
      both ends are pending with the request, and nothing else, on the wire. */
  lemma UpgradeExact(s: State, i: int, a: App)
    requires Inv(s) && s.Slot(i) && s.Live(i) && !Reserved(s, i) && s.pair[i] == NONE
    requires a.Upgrade? && Fresh(s, a.up) && a.up != i
    ensures var t, up := Proxy(s, i, a.up, a.hasKey, a.req, a.sent), a.up;
            && t.opens == s.opens + multiset{up}
            && if !(a.hasKey && 0 < |a.req| < 2048 && up < |s.descr|) then
                 t.descr == s.descr && t.pair == s.pair && t.closes == s.closes + multiset{up}
               else if !(a.sent.Room? && a.sent.n >= |a.req|) then CutOff(s, t, i, up)
               else Joined(s, t, i, up, a.req)
  {
    assert SlotOk(s, i);
    if s.Slot(a.up) {
      assert SlotOk(s, a.up);
      RequestExact(s, i, a.up, a.req, a.sent);
    }
  }

  predicate CutOff(s: State, t: State, i: int, up: int)
    requires s.Sized() && s.Slot(i) && s.Slot(up)
  {
    t.descr == s.descr[i := DEAD][up := DEAD] && t.pair == s.pair && t.closes == s.closes + multiset{i, up}
  }

  predicate Joined(s: State, t: State, i: int, up: int, req: seq<Byte>)
    requires s.Sized() && s.Slot(i) && s.Slot(up)
  {
    && t.descr == s.descr[i := s.descr[i].(flags := s.descr[i].flags.(pending := true))]
                         [up := Descr(up, Flags(false, false, true, true), Queue([], req, false), req, [])]
    && t.pair == s.pair[i := up][up := i] && t.closes == s.closes
  }

  lemma RequestExact(s: State, i: int, up: int, req: seq<Byte>, sent: Outcome)
    requires s.Sized() && s.Slot(i) && s.Slot(up) && up != i && s.pair[i] == NONE && s.pair[up] == NONE
    ensures var t := SendRequest(Join(s, i, up, req), up, req, sent);
            && t.opens == s.opens + multiset{up}
            && if sent.Room? && sent.n >= |req| then Joined(s, t, i, up, req) else CutOff(s, t, i, up)
  {
    var k := if sent.Room? then Min(sent.n, |req|) else 0;
    JoinShape(s, i, up, req, Queue([], req[..k], false));
    if sent.Room? && sent.n >= |req| {
      assert req[..k] == req;
    } else {
      CutShape(s, SetOut(Join(s, i, up, req), up, Queue([], req[..k], false)), i, up);
    }
  }

  lemma CutShape(s: State, w: State, i: int, up: int)
    requires s.Sized() && w.Sized() && |w.descr| == |s.descr| && s.Slot(i) && s.Slot(up) && up != i
    requires s.pair[i] == NONE && s.pair[up] == NONE && w.pair == s.pair[i := up][up := i] && w.closes == s.closes
    requires w.descr == s.descr[i := w.descr[i]][up := w.descr[up]]
    ensures CutOff(s, CloseRaw(w, up), i, up) && CloseRaw(w, up).opens == w.opens
  {
    TeardownShape(w, up, i);
    TeardownSets(w, up, i);
    assert s.pair[i := up][up := i][up := NONE][i := NONE] == s.pair;
    assert w.descr[up := DEAD][i := DEAD] == s.descr[i := DEAD][up := DEAD];
  }

  lemma JoinShape(s: State, i: int, up: int, req: seq<Byte>, q: Queue)
    requires s.Sized() && s.Slot(i) && s.Slot(up) && up != i
    ensures var w := SetOut(Join(s, i, up, req), up, q);
            && w.pair == s.pair[i := up][up := i] && w.closes == s.closes && w.opens == s.opens + multiset{up}
            && w.descr == s.descr[i := s.descr[i].(flags := s.descr[i].flags.(pending := true))]
                                 [up := Descr(up, Flags(false, false, true, true), q, req, [])]
  {
  }

  // ---- A flushing pass ----

  /** The pass from slot `i` on comes to slot `e`. */
  predicate Flushes(s: State, i: nat, onlyWritable: bool, e: int) {
    i <= e && (!onlyWritable || (e in s.write && e != s.srv))
  }

  /** Flushing slot `e` ends its connection. */
  predicate FlushEnds(s: State, i: nat, rs: seq<Outcome>, onlyWritable: bool, e: int)
    requires s.Sized() && s.Slot(e) && |rs| == |s.descr|
  {
    Flushes(s, i, onlyWritable, e) && FlushCloses(s.descr[e].out, s.descr[e].flags.toClose, rs[e])
  }

  /** The pass ends the connection of slot `k`: by its own queue or its peer's. */
  predicate PassEnds(s: State, i: nat, rs: seq<Outcome>, onlyWritable: bool, k: int)
    requires s.Sized() && s.Slot(k) && |rs| == |s.descr|
  {
    || FlushEnds(s, i, rs, onlyWritable, k)
    || (s.Slot(s.pair[k]) && FlushEnds(s, i, rs, onlyWritable, s.pair[k]))
  }

  function FlushedOut(s: State, i: nat, rs: seq<Outcome>, onlyWritable: bool, k: int): Queue
    requires s.Sized() && s.Slot(k) && |rs| == |s.descr|
  {
    if Flushes(s, i, onlyWritable, k) then Flush(s.descr[k].out, rs[k]) else s.descr[k].out
  }

  /** Slot `k` was closed between `s` and `t`, once. */
  predicate Ended(s: State, t: State, k: int)
    requires s.Sized() && t.Sized() && |t.descr| == |s.descr| && s.Slot(k)
  {
    t.descr[k] == DEAD && t.pair[k] == NONE && t.closes[k] == s.closes[k] + 1 && k !in t.read && k !in t.write
  }

  /** Between `s` and `t` only the queue of slot `k` changed, to `q`. */
  predicate Became(s: State, t: State, k: int, q: Queue)
    requires s.Sized() && t.Sized() && |t.descr| == |s.descr| && s.Slot(k)
  {
    && t.descr[k] == s.descr[k].(out := q) && t.pair[k] == s.pair[k] && t.closes[k] == s.closes[k]
    && (k in t.read <==> k in s.read) && (k in t.write <==> k in s.write) && (k in t.wactive <==> k in s.wactive)
  }

  /** One slot of the pass, seen from slot `k`. */
  lemma FlushSlotExact(s: State, t: State, i: nat, r: Outcome, onlyWritable: bool, k: int)
    requires Inv(s) && s.Slot(i) && s.Slot(k) && t == FlushSlot(s, i, r, onlyWritable)
    ensures var ends := Flushes(s, i, onlyWritable, i) && FlushCloses(s.descr[i].out, s.descr[i].flags.toClose, r);
            if ends && (k == i || k == s.pair[i]) then Ended(s, t, k)
            else Became(s, t, k, if k == i && Flushes(s, i, onlyWritable, i) then Flush(s.descr[i].out, r) else s.descr[k].out)
  {
    assert SlotOk(s, i) && SlotOk(s, k);
    var q := s.descr[i].out;
    if Flushes(s, i, onlyWritable, i) && q.pending != [] {
      if FlushCloses(q, s.descr[i].flags.toClose, r) {
        ClosedByFlush(s, SetOut(s, i, Flush(q, r)), i, k);
      }
    } else {
      EmptyFlush(q, r);
    }
  }

  lemma EmptyFlush(q: Queue, r: Outcome)
    ensures q.pending == [] ==> Flush(q, r) == q
  {
    if q.pending == [] && r.Room? {
      assert Flush(q, r).pending == [] && Flush(q, r).wire == q.wire + [];
    }
  }

  lemma ClosedByFlush(s: State, w: State, i: nat, k: int)
    requires Inv(s) && s.Slot(i) && s.Slot(k) && s.Live(i) && w.Sized() && |w.descr| == |s.descr|
    requires w == SetOut(s, i, w.descr[i].out)
    ensures if k == i || k == s.pair[i] then Ended(s, Close(w, i), k) else Became(s, Close(w, i), k, s.descr[k].out)
  {
    assert SlotOk(s, i);
    if s.pair[i] != NONE {
      assert SlotOk(s, s.pair[i]);
      TeardownShape(w, i, s.pair[i]);
      TeardownSets(w, i, s.pair[i]);
    }
  }

  /** Both ends of the pair of `k` stand in `s` as they should. */
  predicate Mutual(s: State, k: int)
    requires s.Sized() && s.Slot(k)
  {
    s.pair[k] != NONE ==> s.Slot(s.pair[k]) && s.pair[s.pair[k]] == k && s.pair[k] != k
  }

  /** What the pass from `s` to `t` did to slot `k`. */
  predicate Passed(s: State, t: State, i: nat, rs: seq<Outcome>, onlyWritable: bool, k: int)
    requires s.Sized() && t.Sized() && |t.descr| == |s.descr| == |rs| && s.Slot(k)
  {
    if PassEnds(s, i, rs, onlyWritable, k) then Ended(s, t, k)
    else Became(s, t, k, FlushedOut(s, i, rs, onlyWritable, k))
  }

  /** A flushing pass, seen from any slot `k`: it is closed exactly if its own
      flush or its peer's closes it; otherwise its queue is flushed, if the pass
      comes to it, and nothing else of it changes. */
  lemma {:induction false} FlushFromExact(s: State, i: nat, rs: seq<Outcome>, onlyWritable: bool, k: int)
    requires Inv(s) && i <= |s.descr| == |rs| && s.Slot(k)
    ensures Passed(s, FlushFrom(s, i, rs, onlyWritable), i, rs, onlyWritable, k)
    decreases |rs| - i
  {
    if i < |rs| {
      var t := FlushFirst(s, i, rs, onlyWritable, k);
      FlushFromExact(t, i + 1, rs, onlyWritable, k);
      FlushThen(s, t, FlushFrom(t, i + 1, rs, onlyWritable), i, rs, onlyWritable, k);
    }
  }

  lemma FlushFirst(s: State, i: nat, rs: seq<Outcome>, onlyWritable: bool, k: int) returns (t: State)
    requires Inv(s) && i < |s.descr| == |rs| && s.Slot(k)
    ensures t == FlushSlot(s, i, rs[i], onlyWritable) && Inv(t) && |t.descr| == |s.descr| && t.srv == s.srv
    ensures Mutual(s, k) && Mutual(s, i) && FlushStep(s, t, i, rs, onlyWritable, k)
    ensures s.pair[k] != NONE ==> FlushStep(s, t, i, rs, onlyWritable, s.pair[k])
  {
    t := FlushSlot(s, i, rs[i], onlyWritable);
    FlushSlotExact(s, t, i, rs[i], onlyWritable, k);
    FlushSlotKeeps(s, i, rs[i], onlyWritable);
    InvLinks(s, k);
    InvLinks(s, i);
    if s.pair[k] != NONE {
      FlushSlotExact(s, t, i, rs[i], onlyWritable, s.pair[k]);
    }
  }

  /** The slots behind slot `i`, and what that makes of the whole pass. */
  lemma FlushThen(s: State, t: State, v: State, i: nat, rs: seq<Outcome>, onlyWritable: bool, k: int)
    requires s.Sized() && t.Sized() && v.Sized() && i < |s.descr| == |t.descr| == |v.descr| == |rs| && s.Slot(k) && t.srv == s.srv
    requires Mutual(s, k) && Mutual(s, i) && FlushStep(s, t, i, rs, onlyWritable, k)
    requires s.pair[k] != NONE ==> FlushStep(s, t, i, rs, onlyWritable, s.pair[k])
    requires Passed(t, v, i + 1, rs, onlyWritable, k)
    ensures Passed(s, v, i, rs, onlyWritable, k)
  {
    EmptyFlush(EMPTY, rs[k]);
  }

  predicate FlushStep(s: State, t: State, i: nat, rs: seq<Outcome>, onlyWritable: bool, k: int)
    requires s.Sized() && t.Sized() && i < |s.descr| == |t.descr| == |rs| && s.Slot(k)
  {
    if FlushEnds(s, i, rs, onlyWritable, i) && (k == i || k == s.pair[i]) then Ended(s, t, k)
    else Became(s, t, k, if k == i && Flushes(s, i, onlyWritable, i) then Flush(s.descr[i].out, rs[i]) else s.descr[k].out)
  }

  // ---- A pass with room for everything ----

  /** The kernel takes the whole backlog of every slot. */
  predicate RoomForAll(s: State, rs: seq<Outcome>) {
    |rs| == |s.descr| && forall k {:trigger rs[k]} :: 0 <= k < |rs| ==> rs[k].Room? && rs[k].n >= |s.descr[k].out.pending|
  }

  /** Slot `e` has a backlog and is to be closed after it. */
  predicate Finishes(s: State, e: int)
    requires s.Sized()
  {
    s.Slot(e) && s.descr[e].flags.toClose && s.descr[e].out.pending != []
  }

  /** The drain pass then closes exactly the slots marked to close that had a
      backlog, and their peers; on every other wire is all that was written. */
  lemma DrainExact(s: State, rs: seq<Outcome>, k: int)
    requires Inv(s) && s.Slot(k) && RoomForAll(s, rs)
    ensures var t, q := FlushFrom(s, 0, rs, false), s.descr[k].out;
            if Finishes(s, k) || Finishes(s, s.pair[k]) then Ended(s, t, k)
            else Became(s, t, k, Queue([], q.Stream(), q.lost))
  {
    FlushFromExact(s, 0, rs, false, k);
    InvLinks(s, k);
    Drained(s.descr[k].out, s.descr[k].flags.toClose, rs[k]);
    if s.pair[k] != NONE {
      var p := s.pair[k];
      Drained(s.descr[p].out, s.descr[p].flags.toClose, rs[p]);
    }
  }

  lemma Drained(q: Queue, toClose: bool, r: Outcome)
    requires r.Room? && r.n >= |q.pending|
    ensures Flush(q, r) == Queue([], q.Stream(), q.lost)
    ensures FlushCloses(q, toClose, r) <==> toClose && q.pending != []
  {
    assert q.pending[..|q.pending|] == q.pending;
  }
}
