// What the library's own answers do to their connection, exactly: what is
// written, when it is closed, and that it is never left open by mistake.
module Answers {
  import opened Fifo
  import opened Tunnel
  import opened TunnelProofs
  import opened TunnelHistory
  import opened TunnelExact
  import opened TunnelLimits
  import opened Replies

  // ---- The actions that write nothing ----

  /** Marking changes the mark only; each way of closing closes exactly under
      its test, and otherwise changes nothing. */
  lemma ClosingLive(s: State, i: int)
    requires Inv(s) && Normal(s, i) && s.Live(i)
    ensures var d, t := s.descr[i], Do(s, i, Mark); t == s.(descr := s.descr[i := Marked(d)])
    ensures Gone(s, Do(s, i, CloseNow), i)
    ensures var t := Do(s, i, CloseIfEmpty); if s.descr[i].out.pending == [] then Gone(s, t, i) else t == s
    ensures var d, t := s.descr[i], Do(s, i, CloseIfMarked);
            if d.flags.toClose && d.out.pending == [] then Gone(s, t, i) else t == s
  {
    assert SlotOk(s, i);
    CloseGone(s, i);
  }

  /** Slot `i` and its peer, if it has one, have been closed, once each. */
  predicate Gone(s: State, t: State, i: int)
    requires s.Sized() && s.Slot(i)
  {
    && t.Sized() && |t.descr| == |s.descr| && t.descr[i] == DEAD && t.pair[i] == NONE && i !in t.active
    && t.closes == s.closes + if s.pair[i] == NONE then multiset{i} else multiset{i, s.pair[i]}
  }

  lemma CloseGone(s: State, i: int)
    requires Inv(s) && s.Slot(i) && s.Live(i) && !Reserved(s, i)
    ensures Gone(s, Close(s, i), i)
  {
    assert SlotOk(s, i);
    if s.pair[i] == NONE {
      CloseExact(s, i);
    } else {
      TeardownExact(s, i);
    }
  }

  // ---- Replies ----

  lemma PerformOne(s: State, i: int, acts: seq<Act>, a: Act, rest: seq<Act>)
    requires s.Sized() && s.Slot(i) && acts == [a] + rest
    ensures Perform(s, i, acts) == Perform(Do(s, i, a), i, rest)
  {
    assert acts[1..] == rest;
  }

  /** The queue after header and body have been handed to `axil_write`. */
  function Written(q: Queue, hdr: seq<Byte>, body: seq<Byte>, r: Outcome, r': Outcome): Queue {
    if Split(hdr, body) then Send(Send(q, hdr, r), body, r') else Send(q, hdr + body, r)
  }

  /** Unless a write fails, that is everything there was and then the reply. */
  lemma WrittenWhole(q: Queue, hdr: seq<Byte>, body: seq<Byte>, r: Outcome, r': Outcome)
    requires (r.Room? || r.Again?) && (r'.Room? || r'.Again?)
    ensures Written(q, hdr, body, r, r').Stream() == q.Stream() + (hdr + body)
    ensures Written(q, hdr, body, r, r').lost == q.lost
  {
    SendAppends(q, hdr, r);
    SendAppends(Send(q, hdr, r), body, r');
    SendAppends(q, hdr + body, r);
    Regroup(q.Stream(), hdr, body);
  }

  /** A reply that its own writes leave open: it is then closed, unless a
      backlog remains, and with it the mark that closes it later. */
  lemma RespondEnds(s: State, i: int, hdr: seq<Byte>, body: seq<Byte>, r: Outcome, r': Outcome, flush: Outcome)
    requires Inv(s) && Normal(s, i) && s.Live(i) && Inv(Perform(s, i, Respond(hdr, body, r, r', flush)))
    ensures var d, t := s.descr[i], Perform(s, i, Respond(hdr, body, r, r', flush));
            var q := Written(d.out, hdr, body, r, r');
            && (t.Live(i) <==> q.pending != [] && !FlushCloses(q, true, flush))
            && (t.Live(i) ==> t.descr[i] == Marked(d).(out := Flush(q, flush)) && Finishes(t, i))
  {
    RespondIff(s, i, hdr, body, r, r', flush);
    var acts := Respond(hdr, body, r, r', flush);
    if Split(hdr, body) {
      var t := Do(s, i, acts[0]);
      EmitLive(s, i, hdr, r);
      DoKeeps(s, i, acts[0]);
      PerformOne(s, i, acts, acts[0], acts[1..]);
      WriteThenSettle(t, i, acts[1..], body, r', flush);
    } else {
      WriteThenSettle(s, i, acts, hdr + body, r, flush);
    }
  }

  lemma WriteThenSettle(s: State, i: int, acts: seq<Act>, data: seq<Byte>, r: Outcome, flush: Outcome)
    requires Inv(s) && Normal(s, i) && s.Live(i) && acts == [Emit(data, r), Settle(flush)] && !Closes(s.descr[i], data, r)
    ensures var d, t := s.descr[i], Perform(s, i, acts);
            var q := Send(d.out, data, r);
            && (t.Live(i) <==> q.pending != [] && !FlushCloses(q, true, flush))
            && (t.Live(i) ==> t.descr[i] == Marked(d).(out := Flush(q, flush)) && Finishes(t, i))
  {
    var t := Do(s, i, acts[0]);
    EmitLive(s, i, data, r);
    DoKeeps(s, i, acts[0]);
    SettleLive(t, i, flush);
    PerformOne(s, i, acts, acts[0], [Settle(flush)]);
    PerformOne(t, i, [Settle(flush)], Settle(flush), []);
  }

  /** The redirects leave the connection marked, and open only with a
      backlog. */
  lemma RedirectEnds(s: State, i: int, answer: seq<Byte>, r: Outcome)
    requires Inv(s) && Normal(s, i) && s.Live(i) && Inv(Perform(s, i, Redirect(answer, r)))
    ensures var d := s.descr[i];
            EndsWith(Perform(s, i, Redirect(answer, r)), i, Marked(d).(out := Send(d.out, answer, r)))
  {
    var t := Do(s, i, Mark);
    RedirectIff(s, i, answer, r);
    ClosingLive(s, i);
    DoKeeps(s, i, Mark);
    EmitLive(t, i, answer, r);
    DoKeeps(t, i, Emit(answer, r));
    LastTest(Do(t, i, Emit(answer, r)), i);
    PerformOne(s, i, Redirect(answer, r), Mark, [Emit(answer, r), CloseIfEmpty]);
    PerformOne(t, i, [Emit(answer, r), CloseIfEmpty], Emit(answer, r), [CloseIfEmpty]);
  }

  lemma AddSlashEnds(s: State, i: int, answer: seq<Byte>, r: Outcome)
    requires Inv(s) && Normal(s, i) && s.Live(i) && Inv(Perform(s, i, AddSlash(answer, r)))
    ensures var d := s.descr[i];
            EndsWith(Perform(s, i, AddSlash(answer, r)), i, Marked(d).(out := Send(d.out, answer, r)))
  {
    var t := Do(s, i, Emit(answer, r));
    AddSlashIff(s, i, answer, r);
    EmitLive(s, i, answer, r);
    DoKeeps(s, i, Emit(answer, r));
    ClosingLive(t, i);
    DoKeeps(t, i, Mark);
    LastTest(Do(t, i, Mark), i);
    PerformOne(s, i, AddSlash(answer, r), Emit(answer, r), [Mark, CloseIfEmpty]);
    PerformOne(t, i, [Mark, CloseIfEmpty], Mark, [CloseIfEmpty]);
  }

  /** Closed if nothing was left in the queue of `d`, and otherwise `d`. */
  predicate EndsWith(t: State, i: int, d: Descr)
    requires t.Sized() && t.Slot(i)
  {
    && (t.Live(i) <==> d.out.pending != [])
    && (t.Live(i) ==> t.descr[i] == d && Finishes(t, i))
  }

  lemma LastTest(t: State, i: int)
    requires Inv(t) && Normal(t, i) && t.Live(i) && t.descr[i].flags.toClose
    ensures EndsWith(Perform(t, i, [CloseIfEmpty]), i, t.descr[i])
  {
    ClosingLive(t, i);
    PerformOne(t, i, [CloseIfEmpty], CloseIfEmpty, []);
  }

  // ---- Static files ----

  /** The queue after all chunks have been written. */
  function AllSent(q: Queue, chunks: seq<seq<Byte>>, rs: seq<Outcome>): Queue
    requires |chunks| == |rs|
    decreases |chunks|
  {
    if chunks == [] then q else AllSent(Send(q, chunks[0], rs[0]), chunks[1..], rs[1..])
  }

  function Concat(chunks: seq<seq<Byte>>): seq<Byte> {
    if chunks == [] then [] else chunks[0] + Concat(chunks[1..])
  }

  predicate NoErrors(rs: seq<Outcome>) {
    forall k :: 0 <= k < |rs| ==> rs[k].Room? || rs[k].Again?
  }

  lemma {:induction false} AllSentWhole(q: Queue, chunks: seq<seq<Byte>>, rs: seq<Outcome>)
    requires |chunks| == |rs| && NoErrors(rs)
    ensures AllSent(q, chunks, rs).Stream() == q.Stream() + Concat(chunks)
    decreases |chunks|
  {
    if chunks != [] {
      SendAppends(q, chunks[0], rs[0]);
      AllSentWhole(Send(q, chunks[0], rs[0]), chunks[1..], rs[1..]);
      Regroup(q.Stream(), chunks[0], Concat(chunks[1..]));
    }
  }

  /** Some write closes the slot. */
  predicate ClosesAny(d: Descr, chunks: seq<seq<Byte>>, rs: seq<Outcome>)
    requires |chunks| == |rs|
    decreases |chunks|
  {
    chunks != [] && (Closes(d, chunks[0], rs[0]) || ClosesAny(Sent(d, chunks[0], rs[0]), chunks[1..], rs[1..]))
  }

  /** A static answer to an unpaired client: it is closed exactly if a write
      closes it, or it was marked and nothing is left in the queue. */
  lemma {:induction false} StaticEnds(s: State, i: int, chunks: seq<seq<Byte>>, rs: seq<Outcome>)
    requires Inv(s) && Normal(s, i) && s.Live(i) && s.pair[i] == NONE && |chunks| == |rs|
    ensures var d, t := s.descr[i], Perform(s, i, Static(chunks, rs));
            var q := AllSent(d.out, chunks, rs);
            && (t.Live(i) <==> !ClosesAny(d, chunks, rs) && !(d.flags.toClose && q.pending == []))
            && (t.Live(i) ==> t.descr[i] == d.(out := q))
    decreases |chunks|
  {
    var acts := Static(chunks, rs);
    var t := Do(s, i, acts[0]);
    assert SlotOk(s, i);
    if chunks == [] {
      ClosingLive(s, i);
      PerformOne(s, i, acts, CloseIfMarked, []);
    } else {
      PerformOne(s, i, acts, acts[0], Static(chunks[1..], rs[1..]));
      EmitLive(s, i, chunks[0], rs[0]);
      DoKeeps(s, i, acts[0]);
      if t.Live(i) {
        StaticEnds(t, i, chunks[1..], rs[1..]);
      } else {
        StaysClosed(t, i, chunks[1..], rs[1..]);
      }
    }
  }

  lemma {:induction false} StaysClosed(t: State, i: int, chunks: seq<seq<Byte>>, rs: seq<Outcome>)
    requires t.Sized() && t.Slot(i) && !t.Live(i) && !t.descr[i].flags.toClose && |chunks| == |rs|
    ensures !Perform(t, i, Static(chunks, rs)).Live(i)
    decreases |chunks|
  {
    var acts := Static(chunks, rs);
    if chunks == [] {
      PerformOne(t, i, acts, CloseIfMarked, []);
    } else {
      PerformOne(t, i, acts, acts[0], Static(chunks[1..], rs[1..]));
      StaysClosed(Do(t, i, acts[0]), i, chunks[1..], rs[1..]);
    }
  }
}
