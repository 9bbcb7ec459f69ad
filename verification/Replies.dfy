// The answers that the library itself sends, as the actions they take on
// their slot, and exactly when each leaves the tables of the engine right.
module Replies {
  import opened Fifo
  import opened Tunnel
  import opened TunnelProofs
  import opened TunnelLimits

  const ONE_WRITE := 65536

  /** `axil_respond`: one write if header and body are small enough. */
  function Respond(hdr: seq<Byte>, body: seq<Byte>, r: Outcome, r': Outcome, flush: Outcome): seq<Act> {
    if Split(hdr, body) then [Emit(hdr, r), Emit(body, r'), Settle(flush)]
    else [Emit(hdr + body, r), Settle(flush)]
  }

  predicate Split(hdr: seq<Byte>, body: seq<Byte>) { body != [] && |hdr| + |body| > ONE_WRITE }

  /** `buffer_post_body` when Content-Length is above the limit: status 413. */
  function TooLarge(answer: seq<Byte>, r: Outcome, flush: Outcome): seq<Act> {
    [Overwrite, Emit(answer, r), Settle(flush)]
  }

  /** `request_handle` when the target does not fit `document_uri`: status 414. */
  function TooLong(answer: seq<Byte>, r: Outcome, flush: Outcome): seq<Act> {
    [Emit(answer, r), Settle(flush), CloseNow]
  }

  /** `request_handle_redirect` and `static_not_modified`. */
  function Redirect(answer: seq<Byte>, r: Outcome): seq<Act> { [Mark, Emit(answer, r), CloseIfEmpty] }

  /** `request_handle_trailing_slash`. */
  function AddSlash(answer: seq<Byte>, r: Outcome): seq<Act> { [Emit(answer, r), Mark, CloseIfEmpty] }

  /** `axil_sendfile` of a file that could be mapped: the header goes out by
      `axil_respond`, the file after it. */
  function SendFile(hdr: seq<Byte>, file: seq<Byte>, r: Outcome, flush: Outcome, r': Outcome, flush': Outcome): seq<Act> {
    [Emit(hdr, r), Settle(flush), Emit(file, r'), Settle(flush')]
  }

  // ---- One action on a live slot ----

  predicate Closes(d: Descr, data: seq<Byte>, r: Outcome) { SendCloses(d.out, d.flags.toClose, data, r) }

  function Sent(d: Descr, data: seq<Byte>, r: Outcome): Descr { d.(out := Send(d.out, data, r)) }

  function Marked(d: Descr): Descr { d.(flags := d.flags.(toClose := true)) }

  /** `axil_respond` leaves the slot open with a backlog. */
  predicate SettleWaits(d: Descr, flush: Outcome) {
    d.out.pending != [] && !FlushCloses(d.out, true, flush)
  }

  lemma Then(s: State, i: int, acts: seq<Act>, a: Act, rest: seq<Act>)
    requires s.Sized() && s.Slot(i) && acts == [a] + rest
    ensures ActsOk(s, i, acts) <==> ActOk(s, i, a) && ActsOk(Do(s, i, a), i, rest)
  {
    assert acts[1..] == rest;
  }

  lemma EmitLive(s: State, i: int, data: seq<Byte>, r: Outcome)
    requires Inv(s) && Normal(s, i) && s.Live(i)
    ensures var t := Do(s, i, Emit(data, r));
            && (t.Live(i) <==> !Closes(s.descr[i], data, r))
            && (t.Live(i) ==> t.descr[i] == Sent(s.descr[i], data, r) && t.pair[i] == s.pair[i])
  {
    assert SlotOk(s, i);
  }

  lemma SettleLive(s: State, i: int, flush: Outcome)
    requires Inv(s) && Normal(s, i) && s.Live(i)
    ensures var d, t := s.descr[i], Do(s, i, Settle(flush));
            && (t.Live(i) <==> SettleWaits(d, flush))
            && (t.Live(i) ==> t.descr[i] == Marked(d).(out := Flush(d.out, flush)) && t.pair[i] == s.pair[i])
  {
    assert SlotOk(s, i);
  }

  lemma OneWrite(s: State, i: int, acts: seq<Act>, data: seq<Byte>, r: Outcome, flush: Outcome)
    requires Inv(s) && Normal(s, i) && s.Live(i) && acts == [Emit(data, r), Settle(flush)]
    ensures ActsOk(s, i, acts) <==> !Closes(s.descr[i], data, r)
  {
    Then(s, i, acts, Emit(data, r), [Settle(flush)]);
    EmitLive(s, i, data, r);
  }

  lemma TwoWrites(s: State, i: int, acts: seq<Act>, hdr: seq<Byte>, r: Outcome, body: seq<Byte>, r': Outcome, flush: Outcome)
    requires Inv(s) && Normal(s, i) && s.Live(i) && acts == [Emit(hdr, r), Emit(body, r'), Settle(flush)]
    ensures ActsOk(s, i, acts) <==> !Closes(s.descr[i], hdr, r) && !Closes(Sent(s.descr[i], hdr, r), body, r')
  {
    var t := Do(s, i, Emit(hdr, r));
    Then(s, i, acts, Emit(hdr, r), acts[1..]);
    EmitLive(s, i, hdr, r);
    DoKeeps(s, i, Emit(hdr, r));
    if t.Live(i) {
      OneWrite(t, i, acts[1..], body, r', flush);
    } else {
      ClosedThenSettles(t, i, acts[1..], flush);
    }
  }

  /** `axil_respond` closes a second time what its write has closed. */
  lemma ClosedThenSettles(t: State, i: int, acts: seq<Act>, flush: Outcome)
    requires t.Sized() && t.Slot(i) && !t.Live(i)
    requires |acts| >= 2 && acts[0].Emit? && acts[1] == Settle(flush)
    ensures !ActsOk(t, i, acts)
  {
    var e := acts[0];
    assert Do(t, i, e).Live(i) == t.Live(i);
    Then(t, i, acts, e, acts[1..]);
    Then(Do(t, i, e), i, acts[1..], acts[1], acts[2..]);
  }

  // ---- Each answer ----

  /** Answering keeps the invariant exactly if none of its writes closes the
      slot: `axil_respond` would go on to close it again. */
  lemma RespondIff(s: State, i: int, hdr: seq<Byte>, body: seq<Byte>, r: Outcome, r': Outcome, flush: Outcome)
    requires Inv(s) && Normal(s, i) && s.Live(i)
    ensures var d := s.descr[i];
            Inv(Perform(s, i, Respond(hdr, body, r, r', flush))) <==>
              if Split(hdr, body) then !Closes(d, hdr, r) && !Closes(Sent(d, hdr, r), body, r')
              else !Closes(d, hdr + body, r)
  {
    var acts := Respond(hdr, body, r, r', flush);
    PerformIff(s, i, acts);
    if Split(hdr, body) {
      TwoWrites(s, i, acts, hdr, r, body, r', flush);
    } else {
      OneWrite(s, i, acts, hdr + body, r, flush);
    }
  }

  /** Status 413 keeps the invariant exactly for an unpaired client whose
      backlog the write does not close. */
  lemma TooLargeIff(s: State, i: int, answer: seq<Byte>, r: Outcome, flush: Outcome)
    requires Inv(s) && Normal(s, i) && s.Live(i)
    ensures Inv(Perform(s, i, TooLarge(answer, r, flush))) <==>
            s.pair[i] == NONE && !Closes(Marked(s.descr[i]), answer, r)
  {
    var acts := TooLarge(answer, r, flush);
    PerformIff(s, i, acts);
    Then(s, i, acts, Overwrite, acts[1..]);
    assert SlotOk(s, i);
    if s.pair[i] == NONE {
      DoKeeps(s, i, Overwrite);
      OneWrite(Do(s, i, Overwrite), i, acts[1..], answer, r, flush);
    }
  }

  /** Status 414 keeps it exactly if a backlog outlives the whole answer. */
  lemma TooLongIff(s: State, i: int, answer: seq<Byte>, r: Outcome, flush: Outcome)
    requires Inv(s) && Normal(s, i) && s.Live(i)
    ensures Inv(Perform(s, i, TooLong(answer, r, flush))) <==>
            !Closes(s.descr[i], answer, r) && SettleWaits(Sent(s.descr[i], answer, r), flush)
  {
    var acts := TooLong(answer, r, flush);
    var t := Do(s, i, acts[0]);
    PerformIff(s, i, acts);
    Then(s, i, acts, acts[0], acts[1..]);
    EmitLive(s, i, answer, r);
    DoKeeps(s, i, acts[0]);
    Then(t, i, acts[1..], acts[1], acts[2..]);
    if t.Live(i) {
      SettleLive(t, i, flush);
      Then(Do(t, i, acts[1]), i, acts[2..], CloseNow, []);
    }
  }

  lemma RedirectIff(s: State, i: int, answer: seq<Byte>, r: Outcome)
    requires Inv(s) && Normal(s, i) && s.Live(i)
    ensures Inv(Perform(s, i, Redirect(answer, r))) <==> !Closes(Marked(s.descr[i]), answer, r)
  {
    var acts := Redirect(answer, r);
    var t := Do(s, i, Mark);
    PerformIff(s, i, acts);
    Then(s, i, acts, Mark, acts[1..]);
    DoKeeps(s, i, Mark);
    Then(t, i, acts[1..], acts[1], acts[2..]);
    EmitLive(t, i, answer, r);
    Then(Do(t, i, acts[1]), i, acts[2..], CloseIfEmpty, []);
  }

  lemma AddSlashIff(s: State, i: int, answer: seq<Byte>, r: Outcome)
    requires Inv(s) && Normal(s, i) && s.Live(i)
    ensures Inv(Perform(s, i, AddSlash(answer, r))) <==> !Closes(s.descr[i], answer, r)
  {
    var acts := AddSlash(answer, r);
    var t := Do(s, i, acts[0]);
    PerformIff(s, i, acts);
    Then(s, i, acts, acts[0], acts[1..]);
    EmitLive(s, i, answer, r);
    Then(t, i, acts[1..], Mark, acts[2..]);
    Then(Do(t, i, Mark), i, acts[2..], CloseIfEmpty, []);
  }

  /** Sending a file keeps it exactly if the header already leaves a backlog
      and no write or flush up to the file closes the slot: when the header
      goes out at once, `axil_respond` closes the slot before the file. */
  lemma SendFileIff(s: State, i: int, hdr: seq<Byte>, file: seq<Byte>, r: Outcome, flush: Outcome, r': Outcome, flush': Outcome)
    requires Inv(s) && Normal(s, i) && s.Live(i)
    ensures var d := Sent(s.descr[i], hdr, r);
            Inv(Perform(s, i, SendFile(hdr, file, r, flush, r', flush'))) <==>
              !Closes(s.descr[i], hdr, r) && SettleWaits(d, flush) &&
              !Closes(Marked(d).(out := Flush(d.out, flush)), file, r')
  {
    var acts := SendFile(hdr, file, r, flush, r', flush');
    PerformIff(s, i, acts);
    Then(s, i, acts, acts[0], acts[1..]);
    EmitLive(s, i, hdr, r);
    DoKeeps(s, i, acts[0]);
    FileAfterHeader(Do(s, i, acts[0]), i, acts[1..], flush, file, r', flush');
  }

  lemma FileAfterHeader(t: State, i: int, acts: seq<Act>, flush: Outcome, file: seq<Byte>, r': Outcome, flush': Outcome)
    requires Inv(t) && Normal(t, i) && acts == [Settle(flush), Emit(file, r'), Settle(flush')]
    ensures var d := t.descr[i];
            ActsOk(t, i, acts) <==>
              t.Live(i) && SettleWaits(d, flush) && !Closes(Marked(d).(out := Flush(d.out, flush)), file, r')
  {
    Then(t, i, acts, Settle(flush), acts[1..]);
    if t.Live(i) {
      var u := Do(t, i, Settle(flush));
      SettleLive(t, i, flush);
      DoKeeps(t, i, Settle(flush));
      if u.Live(i) {
        OneWrite(u, i, acts[1..], file, r', flush');
      } else {
        ClosedThenSettles(u, i, acts[1..], flush');
      }
    }
  }

  // ---- Before the kernel has answered ----

  lemma ClosesSomehowIff(d: Descr, data: seq<Byte>)
    ensures (forall r: Outcome :: !Closes(d, data, r)) <==> d.out.pending == []
  {
    assert Closes(d, data, Broken) <==> d.out.pending != [];
  }

  /** A reply is safe for every answer of the kernel exactly if nothing is
      queued and it goes out in one write. */
  lemma RespondAlwaysIff(s: State, i: int, hdr: seq<Byte>, body: seq<Byte>)
    requires Inv(s) && Normal(s, i) && s.Live(i) && hdr != []
    ensures (forall r: Outcome, r': Outcome, flush: Outcome :: Inv(Perform(s, i, Respond(hdr, body, r, r', flush)))) <==>
            s.descr[i].out.pending == [] && !Split(hdr, body)
  {
    forall r: Outcome, r': Outcome, flush: Outcome
      ensures s.descr[i].out.pending == [] && !Split(hdr, body) ==> Inv(Perform(s, i, Respond(hdr, body, r, r', flush)))
    {
      RespondIff(s, i, hdr, body, r, r', flush);
    }
    var r := if s.descr[i].out.pending == [] then Room(0) else Broken;
    RespondIff(s, i, hdr, body, r, Broken, Again);
    assert Inv(Perform(s, i, Respond(hdr, body, r, Broken, Again))) ==> s.descr[i].out.pending == [] && !Split(hdr, body);
  }

  /** Status 413: exactly if in addition the client is unpaired. */
  lemma TooLargeAlwaysIff(s: State, i: int, answer: seq<Byte>)
    requires Inv(s) && Normal(s, i) && s.Live(i)
    ensures (forall r: Outcome, flush: Outcome :: Inv(Perform(s, i, TooLarge(answer, r, flush)))) <==>
            s.pair[i] == NONE && s.descr[i].out.pending == []
  {
    forall r: Outcome, flush: Outcome
      ensures Inv(Perform(s, i, TooLarge(answer, r, flush))) <==>
              s.pair[i] == NONE && !Closes(Marked(s.descr[i]), answer, r)
    {
      TooLargeIff(s, i, answer, r, flush);
    }
    ClosesSomehowIff(Marked(s.descr[i]), answer);
    assert Inv(Perform(s, i, TooLarge(answer, Broken, Again))) ==> s.pair[i] == NONE && s.descr[i].out.pending == [];
  }

  /** The redirects and status 304: exactly if nothing is queued. */
  lemma RedirectAlwaysIff(s: State, i: int, answer: seq<Byte>)
    requires Inv(s) && Normal(s, i) && s.Live(i)
    ensures (forall r: Outcome :: Inv(Perform(s, i, Redirect(answer, r)))) <==> s.descr[i].out.pending == []
  {
    forall r: Outcome ensures Inv(Perform(s, i, Redirect(answer, r))) <==> !Closes(Marked(s.descr[i]), answer, r) {
      RedirectIff(s, i, answer, r);
    }
    ClosesSomehowIff(Marked(s.descr[i]), answer);
    assert Inv(Perform(s, i, Redirect(answer, Broken))) ==> s.descr[i].out.pending == [];
  }

  lemma AddSlashAlwaysIff(s: State, i: int, answer: seq<Byte>)
    requires Inv(s) && Normal(s, i) && s.Live(i)
    ensures (forall r: Outcome :: Inv(Perform(s, i, AddSlash(answer, r)))) <==> s.descr[i].out.pending == []
  {
    forall r: Outcome ensures Inv(Perform(s, i, AddSlash(answer, r))) <==> !Closes(s.descr[i], answer, r) {
      AddSlashIff(s, i, answer, r);
    }
    ClosesSomehowIff(s.descr[i], answer);
    assert Inv(Perform(s, i, AddSlash(answer, Broken))) ==> s.descr[i].out.pending == [];
  }

  /** Status 414 and sending a file are safe for every answer in no state. */
  lemma NeverAlways(s: State, i: int, answer: seq<Byte>, file: seq<Byte>) returns (r: Outcome)
    requires Inv(s) && Normal(s, i) && s.Live(i)
    ensures forall flush: Outcome :: !Inv(Perform(s, i, TooLong(answer, r, flush)))
    ensures forall flush: Outcome, r': Outcome, flush': Outcome ::
              !Inv(Perform(s, i, SendFile(answer, file, r, flush, r', flush')))
  {
    r := if s.descr[i].out.pending == [] then Room(|answer|) else Broken;
    forall flush: Outcome ensures !Inv(Perform(s, i, TooLong(answer, r, flush))) {
      TooLongIff(s, i, answer, r, flush);
    }
    forall flush: Outcome, r': Outcome, flush': Outcome
      ensures !Inv(Perform(s, i, SendFile(answer, file, r, flush, r', flush')))
    {
      SendFileIff(s, i, answer, file, r, flush, r', flush');
    }
  }

  // ---- Closed as often as opened ----

  predicate Balanced(s: State, i: int)
    requires s.Sized() && s.Slot(i)
  {
    s.opens[i] == s.closes[i] + if s.Live(i) then 1 else 0
  }

  lemma {:induction false} StaysUnbalanced(t: State, i: int, acts: seq<Act>)
    requires t.Sized() && t.Slot(i) && !t.Live(i) && t.opens[i] < t.closes[i]
    ensures !Balanced(Perform(t, i, acts), i)
    decreases |acts|
  {
    if acts != [] {
      ClosedStays(t, i, acts[0]);
      StaysUnbalanced(Do(t, i, acts[0]), i, acts[1..]);
    }
  }

  /** A closed slot that is settled or closed is closed once too often. */
  lemma {:induction false} SecondClose(t: State, i: int, acts: seq<Act>)
    requires t.Sized() && t.Slot(i) && !t.Live(i) && t.opens[i] == t.closes[i] && t.descr[i].out.pending == []
    requires acts != [] && (acts[0].Emit? ==> |acts| >= 2 && acts[1].Settle?)
    requires acts[0].Emit? || acts[0].Settle? || acts[0].CloseNow?
    ensures !Balanced(Perform(t, i, acts), i)
    decreases |acts|
  {
    var u := Do(t, i, acts[0]);
    if acts[0].Emit? {
      SecondClose(u, i, acts[1..]);
    } else {
      ClosesAgain(if acts[0].Settle? then SetFlags(t, i, t.descr[i].flags.(toClose := true)) else t, i);
      StaysUnbalanced(u, i, acts[1..]);
    }
  }

  lemma ClosedByWrite(s: State, i: int, data: seq<Byte>, r: Outcome, rest: seq<Act>)
    requires Inv(s) && Normal(s, i) && s.Live(i) && Closes(s.descr[i], data, r)
    requires rest != [] && (rest[0].Settle? || (|rest| >= 2 && rest[0].Emit? && rest[1].Settle?))
    ensures !Balanced(Perform(s, i, [Emit(data, r)] + rest), i)
  {
    var t := Do(s, i, Emit(data, r));
    EmitLive(s, i, data, r);
    DoKeeps(s, i, Emit(data, r));
    assert SlotOk(t, i);
    SecondClose(t, i, rest);
    assert ([Emit(data, r)] + rest)[1..] == rest;
  }

  lemma KeptBalanced(t: State, i: int)
    requires t.Sized() && t.Slot(i) && !Reserved(t, i)
    ensures Inv(t) ==> Balanced(t, i)
  {
    if Inv(t) {
      assert SlotOk(t, i);
    }
  }

  /** After a reply the number has been closed as often as it was handed out,
      less once while it is live, exactly if no write of it closed the slot. */
  lemma RespondBalancedIff(s: State, i: int, hdr: seq<Byte>, body: seq<Byte>, r: Outcome, r': Outcome, flush: Outcome)
    requires Inv(s) && Normal(s, i) && s.Live(i)
    ensures var t := Perform(s, i, Respond(hdr, body, r, r', flush));
            Balanced(t, i) <==> Inv(t)
  {
    var acts, d := Respond(hdr, body, r, r', flush), s.descr[i];
    RespondIff(s, i, hdr, body, r, r', flush);
    KeptBalanced(Perform(s, i, acts), i);
    if Closes(d, acts[0].data, r) {
      ClosedByWrite(s, i, acts[0].data, r, acts[1..]);
      assert acts == [acts[0]] + acts[1..];
    } else if Split(hdr, body) && Closes(Sent(d, hdr, r), body, r') {
      var t := Do(s, i, acts[0]);
      EmitLive(s, i, hdr, r);
      DoKeeps(s, i, acts[0]);
      ClosedByWrite(t, i, body, r', [Settle(flush)]);
      assert acts[1..] == [Emit(body, r')] + [Settle(flush)];
    }
  }

  /** Likewise for status 414. */
  lemma TooLongBalancedIff(s: State, i: int, answer: seq<Byte>, r: Outcome, flush: Outcome)
    requires Inv(s) && Normal(s, i) && s.Live(i)
    ensures var t := Perform(s, i, TooLong(answer, r, flush));
            Balanced(t, i) <==> Inv(t)
  {
    var acts := TooLong(answer, r, flush);
    TooLongIff(s, i, answer, r, flush);
    KeptBalanced(Perform(s, i, acts), i);
    if Closes(s.descr[i], answer, r) {
      ClosedByWrite(s, i, answer, r, acts[1..]);
      assert acts == [acts[0]] + acts[1..];
    } else if !SettleWaits(Sent(s.descr[i], answer, r), flush) {
      var t := Do(s, i, acts[0]);
      EmitLive(s, i, answer, r);
      DoKeeps(s, i, acts[0]);
      SettleLive(t, i, flush);
      SettleKeeps(t, i, flush);
      assert SlotOk(Do(t, i, acts[1]), i);
      SecondClose(Do(t, i, acts[1]), i, acts[2..]);
      assert acts[1..][1..] == acts[2..];
    }
  }

  // ---- Static files ----

  /** `static_write` and directory listings: any number of writes, then a close
      that looks at DF_TO_CLOSE, which a closed slot has lost. */
  function Static(chunks: seq<seq<Byte>>, rs: seq<Outcome>): seq<Act>
    requires |chunks| == |rs|
  {
    if chunks == [] then [CloseIfMarked] else [Emit(chunks[0], rs[0])] + Static(chunks[1..], rs[1..])
  }

  /** That test is enough: whatever the kernel answers, a static answer to an
      unpaired client keeps the invariant. */
  lemma {:induction false} StaticKeeps(s: State, i: int, chunks: seq<seq<Byte>>, rs: seq<Outcome>)
    requires Inv(s) && Normal(s, i) && s.pair[i] == NONE && i in s.io && |chunks| == |rs|
    ensures Inv(Perform(s, i, Static(chunks, rs)))
    decreases |chunks|
  {
    var acts := Static(chunks, rs);
    var t := Do(s, i, acts[0]);
    assert SlotOk(s, i);
    DoKeeps(s, i, acts[0]);
    if chunks != [] {
      assert acts[1..] == Static(chunks[1..], rs[1..]);
      StaticKeeps(t, i, chunks[1..], rs[1..]);
    } else {
      assert acts[1..] == [];
    }
  }

  /** Some write before the last closes the slot. */
  predicate ClosesEarly(d: Descr, chunks: seq<seq<Byte>>, rs: seq<Outcome>)
    requires |chunks| == |rs|
    decreases |chunks|
  {
    |chunks| >= 2 && (Closes(d, chunks[0], rs[0]) || ClosesEarly(Sent(d, chunks[0], rs[0]), chunks[1..], rs[1..]))
  }

  /** A static answer keeps the invariant exactly if the client is unpaired or
      no write before the last closes it: closing a paired slot empties its
      `io` entry, and the next write calls through that. */
  lemma StaticIff(s: State, i: int, chunks: seq<seq<Byte>>, rs: seq<Outcome>)
    requires Inv(s) && Normal(s, i) && s.Live(i) && |chunks| == |rs|
    ensures Inv(Perform(s, i, Static(chunks, rs))) <==> s.pair[i] == NONE || !ClosesEarly(s.descr[i], chunks, rs)
  {
    assert SlotOk(s, i);
    if s.pair[i] == NONE {
      StaticKeeps(s, i, chunks, rs);
    } else {
      PerformIff(s, i, Static(chunks, rs));
      StaticActs(s, i, chunks, rs);
    }
  }

  lemma {:induction false} StaticActs(s: State, i: int, chunks: seq<seq<Byte>>, rs: seq<Outcome>)
    requires Inv(s) && Normal(s, i) && s.Live(i) && s.pair[i] != NONE && |chunks| == |rs|
    ensures ActsOk(s, i, Static(chunks, rs)) <==> !ClosesEarly(s.descr[i], chunks, rs)
    decreases |chunks|
  {
    var acts := Static(chunks, rs);
    if chunks == [] {
      Then(s, i, acts, CloseIfMarked, []);
    } else {
      var t := Do(s, i, acts[0]);
      Then(s, i, acts, acts[0], Static(chunks[1..], rs[1..]));
      EmitLive(s, i, chunks[0], rs[0]);
      DoKeeps(s, i, acts[0]);
      if t.Live(i) {
        StaticActs(t, i, chunks[1..], rs[1..]);
      } else {
        EmitTearsDown(s, i, chunks[0], rs[0]);
        StaticClosed(t, i, chunks[1..], rs[1..]);
      }
    }
  }

  lemma EmitTearsDown(s: State, i: int, data: seq<Byte>, r: Outcome)
    requires Inv(s) && Normal(s, i) && s.Live(i) && s.pair[i] != NONE && Closes(s.descr[i], data, r)
    ensures i !in LowWrite(s, i, data, r).io
  {
    assert SlotOk(s, i);
  }

  lemma StaticClosed(t: State, i: int, chunks: seq<seq<Byte>>, rs: seq<Outcome>)
    requires t.Sized() && t.Slot(i) && !t.Live(i) && i !in t.io && |chunks| == |rs|
    ensures ActsOk(t, i, Static(chunks, rs)) <==> chunks == []
  {
    if chunks == [] {
      Then(t, i, Static(chunks, rs), CloseIfMarked, []);
    }
  }

  /** Before the kernel has answered: exactly if the client is unpaired, or
      there is one write, or there are two and nothing is queued. */
  lemma StaticAlwaysIff(s: State, i: int, chunks: seq<seq<Byte>>)
    requires Inv(s) && Normal(s, i) && s.Live(i) && forall k :: 0 <= k < |chunks| ==> chunks[k] != []
    ensures (forall rs: seq<Outcome> :: |rs| == |chunks| ==> Inv(Perform(s, i, Static(chunks, rs)))) <==>
            s.pair[i] == NONE || FewWrites(s.descr[i], chunks)
  {
    if s.pair[i] == NONE || FewWrites(s.descr[i], chunks) {
      forall rs: seq<Outcome> | |rs| == |chunks| ensures Inv(Perform(s, i, Static(chunks, rs))) {
        StaticIff(s, i, chunks, rs);
        NotEarly(s.descr[i], chunks, rs);
      }
    } else {
      var worst := WorstCase(s.descr[i], chunks);
      StaticIff(s, i, chunks, worst);
      assert !Inv(Perform(s, i, Static(chunks, worst)));
    }
  }

  predicate FewWrites(d: Descr, chunks: seq<seq<Byte>>) {
    |chunks| <= 1 || (|chunks| == 2 && d.out.pending == [])
  }

  lemma NotEarly(d: Descr, chunks: seq<seq<Byte>>, rs: seq<Outcome>)
    requires |rs| == |chunks|
    ensures FewWrites(d, chunks) ==> !ClosesEarly(d, chunks, rs)
  {
  }

  lemma WorstCase(d: Descr, chunks: seq<seq<Byte>>) returns (rs: seq<Outcome>)
    requires !FewWrites(d, chunks) && chunks[0] != []
    ensures |rs| == |chunks| && ClosesEarly(d, chunks, rs)
  {
    var first := if d.out.pending == [] then Room(0) else Broken;
    rs := seq(|chunks|, k => if k == 0 then first else Broken);
    if d.out.pending == [] {
      assert chunks[0][0..] == chunks[0];
      assert Closes(Sent(d, chunks[0], rs[0]), chunks[1], Broken);
      assert ClosesEarly(Sent(d, chunks[0], rs[0]), chunks[1..], rs[1..]);
    }
  }
}
