// What a descriptor's output buffer means: bytes still queued, and the bytes
// the kernel has taken so far.  `OutputQueue` implements this over a buffer,
// and the connection engine in `Tunnel` uses it for every descriptor.
module Fifo {
  import opened Wrappers

  type Byte = n: int | 0 <= n < 256

  /** One call of `lower_write`: the kernel has room for so many bytes (it
      takes a prefix), or fails with EAGAIN, EINTR or any other error. */
  datatype Outcome = Room(n: nat) | Again | Interrupted | Broken

  /** `lost` records that a direct write failed and its bytes were dropped. */
  datatype Queue = Queue(pending: seq<Byte>, wire: seq<Byte>, lost: bool) {
    /** Everything handed to this connection that was not dropped, in order. */
    function Stream(): seq<Byte> { wire + pending }
  }

  const EMPTY := Queue([], [], false)

  /** `axil_write_remaining` on the bytes alone. */
  function Flush(q: Queue, r: Outcome): Queue {
    match r
    case Room(n) =>
      var k := Min(n, |q.pending|);
      Queue(q.pending[k..], q.wire + q.pending[..k], q.lost)
    case _ => q
  }

  /** Whether `axil_write_remaining` ends by closing the descriptor. */
  predicate FlushCloses(q: Queue, toClose: bool, r: Outcome) {
    q.pending != [] && (r.Broken? || (toClose && Flush(q, r).pending == []))
  }

  /** `axil_low_write`: behind a backlog the data joins it and the backlog is
      flushed; otherwise it is written directly, and only EAGAIN or a partial
      write leaves it in the queue. */
  function Send(q: Queue, data: seq<Byte>, r: Outcome): Queue {
    if q.pending != [] then Flush(q.(pending := q.pending + data), r)
    else match r
      case Room(n) =>
        var k := Min(n, |data|);
        Queue(data[k..], q.wire + data[..k], q.lost)
      case Again => q.(pending := data)
      case _ => q.(lost := q.lost || data != [])
  }

  predicate SendCloses(q: Queue, toClose: bool, data: seq<Byte>, r: Outcome) {
    q.pending != [] && FlushCloses(q.(pending := q.pending + data), toClose, r)
  }

  /** The write that drops its data: nothing queued, and an error other than EAGAIN. */
  predicate Drops(q: Queue, data: seq<Byte>, r: Outcome) {
    q.pending == [] && data != [] && (r.Interrupted? || r.Broken?)
  }

  lemma SendAppends(q: Queue, data: seq<Byte>, r: Outcome)
    ensures Send(q, data, r).Stream() == if Drops(q, data, r) then q.Stream() else q.Stream() + data
    ensures Send(q, data, r).lost == (q.lost || Drops(q, data, r))
  {
  }

  lemma FlushKeeps(q: Queue, r: Outcome)
    ensures Flush(q, r).Stream() == q.Stream()
    ensures Flush(q, r).lost == q.lost
  {
  }

  /** The first `n` bytes, or all there are. */
  function UpTo(all: seq<Byte>, n: nat): seq<Byte> { all[..Min(n, |all|)] }

  lemma Taken(wire: seq<Byte>, more: seq<Byte>, n: nat)
    ensures wire + UpTo(more, n) == UpTo(wire + more, |wire| + n)
  {
  }

  /** A flush puts as much on the wire as the kernel has room for, oldest bytes
      first; with any error it does nothing. */
  lemma FlushTakes(q: Queue, r: Outcome)
    ensures if r.Room? then Flush(q, r).wire == UpTo(q.Stream(), |q.wire| + r.n) else Flush(q, r) == q
  {
    if r.Room? {
      Taken(q.wire, q.pending, r.n);
    }
  }

  /** So does a write, whether or not anything was queued before. */
  lemma KernelTakes(q: Queue, data: seq<Byte>, r: Outcome)
    ensures Send(q, data, r).wire == if r.Room? then UpTo(q.Stream() + data, |q.wire| + r.n) else q.wire
  {
    if q.pending == [] {
      assert q.Stream() == q.wire;
      if r.Room? {
        Taken(q.wire, data, r.n);
      }
    } else {
      var behind := q.(pending := q.pending + data);
      Joins(q.wire, q.pending, data);
      FlushTakes(behind, r);
    }
  }

  lemma Joins(x: seq<Byte>, y: seq<Byte>, z: seq<Byte>)
    ensures (x + y) + z == x + (y + z)
  {
  }

  /** A write or a retry closes the connection exactly if there was a backlog
      and it met a hard error, or drained on a connection marked to close. */
  lemma ClosesExactly(q: Queue, toClose: bool, data: seq<Byte>, r: Outcome)
    ensures SendCloses(q, toClose, data, r) <==>
            q.pending != [] && (r.Broken? || (toClose && r.Room? && r.n >= |q.pending| + |data|))
    ensures FlushCloses(q, toClose, r) <==>
            q.pending != [] && (r.Broken? || (toClose && r.Room? && r.n >= |q.pending|))
  {
  }

  // ---- Whole runs of one connection ----

  datatype Op = Write(data: seq<Byte>, room: Outcome) | Retry(room: Outcome) | MarkToClose

  /** `drained` says the close came from an empty queue, not from an error. */
  datatype Conn = Conn(q: Queue, toClose: bool, open: bool, drained: bool)

  const START := Conn(EMPTY, false, true, false)

  function Step(c: Conn, op: Op): Conn {
    if !c.open then c
    else match op
      case Write(data, r) =>
        var q := Send(c.q, data, r);
        if SendCloses(c.q, c.toClose, data, r) then Conn(q, c.toClose, false, !r.Broken?)
        else c.(q := q)
      case Retry(r) =>
        var q := Flush(c.q, r);
        if FlushCloses(c.q, c.toClose, r) then Conn(q, c.toClose, false, !r.Broken?)
        else c.(q := q)
      case MarkToClose => c.(toClose := true)
  }

  function Run(ops: seq<Op>): Conn {
    if ops == [] then START else Step(Run(ops[..|ops|-1]), ops[|ops|-1])
  }

  /** All data handed over while the connection was open, in order. */
  function Handed(ops: seq<Op>): seq<Byte> {
    if ops == [] then []
    else
      var before := ops[..|ops|-1];
      var op := ops[|ops|-1];
      Handed(before) + if Run(before).open && op.Write? then op.data else []
  }

  /** Some write in the run found an empty queue and a hard error. */
  ghost predicate SomeDrop(ops: seq<Op>) {
    exists i :: 0 <= i < |ops| && DropsAt(ops, i)
  }

  ghost predicate DropsAt(ops: seq<Op>, i: nat)
    requires i < |ops|
  {
    var c := Run(ops[..i]);
    c.open && ops[i].Write? && Drops(c.q, ops[i].data, ops[i].room)
  }

  lemma DropAppend(ops: seq<Op>)
    requires ops != []
    ensures SomeDrop(ops) == (SomeDrop(ops[..|ops|-1]) || DropsAt(ops, |ops|-1))
  {
    var before := ops[..|ops|-1];
    forall i | 0 <= i < |before|
      ensures DropsAt(before, i) == DropsAt(ops, i)
    {
      assert before[..i] == ops[..i];
    }
  }

  /** The FIFO theorem.  Through any partial writes and EAGAINs, the wire
      followed by the queue is exactly what was handed over, if and only if no
      write met an error other than EAGAIN while nothing was queued.  A
      connection closed by draining has everything on the wire. */
  lemma {:induction false} FifoRun(ops: seq<Op>)
    ensures Run(ops).q.Stream() == Handed(ops) <==> !SomeDrop(ops)
    ensures Run(ops).q.lost <==> SomeDrop(ops)
    ensures SomeDrop(ops) ==> |Run(ops).q.Stream()| < |Handed(ops)|
    ensures !Run(ops).open && Run(ops).drained ==> Run(ops).q.pending == []
  {
    if ops != [] {
      var before, op := ops[..|ops|-1], ops[|ops|-1];
      FifoRun(before);
      DropAppend(ops);
      var c := Run(before);
      assert before == ops[..|ops|-1];
      if c.open && op.Write? {
        SendAppends(c.q, op.data, op.room);
      } else if c.open && op.Retry? {
        FlushKeeps(c.q, op.room);
      }
      assert Handed(before) + [] == Handed(before);
    }
  }

  /** Once the kernel has room for the backlog, one retry empties it, and a
      connection marked to close then closes. */
  lemma RetryDrains(c: Conn, n: nat)
    requires c.open && 0 < |c.q.pending| <= n
    ensures var d := Step(c, Retry(Room(n)));
            d.q.pending == [] && d.q.wire == c.q.Stream() && d.open == !c.toClose
  {
  }
}
