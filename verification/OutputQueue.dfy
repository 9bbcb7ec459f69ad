// The output buffer of one descriptor (`remaining`, `remaining_len`,
// `remaining_off`, `remaining_size`), kept in an array that is compacted and
// grown in place, behind a non-blocking `lower_write`.
module OutputQueue {
  import opened Fifo
  import opened Wrappers

  /** `size * 2^k`, by doubling. */
  function Doubled(size: nat, k: nat): (r: nat)
    ensures r >= size
  {
    if k == 0 then size else 2 * Doubled(size, k - 1)
  }

  // ---- Growth ----

  /** `need` is hit exactly by doubling `size` at least once. */
  ghost predicate Stalls(size: nat, need: nat) {
    exists k: nat :: k >= 1 && Doubled(size, k) == need
  }

  /** The inner growth loop: double until at least `need`. */
  function DoubleTo(size: nat, need: nat): (r: nat)
    requires size > 0
    ensures r >= need && r >= size
    ensures r == size || r < 2 * need
    decreases if size < need then need - size else 0
  {
    if size < need then DoubleTo(2 * size, need) else size
  }

  /** The outer growth loop after at most `passes` rounds. */
  function Grow(size: nat, need: nat, passes: nat): nat
    requires size > 0
    decreases passes
  {
    if passes == 0 || need < size then size
    else Grow(DoubleTo(size, need), need, passes - 1)
  }

  lemma {:induction false} DoubledShift(size: nat, k: nat)
    ensures Doubled(2 * size, k) == Doubled(size, k + 1)
  {
    if k > 0 {
      DoubledShift(size, k - 1);
    }
  }

  lemma {:induction false} DoubleToIsPower(size: nat, need: nat) returns (k: nat)
    requires size > 0
    ensures DoubleTo(size, need) == Doubled(size, k)
    ensures k > 0 ==> Doubled(size, k - 1) < need
    decreases if size < need then need - size else 0
  {
    k := 0;
    if size < need {
      var j := DoubleToIsPower(2 * size, need);
      DoubledShift(size, j);
      if j > 0 {
        DoubledShift(size, j - 1);
      }
      k := j + 1;
    }
  }

  lemma {:induction false} PowersOrdered(size: nat, a: nat, b: nat)
    requires size > 0 && a < b
    ensures 2 * Doubled(size, a) <= Doubled(size, b)
    decreases b
  {
    if a + 1 < b {
      PowersOrdered(size, a, b - 1);
    }
  }

  /** The inner loop stops exactly on `need` if and only if growth stalls. */
  lemma DoubleToHits(size: nat, need: nat)
    requires 0 < size < need
    ensures DoubleTo(size, need) == need <==> Stalls(size, need)
  {
    var k := DoubleToIsPower(size, need);
    if Stalls(size, need) {
      var j: nat :| j >= 1 && Doubled(size, j) == need;
      if j < k - 1 {
        PowersOrdered(size, j, k - 1);
      } else if k < j {
        PowersOrdered(size, k, j);
      }
    }
  }

  lemma {:induction false} GrowStuck(need: nat, passes: nat)
    requires need > 0
    ensures Grow(need, need, passes) == need
  {
    if passes > 0 {
      GrowStuck(need, passes - 1);
    }
  }

  /** Growing terminates exactly when no `size * 2^k` with `k >= 1` equals
      `need`. */
  lemma GrowthTerminatesIff(size: nat, need: nat)
    requires 0 < size < need
    ensures (exists passes: nat :: Grow(size, need, passes) > need) <==> !Stalls(size, need)
  {
    var first := DoubleTo(size, need);
    DoubleToHits(size, need);
    if Stalls(size, need) {
      forall passes: nat ensures Grow(size, need, passes) <= need {
        if passes > 0 {
          GrowStuck(need, passes - 1);
        }
      }
    } else {
      var once: nat := 1;
      assert Grow(size, need, once) == Grow(first, need, once - 1) == first > need;
      assert exists passes: nat :: Grow(size, need, passes) > need;
    }
  }

  /** A queue of BUFSIZ * 1024 bytes with BUFSIZ == 8192 that needs exactly twice
      as much: the outer loop never ends. */
  lemma GrowthStalls()
    ensures Stalls(8388608, 16777216)
    ensures forall passes: nat :: Grow(8388608, 16777216, passes) <= 16777216
  {
    assert Doubled(8388608, 1) == 16777216;
    GrowthTerminatesIff(8388608, 16777216);
  }

  /** `r` is the smallest `size * 2^k` that exceeds `need`. */
  ghost predicate SmallestAbove(r: nat, size: nat, need: nat) {
    exists k: nat :: k >= 1 && r == Doubled(size, k) && r > need && Doubled(size, k - 1) <= need
  }

  // ---- The buffer ----

  /** How many bytes of a write of `n` bytes `axil_low_write` has to buffer. */
  function Queued(idle: bool, n: nat, room: Outcome): nat {
    if !idle || room.Again? then n
    else if room.Room? then n - Min(room.n, n)
    else 0
  }

  class OutputBuffer {
    var remaining: array<Byte>
    var off: nat
    var len: nat
    var toClose: bool
    var open: bool
    ghost var wire: seq<Byte>
    ghost var lost: bool
    ghost var drained: bool

    ghost predicate Valid()
      reads this
    {
      && 0 < remaining.Length
      && off + len <= remaining.Length
      && (len == 0 ==> off == 0)
    }

    /** The queue this buffer stands for. */
    ghost function Contents(): Conn
      requires Valid()
      reads this, remaining
    {
      Conn(Queue(remaining[off..off + len], wire, lost), toClose, open, drained)
    }

    constructor (size: nat)
      requires size > 0
      ensures Valid() && fresh(remaining) && remaining.Length == size
      ensures Contents() == START
    {
      remaining := new Byte[size](_ => 0);
      off, len, toClose, open := 0, 0, false, true;
      wire, lost, drained := [], false, false;
    }

    method MarkToClose()
      requires Valid() && open
      modifies `toClose
      ensures Valid() && Contents() == Step(old(Contents()), Op.MarkToClose)
    {
      toClose := true;
    }

    /** `axil_write_remaining`; `room` is what the kernel does. */
    method WriteRemaining(room: Outcome) returns (ret: int)
      requires Valid() && open
      modifies this
      ensures Valid() && remaining == old(remaining)
      ensures Contents() == Step(old(Contents()), Retry(room))
      ensures ret == if old(len) == 0 then 0 else if room.Room? then Min(room.n, old(len)) else -1
    {
      if len == 0 {
        return 0;
      }
      match room
      case Again => return -1;
      case Interrupted => return -1;
      case Broken =>
        Close(false);
        return -1;
      case Room(n) =>
        ret := Min(n, len);
        Advance(ret);
        if ret > 0 && len == 0 && toClose {
          Close(true);
        }
    }

    /** Bookkeeping after the kernel took `k` bytes from the front. */
    method Advance(k: nat)
      requires Valid() && k <= len
      modifies `off, `len, `wire
      ensures Valid()
      ensures var q := old(Contents()).q;
              Contents() == old(Contents()).(q := Queue(q.pending[k..], q.wire + q.pending[..k], q.lost))
    {
      ghost var pending := remaining[off..off + len];
      assert pending[..k] == remaining[off..off + k];
      assert pending[k..] == remaining[off + k..off + len];
      wire := wire + remaining[off..off + k];
      off := off + k;
      len := len - k;
      if len == 0 {
        off := 0;
      }
    }

    /** The queue side of `axil_close`: nothing more is written. */
    method Close(ghost emptied: bool)
      modifies `open, `drained
      ensures !open && drained == emptied
    {
      open := false;
      drained := emptied;
    }

    /** `axil_rem_may_inc`: room for `more` bytes behind the queue, which is
        kept; the buffer grows only if compaction is not enough, and then to
        the smallest doubling above the need. */
    method MayInc(more: nat)
      requires Valid()
      requires len + more > remaining.Length ==> !Stalls(remaining.Length, len + more)
      modifies this`remaining, this`off, remaining
      ensures Valid() && off + len + more <= remaining.Length
      ensures Contents() == old(Contents())
      ensures remaining == old(remaining) || fresh(remaining)
      ensures if len + more <= old(remaining.Length) then remaining == old(remaining)
              else SmallestAbove(remaining.Length, old(remaining.Length), len + more)
    {
      if remaining.Length - (off + len) >= more {
        return;
      }
      if off > 0 {
        Compact();
        if remaining.Length - len >= more {
          return;
        }
      }
      GrowTo(off + len + more);
    }

    /** The growing loop; it starts at the size that is too small. */
    method GrowTo(need: nat)
      requires Valid() && off == 0 && remaining.Length <= need
      requires remaining.Length < need ==> !Stalls(remaining.Length, need)
      requires remaining.Length != need
      modifies this`remaining
      ensures Valid() && need < remaining.Length && fresh(remaining)
      ensures Contents() == old(Contents())
      ensures SmallestAbove(remaining.Length, old(remaining.Length), need)
    {
      ghost var oldSize := remaining.Length;
      var size := remaining.Length;
      while need >= size
        invariant size == remaining.Length && Valid() && Contents() == old(Contents())
        invariant size == oldSize || (fresh(remaining) && SmallestAbove(size, oldSize, need))
        decreases need + 1 - size
      {
        size := DoubleSize(size, need);
        Realloc(size);
      }
    }

    /** The inner loop. */
    method DoubleSize(size: nat, need: nat) returns (r: nat)
      requires 0 < size < need && !Stalls(size, need)
      ensures r > need && SmallestAbove(r, size, need)
    {
      r := size;
      ghost var k: nat := 0;
      while r < need
        invariant r == Doubled(size, k)
        invariant k > 0 ==> Doubled(size, k - 1) < need
        decreases need - r
      {
        r, k := r * 2, k + 1;
      }
      assert r != need;
    }

    method Realloc(size: nat)
      requires Valid() && size >= remaining.Length
      modifies this`remaining
      ensures Valid() && fresh(remaining) && remaining.Length == size
      ensures Contents() == old(Contents())
    {
      var tmp := new Byte[size](_ => 0);
      forall i | 0 <= i < remaining.Length {
        tmp[i] := remaining[i];
      }
      assert tmp[off..off + len] == remaining[off..off + len];
      remaining := tmp;
    }

    /** The `memmove` to the front of the buffer. */
    method Compact()
      requires Valid()
      modifies this`off, remaining
      ensures Valid() && off == 0
      ensures Contents() == old(Contents())
    {
      forall i | 0 <= i < len {
        remaining[i] := remaining[off + i];
      }
      assert remaining[..len] == old(remaining[off..off + len]);
      off := 0;
    }

    /** The `memcpy` of `data` to the end of the queue. */
    method Append(data: seq<Byte>)
      requires Valid() && off + len + |data| <= remaining.Length
      requires len == 0 ==> off == 0
      modifies this`len, remaining
      ensures Valid()
      ensures Contents() == old(Contents()).(q := old(Contents()).q.(pending := old(Contents()).q.pending + data))
    {
      forall i | 0 <= i < |data| {
        remaining[off + len + i] := data[i];
      }
      assert remaining[off..off + len + |data|] == old(remaining[off..off + len]) + data;
      len := len + |data|;
    }

    /** `axil_low_write`.  The requires excludes exactly the sizes for which
        growing does not terminate. */
    method LowWrite(data: seq<Byte>, room: Outcome) returns (ret: int)
      requires Valid() && open
      requires var more := Queued(len == 0, |data|, room);
               len + more > remaining.Length ==> !Stalls(remaining.Length, len + more)
      modifies this, remaining
      ensures Valid() && (remaining == old(remaining) || fresh(remaining))
      ensures Contents() == Step(old(Contents()), Write(data, room))
      ensures ret == if old(len) == 0 && room.Room? then Min(room.n, |data|) else -1
    {
      ghost var q := Contents().q;
      if len > 0 {
        JoinBacklog(data, room);
        return -1;
      }
      assert q.pending == [];
      match room
      case Again =>
        Buffer(data);
        return -1;
      case Interrupted =>
        lost := lost || data != [];
        return -1;
      case Broken =>
        lost := lost || data != [];
        return -1;
      case Room(n) =>
        ret := Min(n, |data|);
        wire := wire + data[..ret];
        if ret < |data| {
          Buffer(data[ret..]);
        }
    }

    /** Behind a backlog, data is queued and the backlog is flushed. */
    method JoinBacklog(data: seq<Byte>, room: Outcome)
      requires Valid() && open && len > 0
      requires len + |data| > remaining.Length ==> !Stalls(remaining.Length, len + |data|)
      modifies this, remaining
      ensures Valid() && (remaining == old(remaining) || fresh(remaining))
      ensures Contents() == Step(old(Contents()), Write(data, room))
    {
      MayInc(|data|);
      Append(data);
      var _ := WriteRemaining(room);
    }

    /** The tail of a direct write goes into the empty buffer. */
    method Buffer(data: seq<Byte>)
      requires Valid() && len == 0
      requires |data| > remaining.Length ==> !Stalls(remaining.Length, |data|)
      modifies this`len, this`remaining, this`off, remaining
      ensures Valid() && (remaining == old(remaining) || fresh(remaining))
      ensures Contents() == old(Contents()).(q := old(Contents()).q.(pending := data))
    {
      MayInc(|data|);
      Append(data);
      assert [] + data == data;
    }
  }
}
