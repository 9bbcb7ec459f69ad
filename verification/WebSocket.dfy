// WebSocket framing: the server's `ws_write` and `ws_read` against the client
// codec of test-ws.py (section 5.2 of RFC 6455).
module WebSocket {
  import Fifo
  import opened Wrappers

  type Byte = Fifo.Byte

  // ---- Header bytes ----
  // Masks of one byte are written as division and remainder, and OR of
  // disjoint bits as a sum.

  function Len7(b: Byte): int { b % 128 }
  function Opcode(b: Byte): Byte { b % 16 }
  predicate Top(b: Byte) { b >= 128 }

  /** A big-endian number. */
  function BigEndian(s: seq<Byte>): (n: int)
    ensures 0 <= n
  {
    if s == [] then 0 else 256 * BigEndian(s[..|s|-1]) + s[|s|-1]
  }

  lemma TwoBytes(n: int)
    requires 0 <= n < 65536
    ensures BigEndian([n / 256, n % 256]) == n
  {
    var s: seq<Byte> := [n / 256, n % 256];
    assert s[..1] == [s[0]] && s[..1][..0] == [];
    assert BigEndian(s[..1]) == s[0];
  }

  /** Exclusive or, bit by bit. */
  function Xor(a: nat, b: nat): nat
    decreases a + b
  {
    if a == 0 && b == 0 then 0
    else (if a % 2 == b % 2 then 0 else 1) + 2 * Xor(a / 2, b / 2)
  }

  lemma {:induction false} XorTwice(a: nat, b: nat)
    ensures Xor(Xor(a, b), b) == a
    decreases a + b
  {
    if a != 0 || b != 0 {
      XorTwice(a / 2, b / 2);
      assert Xor(a, b) / 2 == Xor(a / 2, b / 2);
    }
  }

  lemma {:induction false} XorBounded(a: nat, b: nat, bits: nat)
    requires a < Pow2(bits) && b < Pow2(bits)
    ensures Xor(a, b) < Pow2(bits)
    decreases bits
  {
    if bits > 0 {
      XorBounded(a / 2, b / 2, bits - 1);
    }
  }

  function Pow2(n: nat): (p: nat)
    ensures p > 0
  {
    if n == 0 then 1 else 2 * Pow2(n - 1)
  }

  /** Bit `j` of `n`. */
  function Bit(n: nat, j: nat): nat { n / Pow2(j) % 2 }

  lemma {:induction false} BitDown(n: nat, j: nat)
    requires j > 0
    ensures Bit(n, j) == Bit(n / 2, j - 1)
  {
    HalfDiv(n, Pow2(j - 1));
  }

  lemma HalfDiv(n: nat, m: nat)
    requires m > 0
    ensures n / (2 * m) == n / 2 / m
  {
    var q, r := n / (2 * m), n % (2 * m);
    assert n == 2 * (q * m) + r;
    assert n / 2 == q * m + r / 2;
    DivOf(n / 2, q, r / 2, m);
  }

  lemma DivOf(n: int, q: int, r: int, m: int)
    requires 0 <= r < m && n == q * m + r
    ensures n / m == q
  {
    var d: int := n / m - q;
    assert d * m == r - n % m;
    Multiple(d, m);
  }

  lemma Multiple(d: int, m: int)
    requires m > 0 && 0 - m < d * m < m
    ensures d == 0
  {
  }

  lemma XorHalf(a: nat, b: nat)
    ensures Xor(a, b) % 2 == if a % 2 == b % 2 then 0 else 1
    ensures Xor(a, b) / 2 == Xor(a / 2, b / 2)
  {
  }

  /** A bit of the result is set exactly where the two numbers differ. */
  lemma {:induction false} XorBits(a: nat, b: nat, j: nat)
    ensures Bit(Xor(a, b), j) == if Bit(a, j) == Bit(b, j) then 0 else 1
    decreases j
  {
    XorHalf(a, b);
    if j > 0 {
      BitDown(a, j);
      BitDown(b, j);
      BitDown(Xor(a, b), j);
      XorBits(a / 2, b / 2, j - 1);
    }
  }

  function XorByte(a: Byte, b: Byte): Byte {
    assert Pow2(8) == 256 by { assert Pow2(4) == 16; }
    XorBounded(a, b, 8);
    Xor(a, b)
  }

  /** XOR with a repeating four-byte key. */
  function Masked(p: seq<Byte>, key: seq<Byte>): (r: seq<Byte>)
    requires |key| == 4
    ensures |r| == |p|
  {
    seq(|p|, i requires 0 <= i < |p| => XorByte(p[i], key[i % 4]))
  }

  lemma MaskTwice(p: seq<Byte>, key: seq<Byte>)
    requires |key| == 4
    ensures Masked(Masked(p, key), key) == p
  {
    forall i | 0 <= i < |p| ensures Masked(Masked(p, key), key)[i] == p[i] {
      XorTwice(p[i], key[i % 4]);
    }
  }

  /** The bit with weight `m` of byte `i` differs from the payload's exactly
      where that bit is set in the key byte that byte `i` falls on. */
  lemma MaskedBits(p: seq<Byte>, key: seq<Byte>, i: nat, m: nat)
    requires |key| == 4 && i < |p|
    requires m == 1 || m == 2 || m == 4 || m == 8 || m == 16 || m == 32 || m == 64 || m == 128
    ensures Masked(p, key)[i] / m % 2 != p[i] / m % 2 <==> key[i % 4] / m % 2 == 1
  {
    var j := Log2(m);
    XorBits(p[i], key[i % 4], j);
  }

  lemma Log2(m: nat) returns (j: nat)
    requires m == 1 || m == 2 || m == 4 || m == 8 || m == 16 || m == 32 || m == 64 || m == 128
    ensures Pow2(j) == m
  {
    if m == 1 {
      j := 0;
    } else {
      j := Log2(m / 2);
      j := j + 1;
    }
  }

  // ---- What the client reads ----

  datatype Msg = Msg(fin: bool, opcode: Byte, payload: seq<Byte>)

  /** The length field: its value and what follows it. */
  function ParseLen(code: int, s: seq<Byte>): (r: Option<(int, seq<Byte>)>)
    requires 0 <= code < 128
    ensures r.Some? ==> 0 <= r.value.0 && |r.value.1| <= |s|
  {
    if code == 126 then (if |s| < 2 then None else Some((BigEndian(s[..2]), s[2..])))
    else if code == 127 then (if |s| < 8 then None else Some((BigEndian(s[..8]), s[8..])))
    else Some((code, s))
  }

  function ParseBody(fin: bool, opcode: Byte, masked: bool, n: int, s: seq<Byte>): (r: Option<(Msg, seq<Byte>)>)
    requires 0 <= n
    ensures r.Some? ==> |r.value.1| <= |s|
  {
    if masked then
      if |s| < 4 + n then None
      else Some((Msg(fin, opcode, Masked(s[4..4 + n], s[..4])), s[4 + n..]))
    else
      if |s| < n then None else Some((Msg(fin, opcode, s[..n]), s[n..]))
  }

  /** The first frame of a stream, and the rest; none if it is incomplete. */
  function Parse(s: seq<Byte>): (r: Option<(Msg, seq<Byte>)>)
    ensures r.Some? ==> |r.value.1| < |s|
  {
    if |s| < 2 then None
    else match ParseLen(Len7(s[1]), s[2..])
      case None => None
      case Some((n, t)) => ParseBody(Top(s[0]), Opcode(s[0]), Top(s[1]), n, t)
  }

  function ParseAll(s: seq<Byte>): seq<Msg>
    decreases |s|
  {
    match Parse(s)
    case None => []
    case Some((m, rest)) => [m] + ParseAll(rest)
  }

  /** The messages before the first close frame. */
  function UntilClose(ms: seq<Msg>): seq<Msg> {
    if ms == [] || ms[0].opcode == 8 then [] else [ms[0]] + UntilClose(ms[1..])
  }

  lemma UntilCloseStep(s: seq<Byte>)
    ensures UntilClose(ParseAll(s)) ==
            match Parse(s)
            case None => []
            case Some((m, rest)) => if m.opcode == 8 then [] else [m] + UntilClose(ParseAll(rest))
  {
    if Parse(s).Some? {
      var (m, rest) := Parse(s).value;
      assert ([m] + ParseAll(rest))[1..] == ParseAll(rest);
    }
  }

  // ---- What the server writes ----

  const BINARY_FIN: Byte := 0x82  // WS_BINARY | WS_FIN, as set by ws_init

  /** The frame of a payload below 65536 bytes. */
  function Frame(data: seq<Byte>): seq<Byte>
    requires |data| < 65536
  {
    if |data| < 126 then [BINARY_FIN, |data|] + data
    else [BINARY_FIN, 126, |data| / 256, |data| % 256] + data
  }

  /** The buffer that `ws_write` hands to `lower_write`. */
  method WsFrame(data: seq<Byte>, flags: Byte) returns (frame: array<Byte>, len: nat)
    requires |data| < 65536 && flags == BINARY_FIN
    ensures len + |data| <= frame.Length && frame[..len + |data|] == Frame(data)
  {
    var n := |data|;
    var smallest := n < 126;
    frame := new Byte[2 + (if smallest then 0 else 8) + n](_ => 0);
    len := 2;
    frame[0] := flags;
    if smallest {
      frame[1] := n;
    } else {
      frame[1] := 126;
      frame[2], frame[3] := n / 256, n % 256;
      len := 4;
    }
    forall i | 0 <= i < n {
      frame[len + i] := data[i];
    }
    assert frame[..len] == if n < 126 then [BINARY_FIN, n] else [BINARY_FIN, 126, n / 256, n % 256];
    assert frame[..len + n] == frame[..len] + data;
  }

  /** `ws_write`: what the kernel takes is a prefix of the frame, and the
      return value says whether it is a proper one. */
  method WsWrite(data: seq<Byte>, flags: Byte, room: Fifo.Outcome) returns (short: bool, wire: seq<Byte>)
    requires |data| < 65536 && flags == BINARY_FIN
    ensures wire <= Frame(data) && (!short <==> wire == Frame(data))
    ensures short <==> !(room.Room? && room.n >= |Frame(data)|)
  {
    var frame, len := WsFrame(data, flags);
    var sent: int := if room.Room? then Min(room.n, len + |data|) else -1;
    short := sent < len + |data|;
    wire := if sent < 0 then [] else frame[..sent];
  }

  lemma FrameParses(data: seq<Byte>, rest: seq<Byte>)
    requires |data| < 65536
    ensures Parse(Frame(data) + rest) == Some((Msg(true, 2, data), rest))
  {
    if |data| < 126 {
      ShortParses(data, rest);
    } else {
      LongParses(data, rest);
    }
  }

  lemma ShortParses(data: seq<Byte>, rest: seq<Byte>)
    requires |data| < 126
    ensures Parse(Frame(data) + rest) == ParseBody(true, 2, false, |data|, data + rest)
  {
    var h: seq<Byte> := [130, |data|];
    var s := Frame(data) + rest;
    assert s == h + (data + rest);
    ParseShort(s, data + rest);
  }

  lemma ParseShort(s: seq<Byte>, body: seq<Byte>)
    requires |s| >= 2 && s[0] == 130 && s[1] < 126 && s[2..] == body
    ensures Parse(s) == ParseBody(true, 2, false, s[1], body)
  {
    HeadBytes(s[1]);
    assert ParseLen(Len7(s[1]), s[2..]) == Some((s[1], body));
  }

  lemma HeadBytes(n: Byte)
    requires n < 128
    ensures Len7(n) == n && !Top(n) && Opcode(BINARY_FIN) == 2 && Top(BINARY_FIN)
  {
  }

  lemma LongParses(data: seq<Byte>, rest: seq<Byte>)
    requires 126 <= |data| < 65536
    ensures Parse(Frame(data) + rest) == ParseBody(true, 2, false, |data|, data + rest)
  {
    var s, n := Frame(data) + rest, |data|;
    var h: seq<Byte> := [130, 126, n / 256, n % 256];
    assert s == h + (data + rest);
    var t := s[2..];
    assert t == h[2..] + (data + rest);
    assert t[..2] == h[2..] && t[2..] == data + rest;
    TwoBytes(n);
    assert ParseLen(126, t) == Some((n, data + rest));
  }

  /** Frames sent back to back. */
  function Frames(payloads: seq<seq<Byte>>): seq<Byte>
    requires forall p :: p in payloads ==> |p| < 65536
  {
    if payloads == [] then [] else Frame(payloads[0]) + Frames(payloads[1..])
  }

  function Messages(payloads: seq<seq<Byte>>): seq<Msg> {
    if payloads == [] then [] else [Msg(true, 2, payloads[0])] + Messages(payloads[1..])
  }

  /** The stream of frames determines the payloads. */
  lemma {:induction false} FramesDecode(payloads: seq<seq<Byte>>)
    requires forall p :: p in payloads ==> |p| < 65536
    ensures ParseAll(Frames(payloads)) == Messages(payloads)
  {
    if payloads != [] {
      FrameParses(payloads[0], Frames(payloads[1..]));
      FramesDecode(payloads[1..]);
    }
  }

  // ---- The client's reader ----

  function Flat(chunks: seq<seq<Byte>>): seq<Byte> {
    if chunks == [] then [] else chunks[0] + Flat(chunks[1..])
  }

  /** `BufferedSocket`: bytes left over from the handshake, then whatever
      chunks the network delivers, then end of stream. */
  class BufferedSocket {
    var buf: seq<Byte>
    var chunks: seq<seq<Byte>>

    ghost predicate Valid()
      reads this
    {
      forall c :: c in chunks ==> c != []
    }

    ghost function Stream(): seq<Byte>
      reads this
    {
      buf + Flat(chunks)
    }

    constructor (extra: seq<Byte>, arriving: seq<seq<Byte>>)
      requires forall c :: c in arriving ==> c != []
      ensures Valid() && Stream() == extra + Flat(arriving)
    {
      buf, chunks := extra, arriving;
    }

    method Recv(size: nat) returns (out: seq<Byte>)
      requires Valid() && size > 0
      modifies this
      ensures Valid() && old(Stream()) == out + Stream() && |out| <= size
      ensures out == [] <==> old(Stream()) == []
    {
      if buf != [] {
        var k := Min(size, |buf|);
        out := buf[..k];
        assert buf == buf[..k] + buf[k..];
        buf := buf[k..];
        return;
      }
      if chunks == [] {
        return [];
      }
      var first, rest := chunks[0], chunks[1..];
      assert first in chunks && forall c :: c in rest ==> c in chunks;
      var k := Min(size, |first|);
      out := first[..k];
      assert first == out + first[k..];
      assert first + Flat(rest) == out + (first[k..] + Flat(rest));
      chunks := if k == |first| then rest else [first[k..]] + rest;
    }

    /** `recv_exact`. */
    method RecvExact(size: nat) returns (r: Option<seq<Byte>>)
      requires Valid()
      modifies this
      ensures Valid()
      ensures if |old(Stream())| < size then r == None
              else r == Some(old(Stream())[..size]) && Stream() == old(Stream())[size..]
    {
      var got: seq<Byte> := [];
      while |got| < size
        invariant Valid() && |got| <= size && old(Stream()) == got + Stream()
        decreases size - |got|
      {
        var chunk := Recv(size - |got|);
        if chunk == [] {
          return None;
        }
        got := got + chunk;
      }
      return Some(got);
    }

    /** `recv_frame`. */
    method RecvFrame() returns (r: Option<Msg>)
      requires Valid()
      modifies this
      ensures Valid()
      ensures match Parse(old(Stream()))
              case None => r == None
              case Some((m, rest)) => r == Some(m) && Stream() == rest
    {
      var head := RecvExact(2);
      if head.None? {
        return None;
      }
      var code := Len7(head.value[1]);
      var length := code;
      if code == 126 || code == 127 {
        var raw := RecvExact(if code == 126 then 2 else 8);
        if raw.None? {
          return None;
        }
        length := BigEndian(raw.value);
      }
      r := RecvBody(Top(head.value[0]), Opcode(head.value[0]), Top(head.value[1]), length);
    }

    method RecvBody(fin: bool, opcode: Byte, masked: bool, length: nat) returns (r: Option<Msg>)
      requires Valid()
      modifies this
      ensures Valid()
      ensures match ParseBody(fin, opcode, masked, length, old(Stream()))
              case None => r == None
              case Some((m, rest)) => r == Some(m) && Stream() == rest
    {
      var key: seq<Byte> := [];
      ghost var s := Stream();
      if masked {
        var k := RecvExact(4);
        if k.None? {
          return None;
        }
        key := k.value;
        assert s[4..][..] == s[4..];
      }
      var payload := RecvExact(length);
      if payload.None? {
        return None;
      }
      if masked {
        assert s[4..][..length] == s[4..4 + length] && s[4..][length..] == s[4 + length..];
        return Some(Msg(fin, opcode, Masked(payload.value, key)));
      }
      return Some(Msg(fin, opcode, payload.value));
    }

    /** Reading frames until the stream ends or a close frame comes, as the
        client's loops do. */
    method RecvAll() returns (msgs: seq<Msg>)
      requires Valid()
      modifies this
      ensures msgs == UntilClose(ParseAll(old(Stream())))
    {
      msgs := [];
      var go := true;
      ghost var all := UntilClose(ParseAll(Stream()));
      while go
        invariant Valid()
        invariant if go then all == msgs + UntilClose(ParseAll(Stream())) else all == msgs
        decreases go, if go then |Stream()| else 0
      {
        UntilCloseStep(Stream());
        var r := RecvFrame();
        if r.None? || r.value.opcode == 8 {
          go := false;
        } else {
          Regroup(msgs, r.value, UntilClose(ParseAll(Stream())));
          msgs := msgs + [r.value];
        }
      }
    }

    static lemma Regroup(ms: seq<Msg>, m: Msg, rest: seq<Msg>)
      ensures ms + ([m] + rest) == (ms + [m]) + rest
    {
    }
  }

  /** The server's frames are no close frames. */
  lemma {:induction false} NoClose(payloads: seq<seq<Byte>>)
    ensures UntilClose(Messages(payloads)) == Messages(payloads)
  {
    if payloads != [] {
      NoClose(payloads[1..]);
      assert Messages(payloads)[1..] == Messages(payloads[1..]);
    }
  }

  /** However the server's frames are cut into chunks, the client reads back
      the payloads. */
  method ReceivePayloads(payloads: seq<seq<Byte>>, extra: seq<Byte>, arriving: seq<seq<Byte>>) returns (msgs: seq<Msg>)
    requires forall p :: p in payloads ==> |p| < 65536
    requires forall c :: c in arriving ==> c != []
    requires extra + Flat(arriving) == Frames(payloads)
    ensures msgs == Messages(payloads)
  {
    var sock := new BufferedSocket(extra, arriving);
    FramesDecode(payloads);
    NoClose(payloads);
    msgs := sock.RecvAll();
  }

  // ---- What the client writes, and the server's reader ----

  /** `send_frame` for a payload below 126 bytes, with the mask it drew. */
  function ClientFrame(opcode: Byte, payload: seq<Byte>, key: seq<Byte>): seq<Byte>
    requires |payload| < 126 && |key| == 4
  {
    [128 + opcode % 16, 128 + |payload|] + key + Masked(payload, key)
  }

  /** One slot of `frame_map`, and the bytes the kernel holds for it. */
  class FrameReader {
    const head: array<Byte>
    const key: array<Byte>
    const data: array<Byte>
    var pl: nat
    var input: seq<Byte>

    ghost predicate Valid()
      reads this
    {
      && head.Length == 2 && key.Length == 4 && 256 <= data.Length
      && key != data && head != data && head != key
    }

    /** All of the frame state is zero: the next read starts a frame. */
    ghost predicate Zero()
      requires Valid()
      reads this, head, key, data
    {
      && pl == 0
      && (forall i :: 0 <= i < 2 ==> head[i] == 0)
      && (forall i :: 0 <= i < 4 ==> key[i] == 0)
      && (forall i :: 0 <= i < data.Length ==> data[i] == 0)
    }

    /** `bufsiz` is BUFSIZ, which is at least 256. */
    constructor (bufsiz: nat, arrived: seq<Byte>)
      requires bufsiz >= 256
      ensures Valid() && Zero() && input == arrived
      ensures fresh(head) && fresh(key) && fresh(data)
    {
      head := new Byte[2](_ => 0);
      key := new Byte[4](_ => 0);
      data := new Byte[bufsiz](_ => 0);
      pl, input := 0, arrived;
    }

    /** `lower_read`: what was asked for, or all there is. */
    method LowerRead(len: nat) returns (got: seq<Byte>)
      modifies this`input
      ensures |got| == Min(len, |old(input)|) && got + input == old(input)
    {
      var n := Min(len, |input|);
      got := input[..n];
      input := input[n..];
    }

    /** `memset(frame, 0, sizeof(struct ws_frame))`. */
    method ClearFrame()
      requires Valid()
      modifies this`pl, head, key, data
      ensures Zero()
    {
      pl := 0;
      forall i | 0 <= i < 2 { head[i] := 0; }
      forall i | 0 <= i < 4 { key[i] := 0; }
      forall i | 0 <= i < data.Length { data[i] := 0; }
    }

    /** The unmasking loop. */
    method Unmask(n: nat)
      requires Valid() && n <= data.Length
      modifies data
      ensures data[..n] == Masked(old(data[..n]), key[..])
      ensures forall k :: n <= k < data.Length ==> data[k] == old(data[k])
    {
      ghost var masked := data[..n];
      for i := 0 to n
        invariant forall k :: 0 <= k < i ==> data[k] == XorByte(masked[k], key[..][k % 4])
        invariant forall k :: i <= k < data.Length ==> data[k] == old(data[k])
      {
        data[i] := XorByte(data[i], key[i % 4]);
      }
    }

    /** `ws_read` from between two frames, for lengths that need no extension.
        It returns the unmasked payload with a NUL after it and leaves the
        frame state zero; a close frame or the end of input gives 0, and an
        incomplete frame -1. */
    method WsRead(dst: array<Byte>) returns (ret: int)
      requires Valid() && Zero() && dst.Length >= 126
      requires dst != head && dst != key && dst != data
      requires |input| >= 2 ==> Len7(input[1]) < 126
      modifies this, head, key, data, dst
      ensures Valid()
      ensures var s := old(input);
              if |s| == 0 then ret == 0
              else if |s| == 1 then ret == -1
              else if Opcode(s[0]) == 8 then ret == 0
              else if |s| < 6 + Len7(s[1]) then ret == -1
              else
                var n := Len7(s[1]);
                && ret == n && dst[..n] == Masked(s[6..6 + n], s[2..6]) && dst[n] == 0
                && input == s[6 + n..] && Zero()
    {
      ghost var s := input;
      var got := ReadHead();
      if got == 0 {
        return 0;
      }
      if got != 2 {
        return -1;
      }
      if Opcode(head[0]) == 8 {
        return 0;
      }
      var n := Len7(head[1]);
      pl := n;
      var body := LowerRead(4 + n);
      StoreBody(body);
      if |body| != 4 + n {
        return -1;
      }
      CutBody(s, body, input, n);
      Deliver(n, dst);
      return n;
    }

    static lemma CutBody(s: seq<Byte>, body: seq<Byte>, rest: seq<Byte>, n: nat)
      requires |s| >= 2 && |body| == 4 + n && body + rest == s[2..]
      ensures |s| >= 6 + n && body[..4] == s[2..6] && body[4..] == s[6..6 + n] && rest == s[6 + n..]
    {
      var t := s[2..];
      assert t[..4 + n] == body && t[4 + n..] == rest;
    }

    /** Unmask, terminate, hand over, and clear. */
    method Deliver(n: nat, dst: array<Byte>)
      requires Valid() && n < 126 <= dst.Length && dst != head && dst != key && dst != data
      modifies this`pl, head, key, data, dst
      ensures dst[..n] == Masked(old(data[..n]), old(key[..])) && dst[n] == 0 && Zero()
    {
      Unmask(n);
      data[n] := 0;
      forall i | 0 <= i <= n { dst[i] := data[i]; }
      assert dst[..n] == data[..n];
      ClearFrame();
    }

    method ReadHead() returns (got: nat)
      requires Valid()
      modifies this`input, head
      ensures got == Min(2, |old(input)|) && input == old(input)[got..]
      ensures got == 2 ==> head[0] == old(input)[0] && head[1] == old(input)[1]
    {
      var first := LowerRead(2);
      forall i | 0 <= i < |first| { head[i] := first[i]; }
      got := |first|;
    }

    /** The read into `mk` that runs on into `data`. */
    method StoreBody(body: seq<Byte>)
      requires Valid() && |body| < 130
      modifies key, data
      ensures |body| >= 4 ==> key[..] == body[..4] && data[..|body| - 4] == body[4..]
    {
      forall i | 0 <= i < 4 && i < |body| { key[i] := body[i]; }
      forall i | 0 <= i < |body| - 4 { data[i] := body[4 + i]; }
    }
  }

  /** What the client sends in one frame of 1 to 125 bytes, and any opcode but
      close, the server reads back unmasked, ready for the next frame. */
  method ServerReadsClientFrame(opcode: Byte, payload: seq<Byte>, key: seq<Byte>, rest: seq<Byte>,
                                r: FrameReader, dst: array<Byte>) returns (ret: int)
    requires 1 <= |payload| <= 125 && |key| == 4 && opcode % 16 != 8
    requires r.Valid() && r.Zero() && r.input == ClientFrame(opcode, payload, key) + rest
    requires dst.Length >= 126 && dst != r.head && dst != r.key && dst != r.data
    modifies r, r.head, r.key, r.data, dst
    ensures ret == |payload| && dst[..ret] == payload && dst[ret] == 0
    ensures r.Valid() && r.Zero() && r.input == rest
  {
    MaskTwice(payload, key);
    ClientFrameParts(opcode, payload, key, rest);
    ret := r.WsRead(dst);
  }

  lemma ClientFrameParts(opcode: Byte, payload: seq<Byte>, key: seq<Byte>, rest: seq<Byte>)
    requires |payload| <= 125 && |key| == 4
    ensures var s, n := ClientFrame(opcode, payload, key) + rest, |payload|;
            && |s| >= 6 + n && Opcode(s[0]) == opcode % 16 && Len7(s[1]) == n
            && s[2..6] == key && s[6..6 + n] == Masked(payload, key) && s[6 + n..] == rest
  {
    var s, h := ClientFrame(opcode, payload, key) + rest, [128 + opcode % 16, 128 + |payload|];
    assert s[0] == h[0] && s[1] == h[1];
    FlaggedByte(opcode % 16, 16);
    FlaggedByte(|payload|, 128);
    assert s == h + key + Masked(payload, key) + rest;
  }

  /** The top bit does not disturb what is below it. */
  lemma FlaggedByte(n: int, m: int)
    requires 0 <= n < m && (m == 16 || m == 128)
    ensures (128 + n) % m == n
  {
  }

  // ---- An example of section 5.7 of RFC 6455 ----

  /** The length of 256 bytes of binary data is written as 0x01 0x00. */
  lemma BinaryFrame(data: seq<Byte>)
    requires |data| == 256
    ensures Frame(data) == [0x82, 0x7e, 0x01, 0x00] + data
    ensures BigEndian([0x01, 0x00]) == 256
  {
    TwoBytes(256);
  }
}
