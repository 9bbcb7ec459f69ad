// `b64_ntop`: base64 into a caller's buffer, against a decoder by section 4 of
// RFC 4648.
module Base64 {
  // Masks and shifts of non-negative numbers are written as division and
  // remainder by powers of two, and OR of disjoint fields as a sum.
  import Fifo
  import Text
  import opened Wrappers

  type Byte = Fifo.Byte

  // ---- The alphabet (table 1 of RFC 4648) ----

  type Sextet = n: int | 0 <= n < 64

  function B64Char(v: Sextet): (c: char)
    ensures c != '=' && c != '\0'
  {
    if v < 26 then ('A' as int + v) as char
    else if v < 52 then ('a' as int + v - 26) as char
    else if v < 62 then ('0' as int + v - 52) as char
    else if v == 62 then '+' else '/'
  }

  function B64Value(c: char): Option<Sextet> {
    if 'A' <= c <= 'Z' then Some(c as int - 'A' as int)
    else if 'a' <= c <= 'z' then Some(c as int - 'a' as int + 26)
    else if '0' <= c <= '9' then Some(c as int - '0' as int + 52)
    else if c == '+' then Some(62)
    else if c == '/' then Some(63)
    else None
  }

  lemma AlphabetInverts(v: Sextet)
    ensures B64Value(B64Char(v)) == Some(v)
  {
  }

  // ---- Groups of three bytes, as the standard draws them ----

  function First(a: Byte): Sextet { a / 4 }
  function Second(a: Byte, b: Byte): Sextet { a % 4 * 16 + b / 16 }
  function Third(b: Byte, c: Byte): Sextet { b % 16 * 4 + c / 64 }
  function Fourth(c: Byte): Sextet { c % 64 }

  function Byte1(p: Sextet, q: Sextet): Byte { p * 4 + q / 16 }
  function Byte2(q: Sextet, r: Sextet): Byte { q % 16 * 16 + r / 4 }
  function Byte3(r: Sextet, v: Sextet): Byte { r % 4 * 64 + v }

  lemma Regroup(a: Byte, b: Byte, c: Byte)
    ensures Byte1(First(a), Second(a, b)) == a
    ensures Byte2(Second(a, b), Third(b, c)) == b
    ensures Byte3(Third(b, c), Fourth(c)) == c
    ensures Second(a, 0) % 16 == 0 && Third(b, 0) % 4 == 0
  {
    SecondParts(a, b);
    ThirdParts(b, c);
    SecondParts(a, 0);
    ThirdParts(b, 0);
  }

  lemma SecondParts(a: Byte, b: Byte)
    ensures Second(a, b) / 16 == a % 4 && Second(a, b) % 16 == b / 16
  {
    Carry16(a % 4, b / 16);
  }

  lemma ThirdParts(b: Byte, c: Byte)
    ensures Third(b, c) / 4 == b % 16 && Third(b, c) % 4 == c / 64
  {
    Carry4(b % 16, c / 64);
  }

  /** The two parts of a sum come apart again. */
  lemma Carry16(hi: int, lo: int)
    requires 0 <= lo < 16
    ensures (hi * 16 + lo) / 16 == hi && (hi * 16 + lo) % 16 == lo
  {
  }

  lemma Carry4(hi: int, lo: int)
    requires 0 <= lo < 4
    ensures (hi * 4 + lo) / 4 == hi && (hi * 4 + lo) % 4 == lo
  {
  }

  function Groups(n: nat): nat { (n + 2) / 3 }
  function ByteAt(s: seq<Byte>, i: nat): Byte { if i < |s| then s[i] else 0 }

  /** Character `m` of group `g`: padding where the group has no byte for it. */
  function CharAt(s: seq<Byte>, g: nat, m: nat): char
    requires g < Groups(|s|) && m < 4
  {
    var i := 3 * g;
    if m == 0 then B64Char(First(s[i]))
    else if m == 1 then B64Char(Second(s[i], ByteAt(s, i + 1)))
    else if m == 2 then (if i + 1 < |s| then B64Char(Third(s[i+1], ByteAt(s, i + 2))) else '=')
    else if i + 2 < |s| then B64Char(Fourth(s[i+2])) else '='
  }

  /** Base64 with padding. */
  function Encode(s: seq<Byte>): (t: string)
    ensures |t| == 4 * Groups(|s|)
  {
    seq(4 * Groups(|s|), k requires 0 <= k < 4 * Groups(|s|) => CharAt(s, k / 4, k % 4))
  }

  /** One group of four characters; only the last group may be padded, and
      never over stray bits. */
  function DecodeGroup(c0: char, c1: char, c2: char, c3: char, last: bool): Option<seq<Byte>> {
    match (B64Value(c0), B64Value(c1))
    case (Some(p), Some(q)) =>
      if last && c3 == '=' then
        if c2 == '=' then (if q % 16 == 0 then Some([Byte1(p, q)]) else None)
        else (match B64Value(c2)
          case Some(r) => if r % 4 == 0 then Some([Byte1(p, q), Byte2(q, r)]) else None
          case None => None)
      else (match (B64Value(c2), B64Value(c3))
        case (Some(r), Some(v)) => Some([Byte1(p, q), Byte2(q, r), Byte3(r, v)])
        case _ => None)
    case _ => None
  }

  /** A strict decoder. */
  function Decode(t: string): Option<seq<Byte>>
    decreases |t|
  {
    if t == "" then Some([])
    else if |t| < 4 then None
    else match (DecodeGroup(t[0], t[1], t[2], t[3], |t| == 4), Decode(t[4..]))
      case (Some(group), Some(rest)) => Some(group + rest)
      case _ => None
  }

  lemma ThreeInvert(p: Sextet, q: Sextet, r: Sextet, v: Sextet, last: bool)
    ensures DecodeGroup(B64Char(p), B64Char(q), B64Char(r), B64Char(v), last) ==
            Some([Byte1(p, q), Byte2(q, r), Byte3(r, v)])
  {
    AlphabetInverts(p);
    AlphabetInverts(q);
    AlphabetInverts(r);
    AlphabetInverts(v);
  }

  lemma TwoInvert(p: Sextet, q: Sextet, r: Sextet)
    requires r % 4 == 0
    ensures DecodeGroup(B64Char(p), B64Char(q), B64Char(r), '=', true) == Some([Byte1(p, q), Byte2(q, r)])
  {
    AlphabetInverts(p);
    AlphabetInverts(q);
    AlphabetInverts(r);
    NoPad(r);
  }

  lemma NoPad(v: Sextet)
    ensures B64Char(v) != '=' && B64Char(v) != '\0'
  {
  }

  lemma OneInvert(p: Sextet, q: Sextet)
    requires q % 16 == 0
    ensures DecodeGroup(B64Char(p), B64Char(q), '=', '=', true) == Some([Byte1(p, q)])
  {
    AlphabetInverts(p);
    AlphabetInverts(q);
  }

  lemma EncodeStep(s: seq<Byte>)
    requires |s| >= 3
    ensures Encode(s) == [CharAt(s, 0, 0), CharAt(s, 0, 1), CharAt(s, 0, 2), CharAt(s, 0, 3)] + Encode(s[3..])
  {
    forall k | 4 <= k < |Encode(s)| ensures Encode(s)[k] == Encode(s[3..])[k - 4] {
      EncodeLater(s, k);
    }
  }

  lemma EncodeLater(s: seq<Byte>, k: nat)
    requires |s| >= 3 && 4 <= k < |Encode(s)|
    ensures Encode(s)[k] == Encode(s[3..])[k - 4]
  {
    assert k / 4 == (k - 4) / 4 + 1 && k % 4 == (k - 4) % 4;
    CharLater(s, k / 4, k % 4);
  }

  lemma CharLater(s: seq<Byte>, g: nat, m: nat)
    requires |s| >= 3 && 1 <= g < Groups(|s|) && m < 4
    ensures CharAt(s, g, m) == CharAt(s[3..], g - 1, m)
  {
  }

  /** Every byte string is recovered. */
  lemma {:induction false} RoundTrip(s: seq<Byte>)
    ensures Decode(Encode(s)) == Some(s)
  {
    if s == [] {
      assert Encode(s) == "";
    } else {
      var t, head, rest := Encode(s), Head3(s), s[|Head3(s)|..];
      FirstGroup(s);
      if |s| >= 3 {
        EncodeStep(s);
      }
      assert t[4..] == Encode(rest);
      RoundTrip(rest);
      DecodeStep(t, head, rest);
      assert s == head + rest;
    }
  }

  lemma DecodeStep(t: string, head: seq<Byte>, rest: seq<Byte>)
    requires |t| >= 4 && DecodeGroup(t[0], t[1], t[2], t[3], |t| == 4) == Some(head) && Decode(t[4..]) == Some(rest)
    ensures Decode(t) == Some(head + rest)
  {
  }

  function Head3(s: seq<Byte>): seq<Byte> { s[..if |s| < 3 then |s| else 3] }

  lemma FirstGroup(s: seq<Byte>)
    requires s != []
    ensures var t := Encode(s);
            DecodeGroup(t[0], t[1], t[2], t[3], |t| == 4) == Some(Head3(s))
  {
    var t := Encode(s);
    assert t[0] == CharAt(s, 0, 0) && t[1] == CharAt(s, 0, 1) && t[2] == CharAt(s, 0, 2) && t[3] == CharAt(s, 0, 3);
    if |s| == 1 {
      GroupOfOne(s);
    } else if |s| == 2 {
      GroupOfTwo(s);
    } else {
      GroupOfThree(s, |t| == 4);
    }
  }

  lemma GroupOfOne(s: seq<Byte>)
    requires |s| == 1
    ensures DecodeGroup(CharAt(s, 0, 0), CharAt(s, 0, 1), CharAt(s, 0, 2), CharAt(s, 0, 3), true) == Some(Head3(s))
  {
    var a, b := s[0], ByteAt(s, 1);
    var q: Sextet := Second(a, b);
    assert q % 16 == 0 && Byte1(First(a), q) == a by { Regroup(a, b, b); }
    OneInvert(First(a), q);
    assert Head3(s) == [s[0]];
  }

  lemma GroupOfTwo(s: seq<Byte>)
    requires |s| == 2
    ensures DecodeGroup(CharAt(s, 0, 0), CharAt(s, 0, 1), CharAt(s, 0, 2), CharAt(s, 0, 3), true) == Some(Head3(s))
  {
    Regroup(s[0], s[1], 0);
    TwoInvert(First(s[0]), Second(s[0], s[1]), Third(s[1], 0));
    assert Head3(s) == [s[0], s[1]];
  }

  lemma GroupOfThree(s: seq<Byte>, last: bool)
    requires |s| >= 3
    ensures DecodeGroup(CharAt(s, 0, 0), CharAt(s, 0, 1), CharAt(s, 0, 2), CharAt(s, 0, 3), last) == Some(Head3(s))
  {
    Regroup(s[0], s[1], s[2]);
    ThreeInvert(First(s[0]), Second(s[0], s[1]), Third(s[1], s[2]), Fourth(s[2]), last);
    assert Head3(s) == [s[0], s[1], s[2]];
  }

  function Padding(n: nat): nat { if n % 3 == 0 then 0 else 3 - n % 3 }

  /** The padding is exactly what the length of the input demands. */
  lemma PaddingExact(s: seq<Byte>)
    ensures forall k :: 0 <= k < |Encode(s)| ==>
              (Encode(s)[k] == '=' <==> k >= |Encode(s)| - Padding(|s|)) && Encode(s)[k] != '\0'
  {
    forall k | 0 <= k < |Encode(s)|
      ensures (Encode(s)[k] == '=' <==> k >= |Encode(s)| - Padding(|s|)) && Encode(s)[k] != '\0'
    {
      PaddingAt(s, k / 4, k % 4);
    }
  }

  lemma PaddingAt(s: seq<Byte>, g: nat, m: nat)
    requires g < Groups(|s|) && m < 4
    ensures CharAt(s, g, m) == '=' <==> 4 * g + m >= 4 * Groups(|s|) - Padding(|s|)
    ensures CharAt(s, g, m) != '\0'
  {
    PadPlaces(|s|, g, m);
    CharShown(s, g, m);
  }

  /** A character is padding exactly if its byte is missing. */
  lemma CharShown(s: seq<Byte>, g: nat, m: nat)
    requires g < Groups(|s|) && m < 4
    ensures CharAt(s, g, m) == '=' <==> (m == 2 && 3 * g + 1 >= |s|) || (m == 3 && 3 * g + 2 >= |s|)
    ensures CharAt(s, g, m) != '\0'
  {
    NoPad(First(s[3 * g]));
    NoPad(Second(s[3 * g], ByteAt(s, 3 * g + 1)));
    if 3 * g + 1 < |s| {
      NoPad(Third(s[3 * g + 1], ByteAt(s, 3 * g + 2)));
    }
    if 3 * g + 2 < |s| {
      NoPad(Fourth(s[3 * g + 2]));
    }
  }

  lemma PadPlaces(n: nat, g: nat, m: nat)
    requires g < Groups(n) && m < 4
    ensures (m == 2 && 3 * g + 1 >= n) || (m == 3 && 3 * g + 2 >= n) <==> 4 * g + m >= 4 * Groups(n) - Padding(n)
  {
  }

  // ---- The code ----

  function Bits24(a: Byte, b: Byte, c: Byte): int { a * 65536 + b * 256 + c }

  lemma Split64(q: int, r: int)
    requires 0 <= r < 64
    ensures (q * 64 + r) / 64 == q && (q * 64 + r) % 64 == r
  {
  }

  lemma ShiftTwice(w: nat)
    ensures w / 4096 == w / 64 / 64 && w / 262144 == w / 64 / 64 / 64
  {
  }

  /** The masks and shifts of lines 63-72 pick the sextets. */
  lemma Picks(a: Byte, b: Byte, c: Byte)
    ensures var w := Bits24(a, b, c);
            && w / 262144 % 64 == First(a) && w / 4096 % 64 == Second(a, b)
            && w / 64 % 64 == Third(b, c) && w % 64 == Fourth(c)
  {
    var q1 := a * 1024 + b * 4 + c / 64;
    var q2 := a * 16 + b / 16;
    Split64(q1, Fourth(c));
    Split64(q2, Third(b, c));
    Split64(a / 4, Second(a, b));
    ShiftTwice(Bits24(a, b, c));
    assert Bits24(a, b, c) == q1 * 64 + Fourth(c);
    assert q1 == q2 * 64 + Third(b, c);
    assert q2 == a / 4 * 64 + Second(a, b);
  }

  /** `b64_ntop`.  It writes exactly 4*ceil(n/3) characters and a NUL, or
      fails without writing. */
  method B64Ntop(src: seq<Byte>, target: array?<char>, targetSize: nat) returns (ret: int)
    requires target != null ==> targetSize <= target.Length
    modifies if target == null then {} else {target}
    ensures var size := Groups(|src|) * 4 + 1;
            if target == null then ret == size
            else if targetSize < size then ret == -1 && target[..] == old(target[..])
            else
              && ret == size - 1 && target[..ret] == Encode(src) && target[ret] == '\0'
              && target[size..] == old(target[size..])
  {
    var size := (|src| + 2) / 3 * 4 + 1;
    if target == null {
      return size;
    }
    if targetSize < size {
      return -1;
    }
    var i, j := 0, 0;
    ghost var g, t := 0, Encode(src);
    while i < |src|
      invariant 0 <= g && i == 3 * g && j == 4 * g && g <= Groups(|src|)
      invariant forall k :: 0 <= k < j ==> target[k] == t[k]
      invariant forall k :: size <= k < target.Length ==> target[k] == old(target[k])
      decreases |src| - i
    {
      GroupAt(src, g);
      PutGroup(src, t, g, i, target, j);
      i, j, g := i + 3, j + 4, g + 1;
    }
    target[j] := '\0';
    ret := j;
  }

  /** `bit24` and the sextets picked from it. */
  method PickChars(a: Byte, hasB: bool, b: Byte, hasC: bool, c: Byte) returns (c0: char, c1: char, c2: char, c3: char)
    requires (hasB || b == 0) && (hasC || c == 0)
    ensures c0 == B64Char(First(a)) && c1 == B64Char(Second(a, b))
    ensures c2 == (if hasB then B64Char(Third(b, c)) else '=') && c3 == (if hasC then B64Char(Fourth(c)) else '=')
  {
    var bit24: int := (a as int) * 65536;
    if hasB {
      bit24 := bit24 + (b as int) * 256;
    }
    if hasC {
      bit24 := bit24 + c;
    }
    assert bit24 == Bits24(a, b, c);
    Picks(a, b, c);
    c0 := B64Char(bit24 / 262144 % 64);
    c1 := B64Char(bit24 / 4096 % 64);
    c2 := if hasB then B64Char(bit24 / 64 % 64) else '=';
    c3 := if hasC then B64Char(bit24 % 64) else '=';
  }

  /** The four characters of group `g`, which starts at byte `i`. */
  method PickGroup(src: seq<Byte>, ghost g: nat, i: nat) returns (c0: char, c1: char, c2: char, c3: char)
    requires i == 3 * g < |src|
    ensures c0 == CharAt(src, g, 0) && c1 == CharAt(src, g, 1) && c2 == CharAt(src, g, 2) && c3 == CharAt(src, g, 3)
  {
    c0, c1, c2, c3 := PickChars(src[i], i + 1 < |src|, ByteAt(src, i + 1), i + 2 < |src|, ByteAt(src, i + 2));
  }

  lemma EncodeAt(src: seq<Byte>, g: nat, m: nat)
    requires g < Groups(|src|) && m < 4
    ensures Encode(src)[4 * g + m] == CharAt(src, g, m)
  {
    Carry4(g, m);
    assert 4 * g + m == g * 4 + m;
  }

  lemma GroupAt(src: seq<Byte>, g: nat)
    requires g < Groups(|src|)
    ensures var t, j := Encode(src), 4 * g;
            && t[j] == CharAt(src, g, 0) && t[j+1] == CharAt(src, g, 1)
            && t[j+2] == CharAt(src, g, 2) && t[j+3] == CharAt(src, g, 3)
  {
    EncodeAt(src, g, 0);
    EncodeAt(src, g, 1);
    EncodeAt(src, g, 2);
    EncodeAt(src, g, 3);
  }

  /** One turn of the loop. */
  method PutGroup(src: seq<Byte>, ghost t: string, ghost g: nat, i: nat, target: array<char>, j: nat)
    requires i == 3 * g < |src| && j == 4 * g && j + 4 < target.Length && |t| == 4 * Groups(|src|)
    requires t[j] == CharAt(src, g, 0) && t[j+1] == CharAt(src, g, 1) && t[j+2] == CharAt(src, g, 2) && t[j+3] == CharAt(src, g, 3)
    modifies target
    ensures forall k :: j <= k < j + 4 ==> target[k] == t[k]
    ensures forall k :: 0 <= k < target.Length && !(j <= k < j + 4) ==> target[k] == old(target[k])
  {
    var c0, c1, c2, c3 := PickGroup(src, g, i);
    PutFour([c0, c1, c2, c3], target, j);
    Four(t, j, target[j..j + 4]);
  }

  lemma Four(t: string, j: nat, u: string)
    requires j + 4 <= |t| && |u| == 4
    requires u[0] == t[j] && u[1] == t[j+1] && u[2] == t[j+2] && u[3] == t[j+3]
    ensures forall k :: j <= k < j + 4 ==> u[k - j] == t[k]
  {
  }

  method PutFour(c: string, target: array<char>, j: nat)
    requires |c| == 4 && j + 4 < target.Length
    modifies target
    ensures target[j..j + 4] == c
    ensures forall k :: 0 <= k < target.Length && !(j <= k < j + 4) ==> target[k] == old(target[k])
  {
    target[j], target[j+1], target[j+2], target[j+3] := c[0], c[1], c[2], c[3];
  }

  // ---- Table 1 and section 10 of RFC 4648 ----

  const ALPHABET := Text.UPPER_LETTERS + Text.LOWER_LETTERS + Text.DIGITS + "+/"

  lemma Alphabet(v: Sextet)
    ensures |ALPHABET| == 64 && B64Char(v) == ALPHABET[v]
  {
    if v < 26 {
      Text.UpperLetter(v);
    } else if v < 52 {
      Text.LowerLetter(v - 26);
    } else if v < 62 {
      Text.DigitChar(v - 52);
    }
  }

  lemma OneGroup(s: seq<Byte>, t: string)
    requires 1 <= |s| <= 3 && |t| == 4
    requires CharAt(s, 0, 0) == t[0] && CharAt(s, 0, 1) == t[1] && CharAt(s, 0, 2) == t[2] && CharAt(s, 0, 3) == t[3]
    ensures Encode(s) == t
  {
    GroupAt(s, 0);
    var e := Encode(s);
    assert e == [e[0], e[1], e[2], e[3]] && t == [t[0], t[1], t[2], t[3]];
  }

  lemma TestVectors()
    ensures Encode([0x66]) == "Zg=="
    ensures Encode([0x66, 0x6f]) == "Zm8="
    ensures Encode([0x66, 0x6f, 0x6f]) == "Zm9v"
  {
    OneGroup([0x66], "Zg==");
    OneGroup([0x66, 0x6f], "Zm8=");
    OneGroup([0x66, 0x6f, 0x6f], "Zm9v");
  }
}
