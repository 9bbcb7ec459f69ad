// Percent-encoding and JSON escaping into caller-supplied buffers.
module Escape {
  import opened Text
  import opened Wrappers

  // ---- Percent-encoding ----

  predicate Unreserved(c: char) {
    IsAlnum(c) || c == '-' || c == '_' || c == '.' || c == '~'
  }

  function EncodeChar(c: char): (r: string)
    requires IsByte(c)
    ensures 1 <= |r| <= 3
  {
    if Unreserved(c) then [c]
    else ['%', UpperHexDigit(c as int / 16), UpperHexDigit(c as int % 16)]
  }

  function UrlEncode(s: string): string
    requires Bytes(s)
  {
    if s == "" then "" else EncodeChar(s[0]) + UrlEncode(s[1..])
  }

  /** What `axil_url_decode` makes of a text: '+' is a space, '%' with two
      hexadecimal digits is a byte, and everything else stands for itself. */
  function UrlDecode(s: string): (r: string)
    ensures |r| <= |s|
  {
    if s == "" then ""
    else if s[0] == '+' then " " + UrlDecode(s[1..])
    else if s[0] == '%' && |s| >= 3 && IsHex(s[1]) && IsHex(s[2]) then
      [HexByte(s[1], s[2])] + UrlDecode(s[3..])
    else [s[0]] + UrlDecode(s[1..])
  }

  lemma {:induction false} UrlEncodeConcat(s: string, t: string)
    requires Bytes(s) && Bytes(t)
    ensures Bytes(s + t) && UrlEncode(s + t) == UrlEncode(s) + UrlEncode(t)
  {
    if s == "" {
      assert s + t == t;
    } else {
      var e, u, v := EncodeChar(s[0]), UrlEncode(s[1..]), UrlEncode(t);
      UrlEncodeConcat(s[1..], t);
      assert (s + t)[0] == s[0] && (s + t)[1..] == s[1..] + t;
      assert e + (u + v) == (e + u) + v;
    }
  }

  lemma {:induction false} UrlRoundTrip(s: string)
    requires Bytes(s)
    ensures UrlDecode(UrlEncode(s)) == s
  {
    if s != "" {
      var e := EncodeChar(s[0]);
      var rest := UrlEncode(s[1..]);
      assert UrlEncode(s)[|e|..] == rest;
      UrlRoundTrip(s[1..]);
      if !Unreserved(s[0]) {
        assert UrlEncode(s)[1] == e[1] && UrlEncode(s)[2] == e[2];
        assert HexByte(e[1], e[2]) == s[0];
      }
    }
  }

  predicate Plain(c: char) { Unreserved(c) || c == '%' }

  lemma {:induction false} UrlEncodeAlphabet(s: string)
    requires Bytes(s)
    ensures forall k :: 0 <= k < |UrlEncode(s)| ==> Plain(UrlEncode(s)[k])
  {
    if s != "" {
      UrlEncodeAlphabet(s[1..]);
    }
  }

  /** The longest prefix of `s` that `axil_url_encode` writes into `size` bytes
      is `s[..k]`. */
  predicate UrlPrefix(s: string, k: nat, size: nat)
    requires Bytes(s) && k <= |s|
  {
    && (k < |s| ==> |UrlEncode(s[..k])| + 4 >= size)
    && (k > 0 ==> |UrlEncode(s[..k-1])| + 4 < size)
  }

  /** `axil_url_encode`: whole escapes only, then a NUL. */
  method AxilUrlEncode(src: string, dst: array<char>) returns (j: nat, ghost k: nat)
    requires CText(src) && dst.Length >= 1
    modifies dst
    ensures k <= |src| && UrlPrefix(src, k, dst.Length)
    ensures j < dst.Length && dst[..j] == UrlEncode(src[..k]) && dst[j] == '\0'
  {
    j := 0;
    var i := 0;
    while i < |src| && j + 4 < dst.Length
      invariant i <= |src| && j < dst.Length && (i > 0 ==> j < dst.Length - 1)
      invariant dst[..j] == UrlEncode(src[..i])
      invariant i > 0 ==> |UrlEncode(src[..i-1])| + 4 < dst.Length
    {
      var c := src[i];
      assert src[..i+1] == src[..i] + [c];
      UrlEncodeConcat(src[..i], [c]);
      assert UrlEncode([c]) == EncodeChar(c);
      j := PutEncoded(c, dst, j);
      i := i + 1;
    }
    dst[j] := '\0';
    k := i;
  }

  /** The two branches of the encoding loop; snprintf adds a NUL. */
  method PutEncoded(c: char, dst: array<char>, j: nat) returns (n: nat)
    requires IsByte(c) && j + 4 < dst.Length
    modifies dst
    ensures n == j + |EncodeChar(c)| && dst[..n] == old(dst[..j]) + EncodeChar(c)
  {
    if Unreserved(c) {
      dst[j] := c;
      n := j + 1;
    } else {
      dst[j], dst[j+1], dst[j+2], dst[j+3] :=
        '%', UpperHexDigit(c as int / 16), UpperHexDigit(c as int % 16), '\0';
      n := j + 3;
    }
  }

  /** The byte that `axil_url_decode` writes at `i`, and where it goes on. */
  function DecodeAt(s: string, i: nat): (r: (char, nat))
    requires i < |s|
    ensures i < r.1 <= |s|
  {
    if s[i] == '+' then (' ', i + 1)
    else if s[i] == '%' && i + 2 < |s| && IsHex(s[i+1]) && IsHex(s[i+2]) then (HexByte(s[i+1], s[i+2]), i + 3)
    else (s[i], i + 1)
  }

  lemma DecodeStep(s: string, i: nat)
    requires i < |s|
    ensures UrlDecode(s[i..]) == [DecodeAt(s, i).0] + UrlDecode(s[DecodeAt(s, i).1..])
  {
    var t := s[i..];
    assert t[1..] == s[i+1..];
    if |t| >= 3 {
      assert t[3..] == s[i+3..] && t[1] == s[i+1] && t[2] == s[i+2];
    }
  }

  /** `axil_url_decode`: cut only at the end of the buffer. */
  method AxilUrlDecode(src: string, dst: array<char>) returns (n: nat)
    modifies dst
    ensures dst.Length == 0 ==> n == 0
    ensures dst.Length > 0 ==>
      n == (if |UrlDecode(src)| < dst.Length then |UrlDecode(src)| else dst.Length - 1) &&
      dst[..n] == UrlDecode(src)[..n] && dst[n] == '\0'
  {
    if dst.Length == 0 {
      return 0;
    }
    ghost var rest;
    n, rest := DecodeInto(src, dst);
    assert UrlDecode(src)[..n] == dst[..n];
    dst[n] := '\0';
  }

  /** The decoding loop; `rest` is what no longer fits. */
  method DecodeInto(src: string, dst: array<char>) returns (n: nat, ghost rest: string)
    requires dst.Length > 0
    modifies dst
    ensures n < dst.Length && UrlDecode(src) == dst[..n] + rest
    ensures rest != "" ==> n + 1 == dst.Length
  {
    n := 0;
    var i := 0;
    rest := UrlDecode(src);
    assert src[0..] == src;
    while i < |src| && n + 1 < dst.Length
      invariant 0 <= i <= |src| && n < dst.Length
      invariant rest == UrlDecode(src[i..]) && UrlDecode(src) == dst[..n] + rest
    {
      ghost var done := dst[..n];
      DecodeStep(src, i);
      i := DecodeOne(src, i, dst, n);
      rest := UrlDecode(src[i..]);
      Assoc(done, [dst[n]], rest);
      assert dst[..n+1] == done + [dst[n]];
      n := n + 1;
    }
  }

  method DecodeOne(src: string, i: nat, dst: array<char>, n: nat) returns (next: nat)
    requires i < |src| && n < dst.Length
    modifies dst
    ensures (dst[n], next) == DecodeAt(src, i) && dst[..n] == old(dst[..n])
  {
    if src[i] == '+' {
      dst[n] := ' ';
      return i + 1;
    }
    if src[i] == '%' && i + 2 < |src| {
      var hi, lo := HexDigitValue(src[i+1]), HexDigitValue(src[i+2]);
      if hi >= 0 && lo >= 0 {
        dst[n] := (hi * 16 + lo) as char;
        return i + 3;
      }
    }
    dst[n] := src[i];
    return i + 1;
  }

  /** Encoding into a buffer of any size and decoding what was written gives
      back a prefix of the input, and all of it when there is room. */
  lemma EncodeDecodePrefix(s: string, k: nat, size: nat)
    requires CText(s) && k <= |s| && UrlPrefix(s, k, size)
    ensures UrlDecode(UrlEncode(s[..k])) == s[..k]
    ensures size > |UrlEncode(s)| + 4 ==> k == |s|
  {
    UrlRoundTrip(s[..k]);
    UrlEncodePrefix(s, k);
  }

  lemma UrlEncodePrefix(s: string, k: nat)
    requires Bytes(s) && k <= |s|
    ensures |UrlEncode(s[..k])| <= |UrlEncode(s)|
  {
    UrlEncodeConcat(s[..k], s[k..]);
    assert s[..k] + s[k..] == s;
  }

  // ---- JSON strings ----

  function JsonChar(c: char): (r: string)
    requires IsByte(c)
    ensures 1 <= |r| <= 6
  {
    if ShortEscape(c) then ['\\', Letter(c)]
    else if LongEscape(c) then ['\\', 'u', '0', '0', LowerHexDigit(c as int / 16), LowerHexDigit(c as int % 16)]
    else [c]
  }

  /** Written as a backslash and a letter. */
  predicate ShortEscape(c: char) { c == '"' || c == '\\' || c == '\n' || c == '\r' || c == '\t' }

  function Letter(c: char): char {
    if c == '\n' then 'n' else if c == '\r' then 'r' else if c == '\t' then 't' else c
  }

  /** Written as \u00XX. */
  predicate LongEscape(c: char) { c as int < 0x20 && !ShortEscape(c) }

  function JsonEscape(s: string): string
    requires Bytes(s)
  {
    if s == "" then "" else JsonChar(s[0]) + JsonEscape(s[1..])
  }

  /** A reader for the inside of a JSON string by section 7 of RFC 8259: it
      rejects bare quotes, control characters and unknown escapes. */
  function JsonRead(s: string): Option<string>
    decreases |s|
  {
    if s == "" then Some("")
    else if s[0] == '"' || s[0] as int < 0x20 then None
    else if s[0] != '\\' then Cons(s[0], JsonRead(s[1..]))
    else if |s| < 2 then None
    else match s[1]
      case '"' => Cons('"', JsonRead(s[2..]))
      case '\\' => Cons('\\', JsonRead(s[2..]))
      case '/' => Cons('/', JsonRead(s[2..]))
      case 'b' => Cons(8 as char, JsonRead(s[2..]))
      case 'f' => Cons(12 as char, JsonRead(s[2..]))
      case 'n' => Cons('\n', JsonRead(s[2..]))
      case 'r' => Cons('\r', JsonRead(s[2..]))
      case 't' => Cons('\t', JsonRead(s[2..]))
      case 'u' =>
        if |s| < 6 || !IsHex(s[2]) || !IsHex(s[3]) || !IsHex(s[4]) || !IsHex(s[5]) then None
        else
          var n := 256 * (HexByte(s[2], s[3]) as int) + HexByte(s[4], s[5]) as int;
          if 0xD800 <= n < 0xE000 then None else Cons(n as char, JsonRead(s[6..]))
      case _ => None
  }

  /** `w` starts as `s` does, and goes on with `v` more. */
  lemma JsonEscapeStep(s: string, w: string, v: string)
    requires Bytes(s) && Bytes(w) && s != "" && w != "" && w[0] == s[0]
    requires JsonEscape(w[1..]) == JsonEscape(s[1..]) + v
    ensures JsonEscape(w) == JsonEscape(s) + v
  {
    Assoc(JsonChar(s[0]), JsonEscape(s[1..]), v);
  }

  lemma {:induction false} JsonEscapeConcat(s: string, t: string)
    requires Bytes(s) && Bytes(t)
    ensures Bytes(s + t) && JsonEscape(s + t) == JsonEscape(s) + JsonEscape(t)
  {
    if s == "" {
      assert s + t == t;
    } else {
      JsonEscapeConcat(s[1..], t);
      assert (s + t)[1..] == s[1..] + t;
      JsonEscapeStep(s, s + t, JsonEscape(t));
    }
  }

  lemma JsonCharReads(c: char, rest: string)
    requires IsByte(c)
    ensures JsonRead(JsonChar(c) + rest) == Cons(c, JsonRead(rest))
  {
    var e := JsonChar(c);
    var t := e + rest;
    assert t[|e|..] == rest;
    if LongEscape(c) {
      assert t[2] == '0' && t[3] == '0' && t[4] == e[4] && t[5] == e[5];
      assert HexByte(t[2], t[3]) as int == 0 && HexByte(t[4], t[5]) == c;
    }
  }

  /** Every byte string survives escaping and a standard reader. */
  lemma {:induction false} JsonRoundTrip(s: string)
    requires Bytes(s)
    ensures JsonRead(JsonEscape(s)) == Some(s)
  {
    if s != "" {
      JsonRoundTrip(s[1..]);
      JsonCharReads(s[0], JsonEscape(s[1..]));
      ConsFirst(s);
    }
  }

  lemma ConsFirst(s: string)
    requires s != ""
    ensures Cons(s[0], Some(s[1..])) == Some(s)
  {
    assert [s[0]] + s[1..] == s;
  }

  predicate JsonStops(s: string, k: nat, size: nat)
    requires Bytes(s) && k < |s|
  {
    var j := |JsonEscape(s[..k])|;
    j + 2 >= size || (LongEscape(s[k]) && j + 6 >= size)
  }

  /** The whole text is escaped as soon as the buffer has two spare bytes. */
  lemma JsonWhole(s: string, k: nat, size: nat)
    requires Bytes(s) && k < |s| && JsonStops(s, k, size)
    ensures size < |JsonEscape(s)| + 2
  {
    JsonEscapeConcat(s[..k], s[k..]);
    assert s[..k] + s[k..] == s;
    assert JsonEscape(s[k..]) == JsonChar(s[k]) + JsonEscape(s[k..][1..]);
  }

  /** `axil_json_escape`: stops before the first character whose escape might
      not fit, never inside one, and always terminates the buffer. */
  method AxilJsonEscape(src: string, dst: array<char>) returns (ret: int, ghost k: nat)
    requires CText(src) && dst.Length >= 1
    modifies dst
    ensures ret == 0 && k <= |src|
    ensures k < |src| ==> JsonStops(src, k, dst.Length)
    ensures forall i :: 0 <= i < k ==> !JsonStops(src, i, dst.Length)
    ensures var j := |JsonEscape(src[..k])|;
            j < dst.Length && dst[..j] == JsonEscape(src[..k]) && dst[j] == '\0'
  {
    var j, i := 0, 0;
    while i < |src| && j + 2 < dst.Length
      invariant 0 <= i <= |src| && 0 <= j < dst.Length
      invariant dst[..j] == JsonEscape(src[..i])
      invariant forall h :: 0 <= h < i ==> !JsonStops(src, h, dst.Length)
    {
      var c := src[i];
      assert src[..i+1] == src[..i] + [c];
      JsonEscapeConcat(src[..i], [c]);
      assert JsonEscape([c]) == JsonChar(c);
      if LongEscape(c) && j + 6 >= dst.Length {
        break;
      }
      j := PutJson(c, dst, j);
      i := i + 1;
    }
    dst[j] := '\0';
    ret, k := 0, i;
  }

  /** The branches of the escaping loop that write. */
  method PutJson(c: char, dst: array<char>, j: nat) returns (n: nat)
    requires IsByte(c) && j + |JsonChar(c)| < dst.Length
    modifies dst
    ensures n == j + |JsonChar(c)| && dst[..n] == old(dst[..j]) + JsonChar(c)
  {
    if c == '"' || c == '\\' {
      dst[j], dst[j+1] := '\\', c;
      n := j + 2;
    } else if c == '\n' {
      dst[j], dst[j+1] := '\\', 'n';
      n := j + 2;
    } else if c == '\r' {
      dst[j], dst[j+1] := '\\', 'r';
      n := j + 2;
    } else if c == '\t' {
      dst[j], dst[j+1] := '\\', 't';
      n := j + 2;
    } else if c as int < 0x20 {
      dst[j], dst[j+1], dst[j+2], dst[j+3], dst[j+4], dst[j+5], dst[j+6] :=
        '\\', 'u', '0', '0', LowerHexDigit(c as int / 16), LowerHexDigit(c as int % 16), '\0';
      n := j + 6;
    } else {
      dst[j] := c;
      n := j + 1;
    }
  }

  // ---- Percent-encoding, character by character ----

  const UNRESERVED := UPPER_LETTERS + LOWER_LETTERS + DIGITS + "-_.~"

  /** Unreserved characters stand for themselves, all others for their two
      upper-case hexadecimal digits. */
  lemma EncodedExactly(c: char)
    requires IsByte(c)
    ensures EncodeChar(c) == if c in UNRESERVED then [c]
                             else ['%', UPPER_HEX[c as int / 16], UPPER_HEX[c as int % 16]]
  {
    LettersExactly(c);
    HexDigits(c as int / 16);
    HexDigits(c as int % 16);
    InParts(c);
  }

  lemma InParts(c: char)
    ensures c in UNRESERVED <==> c in UPPER_LETTERS || c in LOWER_LETTERS || c in DIGITS || c == '-' || c == '_' || c == '.' || c == '~'
  {
    var rest := "-_.~";
    assert c in rest <==> c == '-' || c == '_' || c == '.' || c == '~';
  }

  /** What a client may write: a character, a plus for a space, or an escape
      with digits in either case. */
  datatype Piece = Lit(c: char) | Plus | Escaped(hi: char, lo: char) {
    predicate Ok() { if Lit? then c != '%' && c != '+' else Escaped? ==> IsHex(hi) && IsHex(lo) }
    function Text(): string { if Lit? then [c] else if Plus? then "+" else ['%', hi, lo] }
    function Means(): char requires Ok() { if Lit? then c else if Plus? then ' ' else HexByte(hi, lo) }
  }

  predicate AllOk(ps: seq<Piece>) { forall k :: 0 <= k < |ps| ==> ps[k].Ok() }

  function Written(ps: seq<Piece>): string { if ps == [] then "" else ps[0].Text() + Written(ps[1..]) }

  function Meaning(ps: seq<Piece>): (s: string)
    requires AllOk(ps)
    ensures |s| == |ps|
  {
    seq(|ps|, k requires 0 <= k < |ps| => ps[k].Means())
  }

  lemma {:induction false} UrlDecodeMeans(ps: seq<Piece>)
    requires AllOk(ps)
    ensures UrlDecode(Written(ps)) == Meaning(ps)
  {
    if ps != [] {
      UrlDecodeMeans(ps[1..]);
      OnePiece(ps[0], Written(ps[1..]));
      assert Meaning(ps) == [ps[0].Means()] + Meaning(ps[1..]);
    }
  }

  lemma OnePiece(p: Piece, rest: string)
    requires p.Ok()
    ensures UrlDecode(p.Text() + rest) == [p.Means()] + UrlDecode(rest)
  {
    var s := p.Text() + rest;
    assert s[|p.Text()|..] == rest && s[0] == p.Text()[0];
    assert p.Escaped? ==> s[1] == p.hi && s[2] == p.lo;
  }

  /** A '%' without two digits behind it stands for itself. */
  lemma LonePercent(rest: string)
    requires !(|rest| >= 2 && IsHex(rest[0]) && IsHex(rest[1]))
    ensures UrlDecode("%" + rest) == "%" + UrlDecode(rest)
  {
    var s := "%" + rest;
    assert s[1..] == rest;
    assert |s| >= 3 ==> s[1] == rest[0] && s[2] == rest[1];
  }

  // ---- JSON escapes one by one ----

  const SHORT := "\"\\\n\r\t"
  const SHORT_LETTERS := "\"\\nrt"

  /** The escape of each character: section 7 of RFC 8259, with the short
      forms for five of them. */
  lemma JsonExactly(c: char)
    requires IsByte(c)
    ensures forall k :: 0 <= k < 5 && c == SHORT[k] ==> JsonChar(c) == ['\\', SHORT_LETTERS[k]]
    ensures c !in SHORT ==>
              JsonChar(c) == if c as int >= 32 then [c]
                             else "\\u00" + [LOWER_HEX[c as int / 16], LOWER_HEX[c as int % 16]]
  {
    HexDigits(c as int / 16);
    HexDigits(c as int % 16);
    assert SHORT[0] == '"' && SHORT[1] == '\\' && SHORT[2] == '\n' && SHORT[3] == '\r' && SHORT[4] == '\t';
  }
}
