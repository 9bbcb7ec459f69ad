// `request_path_is_safe`: percent-decoding repeated until nothing changes,
// checked after every round, against a specification that looks only at the
// final text.
module PathGate {
  import opened Text
  import opened Wrappers
  import Escape

  // ---- What the gate is meant to accept ----

  /** One strict decoding round: every '%' must start a two-digit escape. */
  function Decode(s: string): (r: Option<string>)
    ensures r.Some? ==> |r.value| <= |s|
    ensures r.Some? && '%' in s ==> |r.value| < |s|
  {
    if s == "" then Some("")
    else if s[0] != '%' then Cons(s[0], Decode(s[1..]))
    else if |s| >= 3 && IsHex(s[1]) && IsHex(s[2]) then Cons(HexByte(s[1], s[2]), Decode(s[3..]))
    else None
  }

  /** Rounds until no '%' is left; none if some round meets a bad escape. */
  function Fixpoint(s: string): Option<string>
    decreases |s|
  {
    if '%' !in s then Some(s)
    else match Decode(s)
      case None => None
      case Some(d) => Fixpoint(d)
  }

  predicate BadByte(c: char) {
    c == '\0' || c == '\\' || c as int < 0x20 || c as int == 0x7f
  }

  predicate HasBad(s: string) { exists k :: 0 <= k < |s| && BadByte(s[k]) }

  /** Characters `p` and `p + 1` of `s` are a whole ".." segment. */
  predicate DotDotAt(s: string, p: int) {
    && 0 <= p <= |s| - 2 && s[p] == '.' && s[p+1] == '.'
    && (p == 0 || s[p-1] == '/')
    && (p + 2 == |s| || s[p+2] == '/')
  }

  predicate HasDotDot(s: string) { exists p :: 0 <= p < |s| && DotDotAt(s, p) }

  predicate Clean(s: string) {
    s != "" && s[0] == '/' && !HasBad(s) && !HasDotDot(s)
  }

  predicate CleanInTheEnd(s: string) {
    Fixpoint(s).Some? && Clean(Fixpoint(s).value)
  }

  /** The declared meaning of the gate. */
  predicate Safe(target: string, bufsiz: nat) {
    0 < |Before(target, '?')| < bufsiz && CleanInTheEnd(Before(target, '?'))
  }

  // ---- Bad bytes and ".." survive decoding ----

  lemma {:induction false} BadStays(s: string)
    requires HasBad(s) && Decode(s).Some?
    ensures HasBad(Decode(s).value)
  {
    var k :| 0 <= k < |s| && BadByte(s[k]);
    var d := Decode(s).value;
    if s[0] != '%' {
      if k == 0 {
        assert BadByte(d[0]);
      } else {
        assert s[1..][k-1] == s[k];
        BadStays(s[1..]);
        BadTail(d);
      }
    } else {
      assert s[3..][k-3] == s[k];
      BadStays(s[3..]);
      BadTail(d);
    }
  }

  lemma BadTail(d: string)
    requires d != "" && HasBad(d[1..])
    ensures HasBad(d)
  {
    var k :| 0 <= k < |d[1..]| && BadByte(d[1..][k]);
    assert BadByte(d[k+1]);
  }

  /** ".." as a segment, scanning from a place that is a segment start or not. */
  predicate Dots(s: string, start: bool) {
    || (start && |s| >= 2 && s[0] == '.' && s[1] == '.' && (|s| == 2 || s[2] == '/'))
    || (s != "" && Dots(s[1..], s[0] == '/'))
  }

  lemma {:induction false} DotsIff(s: string, start: bool)
    ensures Dots(s, start) <==> exists p :: 0 <= p < |s| && DotDotAt(s, p) && (p == 0 ==> start)
  {
    if s != "" {
      var t, slash := s[1..], s[0] == '/';
      DotsIff(t, slash);
      if Dots(t, slash) {
        var q :| 0 <= q < |t| && DotDotAt(t, q) && (q == 0 ==> slash);
        assert DotDotAt(s, q + 1);
      }
      if p :| 0 <= p < |s| && DotDotAt(s, p) && (p == 0 ==> start) {
        if p > 0 {
          assert DotDotAt(t, p - 1);
        } else {
          assert Dots(s, start);
        }
      }
      if start && |s| >= 2 && s[0] == '.' && s[1] == '.' && (|s| == 2 || s[2] == '/') {
        assert DotDotAt(s, 0);
      }
    }
  }

  lemma {:induction false} DotsStay(s: string, start: bool)
    requires Decode(s).Some? && Dots(s, start)
    ensures Dots(Decode(s).value, start)
  {
    var d := Decode(s).value;
    if s[0] == '%' {
      assert s[1..][1..] == s[2..] && s[2..][1..] == s[3..];
      assert Dots(s[1..], false);
      assert Dots(s[2..], false);
      DotsStay(s[3..], false);
      DotsMono(d[1..], d[0] == '/');
    } else if Dots(s[1..], s[0] == '/') {
      DotsStay(s[1..], s[0] == '/');
    } else {
      assert s[1..][1..] == s[2..];
      assert |s| == 2 || s[2..][0] == '/';
      assert Decode(s) == Cons('.', Cons('.', Decode(s[2..])));
    }
  }

  lemma DotsMono(s: string, start: bool)
    requires Dots(s, false)
    ensures Dots(s, start)
  {
  }

  lemma DotDotStays(s: string)
    requires Decode(s).Some? && HasDotDot(s)
    ensures HasDotDot(Decode(s).value)
  {
    DotsIff(s, true);
    DotsStay(s, true);
    DotsIff(Decode(s).value, true);
  }

  /** What fails in some round fails in the last. */
  lemma {:induction false} FlawsReachTheEnd(s: string)
    requires HasBad(s) || HasDotDot(s)
    ensures Fixpoint(s).Some? ==> HasBad(Fixpoint(s).value) || HasDotDot(Fixpoint(s).value)
    decreases |s|
  {
    if '%' in s && Decode(s).Some? {
      if HasBad(s) {
        BadStays(s);
      } else {
        DotDotStays(s);
      }
      FlawsReachTheEnd(Decode(s).value);
    }
  }

  lemma {:induction false} DecodePlain(s: string)
    requires '%' !in s
    ensures Decode(s) == Some(s)
  {
    if s != "" {
      assert forall c :: c in s[1..] ==> c in s;
      DecodePlain(s[1..]);
      assert s == [s[0]] + s[1..];
    }
  }

  // ---- The code ----

  /** The inner loop: one round from `current[..n]` into `decoded`.  `ok` is
      false when the code would return 0 in it. */
  method DecodeRound(current: array<char>, n: nat, decoded: array<char>)
      returns (ok: bool, dst: nat, changed: bool)
    requires current != decoded && n < current.Length && current.Length == decoded.Length
    requires '\0' !in current[..n] && current[n] == '\0'
    modifies decoded
    ensures changed ==> '%' in current[..n]
    ensures ok ==> dst <= n && Decode(current[..n]) == Some(decoded[..dst])
    ensures ok ==> '\0' !in decoded[..dst] && !HasBad(decoded[..dst]) && decoded[dst] == '\0' && (changed <==> '%' in current[..n])
    ensures !ok ==> Decode(current[..n]).None? || HasBad(Decode(current[..n]).value)
  {
    var src := 0;
    dst, changed := 0, false;
    ghost var s := current[..n];
    assert s[0..] == s;
    assert Prepend("", Decode(s)) == Decode(s) by {
      if Decode(s).Some? { assert "" + Decode(s).value == Decode(s).value; }
    }
    while current[src] != '\0'
      invariant 0 <= src <= n && dst <= src && s == current[..n]
      invariant changed <==> '%' in s[..src]
      invariant !HasBad(decoded[..dst])
      invariant Decode(s) == Prepend(decoded[..dst], Decode(s[src..]))
      decreases n - src
    {
      ghost var done := decoded[..dst];
      var fine, c, next := NextByte(current, n, src);
      if !fine {
        return false, dst, changed;
      }
      assert s[src..next][0] == s[src];
      assert s[..next] == s[..src] + s[src..next];
      changed := changed || current[src] == '%';
      PrependOne(done, c, Decode(s[next..]));
      if BadByte(c) {
        BadPrefix(done + [c], Decode(s[next..]));
        return false, dst, changed;
      }
      decoded[dst] := c;
      src, dst := next, dst + 1;
      assert decoded[..dst] == done + [c];
    }
    assert src == n && s[..n] == s && s[n..] == "";
    decoded[dst] := '\0';
    ok := true;
    assert forall k :: 0 <= k < dst ==> !BadByte(decoded[..dst][k]);
    assert decoded[..dst] + "" == decoded[..dst];
  }

  /** The byte at `src`, decoded if it is an escape (lines 1405-1426). */
  method NextByte(current: array<char>, n: nat, src: nat) returns (ok: bool, c: char, next: nat)
    requires src < n < current.Length && '\0' !in current[..n] && current[n] == '\0'
    ensures var s := current[..n];
            if ok then src < next <= n && Decode(s[src..]) == Cons(c, Decode(s[next..])) &&
                       (current[src] != '%' ==> '%' !in s[src..next])
            else Decode(s[src..]) == None
  {
    ghost var s := current[..n];
    ghost var t := s[src..];
    assert t[0] == current[src] && t[1..] == s[src+1..];
    c, next, ok := current[src], src + 1, true;
    if c == '%' {
      if current[next] == '\0' || current[next+1] == '\0' || !IsHex(current[next]) || !IsHex(current[next+1]) {
        assert |t| >= 2 ==> t[1] == current[next];
        assert |t| >= 3 ==> t[2] == current[next+1];
        return false, c, next;
      }
      NotPastNul(current, n, next);
      assert t[1] == current[next] && t[2] == current[next+1] && t[3..] == s[src+3..];
      c := HexByte(current[next], current[next+1]);
      next := next + 2;
    }
  }

  lemma NotPastNul(current: array<char>, n: nat, i: nat)
    requires i <= n < current.Length && current[n] == '\0'
    requires current[i] != '\0' && i + 1 < current.Length && current[i+1] != '\0'
    ensures i + 2 <= n
  {
  }

  function Prepend(a: string, r: Option<string>): Option<string> {
    match r case None => None case Some(t) => Some(a + t)
  }

  lemma PrependOne(a: string, c: char, r: Option<string>)
    ensures Prepend(a, Cons(c, r)) == Prepend(a + [c], r)
  {
    if r.Some? {
      assert a + ([c] + r.value) == (a + [c]) + r.value;
    }
  }

  lemma BadPrefix(a: string, r: Option<string>)
    requires a != "" && BadByte(a[|a|-1])
    ensures Prepend(a, r).Some? ==> HasBad(Prepend(a, r).value)
  {
    if r.Some? {
      assert BadByte((a + r.value)[|a|-1]);
    }
  }

  /** The segment scan over a NUL-terminated text. */
  method ScanSegments(decoded: array<char>, n: nat) returns (found: bool)
    requires n < decoded.Length && '\0' !in decoded[..n] && decoded[n] == '\0'
    ensures found == HasDotDot(decoded[..n])
  {
    ghost var s := decoded[..n];
    var segment, p := 0, 0;
    while true
      invariant 0 <= segment <= p <= n
      invariant segment == 0 || s[segment-1] == '/'
      invariant forall k :: segment <= k < p ==> s[k] != '/'
      invariant forall q :: 0 <= q < segment ==> !DotDotAt(s, q)
      decreases n - p
    {
      if decoded[p] != '/' && decoded[p] != '\0' {
        assert s[p] == decoded[p];
        p := p + 1;
        continue;
      }
      assert p < n ==> s[p] == decoded[p];
      if p - segment == 2 && decoded[segment] == '.' && decoded[segment+1] == '.' {
        assert s[segment] == '.' && s[segment+1] == '.';
        assert DotDotAt(s, segment);
        return true;
      }
      forall q | segment <= q <= p && q < n ensures !DotDotAt(s, q) {
        assert q == segment || s[q-1] != '/';
      }
      if decoded[p] == '\0' {
        return false;
      }
      segment := p + 1;
      p := p + 1;
    }
  }

  /** `request_path_is_safe` accepts exactly the targets whose path decodes to
      a clean absolute path; `bufsiz` is BUFSIZ. */
  method RequestPathIsSafe(target: string, bufsiz: nat) returns (ok: bool)
    requires CText(target)
    ensures ok <==> Safe(target, bufsiz)
  {
    var path := Before(target, '?');
    var n := |path|;
    if n == 0 || n >= bufsiz {
      return false;
    }
    var current, decoded := new char[bufsiz], new char[bufsiz];
    forall i | 0 <= i < n {
      current[i] := path[i];
    }
    current[n] := '\0';
    assert current[..n] == path;
    ghost var s := path;
    while true
      invariant n < bufsiz && s == current[..n] && '\0' !in s && current[n] == '\0'
      invariant Safe(target, bufsiz) <==> CleanInTheEnd(s)
      decreases n
    {
      var fine, dst, changed := DecodeRound(current, n, decoded);
      assert s == current[..n];
      RoundVerdict(s);
      if !fine {
        if Decode(s).Some? {
          RoundVerdict(Decode(s).value);
        }
        return false;
      }
      ghost var d := decoded[..dst];
      RoundVerdict(d);
      var dots := ScanSegments(decoded, dst);
      if dots {
        return false;
      }
      if !changed {
        assert d == "" || d[0] == decoded[0];
        return decoded[0] == '/';
      }
      Copy(current, decoded, dst);
      n, s := dst, d;
    }
  }

  /** The closing `memcpy` of a round, with its NUL. */
  method Copy(current: array<char>, decoded: array<char>, n: nat)
    requires current != decoded && n < current.Length == decoded.Length
    modifies current
    ensures current[..n] == decoded[..n] && current[n] == decoded[n]
  {
    forall i | 0 <= i <= n {
      current[i] := decoded[i];
    }
  }

  /** What one round says about the verdict. */
  lemma RoundVerdict(s: string)
    ensures CleanInTheEnd(s) ==> Decode(s).Some? && CleanInTheEnd(Decode(s).value)
    ensures Decode(s).Some? && CleanInTheEnd(Decode(s).value) ==> CleanInTheEnd(s)
    ensures HasBad(s) || HasDotDot(s) ==> !CleanInTheEnd(s)
    ensures '%' !in s ==> Decode(s) == Some(s) && (CleanInTheEnd(s) <==> Clean(s))
  {
    if '%' !in s {
      DecodePlain(s);
    }
    if HasBad(s) || HasDotDot(s) {
      FlawsReachTheEnd(s);
    }
  }

  // ---- What an accepted path gives the file server ----

  lemma {:induction false} LenientDots(s: string, start: bool)
    requires Decode(s).Some? && Dots(Escape.UrlDecode(s), start)
    ensures Dots(Decode(s).value, start)
  {
    var u, d := Escape.UrlDecode(s), Decode(s).value;
    var rest := if s[0] == '%' then s[3..] else s[1..];
    assert u[1..] == Escape.UrlDecode(rest) && d[1..] == Decode(rest).value;
    if Dots(u[1..], u[0] == '/') {
      LenientDots(rest, u[0] == '/');
      if u[0] != '/' && d[0] == '/' {
        DotsMono(d[1..], true);
      }
    } else {
      LenientSecond(rest);
    }
  }

  /** The lenient decoder writes '.' and '/' only where the strict one does. */
  lemma LenientSecond(s: string)
    requires Decode(s).Some?
    ensures |Escape.UrlDecode(s)| == |Decode(s).value|
    ensures s != "" && Escape.UrlDecode(s)[0] != ' ' ==> Escape.UrlDecode(s)[0] == Decode(s).value[0]
    ensures forall k :: 0 <= k < |Decode(s).value| && Escape.UrlDecode(s)[k] != ' ' ==>
              Escape.UrlDecode(s)[k] == Decode(s).value[k]
  {
    if s != "" {
      LenientSecond(if s[0] == '%' then s[3..] else s[1..]);
    }
  }

  /** For every accepted target, what `axil_url_decode` makes of its path has
      no ".." segment. */
  lemma SafePathDecodesSafely(target: string, bufsiz: nat)
    requires Safe(target, bufsiz)
    ensures Decode(Before(target, '?')).Some?
    ensures !HasDotDot(Escape.UrlDecode(Before(target, '?')))
  {
    var path := Before(target, '?');
    RoundVerdict(path);
    var u, d := Escape.UrlDecode(path), Decode(path).value;
    if HasDotDot(u) {
      DotsIff(u, true);
      LenientDots(path, true);
      DotsIff(d, true);
      assert HasDotDot(d);
      RoundVerdict(d);
    }
  }

  lemma DecodeAtPrefix(path: string, rest: string)
    requires path != "" && Decode(path).Some?
    ensures Escape.DecodeAt(path + rest, 0) == Escape.DecodeAt(path, 0)
    ensures Decode(path[Escape.DecodeAt(path, 0).1..]).Some?
  {
    var w := path + rest;
    assert w[0] == path[0];
    assert path[0] == '%' ==> |path| >= 3 && w[1] == path[1] && w[2] == path[2];
  }

  lemma {:induction false} UrlDecodeSplit(path: string, rest: string)
    requires Decode(path).Some?
    ensures Escape.UrlDecode(path + rest) == Escape.UrlDecode(path) + Escape.UrlDecode(rest)
  {
    if path == "" {
      assert path + rest == rest;
    } else {
      var w := path + rest;
      DecodeAtPrefix(path, rest);
      var (c, n) := Escape.DecodeAt(path, 0);
      Escape.DecodeStep(w, 0);
      Escape.DecodeStep(path, 0);
      assert w[0..] == w && path[0..] == path && w[n..] == path[n..] + rest;
      UrlDecodeSplit(path[n..], rest);
      Assoc([c], Escape.UrlDecode(path[n..]), Escape.UrlDecode(rest));
    }
  }

  /** The `document_uri` that `request_handle` works with: the whole target is
      decoded and then cut at the first '?' of the result. */
  function DocumentUri(target: string): string {
    Before(Escape.UrlDecode(target), '?')
  }

  /** The second cut is the first '?' of the decoded path, if it has one. */
  lemma DocumentUriIsCut(target: string)
    requires Decode(Before(target, '?')).Some?
    ensures DocumentUri(target) == Before(Escape.UrlDecode(Before(target, '?')), '?')
  {
    var path := Before(target, '?');
    var rest := target[|path|..];
    var u, v := Escape.UrlDecode(path), Escape.UrlDecode(rest);
    assert target == path + rest;
    UrlDecodeSplit(path, rest);
    assert rest != "" ==> rest[0] == '?' && v[0] == '?';
    CutJoined(u, v);
  }

  lemma CutJoined(u: string, v: string)
    requires v == "" || v[0] == '?'
    ensures Before(u + v, '?') == Before(u, '?')
  {
    var cut := |Before(u, '?')|;
    assert (u + v)[..cut] == u[..cut];
    BeforeUnique(u + v, '?', cut);
  }

  /** `d` is `u` cut at its first '?', and has a ".." segment exactly if `u`
      goes on after it and it ends in one; without a '?' in `u` it is `u`. */
  predicate CutOnly(u: string, d: string) {
    && d == Before(u, '?')
    && (HasDotDot(d) <==> |d| < |u| && DotDotAt(d, |d| - 2))
    && ('?' !in u ==> d == u && !HasDotDot(d))
  }

  lemma CutDots(u: string, d: string)
    requires !HasDotDot(u) && d == Before(u, '?')
    ensures CutOnly(u, d)
  {
    if p :| 0 <= p < |d| && DotDotAt(d, p) {
      assert !DotDotAt(u, p);
    }
    if '?' !in u {
      BeforeAll(u, '?');
    }
  }

  /** The second cut falls inside the decoded path whenever that contains a
      '?', so only the segment ending there can differ from what was checked. */
  lemma DocumentUriIff(target: string, bufsiz: nat)
    requires Safe(target, bufsiz)
    ensures CutOnly(Escape.UrlDecode(Before(target, '?')), DocumentUri(target))
  {
    SafePathDecodesSafely(target, bufsiz);
    DocumentUriIsCut(target);
    CutDots(Escape.UrlDecode(Before(target, '?')), DocumentUri(target));
  }

  /** An escaped '?' behind a last segment that would be "..": accepted, and
      yet `document_uri` has a ".." segment. */
  lemma DocumentUriCanHaveDots()
    ensures Safe("/..%3F", 8192)
    ensures DocumentUri("/..%3F") == "/.." && HasDotDot(DocumentUri("/..%3F"))
  {
    var t, d := "/..%3F", "/..?";
    BeforeAll(t, '?');
    Decoded();
    assert Fixpoint(t) == Fixpoint(d) == Some(d);
    CleanPath(d);
    BeforeUnique(d, '?', 3);
    assert DotDotAt("/..", 1);
  }

  lemma CleanPath(d: string)
    requires d == "/..?"
    ensures Clean(d)
  {
    assert forall k :: 0 <= k < |d| ==> d[k] == '/' || d[k] == '.' || d[k] == '?';
    assert forall p :: 0 <= p < |d| ==> !DotDotAt(d, p);
  }

  lemma PlainFirst(w: string, s: string, d: string)
    requires w != "" && w[0] != '%' && w[0] != '+' && w[1..] == s
    requires Decode(s) == Some(d) && Escape.UrlDecode(s) == d
    ensures Decode(w) == Some([w[0]] + d) && Escape.UrlDecode(w) == [w[0]] + d
  {
  }

  lemma Decoded()
    ensures Decode("/..%3F") == Some("/..?") && Escape.UrlDecode("/..%3F") == "/..?"
  {
    var c := "%3F";
    assert c[3..] == "" && HexByte('3', 'F') == '?';
    assert Decode(c[3..]) == Some("") && Escape.UrlDecode(c[3..]) == "" && "?" == ['?'] + "";
    assert Decode(c) == Some("?") && Escape.UrlDecode(c) == "?";
    PlainFirst(".%3F", c, "?");
    assert ['.'] + "?" == ".?";
    PlainFirst("..%3F", ".%3F", ".?");
    assert ['.'] + ".?" == "..?";
    PlainFirst("/..%3F", "..%3F", "..?");
    assert ['/'] + "..?" == "/..?";
  }

  // ---- Dots that are written as escapes ----

  predicate WritesDot(w: string) { w == "." || w == "%2e" || w == "%2E" }

  lemma DecodeDot(w: string, rest: string)
    requires WritesDot(w)
    ensures Decode(w + rest) == Cons('.', Decode(rest))
  {
    HexDigits(2);
    HexDigits(14);
    assert HexByte('2', 'e') == '.' && HexByte('2', 'E') == '.';
    assert (w + rest)[|w|..] == rest;
    assert w != "." ==> (w + rest)[1] == w[1] && (w + rest)[2] == w[2];
  }

  /** A slash is never inside an escape. */
  lemma {:induction false} DecodeBehindSlash(a: string, w: string) returns (d: string)
    requires (a == "" || a[|a|-1] == '/') && Decode(a + w).Some?
    ensures Decode(w).Some? && Decode(a + w).value == d + Decode(w).value
    ensures d == "" || d[|d|-1] == '/'
    ensures d == "" <==> a == ""
    decreases |a|
  {
    if a == "" {
      d := "";
      assert a + w == w;
    } else {
      var s := a + w;
      assert s[0] == a[0];
      if a[0] != '%' {
        assert s[1..] == a[1..] + w;
        var e := DecodeBehindSlash(a[1..], w);
        d := [a[0]] + e;
        Assoc([a[0]], e, Decode(w).value);
      } else {
        LongEnough(a, w);
        assert s[3..] == a[3..] + w;
        var e := DecodeBehindSlash(a[3..], w);
        d := [HexByte(s[1], s[2])] + e;
        Assoc([HexByte(s[1], s[2])], e, Decode(w).value);
      }
    }
  }

  lemma LongEnough(a: string, w: string)
    requires a != "" && a[|a|-1] == '/' && a[0] == '%' && Decode(a + w).Some?
    ensures |a| > 3
  {
    var s := a + w;
    assert |a| >= 2 ==> s[1] == a[1];
    assert |a| >= 3 ==> s[2] == a[2];
  }

  lemma DecodeFromSlash(b: string)
    requires (b == "" || b[0] == '/') && Decode(b).Some?
    ensures Decode(b).value == "" || Decode(b).value[0] == '/'
  {
  }

  /** A ".." segment is refused however its two dots are written. */
  lemma EscapedDotsRefused(target: string, bufsiz: nat, a: string, one: string, two: string, b: string)
    requires Before(target, '?') == a + (one + (two + b)) && WritesDot(one) && WritesDot(two)
    requires (a == "" || a[|a|-1] == '/') && (b == "" || b[0] == '/')
    ensures !Safe(target, bufsiz)
  {
    var s := a + (one + (two + b));
    if CleanInTheEnd(s) {
      RoundVerdict(s);
      var d := DecodeBehindSlash(a, one + (two + b));
      DecodeDot(one, two + b);
      DecodeDot(two, b);
      DecodeFromSlash(b);
      DotsBetween(Decode(s).value, d, Decode(b).value);
      RoundVerdict(Decode(s).value);
    }
  }

  lemma DotsBetween(s: string, a: string, b: string)
    requires s == a + (['.'] + (['.'] + b)) && (a == "" || a[|a|-1] == '/') && (b == "" || b[0] == '/')
    ensures HasDotDot(s)
  {
    assert s[|a|] == '.' && s[|a| + 1] == '.';
    assert |a| > 0 ==> s[|a| - 1] == a[|a| - 1];
    assert |b| > 0 ==> s[|a| + 2] == b[0];
    assert DotDotAt(s, |a|);
  }

  // ---- Segments ----

  /** What stands between the slashes. */
  function Segments(s: string): seq<string> {
    var h := Before(s, '/');
    if |h| == |s| then [h] else [h] + Segments(s[|h| + 1..])
  }

  lemma {:induction false} DotsSkip(s: string)
    ensures var h := Before(s, '/'); Dots(s, false) <==> |h| < |s| && Dots(s[|h| + 1..], true)
  {
    if s != "" && s[0] != '/' {
      DotsSkip(s[1..]);
      var h := Before(s[1..], '/');
      assert Before(s, '/') == [s[0]] + h;
      assert |h| < |s[1..]| ==> s[1..][|h| + 1..] == s[|h| + 2..];
    }
  }

  lemma DotsHead(s: string)
    ensures Dots(s, true) <==> Before(s, '/') == ".." || Dots(s, false)
  {
    var h := Before(s, '/');
    if |s| >= 2 && s[0] == '.' && s[1] == '.' && (|s| == 2 || s[2] == '/') {
      BeforeUnique(s, '/', 2);
      assert s[..2] == "..";
    }
  }

  /** There is a ".." exactly if one of the segments is that. */
  lemma {:induction false} DotDotIsSegment(s: string)
    ensures HasDotDot(s) <==> ".." in Segments(s)
    decreases |s|
  {
    DotsIff(s, true);
    DotsHead(s);
    DotsSkip(s);
    var h := Before(s, '/');
    if |h| < |s| {
      DotDotIsSegment(s[|h| + 1..]);
      DotsIff(s[|h| + 1..], true);
    }
  }
}
