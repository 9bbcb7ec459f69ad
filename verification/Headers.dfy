// Request headers: `headers_get` splits the header block in place, `env_name`
// and `axil_header_get` agree on the key of a header.
module Headers {
  import opened Text
  import opened Wrappers

  const ENV_KEY_LEN := 128

  type Env = map<string, string>

  // ---- Keys ----

  const PREFIX := "HTTP_"

  function NormChar(c: char): char { if c == '-' then '_' else Upper(c) }

  function Norm(s: string): (r: string)
    ensures |r| == |s|
  {
    seq(|s|, k requires 0 <= k < |s| => NormChar(s[k]))
  }

  /** The environment key of a header name. */
  function EnvName(name: string): string { CutTo(PREFIX + Norm(name), ENV_KEY_LEN - 1) }

  /** `env_name`: a pointer walks the buffer. */
  method EnvNameOf(key: string) returns (name: string)
    ensures name == EnvName(key)
  {
    var buf := new char[ENV_KEY_LEN](_ => '\0');
    ghost var full := PREFIX + Norm(key);
    buf[0], buf[1], buf[2], buf[3], buf[4] := 'H', 'T', 'T', 'P', '_';
    var b, s := 5, 0;
    while s < |key| && b < ENV_KEY_LEN - 1
      invariant 0 <= s <= |key| && b == 5 + s && b < ENV_KEY_LEN
      invariant forall k :: 0 <= k < b ==> buf[k] == full[k]
    {
      assert full[b] == Norm(key)[s];
      if key[s] == '-' {
        buf[b] := '_';
      } else {
        buf[b] := Upper(key[s]);
      }
      s, b := s + 1, b + 1;
    }
    buf[b] := '\0';
    name := buf[..b];
    assert name == full[..b];
  }

  /** The loop that `axil_header_get` has of its own. */
  method InlineKey(key: string) returns (envKey: string)
    ensures envKey == EnvName(key)
  {
    envKey := "HTTP_";
    var i := 0;
    ghost var full := PREFIX + Norm(key);
    while i < |key| && 5 + i < ENV_KEY_LEN - 1
      invariant 0 <= i <= |key| && 5 + i < ENV_KEY_LEN
      invariant envKey == full[..5 + i]
    {
      assert full[5 + i] == Norm(key)[i];
      envKey := envKey + [if key[i] == '-' then '_' else Upper(key[i])];
      i := i + 1;
    }
    assert full[..|full|] == full;
  }

  /** `axil_header_get`: a lookup cut to the buffer. */
  method HeaderGet(env: Env, key: string, buf: array<char>) returns (ret: int)
    requires buf.Length > 0
    modifies buf
    ensures EnvName(key) !in env ==> ret == -1 && buf[..] == old(buf[..])
    ensures EnvName(key) in env ==>
      ret == 0 && var v := CutTo(env[EnvName(key)], buf.Length - 1); buf[..|v|] == v && buf[|v|] == '\0'
  {
    var envKey := InlineKey(key);
    if envKey !in env {
      return -1;
    }
    var val := env[envKey];
    var len := |val|;
    if len >= buf.Length {
      len := buf.Length - 1;
    }
    forall k | 0 <= k < len { buf[k] := val[k]; }
    buf[len] := '\0';
    assert buf[..len] == CutTo(val, buf.Length - 1);
    return 0;
  }

  // ---- Header blocks ----

  /** A line of a header block: not empty, no CR, and its first colon is not
      its last character. */
  predicate GoodLine(l: string) {
    && l != "" && CText(l) && '\r' !in l
    && (|Before(l, ':')| < |l| ==> |Before(l, ':')| + 2 <= |l|)
  }

  function Render(lines: seq<string>): string {
    if lines == [] then "" else lines[0] + "\r\n" + Render(lines[1..])
  }

  function Block(lines: seq<string>, body: string): string {
    Render(lines) + "\r\n" + body
  }

  function Cut(l: string, bufsiz: nat): nat
    requires bufsiz > 0
  {
    if |l| >= bufsiz then bufsiz - 1 else |l|
  }

  /** The name pointer of a line: up to its first colon, within BUFSIZ - 1. */
  function NameOf(l: string, bufsiz: nat): string
    requires bufsiz > 0
  {
    l[..Min(|Before(l, ':')|, Cut(l, bufsiz))]
  }

  /** The value pointer: two characters after the colon, or the line itself if
      it has none; cut at BUFSIZ - 1 unless it starts later. */
  function ValueOf(l: string, bufsiz: nat): string
    requires GoodLine(l) && bufsiz > 0
  {
    ValueAt(l, |Before(l, ':')|, Cut(l, bufsiz))
  }

  function ValueAt(l: string, p: nat, cut: nat): string
    requires cut <= |l| && (p == |l| || p + 2 <= |l|)
  {
    if p == |l| then l[..cut] else if p + 2 <= cut then l[p+2..cut] else l[p+2..]
  }

  predicate GoodLines(lines: seq<string>) { forall i :: 0 <= i < |lines| ==> GoodLine(lines[i]) }

  type Entry = (string, string)

  /** What each line of a block stores. */
  function Stored(lines: seq<string>, bufsiz: nat): (es: seq<Entry>)
    requires bufsiz > 0 && GoodLines(lines)
    ensures |es| == |lines|
  {
    seq(|lines|, i requires 0 <= i < |lines| => (EnvName(NameOf(lines[i], bufsiz)), ValueOf(lines[i], bufsiz)))
  }

  /** The environment after the first `n` entries; the last value of a key stays. */
  function PutAll(env: Env, es: seq<Entry>, n: nat): Env
    requires n <= |es|
  {
    if n == 0 then env else PutAll(env, es, n - 1)[es[n-1].0 := es[n-1].1]
  }

  function Start(lines: seq<string>, i: nat): nat
    requires i <= |lines|
  {
    if i == 0 then 0 else Start(lines, i - 1) + |lines[i-1]| + 2
  }

  lemma {:induction false} RenderSplit(lines: seq<string>, i: nat)
    requires i <= |lines|
    ensures Render(lines) == Render(lines[..i]) + Render(lines[i..])
    ensures |Render(lines[..i])| == Start(lines, i)
    decreases i
  {
    if i == 0 {
      assert lines[0..] == lines;
    } else {
      var a, b := lines[..i-1], lines[i-1..];
      RenderSplit(lines, i - 1);
      assert b[0] == lines[i-1] && b[1..] == lines[i..];
      RenderSnoc(a, lines[i-1]);
      assert lines[..i] == a + [lines[i-1]];
      assert Render(b) == lines[i-1] + "\r\n" + Render(lines[i..]);
    }
  }

  lemma {:induction false} RenderSnoc(a: seq<string>, l: string)
    ensures Render(a + [l]) == Render(a) + (l + "\r\n")
  {
    if a == [] {
      assert [l][1..] == [] && a + [l] == [l];
      assert Render([l]) == l + "\r\n" + "";
    } else {
      assert (a + [l])[1..] == a[1..] + [l];
      RenderSnoc(a[1..], l);
    }
  }

  /** Where line `i` sits in the block. */
  lemma LineAt(lines: seq<string>, body: string, i: nat)
    requires i < |lines|
    ensures var t, k, l := Block(lines, body), Start(lines, i), lines[i];
            && k + |l| + 2 == Start(lines, i + 1) && Start(lines, i + 1) + 2 <= |t|
            && t[k..k + |l|] == l && t[k + |l|] == '\r'
  {
    RenderSplit(lines, i);
    RenderSplit(lines, i + 1);
    RenderSplit(lines, |lines|);
    assert lines[..|lines|] == lines;
    var b := lines[i..];
    assert b[0] == lines[i];
    var t, k := Block(lines, body), Start(lines, i);
    assert t[k..] == Render(b) + "\r\n" + body;
    assert t[k..] == lines[i] + ("\r\n" + Render(b[1..]) + "\r\n" + body);
  }

  lemma BlankAt(lines: seq<string>, body: string)
    ensures var t, k := Block(lines, body), Start(lines, |lines|);
            |t| == k + 2 + |body| && t[k] == '\r' && t[k + 1] == '\n' && t[k + 2..] == body
  {
    RenderSplit(lines, |lines|);
    assert lines[..|lines|] == lines;
  }

  // ---- The code ----

  /** The C string at `start` of a buffer. */
  function CString(buf: array<char>, start: nat): string
    requires start <= buf.Length
    reads buf
  {
    Before(buf[start..], '\0')
  }

  /** From `s` on nothing of the block has been rewritten. */
  ghost predicate Untouched(buf: array<char>, text: string, s: nat)
    reads buf
  {
    |text| < buf.Length && buf[|text|] == '\0' && forall k :: s <= k < |text| ==> buf[k] == text[k]
  }

  /** Inside line `l` that starts at `key`: the part before `s` is the line
      with the colon that was found replaced by a NUL. */
  ghost predicate InLine(buf: array<char>, l: string, key: nat, s: nat, value: nat)
    reads buf
  {
    var p := |Before(l, ':')|;
    && key <= s <= key + |l| < buf.Length
    && (if value == key then s - key <= p
        else p < |l| && value == key + p + 2 <= s && buf[key + p] == '\0')
    && forall k :: key <= k < s && (value == key || k != key + p) ==> buf[k] == l[k - key]
  }

  /** Ends the line at `s`, cutting it at BUFSIZ - 1. */
  method EndLine(buf: array<char>, ghost l: string, key: nat, ghost value: nat, s: nat, bufsiz: nat)
    requires GoodLine(l) && bufsiz > 0 && InLine(buf, l, key, s, value) && s == key + |l|
    modifies buf
    ensures var cut := Cut(l, bufsiz);
            var p := |Before(l, ':')|;
            && buf[key + cut] == '\0' && buf[s] == '\0' && (value != key ==> buf[key + p] == '\0')
            && forall k :: key <= k < s && k != key + cut && (value == key || k != key + p) ==> buf[k] == l[k - key]
    ensures forall k :: 0 <= k < buf.Length && !(key <= k <= s) ==> buf[k] == old(buf[k])
  {
    buf[s] := '\0';
    if s - key >= bufsiz {
      buf[key + bufsiz - 1] := '\0';
    }
  }

  /** The line is complete: what its key and value pointers read. */
  method TakeLine(buf: array<char>, ghost l: string, key: nat, value: nat, s: nat, bufsiz: nat)
      returns (name: string, val: string)
    requires GoodLine(l) && bufsiz > 0 && InLine(buf, l, key, s, value) && s == key + |l|
    modifies buf
    ensures name == NameOf(l, bufsiz) && val == ValueOf(l, bufsiz)
    ensures forall k :: 0 <= k < buf.Length && !(key <= k <= s) ==> buf[k] == old(buf[k])
  {
    EndLine(buf, l, key, value, s, bufsiz);
    ReadName(buf, l, key, value, s, Cut(l, bufsiz));
    ReadValue(buf, l, key, value, |Before(l, ':')|, Cut(l, bufsiz));
    name, val := CString(buf, key), CString(buf, value);
  }

  lemma ReadName(buf: array<char>, l: string, key: nat, value: nat, s: nat, cut: nat)
    requires GoodLine(l) && s == key + |l| < buf.Length && cut <= |l|
    requires var p := |Before(l, ':')|; if value == key then p == |l| else p < |l| && buf[key + p] == '\0'
    requires buf[key + cut] == '\0' && buf[s] == '\0'
    requires forall k :: key <= k < s && k != key + cut && (value == key || k != key + |Before(l, ':')|) ==> buf[k] == l[k - key]
    ensures CString(buf, key) == l[..Min(|Before(l, ':')|, cut)]
  {
    var n := Min(|Before(l, ':')|, cut);
    var c := buf[key..];
    assert c[..n] == l[..n];
    BeforeUnique(c, '\0', n);
  }

  lemma ReadValue(buf: array<char>, l: string, key: nat, value: nat, p: nat, cut: nat)
    requires CText(l) && key + |l| < buf.Length && cut <= |l|
    requires if value == key then p == |l| else value == key + p + 2 <= key + |l|
    requires buf[key + cut] == '\0' && buf[key + |l|] == '\0'
    requires forall k :: key <= k < key + |l| && k != key + cut && (value == key || k != key + p) ==> buf[k] == l[k - key]
    ensures CString(buf, value) == ValueAt(l, p, cut)
  {
    var from, to := value - key, if p == |l| || p + 2 <= cut then cut else |l|;
    forall k | key + from <= k < key + to ensures buf[k] == l[k - key] {
    }
    ReadFrom(buf, l, key, from, to);
    SliceEnds(l, from, to);
  }

  lemma SliceEnds(l: string, from: nat, to: nat)
    requires from <= to <= |l|
    ensures l[0..to] == l[..to] && l[from..|l|] == l[from..]
  {
  }

  /** The C string at character `from` of the line, up to the NUL at `to`. */
  lemma ReadFrom(buf: array<char>, l: string, key: nat, from: nat, to: nat)
    requires CText(l) && from <= to <= |l| && key + |l| < buf.Length && buf[key + to] == '\0'
    requires forall k :: key + from <= k < key + to ==> buf[k] == l[k - key]
    ensures CString(buf, key + from) == l[from..to]
  {
    var c := buf[key + from..];
    assert c[..to - from] == l[from..to];
    BeforeUnique(c, '\0', to - from);
  }

  /** The ':' and default cases, up to the '\r' of line `l`. */
  method ScanLine(buf: array<char>, ghost t: string, ghost l: string, key: nat) returns (s: nat, value: nat)
    requires GoodLine(l) && Untouched(buf, t, key) && key + |l| < |t|
    requires t[key..key + |l|] == l && t[key + |l|] == '\r'
    modifies buf
    ensures s == key + |l| && InLine(buf, l, key, s, value) && buf[s] == '\r' && Untouched(buf, t, s)
  {
    s, value := key, key;
    assert forall k :: 0 <= k < |l| ==> t[key + k] == l[k] && l[k] in l;
    while buf[s] != '\r'
      invariant key <= s <= key + |l| && InLine(buf, l, key, s, value) && Untouched(buf, t, s)
      decreases key + |l| - s
    {
      assert buf[s] == l[s - key];
      if buf[s] == ':' && value == key {
        buf[s] := '\0';
        s := s + 2;
        value := s;
      } else {
        s := s + 1;
      }
    }
  }

  /** One line, up to the start of the next. */
  method OneLine(buf: array<char>, ghost lines: seq<string>, ghost body: string, ghost i: nat, key: nat, env: Env, bufsiz: nat, ghost es: seq<Entry>)
      returns (out: Env, s: nat)
    requires bufsiz > 0 && i < |lines| && GoodLines(lines) && es == Stored(lines, bufsiz)
    requires Untouched(buf, Block(lines, body), key) && key == Start(lines, i)
    modifies buf
    ensures s == Start(lines, i + 1) && Untouched(buf, Block(lines, body), s)
    ensures out == env[es[i].0 := es[i].1]
  {
    LineAt(lines, body, i);
    var value;
    s, value := ScanLine(buf, Block(lines, body), lines[i], key);
    var name, val := TakeLine(buf, lines[i], key, value, s, bufsiz);
    var envKey := EnvNameOf(name);
    out := env[envKey := val];
    s := s + 2;
  }

  /** The '\r' of the empty line: both its bytes become NUL. */
  method BlankLine(buf: array<char>, ghost t: string, r: nat) returns (s: nat)
    requires Untouched(buf, t, r) && r + 1 < |t|
    modifies buf
    ensures s == r + 1 && buf[s] == '\0' && Untouched(buf, t, s + 1)
  {
    buf[r] := '\0';
    s := r + 1;
    buf[s] := '\0';
  }

  /** `i` lines have been scanned, and the empty one if `done`. */
  ghost predicate ScannedTo(buf: array<char>, lines: seq<string>, body: string, i: nat, done: bool, s: int)
    requires i <= |lines|
    reads buf
  {
    var t := Block(lines, body);
    && 0 <= s < buf.Length && (done <==> buf[s] == '\0')
    && if done then i == |lines| && s == Start(lines, i) + 1 && Untouched(buf, t, s + 1)
       else s == Start(lines, i) && Untouched(buf, t, s) && s + 1 < |t| && (t[s] == '\r' <==> i == |lines|)
  }

  method ScanOne(buf: array<char>, ghost lines: seq<string>, ghost body: string, ghost i: nat, s: nat, env: Env, bufsiz: nat,
                 ghost es: seq<Entry>) returns (out: Env, next: nat)
    requires bufsiz > 0 && i <= |lines| && GoodLines(lines) && es == Stored(lines, bufsiz)
    requires ScannedTo(buf, lines, body, i, false, s) && buf[s] != '\r'
    modifies buf
    ensures i < |lines| && ScannedTo(buf, lines, body, i + 1, false, next)
    ensures out == env[es[i].0 := es[i].1]
  {
    out, next := OneLine(buf, lines, body, i, s, env, bufsiz, es);
    NextIsLine(lines, body, i + 1);
  }

  method ScanBlank(buf: array<char>, ghost lines: seq<string>, ghost body: string, ghost i: nat, s: nat) returns (next: nat)
    requires i <= |lines| && ScannedTo(buf, lines, body, i, false, s) && buf[s] == '\r'
    modifies buf
    ensures ScannedTo(buf, lines, body, i, true, next)
  {
    next := BlankLine(buf, Block(lines, body), s);
  }

  /** `headers_get` on a block of lines, an empty line and a body: it stores
      every line and leaves the body where `bodyStart + 1` says. */
  method HeadersGet(buf: array<char>, ghost lines: seq<string>, ghost body: string, env: Env, bufsiz: nat)
      returns (out: Env, bodyStart: nat)
    requires bufsiz > 0 && GoodLines(lines)
    requires Untouched(buf, Block(lines, body), 0)
    modifies buf
    ensures out == PutAll(env, Stored(lines, bufsiz), |lines|)
    ensures var t := Block(lines, body);
            bodyStart + 1 + |body| == |t| < buf.Length && buf[bodyStart + 1..|t|] == body && buf[|t|] == '\0'
  {
    ghost var es := Stored(lines, bufsiz);
    ghost var i, done := 0, false;
    var s := 0;
    out := env;
    ScanStart(buf, lines, body);
    while buf[s] != '\0'
      invariant i <= |lines| && ScannedTo(buf, lines, body, i, done, s)
      invariant out == PutAll(env, es, i)
      decreases |lines| - i, !done
    {
      if buf[s] != '\r' {
        out, s := ScanOne(buf, lines, body, i, s, out, bufsiz, es);
        i := i + 1;
      } else {
        s := ScanBlank(buf, lines, body, i, s);
        done := true;
      }
    }
    bodyStart := s;
    BodyKept(buf, lines, body, i, done, s);
  }

  lemma ScanStart(buf: array<char>, lines: seq<string>, body: string)
    requires GoodLines(lines) && Untouched(buf, Block(lines, body), 0)
    ensures ScannedTo(buf, lines, body, 0, false, 0)
  {
    NextIsLine(lines, body, 0);
  }

  lemma BodyKept(buf: array<char>, lines: seq<string>, body: string, i: nat, done: bool, s: nat)
    requires i <= |lines| && ScannedTo(buf, lines, body, i, done, s) && buf[s] == '\0'
    ensures i == |lines|
    ensures var t := Block(lines, body);
            s + 1 + |body| == |t| < buf.Length && buf[s + 1..|t|] == body && buf[|t|] == '\0'
  {
    BlankAt(lines, body);
    var t := Block(lines, body);
    assert buf[s + 1..|t|] == t[s + 1..];
  }

  /** Where a line may start there is a line, or the CR of the empty one. */
  lemma NextIsLine(lines: seq<string>, body: string, i: nat)
    requires i <= |lines| && GoodLines(lines)
    ensures var t, k := Block(lines, body), Start(lines, i);
            && k + 1 < |t| && t[k] != '\0' && (t[k] == '\r' <==> i == |lines|)
  {
    if i == |lines| {
      BlankAt(lines, body);
    } else {
      LineAt(lines, body, i);
      var t, k, l := Block(lines, body), Start(lines, i), lines[i];
      assert t[k] == t[k..k + |l|][0] == l[0] && l[0] in l;
    }
  }

  // ---- Round trip ----

  type Header = (string, string)

  /** A header as it is printed: "Name: value". */
  function Line(h: Header): string { h.0 + ": " + h.1 }

  predicate GoodHeader(h: Header, bufsiz: nat) {
    && h.0 != "" && CText(h.0) && ':' !in h.0 && '\r' !in h.0
    && CText(h.1) && '\r' !in h.1
    && |Line(h)| < bufsiz
  }

  function Printed(hs: seq<Header>): (ls: seq<string>)
    ensures |ls| == |hs|
  {
    seq(|hs|, i requires 0 <= i < |hs| => Line(hs[i]))
  }

  lemma LineStored(h: Header, bufsiz: nat)
    requires GoodHeader(h, bufsiz)
    ensures GoodLine(Line(h)) && NameOf(Line(h), bufsiz) == h.0 && ValueOf(Line(h), bufsiz) == h.1
  {
    var l := Line(h);
    var n := |h.0|;
    assert l[..n] == h.0 && l[n] == ':' && l[n + 2..] == h.1;
    BeforeUnique(l, ':', n);
    forall k | 0 <= k < |l| ensures l[k] != '\r' && l[k] != '\0' && IsByte(l[k]) {
      assert k < n ==> l[k] == h.0[k] && h.0[k] in h.0;
      assert k >= n + 2 ==> l[k] == h.1[k - n - 2] && h.1[k - n - 2] in h.1;
    }
    assert l[n + 2..|l|] == h.1;
  }

  predicate DistinctKeys(es: seq<Entry>) {
    forall i, j :: 0 <= i < j < |es| ==> es[i].0 != es[j].0
  }

  predicate IsKey(es: seq<Entry>, n: nat, k: string)
    requires n <= |es|
  {
    exists i :: 0 <= i < n && es[i].0 == k
  }

  /** Entries with distinct keys are all there, and nothing else changes. */
  lemma {:induction false} PutAllHolds(env: Env, es: seq<Entry>, n: nat)
    requires DistinctKeys(es) && n <= |es|
    ensures var out := PutAll(env, es, n);
            && (forall i :: 0 <= i < n ==> es[i].0 in out && out[es[i].0] == es[i].1)
            && (forall k :: k in out <==> k in env || IsKey(es, n, k))
            && (forall k :: k in env && !IsKey(es, n, k) ==> out[k] == env[k])
  {
    if n > 0 {
      PutAllHolds(env, es, n - 1);
      forall k ensures IsKey(es, n, k) <==> IsKey(es, n - 1, k) || k == es[n-1].0 {
      }
    }
  }

  /** The entries that a request's headers should make. */
  function Entries(hs: seq<Header>): (es: seq<Entry>)
    ensures |es| == |hs|
  {
    seq(|hs|, i requires 0 <= i < |hs| => (EnvName(hs[i].0), hs[i].1))
  }

  lemma PrintedGood(hs: seq<Header>, bufsiz: nat)
    requires forall i :: 0 <= i < |hs| ==> GoodHeader(hs[i], bufsiz)
    ensures GoodLines(Printed(hs))
  {
    forall i | 0 <= i < |hs| ensures GoodLine(Printed(hs)[i]) {
      LineStored(hs[i], bufsiz);
    }
  }

  /** A printed header block stores exactly its headers. */
  lemma HeadersRoundTrip(hs: seq<Header>, bufsiz: nat)
    requires bufsiz > 0 && forall i :: 0 <= i < |hs| ==> GoodHeader(hs[i], bufsiz)
    ensures GoodLines(Printed(hs)) && Stored(Printed(hs), bufsiz) == Entries(hs)
  {
    PrintedGood(hs, bufsiz);
    forall i | 0 <= i < |hs| ensures Stored(Printed(hs), bufsiz)[i] == Entries(hs)[i] {
      LineStored(hs[i], bufsiz);
    }
  }

  predicate SameName(a: string, b: string) {
    |a| == |b| && forall k :: 0 <= k < |a| ==> Upper(a[k]) == Upper(b[k])
  }

  /** Letter case does not matter, and neither does which of the two loops
      normalized the name. */
  lemma CaseDoesNotMatter(a: string, b: string)
    requires SameName(a, b)
    ensures EnvName(a) == EnvName(b)
  {
  }

  /** After reading a request, each header is found under its name in any
      letter case, provided the normalized names are distinct. */
  lemma HeaderFound(hs: seq<Header>, env: Env, bufsiz: nat, i: nat, name: string)
    requires bufsiz > 0 && forall k :: 0 <= k < |hs| ==> GoodHeader(hs[k], bufsiz)
    requires DistinctKeys(Entries(hs)) && i < |hs| && SameName(name, hs[i].0)
    ensures GoodLines(Printed(hs))
    ensures var out := PutAll(env, Stored(Printed(hs), bufsiz), |hs|);
            EnvName(name) in out && out[EnvName(name)] == hs[i].1
  {
    HeadersRoundTrip(hs, bufsiz);
    PutAllHolds(env, Entries(hs), |hs|);
    CaseDoesNotMatter(name, hs[i].0);
    assert Entries(hs)[i] == (EnvName(hs[i].0), hs[i].1);
  }

  // ---- The keys, letter by letter ----

  /** The key of a header: the prefix, then its name with the 26 letters in
      upper case, hyphens as underscores and everything else as it is, cut to
      127 characters. */
  lemma KeyExact(name: string, k: nat)
    requires k < |name|
    ensures |EnvName(name)| == Min(5 + |name|, 127) && EnvName(name)[..5] == "HTTP_"
    ensures 5 + k < 127 ==>
              var c, e := name[k], EnvName(name)[5 + k];
              && (c == '-' ==> e == '_')
              && (c != '-' && c !in LOWER_LETTERS ==> e == c)
              && (forall j :: 0 <= j < 26 && c == LOWER_LETTERS[j] ==> e == UPPER_LETTERS[j])
  {
    var full := PREFIX + Norm(name);
    assert full[..5] == "HTTP_" && CutTo(full, 127)[..5] == full[..5];
    assert 5 + k < 127 ==> EnvName(name)[5 + k] == NormChar(name[k]);
    LettersExactly(name[k]);
    forall j | 0 <= j < 26 && name[k] == LOWER_LETTERS[j] ensures NormChar(name[k]) == UPPER_LETTERS[j] {
      Letters(j);
    }
  }
}
