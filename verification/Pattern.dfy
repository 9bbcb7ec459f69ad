// `pattern_match`: matching a route pattern against a path, against a
// declarative matcher on tokens.
module Pattern {
  import opened Text

  // ---- Tokens ----

  datatype Token = Slash | Seg(text: string)

  /** Slashes and segments of a text, with repeated slashes collapsed and
      trailing ones dropped. */
  function Tok(s: string): seq<Token> {
    if s == "" then []
    else if s[0] == '/' then
      var t := Tok(s[1..]);
      if t == [] || t[0].Slash? then t else [Slash] + t
    else
      var seg := SegHead(s);
      [Seg(seg)] + Tok(s[|seg|..])
  }

  /** The segment that `s` starts with. */
  function SegHead(s: string): (r: string)
    ensures |r| <= |s| && r == s[..|r|] && '/' !in r
    ensures |r| < |s| ==> s[|r|] == '/'
    ensures s != "" && s[0] != '/' ==> r != "" && r[0] == s[0]
  {
    Before(s, '/')
  }

  function Tokens(s: string): seq<Token> { Tok(Before(s, '?')) }

  /** The pattern ends in a "*" segment followed by at most one slash. */
  predicate Wild(pattern: string) {
    var p := Before(pattern, '?');
    var t := Tok(p);
    t != [] && t[|t|-1] == Seg("*") && !(|p| >= 2 && p[|p|-2..] == "//")
  }

  predicate IsParam(t: Token) { t.Seg? && t.text != "" && t.text[0] == ':' }

  const MAX_PARAMS := 16
  const MAX_VALUE := 256
  const MAX_KEY := 256

  predicate TokenFits(p: Token, u: Token) {
    if p.Slash? || u.Slash? then p == u
    else if IsParam(p) then |u.text| < MAX_VALUE
    else p.text == u.text
  }

  function Params(p: seq<Token>, n: nat): nat
    requires n <= |p|
  {
    if n == 0 then 0 else Params(p, n - 1) + if IsParam(p[n-1]) then 1 else 0
  }

  function Literals(p: seq<Token>, n: nat): nat
    requires n <= |p|
  {
    if n == 0 then 0
    else Literals(p, n - 1) + if p[n-1].Seg? && !IsParam(p[n-1]) then |p[n-1].text| else 0
  }

  /** The number of pattern tokens that are compared one by one. */
  function Compared(pattern: string): nat {
    |Tokens(pattern)| - if Wild(pattern) then 1 else 0
  }

  /** The declared meaning of a match. */
  predicate Accepts(pattern: string, path: string) {
    var p, u, n := Tokens(pattern), Tokens(path), Compared(pattern);
    && (if Wild(pattern) then |u| > n else |u| == n)
    && (forall k :: 0 <= k < n ==> TokenFits(p[k], u[k]))
    && Params(p, n) <= MAX_PARAMS
  }

  function UpperAll(s: string): (r: string)
    ensures |r| == |s|
    ensures forall k :: 0 <= k < |s| ==> r[k] == Upper(s[k])
  {
    if s == "" then "" else [Upper(s[0])] + UpperAll(s[1..])
  }

  /** The environment key of a parameter segment. */
  function ParamKey(text: string): string
    requires text != ""
  {
    var k := "PATTERN_PARAM_" + UpperAll(text[1..]);
    if |k| < MAX_KEY then k else k[..MAX_KEY - 1]
  }

  type Capture = (string, string)

  /** What the first `n` tokens capture, in order. */
  function Captures(p: seq<Token>, u: seq<Token>, n: nat): (r: seq<Capture>)
    requires n <= |p| && n <= |u|
    requires forall k :: 0 <= k < n ==> TokenFits(p[k], u[k])
    ensures |r| == Params(p, n)
  {
    if n == 0 then []
    else
      assert TokenFits(p[n-1], u[n-1]);
      Captures(p, u, n - 1) + (if IsParam(p[n-1]) then [(ParamKey(p[n-1].text), u[n-1].text)] else [])
  }

  datatype Match = Match(matched: bool, literals: nat, params: nat, wildcards: nat, captures: seq<Capture>)

  const NO_MATCH := Match(false, 0, 0, 0, [])

  /** What a successful match reports. */
  function Report(pattern: string, path: string): (m: Match)
    requires Accepts(pattern, path)
    ensures m.matched && |m.captures| == m.params <= MAX_PARAMS
  {
    var p, n := Tokens(pattern), Compared(pattern);
    Match(true, Literals(p, n), Params(p, n), if Wild(pattern) then 1 else 0,
          Captures(p, Tokens(path), n))
  }

  // ---- Facts about tokens ----

  lemma {:induction false} TokStart(s: string)
    ensures Tok(s) == [] || Tok(s)[0].Slash? <==> s == "" || s[0] == '/'
    ensures Tok(s) == [] ==> forall k :: 0 <= k < |s| ==> s[k] == '/'
  {
    if s != "" && s[0] == '/' {
      TokStart(s[1..]);
    }
  }

  lemma ParamsMono(p: seq<Token>, a: nat, b: nat)
    requires a <= b <= |p|
    ensures Params(p, a) <= Params(p, b)
  {
  }

  lemma NeededSlash(s: string)
    requires |s| >= 2 && s[0] == '/' && s[1] != '/'
    ensures Tok(s) == [Slash] + Tok(s[1..])
  {
  }

  lemma {:induction false} TokSlashesOnly(s: string)
    requires forall k :: 0 <= k < |s| ==> s[k] == '/'
    ensures Tok(s) == []
  {
    if s != "" {
      TokSlashesOnly(s[1..]);
    }
  }

  lemma StarTokens(r: string)
    requires r == "*" || r == "*/"
    ensures Tok(r) == [Seg("*")]
  {
    BeforeUnique(r, '/', 1);
    assert r[..1] == "*";
    TokSlashesOnly(r[1..]);
  }

  lemma TokensStar(r: string)
    requires r != "" && r[0] != '/' && Tok(r) == [Seg("*")]
    ensures r[0] == '*' && forall k :: 1 <= k < |r| ==> r[k] == '/'
  {
    var seg := SegHead(r);
    assert Tok(r)[0] == Seg(seg) && Tok(r)[1..] == Tok(r[|seg|..]);
    TokStart(r[1..]);
    assert forall k :: 1 <= k < |r| ==> r[k] == r[1..][k - 1];
  }

  /** At the last token, the test of the code is the declared one. */
  lemma StarTest(p: string, i: nat, t: seq<Token>, c: nat)
    requires i < |p| && p[i] != '/' && c < |t| && Tok(p[i..]) == t[c..]
    ensures (p[i..] == "*" || p[i..] == "*/") <==>
            t[|t|-1] == Seg("*") && !(|p| >= 2 && p[|p|-2..] == "//") && c == |t| - 1
  {
    var r := p[i..];
    assert t[c..][|t| - c - 1] == t[|t|-1];
    if r == "*" || r == "*/" {
      StarTokens(r);
      StarEnds(p, i);
    } else if c == |t| - 1 && t[c] == Seg("*") {
      assert t[c..] == [Seg("*")];
      TokensStar(r);
      SlashesEnd(p, i);
    }
  }

  lemma StarEnds(p: string, i: nat)
    requires i < |p| && (p[i..] == "*" || p[i..] == "*/")
    ensures !(|p| >= 2 && p[|p|-2..] == "//")
  {
    var r := p[i..];
    assert p[|p|-1] == r[|r|-1];
    assert |r| == 2 ==> p[|p|-2] == r[0];
  }

  lemma SlashesEnd(p: string, i: nat)
    requires i < |p| && p[i..] != "*" && p[i..] != "*/"
    requires p[i..][0] == '*' && forall k :: 1 <= k < |p[i..]| ==> p[i..][k] == '/'
    ensures |p| >= 2 && p[|p|-2..] == "//"
  {
    var r := p[i..];
    assert |r| == 1 ==> r == "*";
    assert |r| == 2 ==> r == "*/";
    assert p[|p|-2..] == r[|r|-2..] == "//";
  }

  // ---- The code ----

  /** `*(s + i)` for a C string. */
  function At(s: string, i: nat): char
    requires i <= |s|
  {
    if i < |s| then s[i] else '\0'
  }

  predicate Ended(s: string, i: nat)
    requires i <= |s|
  {
    At(s, i) == '\0' || At(s, i) == '?'
  }

  /** A pointer into a text never passes its '?' or NUL. */
  predicate Inside(s: string, i: nat) { i <= |Before(s, '?')| }

  function Rest(s: string, i: nat): string
    requires Inside(s, i)
  {
    Before(s, '?')[i..]
  }

  /** `while (*p == '/' && (p[1] == '/' || !p[1] || p[1] == '?')) p++;` */
  method SkipRedundant(s: string, start: nat) returns (i: nat)
    requires CText(s) && Inside(s, start)
    ensures Inside(s, i) && start <= i
    ensures Tok(Rest(s, i)) == Tok(Rest(s, start))
    ensures |Rest(s, i)| > 0 && Rest(s, i)[0] == '/' ==> |Rest(s, i)| >= 2 && Rest(s, i)[1] != '/'
  {
    i := start;
    while At(s, i) == '/' && (At(s, i + 1) == '/' || Ended(s, i + 1))
      invariant Inside(s, i) && start <= i <= |s| && (Ended(s, i) <==> Rest(s, i) == "")
      invariant !Ended(s, i) ==> s[i] == Rest(s, i)[0]
      invariant Tok(Rest(s, i)) == Tok(Rest(s, start))
      decreases |s| - i
    {
      assert Rest(s, i)[1..] == Rest(s, i + 1);
      i := i + 1;
    }
  }

  /** `while (*p && *p != '/' && *p != '?') p++;` */
  method SkipSegment(s: string, start: nat) returns (i: nat)
    requires CText(s) && Inside(s, start) && start <= |s|
    ensures Inside(s, i) && start <= i <= |s|
    ensures s[start..i] == SegHead(Rest(s, start))
    ensures Rest(s, i) == Rest(s, start)[i - start..]
  {
    i := start;
    ghost var r := Rest(s, start);
    while !Ended(s, i) && At(s, i) != '/'
      invariant start <= i <= |s| && Inside(s, i) && (Ended(s, i) <==> i - start == |r|)
      invariant !Ended(s, i) ==> s[i] == r[i - start]
      invariant forall k :: 0 <= k < i - start ==> s[start + k] == r[k] && r[k] != '/'
      decreases |s| - i
    {
      i := i + 1;
    }
    assert s[start..i] == r[..i - start];
    BeforeUnique(r, '/', i - start);
  }

  /** The key buffer of a capture, filled up to its size. */
  method EnvKey(text: string) returns (key: string)
    requires text != ""
    ensures key == ParamKey(text)
  {
    key := "PATTERN_PARAM_";
    var i := 1;
    ghost var full := "PATTERN_PARAM_" + UpperAll(text[1..]);
    while i < |text| && |key| + 1 < MAX_KEY
      invariant 1 <= i <= |text| && |key| == 13 + i && |key| < MAX_KEY
      invariant key == full[..|key|]
    {
      assert full[|key|] == Upper(text[i]);
      key := key + [Upper(text[i])];
      i := i + 1;
    }
  }

  /** The wildcard test at line 2103 on the bytes. */
  predicate StarHere(s: string, i: nat)
    requires i < |s|
  {
    s[i] == '*' && (Ended(s, i + 1) || (At(s, i + 1) == '/' && Ended(s, i + 2)))
  }

  lemma EndedIff(s: string, i: nat)
    requires CText(s) && Inside(s, i)
    ensures i <= |s| && (Ended(s, i) <==> i == |Before(s, '?')|)
    ensures !Ended(s, i) ==> s[i] == Before(s, '?')[i]
  {
    var b := Before(s, '?');
    assert i < |b| ==> b[i] in b && b[i] in s;
  }

  lemma StarBytes(s: string, i: nat)
    requires CText(s) && Inside(s, i) && Rest(s, i) != ""
    ensures i < |s| && (StarHere(s, i) <==> Rest(s, i) == "*" || Rest(s, i) == "*/")
  {
    var r := Rest(s, i);
    EndedIff(s, i);
    EndedIff(s, i + 1);
    if |r| >= 2 {
      EndedIff(s, i + 2);
      assert r[1] == s[i + 1];
    }
    assert |r| == 1 && r[0] == '*' ==> r == "*";
    assert |r| == 2 && r[0] == '*' && r[1] == '/' ==> r == "*/";
  }

  /** It holds exactly at the wildcard. */
  lemma AtTerminalStar(pattern: string, i: nat, c: nat)
    requires CText(pattern) && Inside(pattern, i) && Rest(pattern, i) != ""
    requires c < |Tokens(pattern)| && Tok(Rest(pattern, i)) == Tokens(pattern)[c..]
    ensures i < |pattern| && (StarHere(pattern, i) <==> Wild(pattern) && c == Compared(pattern))
  {
    StarBytes(pattern, i);
    if Rest(pattern, i)[0] != '/' {
      AtLastSegment(pattern, i, c);
    } else {
      AtSlash(pattern, i, c);
    }
  }

  lemma AtLastSegment(pattern: string, i: nat, c: nat)
    requires Inside(pattern, i) && Rest(pattern, i) != "" && Rest(pattern, i)[0] != '/'
    requires c < |Tokens(pattern)| && Tok(Rest(pattern, i)) == Tokens(pattern)[c..]
    ensures Rest(pattern, i) == "*" || Rest(pattern, i) == "*/" <==> Wild(pattern) && c == Compared(pattern)
  {
    StarTest(Before(pattern, '?'), i, Tokens(pattern), c);
  }

  lemma AtSlash(pattern: string, i: nat, c: nat)
    requires Inside(pattern, i) && Rest(pattern, i) != "" && Rest(pattern, i)[0] == '/'
    requires c < |Tokens(pattern)| && Tok(Rest(pattern, i)) == Tokens(pattern)[c..]
    ensures !(Wild(pattern) && c == Compared(pattern))
  {
    TokStart(Rest(pattern, i));
    assert Tokens(pattern)[c..][0] == Tokens(pattern)[c] && Tokens(pattern)[c].Slash?;
  }

  /** How far two texts have been matched. */
  ghost predicate Matched(pattern: string, path: string, i: nat, j: nat, c: nat, m: Match) {
    var p, u := Tokens(pattern), Tokens(path);
    && Inside(pattern, i) && Inside(path, j)
    && c <= Compared(pattern) && c <= |u|
    && Tok(Rest(pattern, i)) == p[c..] && Tok(Rest(path, j)) == u[c..]
    && (forall k :: 0 <= k < c ==> TokenFits(p[k], u[k]))
    && Params(p, c) <= MAX_PARAMS
    && m == Match(false, Literals(p, c), Params(p, c), 0, Captures(p, u, c))
  }

  /** One more pair of tokens was consumed. */
  lemma Advance(pattern: string, path: string, i: nat, j: nat, c: nat, m: Match, i': nat, j': nat, m': Match)
    requires Matched(pattern, path, i, j, c, m) && c < Compared(pattern) && c < |Tokens(path)|
    requires var pc, uc := Tokens(pattern)[c], Tokens(path)[c];
      && TokenFits(pc, uc)
      && Inside(pattern, i') && Inside(path, j')
      && Tok(Rest(pattern, i)) == [pc] + Tok(Rest(pattern, i')) && Tok(Rest(path, j)) == [uc] + Tok(Rest(path, j'))
      && (IsParam(pc) ==> |m.captures| < MAX_PARAMS)
      && m' == (if IsParam(pc) then m.(captures := m.captures + [(ParamKey(pc.text), uc.text)], params := m.params + 1)
                else if pc.Seg? then m.(literals := m.literals + |pc.text|)
                else m)
    ensures Matched(pattern, path, i', j', c + 1, m')
  {
    NextTokens(Tokens(pattern), c, Tok(Rest(pattern, i)), Tok(Rest(pattern, i')));
    NextTokens(Tokens(path), c, Tok(Rest(path, j)), Tok(Rest(path, j')));
  }

  lemma NextTokens(t: seq<Token>, c: nat, here: seq<Token>, next: seq<Token>)
    requires c < |t| && here == t[c..] && here == [t[c]] + next
    ensures next == t[c + 1..]
  {
    assert here[1..] == next && t[c..][1..] == t[c + 1..];
  }

  /** Both pointers are at a segment (line 2121 on). */
  method MatchSegment(pattern: string, path: string, ps: nat, us: nat, ghost c: nat, m: Match)
      returns (ok: bool, i: nat, j: nat, m': Match)
    requires CText(pattern) && CText(path) && Matched(pattern, path, ps, us, c, m) && c < Compared(pattern)
    requires Rest(pattern, ps) != "" && Rest(path, us) != ""
    requires Rest(pattern, ps)[0] != '/' && Rest(path, us)[0] != '/'
    ensures ok ==> Matched(pattern, path, i, j, c + 1, m')
    ensures !ok ==> !Accepts(pattern, path) && !m'.matched
  {
    ghost var p, u, n := Tokens(pattern), Tokens(path), Compared(pattern);
    i := SkipSegment(pattern, ps);
    j := SkipSegment(path, us);
    var seg, val := pattern[ps..i], path[us..j];
    m' := m;
    assert Tok(Rest(pattern, ps)) == [Seg(seg)] + Tok(Rest(pattern, i));
    assert Tok(Rest(path, us)) == [Seg(val)] + Tok(Rest(path, j));
    assert p[c] == p[c..][0] == Seg(seg) && u[c] == u[c..][0] == Seg(val);
    if seg[0] == ':' {
      if |m.captures| >= MAX_PARAMS {
        ParamsMono(p, c + 1, n);
        return false, i, j, m';
      }
      var key := EnvKey(seg);
      if |val| >= MAX_VALUE {
        assert !TokenFits(p[c], u[c]);
        return false, i, j, m';
      }
      m' := m.(captures := m.captures + [(key, val)], params := m.params + 1);
    } else {
      if seg != val {
        assert !TokenFits(p[c], u[c]);
        return false, i, j, m';
      }
      m' := m.(literals := m.literals + |seg|);
    }
    Advance(pattern, path, ps, us, c, m, i, j, m');
    ok := true;
  }

  /** One of the pointers is at a slash, and no redundant one (line 2113). */
  method MatchSlash(pattern: string, path: string, i: nat, j: nat, ghost c: nat, ghost m: Match) returns (ok: bool)
    requires CText(pattern) && CText(path) && Matched(pattern, path, i, j, c, m) && c < Compared(pattern)
    requires Rest(pattern, i) != "" && Rest(path, j) != ""
    requires Rest(pattern, i)[0] == '/' || Rest(path, j)[0] == '/'
    requires Rest(pattern, i)[0] == '/' ==> |Rest(pattern, i)| >= 2 && Rest(pattern, i)[1] != '/'
    requires Rest(path, j)[0] == '/' ==> |Rest(path, j)| >= 2 && Rest(path, j)[1] != '/'
    ensures ok ==> Matched(pattern, path, i + 1, j + 1, c + 1, m)
    ensures !ok ==> !Accepts(pattern, path)
  {
    ghost var p, u, r, t := Tokens(pattern), Tokens(path), Rest(pattern, i), Rest(path, j);
    TokStart(r);
    TokStart(t);
    if r[0] == '/' { NeededSlash(r); }
    if t[0] == '/' { NeededSlash(t); }
    assert p[c] == p[c..][0] == Tok(r)[0] && u[c] == u[c..][0] == Tok(t)[0];
    ok := pattern[i] == path[j];
    if ok {
      assert r[1..] == Rest(pattern, i + 1) && t[1..] == Rest(path, j + 1);
      Advance(pattern, path, i, j, c, m, i + 1, j + 1, m);
    } else {
      assert !TokenFits(p[c], u[c]);
    }
  }

  lemma BothEnded(pattern: string, path: string, i: nat, j: nat, c: nat, m: Match)
    requires Matched(pattern, path, i, j, c, m)
    requires Tokens(pattern)[c..] == [] && Tokens(path)[c..] == []
    ensures Accepts(pattern, path) && m.(matched := true) == Report(pattern, path)
  {
  }

  lemma StarReached(pattern: string, path: string, i: nat, j: nat, c: nat, m: Match)
    requires Matched(pattern, path, i, j, c, m)
    requires Wild(pattern) && c == Compared(pattern) && Tokens(path)[c..] != []
    ensures Accepts(pattern, path) && m.(matched := true, wildcards := 1) == Report(pattern, path)
  {
  }

  /** The two skipping loops; it also says which texts are used up. */
  method Align(pattern: string, path: string, i0: nat, j0: nat, ghost c: nat, ghost m: Match) returns (i: nat, j: nat)
    requires CText(pattern) && CText(path) && Matched(pattern, path, i0, j0, c, m)
    ensures Matched(pattern, path, i, j, c, m) && i <= |pattern| && j <= |path|
    ensures Ended(pattern, i) <==> Rest(pattern, i) == ""
    ensures Ended(path, j) <==> Rest(path, j) == ""
    ensures Ended(pattern, i) <==> Tokens(pattern)[c..] == []
    ensures Ended(path, j) <==> Tokens(path)[c..] == []
    ensures !Ended(pattern, i) ==> pattern[i] == Rest(pattern, i)[0]
    ensures !Ended(path, j) ==> path[j] == Rest(path, j)[0]
    ensures !Ended(pattern, i) && pattern[i] == '/' ==> |Rest(pattern, i)| >= 2 && Rest(pattern, i)[1] != '/'
    ensures !Ended(path, j) && path[j] == '/' ==> |Rest(path, j)| >= 2 && Rest(path, j)[1] != '/'
  {
    i := SkipTo(pattern, i0, Tokens(pattern), c);
    j := SkipTo(path, j0, Tokens(path), c);
  }

  /** One of them: what follows is the rest `t[c..]` of the tokens. */
  method SkipTo(s: string, i0: nat, ghost t: seq<Token>, ghost c: nat) returns (i: nat)
    requires CText(s) && Inside(s, i0) && c <= |t| && Tok(Rest(s, i0)) == t[c..]
    ensures Inside(s, i) && i <= |s| && Tok(Rest(s, i)) == t[c..]
    ensures Ended(s, i) <==> Rest(s, i) == ""
    ensures Ended(s, i) <==> t[c..] == []
    ensures !Ended(s, i) ==> s[i] == Rest(s, i)[0]
    ensures !Ended(s, i) && s[i] == '/' ==> |Rest(s, i)| >= 2 && Rest(s, i)[1] != '/'
  {
    i := SkipRedundant(s, i0);
    TokStart(Rest(s, i));
  }

  /** One turn of the loop: a verdict, or one more pair of tokens matched. */
  method MatchNext(pattern: string, path: string, i0: nat, j0: nat, ghost c: nat, m0: Match)
      returns (done: bool, ok: bool, i: nat, j: nat, m: Match)
    requires CText(pattern) && CText(path) && Matched(pattern, path, i0, j0, c, m0)
    ensures done ==> (ok <==> Accepts(pattern, path)) && if ok then m == Report(pattern, path) else !m.matched
    ensures !done ==> c < Compared(pattern) && Matched(pattern, path, i, j, c + 1, m)
  {
    m := m0;
    i, j := Align(pattern, path, i0, j0, c, m);
    if Ended(pattern, i) && Ended(path, j) {
      BothEnded(pattern, path, i, j, c, m);
      return true, true, i, j, m.(matched := true);
    }
    if Ended(pattern, i) || Ended(path, j) {
      return true, false, i, j, m;
    }
    AtTerminalStar(pattern, i, c);
    if StarHere(pattern, i) {
      StarReached(pattern, path, i, j, c, m);
      return true, true, i, j, m.(matched := true, wildcards := 1);
    }
    if pattern[i] == '/' || path[j] == '/' {
      ok := MatchSlash(pattern, path, i, j, c, m);
      i, j := i + 1, j + 1;
    } else {
      ok, i, j, m := MatchSegment(pattern, path, i, j, c, m);
    }
    done := !ok;
  }

  lemma MatchStart(pattern: string, path: string)
    ensures Matched(pattern, path, 0, 0, 0, NO_MATCH)
  {
    assert Rest(pattern, 0) == Before(pattern, '?') && Rest(path, 0) == Before(path, '?');
  }

  /** `pattern_match`: it accepts exactly what is declared, and reports the
      captured segments in order. */
  method PatternMatch(pattern: string, path: string) returns (ok: bool, m: Match)
    requires CText(pattern) && CText(path)
    ensures ok <==> Accepts(pattern, path)
    ensures ok ==> m == Report(pattern, path)
    ensures !ok ==> !m.matched
  {
    m := NO_MATCH;
    var i, j, done := 0, 0, false;
    ghost var c := 0;
    ok := false;
    MatchStart(pattern, path);
    while !done
      invariant 0 <= i && 0 <= j && 0 <= c
      invariant !done ==> Matched(pattern, path, i, j, c, m)
      invariant done ==> (ok <==> Accepts(pattern, path)) && if ok then m == Report(pattern, path) else !m.matched
      decreases !done, Compared(pattern) - c
    {
      done, ok, i, j, m := MatchNext(pattern, path, i, j, c, m);
      c := c + 1;
    }
  }

  // ---- What the verdict ignores ----

  lemma {:induction false} TokTrailing(s: string)
    ensures Tok(s + "/") == Tok(s)
  {
    if s == "" {
      TokSlashesOnly("/");
    } else if s[0] == '/' {
      assert (s + "/")[1..] == s[1..] + "/";
      TokTrailing(s[1..]);
    } else {
      var seg := SegHead(s);
      var n := |seg|;
      assert (s + "/")[..n] == s[..n] && (n < |s| ==> (s + "/")[n] == '/');
      BeforeUnique(s + "/", '/', n);
      assert (s + "/")[n..] == s[n..] + "/";
      TokTrailing(s[n..]);
    }
  }

  lemma {:induction false} TokDoubled(s: string, t: string)
    ensures Tok(s + "//" + t) == Tok(s + "/" + t)
  {
    var one, two := s + "/" + t, s + "//" + t;
    if s == "" {
      assert two[1..] == one;
    } else if s[0] == '/' {
      assert two[1..] == s[1..] + "//" + t && one[1..] == s[1..] + "/" + t;
      TokDoubled(s[1..], t);
    } else {
      var n := |SegHead(s)|;
      assert one[..n] == s[..n] && two[..n] == s[..n];
      assert n < |s| ==> one[n] == s[n] && two[n] == s[n];
      BeforeUnique(one, '/', n);
      BeforeUnique(two, '/', n);
      assert two[n..] == s[n..] + "//" + t && one[n..] == s[n..] + "/" + t;
      TokDoubled(s[n..], t);
    }
  }

  lemma SameTokensSameVerdict(pattern: string, p: string, q: string)
    requires Tokens(p) == Tokens(q)
    ensures Accepts(pattern, p) <==> Accepts(pattern, q)
    ensures Accepts(pattern, p) ==> Report(pattern, p) == Report(pattern, q)
  {
  }

  lemma QueryIgnored(s: string, query: string)
    requires '?' !in s
    ensures Tokens(s + "?" + query) == Tokens(s)
  {
    assert (s + "?" + query)[..|s|] == s;
    BeforeUnique(s + "?" + query, '?', |s|);
    BeforeAll(s, '?');
  }

  /** Doubling a slash of the path, adding a trailing slash or a query changes
      neither the verdict nor what is reported. */
  lemma PathNormalization(pattern: string, s: string, t: string, query: string)
    requires '?' !in s && '?' !in t
    ensures forall p :: p in [s + "//" + t, s + "/" + t + "/", s + "/" + t + "?" + query] ==>
              (Accepts(pattern, p) <==> Accepts(pattern, s + "/" + t)) &&
              (Accepts(pattern, p) ==> Report(pattern, p) == Report(pattern, s + "/" + t))
  {
    var one := s + "/" + t;
    var doubled, slashed := s + "//" + t, one + "/";
    BeforeAll(one, '?');
    BeforeAll(doubled, '?');
    BeforeAll(slashed, '?');
    TokDoubled(s, t);
    TokTrailing(one);
    QueryIgnored(one, query);
    SameTokensSameVerdict(pattern, doubled, one);
    SameTokensSameVerdict(pattern, slashed, one);
    SameTokensSameVerdict(pattern, one + "?" + query, one);
  }
}
