// What a route pattern means for paths written segment by segment: the token
// matcher of `Pattern` against the reader's view of "/a/:b/*".
module RouteSegments {
  import opened Text
  import opened Pattern

  /** "/a/b/c". */
  function Path(segs: seq<string>): string {
    if segs == [] then "" else "/" + (segs[0] + Path(segs[1..]))
  }

  predicate PlainSegment(s: string) { s != "" && '/' !in s && '?' !in s }
  predicate Plain(segs: seq<string>) { forall k :: 0 <= k < |segs| ==> PlainSegment(segs[k]) }

  function Interleaved(segs: seq<string>): (t: seq<Token>)
    ensures |t| == 2 * |segs|
  {
    seq(2 * |segs|, k requires 0 <= k < 2 * |segs| => if k % 2 == 0 then Slash else Seg(segs[k / 2]))
  }

  lemma InterleavedFirst(segs: seq<string>)
    requires segs != []
    ensures Interleaved(segs) == [Slash, Seg(segs[0])] + Interleaved(segs[1..])
  {
    var t, u := Interleaved(segs), Interleaved(segs[1..]);
    forall k | 2 <= k < |t| ensures t[k] == u[k - 2] {
      assert k % 2 == (k - 2) % 2 && k / 2 == (k - 2) / 2 + 1;
    }
  }

  lemma FirstSegment(s: string, rest: string)
    requires PlainSegment(s) && (rest == "" || rest[0] == '/')
    ensures Tok("/" + (s + rest)) == [Slash, Seg(s)] + Tok(rest)
  {
    var w := s + rest;
    SegmentTokens(s, rest);
    assert ("/" + w)[1..] == w;
    assert [Slash] + ([Seg(s)] + Tok(rest)) == [Slash, Seg(s)] + Tok(rest);
  }

  lemma SegmentTokens(s: string, rest: string)
    requires PlainSegment(s) && (rest == "" || rest[0] == '/')
    ensures Tok(s + rest) == [Seg(s)] + Tok(rest)
  {
    var w := s + rest;
    assert w[0] == s[0] && s[0] in s && w[..|s|] == s && w[|s|..] == rest;
    BeforeUnique(w, '/', |s|);
  }

  /** The tokens of a path, and that it has no query. */
  lemma {:induction false} TokPath(segs: seq<string>)
    requires Plain(segs)
    ensures Tok(Path(segs)) == Interleaved(segs)
    ensures '?' !in Path(segs) && (Path(segs) == "" || Path(segs)[0] == '/')
  {
    if segs != [] {
      TokPath(segs[1..]);
      FirstSegment(segs[0], Path(segs[1..]));
      InterleavedFirst(segs);
    }
  }

  lemma TokensOfPath(segs: seq<string>)
    requires Plain(segs)
    ensures Tokens(Path(segs)) == Interleaved(segs)
  {
    TokPath(segs);
    BeforeAll(Path(segs), '?');
  }

  /** A path does not end in a slash. */
  lemma {:induction false} EndsInSegment(segs: seq<string>)
    requires Plain(segs) && segs != []
    ensures Path(segs) != "" && Path(segs)[|Path(segs)| - 1] != '/'
  {
    var s, rest := segs[0], Path(segs[1..]);
    assert Path(segs) == "/" + (s + rest);
    if |segs| > 1 {
      EndsInSegment(segs[1..]);
    } else {
      assert rest == "" && s[|s|-1] in s;
    }
  }

  lemma PathFacts(segs: seq<string>) returns (p: string, t: seq<Token>)
    requires Plain(segs)
    ensures p == Path(segs) && t == Interleaved(segs) && Tok(p) == t && Before(p, '?') == p
    ensures p == "" || p[|p|-1] != '/'
    ensures segs == [] <==> t == []
    ensures segs != [] ==> t[|t|-1] == Seg(segs[|segs|-1])
  {
    p, t := Path(segs), Interleaved(segs);
    TokPath(segs);
    BeforeAll(p, '?');
    if segs != [] {
      EndsInSegment(segs);
      assert t[2 * |segs| - 1] == Seg(segs[|segs|-1]);
    }
  }

  lemma WildPath(segs: seq<string>)
    requires Plain(segs)
    ensures Wild(Path(segs)) <==> segs != [] && segs[|segs|-1] == "*"
  {
    var p, t := PathFacts(segs);
    WildIs(p, t);
    if segs != [] {
      SegIs(t[|t|-1], segs[|segs|-1]);
    }
  }

  lemma SegIs(t: Token, s: string)
    requires t == Seg(s)
    ensures t == Seg("*") <==> s == "*"
  {
  }

  lemma WildIs(p: string, t: seq<Token>)
    requires Before(p, '?') == p && t == Tok(p) && (p == "" || p[|p|-1] != '/')
    ensures Wild(p) <==> t != [] && t[|t|-1] == Seg("*")
  {
    assert |p| >= 2 ==> p[|p|-2..][1] == p[|p|-1];
  }

  // ---- The meaning of a route ----

  predicate Names(p: string) { p != "" && p[0] == ':' }

  /** A segment that starts with a colon stands for any text below 256 bytes,
      any other for itself. */
  predicate Fits(p: string, u: string) { if Names(p) then |u| < 256 else p == u }

  function NameCount(ps: seq<string>, n: nat): nat
    requires n <= |ps|
  {
    if n == 0 then 0 else NameCount(ps, n - 1) + if Names(ps[n-1]) then 1 else 0
  }

  /** The named segments of the first `n`, with what they stand for. */
  function Taken(ps: seq<string>, us: seq<string>, n: nat): seq<Capture>
    requires n <= |ps| && n <= |us|
  {
    if n == 0 then []
    else Taken(ps, us, n - 1) + if Names(ps[n-1]) then [(ParamKey(ps[n-1]), us[n-1])] else []
  }

  lemma {:induction false} CountsAgree(ps: seq<string>, t: seq<Token>, n: nat)
    requires Plain(ps) && n <= |ps| && t == Interleaved(ps)
    ensures Params(t, 2 * n) == NameCount(ps, n)
  {
    if n > 0 {
      CountsAgree(ps, t, n - 1);
      assert t[2 * n - 1] == Seg(ps[n-1]) && t[2 * n - 2] == Slash;
      assert Params(t, 2 * n) == Params(t, 2 * n - 1) + if Names(ps[n-1]) then 1 else 0;
      assert Params(t, 2 * n - 1) == Params(t, 2 * n - 2);
    }
  }

  predicate TokensFit(p: seq<Token>, u: seq<Token>, n: nat) {
    n <= |p| && n <= |u| && forall k :: 0 <= k < n ==> TokenFits(p[k], u[k])
  }

  predicate AllFit(ps: seq<string>, us: seq<string>, n: nat) {
    n <= |ps| && n <= |us| && forall k :: 0 <= k < n ==> Fits(ps[k], us[k])
  }

  lemma FitsAgree(ps: seq<string>, us: seq<string>, n: nat, p: seq<Token>, u: seq<Token>)
    requires Plain(ps) && Plain(us) && n <= |ps| && n <= |us| && p == Interleaved(ps) && u == Interleaved(us)
    ensures TokensFit(p, u, 2 * n) <==> AllFit(ps, us, n)
  {
    if TokensFit(p, u, 2 * n) {
      forall k | 0 <= k < n ensures Fits(ps[k], us[k]) {
        assert TokenFits(p[2 * k + 1], u[2 * k + 1]);
      }
    }
    if AllFit(ps, us, n) {
      forall k | 0 <= k < 2 * n ensures TokenFits(p[k], u[k]) {
        if k % 2 == 1 {
          assert Fits(ps[k / 2], us[k / 2]);
        }
      }
    }
  }

  /** A route without a wildcard matches the paths with as many segments, each
      fitting its own. */
  lemma ExactRoute(ps: seq<string>, us: seq<string>)
    requires Plain(ps) && Plain(us) && (ps == [] || ps[|ps|-1] != "*")
    ensures Accepts(Path(ps), Path(us)) <==>
            |ps| == |us| && AllFit(ps, us, |ps|) && NameCount(ps, |ps|) <= 16
  {
    var pattern, p := PathFacts(ps);
    var path, u := PathFacts(us);
    WildPath(ps);
    AcceptsExactly(pattern, path, p, u);
    CountsAgree(ps, p, |ps|);
    if |ps| == |us| {
      FitsAgree(ps, us, |ps|, p, u);
    }
  }

  lemma AcceptsExactly(pattern: string, path: string, p: seq<Token>, u: seq<Token>)
    requires !Wild(pattern) && p == Tokens(pattern) && u == Tokens(path)
    ensures Accepts(pattern, path) <==>
            |u| == |p| && Params(p, |p|) <= MAX_PARAMS && TokensFit(p, u, |p|)
  {
  }

  /** A route with a wildcard at its end matches the paths with at least as
      many segments, of which those before the wildcard fit. */
  lemma StarRoute(ps: seq<string>, us: seq<string>)
    requires Plain(ps) && Plain(us) && ps != [] && ps[|ps|-1] == "*"
    ensures Accepts(Path(ps), Path(us)) <==>
            StarMatches(ps, us, |ps| - 1)
  {
    var pattern, p := PathFacts(ps);
    var path, u := PathFacts(us);
    WildPath(ps);
    AcceptsStar(pattern, path, p, u);
    StarMeans(ps, us, |ps| - 1, p, u);
  }

  /** What the token matcher asks of the two token lists. */
  predicate StarAccepts(p: seq<Token>, u: seq<Token>) {
    p != [] && |u| > |p| - 1 && Params(p, |p| - 1) <= MAX_PARAMS && TokensFit(p, u, |p| - 1)
  }

  predicate StarMatches(ps: seq<string>, us: seq<string>, n: nat) {
    n <= |ps| && |us| > n && AllFit(ps, us, n) && NameCount(ps, n) <= 16
  }

  lemma StarMeans(ps: seq<string>, us: seq<string>, n: nat, p: seq<Token>, u: seq<Token>)
    requires Plain(ps) && Plain(us) && |ps| == n + 1 && p == Interleaved(ps) && u == Interleaved(us)
    ensures StarAccepts(p, u) <==> StarMatches(ps, us, n)
  {
    StarCount(ps, p, n);
    if |us| > n {
      StarFits(ps, us, n, p, u);
    }
    Lengths(|p|, |u|, |us|, n);
  }

  lemma Lengths(p: nat, u: nat, us: nat, n: nat)
    requires p == 2 * n + 2 && u == 2 * us
    ensures p - 1 == 2 * n + 1 && (u > p - 1 <==> us > n)
  {
  }

  lemma AcceptsStar(pattern: string, path: string, p: seq<Token>, u: seq<Token>)
    requires Wild(pattern) && p == Tokens(pattern) && u == Tokens(path)
    ensures p != []
    ensures Accepts(pattern, path) <==> StarAccepts(p, u)
  {
  }

  lemma StarCount(qs: seq<string>, p: seq<Token>, n: nat)
    requires Plain(qs) && |qs| == n + 1 && p == Interleaved(qs)
    ensures Params(p, 2 * n + 1) == NameCount(qs, n)
  {
    CountsAgree(qs, p, n);
    assert p[2 * n] == Slash;
  }

  lemma StarFits(qs: seq<string>, us: seq<string>, n: nat, p: seq<Token>, u: seq<Token>)
    requires Plain(qs) && Plain(us) && |qs| == n + 1 && n < |us| && p == Interleaved(qs) && u == Interleaved(us)
    ensures TokensFit(p, u, 2 * n + 1) <==> AllFit(qs, us, n)
  {
    FitsAgree(qs, us, n, p, u);
    assert p[2 * n] == Slash && u[2 * n] == Slash;
    assert TokensFit(p, u, 2 * n + 1) <==> TokensFit(p, u, 2 * n) && TokenFits(p[2 * n], u[2 * n]);
  }

  /** What a route without a wildcard captures. */
  lemma ExactCaptures(ps: seq<string>, us: seq<string>)
    requires Plain(ps) && Plain(us) && (ps == [] || ps[|ps|-1] != "*") && Accepts(Path(ps), Path(us))
    ensures |ps| == |us| && Report(Path(ps), Path(us)).captures == Taken(ps, us, |ps|)
  {
    ExactRoute(ps, us);
    TokensOfPath(ps);
    TokensOfPath(us);
    WildPath(ps);
    TakenAgree(ps, us, Interleaved(ps), Interleaved(us), |ps|);
  }

  lemma {:induction false} TakenAgree(ps: seq<string>, us: seq<string>, p: seq<Token>, u: seq<Token>, n: nat)
    requires Plain(ps) && Plain(us) && n <= |ps| && n <= |us| && p == Interleaved(ps) && u == Interleaved(us)
    requires forall k :: 0 <= k < 2 * n ==> TokenFits(p[k], u[k])
    ensures Captures(p, u, 2 * n) == Taken(ps, us, n)
  {
    if n > 0 {
      TakenAgree(ps, us, p, u, n - 1);
      assert p[2 * n - 1] == Seg(ps[n-1]) && u[2 * n - 1] == Seg(us[n-1]) && p[2 * n - 2] == Slash;
      assert Captures(p, u, 2 * n - 1) == Captures(p, u, 2 * n - 2);
    }
  }

  // ---- What a match reports ----

  /** The characters in the segments that are matched as they are. */
  function LiteralChars(ps: seq<string>, n: nat): nat
    requires n <= |ps|
  {
    if n == 0 then 0 else LiteralChars(ps, n - 1) + if Names(ps[n-1]) then 0 else |ps[n-1]|
  }

  lemma {:induction false} LiteralsAgree(ps: seq<string>, t: seq<Token>, n: nat)
    requires Plain(ps) && n <= |ps| && t == Interleaved(ps)
    ensures Literals(t, 2 * n) == LiteralChars(ps, n)
  {
    if n > 0 {
      LiteralsAgree(ps, t, n - 1);
      assert t[2 * n - 1] == Seg(ps[n-1]) && t[2 * n - 2] == Slash;
      assert Literals(t, 2 * n - 1) == Literals(t, 2 * n - 2);
    }
  }

  lemma CountsBehind(ps: seq<string>, t: seq<Token>, n: nat, m: nat)
    requires Plain(ps) && n <= |ps| && t == Interleaved(ps)
    requires m == 2 * n || (n < |ps| && m == 2 * n + 1)
    ensures m <= |t| && Literals(t, m) == LiteralChars(ps, n) && Params(t, m) == NameCount(ps, n)
  {
    LiteralsAgree(ps, t, n);
    CountsAgree(ps, t, n);
    if m == 2 * n + 1 {
      assert t[2 * n] == Slash;
    }
  }

  lemma ReportCounts(pattern: string, path: string, t: seq<Token>, m: nat)
    requires Accepts(pattern, path) && t == Tokens(pattern) && m == Compared(pattern) <= |t|
    ensures var r := Report(pattern, path);
            r.wildcards == (if Wild(pattern) then 1 else 0) && r.literals == Literals(t, m) && r.params == Params(t, m)
  {
  }

  /** The rank of a route, read off its segments. */
  lemma ReportExact(ps: seq<string>, us: seq<string>)
    requires Plain(ps) && Plain(us) && Accepts(Path(ps), Path(us))
    ensures var m, star := Report(Path(ps), Path(us)), ps != [] && ps[|ps|-1] == "*";
            var n := if star then |ps| - 1 else |ps|;
            m.wildcards == (if star then 1 else 0) && m.literals == LiteralChars(ps, n) && m.params == NameCount(ps, n)
  {
    var star := ps != [] && ps[|ps|-1] == "*";
    var n := if star then |ps| - 1 else |ps|;
    var m := if star then 2 * n + 1 else 2 * n;
    TokensOfPath(ps);
    WildPath(ps);
    CountsBehind(ps, Interleaved(ps), n, m);
    ReportCounts(Path(ps), Path(us), Interleaved(ps), m);
  }

  /** The key of ":id". */
  lemma KeyExample()
    ensures ParamKey(":id") == "PATTERN_PARAM_ID"
  {
    var rest := ":id"[1..];
    assert rest == "id" && rest[1..] == "d" && rest[1..][1..] == "";
    assert UpperAll("d") == "D" && UpperAll("id") == "ID";
  }
}
