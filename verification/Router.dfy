// `axil_match_pattern`: choosing the best route among all registered patterns.
module Router {
  import opened Text
  import opened Pattern

  type Handler = nat  // a non-null handler pointer
  type Route = (string, Handler)

  datatype Choice = None | Some(handler: Handler, how: Match)

  /** `pattern_better_match`. */
  predicate Better(candidate: Match, best: Match) {
    if !best.matched then true
    else if candidate.wildcards != best.wildcards then candidate.wildcards < best.wildcards
    else if candidate.literals != best.literals then candidate.literals > best.literals
    else candidate.params < best.params
  }

  /** Entries without ':' and '*' are plain paths and are skipped. */
  predicate IsPattern(pattern: string) { ':' in pattern || '*' in pattern }

  /** How a route matches a request: with its method first, then without. */
  predicate Matches(r: Route, withMethod: string, uri: string) {
    IsPattern(r.0) && (Accepts(r.0, withMethod) || Accepts(r.0, uri))
  }

  function How(r: Route, withMethod: string, uri: string): (m: Match)
    requires Matches(r, withMethod, uri)
    ensures m.matched
  {
    if Accepts(r.0, withMethod) then Report(r.0, withMethod) else Report(r.0, uri)
  }

  /** Lexicographic: fewer wildcards, then more literal characters, then fewer
      captures. */
  predicate AtLeastAsGood(a: Match, b: Match) {
    a.wildcards < b.wildcards ||
    (a.wildcards == b.wildcards &&
     (a.literals > b.literals || (a.literals == b.literals && a.params <= b.params)))
  }

  function Rank(m: Match): (nat, nat, nat) { (m.wildcards, m.literals, m.params) }

  lemma BetterIsStrict(a: Match, b: Match)
    requires b.matched
    ensures Better(a, b) <==> !AtLeastAsGood(b, a)
  {
  }

  lemma GoodIsTotalOrder(a: Match, b: Match, c: Match)
    ensures AtLeastAsGood(a, b) || AtLeastAsGood(b, a)
    ensures AtLeastAsGood(a, b) && AtLeastAsGood(b, c) ==> AtLeastAsGood(a, c)
    ensures AtLeastAsGood(a, b) && AtLeastAsGood(b, a) <==> Rank(a) == Rank(b)
  {
  }

  /** What a choice among `routes` must be: the best match, the earliest of
      the equally good ones. */
  predicate BestAt(routes: seq<Route>, withMethod: string, uri: string, k: nat)
    requires k < |routes|
  {
    && Matches(routes[k], withMethod, uri)
    && (forall i :: 0 <= i < |routes| && Matches(routes[i], withMethod, uri) ==>
          AtLeastAsGood(How(routes[k], withMethod, uri), How(routes[i], withMethod, uri)))
    && (forall i :: 0 <= i < k && Matches(routes[i], withMethod, uri) ==>
          Rank(How(routes[i], withMethod, uri)) != Rank(How(routes[k], withMethod, uri)))
  }

  predicate Chosen(routes: seq<Route>, withMethod: string, uri: string, c: Choice) {
    if c.None? then forall i :: 0 <= i < |routes| ==> !Matches(routes[i], withMethod, uri)
    else exists k :: 0 <= k < |routes| && BestAt(routes, withMethod, uri, k) &&
           c == Some(routes[k].1, How(routes[k], withMethod, uri))
  }

  /** The same registrations in two iteration orders give the same verdict and
      the same rank; and the same route, unless two routes tie. */
  lemma OrderIndependent(a: seq<Route>, b: seq<Route>, withMethod: string, uri: string, ca: Choice, cb: Choice)
    requires multiset(a) == multiset(b)
    requires Chosen(a, withMethod, uri, ca) && Chosen(b, withMethod, uri, cb)
    ensures ca.None? <==> cb.None?
    ensures ca.Some? ==> Rank(ca.how) == Rank(cb.how)
    ensures ca.Some? && NoTies(a, withMethod, uri) ==> ca == cb
  {
    assert forall r :: r in a <==> r in multiset(a);
    assert forall r :: r in b <==> r in multiset(b);
    if ca.Some? {
      var k :| 0 <= k < |a| && BestAt(a, withMethod, uri, k) && ca == Some(a[k].1, How(a[k], withMethod, uri));
      assert a[k] in b;
    }
    if cb.Some? {
      var k :| 0 <= k < |b| && BestAt(b, withMethod, uri, k) && cb == Some(b[k].1, How(b[k], withMethod, uri));
      assert b[k] in a;
    }
  }

  /** The winner has the fewest wildcards; among those the most literal
      characters; among those the fewest captures; and it is registered first
      among those. */
  lemma MostSpecific(routes: seq<Route>, withMethod: string, uri: string, c: Choice, i: nat)
    requires Chosen(routes, withMethod, uri, c) && i < |routes| && Matches(routes[i], withMethod, uri)
    ensures c.Some?
    ensures var m := How(routes[i], withMethod, uri);
            && c.how.wildcards <= m.wildcards
            && (m.wildcards == c.how.wildcards ==> c.how.literals >= m.literals)
            && (m.wildcards == c.how.wildcards && m.literals == c.how.literals ==> c.how.params <= m.params)
            && (m.wildcards == c.how.wildcards && m.literals == c.how.literals && m.params == c.how.params ==>
                 exists k :: 0 <= k <= i && routes[k].1 == c.handler && Matches(routes[k], withMethod, uri))
  {
    var k :| 0 <= k < |routes| && BestAt(routes, withMethod, uri, k) &&
             c == Some(routes[k].1, How(routes[k], withMethod, uri));
    assert AtLeastAsGood(How(routes[k], withMethod, uri), How(routes[i], withMethod, uri));
    assert i < k ==> Rank(How(routes[i], withMethod, uri)) != Rank(How(routes[k], withMethod, uri));
  }

  predicate NoTies(routes: seq<Route>, withMethod: string, uri: string) {
    forall r, q ::
      (r in routes && q in routes && Matches(r, withMethod, uri) && Matches(q, withMethod, uri) &&
       Rank(How(r, withMethod, uri)) == Rank(How(q, withMethod, uri))) ==> r == q
  }

  type Env = map<string, string>

  /** Later captures of the same key win. */
  function WithCaptures(env: Env, cs: seq<Capture>): Env {
    if cs == [] then env else WithCaptures(env, cs[..|cs|-1])[cs[|cs|-1].0 := cs[|cs|-1].1]
  }

  predicate HasKey(cs: seq<Capture>, key: string) { exists i :: 0 <= i < |cs| && cs[i].0 == key }

  /** Capture `i` is the last one of its key. */
  predicate LastOfKey(cs: seq<Capture>, i: nat)
    requires i < |cs|
  {
    forall j :: i < j < |cs| ==> cs[j].0 != cs[i].0
  }

  /** What the environment holds after a commit: every key it had and every
      captured key, with the last capture of that key, or else the old value. */
  ghost predicate Committed(env: Env, out: Env, cs: seq<Capture>) {
    && (forall key :: key in out <==> key in env || HasKey(cs, key))
    && (forall i :: 0 <= i < |cs| && LastOfKey(cs, i) ==> out[cs[i].0] == cs[i].1)
    && (forall key :: key in env && !HasKey(cs, key) ==> out[key] == env[key])
  }

  lemma {:induction false} CapturesCommitted(env: Env, cs: seq<Capture>)
    ensures Committed(env, WithCaptures(env, cs), cs)
  {
    if cs != [] {
      var before := cs[..|cs|-1];
      CapturesCommitted(env, before);
      OneMoreCapture(env, WithCaptures(env, before), before, cs[|cs|-1]);
      assert before + [cs[|cs|-1]] == cs;
    }
  }

  lemma OneMoreCapture(env: Env, out: Env, before: seq<Capture>, c: Capture)
    requires Committed(env, out, before)
    ensures Committed(env, out[c.0 := c.1], before + [c])
  {
    var cs := before + [c];
    forall key ensures HasKey(cs, key) <==> HasKey(before, key) || key == c.0 {
      if HasKey(before, key) {
        var i :| 0 <= i < |before| && before[i].0 == key;
        assert cs[i].0 == key;
      }
      assert cs[|before|] == c;
    }
    forall i | 0 <= i < |cs| && LastOfKey(cs, i) ensures out[c.0 := c.1][cs[i].0] == cs[i].1 {
      if i < |before| {
        assert cs[|before|] == c;
        assert forall j :: i < j < |before| ==> before[j] == cs[j];
        assert LastOfKey(before, i) && HasKey(before, cs[i].0);
      }
    }
  }

  /** With distinct names every capture is found under its key. */
  lemma CapturesFound(env: Env, cs: seq<Capture>)
    requires forall i, j :: 0 <= i < j < |cs| ==> cs[i].0 != cs[j].0
    ensures forall i :: 0 <= i < |cs| ==> cs[i].0 in WithCaptures(env, cs) && WithCaptures(env, cs)[cs[i].0] == cs[i].1
  {
    CapturesCommitted(env, cs);
    forall i | 0 <= i < |cs| ensures cs[i].0 in WithCaptures(env, cs) && WithCaptures(env, cs)[cs[i].0] == cs[i].1 {
      assert LastOfKey(cs, i) && HasKey(cs, cs[i].0);
    }
  }

  /** `pattern_commit_params`. */
  method CommitParams(env: Env, m: Match) returns (out: Env)
    ensures out == WithCaptures(env, m.captures) && Committed(env, out, m.captures)
  {
    out := env;
    for i := 0 to |m.captures|
      invariant out == WithCaptures(env, m.captures[..i])
    {
      assert m.captures[..i+1][..i] == m.captures[..i];
      out := out[m.captures[i].0 := m.captures[i].1];
    }
    assert m.captures[..|m.captures|] == m.captures;
    CapturesCommitted(env, m.captures);
  }

  /** The state of the loop after the first `i` routes. */
  ghost predicate BestSoFar(routes: seq<Route>, withMethod: string, uri: string, i: nat, best: Match, handler: Handler)
    requires i <= |routes|
  {
    if best.matched then Chosen(routes[..i], withMethod, uri, Some(handler, best))
    else Chosen(routes[..i], withMethod, uri, None)
  }

  /** `axil_match_pattern` over the handler table in iteration order: the best
      match wins and only its captures reach the environment. */
  method MatchPattern(routes: seq<Route>, withMethod: string, uri: string, env: Env)
      returns (c: Choice, out: Env)
    requires CText(withMethod) && CText(uri) && forall r :: r in routes ==> CText(r.0)
    ensures Chosen(routes, withMethod, uri, c)
    ensures if c.None? then out == env else Committed(env, out, c.how.captures)
  {
    var best, handler := NO_MATCH, 0;
    for i := 0 to |routes|
      invariant BestSoFar(routes, withMethod, uri, i, best, handler)
    {
      assert routes[i] in routes;
      var matched, m := TryRoute(routes[i], withMethod, uri);
      NextRoute(routes, withMethod, uri, i, best, handler);
      if matched && Better(m, best) {
        best, handler := m, routes[i].1;
      }
    }
    assert routes[..|routes|] == routes;
    if !best.matched {
      return None, env;
    }
    c := Some(handler, best);
    out := CommitParams(env, best);
  }

  /** The body of the iteration up to the comparison. */
  method TryRoute(r: Route, withMethod: string, uri: string) returns (matched: bool, m: Match)
    requires CText(withMethod) && CText(uri) && CText(r.0)
    ensures matched <==> Matches(r, withMethod, uri)
    ensures matched ==> m == How(r, withMethod, uri)
  {
    if !IsPattern(r.0) {
      return false, NO_MATCH;
    }
    matched, m := PatternMatch(r.0, withMethod);
    if !matched {
      matched, m := PatternMatch(r.0, uri);
    }
  }

  /** What one more route does to the best so far. */
  lemma NextRoute(routes: seq<Route>, withMethod: string, uri: string, i: nat, best: Match, handler: Handler)
    requires i < |routes| && BestSoFar(routes, withMethod, uri, i, best, handler)
    ensures var r := routes[i];
            if Matches(r, withMethod, uri) && Better(How(r, withMethod, uri), best)
            then BestSoFar(routes, withMethod, uri, i + 1, How(r, withMethod, uri), r.1)
            else BestSoFar(routes, withMethod, uri, i + 1, best, handler)
  {
    var r, s, t := routes[i], routes[..i], routes[..i+1];
    assert forall j :: 0 <= j < i ==> s[j] == t[j];
    assert t[i] == r;
    if Matches(r, withMethod, uri) && Better(How(r, withMethod, uri), best) {
      TakeNew(routes, withMethod, uri, i, best, handler);
      assert BestAt(t, withMethod, uri, i);
    } else if best.matched {
      var k :| 0 <= k < |s| && BestAt(s, withMethod, uri, k) && Some(handler, best) == Some(s[k].1, How(s[k], withMethod, uri));
      ExtendBest(routes, withMethod, uri, i, k);
      assert BestAt(t, withMethod, uri, k);
    }
  }

  lemma ExtendBest(routes: seq<Route>, withMethod: string, uri: string, i: nat, k: nat)
    requires i < |routes| && k < i && BestAt(routes[..i], withMethod, uri, k)
    requires Matches(routes[i], withMethod, uri) ==>
               !Better(How(routes[i], withMethod, uri), How(routes[k], withMethod, uri))
    ensures BestAt(routes[..i+1], withMethod, uri, k)
  {
    var s, t := routes[..i], routes[..i+1];
    forall j | 0 <= j < |t| && Matches(t[j], withMethod, uri)
      ensures AtLeastAsGood(How(t[k], withMethod, uri), How(t[j], withMethod, uri))
    {
      if j < i { assert s[j] == t[j]; } else { BetterIsStrict(How(t[j], withMethod, uri), How(t[k], withMethod, uri)); }
    }
    assert forall j :: 0 <= j < k ==> s[j] == t[j];
  }

  lemma TakeNew(routes: seq<Route>, withMethod: string, uri: string, i: nat, best: Match, handler: Handler)
    requires i < |routes| && Matches(routes[i], withMethod, uri)
    requires BestSoFar(routes, withMethod, uri, i, best, handler)
    requires Better(How(routes[i], withMethod, uri), best)
    ensures BestAt(routes[..i+1], withMethod, uri, i)
  {
    var s, t, latest := routes[..i], routes[..i+1], How(routes[i], withMethod, uri);
    forall j | 0 <= j < |t| && Matches(t[j], withMethod, uri)
      ensures AtLeastAsGood(latest, How(t[j], withMethod, uri))
      ensures j < i ==> Rank(How(t[j], withMethod, uri)) != Rank(latest)
    {
      if j < i {
        assert s[j] == t[j];
        BetterIsStrict(latest, best);
        GoodIsTotalOrder(latest, best, How(t[j], withMethod, uri));
        GoodIsTotalOrder(best, How(t[j], withMethod, uri), latest);
      }
    }
  }
}
