/** The first-match chain of a group, said of the fields of its routes and the pairs of the query string. */
module Chain {
  import opened Bytes
  import opened Order
  import opened Router
  import opened Dispatcher
  import opened Routes
  import opened Resolver

  type Pairs = seq<(string, string)>

  // ----- The query string

  predicate Lacks(pairs: Pairs, key: string) {
    forall i :: 0 <= i < |pairs| ==> pairs[i].0 != key
  }

  ghost predicate Occurs(req: Request, key: string) {
    exists front, value, back :: req.qs == Some(front + [(key, value)] + back)
  }

  /** The key occurs with this value, and nowhere else. */
  ghost predicate Once(req: Request, key: string, value: string) {
    exists front, back :: req.qs == Some(front + [(key, value)] + back) && Lacks(front, key) && Lacks(back, key)
  }

  lemma OccursIs(req: Request, key: string)
    ensures req.Has(key) <==> Occurs(req, key)
  {
    if req.Has(key) {
      var qs := req.qs.value;
      var i :| 0 <= i < |qs| && qs[i].0 == key;
      assert qs == qs[..i] + [(key, qs[i].1)] + qs[i + 1..];
    }
    if front, value, back :| req.qs == Some(front + [(key, value)] + back) {
      assert req.qs.value[|front|] == (key, value);
    }
  }

  lemma OnceIs(req: Request, key: string, value: string)
    ensures req.HasUnique(key, value) <==> Once(req, key, value)
  {
    if req.HasUnique(key, value) {
      var qs := req.qs.value;
      var i :| 0 <= i < |qs| && qs[i] == (key, value) && forall j :: 0 <= j < |qs| && j != i ==> qs[j].0 != key;
      assert qs == qs[..i] + [(key, value)] + qs[i + 1..];
      assert Lacks(qs[..i], key) && Lacks(qs[i + 1..], key);
    }
    if front, back :| req.qs == Some(front + [(key, value)] + back) && Lacks(front, key) && Lacks(back, key) {
      var qs := req.qs.value;
      assert qs[|front|] == (key, value);
      forall j | 0 <= j < |qs| && j != |front| ensures qs[j].0 != key {
        assert qs[j] == if j < |front| then front[j] else back[j - |front| - 1];
      }
    }
  }

  // ----- The routes

  /** A route with nothing to tell it by. */
  predicate Bare(route: Route) {
    route.queryTag == None && |route.queryPatterns| == |route.requiredQueryStrings| == |route.requiredHeaders| == 0
  }

  /** The first route with nothing to tell it by. */
  ghost predicate FirstBare(routes: seq<Route>, f: nat) {
    f < |routes| && Bare(routes[f]) && forall j :: 0 <= j < f ==> !Bare(routes[j])
  }

  /** Two routes have this tag, and one of them requires `member` first. */
  ghost predicate SharedMember(routes: seq<Route>, tag: string, member: string) {
    exists i, j ::
      && 0 <= i < |routes| && 0 <= j < |routes| && i != j
      && routes[i].queryTag == routes[j].queryTag == Some(tag)
      && |routes[i].requiredQueryStrings| > 0 && routes[i].requiredQueryStrings[0] == member
  }

  /** What tells route `i` apart in the first pass holds of the request. */
  ghost predicate Picks(routes: seq<Route>, i: nat, req: Request)
    requires i < |routes|
  {
    var route := routes[i];
    if route.queryTag.Some? then
      && Occurs(req, route.queryTag.value)
      && if |route.queryPatterns| > 0 then Once(req, route.queryPatterns[0].0, route.queryPatterns[0].1)
         else forall m :: SharedMember(routes, route.queryTag.value, m) ==>
                            (Occurs(req, m) <==> |route.requiredQueryStrings| > 0 && route.requiredQueryStrings[0] == m)
    else if |route.queryPatterns| > 0 then Once(req, route.queryPatterns[0].0, route.queryPatterns[0].1)
    else
      && route.xId.Some? && Once(req, "x-id", route.xId.value)
      && exists f: nat, j: nat ::
           FirstBare(routes, f) && f < j < |routes| && Bare(routes[j]) && routes[f].op != route.op
  }

  /** Everything that plain route `i` requires is in the request. */
  ghost predicate Needs(routes: seq<Route>, i: nat, req: Request)
    requires i < |routes|
  {
    var route := routes[i];
    && route.queryTag.None? && |route.queryPatterns| == 0 && !Bare(route)
    && (forall key <- route.requiredQueryStrings :: Occurs(req, key))
    && (forall header <- route.requiredHeaders :: header in req.headers)
  }

  /** The first route the request picks; else the first whose needs it meets; else the first bare one. */
  ghost predicate ChainAnswer(routes: seq<Route>, req: Request, answer: Option<string>) {
    if exists i: nat :: i < |routes| && Picks(routes, i, req) then
      exists i: nat :: FirstPicked(routes, req, i) && answer == Some(routes[i].op)
    else if exists i: nat :: i < |routes| && Needs(routes, i, req) then
      exists i: nat :: FirstMet(routes, req, i) && answer == Some(routes[i].op)
    else if exists f: nat :: FirstBare(routes, f) then
      exists f: nat :: FirstBare(routes, f) && answer == Some(routes[f].op)
    else answer == None
  }

  ghost predicate FirstPicked(routes: seq<Route>, req: Request, i: nat) {
    i < |routes| && Picks(routes, i, req) && forall j: nat :: j < i ==> !Picks(routes, j, req)
  }

  ghost predicate FirstMet(routes: seq<Route>, req: Request, i: nat) {
    i < |routes| && Needs(routes, i, req) && forall j: nat :: j < i ==> !Needs(routes, j, req)
  }

  // ----- The fallback

  lemma {:induction false} FirstFinalIs(routes: seq<Route>)
    ensures if exists f: nat :: FirstBare(routes, f) then
              exists f: nat :: FirstBare(routes, f) && FirstFinal(routes) == Some(routes[f].op)
            else FirstFinal(routes) == None
  {
    if routes != [] {
      if Bare(routes[0]) {
        assert FirstBare(routes, 0);
      } else {
        FirstFinalIs(routes[1..]);
        if f: nat :| FirstBare(routes, f) {
          BareBehind(routes, f - 1);
          assert FirstBare(routes[1..], f - 1);
        }
        if f: nat :| FirstBare(routes[1..], f) && FirstFinal(routes[1..]) == Some(routes[1..][f].op) {
          BareBehind(routes, f);
          assert FirstBare(routes, f + 1) && routes[f + 1] == routes[1..][f];
        }
      }
    }
  }

  lemma BareBehind(routes: seq<Route>, f: nat)
    requires routes != [] && !Bare(routes[0])
    ensures FirstBare(routes, f + 1) <==> FirstBare(routes[1..], f)
  {
    if FirstBare(routes, f + 1) {
      forall j | 0 <= j < f ensures !Bare(routes[1..][j]) {
        assert !Bare(routes[j + 1]);
      }
    }
  }

  lemma {:induction false} FinalsCount(routes: seq<Route>)
    ensures Finals(routes) >= 1 <==> exists j: nat :: j < |routes| && Bare(routes[j])
    ensures Finals(routes) > 1 <==> exists f: nat, j: nat :: FirstBare(routes, f) && f < j < |routes| && Bare(routes[j])
  {
    if routes != [] {
      var rest := routes[1..];
      FinalsCount(rest);
      if Bare(routes[0]) {
        if j: nat :| j < |rest| && Bare(rest[j]) {
          assert FirstBare(routes, 0) && Bare(routes[j + 1]);
        }
        if f: nat, j: nat :| FirstBare(routes, f) && f < j < |routes| && Bare(routes[j]) {
          assert Bare(rest[j - 1]);
        }
      } else {
        if j: nat :| j < |rest| && Bare(rest[j]) {
          assert Bare(routes[j + 1]);
        }
        if j: nat :| j < |routes| && Bare(routes[j]) {
          assert Bare(rest[j - 1]);
        }
        if f: nat, j: nat :| FirstBare(rest, f) && f < j < |rest| && Bare(rest[j]) {
          BareBehind(routes, f);
          assert FirstBare(routes, f + 1) && Bare(routes[j + 1]);
        }
        if f: nat, j: nat :| FirstBare(routes, f) && f < j < |routes| && Bare(routes[j]) {
          BareBehind(routes, f - 1);
          assert FirstBare(rest, f - 1) && Bare(rest[j - 1]);
        }
      }
    }
  }

  lemma BareOnce(routes: seq<Route>, f: nat, g: nat)
    requires FirstBare(routes, f) && FirstBare(routes, g)
    ensures f == g
  {
  }

  // ----- The two passes

  /** What the generator knows of the group. */
  ghost predicate Facts(routes: seq<Route>, g: Group) {
    MembersOk(g.members, routes, |routes|) && g == GroupOf(routes, g.members)
  }

  lemma MemberIs(routes: seq<Route>, members: map<string, string>, tag: string, m: string)
    requires MembersOk(members, routes, |routes|)
    ensures SharedMember(routes, tag, m) <==> tag in members && members[tag] == m
  {
    if tag in members {
      var i: nat :| i < |routes| && NamesMember(routes, i, tag);
      var j :| 0 <= j < |routes| && j != i && routes[j].queryTag == Some(tag);
      assert SharedMember(routes, tag, members[tag]);
    }
    if i, j :| && 0 <= i < |routes| && 0 <= j < |routes| && i != j
               && routes[i].queryTag == routes[j].queryTag == Some(tag)
               && |routes[i].requiredQueryStrings| > 0 && routes[i].requiredQueryStrings[0] == m
    {
      assert NamesMember(routes, i, tag);
    }
  }

  /** The rule of the first pass, if there is one, says of the request what the route's fields say. */
  lemma PicksIs(routes: seq<Route>, g: Group, i: nat, req: Request)
    requires i < |routes| && Facts(routes, g)
    ensures var rule := DisambiguationRule(routes[i], g);
            && (Picks(routes, i, req) <==> rule.Some? && RuleCondition(rule.value, req))
            && (rule.Some? ==> rule.value.op == routes[i].op)
  {
    hide Occurs, Once, SharedMember, Rule.Tokens, Finals, FirstFinal, MembersOk;
    var route := routes[i];
    if route.queryTag.Some? {
      TaggedPicks(routes, g, i, req);
    } else if route.queryPatterns != [] {
      OnceIs(req, route.queryPatterns[0].0, route.queryPatterns[0].1);
      OneToken(DisambiguationRule(route, g).value, req, route.queryPatterns[0].0, route.queryPatterns[0].1);
    } else {
      LastPicks(routes, g, i, req);
    }
  }

  lemma OneToken(rule: Rule, req: Request, key: string, value: string)
    requires rule.keys == rule.negKeys == rule.headers == [] && rule.patterns == [(key, value)]
    ensures RuleCondition(rule, req) <==> req.HasUnique(key, value)
  {
    hide Request.HasUnique, Request.Has, Rule.Tokens;
    assert Pat(key, value) in rule.Tokens();
  }

  lemma TaggedPicks(routes: seq<Route>, g: Group, i: nat, req: Request)
    requires i < |routes| && Facts(routes, g) && routes[i].queryTag.Some?
    ensures Picks(routes, i, req) <==> RuleCondition(DisambiguationRule(routes[i], g).value, req)
  {
    hide Occurs, Once, SharedMember, Finals, FirstFinal, MembersOk, Request.Has, Request.HasUnique, Rule.Tokens;
    var route := routes[i];
    var tag, rule := route.queryTag.value, DisambiguationRule(route, g).value;
    OccursIs(req, tag);
    assert Key(tag) in rule.Tokens();
    if route.queryPatterns != [] {
      var p := route.queryPatterns[0];
      OnceIs(req, p.0, p.1);
      assert Pat(p.0, p.1) in rule.Tokens();
    } else {
      forall m ensures SharedMember(routes, tag, m) <==> tag in g.members && g.members[tag] == m {
        MemberIs(routes, g.members, tag, m);
      }
      if tag in g.members {
        OccursIs(req, g.members[tag]);
        assert SharedMember(routes, tag, g.members[tag]);
        assert rule.keys == [tag, g.members[tag]] ==> Key(g.members[tag]) in rule.Tokens();
      }
    }
  }

  lemma LastPicks(routes: seq<Route>, g: Group, i: nat, req: Request)
    requires i < |routes| && Facts(routes, g) && routes[i].queryTag.None? && routes[i].queryPatterns == []
    ensures var rule := DisambiguationRule(routes[i], g);
            Picks(routes, i, req) <==> rule.Some? && RuleCondition(rule.value, req)
  {
    hide Once, Finals, FirstFinal, MembersOk, Request.HasUnique, Rule.Tokens, FirstBare;
    var route := routes[i];
    FinalsCount(routes);
    FirstFinalIs(routes);
    forall f: nat, h: nat | FirstBare(routes, f) && FirstBare(routes, h) ensures f == h {
      BareOnce(routes, f, h);
    }
    if route.xId.Some? {
      OnceIs(req, "x-id", route.xId.value);
      if DisambiguationRule(route, g).Some? {
        OneToken(DisambiguationRule(route, g).value, req, "x-id", route.xId.value);
      }
    }
  }

  lemma NeedsIs(routes: seq<Route>, i: nat, req: Request)
    requires i < |routes|
    ensures var rule := ConjunctionRule(routes[i]);
            && (Needs(routes, i, req) <==> rule.Some? && RuleCondition(rule.value, req))
            && (rule.Some? ==> rule.value.op == routes[i].op)
  {
    hide Occurs, Request.Has, Request.HasUnique, Rule.Tokens;
    var route := routes[i];
    forall key ensures Occurs(req, key) <==> req.Has(key) {
      OccursIs(req, key);
    }
    if ConjunctionRule(route).Some? {
      var rule := ConjunctionRule(route).value;
      forall key <- route.requiredQueryStrings ensures Key(key) in rule.Tokens() {
      }
      forall header <- route.requiredHeaders ensures Hdr(header) in rule.Tokens() {
      }
    }
  }

  // ----- The chain

  lemma ChainStep(rule: Option<Rule>, rest: seq<Rule>, req: Request, fallback: Option<string>)
    ensures FirstMatch(AsSeq(rule) + rest, req, fallback) ==
            if rule.Some? && RuleCondition(rule.value, req) then Some(rule.value.op)
            else FirstMatch(rest, req, fallback)
  {
    hide RuleCondition;
    if rule.Some? {
      assert (AsSeq(rule) + rest)[1..] == rest;
    } else {
      assert AsSeq(rule) + rest == rest;
    }
  }

  /** The first pass over the first `n` routes, with other rules behind. */
  lemma {:induction false} FirstPass(
    routes: seq<Route>, g: Group, n: nat, rest: seq<Rule>, req: Request, fallback: Option<string>)
    requires n <= |routes| && Facts(routes, g)
    ensures var all := DisambiguationOf(routes[..n], g) + rest;
            if exists i: nat :: i < n && Picks(routes, i, req) then
              exists i: nat :: i < n && FirstPicked(routes, req, i)
                               && FirstMatch(all, req, fallback) == Some(routes[i].op)
            else FirstMatch(all, req, fallback) == FirstMatch(rest, req, fallback)
    decreases n
  {
    hide Facts, Picks, DisambiguationRule, RuleCondition, FirstMatch;
    if n == 0 {
      assert routes[..0] == [] && [] + rest == rest;
    } else {
      var rule := DisambiguationRule(routes[n - 1], g);
      assert routes[..n][..n - 1] == routes[..n - 1];
      assert DisambiguationOf(routes[..n], g) + rest ==
             DisambiguationOf(routes[..n - 1], g) + (AsSeq(rule) + rest);
      FirstPass(routes, g, n - 1, AsSeq(rule) + rest, req, fallback);
      PicksIs(routes, g, n - 1, req);
      ChainStep(rule, rest, req, fallback);
    }
  }

  /** The second pass over the first `n` routes, with other rules behind. */
  lemma {:induction false} SecondPass(
    routes: seq<Route>, n: nat, rest: seq<Rule>, req: Request, fallback: Option<string>)
    requires n <= |routes|
    ensures var all := ConjunctionOf(routes[..n]) + rest;
            if exists i: nat :: i < n && Needs(routes, i, req) then
              exists i: nat :: i < n && FirstMet(routes, req, i)
                               && FirstMatch(all, req, fallback) == Some(routes[i].op)
            else FirstMatch(all, req, fallback) == FirstMatch(rest, req, fallback)
    decreases n
  {
    hide Needs, ConjunctionRule, RuleCondition, FirstMatch;
    if n == 0 {
      assert routes[..0] == [] && [] + rest == rest;
    } else {
      var rule := ConjunctionRule(routes[n - 1]);
      assert routes[..n][..n - 1] == routes[..n - 1];
      assert ConjunctionOf(routes[..n]) + rest == ConjunctionOf(routes[..n - 1]) + (AsSeq(rule) + rest);
      SecondPass(routes, n - 1, AsSeq(rule) + rest, req, fallback);
      NeedsIs(routes, n - 1, req);
      ChainStep(rule, rest, req, fallback);
    }
  }

  /** The chain over a group's rules answers as the fields of its routes say. */
  lemma ChainAnswers(routes: seq<Route>, g: Group, req: Request)
    requires Facts(routes, g)
    ensures ChainAnswer(routes, req, FirstMatch(RulesOf(routes, g), req, FirstFinal(routes)))
  {
    hide Facts, Picks, Needs, FirstMatch, FirstFinal, DisambiguationOf, ConjunctionOf, FirstBare;
    var n, fallback := |routes|, FirstFinal(routes);
    assert routes[..n] == routes;
    FirstPass(routes, g, n, ConjunctionOf(routes), req, fallback);
    SecondPass(routes, n, [], req, fallback);
    assert ConjunctionOf(routes) + [] == ConjunctionOf(routes);
    NoRules(req, fallback);
    FirstFinalIs(routes);
  }

  lemma NoRules(req: Request, fallback: Option<string>)
    ensures FirstMatch([], req, fallback) == fallback
  {
  }

  // ----- The order of the routes

  /** Tagged routes first, then patterned ones, then by the number of patterns, query strings and headers. */
  function Ranks(route: Route): seq<int> {
    [if route.queryTag.Some? then 0 else 1, if |route.queryPatterns| > 0 then 0 else 1,
     -|route.queryPatterns|, -|route.requiredQueryStrings|, -|route.requiredHeaders|]
  }

  /** The ranks of `a` are smaller where they first differ. */
  ghost predicate Outranks(a: Route, b: Route) {
    exists i :: 0 <= i < 5 && Ranks(a)[i] < Ranks(b)[i] && Ranks(a)[..i] == Ranks(b)[..i]
  }

  lemma OutranksWhen(a: Route, b: Route)
    requires KeyAtMost(a, b)
    ensures Outranks(a, b) || (Ranks(a) == Ranks(b) && AtMost(a.op, b.op))
  {
    hide AtMost;
    var x, y := Ranks(a), Ranks(b);
    var i := if x[0] != y[0] then 0 else if x[1] != y[1] then 1 else if x[2] != y[2] then 2
             else if x[3] != y[3] then 3 else 4;
    assert x[..i] == y[..i];
    if x[i] == y[i] {
      assert x == y;
    }
  }

  /** The passes go over the group's routes by rank, and by name among equals. */
  ghost predicate InPassOrder(routes: seq<Route>, group: seq<Route>) {
    && multiset(routes) == multiset(group)
    && forall i, j :: 0 <= i < j < |routes| ==>
                        || Outranks(routes[i], routes[j])
                        || (Ranks(routes[i]) == Ranks(routes[j]) && AtMost(routes[i].op, routes[j].op))
  }

  lemma PassOrder(group: seq<Route>)
    ensures InPassOrder(SortRoutes(group), group)
  {
    hide KeyAtMost, AtMost, Ranks, Outranks, SortRoutes;
    SortRoutesSorts(group);
    var routes := SortRoutes(group);
    forall i, j | 0 <= i < j < |routes|
      ensures || Outranks(routes[i], routes[j])
              || (Ranks(routes[i]) == Ranks(routes[j]) && AtMost(routes[i].op, routes[j].op))
    {
      OutranksWhen(routes[i], routes[j]);
    }
  }

  /** Of two routes with the same tag, one that requires a query string has no patterns. */
  predicate PlainNamers(routes: seq<Route>) {
    forall i, j | 0 <= i < |routes| && 0 <= j < |routes| && i != j ::
      routes[i].queryTag.Some? && routes[i].queryTag == routes[j].queryTag && |routes[i].requiredQueryStrings| > 0 ==>
        |routes[i].queryPatterns| == 0
  }

  /**
   * The generated resolver, from the fields of the group's routes: the first route in pass order that the
   * request picks, else the first whose needs it meets, else the first bare one. It answers so wherever
   * the routes that name a shared tag's member are plain, and wherever else no header goes unchecked.
   */
  method ResolveRoutes(group: seq<Route>, req: Request)
    returns (r: Option<Option<string>>, routes: seq<Route>, members: map<string, string>)
    ensures InPassOrder(routes, group)
    ensures r.Some? && PlainNamers(routes) ==> ChainAnswer(routes, req, r.value)
    ensures r.Some? && AllShadowed(RulesOf(routes, GroupOf(routes, members)), members) ==>
              ChainAnswer(routes, req, r.value)
    ensures TwoMembers(routes) ==> r.None?
    ensures !TwoMembers(routes) ==>
              (r.Some? <==> (forall x <- routes :: PatternsAllowed(x))
                            && BitsFit(RulesOf(routes, GroupOf(routes, members)), members))
  {
    hide AllShadowed, ChainAnswer, FirstMatch, RulesOf, SortRoutes, InPassOrder, NamesMember, BitsFit, PatternsAllowed;
    hide OpsDiffer, SpecificWins, NoRepeats, FirstFinal, Finals, TwoMembers, MembersOk;
    routes := SortRoutes(group);
    PassOrder(group);
    r, members := ResolveRequest(group, req);
    if !TwoMembers(routes) {
      var g := GroupOf(routes, members);
      ChainAnswers(routes, g, req);
      if PlainNamers(routes) {
        NamersArePlain(routes);
        NamersShadow(routes, g);
      }
    }
  }

  lemma NamersArePlain(routes: seq<Route>)
    requires PlainNamers(routes)
    ensures forall i: nat, tag :: NamesMember(routes, i, tag) ==> routes[i].queryPatterns == []
  {
  }
}
