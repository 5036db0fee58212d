/** From the routes of one group to the rule list, and what the order of the rules promises. */
module Routes {
  import opened Bytes
  import opened Order
  import opened Router
  import opened Dispatcher

  datatype Route = Route(
    op: string,
    queryTag: Option<string>,
    queryPatterns: seq<(string, string)>,
    xId: Option<string>,
    requiredHeaders: seq<string>,
    requiredQueryStrings: seq<string>
  ) {
    predicate Final() {
      requiredHeaders == [] && requiredQueryStrings == [] && queryPatterns == [] && queryTag.None?
    }

    function Priority(): nat {
      if queryTag.Some? then (if queryPatterns != [] then 1 else 2)
      else (if queryPatterns != [] then 3 else 4)
    }
  }

  // ----- The order of the routes

  /** The sort key of `a` is at most that of `b`: more patterns, query strings and headers come first. */
  predicate KeyAtMost(a: Route, b: Route) {
    if a.Priority() != b.Priority() then a.Priority() < b.Priority()
    else if |a.queryPatterns| != |b.queryPatterns| then |a.queryPatterns| > |b.queryPatterns|
    else if |a.requiredQueryStrings| != |b.requiredQueryStrings| then
      |a.requiredQueryStrings| > |b.requiredQueryStrings|
    else if |a.requiredHeaders| != |b.requiredHeaders| then |a.requiredHeaders| > |b.requiredHeaders|
    else AtMost(a.op, b.op)
  }

  ghost predicate Sorted(routes: seq<Route>) {
    forall i, j :: 0 <= i < j < |routes| ==> KeyAtMost(routes[i], routes[j])
  }

  lemma KeyIsTotal(a: Route, b: Route)
    ensures KeyAtMost(a, b) || KeyAtMost(b, a)
  {
    BeforeIsTotal(a.op, b.op);
  }

  lemma KeyIsTransitive(a: Route, b: Route, c: Route)
    requires KeyAtMost(a, b) && KeyAtMost(b, c)
    ensures KeyAtMost(a, c)
  {
    if Before(a.op, b.op) && Before(b.op, c.op) {
      BeforeIsTransitive(a.op, b.op, c.op);
    }
  }

  /** The routes of a group in the order of their sort keys. */
  function SortRoutes(routes: seq<Route>): seq<Route> {
    if routes == [] then [] else Insert(routes[0], SortRoutes(routes[1..]))
  }

  function Insert(r: Route, routes: seq<Route>): seq<Route> {
    if routes == [] || KeyAtMost(r, routes[0]) then [r] + routes
    else [routes[0]] + Insert(r, routes[1..])
  }

  lemma {:induction false} InsertKeeps(r: Route, routes: seq<Route>)
    ensures multiset(Insert(r, routes)) == multiset(routes) + multiset{r}
    ensures Sorted(routes) ==> Sorted(Insert(r, routes))
  {
    hide KeyAtMost;
    if routes != [] {
      assert routes == [routes[0]] + routes[1..];
      if KeyAtMost(r, routes[0]) {
        forall j | 0 <= j < |routes| && Sorted(routes) ensures KeyAtMost(r, routes[j]) {
          if j > 0 { KeyIsTransitive(r, routes[0], routes[j]); }
        }
      } else {
        KeyIsTotal(r, routes[0]);
        InsertKeeps(r, routes[1..]);
        var rest := Insert(r, routes[1..]);
        forall x | x in rest && Sorted(routes) ensures KeyAtMost(routes[0], x) {
          assert x in multiset(rest);
          assert x == r || x in routes[1..];
        }
      }
    }
  }

  lemma {:induction false} SortRoutesSorts(routes: seq<Route>)
    ensures Sorted(SortRoutes(routes)) && multiset(SortRoutes(routes)) == multiset(routes)
  {
    if routes != [] {
      assert routes == [routes[0]] + routes[1..];
      SortRoutesSorts(routes[1..]);
      InsertKeeps(routes[0], SortRoutes(routes[1..]));
    }
  }

  // ----- Shared tags

  /** Route `i` names the member that disambiguates the shared tag `tag`. */
  ghost predicate NamesMember(routes: seq<Route>, i: nat, tag: string) {
    && i < |routes| && routes[i].queryTag == Some(tag) && routes[i].requiredQueryStrings != []
    && exists j :: 0 <= j < |routes| && j != i && routes[j].queryTag == Some(tag)
  }

  ghost predicate MembersOk(members: map<string, string>, routes: seq<Route>, n: nat)
    requires n <= |routes|
  {
    && (forall tag :: tag in members ==> exists i: nat :: i < n && NamesMember(routes, i, tag))
    && (forall i: nat, tag :: i < n && NamesMember(routes, i, tag) ==>
                                tag in members && members[tag] == routes[i].requiredQueryStrings[0])
  }

  /** Some shared tag has two routes that name a member. */
  ghost predicate TwoMembers(routes: seq<Route>) {
    exists i: nat, j: nat, tag :: i < j && NamesMember(routes, i, tag) && NamesMember(routes, j, tag)
  }

  function TagCount(routes: seq<Route>, tag: string, n: nat): (c: nat)
    requires n <= |routes|
  {
    if n == 0 then 0 else TagCount(routes, tag, n - 1) + if routes[n - 1].queryTag == Some(tag) then 1 else 0
  }

  method CountTags(routes: seq<Route>) returns (counts: map<string, nat>)
    ensures forall tag :: (if tag in counts then counts[tag] else 0) == TagCount(routes, tag, |routes|)
  {
    counts := map[];
    for n := 0 to |routes|
      invariant forall tag :: (if tag in counts then counts[tag] else 0) == TagCount(routes, tag, n)
    {
      if routes[n].queryTag.Some? {
        var tag := routes[n].queryTag.value;
        counts := counts[tag := (if tag in counts then counts[tag] else 0) + 1];
      }
    }
  }

  lemma {:induction false} TagCountPositive(routes: seq<Route>, tag: string, n: nat)
    requires n <= |routes|
    ensures TagCount(routes, tag, n) > 0 <==> exists j :: 0 <= j < n && routes[j].queryTag == Some(tag)
  {
    if n > 0 {
      TagCountPositive(routes, tag, n - 1);
    }
  }

  /** A count above one means another route with the tag. */
  lemma {:induction false} TagCountShared(routes: seq<Route>, tag: string, n: nat, i: nat)
    requires i < n <= |routes| && routes[i].queryTag == Some(tag)
    ensures TagCount(routes, tag, n) > 1 <==> exists j :: 0 <= j < n && j != i && routes[j].queryTag == Some(tag)
  {
    if i == n - 1 {
      TagCountPositive(routes, tag, n - 1);
    } else {
      TagCountShared(routes, tag, n - 1, i);
      TagCountPositive(routes, tag, n - 1);
    }
  }

  /** The disambiguating member of every shared tag; `None` where the generator panics over a second one. */
  method SharedTagMembers(routes: seq<Route>) returns (members: Option<map<string, string>>)
    ensures members.None? <==> TwoMembers(routes)
    ensures members.Some? ==> MembersOk(members.value, routes, |routes|)
  {
    hide NamesMember;
    var counts := CountTags(routes);
    var m: map<string, string> := map[];
    for n := 0 to |routes|
      invariant MembersOk(m, routes, n)
      invariant forall i: nat, j: nat, tag :: i < j < n && NamesMember(routes, i, tag) ==> !NamesMember(routes, j, tag)
    {
      NamesWhen(routes, n, counts);
      if routes[n].queryTag.Some? {
        var tag := routes[n].queryTag.value;
        if counts[tag] > 1 && routes[n].requiredQueryStrings != [] {
          if tag in m {
            return None;
          }
          m := m[tag := routes[n].requiredQueryStrings[0]];
        }
      }
    }
    forall i: nat, tag | NamesMember(routes, i, tag) ensures i < |routes| {
      NamedInRange(routes, i, tag);
    }
    members := Some(m);
  }

  lemma NamedInRange(routes: seq<Route>, i: nat, tag: string)
    requires NamesMember(routes, i, tag)
    ensures i < |routes|
  {
  }

  lemma NamesWhen(routes: seq<Route>, n: nat, counts: map<string, nat>)
    requires n < |routes|
    requires forall tag :: (if tag in counts then counts[tag] else 0) == TagCount(routes, tag, |routes|)
    ensures routes[n].queryTag.Some? ==> routes[n].queryTag.value in counts
    ensures forall tag :: NamesMember(routes, n, tag) <==>
                          && routes[n].queryTag == Some(tag)
                          && tag in counts && counts[tag] > 1 && routes[n].requiredQueryStrings != []
  {
    if routes[n].queryTag.Some? {
      TagCountShared(routes, routes[n].queryTag.value, |routes|, n);
      TagCountPositive(routes, routes[n].queryTag.value, |routes|);
    }
  }

  // ----- The two rule passes

  /** What the passes know about the whole group. */
  datatype Group = Group(members: map<string, string>, finals: nat, fallback: Option<string>)

  /** The rule that tells a tagged, patterned or `x-id` route apart. */
  function DisambiguationRule(route: Route, g: Group): Option<Rule> {
    if route.queryTag.Some? then
      var tag := route.queryTag.value;
      if route.queryPatterns != [] then Some(Rule(route.op, [tag], [], [route.queryPatterns[0]], [], Misc))
      else if tag !in g.members then Some(Rule(route.op, [tag], [], [], [], Misc))
      else if route.requiredQueryStrings != [] && route.requiredQueryStrings[0] == g.members[tag] then
        Some(Rule(route.op, [tag, g.members[tag]], [], [], [], Misc))
      else Some(Rule(route.op, [tag], [g.members[tag]], [], [], Misc))
    else if route.queryPatterns != [] then Some(Rule(route.op, [], [], [route.queryPatterns[0]], [], Misc))
    else if g.finals > 1 && route.xId.Some? && g.fallback != Some(route.op) then
      Some(Rule(route.op, [], [], [("x-id", route.xId.value)], [], Misc))
    else None
  }

  /** A plain route's rule: everything it requires. */
  function ConjunctionRule(route: Route): Option<Rule> {
    if route.queryTag.Some? || route.queryPatterns != [] then None
    else if route.requiredQueryStrings == [] && route.requiredHeaders == [] then None
    else Some(Rule(route.op, route.requiredQueryStrings, [], [], route.requiredHeaders, Misc))
  }

  function AsSeq<T>(o: Option<T>): seq<T> {
    if o.Some? then [o.value] else []
  }

  function DisambiguationOf(routes: seq<Route>, g: Group): seq<Rule> {
    if routes == [] then []
    else DisambiguationOf(routes[..|routes| - 1], g) + AsSeq(DisambiguationRule(routes[|routes| - 1], g))
  }

  function ConjunctionOf(routes: seq<Route>): seq<Rule> {
    if routes == [] then []
    else ConjunctionOf(routes[..|routes| - 1]) + AsSeq(ConjunctionRule(routes[|routes| - 1]))
  }

  /** A tagged route may have patterns only if it is this operation; the generator panics otherwise. */
  predicate PatternsAllowed(route: Route) {
    route.queryTag.Some? && route.queryPatterns != [] ==> route.op == "SelectObjectContent"
  }

  lemma DisambiguationMore(routes: seq<Route>, g: Group, n: nat)
    requires n < |routes|
    ensures DisambiguationOf(routes[..n + 1], g) ==
            DisambiguationOf(routes[..n], g) + AsSeq(DisambiguationRule(routes[n], g))
  {
    hide DisambiguationRule;
    assert routes[..n + 1][..n] == routes[..n];
  }

  method DisambiguationRules(routes: seq<Route>, g: Group) returns (rules: Option<seq<Rule>>)
    ensures rules.Some? <==> forall r <- routes :: PatternsAllowed(r)
    ensures rules.Some? ==> rules.value == DisambiguationOf(routes, g)
  {
    hide DisambiguationOf;
    var out := [];
    NoDisambiguation(g);
    for n := 0 to |routes|
      invariant forall i :: 0 <= i < n ==> PatternsAllowed(routes[i])
      invariant out == DisambiguationOf(routes[..n], g)
    {
      var route := routes[n];
      var keys, negKeys, patterns := [], [], [];
      DisambiguationMore(routes, g, n);
      if route.queryTag.Some? {
        var tag := route.queryTag.value;
        keys := [tag];
        if route.queryPatterns != [] {
          if route.op != "SelectObjectContent" {
            assert !PatternsAllowed(route) && route in routes;
            return None;
          }
          patterns := [route.queryPatterns[0]];
        } else if tag in g.members {
          if route.requiredQueryStrings != [] && route.requiredQueryStrings[0] == g.members[tag] {
            keys := [tag, g.members[tag]];
          } else {
            negKeys := [g.members[tag]];
          }
        }
        out := out + [Rule(route.op, keys, negKeys, patterns, [], Misc)];
      } else if route.queryPatterns != [] {
        patterns := [route.queryPatterns[0]];
        out := out + [Rule(route.op, keys, negKeys, patterns, [], Misc)];
      } else if g.finals > 1 && route.xId.Some? && g.fallback != Some(route.op) {
        patterns := [("x-id", route.xId.value)];
        out := out + [Rule(route.op, keys, negKeys, patterns, [], Misc)];
      }
    }
    assert routes[..|routes|] == routes;
    rules := Some(out);
  }

  lemma NoDisambiguation(g: Group)
    ensures DisambiguationOf([], g) == []
  {
  }

  method ConjunctionRules(routes: seq<Route>) returns (rules: seq<Rule>)
    ensures rules == ConjunctionOf(routes)
  {
    rules := [];
    for n := 0 to |routes|
      invariant rules == ConjunctionOf(routes[..n])
    {
      var route := routes[n];
      assert routes[..n + 1][..n] == routes[..n];
      if route.queryTag.Some? || route.queryPatterns != [] {
        continue;
      }
      if route.requiredQueryStrings == [] && route.requiredHeaders == [] {
        continue;
      }
      rules := rules + [Rule(route.op, route.requiredQueryStrings, [], [], route.requiredHeaders, Misc)];
    }
    assert routes[..|routes|] == routes;
  }

  /** The rule list of a group: disambiguation first, conjunctions after. */
  function RulesOf(routes: seq<Route>, g: Group): seq<Rule> {
    DisambiguationOf(routes, g) + ConjunctionOf(routes)
  }

  function FirstFinal(routes: seq<Route>): Option<string> {
    if routes == [] then None
    else if routes[0].Final() then Some(routes[0].op)
    else FirstFinal(routes[1..])
  }

  function Finals(routes: seq<Route>): nat {
    if routes == [] then 0 else (if routes[0].Final() then 1 else 0) + Finals(routes[1..])
  }

  /** The group's facts for given members. */
  function GroupOf(routes: seq<Route>, members: map<string, string>): Group {
    Group(members, Finals(routes), FirstFinal(routes))
  }

  // ----- Where the rules come from

  lemma {:induction false} DisambiguationFrom(routes: seq<Route>, g: Group, i: nat)
    requires i < |DisambiguationOf(routes, g)|
    ensures exists r :: r in routes && DisambiguationRule(r, g) == Some(DisambiguationOf(routes, g)[i])
    decreases |routes|
  {
    hide DisambiguationRule;
    var init, last := routes[..|routes| - 1], routes[|routes| - 1];
    if i < |DisambiguationOf(init, g)| {
      DisambiguationFrom(init, g, i);
    } else {
      assert last in routes;
    }
  }

  lemma {:induction false} ConjunctionFrom(routes: seq<Route>, i: nat)
    requires i < |ConjunctionOf(routes)|
    ensures exists k :: 0 <= k < |routes| && ConjunctionRule(routes[k]) == Some(ConjunctionOf(routes)[i])
    decreases |routes|
  {
    hide ConjunctionRule;
    var init, last := routes[..|routes| - 1], routes[|routes| - 1];
    if i < |ConjunctionOf(init)| {
      ConjunctionFrom(init, i);
      var k :| 0 <= k < |init| && ConjunctionRule(init[k]) == Some(ConjunctionOf(init)[i]);
      assert routes[k] == init[k];
    }
  }

  /** Conjunction rules stand in the order of their routes. */
  lemma {:induction false} ConjunctionInOrder(routes: seq<Route>, i: nat, j: nat)
    requires i < j < |ConjunctionOf(routes)|
    ensures exists k, l :: 0 <= k < l < |routes|
                           && ConjunctionRule(routes[k]) == Some(ConjunctionOf(routes)[i])
                           && ConjunctionRule(routes[l]) == Some(ConjunctionOf(routes)[j])
    decreases |routes|
  {
    hide ConjunctionRule;
    var n := |routes| - 1;
    var init := routes[..n];
    if j < |ConjunctionOf(init)| {
      ConjunctionInOrder(init, i, j);
      var k, l :| 0 <= k < l < |init| && ConjunctionRule(init[k]) == Some(ConjunctionOf(init)[i])
                  && ConjunctionRule(init[l]) == Some(ConjunctionOf(init)[j]);
      assert routes[k] == init[k] && routes[l] == init[l];
    } else {
      ConjunctionFrom(init, i);
      var k :| 0 <= k < |init| && ConjunctionRule(init[k]) == Some(ConjunctionOf(init)[i]);
      assert routes[k] == init[k];
    }
  }

  // ----- Which groups compile exactly

  /** A plain route whose two required query strings read like a family's tag and member, and that needs headers. */
  predicate HeaderedFamily(route: Route, members: map<string, string>) {
    && route.queryTag.None? && route.queryPatterns == []
    && |route.requiredQueryStrings| == 2 && route.requiredQueryStrings[0] in members
    && route.requiredQueryStrings[1] == members[route.requiredQueryStrings[0]]
    && route.requiredHeaders != []
  }

  lemma DisambiguationWellFormed(route: Route, g: Group)
    requires DisambiguationRule(route, g).Some?
    ensures var rule := DisambiguationRule(route, g).value;
            WellFormedRule(rule.(kind := KindOf(rule, g.members)), g.members)
  {
    var rule := DisambiguationRule(route, g).value;
    SameTokens(rule, KindOf(rule, g.members));
  }

  lemma ConjunctionWellFormed(route: Route, members: map<string, string>)
    requires ConjunctionRule(route).Some?
    ensures var rule := ConjunctionRule(route).value;
            WellFormedRule(rule.(kind := KindOf(rule, members)), members) <==> !HeaderedFamily(route, members)
  {
    var rule := ConjunctionRule(route).value;
    SameTokens(rule, KindOf(rule, members));
    if |rule.keys| == 2 {
      assert rule.keys == [rule.keys[0], rule.keys[1]];
    }
  }

  /** The plan's rules are the group's, classified. */
  ghost predicate PlanOf(plan: Plan, routes: seq<Route>, g: Group) {
    && PlanOk(plan, g.members)
    && plan.rules == WithKinds(RulesOf(routes, g), g.members)
  }

  /** On every request the activation bits are the rules whose condition holds. */
  ghost predicate Exact(plan: Plan, members: map<string, string>)
    requires PlanOk(plan, members)
  {
    forall req, v0, act, i: nat :: Activated(plan, req, v0, act) ==>
                                     (i in act <==> i < |plan.rules| && RuleCondition(plan.rules[i], req))
  }

  lemma RuleWellFormed(routes: seq<Route>, g: Group, i: nat)
    requires i < |RulesOf(routes, g)| && forall r <- routes :: !HeaderedFamily(r, g.members)
    ensures var rule := RulesOf(routes, g)[i]; WellFormedRule(rule.(kind := KindOf(rule, g.members)), g.members)
  {
    hide WellFormedRule, KindOf, HeaderedFamily;
    var d := |DisambiguationOf(routes, g)|;
    if i < d {
      DisambiguationFrom(routes, g, i);
      var r :| r in routes && DisambiguationRule(r, g) == Some(DisambiguationOf(routes, g)[i]);
      DisambiguationWellFormed(r, g);
    } else {
      ConjunctionFrom(routes, i - d);
      var k :| 0 <= k < |routes| && ConjunctionRule(routes[k]) == Some(ConjunctionOf(routes)[i - d]);
      ConjunctionWellFormed(routes[k], g.members);
    }
  }

  lemma {:induction false} ConjunctionPresent(routes: seq<Route>, k: nat)
    requires k < |routes| && ConjunctionRule(routes[k]).Some?
    ensures ConjunctionRule(routes[k]).value in ConjunctionOf(routes)
    decreases |routes|
  {
    if k < |routes| - 1 {
      ConjunctionPresent(routes[..|routes| - 1], k);
    }
  }

  /** What the emitted code tests of a family rule: the tag, and the member being there or not. */
  lemma FamilyBit(plan: Plan, members: map<string, string>, req: Request, v0: Mask, act: Mask, i: nat)
    requires PlanOk(plan, members) && Activated(plan, req, v0, act)
    requires i < |plan.rules| && plan.rules[i].kind == Family && InFamily(plan.rules[i], members)
    ensures i in act <==>
            req.Has(plan.rules[i].keys[0])
            && (CarriesMember(plan.rules[i], MemberOf(plan.rules[i], members)) <==>
                req.Has(MemberOf(plan.rules[i], members)))
  {
    hide Scanned, Classified, ArmsOk, Request.Has;
    FoldedKeeps(plan, members, req, v0, i);
    RuleBitExact(plan, members, req, i);
    var rule := plan.rules[i];
    assert Candidates(rule) == [Key(rule.keys[0])];
    var member := MemberOf(rule, members);
    assert Key(member) in Hits(plan, req) <==> req.Holds(Key(member));
    assert LayerCondition(rule, members, Hits(plan, req)) <==> AllKeep(plan.layers, Hits(plan, req), i);
    assert req.Holds(Key(rule.keys[0])) <==> req.Has(rule.keys[0]);
  }

  /** The vectors of a request exist. */
  lemma VectorsExist(plan: Plan, members: map<string, string>, req: Request) returns (v0: Mask, act: Mask)
    requires PlanOk(plan, members)
    ensures Activated(plan, req, v0, act)
  {
    hide Classified, AllKeep, LayerCondition, Folded, MaskLow, FeaturesHaveBits, Request.Holds;
    v0 := set i: nat | i < plan.width && Scanned(plan, req, i);
    forall i: nat | Scanned(plan, req, i) ensures i < plan.width {
      var t :| i in At(plan.arms, t) && req.Holds(t);
      assert SetsRule(plan.rules, t, i) ==> i < |plan.rules|;
    }
    act := if plan.layers == [] then v0 * MaskLow(|plan.rules|)
           else set i: nat | i in v0 && forall l <- plan.layers :: i in Folded(l, plan.bits, v0, plan.width);
  }

  /** A request with the two query strings of a headered family, and no header, shows the difference. */
  lemma HeadersIgnored(plan: Plan, routes: seq<Route>, g: Group, r: Route)
    requires PlanOf(plan, routes, g) && r in routes && HeaderedFamily(r, g.members)
    ensures !Exact(plan, g.members)
  {
    hide PlanOk, RuleCondition, Activated;
    var k :| 0 <= k < |routes| && routes[k] == r;
    ConjunctionPresent(routes, k);
    var rule := ConjunctionRule(r).value;
    assert rule in RulesOf(routes, g);
    var i: nat :| i < |RulesOf(routes, g)| && RulesOf(routes, g)[i] == rule;
    var mine := plan.rules[i];
    assert mine.kind == Family;
    var req := Request(Some([(rule.keys[0], ""), (rule.keys[1], "")]), {});
    var v0, act := VectorsExist(plan, g.members, req);
    FamilyBit(plan, g.members, req, v0, act, i);
    assert req.qs.value[0].0 == rule.keys[0] && req.qs.value[1].0 == rule.keys[1];
    assert i in act;
    HeaderMissing(mine, req);
  }

  lemma HeaderMissing(rule: Rule, req: Request)
    requires rule.headers != [] && req.headers == {}
    ensures !RuleCondition(rule, req)
  {
    assert Hdr(rule.headers[0]) in rule.Tokens();
  }

  /**
   * The feature vectors of a group are exact on every request if and only if no plain route that
   * needs headers requires just the tag and the member of a shared tag.
   */
  lemma ExactWhen(plan: Plan, routes: seq<Route>, g: Group)
    requires PlanOf(plan, routes, g)
    ensures Exact(plan, g.members) <==> forall r <- routes :: !HeaderedFamily(r, g.members)
  {
    hide ArmsOk, Classified, AllKeep, RuleCondition, Activated, HeaderedFamily, WellFormedRule;
    if forall r <- routes :: !HeaderedFamily(r, g.members) {
      forall j | 0 <= j < |plan.rules| ensures WellFormedRule(plan.rules[j], g.members) {
        RuleWellFormed(routes, g, j);
      }
      forall req, v0, act, i: nat | Activated(plan, req, v0, act)
        ensures i in act <==> i < |plan.rules| && RuleCondition(plan.rules[i], req)
      {
        ExactActivation(plan, g.members, req, v0, act, i);
      }
    } else {
      var r :| r in routes && HeaderedFamily(r, g.members);
      HeadersIgnored(plan, routes, g, r);
    }
  }

  // ----- Most specific wins

  /** `b` demands everything that `a` does, and more. */
  predicate LessSpecific(a: Rule, b: Rule) {
    && (forall k <- a.keys :: k in b.keys) && (forall h <- a.headers :: h in b.headers)
    && !((forall k <- b.keys :: k in a.keys) && (forall h <- b.headers :: h in a.headers))
  }

  ghost predicate NoRepeats(s: seq<string>) {
    forall i, j :: 0 <= i < j < |s| ==> s[i] != s[j]
  }

  lemma {:induction false} DistinctCount(s: seq<string>)
    ensures |set x | x in s| <= |s|
    ensures NoRepeats(s) ==> |set x | x in s| == |s|
  {
    if s != [] {
      var n := |s| - 1;
      DistinctCount(s[..n]);
      assert (set x | x in s) == (set x | x in s[..n]) + {s[n]};
    }
  }

  lemma SubsetShorter(a: seq<string>, b: seq<string>)
    requires NoRepeats(a) && forall x <- a :: x in b
    ensures |a| <= |b|
    ensures (exists x :: x in b && x !in a) ==> |a| < |b|
  {
    var sa, sb := set x | x in a, set x | x in b;
    DistinctCount(a);
    DistinctCount(b);
    SubsetSize(sa, sb);
    if x :| x in b && x !in a {
      assert x in sb && x !in sa;
    }
  }

  lemma {:induction false} SubsetSize(a: set<string>, b: set<string>)
    requires a <= b
    ensures |a| <= |b| && (a != b ==> |a| < |b|)
  {
    assert |b| == |a| + |b - a| by { assert b == a + (b - a); }
    if a != b {
      assert exists x :: x in b - a;
    }
  }

  /** In a sorted group, a more specific conjunction stands earlier. */
  lemma MoreSpecificFirst(routes: seq<Route>, w: nat, j: nat)
    requires Sorted(routes)
    requires forall r <- routes :: NoRepeats(r.requiredQueryStrings) && NoRepeats(r.requiredHeaders)
    requires w < |ConjunctionOf(routes)| && j < |ConjunctionOf(routes)|
    requires LessSpecific(ConjunctionOf(routes)[w], ConjunctionOf(routes)[j])
    ensures j < w
  {
    hide KeyAtMost, ConjunctionRule, NoRepeats;
    if w < j {
      ConjunctionInOrder(routes, w, j);
      var k, l :| 0 <= k < l < |routes|
                  && ConjunctionRule(routes[k]) == Some(ConjunctionOf(routes)[w])
                  && ConjunctionRule(routes[l]) == Some(ConjunctionOf(routes)[j]);
      var a, b := routes[k], routes[l];
      assert KeyAtMost(a, b);
      SpecificKey(a, b);
    }
  }

  lemma SpecificKey(a: Route, b: Route)
    requires ConjunctionRule(a).Some? && ConjunctionRule(b).Some?
    requires LessSpecific(ConjunctionRule(a).value, ConjunctionRule(b).value)
    requires NoRepeats(a.requiredQueryStrings) && NoRepeats(a.requiredHeaders)
    ensures !KeyAtMost(a, b)
  {
    SubsetShorter(a.requiredQueryStrings, b.requiredQueryStrings);
    SubsetShorter(a.requiredHeaders, b.requiredHeaders);
  }

  lemma PatternMatched(rule: Rule, req: Request)
    requires RuleCondition(rule, req) && rule.patterns != []
    ensures req.HasUnique(rule.patterns[0].0, rule.patterns[0].1)
  {
    assert Pat(rule.patterns[0].0, rule.patterns[0].1) in rule.Tokens();
  }

  ghost predicate OpsDiffer(routes: seq<Route>) {
    forall a, b :: 0 <= a < b < |routes| ==> routes[a].op != routes[b].op
  }

  /** Two rules for one operation, the later a conjunction: the earlier is its `x-id` rule. */
  lemma SameOperation(routes: seq<Route>, g: Group, i: nat, w: nat)
    requires OpsDiffer(routes)
    requires i < w < |RulesOf(routes, g)| && |DisambiguationOf(routes, g)| <= w
    requires RulesOf(routes, g)[i].op == RulesOf(routes, g)[w].op
    ensures exists r :: r in routes && r.op == RulesOf(routes, g)[w].op && r.xId.Some?
                        && RulesOf(routes, g)[i].patterns == [("x-id", r.xId.value)]
  {
    hide ConjunctionRule, DisambiguationRule, ConjunctionOf, DisambiguationOf;
    var d := |DisambiguationOf(routes, g)|;
    ConjunctionFrom(routes, w - d);
    var l :| 0 <= l < |routes| && ConjunctionRule(routes[l]) == Some(ConjunctionOf(routes)[w - d]);
    ConjunctionOp(routes[l]);
    if i < d {
      DisambiguationFrom(routes, g, i);
      var r :| r in routes && DisambiguationRule(r, g) == Some(DisambiguationOf(routes, g)[i]);
      DisambiguationOp(r, g);
      assert r == routes[l];
    } else {
      ConjunctionInOrder(routes, i - d, w - d);
      var m, n :| 0 <= m < n < |routes|
                  && ConjunctionRule(routes[m]) == Some(ConjunctionOf(routes)[i - d])
                  && ConjunctionRule(routes[n]) == Some(ConjunctionOf(routes)[w - d]);
      ConjunctionOp(routes[n]);
      ConjunctionOp(routes[m]);
    }
  }

  lemma ConjunctionOp(route: Route)
    ensures ConjunctionRule(route).Some? ==>
              && ConjunctionRule(route).value.op == route.op
              && route.queryTag.None? && route.queryPatterns == []
  {
  }

  lemma DisambiguationOp(route: Route, g: Group)
    ensures DisambiguationRule(route, g).Some? ==> DisambiguationRule(route, g).value.op == route.op
    ensures DisambiguationRule(route, g).Some? && route.queryTag.None? && route.queryPatterns == [] ==>
              route.xId.Some? && DisambiguationRule(route, g).value.patterns == [("x-id", route.xId.value)]
  {
  }

  lemma SamePlaces(a: seq<Route>, b: seq<Route>)
    requires multiset(a) == multiset(b)
    ensures forall r :: r in a <==> r in b
    ensures OpsDiffer(a) ==> OpsDiffer(b)
  {
    assert forall r :: r in a <==> r in multiset(a);
    assert forall r :: r in b <==> r in multiset(b);
    if OpsDiffer(a) {
      forall i, j | 0 <= i < j < |b| ensures b[i].op != b[j].op {
        OnceInMultiset(a, b[i]);
        NotTwice(b, i, j);
        assert b[i] in a && b[j] in a;
      }
    }
  }

  lemma {:induction false} OnceInMultiset(s: seq<Route>, r: Route)
    requires OpsDiffer(s)
    ensures multiset(s)[r] <= 1
  {
    if s != [] {
      var n := |s| - 1;
      assert s == s[..n] + [s[n]];
      OnceInMultiset(s[..n], r);
      assert r == s[n] ==> r !in s[..n];
    }
  }
}
