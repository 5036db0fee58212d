/**
 * The answer of the compiled dispatcher for a whole group: exactly when it is the first-match chain's,
 * and that the most specific rule wins in every group.
 */
module Resolver {
  import opened Bytes
  import opened Router
  import opened Dispatcher
  import opened Routes

  // ----- Rules whose bit ignores their headers

  /** A conjunction over a shared tag and its member that also needs headers: compiled as a family rule. */
  predicate Headered(rule: Rule, members: map<string, string>) {
    && |rule.keys| == 2 && rule.keys[0] in members && rule.keys[1] == members[rule.keys[0]]
    && rule.negKeys == [] && rule.patterns == [] && rule.headers != []
  }

  /** What the two passes can produce. */
  predicate Built(rule: Rule, members: map<string, string>) {
    || rule.negKeys == []
    || (&& |rule.keys| == 1 && rule.keys[0] in members && rule.negKeys == [members[rule.keys[0]]]
        && rule.patterns == [] && rule.headers == [])
  }

  lemma RuleIsBuilt(routes: seq<Route>, g: Group, i: nat)
    requires i < |RulesOf(routes, g)|
    ensures var rule := RulesOf(routes, g)[i];
            && Built(rule, g.members)
            && (i < |DisambiguationOf(routes, g)| ==> rule.headers == [])
            && (i >= |DisambiguationOf(routes, g)| ==> rule.negKeys == [])
            && (WellFormedRule(rule.(kind := KindOf(rule, g.members)), g.members) || Headered(rule, g.members))
  {
    hide WellFormedRule, KindOf, DisambiguationRule, ConjunctionRule, Built, Headered;
    var d := |DisambiguationOf(routes, g)|;
    if i < d {
      DisambiguationFrom(routes, g, i);
      var r :| r in routes && DisambiguationRule(r, g) == Some(DisambiguationOf(routes, g)[i]);
      DisambiguationWellFormed(r, g);
      DisambiguationIsBuilt(r, g);
    } else {
      ConjunctionFrom(routes, i - d);
      var k :| 0 <= k < |routes| && ConjunctionRule(routes[k]) == Some(ConjunctionOf(routes)[i - d]);
      ConjunctionWellFormed(routes[k], g.members);
      ConjunctionIsBuilt(routes[k], g.members);
    }
  }

  lemma DisambiguationIsBuilt(route: Route, g: Group)
    requires DisambiguationRule(route, g).Some?
    ensures var rule := DisambiguationRule(route, g).value;
            && Built(rule, g.members) && rule.headers == []
            && (rule.keys != [] || rule.patterns != [])
  {
  }

  lemma ConjunctionIsBuilt(route: Route, members: map<string, string>)
    requires ConjunctionRule(route).Some?
    ensures var rule := ConjunctionRule(route).value;
            && Built(rule, members) && rule.negKeys == [] && (rule.keys != [] || rule.headers != [])
            && (HeaderedFamily(route, members) <==> Headered(rule, members))
  {
  }

  /** A matching rule has its bit; a bit without a match belongs to a headered rule whose two keys are there. */
  lemma BitOfRule(plan: Plan, routes: seq<Route>, g: Group, req: Request, v0: Mask, act: Mask, i: nat)
    requires PlanOf(plan, routes, g) && Activated(plan, req, v0, act) && i < |plan.rules|
    ensures RuleCondition(plan.rules[i], req) ==> i in act
    ensures i in act && !RuleCondition(plan.rules[i], req) ==>
              Headered(plan.rules[i], g.members) && req.Has(plan.rules[i].keys[0]) && req.Has(plan.rules[i].keys[1])
    ensures Headered(plan.rules[i], g.members) && req.Has(plan.rules[i].keys[0]) && req.Has(plan.rules[i].keys[1]) ==>
              i in act
  {
    hide PlanOk, RuleCondition, Activated, WellFormedRule, Request.Has;
    RuleIsBuilt(routes, g, i);
    var rule := plan.rules[i];
    KindsOnly(RulesOf(routes, g), g.members);
    if WellFormedRule(rule, g.members) {
      ExactBit(plan, g.members, req, v0, act, i);
      if Headered(rule, g.members) { HeaderedKind(plan, routes, g, i); }
    } else {
      HeaderedKind(plan, routes, g, i);
      FamilyBit(plan, g.members, req, v0, act, i);
      if RuleCondition(rule, req) { KeysThere(rule, req); }
    }
  }

  lemma HeaderedKind(plan: Plan, routes: seq<Route>, g: Group, i: nat)
    requires PlanOf(plan, routes, g) && i < |plan.rules| && Headered(plan.rules[i], g.members)
    ensures plan.rules[i].kind == Family && InFamily(plan.rules[i], g.members)
    ensures CarriesMember(plan.rules[i], MemberOf(plan.rules[i], g.members))
    ensures !WellFormedRule(plan.rules[i], g.members)
  {
    hide PlanOk;
  }

  lemma KeysThere(rule: Rule, req: Request)
    requires RuleCondition(rule, req)
    ensures forall k <- rule.keys :: req.Has(k)
  {
    hide Request.Has;
    forall k <- rule.keys ensures req.Has(k) {
      assert Key(k) in rule.Tokens();
      assert req.Holds(Key(k));
    }
  }

  // ----- Requests that ask for some keys only

  /** These keys, each twice, so that no value is unique; and no header. */
  function Bare(keys: seq<string>): Request {
    var once := seq(|keys|, i requires 0 <= i < |keys| => (keys[i], ""));
    Request(Some(once + once), {})
  }

  lemma BareHas(keys: seq<string>)
    ensures forall k :: Bare(keys).Has(k) <==> k in keys
    ensures forall k, v :: !Bare(keys).HasUnique(k, v)
  {
    var qs := Bare(keys).qs.value;
    var n := |keys|;
    assert |qs| == n + n && forall i :: 0 <= i < n ==> qs[i] == qs[i + n] == (keys[i], "");
    forall k | k in keys ensures Bare(keys).Has(k) {
      var i :| 0 <= i < n && keys[i] == k;
      assert qs[i].0 == k;
    }
    forall k, v ensures !Bare(keys).HasUnique(k, v) {
      forall i | 0 <= i < |qs| && qs[i] == (k, v)
        ensures exists j :: 0 <= j < |qs| && j != i && qs[j].0 == k
      {
        var j := if i < n then i + n else i - n;
        assert qs[j].0 == k;
      }
    }
  }

  /** A rule that matches a bare request asks for keys only. */
  lemma BareMatch(rule: Rule, keys: seq<string>)
    requires RuleCondition(rule, Bare(keys))
    ensures forall k <- rule.keys :: k in keys
    ensures forall k <- rule.negKeys :: k !in keys
    ensures rule.patterns == [] && rule.headers == []
  {
    hide Bare, Request.Has, Request.HasUnique;
    BareHas(keys);
    KeysThere(rule, Bare(keys));
    NoHeaders(keys);
    if rule.patterns != [] {
      PatternMatched(rule, Bare(keys));
    }
    if rule.headers != [] {
      HeaderMissing(rule, Bare(keys));
    }
  }

  lemma NoHeaders(keys: seq<string>)
    ensures Bare(keys).headers == {}
  {
  }

  lemma KeysMatch(rule: Rule, req: Request)
    requires rule.patterns == [] && rule.headers == []
    requires (forall k <- rule.keys :: req.Has(k)) && (forall k <- rule.negKeys :: !req.Has(k))
    ensures RuleCondition(rule, req)
  {
    hide Request.Has;
    forall t <- rule.Tokens() ensures req.Holds(t) {
    }
  }

  // ----- Shadowed rules

  /** Some rule matches the key as long as another one is missing. */
  predicate Negating(rules: seq<Rule>, key: string) {
    exists j :: 0 <= j < |rules| && rules[j].keys == [key] && rules[j].negKeys != []
  }

  /** The keys to add, one after the other, so that no rule matches for the lack of one. */
  function Following(rules: seq<Rule>, members: map<string, string>, key: string, seen: seq<string>): seq<string>
    decreases members.Keys - set k | k in seen
  {
    if key in seen then seen
    else if key in members && Negating(rules, key) then
      assert key in members.Keys - set k | k in seen;
      Following(rules, members, members[key], seen + [key])
    else seen + [key]
  }

  /** The keys of the rule and all that must be added to them. */
  function Probe(rules: seq<Rule>, members: map<string, string>, rule: Rule): seq<string>
    requires |rule.keys| == 2
  {
    Following(rules, members, rule.keys[1], [rule.keys[0]])
  }

  /** An earlier rule matches already when the request asks just for the rule's keys and what they entail. */
  ghost predicate Shadowed(rules: seq<Rule>, members: map<string, string>, i: nat)
    requires i < |rules| && |rules[i].keys| == 2
  {
    exists j :: 0 <= j < i && RuleCondition(rules[j], Bare(Probe(rules, members, rules[i])))
  }

  /** Every headered rule is shadowed. */
  ghost predicate AllShadowed(rules: seq<Rule>, members: map<string, string>) {
    forall i :: 0 <= i < |rules| && Headered(rules[i], members) ==> Shadowed(rules, members, i)
  }

  lemma {:induction false} FollowingHolds(
    rules: seq<Rule>, members: map<string, string>, key: string, seen: seq<string>)
    ensures var all := Following(rules, members, key, seen);
            && key in all && (forall k <- seen :: k in all)
            && (forall k <- all :: k in seen || !(k in members && Negating(rules, k)) || members[k] in all)
    decreases members.Keys - set k | k in seen
  {
    hide Negating;
    if key !in seen && key in members && Negating(rules, key) {
      assert key in members.Keys - set k | k in seen;
      FollowingHolds(rules, members, members[key], seen + [key]);
    }
  }

  /** A request with the first of the keys has all of them, or some negating rule's key without the other. */
  lemma {:induction false} FollowingBreaks(
    rules: seq<Rule>, members: map<string, string>, key: string, seen: seq<string>, req: Request)
    requires req.Has(key) && forall k <- seen :: req.Has(k)
    ensures (forall k <- Following(rules, members, key, seen) :: req.Has(k))
            || exists k :: k in members && Negating(rules, k) && req.Has(k) && !req.Has(members[k])
    decreases members.Keys - set k | k in seen
  {
    hide Negating, Request.Has;
    if key !in seen && key in members && Negating(rules, key) && req.Has(members[key]) {
      assert key in members.Keys - set k | k in seen;
      FollowingBreaks(rules, members, members[key], seen + [key], req);
    }
  }

  /** The probe holds the rule's keys and everything they entail. */
  lemma ProbeClosed(rules: seq<Rule>, members: map<string, string>, rule: Rule)
    requires Headered(rule, members)
    ensures var all := Probe(rules, members, rule);
            && rule.keys[0] in all && rule.keys[1] in all
            && forall k <- all :: k in members && Negating(rules, k) ==> members[k] in all
  {
    hide Following, Negating;
    FollowingHolds(rules, members, rule.keys[1], [rule.keys[0]]);
  }

  /** A rule shadowed on the probe is shadowed on every request with its keys. */
  lemma ShadowedEverywhere(plan: Plan, routes: seq<Route>, g: Group, i: nat, req: Request)
    requires PlanOf(plan, routes, g) && i < |plan.rules| && Headered(plan.rules[i], g.members)
    requires Shadowed(plan.rules, g.members, i)
    requires req.Has(plan.rules[i].keys[0]) && req.Has(plan.rules[i].keys[1])
    ensures exists j :: 0 <= j < i && RuleCondition(plan.rules[j], req)
  {
    hide PlanOk, RuleCondition, Request.Has, Following, Bare, Negating;
    var rules, members := plan.rules, g.members;
    var rule := rules[i];
    var probe := Probe(rules, members, rule);
    KindsOnly(RulesOf(routes, g), members);
    FollowingBreaks(rules, members, rule.keys[1], [rule.keys[0]], req);
    if k :| k in members && Negating(rules, k) && req.Has(k) && !req.Has(members[k]) {
      NegatingMatches(plan, routes, g, i, k, req);
    } else {
      var j :| 0 <= j < i && RuleCondition(rules[j], Bare(probe));
      BareMatch(rules[j], probe);
      ProbeClosed(rules, members, rule);
      RuleIsBuilt(routes, g, j);
      if rules[j].negKeys != [] {
        NegatingRule(rules, j);
      }
      KeysMatch(rules[j], req);
    }
  }

  lemma NegatingRule(rules: seq<Rule>, j: nat)
    requires j < |rules| && |rules[j].keys| == 1 && rules[j].negKeys != []
    ensures Negating(rules, rules[j].keys[0])
  {
    assert rules[j].keys == [rules[j].keys[0]];
  }

  lemma NegatingMatches(plan: Plan, routes: seq<Route>, g: Group, i: nat, k: string, req: Request)
    requires PlanOf(plan, routes, g) && i < |plan.rules| && Headered(plan.rules[i], g.members)
    requires k in g.members && Negating(plan.rules, k) && req.Has(k) && !req.Has(g.members[k])
    ensures exists j :: 0 <= j < i && RuleCondition(plan.rules[j], req)
  {
    hide PlanOk, RuleCondition, Request.Has;
    KindsOnly(RulesOf(routes, g), g.members);
    var j :| 0 <= j < |plan.rules| && plan.rules[j].keys == [k] && plan.rules[j].negKeys != [];
    RuleIsBuilt(routes, g, j);
    RuleIsBuilt(routes, g, i);
    KeysMatch(plan.rules[j], req);
  }

  // ----- The answer

  /** Where every headered rule is shadowed, the lowest bit is the first match. */
  lemma LowestIsFirst(plan: Plan, routes: seq<Route>, g: Group, req: Request, v0: Mask, act: Mask, i: nat)
    requires PlanOf(plan, routes, g) && Activated(plan, req, v0, act) && AllShadowed(plan.rules, g.members)
    requires Lowest(act, i) && i < |plan.rules|
    ensures RuleCondition(plan.rules[i], req)
    ensures forall j :: 0 <= j < i ==> !RuleCondition(plan.rules[j], req)
  {
    hide PlanOk, RuleCondition, Activated, Request.Has, Headered, Shadowed, PlanOf;
    forall j | 0 <= j < i ensures !RuleCondition(plan.rules[j], req) {
      BitOfRule(plan, routes, g, req, v0, act, j);
    }
    BitOfRule(plan, routes, g, req, v0, act, i);
    if !RuleCondition(plan.rules[i], req) {
      ShadowedEverywhere(plan, routes, g, i, req);
    }
  }

  /** Every answer on every request is the first-match chain's. */
  ghost predicate AnswersExact(plan: Plan, g: Group)
    requires PlanOk(plan, g.members)
  {
    forall req, v0, act, r :: Activated(plan, req, v0, act) && Answers(plan, act, g.fallback, r) ==>
                                r == FirstMatch(plan.rules, req, g.fallback)
  }

  lemma ShadowedAnswer(
    plan: Plan, routes: seq<Route>, g: Group, req: Request, v0: Mask, act: Mask, r: Option<string>)
    requires PlanOf(plan, routes, g) && AllShadowed(plan.rules, g.members)
    requires Activated(plan, req, v0, act) && Answers(plan, act, g.fallback, r)
    ensures r == FirstMatch(plan.rules, req, g.fallback)
  {
    hide PlanOk, RuleCondition, Activated, AllShadowed, PlanOf, FirstMatch;
    if act == {} {
      forall j | 0 <= j < |plan.rules| ensures !RuleCondition(plan.rules[j], req) {
        BitOfRule(plan, routes, g, req, v0, act, j);
      }
    } else {
      var i: nat :| Lowest(act, i) && i < |plan.rules| && r == Some(plan.rules[i].op);
      LowestIsFirst(plan, routes, g, req, v0, act, i);
      FirstMatchAt(plan.rules, req, g.fallback, i);
    }
  }

  lemma LowestExists(act: Mask) returns (i: nat)
    requires act != {}
    ensures Lowest(act, i)
  {
    i :| i in act;
    if j :| j in act && j < i {
      var less := set k | k in act && k < i;
      assert j in less && i !in less && less < act;
      i := LowestExists(less);
      forall k <- act ensures i <= k {
        assert k in less || i <= k;
      }
    }
  }

  lemma FirstIndex(rules: seq<Rule>, req: Request, fallback: Option<string>) returns (m: nat)
    ensures m <= |rules|
    ensures if m == |rules| then FirstMatch(rules, req, fallback) == fallback
            else RuleCondition(rules[m], req) && FirstMatch(rules, req, fallback) == Some(rules[m].op)
    ensures forall k :: 0 <= k < m ==> !RuleCondition(rules[k], req)
  {
    hide RuleCondition, FirstMatch;
    m := 0;
    while m < |rules| && !RuleCondition(rules[m], req)
      invariant m <= |rules| && forall k :: 0 <= k < m ==> !RuleCondition(rules[k], req)
    {
      m := m + 1;
    }
    if m < |rules| {
      FirstMatchAt(rules, req, fallback, m);
    }
  }

  lemma {:induction false} FirstFinalIsFinal(routes: seq<Route>)
    ensures FirstFinal(routes).Some? ==> exists r :: r in routes && r.Final() && FirstFinal(routes) == Some(r.op)
  {
    if routes != [] && !routes[0].Final() {
      FirstFinalIsFinal(routes[1..]);
    }
  }

  /** A headered rule's operation is no later rule's, and not the fallback. */
  lemma OwnOperation(routes: seq<Route>, g: Group, i: nat, m: nat)
    requires OpsDiffer(routes) && g.fallback == FirstFinal(routes)
    requires i < m <= |RulesOf(routes, g)| && Headered(RulesOf(routes, g)[i], g.members)
    ensures m < |RulesOf(routes, g)| ==> RulesOf(routes, g)[m].op != RulesOf(routes, g)[i].op
    ensures g.fallback != Some(RulesOf(routes, g)[i].op)
  {
    hide ConjunctionRule, DisambiguationRule, ConjunctionOf, DisambiguationOf, FirstFinal, Built;
    hide WellFormedRule, KindOf, Route.Final;
    var d := |DisambiguationOf(routes, g)|;
    RuleIsBuilt(routes, g, i);
    OwnRoute(routes, g.fallback, i - d);
    if m < |RulesOf(routes, g)| {
      LaterOperation(routes, i - d, m - d);
    }
  }

  lemma OwnRoute(routes: seq<Route>, fallback: Option<string>, i: nat)
    requires OpsDiffer(routes) && fallback == FirstFinal(routes) && i < |ConjunctionOf(routes)|
    ensures fallback != Some(ConjunctionOf(routes)[i].op)
  {
    hide ConjunctionRule, FirstFinal, Route.Final;
    ConjunctionFrom(routes, i);
    var k :| 0 <= k < |routes| && ConjunctionRule(routes[k]) == Some(ConjunctionOf(routes)[i]);
    NotFinal(routes[k]);
    ConjunctionOp(routes[k]);
    FirstFinalIsFinal(routes);
  }

  lemma LaterOperation(routes: seq<Route>, i: nat, m: nat)
    requires OpsDiffer(routes) && i < m < |ConjunctionOf(routes)|
    ensures ConjunctionOf(routes)[i].op != ConjunctionOf(routes)[m].op
  {
    hide ConjunctionRule;
    ConjunctionInOrder(routes, i, m);
    var a, b :| 0 <= a < b < |routes|
                && ConjunctionRule(routes[a]) == Some(ConjunctionOf(routes)[i])
                && ConjunctionRule(routes[b]) == Some(ConjunctionOf(routes)[m]);
    ConjunctionOp(routes[a]);
    ConjunctionOp(routes[b]);
  }

  lemma NotFinal(route: Route)
    requires ConjunctionRule(route).Some?
    ensures !route.Final()
  {
  }

  /** The bare request for an unshadowed rule's keys is answered with an operation whose headers are missing. */
  lemma UnshadowedDiffers(plan: Plan, routes: seq<Route>, g: Group, i: nat)
    requires PlanOf(plan, routes, g) && OpsDiffer(routes) && g.fallback == FirstFinal(routes)
    requires i < |plan.rules| && Headered(plan.rules[i], g.members) && !Shadowed(plan.rules, g.members, i)
    ensures !AnswersExact(plan, g)
  {
    hide PlanOk, RuleCondition, Activated, Following, Negating, Bare, Request.Has, FirstMatch, FirstFinal;
    hide WithKinds, OpsDiffer, ConjunctionOf, DisambiguationOf;
    var rules := plan.rules;
    KindsOnly(RulesOf(routes, g), g.members);
    var probe := Probe(rules, g.members, rules[i]);
    var req := Bare(probe);
    ProbeClosed(rules, g.members, rules[i]);
    BareHas(probe);
    NoHeaders(probe);
    HeaderMissing(rules[i], req);
    var v0, act := VectorsExist(plan, g.members, req);
    BitOfRule(plan, routes, g, req, v0, act, i);
    var low := LowestExists(act);
    BitOfRule(plan, routes, g, req, v0, act, low);
    var m := FirstIndex(rules, req, g.fallback);
    OwnOperation(routes, g, low, m);
    var r := Some(rules[low].op);
    assert Answers(plan, act, g.fallback, r);
    assert r != FirstMatch(rules, req, g.fallback);
  }

  /**
   * The dispatcher of a group with different operations answers every request as the first-match chain
   * if and only if every headered rule is shadowed.
   */
  lemma AnswersExactWhen(plan: Plan, routes: seq<Route>, g: Group)
    requires PlanOf(plan, routes, g) && OpsDiffer(routes) && g.fallback == FirstFinal(routes)
    ensures AnswersExact(plan, g) <==> AllShadowed(plan.rules, g.members)
  {
    hide ArmsOk, Classified, AllKeep, RuleCondition, Activated, Answers, Shadowed, FirstMatch, FirstFinal;
    if AllShadowed(plan.rules, g.members) {
      forall req, v0, act, r | Activated(plan, req, v0, act) && Answers(plan, act, g.fallback, r)
        ensures r == FirstMatch(plan.rules, req, g.fallback)
      {
        ShadowedAnswer(plan, routes, g, req, v0, act, r);
      }
    } else {
      var i: nat :| i < |plan.rules| && Headered(plan.rules[i], g.members) && !Shadowed(plan.rules, g.members, i);
      UnshadowedDiffers(plan, routes, g, i);
    }
  }

  // ----- Most specific wins

  /**
   * Most specific wins, in every group: when a conjunction rule matches, the dispatcher's bit stands
   * before every less specific conjunction rule; it names that rule's operation only if the request
   * names it by `x-id`.
   */
  lemma MostSpecificWins(
    plan: Plan, routes: seq<Route>, g: Group, req: Request, v0: Mask, act: Mask, i: nat, w: nat, j: nat)
    requires PlanOf(plan, routes, g) && Sorted(routes) && OpsDiffer(routes)
    requires forall r <- routes :: NoRepeats(r.requiredQueryStrings) && NoRepeats(r.requiredHeaders)
    requires Activated(plan, req, v0, act) && Lowest(act, i) && i < |plan.rules|
    requires var d := |DisambiguationOf(routes, g)|; d <= w < |plan.rules| && d <= j < |plan.rules|
    requires RuleCondition(plan.rules[j], req) && LessSpecific(plan.rules[w], plan.rules[j])
    ensures i <= j < w
    ensures plan.rules[i].op == plan.rules[w].op ==> NamedById(routes, plan.rules[w].op, req)
  {
    hide PlanOk, RuleCondition, Activated, Sorted, NoRepeats, OpsDiffer, LessSpecific, Headered, WithKinds, NamedById;
    hide DisambiguationOf, ConjunctionOf, Request.Has;
    KindsOnly(RulesOf(routes, g), g.members);
    var rules, d := plan.rules, |DisambiguationOf(routes, g)|;
    BitOfRule(plan, routes, g, req, v0, act, j);
    SameSpecific(ConjunctionOf(routes)[w - d], rules[w].kind, ConjunctionOf(routes)[j - d], rules[j].kind);
    MoreSpecificFirst(routes, w - d, j - d);
    if rules[i].op == rules[w].op {
      BitOfRule(plan, routes, g, req, v0, act, i);
      OnlyById(routes, g, rules[i], req, i, w);
    }
  }

  lemma OnlyById(routes: seq<Route>, g: Group, rule: Rule, req: Request, i: nat, w: nat)
    requires OpsDiffer(routes) && i < w < |RulesOf(routes, g)| && |DisambiguationOf(routes, g)| <= w
    requires rule == RulesOf(routes, g)[i].(kind := rule.kind) && rule.op == RulesOf(routes, g)[w].op
    requires RuleCondition(rule, req) || Headered(rule, g.members)
    ensures NamedById(routes, rule.op, req)
  {
    hide RuleCondition, Request.HasUnique, OpsDiffer, DisambiguationOf, ConjunctionOf;
    SameOperation(routes, g, i, w);
    var r :| r in routes && r.op == rule.op && r.xId.Some? && rule.patterns == [("x-id", r.xId.value)];
    PatternMatched(rule, req);
  }

  /** The request names the operation by the route's `x-id`. */
  ghost predicate NamedById(routes: seq<Route>, op: string, req: Request) {
    exists r :: r in routes && r.op == op && r.xId.Some? && req.HasUnique("x-id", r.xId.value)
  }

  // ----- Which groups are exact

  /** A route that names a member and has no patterns shadows the headered rules of its tag. */
  lemma NamersShadow(routes: seq<Route>, g: Group)
    requires MembersOk(g.members, routes, |routes|)
    requires forall i: nat, tag :: NamesMember(routes, i, tag) ==> routes[i].queryPatterns == []
    ensures AllShadowed(RulesOf(routes, g), g.members)
  {
    hide NamesMember, Following, Negating, Bare, RuleCondition, DisambiguationOf, ConjunctionOf;
    var rules, members := RulesOf(routes, g), g.members;
    forall i | 0 <= i < |rules| && Headered(rules[i], members) ensures Shadowed(rules, members, i) {
      var tag := rules[i].keys[0];
      var n: nat :| n < |routes| && NamesMember(routes, n, tag);
      NamerRule(routes, n, tag, g);
      var j := DisambiguationPresent(routes, g, n);
      RuleIsBuilt(routes, g, i);
      var probe := Probe(rules, members, rules[i]);
      ProbeClosed(rules, members, rules[i]);
      BareHas(probe);
      KeysMatch(rules[j], Bare(probe));
    }
  }

  lemma NamerRule(routes: seq<Route>, n: nat, tag: string, g: Group)
    requires NamesMember(routes, n, tag) && tag in g.members
    requires g.members[tag] == routes[n].requiredQueryStrings[0] && routes[n].queryPatterns == []
    ensures DisambiguationRule(routes[n], g) == Some(Rule(routes[n].op, [tag, g.members[tag]], [], [], [], Misc))
  {
  }

  lemma {:induction false} DisambiguationPresent(routes: seq<Route>, g: Group, k: nat) returns (j: nat)
    requires k < |routes| && DisambiguationRule(routes[k], g).Some?
    ensures j < |DisambiguationOf(routes, g)|
    ensures DisambiguationOf(routes, g)[j] == DisambiguationRule(routes[k], g).value
    decreases |routes|
  {
    hide DisambiguationRule;
    if k < |routes| - 1 {
      j := DisambiguationPresent(routes[..|routes| - 1], g, k);
    } else {
      j := |DisambiguationOf(routes[..|routes| - 1], g)|;
    }
  }

  /** A group whose shared tag is named by a route with a pattern, beside a route that needs a header. */
  const PATTERNED: seq<Route> := [
    Route("SelectObjectContent", Some("t"), [("p", "2")], None, [], ["m"]),
    Route("B", Some("t"), [], None, [], []),
    Route("C", None, [], None, ["h"], ["t", "m"])
  ]

  /** There the answer differs: asked for both keys without the header, the dispatcher names the last route. */
  lemma PatternedNamer(plan: Plan, g: Group)
    requires g == GroupOf(PATTERNED, map["t" := "m"]) && PlanOf(plan, PATTERNED, g)
    ensures Sorted(PATTERNED) && MembersOk(g.members, PATTERNED, |PATTERNED|) && !TwoMembers(PATTERNED)
    ensures forall r <- PATTERNED :: PatternsAllowed(r)
    ensures !AnswersExact(plan, g)
  {
    hide PlanOk, RuleCondition, Bare, AnswersExact, Shadowed, NamesMember, MembersOk, TwoMembers, Sorted, OpsDiffer;
    hide WithKinds, RulesOf;
    PatternedMembers();
    var rules := RulesOf(PATTERNED, g);
    PatternedRules(g);
    KindsOnly(rules, g.members);
    NotShadowed(plan.rules, g.members);
    UnshadowedDiffers(plan, PATTERNED, g, 2);
  }

  /** Only the first route names a member of the shared tag. */
  lemma PatternedMembers()
    ensures Sorted(PATTERNED) && MembersOk(map["t" := "m"], PATTERNED, 3) && !TwoMembers(PATTERNED)
  {
    forall i: nat, tag ensures NamesMember(PATTERNED, i, tag) <==> i == 0 && tag == "t" {
      assert PATTERNED[1].queryTag == Some("t");
    }
    assert NamesMember(PATTERNED, 0, "t");
  }

  lemma NotShadowed(rules: seq<Rule>, members: map<string, string>)
    requires members == map["t" := "m"] && |rules| == 3
    requires rules[0].patterns != [] && rules[1].negKeys == ["m"]
    requires Headered(rules[2], members)
    ensures !Shadowed(rules, members, 2)
  {
    hide RuleCondition, Bare, Following, Negating;
    var probe := Probe(rules, members, rules[2]);
    ProbeClosed(rules, members, rules[2]);
    forall j | 0 <= j < 2 ensures !RuleCondition(rules[j], Bare(probe)) {
      if RuleCondition(rules[j], Bare(probe)) {
        BareMatch(rules[j], probe);
      }
    }
  }

  lemma PatternedRules(g: Group)
    requires g == GroupOf(PATTERNED, map["t" := "m"])
    ensures RulesOf(PATTERNED, g) == [
              Rule("SelectObjectContent", ["t"], [], [("p", "2")], [], Misc),
              Rule("B", ["t"], ["m"], [], [], Misc),
              Rule("C", ["t", "m"], [], [], ["h"], Misc)
            ]
    ensures OpsDiffer(PATTERNED)
  {
    var s := PATTERNED;
    assert s[..2][..1] == s[..1] && s[..1][..0] == [];
    assert FirstFinal(s) == None;
    assert DisambiguationOf(s[..1], g) == [] + AsSeq(DisambiguationRule(s[0], g));
    assert DisambiguationOf(s[..2], g) == DisambiguationOf(s[..1], g) + AsSeq(DisambiguationRule(s[1], g));
    assert DisambiguationOf(s, g) == DisambiguationOf(s[..2], g) + AsSeq(DisambiguationRule(s[2], g));
    assert ConjunctionOf(s[..1]) == [] && ConjunctionOf(s[..2]) == [];
  }

  // ----- The whole resolver

  lemma {:induction false} KindsDoNotMatter(a: seq<Rule>, b: seq<Rule>, req: Request, fallback: Option<string>)
    requires |a| == |b| && forall i :: 0 <= i < |a| ==> a[i] == b[i].(kind := a[i].kind)
    ensures FirstMatch(a, req, fallback) == FirstMatch(b, req, fallback)
    decreases |a|
  {
    if a != [] {
      SameTokens(b[0], a[0].kind);
      assert RuleCondition(a[0], req) <==> RuleCondition(b[0], req);
      KindsDoNotMatter(a[1..], b[1..], req, fallback);
    }
  }

  lemma RuleHasToken(routes: seq<Route>, g: Group, i: nat)
    requires i < |RulesOf(routes, g)|
    ensures RulesOf(routes, g)[i].Tokens() != []
    ensures RulesOf(routes, g)[i].negKeys == [] || RulesOf(routes, g)[i].keys != []
  {
    hide DisambiguationRule, ConjunctionRule, Built, Headered, HeaderedFamily;
    var d := |DisambiguationOf(routes, g)|;
    if i < d {
      DisambiguationFrom(routes, g, i);
      var r :| r in routes && DisambiguationRule(r, g) == Some(DisambiguationOf(routes, g)[i]);
      DisambiguationIsBuilt(r, g);
    } else {
      ConjunctionFrom(routes, i - d);
      var k :| 0 <= k < |routes| && ConjunctionRule(routes[k]) == Some(ConjunctionOf(routes)[i - d]);
      ConjunctionIsBuilt(routes[k], g.members);
    }
    RuleIsBuilt(routes, g, i);
    BuiltKeys(RulesOf(routes, g)[i], g.members);
  }

  lemma BuiltKeys(rule: Rule, members: map<string, string>)
    requires Built(rule, members)
    ensures rule.negKeys == [] || rule.keys != []
  {
  }

  ghost predicate BitsFit(rules: seq<Rule>, members: map<string, string>) {
    |rules| < 128 && |rules| + |FeatureSet(WithKinds(rules, members), members)| <= 128
  }

  lemma {:induction false} SameFollowing(
    a: seq<Rule>, b: seq<Rule>, members: map<string, string>, key: string, seen: seq<string>)
    requires |a| == |b| && forall i :: 0 <= i < |a| ==> a[i] == b[i].(kind := a[i].kind)
    ensures Following(a, members, key, seen) == Following(b, members, key, seen)
    decreases members.Keys - set k | k in seen
  {
    assert Negating(a, key) <==> Negating(b, key) by {
      if Negating(b, key) {
        var j :| 0 <= j < |b| && b[j].keys == [key] && b[j].negKeys != [];
        assert a[j].keys == [key];
      }
    }
    if key !in seen && key in members && Negating(a, key) {
      assert key in members.Keys - set k | k in seen;
      SameFollowing(a, b, members, members[key], seen + [key]);
    }
  }

  lemma SameShadow(a: seq<Rule>, b: seq<Rule>, members: map<string, string>, i: nat)
    requires |a| == |b| && forall i :: 0 <= i < |a| ==> a[i] == b[i].(kind := a[i].kind)
    requires i < |a| && |a[i].keys| == 2
    ensures Shadowed(a, members, i) <==> Shadowed(b, members, i)
  {
    hide Following, Bare, RuleCondition;
    SameFollowing(a, b, members, a[i].keys[1], [a[i].keys[0]]);
    var req := Bare(Probe(a, members, a[i]));
    forall j | 0 <= j < i ensures RuleCondition(a[j], req) <==> RuleCondition(b[j], req) {
      SameCondition(b[j], a[j].kind, req);
    }
  }

  lemma SameCondition(rule: Rule, kind: RuleKind, req: Request)
    ensures RuleCondition(rule.(kind := kind), req) <==> RuleCondition(rule, req)
  {
    SameTokens(rule, kind);
  }

  /** Kinds do not matter for what shadows what. */
  lemma SameShadows(rules: seq<Rule>, members: map<string, string>)
    ensures AllShadowed(WithKinds(rules, members), members) <==> AllShadowed(rules, members)
  {
    hide Shadowed, WithKinds;
    var kinds := WithKinds(rules, members);
    KindsOnly(rules, members);
    forall i | 0 <= i < |rules| && Headered(rules[i], members)
      ensures Shadowed(kinds, members, i) <==> Shadowed(rules, members, i)
    {
      SameShadow(kinds, rules, members, i);
    }
  }

  /** No less specific rule decides while a more specific one matches, unless the request names its operation. */
  ghost predicate SpecificWins(routes: seq<Route>, g: Group, req: Request, answer: Option<string>) {
    var rules, d := RulesOf(routes, g), |DisambiguationOf(routes, g)|;
    forall w, j :: d <= w < |rules| && d <= j < |rules| && LessSpecific(rules[w], rules[j])
                   && RuleCondition(rules[j], req) && answer == Some(rules[w].op) ==>
                     NamedById(routes, rules[w].op, req)
  }

  lemma AnswerIsSpecific(
    plan: Plan, routes: seq<Route>, g: Group, req: Request, v0: Mask, act: Mask, r: Option<string>)
    requires PlanOf(plan, routes, g) && Sorted(routes) && OpsDiffer(routes)
    requires forall x <- routes :: NoRepeats(x.requiredQueryStrings) && NoRepeats(x.requiredHeaders)
    requires Activated(plan, req, v0, act) && Answers(plan, act, g.fallback, r)
    ensures SpecificWins(routes, g, req, r)
  {
    hide PlanOk, RuleCondition, Activated, NamedById, Sorted, OpsDiffer, LessSpecific;
    var rules, d := RulesOf(routes, g), |DisambiguationOf(routes, g)|;
    KindsOnly(rules, g.members);
    forall w, j | d <= w < |rules| && d <= j < |rules| && LessSpecific(rules[w], rules[j])
                  && RuleCondition(rules[j], req) && r == Some(rules[w].op)
      ensures NamedById(routes, rules[w].op, req)
    {
      SameCondition(rules[j], plan.rules[j].kind, req);
      SameSpecific(rules[w], plan.rules[w].kind, rules[j], plan.rules[j].kind);
      BitOfRule(plan, routes, g, req, v0, act, j);
      var i: nat :| Lowest(act, i) && i < |plan.rules| && r == Some(plan.rules[i].op);
      MostSpecificWins(plan, routes, g, req, v0, act, i, w, j);
    }
  }

  lemma SameSpecific(a: Rule, ka: RuleKind, b: Rule, kb: RuleKind)
    ensures LessSpecific(a.(kind := ka), b.(kind := kb)) <==> LessSpecific(a, b)
  {
  }

  /**
   * The generator and the code it emits for one group, on one request: `None` where the generator
   * panics. Where every headered rule is shadowed, the answer is the first matching rule's operation or
   * the group's fallback; and the most specific rule wins in every group.
   */
  method ResolveRequest(group: seq<Route>, req: Request)
    returns (r: Option<Option<string>>, members: map<string, string>)
    ensures var routes := SortRoutes(group);
            && (TwoMembers(routes) ==> r.None?)
            && (!TwoMembers(routes) ==>
                  && MembersOk(members, routes, |routes|)
                  && (r.Some? <==> (forall x <- routes :: PatternsAllowed(x))
                                   && BitsFit(RulesOf(routes, GroupOf(routes, members)), members)))
    ensures var routes := SortRoutes(group);
            var rules := RulesOf(routes, GroupOf(routes, members));
            r.Some? && AllShadowed(rules, members) ==> r.value == FirstMatch(rules, req, FirstFinal(routes))
    ensures var routes := SortRoutes(group);
            && r.Some? && OpsDiffer(group)
            && (forall x <- group :: NoRepeats(x.requiredQueryStrings) && NoRepeats(x.requiredHeaders)) ==>
              SpecificWins(routes, GroupOf(routes, members), req, r.value)
  {
    hide AllShadowed, KindOf, PatternsAllowed, MembersOk, TwoMembers, Rule.Tokens, FirstMatch, PlanOk, WellFormedRule;
    hide Activated, Answers, SpecificWins, SortRoutes, OpsDiffer, NoRepeats, Sorted, WithKinds;
    var routes := SortRoutes(group);
    var shared := SharedTagMembers(routes);
    members := map[];
    if shared.None? {
      return None, members;
    }
    members := shared.value;
    var g := GroupOf(routes, members);
    var first := DisambiguationRules(routes, g);
    if first.None? {
      return None, members;
    }
    var second := ConjunctionRules(routes);
    var rules := first.value + second;
    assert rules == RulesOf(routes, g);
    forall i | 0 <= i < |rules| ensures rules[i].Tokens() != [] && (rules[i].negKeys == [] || rules[i].keys != []) {
      RuleHasToken(routes, g, i);
    }
    var plan := BuildPlan(rules, members);
    if plan.None? {
      return None, members;
    }
    KindsOnly(rules, members);
    var op := Resolve(plan.value, members, req, g.fallback);
    Resolved(plan.value, group, g, req, op);
    r := Some(op);
  }

  /** What the resolver's answer means for the group. */
  lemma Resolved(plan: Plan, group: seq<Route>, g: Group, req: Request, op: Option<string>)
    requires PlanOf(plan, SortRoutes(group), g)
    requires if |plan.rules| <= 1 then op == FirstMatch(plan.rules, req, g.fallback)
             else exists v0, act :: Activated(plan, req, v0, act) && Answers(plan, act, g.fallback, op)
    ensures var rules := RulesOf(SortRoutes(group), g);
            AllShadowed(rules, g.members) ==> op == FirstMatch(rules, req, g.fallback)
    ensures OpsDiffer(group)
            && (forall x <- group :: NoRepeats(x.requiredQueryStrings) && NoRepeats(x.requiredHeaders)) ==>
              SpecificWins(SortRoutes(group), g, req, op)
  {
    hide AllShadowed, FirstMatch, Activated, Answers, SpecificWins, SortRoutes, OpsDiffer, NoRepeats, Sorted, WithKinds;
    hide ArmsOk, Classified, AllKeep, FeaturesHaveBits, BitsOk;
    var routes := SortRoutes(group);
    var rules := RulesOf(routes, g);
    KindsOnly(rules, g.members);
    KindsDoNotMatter(plan.rules, rules, req, g.fallback);
    SameShadows(rules, g.members);
    SortRoutesSorts(group);
    SamePlaces(group, routes);
    if |plan.rules| <= 1 {
      LoneIsSpecific(routes, g, req, op);
    } else {
      var v0, act :| Activated(plan, req, v0, act) && Answers(plan, act, g.fallback, op);
      if AllShadowed(rules, g.members) {
        ShadowedAnswer(plan, routes, g, req, v0, act, op);
      }
      if OpsDiffer(group) && forall x <- group :: NoRepeats(x.requiredQueryStrings) && NoRepeats(x.requiredHeaders) {
        AnswerIsSpecific(plan, routes, g, req, v0, act, op);
      }
    }
  }

  lemma LoneIsSpecific(routes: seq<Route>, g: Group, req: Request, op: Option<string>)
    requires |RulesOf(routes, g)| <= 1
    ensures SpecificWins(routes, g, req, op)
  {
    hide RuleCondition, NamedById, DisambiguationOf, ConjunctionOf;
  }
}
