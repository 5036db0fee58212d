/** Feature bits, scan arms, and the emitted dispatcher with its three shapes. */
module Dispatcher {
  import opened Bytes
  import opened Router

  /** The features whose hit makes the rule a candidate. */
  function Candidates(rule: Rule): seq<Token>
    requires rule.kind != Misc ==> rule.Tokens() != []
  {
    if rule.kind == Misc then rule.Tokens() else [rule.Tokens()[0]]
  }

  // ----- Feature bits

  /** Feature bits lie above the `n` rule bits and below `next`, one for each feature. */
  ghost predicate BitsOk(bits: map<Token, nat>, n: nat, next: nat) {
    && (forall t :: t in bits ==> n <= bits[t] < next)
    && (forall t, u :: t in bits && u in bits && t != u ==> bits[t] != bits[u])
    && next >= n
  }

  method Allocate(toks: seq<Token>, bits0: map<Token, nat>, n: nat, next0: nat)
    returns (bits: map<Token, nat>, next: nat)
    requires BitsOk(bits0, n, next0) && next0 == n + |bits0|
    ensures BitsOk(bits, n, next) && next == n + |bits|
    ensures forall t :: t in bits <==> t in bits0 || t in toks
  {
    hide BitsOk, Covers;
    bits, next := bits0, next0;
    CoversNone(bits);
    for a := 0 to |toks|
      invariant BitsOk(bits, n, next) && next == n + |bits|
      invariant Covers(bits, bits0, toks[..a])
    {
      CoversMore(bits, bits0, toks, a, next);
      if toks[a] !in bits {
        BitAdded(bits, n, next, toks[a]);
        bits := bits[toks[a] := next];
        next := next + 1;
      }
    }
    assert toks[..|toks|] == toks;
    CoversAll(bits, bits0, toks);
  }

  ghost predicate Covers(bits: map<Token, nat>, bits0: map<Token, nat>, toks: seq<Token>) {
    forall t :: t in bits <==> t in bits0 || t in toks
  }

  lemma CoversNone(bits: map<Token, nat>)
    ensures Covers(bits, bits, [])
  {
  }

  lemma CoversMore(bits: map<Token, nat>, bits0: map<Token, nat>, toks: seq<Token>, a: nat, next: nat)
    requires a < |toks| && Covers(bits, bits0, toks[..a])
    ensures Covers(if toks[a] in bits then bits else bits[toks[a] := next], bits0, toks[..a + 1])
  {
    assert toks[..a + 1] == toks[..a] + [toks[a]];
  }

  lemma CoversAll(bits: map<Token, nat>, bits0: map<Token, nat>, toks: seq<Token>)
    requires Covers(bits, bits0, toks)
    ensures forall t :: t in bits <==> t in bits0 || t in toks
  {
  }

  lemma BitAdded(bits: map<Token, nat>, n: nat, next: nat, t: Token)
    requires BitsOk(bits, n, next) && t !in bits
    ensures BitsOk(bits[t := next], n, next + 1) && |bits[t := next]| == |bits| + 1
  {
    assert bits[t := next].Keys == bits.Keys + {t};
    assert |bits[t := next].Keys| == |bits[t := next]|;
  }

  /** Members first, then what the miscellaneous rules demand and forbid. */
  method AllocateBits(rules: seq<Rule>, memberTokens: seq<Token>) returns (bits: map<Token, nat>, next: nat)
    ensures BitsOk(bits, |rules|, next) && next == |rules| + |bits|
    ensures forall t :: t in bits <==> t in memberTokens || MiscFeature(rules, t)
  {
    hide Rule.Tokens, NegTokens, BitsOk;
    NoBits(|rules|);
    bits, next := Allocate(memberTokens, map[], |rules|, |rules|);
    for idx := 0 to |rules|
      invariant BitsOk(bits, |rules|, next) && next == |rules| + |bits|
      invariant forall t :: t in bits <==> t in memberTokens || MiscFeature(rules[..idx], t)
    {
      if rules[idx].kind == Misc {
        bits, next := Allocate(rules[idx].Tokens(), bits, |rules|, next);
        bits, next := Allocate(NegTokens(rules[idx]), bits, |rules|, next);
      }
      forall t
        ensures MiscFeature(rules[..idx + 1], t) <==>
                || MiscFeature(rules[..idx], t)
                || (rules[idx].kind == Misc && (t in rules[idx].Tokens() || t in NegTokens(rules[idx])))
      {
        MoreFeatures(rules, idx, t);
      }
    }
    assert rules[..|rules|] == rules;
  }

  lemma NoBits(n: nat)
    ensures BitsOk(map[], n, n)
  {
  }

  lemma MoreFeatures(rules: seq<Rule>, n: nat, t: Token)
    requires n < |rules|
    ensures MiscFeature(rules[..n + 1], t) <==>
            || MiscFeature(rules[..n], t)
            || (rules[n].kind == Misc && (t in rules[n].Tokens() || t in NegTokens(rules[n])))
  {
    hide Rule.Tokens, NegTokens;
    var less, more := rules[..n], rules[..n + 1];
    if MiscFeature(less, t) {
      var i :| 0 <= i < |less| && less[i].kind == Misc && (t in less[i].Tokens() || t in NegTokens(less[i]));
      assert more[i] == less[i];
    }
    if rules[n].kind == Misc && (t in rules[n].Tokens() || t in NegTokens(rules[n])) {
      assert more[n] == rules[n];
    }
    if MiscFeature(more, t) {
      var i :| 0 <= i < |more| && more[i].kind == Misc && (t in more[i].Tokens() || t in NegTokens(more[i]));
      assert i < n ==> less[i] == more[i];
    }
  }

  // ----- Scan arms

  predicate Startable(rules: seq<Rule>) {
    forall i :: 0 <= i < |rules| && rules[i].kind != Misc ==> rules[i].Tokens() != []
  }

  /** The rule bits a feature sets. */
  ghost predicate SetsRule(rules: seq<Rule>, t: Token, i: nat)
    requires Startable(rules)
  {
    i < |rules| && t in Candidates(rules[i])
  }

  function At(m: map<Token, Mask>, t: Token): Mask {
    if t in m then m[t] else {}
  }

  method RuleBits(rules: seq<Rule>) returns (ruleBits: map<Token, Mask>)
    requires Startable(rules)
    ensures forall t, i: nat :: i in At(ruleBits, t) <==> SetsRule(rules, t, i)
  {
    hide Rule.Tokens, Candidates;
    ruleBits := map[];
    for idx := 0 to |rules|
      invariant forall t, i: nat :: i in At(ruleBits, t) <==> i < idx && SetsRule(rules, t, i)
    {
      var toks := Candidates(rules[idx]);
      for a := 0 to |toks|
        invariant forall t, i: nat :: i in At(ruleBits, t) <==>
                                      (i < idx && SetsRule(rules, t, i)) || (i == idx && t in toks[..a])
      {
        var t := toks[a];
        ghost var before := ruleBits;
        ruleBits := ruleBits[t := At(ruleBits, t) + {idx}];
        assert toks[..a + 1] == toks[..a] + [t];
        assert forall u :: At(ruleBits, u) == if u == t then At(before, t) + {idx} else At(before, u);
      }
      assert toks[..|toks|] == toks;
    }
  }

  datatype Plan = Plan(
    rules: seq<Rule>, layers: seq<Layer>, bits: map<Token, nat>, arms: map<Token, Mask>, width: nat)

  /** What the plan builder guarantees. */
  ghost predicate PlanOk(plan: Plan, members: map<string, string>) {
    && Classified(plan.rules, members)
    && Startable(plan.rules)
    && (forall hits, i :: 0 <= i < |plan.rules| ==>
                            (AllKeep(plan.layers, hits, i) <==> LayerCondition(plan.rules[i], members, hits)))
    && (forall l <- plan.layers :: TestsBits(l, plan.bits) && l.keepT + l.keepF <= MaskLow(|plan.rules|))
    && BitsOk(plan.bits, |plan.rules|, plan.width)
    && FeaturesHaveBits(plan, members)
    && ArmsOk(plan)
  }

  /** Family members, and what miscellaneous rules demand and forbid, have bits of their own. */
  ghost predicate FeaturesHaveBits(plan: Plan, members: map<string, string>) {
    && (forall t :: MiscFeature(plan.rules, t) ==> t in plan.bits)
    && (forall j :: 0 <= j < |plan.rules| && InFamily(plan.rules[j], members) ==>
                      Key(MemberOf(plan.rules[j], members)) in plan.bits)
  }

  predicate TestsBits(l: Layer, bits: map<Token, nat>) {
    forall c <- l.sel, t <- c.toks :: t in bits
  }

  /** An arm sets the feature's own bit, if it has one, and the bits of the rules it makes candidates. */
  ghost predicate ArmsOk(plan: Plan)
    requires Startable(plan.rules)
  {
    ArmsSet(plan.arms, plan.rules, plan.bits)
  }

  ghost predicate ArmsSet(arms: map<Token, Mask>, rules: seq<Rule>, bits: map<Token, nat>)
    requires Startable(rules)
  {
    forall t, i: nat :: i in At(arms, t) <==> SetsRule(rules, t, i) || (t in bits && i == bits[t])
  }

  method BuildArms(rules: seq<Rule>, bits: map<Token, nat>) returns (arms: map<Token, Mask>)
    requires Startable(rules)
    ensures ArmsSet(arms, rules, bits)
  {
    hide SetsRule, Candidates;
    var ruleBits := RuleBits(rules);
    arms := map t | t in ruleBits.Keys + bits.Keys :: At(ruleBits, t) + (if t in bits then {bits[t]} else {});
  }

  /** The smallest unsigned integer type that holds the bits; `None` past 128, where the generator panics. */
  function MaskType(bits: nat): (w: Option<nat>)
    ensures w.Some? ==> bits <= w.value <= 128
    ensures w.Some? <==> bits <= 128
  {
    if bits <= 8 then Some(8)
    else if bits <= 16 then Some(16)
    else if bits <= 32 then Some(32)
    else if bits <= 64 then Some(64)
    else if bits <= 128 then Some(128)
    else None
  }

  /** The features with bits of their own. */
  ghost function FeatureSet(rules: seq<Rule>, members: map<string, string>): set<Token> {
    (set i | 0 <= i < |rules| && InFamily(rules[i], members) :: Key(MemberOf(rules[i], members)))
    + (set i, t | 0 <= i < |rules| && rules[i].kind == Misc && t in rules[i].Tokens() + NegTokens(rules[i]) :: t)
  }

  lemma FeatureSetIs(rules: seq<Rule>, members: map<string, string>, memberTokens: seq<Token>, bits: map<Token, nat>)
    requires MembersNamed(rules, members, memberTokens)
    requires forall t :: t in bits <==> t in memberTokens || MiscFeature(rules, t)
    ensures bits.Keys == FeatureSet(rules, members) && |bits| == |FeatureSet(rules, members)|
  {
    hide Rule.Tokens, NegTokens;
    var all := FeatureSet(rules, members);
    forall t ensures t in bits <==> t in all {
      if MiscFeature(rules, t) {
        var i :| 0 <= i < |rules| && rules[i].kind == Misc && (t in rules[i].Tokens() || t in NegTokens(rules[i]));
        assert t in rules[i].Tokens() + NegTokens(rules[i]);
      }
    }
    assert |bits| == |bits.Keys|;
  }

  /** Compiles a rule list; `None` exactly when the rules and their features do not fit in 128 bits. */
  method BuildPlan(rules0: seq<Rule>, members: map<string, string>) returns (plan: Option<Plan>)
    requires forall i :: 0 <= i < |rules0| ==> rules0[i].Tokens() != []
    ensures plan.Some? ==> PlanOk(plan.value, members) && plan.value.width <= 128
    ensures plan.None? <==>
            |rules0| >= 128 || |rules0| + |FeatureSet(WithKinds(rules0, members), members)| > 128
    ensures plan.Some? ==> plan.value.rules == WithKinds(rules0, members)
  {
    hide Classified, SetsRule, MiscFeature, MaskLow, AllKeep, LayerCondition, KindOf, InFamily;
    hide FeatureSet, WithKinds, BitsOk, LayerOk, PlanOk, MembersNamed, Candidates, ArmsSet;
    var rules := ClassifyRules(rules0, members);
    KindsOnly(rules0, members);
    forall i | 0 <= i < |rules| ensures rules[i].Tokens() != [] {
      SameTokens(rules0[i], rules[i].kind);
    }
    if |rules| >= 128 {
      return None;
    }
    var layers, memberTokens := BuildLayers(rules, members);
    var bits, next := AllocateBits(rules, memberTokens);
    FeatureSetIs(rules, members, memberTokens, bits);
    var width := MaskType(next);
    if width.None? {
      return None;
    }
    var arms := BuildArms(rules, bits);
    var p := Plan(rules, layers, bits, arms, width.value);
    BuiltPlanOk(p, members, memberTokens, next);
    plan := Some(p);
  }

  lemma BuiltPlanOk(plan: Plan, members: map<string, string>, memberTokens: seq<Token>, next: nat)
    requires Classified(plan.rules, members) && Startable(plan.rules) && ArmsOk(plan)
    requires forall hits, i :: 0 <= i < |plan.rules| ==>
                                 (AllKeep(plan.layers, hits, i) <==> LayerCondition(plan.rules[i], members, hits))
    requires forall l <- plan.layers :: LayerOk(l, plan.rules, memberTokens)
    requires MembersNamed(plan.rules, members, memberTokens)
    requires BitsOk(plan.bits, |plan.rules|, next) && next <= plan.width
    requires forall t :: t in plan.bits <==> t in memberTokens || MiscFeature(plan.rules, t)
    ensures PlanOk(plan, members)
  {
    hide ArmsOk, Classified, Startable, MiscFeature, MaskLow, AllKeep, LayerCondition, InFamily;
    forall l <- plan.layers ensures TestsBits(l, plan.bits) && l.keepT + l.keepF <= MaskLow(|plan.rules|) {
      assert LayerOk(l, plan.rules, memberTokens);
    }
  }

  lemma SameTokens(rule: Rule, kind: RuleKind)
    ensures rule.(kind := kind).Tokens() == rule.Tokens()
  {
  }

  // ----- What the emitted code computes

  function Xor(a: Mask, b: Mask): Mask {
    (a - b) + (b - a)
  }

  /** Bit `i` of the scan vector: some feature that holds has an arm that sets it. */
  ghost predicate Scanned(plan: Plan, req: Request, i: nat) {
    exists t :: i in At(plan.arms, t) && req.Holds(t)
  }

  /** The scan: header arms, one pass over the query string for the key arms, then the pattern arms. */
  method Scan(plan: Plan, req: Request) returns (v0: Mask)
    ensures forall i: nat :: i in v0 <==> Scanned(plan, req, i)
  {
    var hdr := ScanArms(plan, req, true);
    v0 := hdr;
    if req.qs.Some? {
      var key := ScanKeys(plan, req.qs.value);
      var pat := ScanArms(plan, req, false);
      v0 := key + pat + hdr;
      forall i: nat ensures i in v0 <==> Scanned(plan, req, i) {
        if i in key {
          var n :| 0 <= n < |req.qs.value| && i in At(plan.arms, Key(req.qs.value[n].0));
          assert req.Holds(Key(req.qs.value[n].0));
        }
        if Scanned(plan, req, i) {
          var t :| i in At(plan.arms, t) && req.Holds(t);
          if t.Key? {
            var n :| 0 <= n < |req.qs.value| && req.qs.value[n].0 == t.name;
            assert i in At(plan.arms, Key(req.qs.value[n].0));
          }
        }
      }
    }
  }

  /** The header arms, or the pattern arms: each sets its bits when its feature holds. */
  method ScanArms(plan: Plan, req: Request, hdr: bool) returns (v: Mask)
    ensures forall i: nat :: i in v <==>
                             exists t :: i in At(plan.arms, t) && req.Holds(t) && (if hdr then t.Hdr? else t.Pat?)
  {
    v := {};
    var todo := plan.arms.Keys;
    while todo != {}
      invariant todo <= plan.arms.Keys
      invariant forall i: nat :: i in v <==>
                                 exists t :: t !in todo && i in At(plan.arms, t) && req.Holds(t)
                                             && (if hdr then t.Hdr? else t.Pat?)
      decreases |todo|
    {
      var t :| t in todo;
      ghost var before := v;
      if (if hdr then t.Hdr? else t.Pat?) && req.Holds(t) {
        v := v + plan.arms[t];
      }
      forall i: nat
        ensures i in v <==> exists u :: u !in todo - {t} && i in At(plan.arms, u) && req.Holds(u)
                                         && (if hdr then u.Hdr? else u.Pat?)
      {
        if i in before {
          var u :| u !in todo && i in At(plan.arms, u) && req.Holds(u) && (if hdr then u.Hdr? else u.Pat?);
          assert u !in todo - {t};
        }
      }
      todo := todo - {t};
    }
  }

  /** The pass over the query string: each key that has an arm sets its bits. */
  method ScanKeys(plan: Plan, qs: seq<(string, string)>) returns (v: Mask)
    ensures forall i: nat :: i in v <==> exists n :: 0 <= n < |qs| && i in At(plan.arms, Key(qs[n].0))
  {
    v := {};
    for m := 0 to |qs|
      invariant forall i: nat :: i in v <==> exists n :: 0 <= n < m && i in At(plan.arms, Key(qs[n].0))
    {
      v := v + At(plan.arms, Key(qs[m].0));
    }
  }

  /** The layer's tests on the scan vector. */
  predicate Selected(l: Layer, bits: map<Token, nat>, v0: Mask)
    requires TestsBits(l, bits)
  {
    forall c <- l.sel ::
      match c
      case AllOf(ts) => forall t <- ts :: bits[t] in v0
      case NoneOf(ts) => forall t <- ts :: bits[t] !in v0
  }

  /** `KEEP_XOR & sel ^ KEEP_BASE`, with `sel` the test widened to all ones or all zeros. */
  function Folded(l: Layer, bits: map<Token, nat>, v0: Mask, width: nat): Mask
    requires TestsBits(l, bits)
  {
    var sel := if Selected(l, bits, v0) then MaskLow(width) else {};
    Xor(Xor(l.keepT, l.keepF) * sel, l.keepF)
  }

  lemma FoldSelects(l: Layer, bits: map<Token, nat>, v0: Mask, width: nat)
    requires TestsBits(l, bits) && l.keepT + l.keepF <= MaskLow(width)
    ensures Folded(l, bits, v0, width) == if Selected(l, bits, v0) then l.keepT else l.keepF
  {
    hide Selected, MaskLow;
    if Selected(l, bits, v0) {
      assert Xor(l.keepT, l.keepF) <= MaskLow(width);
      assert Xor(Xor(l.keepT, l.keepF), l.keepF) == l.keepT;
    }
  }

  /** The activation vector: the scan vector and every layer's vector; without layers, its rule bits. */
  method Activate(plan: Plan, v0: Mask) returns (act: Mask)
    requires forall l <- plan.layers :: TestsBits(l, plan.bits)
    ensures plan.layers == [] ==> act == v0 * MaskLow(|plan.rules|)
    ensures plan.layers != [] ==>
              forall i: nat :: i in act <==>
                               i in v0 && forall l <- plan.layers :: i in Folded(l, plan.bits, v0, plan.width)
  {
    hide Folded, MaskLow;
    if plan.layers == [] {
      return v0 * MaskLow(|plan.rules|);
    }
    act := v0;
    for n := 0 to |plan.layers|
      invariant forall i: nat :: i in act <==>
                                 && i in v0
                                 && forall a :: 0 <= a < n ==> i in Folded(plan.layers[a], plan.bits, v0, plan.width)
    {
      act := act * Folded(plan.layers[n], plan.bits, v0, plan.width);
    }
    assert forall l <- plan.layers :: exists a :: 0 <= a < |plan.layers| && plan.layers[a] == l;
  }

  // ----- Exactness

  /** The features with a bit that hold. */
  ghost function Hits(plan: Plan, req: Request): set<Token> {
    set t | t in plan.bits && req.Holds(t)
  }

  lemma FeatureBitExact(plan: Plan, members: map<string, string>, req: Request, t: Token)
    requires PlanOk(plan, members) && t in plan.bits
    ensures Scanned(plan, req, plan.bits[t]) <==> req.Holds(t)
  {
    hide Request.Holds, Candidates, AllKeep, LayerCondition, Classified;
    var b := plan.bits[t];
    assert b in At(plan.arms, t);
    if Scanned(plan, req, b) {
      var u :| b in At(plan.arms, u) && req.Holds(u);
      assert u == t;
    }
  }

  lemma RuleBitExact(plan: Plan, members: map<string, string>, req: Request, i: nat)
    requires PlanOk(plan, members) && i < |plan.rules|
    ensures Scanned(plan, req, i) <==> exists t :: t in Candidates(plan.rules[i]) && req.Holds(t)
  {
    hide Request.Holds, Candidates, AllKeep, LayerCondition, Classified;
    if Scanned(plan, req, i) {
      var t :| i in At(plan.arms, t) && req.Holds(t);
      assert SetsRule(plan.rules, t, i);
    }
    if t :| t in Candidates(plan.rules[i]) && req.Holds(t) {
      assert SetsRule(plan.rules, t, i);
    }
  }

  lemma SelectedExact(plan: Plan, members: map<string, string>, req: Request, v0: Mask, l: Layer)
    requires PlanOk(plan, members) && l in plan.layers
    requires forall i: nat :: i in v0 <==> Scanned(plan, req, i)
    ensures Selected(l, plan.bits, v0) <==> l.Selects(Hits(plan, req))
  {
    hide Request.Holds, AllKeep, LayerCondition, Classified, ArmsOk, Scanned;
    forall t | t in plan.bits ensures plan.bits[t] in v0 <==> t in Hits(plan, req) {
      FeatureBitExact(plan, members, req, t);
    }
    forall c <- l.sel
      ensures c.True(Hits(plan, req)) <==>
              match c
              case AllOf(ts) => forall t <- ts :: plan.bits[t] in v0
              case NoneOf(ts) => forall t <- ts :: plan.bits[t] !in v0
    {
      assert forall t <- c.toks :: t in plan.bits;
    }
  }

  /** What the scan and the layers together demand of a well-formed rule is its condition. */
  lemma CandidateAndLayers(plan: Plan, members: map<string, string>, req: Request, i: nat)
    requires PlanOk(plan, members) && i < |plan.rules| && WellFormedRule(plan.rules[i], members)
    ensures RuleCondition(plan.rules[i], req) <==>
            (exists t :: t in Candidates(plan.rules[i]) && req.Holds(t))
            && LayerCondition(plan.rules[i], members, Hits(plan, req))
  {
    var rule := plan.rules[i];
    var toks := rule.Tokens();
    match rule.kind
    case Single =>
      assert toks == [toks[0]] && Candidates(rule) == [toks[0]];
    case Family =>
      var member := MemberOf(rule, members);
      assert Candidates(rule) == [Key(rule.keys[0])];
      assert forall t :: t in toks <==> t == Key(rule.keys[0]) || (|rule.keys| == 2 && t == Key(member));
      assert Key(member) in Hits(plan, req) <==> req.Has(member);
    case Misc =>
      assert Candidates(rule) == toks;
      assert forall t <- toks :: MiscFeature(plan.rules, t);
      assert forall k <- rule.negKeys :: Key(k) in NegTokens(rule) && MiscFeature(plan.rules, Key(k));
      assert toks[0] in toks;
  }

  /** The activation vector of a plan on a request. */
  ghost predicate Activated(plan: Plan, req: Request, v0: Mask, act: Mask)
    requires forall l <- plan.layers :: TestsBits(l, plan.bits)
  {
    && (forall i: nat :: i in v0 <==> Scanned(plan, req, i))
    && (plan.layers == [] ==> act == v0 * MaskLow(|plan.rules|))
    && (plan.layers != [] ==>
          forall i: nat :: i in act <==>
                           i in v0 && forall l <- plan.layers :: i in Folded(l, plan.bits, v0, plan.width))
  }

  /** A rule bit survives the layers' vectors exactly when the layers keep it on the features that hold. */
  lemma FoldedKeeps(plan: Plan, members: map<string, string>, req: Request, v0: Mask, i: nat)
    requires PlanOk(plan, members)
    requires forall j: nat :: j in v0 <==> Scanned(plan, req, j)
    ensures (forall l <- plan.layers :: i in Folded(l, plan.bits, v0, plan.width)) <==>
            AllKeep(plan.layers, Hits(plan, req), i)
  {
    hide Folded, Scanned, LayerCondition, Classified, ArmsOk, Hits, FeaturesHaveBits;
    forall l <- plan.layers
      ensures i in Folded(l, plan.bits, v0, plan.width) <==> l.Keeps(Hits(plan, req), i)
    {
      LowFits(|plan.rules|, plan.width);
      FoldSelects(l, plan.bits, v0, plan.width);
      SelectedExact(plan, members, req, v0, l);
    }
  }

  lemma LowFits(n: nat, width: nat)
    requires n <= width
    ensures MaskLow(n) <= MaskLow(width)
  {
  }

  /** Only rule bits survive a layer. */
  lemma OnlyRuleBits(plan: Plan, members: map<string, string>, hits: set<Token>, i: nat)
    requires PlanOk(plan, members) && plan.layers != [] && AllKeep(plan.layers, hits, i)
    ensures i < |plan.rules|
  {
    hide LayerCondition, Classified, ArmsOk, FeaturesHaveBits;
    assert plan.layers[0].Keeps(hits, i);
  }

  /** The bit of a well-formed rule is set exactly when its condition holds, whatever the other rules are. */
  lemma ExactBit(plan: Plan, members: map<string, string>, req: Request, v0: Mask, act: Mask, i: nat)
    requires PlanOk(plan, members) && Activated(plan, req, v0, act)
    requires i < |plan.rules| && WellFormedRule(plan.rules[i], members)
    ensures i in act <==> RuleCondition(plan.rules[i], req)
  {
    hide Scanned, LayerCondition, Classified, ArmsOk, Hits, FeaturesHaveBits, WellFormedRule, Candidates, RuleCondition;
    FoldedKeeps(plan, members, req, v0, i);
    RuleBitExact(plan, members, req, i);
    CandidateAndLayers(plan, members, req, i);
    assert plan.layers == [] ==> AllKeep(plan.layers, Hits(plan, req), i);
  }

  /**
   * Exact activation: for every well-formed rule list and every request, the bits of the activation
   * vector are exactly the rules whose condition holds.
   */
  lemma ExactActivation(plan: Plan, members: map<string, string>, req: Request, v0: Mask, act: Mask, i: nat)
    requires PlanOk(plan, members)
    requires forall j :: 0 <= j < |plan.rules| ==> WellFormedRule(plan.rules[j], members)
    requires Activated(plan, req, v0, act)
    ensures i in act <==> i < |plan.rules| && RuleCondition(plan.rules[i], req)
  {
    hide PlanOk, Activated, WellFormedRule, RuleCondition;
    if i < |plan.rules| {
      ExactBit(plan, members, req, v0, act, i);
    }
    OnlyRules(plan, members, req, v0, act);
  }

  // ----- Dispatch

  /** The first-match chain: the operation of the first rule whose condition holds. */
  function FirstMatch(rules: seq<Rule>, req: Request, fallback: Option<string>): (r: Option<string>)
    ensures (forall i :: 0 <= i < |rules| ==> !RuleCondition(rules[i], req)) ==> r == fallback
    decreases |rules|
  {
    if rules == [] then fallback
    else if RuleCondition(rules[0], req) then Some(rules[0].op)
    else FirstMatch(rules[1..], req, fallback)
  }

  lemma {:induction false} FirstMatchAt(rules: seq<Rule>, req: Request, fallback: Option<string>, i: nat)
    requires i < |rules| && RuleCondition(rules[i], req)
    requires forall j :: 0 <= j < i ==> !RuleCondition(rules[j], req)
    ensures FirstMatch(rules, req, fallback) == Some(rules[i].op)
    decreases |rules|
  {
    hide RuleCondition;
    if i > 0 {
      FirstMatchAt(rules[1..], req, fallback, i - 1);
    }
  }

  /** Whether the emitted condition of a lone rule mentions the query string. */
  predicate UsesQs(rule: Rule) {
    rule.keys != [] || rule.negKeys != [] || rule.patterns != []
  }

  /** The lone-rule shape looks at the query string first; a rule that only forbids keys would need one. */
  predicate LoneCondition(rule: Rule, req: Request) {
    (UsesQs(rule) ==> req.qs.Some?) && RuleCondition(rule, req)
  }

  lemma LoneExact(rule: Rule, req: Request)
    requires rule.keys != [] || rule.patterns != [] || rule.negKeys == []
    ensures LoneCondition(rule, req) <==> RuleCondition(rule, req)
  {
    if RuleCondition(rule, req) {
      if rule.keys != [] {
        assert Key(rule.keys[0]) in rule.Tokens();
        assert req.Holds(Key(rule.keys[0]));
      } else if rule.patterns != [] {
        assert Pat(rule.patterns[0].0, rule.patterns[0].1) in rule.Tokens();
        assert req.Holds(Pat(rule.patterns[0].0, rule.patterns[0].1));
      }
    }
  }

  /** The lowest bit names the operation; without any it is the fallback. */
  ghost predicate Answers(plan: Plan, act: Mask, fallback: Option<string>, r: Option<string>) {
    if act == {} then r == fallback
    else exists i: nat :: Lowest(act, i) && i < |plan.rules| && r == Some(plan.rules[i].op)
  }

  ghost predicate Lowest(act: Mask, i: nat) {
    i in act && forall j <- act :: i <= j
  }

  /** The generated resolver: no rule, one rule, or the feature vectors and `trailing_zeros`. */
  method Resolve(plan: Plan, members: map<string, string>, req: Request, fallback: Option<string>)
    returns (r: Option<string>)
    requires PlanOk(plan, members)
    requires |plan.rules| == 1 ==>
               plan.rules[0].keys != [] || plan.rules[0].patterns != [] || plan.rules[0].negKeys == []
    ensures (forall j :: 0 <= j < |plan.rules| ==> WellFormedRule(plan.rules[j], members)) ==>
              r == FirstMatch(plan.rules, req, fallback)
    ensures if |plan.rules| <= 1 then r == FirstMatch(plan.rules, req, fallback)
            else exists v0, act :: Activated(plan, req, v0, act) && Answers(plan, act, fallback, r)
  {
    hide RuleCondition, WellFormedRule, Scanned, ArmsOk, LayerCondition, AllKeep, FeaturesHaveBits, Classified;
    if plan.rules == [] {
      return fallback;
    }
    if |plan.rules| == 1 {
      LoneExact(plan.rules[0], req);
      return if LoneCondition(plan.rules[0], req) then Some(plan.rules[0].op) else fallback;
    }
    var v0 := Scan(plan, req);
    var act := Activate(plan, v0);
    OnlyRules(plan, members, req, v0, act);
    assert Activated(plan, req, v0, act);
    ghost var wellFormed := forall j :: 0 <= j < |plan.rules| ==> WellFormedRule(plan.rules[j], members);
    if wellFormed {
      forall i: nat ensures i in act <==> i < |plan.rules| && RuleCondition(plan.rules[i], req) {
        ExactActivation(plan, members, req, v0, act, i);
      }
    }
    if act == {} {
      return fallback;
    }
    var i := TrailingZeros(act, |plan.rules|);
    assert Lowest(act, i);
    if wellFormed {
      FirstMatchAt(plan.rules, req, fallback, i);
    }
    return Some(plan.rules[i].op);
  }

  /** The activation vector indexes the array of operations within its bounds. */
  lemma OnlyRules(plan: Plan, members: map<string, string>, req: Request, v0: Mask, act: Mask)
    requires PlanOk(plan, members) && Activated(plan, req, v0, act)
    ensures forall i <- act :: i < |plan.rules|
  {
    hide Scanned, LayerCondition, Classified, ArmsOk, Hits, FeaturesHaveBits;
    forall i <- act ensures i < |plan.rules| {
      FoldedKeeps(plan, members, req, v0, i);
      if plan.layers != [] {
        OnlyRuleBits(plan, members, Hits(plan, req), i);
      }
    }
  }

  /** The lowest bit of a non-zero mask. */
  method TrailingZeros(act: Mask, n: nat) returns (i: nat)
    requires act != {} && forall j <- act :: j < n
    ensures i in act && forall j <- act :: i <= j
  {
    i := 0;
    while i !in act
      invariant forall j <- act :: i <= j
      decreases n - i
    {
      i := i + 1;
    }
  }
}
