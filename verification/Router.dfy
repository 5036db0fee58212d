/**
 * The feature-vector router: an ordered rule list is compiled into scan arms, feature bits and
 * filter layers; the emitted dispatcher evaluates them on a request.
 *
 * A mask is the set of its bit positions.
 */
module Router {
  import opened Bytes

  type Mask = set<nat>

  /** A query or header feature: a key is present, a key has one value, a header is present. */
  datatype Token = Key(name: string) | Pat(name: string, value: string) | Hdr(name: string)

  datatype RuleKind = Single | Family | Misc

  /** One branch of the first-match chain: a conjunction of features that dispatches to `op`. */
  datatype Rule = Rule(
    op: string,
    keys: seq<string>,
    negKeys: seq<string>,
    patterns: seq<(string, string)>,
    headers: seq<string>,
    kind: RuleKind
  ) {
    /** Every positive feature of the rule. */
    function Tokens(): (r: seq<Token>)
      ensures |r| == |keys| + |patterns| + |headers|
      ensures forall t :: t in r <==>
                            || (t.Key? && t.name in keys)
                            || (t.Pat? && (t.name, t.value) in patterns)
                            || (t.Hdr? && t.name in headers)
      ensures keys != [] ==> r[0] == Key(keys[0])
    {
      var ks := seq(|keys|, i requires 0 <= i < |keys| => Key(keys[i]));
      var ps := seq(|patterns|, i requires 0 <= i < |patterns| => Pat(patterns[i].0, patterns[i].1));
      var hs := seq(|headers|, i requires 0 <= i < |headers| => Hdr(headers[i]));
      assert forall k :: k in keys ==> exists i :: 0 <= i < |ks| && keys[i] == k && ks[i] == Key(k);
      assert forall p :: p in patterns ==>
                           exists i :: 0 <= i < |ps| && patterns[i] == p && ps[i] == Pat(p.0, p.1);
      assert forall h :: h in headers ==> exists i :: 0 <= i < |hs| && headers[i] == h && hs[i] == Hdr(h);
      ks + ps + hs
    }
  }

  datatype Request = Request(qs: Option<seq<(string, string)>>, headers: set<string>) {
    predicate Has(key: string) {
      qs.Some? && exists i :: 0 <= i < |qs.value| && qs.value[i].0 == key
    }

    /** `get_unique`: the key occurs exactly once, with this value. */
    predicate HasUnique(key: string, value: string) {
      qs.Some? && exists i :: 0 <= i < |qs.value| && qs.value[i] == (key, value)
                              && forall j :: 0 <= j < |qs.value| && j != i ==> qs.value[j].0 != key
    }

    predicate Holds(t: Token) {
      match t
      case Key(k) => Has(k)
      case Pat(k, v) => HasUnique(k, v)
      case Hdr(h) => h in headers
    }
  }

  /** The condition of the rule in the first-match chain. */
  predicate RuleCondition(rule: Rule, req: Request) {
    && (forall t <- rule.Tokens() :: req.Holds(t))
    && (forall k <- rule.negKeys :: !req.Has(k))
  }

  // ----- Classification

  /** Whether the rule carries its family's member (as opposed to negating it). */
  predicate CarriesMember(rule: Rule, member: string) {
    |rule.keys| == 2 && rule.keys[1] == member
  }

  function KindOf(rule: Rule, members: map<string, string>): RuleKind {
    if |rule.Tokens()| == 1 && rule.negKeys == [] then Single
    else if
      && rule.keys != [] && rule.keys[0] in members
      && (var member := members[rule.keys[0]];
          CarriesMember(rule, member) || (rule.negKeys != [] && rule.negKeys[0] == member))
    then Family
    else Misc
  }

  predicate Classified(rules: seq<Rule>, members: map<string, string>) {
    forall i :: 0 <= i < |rules| ==> rules[i].kind == KindOf(rules[i], members)
  }

  /** The rules with their kinds. */
  ghost function WithKinds(rules: seq<Rule>, members: map<string, string>): seq<Rule> {
    seq(|rules|, i requires 0 <= i < |rules| => rules[i].(kind := KindOf(rules[i], members)))
  }

  lemma KindsOnly(rules: seq<Rule>, members: map<string, string>)
    ensures var out := WithKinds(rules, members);
            |out| == |rules| && forall i :: 0 <= i < |rules| ==> out[i] == rules[i].(kind := out[i].kind)
  {
  }

  method ClassifyRules(rules: seq<Rule>, members: map<string, string>) returns (out: seq<Rule>)
    ensures out == WithKinds(rules, members)
    ensures Classified(out, members)
  {
    out := rules;
    var n := 0;
    while n < |rules|
      invariant n <= |rules| == |out|
      invariant forall i :: 0 <= i < n ==> out[i] == rules[i].(kind := KindOf(rules[i], members))
      invariant forall i :: n <= i < |rules| ==> out[i] == rules[i]
    {
      var rule := rules[n];
      out := out[n := rule.(kind := KindOf(rule, members))];
      n := n + 1;
    }
    forall i | 0 <= i < |out| ensures out[i].kind == KindOf(out[i], members) {
      SameKind(rules[i], members);
    }
  }

  lemma SameKind(rule: Rule, members: map<string, string>)
    ensures KindOf(rule.(kind := KindOf(rule, members)), members) == KindOf(rule, members)
  {
    assert |rule.(kind := KindOf(rule, members)).Tokens()| == |rule.Tokens()|;
  }

  /** A family rule is its tag with the member, or its tag without it, and nothing else. */
  predicate FamilyShape(rule: Rule, members: map<string, string>) {
    && rule.keys != [] && rule.keys[0] in members
    && rule.patterns == [] && rule.headers == []
    && (var member := members[rule.keys[0]];
        || (rule.keys == [rule.keys[0], member] && rule.negKeys == [])
        || (rule.keys == [rule.keys[0]] && rule.negKeys == [member]))
  }

  predicate WellFormedRule(rule: Rule, members: map<string, string>) {
    rule.Tokens() != [] && (rule.kind == Family ==> FamilyShape(rule, members))
  }

  // ----- Layers

  /** A test on the scan vector: all of these feature bits are set, or none of them. */
  datatype Cond = AllOf(toks: seq<Token>) | NoneOf(toks: seq<Token>) {
    predicate True(hits: set<Token>) {
      match this
      case AllOf(ts) => forall t <- ts :: t in hits
      case NoneOf(ts) => forall t <- ts :: t !in hits
    }
  }

  /** Rule bits survive by `keepT` when every test holds, by `keepF` otherwise. */
  datatype Layer = Layer(sel: seq<Cond>, keepT: Mask, keepF: Mask) {
    predicate Selects(hits: set<Token>) {
      forall c <- sel :: c.True(hits)
    }

    predicate Keeps(hits: set<Token>, i: nat) {
      if Selects(hits) then i in keepT else i in keepF
    }
  }

  /** The low `n` bits. */
  function MaskLow(n: nat): (m: Mask)
    ensures forall i :: i in m <==> 0 <= i < n
  {
    if n == 0 then {} else MaskLow(n - 1) + {n - 1}
  }

  predicate AllKeep(layers: seq<Layer>, hits: set<Token>, i: nat) {
    forall l <- layers :: l.Keeps(hits, i)
  }

  lemma AllKeepMore(layers: seq<Layer>, l: Layer, hits: set<Token>, i: nat)
    ensures AllKeep(layers + [l], hits, i) <==> AllKeep(layers, hits, i) && l.Keeps(hits, i)
  {
    assert forall k <- layers + [l] :: k in layers || k == l;
    assert l in layers + [l];
    assert forall k <- layers :: k in layers + [l];
  }

  function ConjunctionLayer(toks: seq<Token>, idxs: Mask, negs: seq<Token>, low: Mask): Layer {
    Layer((if toks == [] then [] else [AllOf(toks)]) + (if negs == [] then [] else [NoneOf(negs)]), low, low - idxs)
  }

  lemma ConjunctionSelects(toks: seq<Token>, idxs: Mask, negs: seq<Token>, low: Mask, hits: set<Token>)
    ensures ConjunctionLayer(toks, idxs, negs, low).Selects(hits) <==>
            (forall t <- toks :: t in hits) && (forall t <- negs :: t !in hits)
  {
    var sel := ConjunctionLayer(toks, idxs, negs, low).sel;
    assert toks != [] ==> sel[0] == AllOf(toks) && AllOf(toks) in sel;
    assert negs != [] ==> sel[|sel| - 1] == NoneOf(negs) && NoneOf(negs) in sel;
  }

  /** The rules of all families that share a disambiguating member. */
  datatype FamilyGroup = FamilyGroup(member: string, pos: Mask, neg: Mask)

  function FamilyLayer(g: FamilyGroup, low: Mask): Layer {
    Layer([AllOf([Key(g.member)])], low - g.neg, low - g.pos)
  }

  predicate InFamily(rule: Rule, members: map<string, string>) {
    rule.kind == Family && rule.keys != [] && rule.keys[0] in members
  }

  function MemberOf(rule: Rule, members: map<string, string>): string
    requires InFamily(rule, members)
  {
    members[rule.keys[0]]
  }

  /** What the filter layers have to demand of a rule, given the features that hold. */
  predicate LayerCondition(rule: Rule, members: map<string, string>, hits: set<Token>) {
    match rule.kind
    case Single => true
    case Family =>
      InFamily(rule, members) ==>
        (CarriesMember(rule, MemberOf(rule, members)) <==> Key(MemberOf(rule, members)) in hits)
    case Misc => (forall t <- rule.Tokens() :: t in hits) && (forall k <- rule.negKeys :: Key(k) !in hits)
  }

  /** The groups hold exactly the family rules among the first `n`, each with its member and on its side. */
  ghost predicate GroupsOk(groups: seq<FamilyGroup>, rules: seq<Rule>, members: map<string, string>, n: nat)
    requires n <= |rules|
  {
    && (forall a, b :: 0 <= a < b < |groups| ==> groups[a].member != groups[b].member)
    && (forall a :: 0 <= a < |groups| ==> GroupOk(groups[a], rules, members, n))
    && (forall a :: 0 <= a < |groups| ==> Populated(groups[a].member, rules, members, n))
    && (forall i :: 0 <= i < n && InFamily(rules[i], members) ==>
                      exists a :: 0 <= a < |groups| && groups[a].member == MemberOf(rules[i], members))
  }

  ghost predicate GroupOk(g: FamilyGroup, rules: seq<Rule>, members: map<string, string>, n: nat)
    requires n <= |rules|
  {
    && (forall i :: i in g.pos <==>
                    0 <= i < n && OfGroup(rules[i], members, g.member) && CarriesMember(rules[i], g.member))
    && (forall i :: i in g.neg <==>
                    0 <= i < n && OfGroup(rules[i], members, g.member) && !CarriesMember(rules[i], g.member))
  }

  ghost predicate Populated(member: string, rules: seq<Rule>, members: map<string, string>, n: nat)
    requires n <= |rules|
  {
    exists i :: 0 <= i < n && OfGroup(rules[i], members, member)
  }

  lemma StaysPopulated(groups: seq<FamilyGroup>, rules: seq<Rule>, members: map<string, string>, n: nat)
    requires n < |rules| && GroupsOk(groups, rules, members, n)
    ensures forall a :: 0 <= a < |groups| ==> Populated(groups[a].member, rules, members, n + 1)
  {
    hide OfGroup, GroupOk;
  }

  predicate OfGroup(rule: Rule, members: map<string, string>, member: string) {
    InFamily(rule, members) && MemberOf(rule, members) == member
  }

  method GroupFamilies(rules: seq<Rule>, members: map<string, string>) returns (groups: seq<FamilyGroup>)
    requires Classified(rules, members)
    ensures GroupsOk(groups, rules, members, |rules|)
  {
    hide GroupsOk, Rule.Tokens;
    groups := [];
    var idx := 0;
    NoGroups(rules, members);
    while idx < |rules|
      invariant idx <= |rules| && GroupsOk(groups, rules, members, idx)
    {
      var rule := rules[idx];
      if rule.kind == Family {
        var member := members[rule.keys[0]];
        var pos := CarriesMember(rule, member);
        var a := 0;
        while a < |groups| && groups[a].member != member
          invariant a <= |groups| && forall b :: 0 <= b < a ==> groups[b].member != member
        {
          a := a + 1;
        }
        if a < |groups| {
          var g := groups[a];
          var g1 := if pos then g.(pos := g.pos + {idx}) else g.(neg := g.neg + {idx});
          GrownGroup(groups, rules, members, idx, a, g1);
          groups := groups[a := g1];
        } else {
          var g1 := FamilyGroup(member, if pos then {idx} else {}, if pos then {} else {idx});
          NewGroup(groups, rules, members, idx, g1);
          groups := groups + [g1];
        }
      } else {
        NoNewMember(groups, rules, members, idx);
      }
      idx := idx + 1;
    }
  }

  lemma NoGroups(rules: seq<Rule>, members: map<string, string>)
    ensures GroupsOk([], rules, members, 0)
  {
  }

  lemma NoNewMember(groups: seq<FamilyGroup>, rules: seq<Rule>, members: map<string, string>, n: nat)
    requires n < |rules| && GroupsOk(groups, rules, members, n) && !InFamily(rules[n], members)
    ensures GroupsOk(groups, rules, members, n + 1)
  {
    hide Populated;
    StaysPopulated(groups, rules, members, n);
    forall a | 0 <= a < |groups| ensures GroupOk(groups[a], rules, members, n + 1) {
      assert GroupOk(groups[a], rules, members, n);
    }
  }

  lemma GrownGroup(
    groups: seq<FamilyGroup>, rules: seq<Rule>, members: map<string, string>, n: nat, a: nat, g: FamilyGroup)
    requires n < |rules| && a < |groups| && GroupsOk(groups, rules, members, n)
    requires OfGroup(rules[n], members, groups[a].member)
    requires var pos := CarriesMember(rules[n], groups[a].member);
             g == if pos then groups[a].(pos := groups[a].pos + {n}) else groups[a].(neg := groups[a].neg + {n})
    ensures GroupsOk(groups[a := g], rules, members, n + 1)
  {
    hide Populated;
    StaysPopulated(groups, rules, members, n);
    var all := groups[a := g];
    forall b | 0 <= b < |all| ensures GroupOk(all[b], rules, members, n + 1) {
      assert GroupOk(groups[b], rules, members, n);
    }
    forall i | 0 <= i < n + 1 && InFamily(rules[i], members)
      ensures exists b :: 0 <= b < |all| && all[b].member == MemberOf(rules[i], members)
    {
      if i == n {
        assert all[a].member == MemberOf(rules[i], members);
      } else {
        var b :| 0 <= b < |groups| && groups[b].member == MemberOf(rules[i], members);
        assert all[b].member == groups[b].member;
      }
    }
  }

  lemma GroupStays(g: FamilyGroup, rules: seq<Rule>, members: map<string, string>, n: nat)
    requires n < |rules| && GroupOk(g, rules, members, n) && !OfGroup(rules[n], members, g.member)
    ensures GroupOk(g, rules, members, n + 1)
  {
    hide OfGroup;
  }

  lemma FirstOfGroup(g: FamilyGroup, rules: seq<Rule>, members: map<string, string>, n: nat)
    requires n < |rules| && OfGroup(rules[n], members, g.member) && !Populated(g.member, rules, members, n)
    requires g.pos == (if CarriesMember(rules[n], g.member) then {n} else {})
    requires g.neg == (if CarriesMember(rules[n], g.member) then {} else {n})
    ensures GroupOk(g, rules, members, n + 1) && Populated(g.member, rules, members, n + 1)
  {
    hide OfGroup, CarriesMember;
  }

  lemma NewGroup(groups: seq<FamilyGroup>, rules: seq<Rule>, members: map<string, string>, n: nat, g: FamilyGroup)
    requires n < |rules| && GroupsOk(groups, rules, members, n)
    requires forall b :: 0 <= b < |groups| ==> groups[b].member != g.member
    requires OfGroup(rules[n], members, g.member)
    requires g.pos == (if CarriesMember(rules[n], g.member) then {n} else {})
    requires g.neg == (if CarriesMember(rules[n], g.member) then {} else {n})
    ensures GroupsOk(groups + [g], rules, members, n + 1)
  {
    hide GroupOk, CarriesMember;
    assert !Populated(g.member, rules, members, n);
    FirstOfGroup(g, rules, members, n);
    hide Populated;
    StaysPopulated(groups, rules, members, n);
    var all := groups + [g];
    forall b | 0 <= b < |groups| ensures GroupOk(groups[b], rules, members, n + 1) {
      GroupStays(groups[b], rules, members, n);
    }
    forall i | 0 <= i < n + 1 && InFamily(rules[i], members)
      ensures exists a :: 0 <= a < |all| && all[a].member == MemberOf(rules[i], members)
    {
      if i == n {
        assert all[|groups|] == g;
      } else {
        var a :| 0 <= a < |groups| && groups[a].member == MemberOf(rules[i], members);
        assert all[a] == groups[a];
      }
    }
  }

  method FamilyLayers(groups: seq<FamilyGroup>, low: Mask) returns (layers: seq<Layer>, memberTokens: seq<Token>)
    ensures |layers| == |memberTokens| == |groups|
    ensures forall a :: 0 <= a < |groups| ==>
                          layers[a] == FamilyLayer(groups[a], low) && memberTokens[a] == Key(groups[a].member)
  {
    layers, memberTokens := [], [];
    for n := 0 to |groups|
      invariant |layers| == |memberTokens| == n
      invariant forall a :: 0 <= a < n ==>
                              layers[a] == FamilyLayer(groups[a], low) && memberTokens[a] == Key(groups[a].member)
    {
      layers := layers + [FamilyLayer(groups[n], low)];
      memberTokens := memberTokens + [Key(groups[n].member)];
    }
  }

  /** The family layers filter each family rule by its member and no other rule at all. */
  lemma FamilyLayersFilter(
    layers: seq<Layer>, groups: seq<FamilyGroup>, rules: seq<Rule>, members: map<string, string>,
    hits: set<Token>, i: nat)
    requires i < |rules| && Classified(rules, members) && GroupsOk(groups, rules, members, |rules|)
    requires |layers| == |groups|
    requires forall a :: 0 <= a < |groups| ==> layers[a] == FamilyLayer(groups[a], MaskLow(|rules|))
    ensures AllKeep(layers, hits, i) <==> (rules[i].kind == Family ==> LayerCondition(rules[i], members, hits))
  {
    hide Rule.Tokens, MaskLow, FamilyLayer, Layer.Keeps, GroupOk, Populated, LayerCondition, CarriesMember;
    forall a | 0 <= a < |groups|
      ensures layers[a].Keeps(hits, i) <==>
              (OfGroup(rules[i], members, groups[a].member) ==> LayerCondition(rules[i], members, hits))
    {
      FamilyLayerFilters(groups[a], rules, members, hits, i);
    }
    if rules[i].kind == Family {
      FamilyIsGrouped(rules[i], members);
      var a :| 0 <= a < |groups| && groups[a].member == MemberOf(rules[i], members);
      assert layers[a] in layers;
    }
    assert forall l <- layers :: exists a :: 0 <= a < |groups| && layers[a] == l;
  }

  lemma FamilyIsGrouped(rule: Rule, members: map<string, string>)
    requires rule.kind == Family && rule.kind == KindOf(rule, members)
    ensures InFamily(rule, members)
  {
    hide Rule.Tokens;
  }

  lemma FamilyLayerFilters(g: FamilyGroup, rules: seq<Rule>, members: map<string, string>, hits: set<Token>, i: nat)
    requires i < |rules| && Classified(rules, members) && GroupOk(g, rules, members, |rules|)
    ensures FamilyLayer(g, MaskLow(|rules|)).Keeps(hits, i) <==>
            (OfGroup(rules[i], members, g.member) ==> LayerCondition(rules[i], members, hits))
  {
    hide Rule.Tokens, MaskLow;
    var l := FamilyLayer(g, MaskLow(|rules|));
    assert l.Selects(hits) <==> Key(g.member) in hits by {
      assert l.sel[0] == AllOf([Key(g.member)]) && [Key(g.member)][0] == Key(g.member);
      assert l.sel[0] in l.sel;
    }
  }

  // ----- Conjunctions that share positive subsets

  function Freq(freq: map<Token, nat>, t: Token): nat {
    if t in freq then freq[t] else 0
  }

  /** How often each feature occurs in the rules classified as miscellaneous. */
  method CountTokens(rules: seq<Rule>) returns (freq: map<Token, nat>)
    ensures forall t :: t in freq <==> exists i :: 0 <= i < |rules| && rules[i].kind == Misc && t in rules[i].Tokens()
  {
    hide Rule.Tokens;
    freq := map[];
    for idx := 0 to |rules|
      invariant forall t :: t in freq <==> exists i :: 0 <= i < idx && rules[i].kind == Misc && t in rules[i].Tokens()
    {
      if rules[idx].kind == Misc {
        var toks := rules[idx].Tokens();
        ghost var before := freq;
        for n := 0 to |toks|
          invariant forall t :: t in freq <==> t in before || t in toks[..n]
        {
          freq := freq[toks[n] := Freq(freq, toks[n]) + 1];
        }
        assert toks[..|toks|] == toks;
      }
    }
  }

  /** The features that occur at least twice (`shared`), or the other ones. */
  function Pick(toks: seq<Token>, freq: map<Token, nat>, shared: bool): (r: seq<Token>)
    ensures forall t :: t in r <==> t in toks && (Freq(freq, t) >= 2 <==> shared)
  {
    if toks == [] then []
    else
      var rest := Pick(toks[1..], freq, shared);
      if Freq(freq, toks[0]) >= 2 <==> shared then [toks[0]] + rest else rest
  }

  datatype SharedSet = SharedSet(toks: seq<Token>, idxs: Mask)

  predicate Shares(rule: Rule, freq: map<Token, nat>, toks: seq<Token>) {
    rule.kind == Misc && toks != [] && Pick(rule.Tokens(), freq, true) == toks
  }

  ghost predicate SetOk(s: SharedSet, rules: seq<Rule>, freq: map<Token, nat>, n: nat)
    requires n <= |rules|
  {
    s.idxs != {} && forall i :: i in s.idxs <==> 0 <= i < n && Shares(rules[i], freq, s.toks)
  }

  /** Each rule among the first `n` that shares features is in the one set with exactly those features. */
  ghost predicate SetsOk(sets: seq<SharedSet>, rules: seq<Rule>, freq: map<Token, nat>, n: nat)
    requires n <= |rules|
  {
    && (forall a, b :: 0 <= a < b < |sets| ==> sets[a].toks != sets[b].toks)
    && (forall a :: 0 <= a < |sets| ==> SetOk(sets[a], rules, freq, n))
    && (forall i :: 0 <= i < n && Shares(rules[i], freq, Pick(rules[i].Tokens(), freq, true)) ==>
                      exists a :: 0 <= a < |sets| && sets[a].toks == Pick(rules[i].Tokens(), freq, true))
  }

  method GroupShared(rules: seq<Rule>, freq: map<Token, nat>) returns (sets: seq<SharedSet>)
    ensures SetsOk(sets, rules, freq, |rules|)
  {
    hide SetsOk, Rule.Tokens, Pick;
    sets := [];
    var idx := 0;
    NoSets(rules, freq);
    while idx < |rules|
      invariant idx <= |rules| && SetsOk(sets, rules, freq, idx)
    {
      var shared := Pick(rules[idx].Tokens(), freq, true);
      if rules[idx].kind == Misc && shared != [] {
        var a := 0;
        while a < |sets| && sets[a].toks != shared
          invariant a <= |sets| && forall b :: 0 <= b < a ==> sets[b].toks != shared
        {
          a := a + 1;
        }
        if a < |sets| {
          GrownSet(sets, rules, freq, idx, a);
          sets := sets[a := sets[a].(idxs := sets[a].idxs + {idx})];
        } else {
          NewSet(sets, rules, freq, idx, shared);
          sets := sets + [SharedSet(shared, {idx})];
        }
      } else {
        NoNewSharer(sets, rules, freq, idx);
      }
      idx := idx + 1;
    }
  }

  lemma NoSets(rules: seq<Rule>, freq: map<Token, nat>)
    ensures SetsOk([], rules, freq, 0)
  {
  }

  lemma NoNewSharer(sets: seq<SharedSet>, rules: seq<Rule>, freq: map<Token, nat>, n: nat)
    requires n < |rules| && SetsOk(sets, rules, freq, n)
    requires !Shares(rules[n], freq, Pick(rules[n].Tokens(), freq, true))
    ensures SetsOk(sets, rules, freq, n + 1)
  {
    hide Rule.Tokens, Pick;
    forall a | 0 <= a < |sets| ensures SetOk(sets[a], rules, freq, n + 1) {
      assert SetOk(sets[a], rules, freq, n);
    }
  }

  lemma GrownSetOk(s: SharedSet, rules: seq<Rule>, freq: map<Token, nat>, n: nat)
    requires n < |rules| && SetOk(s, rules, freq, n)
    ensures if Shares(rules[n], freq, s.toks) then SetOk(s.(idxs := s.idxs + {n}), rules, freq, n + 1)
            else SetOk(s, rules, freq, n + 1)
  {
    hide Rule.Tokens, Pick, Shares;
    assert n in s.idxs + {n};
  }

  lemma GrownSet(sets: seq<SharedSet>, rules: seq<Rule>, freq: map<Token, nat>, n: nat, a: nat)
    requires n < |rules| && a < |sets| && SetsOk(sets, rules, freq, n) && Shares(rules[n], freq, sets[a].toks)
    ensures SetsOk(sets[a := sets[a].(idxs := sets[a].idxs + {n})], rules, freq, n + 1)
  {
    hide Rule.Tokens, Pick, SetOk;
    var all := sets[a := sets[a].(idxs := sets[a].idxs + {n})];
    forall b | 0 <= b < |all| ensures SetOk(all[b], rules, freq, n + 1) {
      GrownSetOk(sets[b], rules, freq, n);
      assert b != a ==> sets[b].toks != sets[a].toks;
    }
    forall i | 0 <= i < n + 1 && Shares(rules[i], freq, Pick(rules[i].Tokens(), freq, true))
      ensures exists b :: 0 <= b < |all| && all[b].toks == Pick(rules[i].Tokens(), freq, true)
    {
      if i == n {
        assert all[a].toks == Pick(rules[i].Tokens(), freq, true);
      } else {
        var b :| 0 <= b < |sets| && sets[b].toks == Pick(rules[i].Tokens(), freq, true);
        assert all[b].toks == sets[b].toks;
      }
    }
  }

  lemma NewSet(sets: seq<SharedSet>, rules: seq<Rule>, freq: map<Token, nat>, n: nat, toks: seq<Token>)
    requires n < |rules| && SetsOk(sets, rules, freq, n) && Shares(rules[n], freq, toks)
    requires forall b :: 0 <= b < |sets| ==> sets[b].toks != toks
    ensures SetsOk(sets + [SharedSet(toks, {n})], rules, freq, n + 1)
  {
    hide Rule.Tokens, Pick, SetOk;
    var all := sets + [SharedSet(toks, {n})];
    forall b | 0 <= b < |all| ensures SetOk(all[b], rules, freq, n + 1) {
      if b < |sets| {
        GrownSetOk(sets[b], rules, freq, n);
      } else {
        FirstSharer(sets, rules, freq, n, toks);
      }
    }
    forall i | 0 <= i < n + 1 && Shares(rules[i], freq, Pick(rules[i].Tokens(), freq, true))
      ensures exists b :: 0 <= b < |all| && all[b].toks == Pick(rules[i].Tokens(), freq, true)
    {
      if i == n {
        assert all[|sets|].toks == Pick(rules[i].Tokens(), freq, true);
      } else {
        var b :| 0 <= b < |sets| && sets[b].toks == Pick(rules[i].Tokens(), freq, true);
        assert all[b] == sets[b];
      }
    }
  }

  lemma FirstSharer(sets: seq<SharedSet>, rules: seq<Rule>, freq: map<Token, nat>, n: nat, toks: seq<Token>)
    requires n < |rules| && SetsOk(sets, rules, freq, n) && Shares(rules[n], freq, toks)
    requires forall b :: 0 <= b < |sets| ==> sets[b].toks != toks
    ensures SetOk(SharedSet(toks, {n}), rules, freq, n + 1)
  {
    hide Rule.Tokens, Pick;
    assert forall i :: 0 <= i < n ==> !Shares(rules[i], freq, toks);
  }

  function NegTokens(rule: Rule): (r: seq<Token>)
    ensures forall t :: t in r <==> t.Key? && t.name in rule.negKeys
  {
    var r := seq(|rule.negKeys|, i requires 0 <= i < |rule.negKeys| => Key(rule.negKeys[i]));
    assert forall k :: k in rule.negKeys ==> exists i :: 0 <= i < |r| && rule.negKeys[i] == k && r[i] == Key(k);
    r
  }

  /** A feature that a miscellaneous rule demands or forbids, and that hence needs a bit of its own. */
  ghost predicate MiscFeature(rules: seq<Rule>, t: Token) {
    exists i :: 0 <= i < |rules| && rules[i].kind == Misc && (t in rules[i].Tokens() || t in NegTokens(rules[i]))
  }

  /** A layer tests only features that have bits, and keeps only rule bits. */
  ghost predicate LayerOk(l: Layer, rules: seq<Rule>, memberTokens: seq<Token>) {
    && l.keepT <= MaskLow(|rules|) && l.keepF <= MaskLow(|rules|)
    && forall c <- l.sel, t <- c.toks :: t in memberTokens || MiscFeature(rules, t)
  }

  method SharedLayers(sets: seq<SharedSet>, low: Mask) returns (layers: seq<Layer>)
    ensures |layers| == |sets|
    ensures forall a :: 0 <= a < |sets| ==> layers[a] == ConjunctionLayer(sets[a].toks, sets[a].idxs, [], low)
  {
    layers := [];
    for n := 0 to |sets|
      invariant |layers| == n
      invariant forall a :: 0 <= a < n ==> layers[a] == ConjunctionLayer(sets[a].toks, sets[a].idxs, [], low)
    {
      layers := layers + [ConjunctionLayer(sets[n].toks, sets[n].idxs, [], low)];
    }
  }

  /** Some of what a miscellaneous rule demands: its shared features. */
  predicate SharedPart(rule: Rule, freq: map<Token, nat>, hits: set<Token>) {
    rule.kind == Misc ==> forall t <- Pick(rule.Tokens(), freq, true) :: t in hits
  }

  /** The rest of what a miscellaneous rule demands. */
  predicate RestPart(rule: Rule, freq: map<Token, nat>, hits: set<Token>) {
    rule.kind == Misc ==>
      && (forall t <- Pick(rule.Tokens(), freq, false) :: t in hits)
      && (forall t <- NegTokens(rule) :: t !in hits)
  }

  lemma SharedLayersFilter(
    layers: seq<Layer>, sets: seq<SharedSet>, rules: seq<Rule>, freq: map<Token, nat>, hits: set<Token>, i: nat)
    requires i < |rules| && SetsOk(sets, rules, freq, |rules|) && |layers| == |sets|
    requires forall a :: 0 <= a < |sets| ==>
                           layers[a] == ConjunctionLayer(sets[a].toks, sets[a].idxs, [], MaskLow(|rules|))
    ensures AllKeep(layers, hits, i) <==> SharedPart(rules[i], freq, hits)
  {
    hide Rule.Tokens, Pick, MaskLow, ConjunctionLayer, Layer.Keeps, SetOk, SharedDemand;
    var mine := Pick(rules[i].Tokens(), freq, true);
    forall a | 0 <= a < |sets| ensures layers[a].Keeps(hits, i) <==> SharedDemand(rules[i], freq, sets[a].toks, hits) {
      SharedLayerFilters(sets[a], rules, freq, hits, i);
    }
    if Shares(rules[i], freq, mine) {
      var a :| 0 <= a < |sets| && sets[a].toks == mine;
      assert layers[a] in layers;
    }
    SharedDemands(rules[i], freq, hits);
    assert forall l <- layers :: exists a :: 0 <= a < |sets| && layers[a] == l;
  }

  /** What one shared layer demands of a rule. */
  predicate SharedDemand(rule: Rule, freq: map<Token, nat>, toks: seq<Token>, hits: set<Token>) {
    Shares(rule, freq, toks) ==> forall t <- toks :: t in hits
  }

  lemma SharedLayerFilters(s: SharedSet, rules: seq<Rule>, freq: map<Token, nat>, hits: set<Token>, i: nat)
    requires i < |rules| && SetOk(s, rules, freq, |rules|)
    ensures var l := ConjunctionLayer(s.toks, s.idxs, [], MaskLow(|rules|));
            l.Keeps(hits, i) <==> SharedDemand(rules[i], freq, s.toks, hits)
  {
    hide Rule.Tokens, Pick, ConjunctionLayer;
    ConjunctionSelects(s.toks, s.idxs, [], MaskLow(|rules|), hits);
    ConjunctionKeeps(s.toks, s.idxs, [], MaskLow(|rules|));
  }

  /** Only the set of the rule's own shared features demands anything of it. */
  lemma SharedDemands(rule: Rule, freq: map<Token, nat>, hits: set<Token>)
    ensures var mine := Pick(rule.Tokens(), freq, true);
            && (SharedPart(rule, freq, hits) ==> forall toks :: SharedDemand(rule, freq, toks, hits))
            && (!SharedPart(rule, freq, hits) ==> Shares(rule, freq, mine) && !SharedDemand(rule, freq, mine, hits))
  {
    hide Rule.Tokens, Pick;
  }

  lemma ConjunctionKeeps(toks: seq<Token>, idxs: Mask, negs: seq<Token>, low: Mask)
    ensures ConjunctionLayer(toks, idxs, negs, low).keepT == low
    ensures ConjunctionLayer(toks, idxs, negs, low).keepF == low - idxs
    ensures forall c <- ConjunctionLayer(toks, idxs, negs, low).sel, t <- c.toks :: t in toks || t in negs
  {
  }

  /** One layer for what each miscellaneous rule demands beyond its shared features. */
  method RestLayers(rules: seq<Rule>, freq: map<Token, nat>) returns (layers: seq<Layer>)
    ensures forall hits, i :: 0 <= i < |rules| ==> (AllKeep(layers, hits, i) <==> RestPart(rules[i], freq, hits))
    ensures forall l <- layers :: LayerOk(l, rules, [])
  {
    hide Rule.Tokens, Pick, MaskLow, ConjunctionLayer, NegTokens;
    var low := MaskLow(|rules|);
    layers := [];
    for idx := 0 to |rules|
      invariant forall hits, i :: 0 <= i < |rules| ==>
                                    (AllKeep(layers, hits, i) <==> (i < idx ==> RestPart(rules[i], freq, hits)))
      invariant forall l <- layers :: LayerOk(l, rules, [])
    {
      var rem := Pick(rules[idx].Tokens(), freq, false);
      var neg := NegTokens(rules[idx]);
      if rules[idx].kind == Misc && (rem != [] || neg != []) {
        var l := ConjunctionLayer(rem, {idx}, neg, low);
        ConjunctionKeeps(rem, {idx}, neg, low);
        assert LayerOk(l, rules, []);
        forall hits, i | 0 <= i < |rules|
          ensures AllKeep(layers + [l], hits, i) <==> (i < idx + 1 ==> RestPart(rules[i], freq, hits))
        {
          AllKeepMore(layers, l, hits, i);
          ConjunctionSelects(rem, {idx}, neg, low, hits);
        }
        layers := layers + [l];
      }
    }
  }

  method BuildLayers(rules: seq<Rule>, members: map<string, string>)
    returns (layers: seq<Layer>, memberTokens: seq<Token>)
    requires Classified(rules, members)
    ensures forall hits, i :: 0 <= i < |rules| ==>
                                (AllKeep(layers, hits, i) <==> LayerCondition(rules[i], members, hits))
    ensures forall l <- layers :: LayerOk(l, rules, memberTokens)
    ensures forall a, b :: 0 <= a < b < |memberTokens| ==> memberTokens[a] != memberTokens[b]
    ensures MembersNamed(rules, members, memberTokens)
  {
    hide Rule.Tokens, Pick, MaskLow, ConjunctionLayer, NegTokens, Classified;
    var low := MaskLow(|rules|);
    var groups := GroupFamilies(rules, members);
    var family;
    family, memberTokens := FamilyLayers(groups, low);
    var freq := CountTokens(rules);
    var sets := GroupShared(rules, freq);
    var shared := SharedLayers(sets, low);
    var rest := RestLayers(rules, freq);
    layers := family + shared + rest;
    forall hits, i | 0 <= i < |rules|
      ensures AllKeep(layers, hits, i) <==> LayerCondition(rules[i], members, hits)
    {
      FamilyLayersFilter(family, groups, rules, members, hits, i);
      SharedLayersFilter(shared, sets, rules, freq, hits, i);
      AllKeepJoined(family, shared, rest, hits, i);
      PartsMakeCondition(rules[i], members, freq, hits);
    }
    LayersOk(family, groups, shared, sets, rest, rules, members, freq, memberTokens);
    GroupsNamed(groups, rules, members, memberTokens);
  }

  /** The member features are the members of the family rules. */
  ghost predicate MembersNamed(rules: seq<Rule>, members: map<string, string>, memberTokens: seq<Token>) {
    && (forall i :: 0 <= i < |rules| && InFamily(rules[i], members) ==>
                      Key(MemberOf(rules[i], members)) in memberTokens)
    && (forall t <- memberTokens :: MemberFeature(rules, members, t))
  }

  /** A feature that some family is told apart by. */
  ghost predicate MemberFeature(rules: seq<Rule>, members: map<string, string>, t: Token) {
    t.Key? && exists i :: 0 <= i < |rules| && OfGroup(rules[i], members, t.name)
  }

  lemma GroupsNamed(
    groups: seq<FamilyGroup>, rules: seq<Rule>, members: map<string, string>, memberTokens: seq<Token>)
    requires GroupsOk(groups, rules, members, |rules|) && |memberTokens| == |groups|
    requires forall a :: 0 <= a < |groups| ==> memberTokens[a] == Key(groups[a].member)
    ensures MembersNamed(rules, members, memberTokens)
  {
    forall i | 0 <= i < |rules| && InFamily(rules[i], members)
      ensures Key(MemberOf(rules[i], members)) in memberTokens
    {
      var a :| 0 <= a < |groups| && groups[a].member == MemberOf(rules[i], members);
      assert memberTokens[a] in memberTokens;
    }
    forall t <- memberTokens ensures MemberFeature(rules, members, t) {
      var a :| 0 <= a < |memberTokens| && memberTokens[a] == t;
      assert Populated(groups[a].member, rules, members, |rules|);
    }
  }

  lemma AllKeepJoined(a: seq<Layer>, b: seq<Layer>, c: seq<Layer>, hits: set<Token>, i: nat)
    ensures AllKeep(a + b + c, hits, i) <==> AllKeep(a, hits, i) && AllKeep(b, hits, i) && AllKeep(c, hits, i)
  {
    assert forall l :: l in a + b + c <==> l in a || l in b || l in c;
  }

  lemma PartsMakeCondition(rule: Rule, members: map<string, string>, freq: map<Token, nat>, hits: set<Token>)
    ensures LayerCondition(rule, members, hits) <==>
            (rule.kind == Family ==> LayerCondition(rule, members, hits))
            && SharedPart(rule, freq, hits) && RestPart(rule, freq, hits)
  {
    hide Rule.Tokens;
    if rule.kind == Misc {
      var toks := rule.Tokens();
      var s, r := Pick(toks, freq, true), Pick(toks, freq, false);
      assert forall t :: t in toks <==> t in s || t in r;
      assert forall k <- rule.negKeys :: Key(k) in NegTokens(rule);
      assert forall t <- NegTokens(rule) :: t.name in rule.negKeys;
    }
  }

  lemma SharedSetFeatures(sets: seq<SharedSet>, rules: seq<Rule>, freq: map<Token, nat>, a: nat)
    requires SetsOk(sets, rules, freq, |rules|) && a < |sets|
    ensures forall t <- sets[a].toks :: MiscFeature(rules, t)
  {
    hide Rule.Tokens;
    var i :| i in sets[a].idxs;
    assert Shares(rules[i], freq, sets[a].toks);
  }

  lemma LayersOk(
    family: seq<Layer>, groups: seq<FamilyGroup>, shared: seq<Layer>, sets: seq<SharedSet>, rest: seq<Layer>,
    rules: seq<Rule>, members: map<string, string>, freq: map<Token, nat>, memberTokens: seq<Token>)
    requires GroupsOk(groups, rules, members, |rules|) && SetsOk(sets, rules, freq, |rules|)
    requires |family| == |memberTokens| == |groups| && |shared| == |sets|
    requires forall a :: 0 <= a < |groups| ==>
                           && family[a] == FamilyLayer(groups[a], MaskLow(|rules|))
                           && memberTokens[a] == Key(groups[a].member)
    requires forall a :: 0 <= a < |sets| ==>
                           shared[a] == ConjunctionLayer(sets[a].toks, sets[a].idxs, [], MaskLow(|rules|))
    requires forall l <- rest :: LayerOk(l, rules, [])
    ensures forall l <- family + shared + rest :: LayerOk(l, rules, memberTokens)
    ensures forall a, b :: 0 <= a < b < |memberTokens| ==> memberTokens[a] != memberTokens[b]
  {
    hide LayerOk, SetsOk, ConjunctionLayer, FamilyLayer, MaskLow;
    forall a | 0 <= a < |family| ensures LayerOk(family[a], rules, memberTokens) {
      assert memberTokens[a] in memberTokens;
      FamilyLayerOk(groups[a], rules, memberTokens);
    }
    forall a | 0 <= a < |shared| ensures LayerOk(shared[a], rules, memberTokens) {
      SharedLayerOk(sets, rules, freq, a, memberTokens);
    }
    forall l <- rest ensures LayerOk(l, rules, memberTokens) {
      RestLayerOk(l, rules, memberTokens);
    }
  }

  lemma FamilyLayerOk(g: FamilyGroup, rules: seq<Rule>, memberTokens: seq<Token>)
    requires Key(g.member) in memberTokens
    ensures LayerOk(FamilyLayer(g, MaskLow(|rules|)), rules, memberTokens)
  {
  }

  lemma SharedLayerOk(sets: seq<SharedSet>, rules: seq<Rule>, freq: map<Token, nat>, a: nat, memberTokens: seq<Token>)
    requires SetsOk(sets, rules, freq, |rules|) && a < |sets|
    ensures LayerOk(ConjunctionLayer(sets[a].toks, sets[a].idxs, [], MaskLow(|rules|)), rules, memberTokens)
  {
    hide Rule.Tokens, MaskLow, ConjunctionLayer, SetsOk, MiscFeature;
    ConjunctionKeeps(sets[a].toks, sets[a].idxs, [], MaskLow(|rules|));
    SharedSetFeatures(sets, rules, freq, a);
  }

  lemma RestLayerOk(l: Layer, rules: seq<Rule>, memberTokens: seq<Token>)
    requires LayerOk(l, rules, [])
    ensures LayerOk(l, rules, memberTokens)
  {
    hide MiscFeature, MaskLow;
  }
}
