/** Which generated types get serialisation derives: the dependency closure, and what can be derived. */
module Serde {

  datatype Field = Field(type_: string, position: string)

  datatype RustType = Struct(fields: seq<Field>) | List(member: string) | StructEnum(variants: seq<string>) | Plain

  type Types = map<string, RustType>

  predicate Unserialisable(name: string) {
    name == "Body" || name == "StreamingBlob" || name == "SelectObjectContentEventStream"
  }

  /** The types of the fields that are followed: all but the ones that cannot be serialised. */
  function Followed(fields: seq<Field>): (r: seq<string>)
    ensures forall x :: x in r <==> !Unserialisable(x) && exists i :: 0 <= i < |fields| && fields[i].type_ == x
  {
    if fields == [] then []
    else
      var rest := Followed(fields[1..]);
      assert forall i :: 0 <= i < |fields[1..]| ==> fields[1..][i] == fields[i + 1];
      if Unserialisable(fields[0].type_) then rest else [fields[0].type_] + rest
  }

  /** The names a type leads to. */
  function Deps(types: Types, name: string): seq<string> {
    if name !in types then []
    else
      match types[name]
      case Struct(fields) => Followed(fields)
      case List(member) => [member]
      case StructEnum(variants) => variants
      case Plain => []
  }

  // ----- Reachability

  /** A chain of dependencies. */
  ghost predicate Chain(types: Types, path: seq<string>) {
    path != [] && forall i :: 0 <= i < |path| - 1 ==> path[i + 1] in Deps(types, path[i])
  }

  ghost predicate Reaches(types: Types, a: string, b: string) {
    exists path :: Chain(types, path) && path[0] == a && path[|path| - 1] == b
  }

  lemma ReachesItself(types: Types, a: string)
    ensures Reaches(types, a, a)
  {
    assert Chain(types, [a]);
  }

  lemma ReachesVia(types: Types, a: string, b: string, c: string)
    requires b in Deps(types, a) && Reaches(types, b, c)
    ensures Reaches(types, a, c)
  {
    var path :| Chain(types, path) && path[0] == b && path[|path| - 1] == c;
    var longer := [a] + path;
    assert forall i :: 0 < i < |longer| ==> longer[i] == path[i - 1];
    assert Chain(types, longer) && longer[0] == a && longer[|longer| - 1] == c;
  }

  /** Everything in the set leads only into the set. */
  ghost predicate ClosedUnder(types: Types, s: set<string>) {
    forall x, y :: x in s && y in Deps(types, x) ==> y in s
  }

  lemma {:induction false} ClosedHoldsChain(types: Types, s: set<string>, path: seq<string>)
    requires ClosedUnder(types, s) && Chain(types, path) && path[0] in s
    ensures path[|path| - 1] in s
    decreases |path|
  {
    hide Deps;
    if |path| > 1 {
      var n := |path| - 1;
      assert Chain(types, path[..n]);
      ClosedHoldsChain(types, s, path[..n]);
      assert path[n - 1 + 1] in Deps(types, path[n - 1]);
    }
  }

  lemma ClosedHoldsAll(types: Types, s: set<string>, a: string, b: string)
    requires ClosedUnder(types, s) && a in s && Reaches(types, a, b)
    ensures b in s
  {
    var path :| Chain(types, path) && path[0] == a && path[|path| - 1] == b;
    ClosedHoldsChain(types, s, path);
  }

  // ----- The recursion with its shared set

  /** The recursion may stop at what is in the set; it adds what it reaches, and nothing it adds leads out. */
  method CollectTypeDependencies(name: string, types: Types, result0: set<string>, ghost all: set<string>)
    returns (result: set<string>)
    requires ClosedUnder(types, all) && name in all && result0 <= all
    ensures result0 <= result <= all && name in result
    ensures forall x :: x in result - result0 ==> Reaches(types, name, x)
    ensures forall x, y :: x in result - result0 && y in Deps(types, x) ==> y in result
    decreases |all - result0|
  {
    hide Deps, Reaches;
    if name in result0 {
      return result0;
    }
    result := result0 + {name};
    ReachesItself(types, name);
    assert all - result < all - result0 by {
      assert name in all - result0 && name !in all - result;
    }
    Fewer(all - result, all - result0);
    var deps := Deps(types, name);
    for i := 0 to |deps|
      invariant result0 + {name} <= result <= all
      invariant forall x :: x in result - result0 ==> Reaches(types, name, x)
      invariant forall x, y :: x in result - result0 - {name} && y in Deps(types, x) ==> y in result
      invariant forall j :: 0 <= j < i ==> deps[j] in result
      invariant |all - result| < |all - result0|
    {
      assert deps[i] in Deps(types, name);
      var before := result;
      result := CollectTypeDependencies(deps[i], types, before, all);
      forall x | x in result - before ensures Reaches(types, name, x) {
        ReachesVia(types, name, deps[i], x);
      }
      NoMore(all - result, all - before);
    }
  }

  lemma Fewer(a: set<string>, b: set<string>)
    requires a < b
    ensures |a| < |b|
  {
    assert b == a + (b - a);
  }

  lemma NoMore(a: set<string>, b: set<string>)
    requires a <= b
    ensures |a| <= |b|
  {
    assert b == a + (b - a);
  }

  predicate EndsWith(s: string, suffix: string) {
    |suffix| <= |s| && s[|s| - |suffix|..] == suffix
  }

  predicate IsRoot(name: string) {
    EndsWith(name, "Configuration") || name == "Tag" || name == "Tagging"
  }

  /** Exactly the names that some root reaches. */
  ghost predicate IsClosure(types: Types, names: set<string>, roots: set<string>) {
    forall x :: x in names <==> exists r :: r in roots && Reaches(types, r, x)
  }

  /** The names the declared types mention, with the types themselves. */
  function Mentioned(types: Types): (r: set<string>)
    ensures types.Keys <= r && ClosedUnder(types, r)
  {
    types.Keys + set x, y | x in types && y in Deps(types, x) :: y
  }

  function RootsIn(names: set<string>): set<string> {
    set r | r in names && IsRoot(r)
  }

  ghost predicate FromRoots(types: Types, names: set<string>, roots: set<string>) {
    forall x <- names :: exists r :: r in roots && Reaches(types, r, x)
  }

  /** What one more root adds. */
  lemma MoreRoots(types: Types, before: set<string>, names: set<string>, roots: set<string>, name: string)
    requires FromRoots(types, before, roots) && ClosedUnder(types, before) && before <= names
    requires forall x :: x in names - before ==> Reaches(types, name, x)
    requires forall x, y :: x in names - before && y in Deps(types, x) ==> y in names
    ensures FromRoots(types, names, roots + {name}) && ClosedUnder(types, names)
  {
    hide Deps, Reaches;
    forall x <- names ensures exists r :: r in roots + {name} && Reaches(types, r, x) {
      if x in before {
        var r :| r in roots && Reaches(types, r, x);
        assert r in roots + {name};
      } else {
        assert name in roots + {name};
      }
    }
  }

  lemma RootsMakeClosure(types: Types, names: set<string>, roots: set<string>)
    requires FromRoots(types, names, roots) && ClosedUnder(types, names) && roots <= names
    ensures IsClosure(types, names, roots)
  {
    hide Deps, Reaches, ClosedUnder;
    forall x | exists r :: r in roots && Reaches(types, r, x) ensures x in names {
      var r :| r in roots && Reaches(types, r, x);
      ClosedHoldsAll(types, names, r, x);
    }
  }

  /** The names that need serialisation are exactly those that the root types reach. */
  method CollectTypesNeedingSerde(types: Types) returns (names: set<string>)
    ensures IsClosure(types, names, RootsIn(types.Keys))
  {
    hide Deps, Reaches, IsRoot, FromRoots, ClosedUnder, IsClosure;
    names := {};
    ghost var all := Mentioned(types);
    var todo := types.Keys;
    NoRoots(types);
    while todo != {}
      invariant todo <= types.Keys && names <= all
      invariant RootsIn(types.Keys - todo) <= names
      invariant ClosedUnder(types, names) && FromRoots(types, names, RootsIn(types.Keys - todo))
      decreases |todo|
    {
      var name :| name in todo;
      ghost var seen, now := RootsIn(types.Keys - todo), RootsIn(types.Keys - (todo - {name}));
      assert now == if IsRoot(name) then seen + {name} else seen;
      if IsRoot(name) {
        ghost var before := names;
        names := CollectTypeDependencies(name, types, names, all);
        MoreRoots(types, before, names, seen, name);
      }
      todo := todo - {name};
    }
    assert types.Keys - todo == types.Keys;
    RootsMakeClosure(types, names, RootsIn(types.Keys));
  }

  lemma NoRoots(types: Types)
    ensures ClosedUnder(types, {}) && FromRoots(types, {}, RootsIn(types.Keys - types.Keys))
  {
  }

  // ----- What can be derived

  /** The structs a field holds, directly or in a list. */
  function HeldBy(types: Types, field: Field): set<string> {
    if field.type_ !in types then {}
    else
      match types[field.type_]
      case Struct(_) => {field.type_}
      case List(member) => if member in types && types[member].Struct? then {member} else {}
      case _ => {}
  }

  /** Structs hold no struct of the same or a higher rank: no struct holds itself, however deep. */
  ghost predicate Acyclic(types: Types, rank: string -> nat) {
    forall s, i, h ::
      (s in types && types[s].Struct? && 0 <= i < |types[s].fields| && h in HeldBy(types, types[s].fields[i])) ==>
        rank(h) < rank(s)
  }

  /** The field alone does not rule serialisation out. */
  predicate FieldOk(field: Field) {
    && (field.position == "sealed" ==> field.type_ == "CachedTags")
    && field.position != "s3s"
    && !Unserialisable(field.type_)
  }

  predicate CanDeriveSerde(types: Types, name: string, ghost rank: string -> nat)
    requires Acyclic(types, rank) && name in types && types[name].Struct?
    decreases rank(name)
  {
    forall i | 0 <= i < |types[name].fields| ::
      var field := types[name].fields[i];
      FieldOk(field) &&
      (if field.type_ !in types then true
       else
         match types[field.type_]
         case Struct(_) => assert field.type_ in HeldBy(types, field); CanDeriveSerde(types, field.type_, rank)
         case List(member) =>
           if member in types && types[member].Struct? then
             assert member in HeldBy(types, field);
             CanDeriveSerde(types, member, rank)
           else true
         case _ => true)
  }

  /** The struct is in the closure and can be derived. */
  ghost predicate Derives(types: Types, names: set<string>, name: string, rank: string -> nat)
    requires Acyclic(types, rank) && name in types && types[name].Struct?
  {
    name in names && CanDeriveSerde(types, name, rank)
  }

  lemma HeldCanDerive(types: Types, name: string, i: nat, h: string, rank: string -> nat)
    requires Acyclic(types, rank) && name in types && types[name].Struct? && CanDeriveSerde(types, name, rank)
    requires i < |types[name].fields| && h in HeldBy(types, types[name].fields[i])
    ensures CanDeriveSerde(types, h, rank)
  {
  }

  /** In a closed set, a deriving struct's held structs are in the set, through the list where there is one. */
  lemma HeldInClosure(types: Types, names: set<string>, name: string, i: nat, h: string)
    requires ClosedUnder(types, names) && name in names && name in types && types[name].Struct?
    requires i < |types[name].fields| && FieldOk(types[name].fields[i]) && h in HeldBy(types, types[name].fields[i])
    ensures types[name].fields[i].type_ in names && h in names
  {
    var field := types[name].fields[i];
    assert field.type_ in Deps(types, name);
    if types[field.type_].List? {
      assert h in Deps(types, field.type_);
    }
  }

  lemma ClosureIsClosed(types: Types, names: set<string>, roots: set<string>)
    requires IsClosure(types, names, roots)
    ensures ClosedUnder(types, names)
  {
    hide Deps, Reaches;
    forall x, y | x in names && y in Deps(types, x) ensures y in names {
      var r :| r in roots && Reaches(types, r, x);
      ReachesOn(types, r, x, y);
    }
  }

  lemma ReachesOn(types: Types, a: string, b: string, c: string)
    requires Reaches(types, a, b) && c in Deps(types, b)
    ensures Reaches(types, a, c)
  {
    hide Deps;
    var path :| Chain(types, path) && path[0] == a && path[|path| - 1] == b;
    var longer := path + [c];
    assert Chain(types, longer) && longer[0] == a && longer[|longer| - 1] == c;
  }

  /** Deriving is hereditary: whatever a deriving struct holds is in the closure and derives too. */
  lemma DerivingIsHereditary(
    types: Types, names: set<string>, roots: set<string>, name: string, i: nat, h: string, rank: string -> nat)
    requires IsClosure(types, names, roots) && Acyclic(types, rank)
    requires name in types && types[name].Struct? && Derives(types, names, name, rank)
    requires i < |types[name].fields| && h in HeldBy(types, types[name].fields[i])
    ensures types[name].fields[i].type_ in names
    ensures h in types && types[h].Struct? && Derives(types, names, h, rank)
  {
    ClosureIsClosed(types, names, roots);
    HeldCanDerive(types, name, i, h, rank);
    HeldInClosure(types, names, name, i, h);
  }

  /** A chain of structs, each held by the one before. */
  ghost predicate Nested(types: Types, path: seq<string>) {
    && path != []
    && (forall i :: 0 <= i < |path| ==> path[i] in types && types[path[i]].Struct?)
    && (forall i :: 0 <= i < |path| - 1 ==> Holds(types, path[i], path[i + 1]))
  }

  ghost predicate Holds(types: Types, a: string, b: string) {
    a in types && types[a].Struct? && exists i :: 0 <= i < |types[a].fields| && b in HeldBy(types, types[a].fields[i])
  }

  predicate OwnFieldsOk(types: Types, name: string)
    requires name in types && types[name].Struct?
  {
    forall i :: 0 <= i < |types[name].fields| ==> FieldOk(types[name].fields[i])
  }

  /** The recursion decides a property of the whole graph: every struct nested below has only good fields. */
  lemma {:induction false} CanDeriveExactly(types: Types, name: string, rank: string -> nat)
    requires Acyclic(types, rank) && name in types && types[name].Struct?
    ensures CanDeriveSerde(types, name, rank) <==>
            forall path :: Nested(types, path) && path[0] == name ==> OwnFieldsOk(types, path[|path| - 1])
    decreases rank(name)
  {
    hide OwnFieldsOk;
    if CanDeriveSerde(types, name, rank) {
      forall path | Nested(types, path) && path[0] == name ensures OwnFieldsOk(types, path[|path| - 1]) {
        NestedOk(types, path, rank);
      }
    }
    if forall path :: Nested(types, path) && path[0] == name ==> OwnFieldsOk(types, path[|path| - 1]) {
      OwnFields(types, name);
      forall i, h | 0 <= i < |types[name].fields| && h in HeldBy(types, types[name].fields[i])
        ensures CanDeriveSerde(types, h, rank)
      {
        forall path | Nested(types, path) && path[0] == h ensures OwnFieldsOk(types, path[|path| - 1]) {
          Prepended(types, name, path);
        }
        CanDeriveExactly(types, h, rank);
      }
      AllHeldCan(types, name, rank);
    }
  }

  lemma OwnFields(types: Types, name: string)
    requires name in types && types[name].Struct?
    requires forall path :: Nested(types, path) && path[0] == name ==> OwnFieldsOk(types, path[|path| - 1])
    ensures OwnFieldsOk(types, name)
  {
    assert Nested(types, [name]);
  }

  lemma Prepended(types: Types, name: string, path: seq<string>)
    requires Nested(types, path) && Holds(types, name, path[0])
    ensures Nested(types, [name] + path) && ([name] + path)[0] == name
    ensures ([name] + path)[|[name] + path| - 1] == path[|path| - 1]
  {
    hide Holds;
    var longer := [name] + path;
    assert forall i :: 0 < i < |longer| ==> longer[i] == path[i - 1];
    HolderIsStruct(types, name, path[0]);
  }

  lemma HolderIsStruct(types: Types, a: string, b: string)
    requires Holds(types, a, b)
    ensures a in types && types[a].Struct?
  {
  }

  lemma AllHeldCan(types: Types, name: string, rank: string -> nat)
    requires Acyclic(types, rank) && name in types && types[name].Struct? && OwnFieldsOk(types, name)
    requires forall i, h :: 0 <= i < |types[name].fields| && h in HeldBy(types, types[name].fields[i])
                            ==> CanDeriveSerde(types, h, rank)
    ensures CanDeriveSerde(types, name, rank)
  {
  }

  lemma {:induction false} NestedOk(types: Types, path: seq<string>, rank: string -> nat)
    requires Acyclic(types, rank) && Nested(types, path) && CanDeriveSerde(types, path[0], rank)
    ensures OwnFieldsOk(types, path[|path| - 1])
    decreases |path|
  {
    if |path| > 1 {
      assert Holds(types, path[0], path[0 + 1]);
      var i: nat :| i < |types[path[0]].fields| && path[1] in HeldBy(types, types[path[0]].fields[i]);
      HeldCanDerive(types, path[0], i, path[1], rank);
      var rest := path[1..];
      assert forall j :: 0 <= j < |rest| ==> rest[j] == path[j + 1];
      assert Nested(types, rest);
      NestedOk(types, rest, rank);
    }
  }

  // ----- Fields that are not looked into

  /** The struct enums a field holds, directly or in a list. */
  function EnumsIn(types: Types, field: Field): set<string> {
    if field.type_ !in types then {}
    else
      match types[field.type_]
      case StructEnum(_) => {field.type_}
      case List(member) => if member in types && types[member].StructEnum? then {member} else {}
      case _ => {}
  }

  /** A generated struct enum derives only if none of its variants rules that out. */
  predicate EnumCanDerive(types: Types, name: string, ghost rank: string -> nat)
    requires Acyclic(types, rank) && name in types && types[name].StructEnum?
  {
    forall v <- types[name].variants ::
      !Unserialisable(v) && (v in types && types[v].Struct? ==> CanDeriveSerde(types, v, rank))
  }

  ghost predicate EnumDerives(types: Types, names: set<string>, name: string, rank: string -> nat)
    requires Acyclic(types, rank) && name in types && types[name].StructEnum?
  {
    name in names && EnumCanDerive(types, name, rank)
  }

  /** No variant is unserialisable, or a struct with a bad field of its own or nested below it. */
  ghost predicate GoodVariants(types: Types, name: string)
    requires name in types && types[name].StructEnum?
  {
    && (forall v <- types[name].variants :: !Unserialisable(v))
    && (forall path :: Nested(types, path) && path[0] in types[name].variants ==> OwnFieldsOk(types, path[|path| - 1]))
  }

  lemma GoodVariantsDerive(types: Types, name: string, rank: string -> nat)
    requires Acyclic(types, rank) && name in types && types[name].StructEnum?
    ensures EnumCanDerive(types, name, rank) <==> GoodVariants(types, name)
  {
    hide CanDeriveSerde, OwnFieldsOk;
    forall v <- types[name].variants
      ensures v in types && types[v].Struct? ==>
                (CanDeriveSerde(types, v, rank) <==>
                 forall path :: Nested(types, path) && path[0] == v ==> OwnFieldsOk(types, path[|path| - 1]))
    {
      if v in types && types[v].Struct? {
        CanDeriveExactly(types, v, rank);
      }
    }
  }

  /**
   * The recursion does not look into struct enums. A deriving struct's enum fields are in the closure all
   * the same, and such an enum derives if and only if none of its variants is unserialisable or a struct
   * with a bad field nested below it.
   */
  lemma EnumFieldsDeriveWhen(
    types: Types, names: set<string>, roots: set<string>, name: string, i: nat, e: string, rank: string -> nat)
    requires IsClosure(types, names, roots) && Acyclic(types, rank)
    requires name in types && types[name].Struct? && Derives(types, names, name, rank)
    requires i < |types[name].fields| && e in EnumsIn(types, types[name].fields[i])
    ensures e in names && e in types && types[e].StructEnum?
    ensures EnumDerives(types, names, e, rank) <==> GoodVariants(types, e)
  {
    hide IsClosure, OwnFieldsOk, Nested, GoodVariants;
    ClosureIsClosed(types, names, roots);
    var field := types[name].fields[i];
    assert field.type_ in Deps(types, name);
    if types[field.type_].List? {
      assert e in Deps(types, field.type_);
    }
    GoodVariantsDerive(types, e, rank);
  }

  /** All structs that derive hold only deriving enums exactly when none of them holds a bad one. */
  lemma EnumsAllDerive(types: Types, names: set<string>, roots: set<string>, rank: string -> nat)
    requires IsClosure(types, names, roots) && Acyclic(types, rank)
    ensures (forall name, i, e :: HoldsEnum(types, names, name, i, e, rank) ==> EnumDerives(types, names, e, rank)) <==>
            (forall name, i, e :: HoldsEnum(types, names, name, i, e, rank) ==> GoodVariants(types, e))
  {
    hide IsClosure, GoodVariants, EnumDerives;
    forall name, i, e | HoldsEnum(types, names, name, i, e, rank)
      ensures EnumDerives(types, names, e, rank) <==> GoodVariants(types, e)
    {
      EnumFieldsDeriveWhen(types, names, roots, name, i, e, rank);
    }
  }

  /** The struct derives, and its field holds the enum. */
  ghost predicate HoldsEnum(types: Types, names: set<string>, name: string, i: int, e: string, rank: string -> nat)
    requires Acyclic(types, rank)
    ensures HoldsEnum(types, names, name, i, e, rank) ==> e in types && types[e].StructEnum?
  {
    && name in types && types[name].Struct? && Derives(types, names, name, rank)
    && 0 <= i < |types[name].fields| && e in EnumsIn(types, types[name].fields[i])
  }

  /** It can fail: a struct of the closure derives although the enum in its field does not. */
  lemma EnumFieldsAreNotChecked(types: Types, names: set<string>, rank: string -> nat)
    requires types == map["SConfiguration" := Struct([Field("E", "")]), "E" := StructEnum(["Body"])]
    requires IsClosure(types, names, RootsIn(types.Keys))
    ensures Acyclic(types, rank) && Derives(types, names, "SConfiguration", rank)
    ensures "E" in names && !EnumDerives(types, names, "E", rank)
  {
    hide Reaches;
    assert "SConfiguration"[1..] == "Configuration";
    assert "SConfiguration" in RootsIn(types.Keys);
    ReachesItself(types, "SConfiguration");
    ReachesItself(types, "E");
    assert types["SConfiguration"].fields[0].type_ == "E";
    assert "E" in Deps(types, "SConfiguration");
    ReachesVia(types, "SConfiguration", "E", "E");
    assert "Body" in types["E"].variants;
  }
}
