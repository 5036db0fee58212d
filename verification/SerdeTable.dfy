/** The closure and the derives, said of the entries of the type table. */
module SerdeTable {
  import opened Serde

  // ----- The closure

  /** The entry of `a` mentions `b`: a field's type that can be serialised, a list's member, a variant. */
  predicate Mentions(types: Types, a: string, b: string) {
    a in types &&
    match types[a]
    case Struct(fields) =>
      && b !in ["Body", "StreamingBlob", "SelectObjectContentEventStream"]
      && exists i :: 0 <= i < |fields| && fields[i].type_ == b
    case List(member) => b == member
    case StructEnum(variants) => exists i :: 0 <= i < |variants| && variants[i] == b
    case Plain => false
  }

  lemma MentionsIs(types: Types, a: string, b: string)
    ensures Mentions(types, a, b) <==> b in Deps(types, a)
  {
    hide Followed;
  }

  predicate StartsClosure(types: Types, name: string) {
    name in types && (name == "Tag" || name == "Tagging" || EndsInConfiguration(name))
  }

  predicate EndsInConfiguration(name: string) {
    var word := "Configuration";
    |name| >= 13 && forall i :: 0 <= i < 13 ==> name[|name| - 13 + i] == word[i]
  }

  lemma StartsIs(types: Types, name: string)
    ensures StartsClosure(types, name) <==> name in RootsIn(types.Keys)
  {
    var word := "Configuration";
    if |name| >= 13 {
      var end := name[|name| - 13..];
      assert EndsInConfiguration(name) ==> end == word;
      assert forall i :: 0 <= i < 13 ==> end[i] == name[|name| - 13 + i];
    }
  }

  /** From a starting type through mentions. */
  ghost predicate Leads(types: Types, path: seq<string>) {
    && path != [] && StartsClosure(types, path[0])
    && forall i :: 0 <= i < |path| - 1 ==> Mentions(types, path[i], path[i + 1])
  }

  lemma LeadsIs(types: Types, path: seq<string>)
    ensures Leads(types, path) <==> path != [] && path[0] in RootsIn(types.Keys) && Chain(types, path)
  {
    hide Mentions, Deps, StartsClosure, RootsIn;
    if path != [] {
      StartsIs(types, path[0]);
    }
    forall i | 0 <= i < |path| - 1
      ensures Mentions(types, path[i], path[i + 1]) <==> path[i + 1] in Deps(types, path[i])
    {
      MentionsIs(types, path[i], path[i + 1]);
    }
  }

  ghost predicate LeadsTo(types: Types, name: string) {
    exists path :: Leads(types, path) && path[|path| - 1] == name
  }

  /** The generated closure: exactly the names that mentions lead to from a starting type. */
  method SerdeNames(types: Types) returns (names: set<string>)
    ensures forall x :: x in names <==> LeadsTo(types, x)
  {
    hide Mentions, Deps, StartsClosure, RootsIn;
    names := CollectTypesNeedingSerde(types);
    forall x ensures x in names <==> LeadsTo(types, x) {
      if path :| Leads(types, path) && path[|path| - 1] == x {
        LeadsIs(types, path);
        assert Reaches(types, path[0], x);
      }
      if x in names {
        var r :| r in RootsIn(types.Keys) && Reaches(types, r, x);
        var path :| Chain(types, path) && path[0] == r && path[|path| - 1] == x;
        LeadsIs(types, path);
      }
    }
  }

  // ----- The derives

  /** A field that rules serialisation out by itself. */
  predicate Spoils(field: Field) {
    || (field.position == "sealed" && field.type_ != "CachedTags")
    || field.position == "s3s"
    || field.type_ in ["Body", "StreamingBlob", "SelectObjectContentEventStream"]
  }

  predicate IsStruct(types: Types, name: string) {
    name in types && types[name].Struct?
  }

  /** Struct `a` has a field of the struct type `b`, or of a list of it. */
  predicate Contains(types: Types, a: string, b: string) {
    && IsStruct(types, a) && IsStruct(types, b)
    && exists i :: 0 <= i < |types[a].fields| && FieldContains(types, types[a].fields[i], b)
  }

  predicate FieldContains(types: Types, field: Field, b: string) {
    field.type_ == b || (field.type_ in types && types[field.type_] == List(b))
  }

  lemma ContainsIs(types: Types, a: string, b: string)
    ensures Contains(types, a, b) <==> IsStruct(types, b) && Holds(types, a, b)
  {
    if IsStruct(types, a) && IsStruct(types, b) {
      forall i | 0 <= i < |types[a].fields|
        ensures FieldContains(types, types[a].fields[i], b) <==> b in HeldBy(types, types[a].fields[i])
      {
      }
    }
  }

  /** Structs, each inside the one before. */
  ghost predicate Inward(types: Types, path: seq<string>) {
    && path != [] && IsStruct(types, path[0])
    && forall i :: 0 <= i < |path| - 1 ==> Contains(types, path[i], path[i + 1])
  }

  lemma InwardIs(types: Types, path: seq<string>)
    ensures Inward(types, path) <==> Nested(types, path)
  {
    hide Contains, Holds;
    forall i | 0 <= i < |path| - 1
      ensures Contains(types, path[i], path[i + 1]) <==>
              IsStruct(types, path[i + 1]) && Holds(types, path[i], path[i + 1])
    {
      ContainsIs(types, path[i], path[i + 1]);
    }
    if Inward(types, path) {
      forall i | 0 <= i < |path| ensures IsStruct(types, path[i]) {
        assert i > 0 ==> Contains(types, path[i - 1], path[i - 1 + 1]);
      }
    }
  }

  /** A struct somewhere inside has a field that rules serialisation out. */
  ghost predicate Spoiled(types: Types, name: string) {
    exists path :: Inward(types, path) && path[0] == name && HasSpoiler(types, path[|path| - 1])
  }

  predicate HasSpoiler(types: Types, name: string) {
    IsStruct(types, name) && exists i :: 0 <= i < |types[name].fields| && Spoils(types[name].fields[i])
  }

  /** A struct derives exactly when mentions lead to it and nothing inside it is spoiled. */
  lemma DerivesWhen(types: Types, names: set<string>, name: string, rank: string -> nat)
    requires Acyclic(types, rank) && IsStruct(types, name) && forall x :: x in names <==> LeadsTo(types, x)
    ensures Derives(types, names, name, rank) <==> LeadsTo(types, name) && !Spoiled(types, name)
  {
    hide Nested, LeadsTo, CanDeriveSerde, HasSpoiler, OwnFieldsOk, Contains;
    CanDeriveExactly(types, name, rank);
    forall path ensures Inward(types, path) <==> Nested(types, path) {
      InwardIs(types, path);
    }
    forall path | Nested(types, path)
      ensures path != [] && IsStruct(types, path[|path| - 1])
      ensures OwnFieldsOk(types, path[|path| - 1]) <==> !HasSpoiler(types, path[|path| - 1])
    {
      NestedEnds(types, path);
      FieldsSpoil(types, path[|path| - 1]);
    }
  }

  lemma NestedEnds(types: Types, path: seq<string>)
    requires Nested(types, path)
    ensures path != [] && IsStruct(types, path[|path| - 1])
  {
  }

  lemma FieldsSpoil(types: Types, name: string)
    requires IsStruct(types, name)
    ensures OwnFieldsOk(types, name) <==> !HasSpoiler(types, name)
  {
    forall i | 0 <= i < |types[name].fields|
      ensures FieldOk(types[name].fields[i]) <==> !Spoils(types[name].fields[i])
    {
    }
  }
}
