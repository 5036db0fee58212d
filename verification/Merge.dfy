/** Merging two generated files into one with cfg gates, item by item. */
module Merge {
  import opened Bytes

  datatype Member = Member(key: string, text: string)

  /**
   * A top-level item without its comments. An impl or trait has members behind its head (attributes and
   * first line); of any other item the head is the whole text.
   */
  datatype Item = Item(key: string, subKey: string, kind: string, head: string, members: seq<Member>)

  datatype Group = Group(key: string, items: seq<Item>)

  datatype Gate = Always | NotMinio | Minio {
    predicate Admits(minio: bool) {
      match this
      case Always => true
      case NotMinio => !minio
      case Minio => minio
    }
  }

  /** An emitted item under a gate, or an impl or trait with gates on its members. */
  datatype Piece = Whole(item: Item, gate: Gate) | Mixed(item: Item, members: seq<(Member, Gate)>)

  // ----- Matching by key

  function Counterpart<T>(k: string, s: seq<T>, key: T -> string): (r: Option<T>)
    ensures r.Some? ==> r.value in s && key(r.value) == k
    ensures r.None? ==> forall x <- s :: key(x) != k
  {
    if s == [] then None else if key(s[0]) == k then Some(s[0]) else Counterpart(k, s[1..], key)
  }

  /** The counterpart of one element, if any. */
  function MatchOf<T>(b: T, minio: seq<T>, key: T -> string): seq<T> {
    var m := Counterpart(key(b), minio, key);
    if m.Some? then [m.value] else []
  }

  /** The counterparts of `base`, in its order. */
  function Matched<T>(base: seq<T>, minio: seq<T>, key: T -> string): seq<T> {
    if base == [] then [] else MatchOf(base[0], minio, key) + Matched(base[1..], minio, key)
  }

  /** What has no counterpart in `base`. */
  function Unmatched<T>(minio: seq<T>, base: seq<T>, key: T -> string): seq<T> {
    if minio == [] then []
    else (if Counterpart(key(minio[0]), base, key).None? then [minio[0]] else []) + Unmatched(minio[1..], base, key)
  }

  ghost predicate UniqueKeys<T>(s: seq<T>, key: T -> string) {
    forall i, j :: 0 <= i < j < |s| ==> key(s[i]) != key(s[j])
  }

  /** Without the counterpart of one more base element, the rest is what it was but for that. */
  lemma {:induction false} UnmatchedStep<T>(minio: seq<T>, base: seq<T>, key: T -> string)
    requires base != [] && UniqueKeys(minio, key) && UniqueKeys(base, key)
    ensures var m := Counterpart(key(base[0]), minio, key);
            multiset(Unmatched(minio, base[1..], key)) ==
            multiset(Unmatched(minio, base, key)) + (if m.Some? then multiset{m.value} else multiset{})
    decreases |minio|
  {
    if minio != [] {
      var x, k := minio[0], key(base[0]);
      var rest := minio[1..];
      assert minio == [x] + rest && base == [base[0]] + base[1..];
      UnmatchedStep(rest, base, key);
      if key(x) == k {
        assert Counterpart(k, rest, key).None?;
        assert Counterpart(k, base[1..], key).None?;
      } else {
        assert Counterpart(key(x), base, key) == Counterpart(key(x), base[1..], key);
      }
    }
  }

  lemma {:induction false} UnmatchedAll<T>(minio: seq<T>, key: T -> string)
    ensures Unmatched(minio, [], key) == minio
  {
    if minio != [] {
      UnmatchedAll(minio[1..], key);
      assert minio == [minio[0]] + minio[1..];
    }
  }

  /** With unique keys, the counterparts and the rest are everything, each once. */
  lemma {:induction false} MatchedAndRest<T>(base: seq<T>, minio: seq<T>, key: T -> string)
    requires UniqueKeys(minio, key) && UniqueKeys(base, key)
    ensures multiset(Matched(base, minio, key)) + multiset(Unmatched(minio, base, key)) == multiset(minio)
    decreases |base|
  {
    if base == [] {
      UnmatchedAll(minio, key);
    } else {
      MatchedAndRest(base[1..], minio, key);
      UnmatchedStep(minio, base, key);
    }
  }

  lemma {:induction false} MatchedMore<T>(base: seq<T>, b: T, minio: seq<T>, key: T -> string)
    ensures Matched(base + [b], minio, key) == Matched(base, minio, key) + MatchOf(b, minio, key)
  {
    hide MatchOf;
    var more := base + [b];
    if base == [] {
      assert more[1..] == [];
      assert Matched(more, minio, key) == MatchOf(b, minio, key) + [];
    } else {
      assert more[0] == base[0] && more[1..] == base[1..] + [b];
      MatchedMore(base[1..], b, minio, key);
    }
  }

  lemma {:induction false} UnmatchedMore<T>(minio: seq<T>, m: T, base: seq<T>, key: T -> string)
    ensures Unmatched(minio + [m], base, key) ==
            Unmatched(minio, base, key) + (if Counterpart(key(m), base, key).None? then [m] else [])
  {
    if minio == [] {
      assert (minio + [m])[1..] == [];
    } else {
      assert (minio + [m])[0] == minio[0] && (minio + [m])[1..] == minio[1..] + [m];
      UnmatchedMore(minio[1..], m, base, key);
    }
  }

  // ----- Grouping

  function AddItem(groups: seq<Group>, item: Item): seq<Group> {
    if groups == [] then [Group(item.key, [item])]
    else if groups[0].key == item.key then [groups[0].(items := groups[0].items + [item])] + groups[1..]
    else [groups[0]] + AddItem(groups[1..], item)
  }

  function Groups(items: seq<Item>): seq<Group> {
    if items == [] then [] else AddItem(Groups(items[..|items| - 1]), items[|items| - 1])
  }

  /** The item goes to the first group of its key, or into a new one at the end. */
  lemma {:induction false} AddItemAt(groups: seq<Group>, item: Item, i: nat)
    requires i <= |groups| && (i < |groups| ==> groups[i].key == item.key)
    requires forall j :: 0 <= j < i ==> groups[j].key != item.key
    ensures AddItem(groups, item) ==
            if i < |groups| then groups[i := groups[i].(items := groups[i].items + [item])]
            else groups + [Group(item.key, [item])]
    decreases |groups|
  {
    if i > 0 {
      AddItemAt(groups[1..], item, i - 1);
    }
  }

  /** Items by their key, groups in the order of their first items. */
  method GroupItems(items: seq<Item>) returns (groups: seq<Group>)
    ensures groups == Groups(items)
  {
    hide AddItem;
    groups := [];
    for n := 0 to |items|
      invariant groups == Groups(items[..n])
    {
      var item := items[n];
      var i := 0;
      while i < |groups| && groups[i].key != item.key
        invariant i <= |groups| && forall j :: 0 <= j < i ==> groups[j].key != item.key
      {
        i := i + 1;
      }
      AddItemAt(groups, item, i);
      assert items[..n + 1][..n] == items[..n];
      if i < |groups| {
        groups := groups[i := groups[i].(items := groups[i].items + [item])];
      } else {
        groups := groups + [Group(item.key, [item])];
      }
    }
    assert items[..|items|] == items;
  }

  function KeyOfGroup(g: Group): string {
    g.key
  }

  function Flatten(groups: seq<Group>): seq<Item> {
    if groups == [] then [] else groups[0].items + Flatten(groups[1..])
  }

  lemma {:induction false} FlattenJoins(a: seq<Group>, b: seq<Group>)
    ensures Flatten(a + b) == Flatten(a) + Flatten(b)
  {
    if a == [] {
      assert a + b == b;
    } else {
      assert (a + b)[0] == a[0] && (a + b)[1..] == a[1..] + b;
      FlattenJoins(a[1..], b);
    }
  }

  lemma OneFlat(g: Group)
    ensures Flatten([g]) == g.items
  {
    assert [g][1..] == [];
  }

  /** The order of the groups does not matter for what they hold. */
  lemma {:induction false} FlattenPermuted(a: seq<Group>, b: seq<Group>)
    requires multiset(a) == multiset(b)
    ensures multiset(Flatten(a)) == multiset(Flatten(b))
    decreases |a|
  {
    if a == [] {
      assert |multiset(b)| == |b|;
    } else {
      assert a == [a[0]] + a[1..];
      assert a[0] in multiset(b);
      var j :| 0 <= j < |b| && b[j] == a[0];
      GroupTakenOut(b, j);
      var rest := b[..j] + b[j + 1..];
      assert multiset(a) == multiset{a[0]} + multiset(a[1..]);
      assert multiset(a[1..]) == multiset(a) - multiset{a[0]};
      assert multiset(rest) == multiset(b) - multiset{b[j]};
      FlattenPermuted(a[1..], b[..j] + b[j + 1..]);
    }
  }

  lemma GroupTakenOut(b: seq<Group>, j: nat)
    requires j < |b|
    ensures multiset(b) == multiset{b[j]} + multiset(b[..j] + b[j + 1..])
    ensures multiset(Flatten(b)) == multiset(b[j].items) + multiset(Flatten(b[..j] + b[j + 1..]))
  {
    hide Flatten;
    var before, after := b[..j], b[j + 1..];
    var tail := [b[j]] + after;
    assert b == before + tail;
    assert multiset(b) == multiset(before) + (multiset{b[j]} + multiset(after));
    FlatTakenOut(before, b[j], after);
  }

  lemma FlatTakenOut(before: seq<Group>, g: Group, after: seq<Group>)
    ensures multiset(Flatten(before + ([g] + after))) == multiset(g.items) + multiset(Flatten(before + after))
  {
    hide Flatten;
    FlattenJoins(before, after);
    FlattenJoins(before, [g] + after);
    FlattenJoins([g], after);
    OneFlat(g);
  }

  /** Groups have different keys, are not empty and hold items of their own key. */
  ghost predicate GroupsOk(groups: seq<Group>) {
    && UniqueKeys(groups, KeyOfGroup)
    && forall i :: 0 <= i < |groups| ==> GroupOk(groups[i])
  }

  ghost predicate GroupOk(g: Group) {
    g.items != [] && forall x <- g.items :: x.key == g.key
  }

  lemma {:induction false} AddItemKeeps(groups: seq<Group>, item: Item)
    requires GroupsOk(groups)
    ensures GroupsOk(AddItem(groups, item))
    ensures forall g :: g in AddItem(groups, item) ==> g.key == item.key || g in groups
  {
    if groups != [] {
      var rest := groups[1..];
      assert groups == [groups[0]] + rest;
      if groups[0].key == item.key {
        var g := groups[0].(items := groups[0].items + [item]);
        assert forall i :: 0 < i < |groups| ==> AddItem(groups, item)[i] == groups[i];
        assert GroupOk(groups[0]) && GroupOk(g);
      } else {
        AddItemKeeps(rest, item);
        var more := AddItem(rest, item);
        forall j | 0 <= j < |more| ensures more[j].key != groups[0].key {
          assert more[j] in more;
        }
      }
    }
  }

  lemma {:induction false} AddItemAdds(groups: seq<Group>, item: Item)
    ensures multiset(Flatten(AddItem(groups, item))) == multiset(Flatten(groups)) + multiset{item}
  {
    if groups != [] {
      if groups[0].key == item.key {
        assert AddItem(groups, item)[1..] == groups[1..];
      } else {
        AddItemAdds(groups[1..], item);
        assert AddItem(groups, item)[1..] == AddItem(groups[1..], item);
      }
    } else {
      assert AddItem(groups, item)[1..] == [];
    }
  }

  /** Grouping keeps every item, once. */
  lemma {:induction false} GroupsKeepItems(items: seq<Item>)
    ensures GroupsOk(Groups(items)) && multiset(Flatten(Groups(items))) == multiset(items)
  {
    if items != [] {
      var n := |items| - 1;
      assert items == items[..n] + [items[n]];
      GroupsKeepItems(items[..n]);
      AddItemKeeps(Groups(items[..n]), items[n]);
      AddItemAdds(Groups(items[..n]), items[n]);
    }
  }

  /** The items of one key, in their order. */
  function OfKey(items: seq<Item>, k: string): seq<Item> {
    if items == [] then []
    else OfKey(items[..|items| - 1], k) + (if items[|items| - 1].key == k then [items[|items| - 1]] else [])
  }

  /** A group's items stand in the order of the file. */
  lemma {:induction false} GroupsKeepOrder(items: seq<Item>, k: string)
    ensures var g := Counterpart(k, Groups(items), KeyOfGroup);
            OfKey(items, k) == if g.Some? then g.value.items else []
  {
    if items != [] {
      var n := |items| - 1;
      GroupsKeepOrder(items[..n], k);
      AddItemOrder(Groups(items[..n]), items[n], k);
    }
  }

  lemma {:induction false} AddItemOrder(groups: seq<Group>, item: Item, k: string)
    ensures var before, after := Counterpart(k, groups, KeyOfGroup), Counterpart(k, AddItem(groups, item), KeyOfGroup);
            (if after.Some? then after.value.items else []) ==
            (if before.Some? then before.value.items else []) + (if item.key == k then [item] else [])
  {
    if groups != [] {
      AddItemOrder(groups[1..], item, k);
      var after := AddItem(groups, item);
      assert after[1..] == if groups[0].key == item.key then groups[1..] else AddItem(groups[1..], item);
    } else {
      var after := AddItem(groups, item);
      assert after[1..] == [];
    }
  }
}
