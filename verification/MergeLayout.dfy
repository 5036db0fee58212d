/** The merged file piece by piece: which gate every item bears, and where it stands. */
module MergeLayout {
  import opened Bytes
  import opened Merge
  import opened MergeFiles

  // ----- Members

  lemma {:induction false} CounterpartOf<T>(x: T, s: seq<T>, key: T -> string)
    requires x in s && UniqueKeys(s, key)
    ensures Counterpart(key(x), s, key) == Some(x)
  {
    if s[0] != x {
      var i :| 0 <= i < |s| && s[i] == x;
      assert s[1..][i - 1] == x;
      CounterpartOf(x, s[1..], key);
    }
  }

  lemma {:induction false} UnmatchedAre<T>(s: seq<T>, other: seq<T>, key: T -> string)
    ensures forall x :: x in Unmatched(s, other, key) <==> x in s && forall y <- other :: key(y) != key(x)
  {
    hide Counterpart;
    if s != [] {
      assert s == [s[0]] + s[1..];
      UnmatchedAre(s[1..], other, key);
    }
  }

  lemma {:induction false} GatedAre<T>(s: seq<T>, gate: Gate)
    ensures forall x, g :: (x, g) in Gated(s, gate) <==> x in s && g == gate
  {
    if s != [] {
      assert s == [s[0]] + s[1..];
      GatedAre(s[1..], gate);
    }
  }

  lemma {:induction false} MembersFromAre(base: seq<Member>, minio: seq<Member>)
    ensures forall p :: p in MembersFrom(base, minio) <==> exists b :: b in base && p in EmitMember(b, minio)
  {
    hide EmitMember;
    if base != [] {
      assert base == [base[0]] + base[1..];
      MembersFromAre(base[1..], minio);
    }
  }

  /** The gate of a member: none on what both have, and its own on what one side has only so. */
  ghost predicate MemberGate(base: seq<Member>, minio: seq<Member>, x: Member, gate: Gate) {
    match gate
    case Always => x in base && x in minio
    case NotMinio => x in base && x !in minio
    case Minio => x in minio && x !in base
  }

  lemma MembersGated(base: seq<Member>, minio: seq<Member>, x: Member, gate: Gate)
    requires UniqueKeys(base, KeyOfMember) && UniqueKeys(minio, KeyOfMember)
    ensures (x, gate) in MergedMembers(base, minio) <==> MemberGate(base, minio, x, gate)
  {
    hide MembersFrom, Unmatched, Counterpart, Gated;
    var rest := Unmatched(minio, base, KeyOfMember);
    MembersFromAre(base, minio);
    UnmatchedAre(minio, base, KeyOfMember);
    GatedAre(rest, Minio);
    if x in base {
      EmittedMember(base, minio, x, gate);
      assert KeyOfMember(x) == x.key;
    }
    if x in minio {
      CounterpartOf(x, minio, KeyOfMember);
      forall b | b in base && (x, gate) in EmitMember(b, minio) ensures b.key == x.key {
      }
    }
    if gate.Minio? && x in minio && x !in base && x !in rest {
      var b :| b in base && KeyOfMember(b) == KeyOfMember(x);
      assert (x, Minio) in EmitMember(b, minio);
    }
  }

  lemma EmittedMember(base: seq<Member>, minio: seq<Member>, x: Member, gate: Gate)
    requires UniqueKeys(base, KeyOfMember) && UniqueKeys(minio, KeyOfMember) && x in base
    ensures (x, gate) in EmitMember(x, minio) <==> gate == if x in minio then Always else NotMinio
  {
    hide Counterpart;
    if x in minio {
      CounterpartOf(x, minio, KeyOfMember);
    }
    var m := Counterpart(x.key, minio, KeyOfMember);
    assert m.Some? ==> m.value.key == x.key by { assert KeyOfMember(x) == x.key; }
  }

  // ----- Items of a group

  /** Two versions of an impl or trait, which are merged member by member. */
  predicate Versions(b: Item, m: Item) {
    b != m && b.subKey == m.subKey && b.kind == m.kind && b.kind in ["impl_item", "trait_item"]
  }

  /** What stands in the merged group: items under their gates, and versions merged. */
  ghost predicate InMerged(base: seq<Item>, minio: seq<Item>, piece: Piece) {
    match piece
    case Whole(x, Always) => x in base && x in minio
    case Whole(x, NotMinio) => x in base && x !in minio && forall m <- minio :: !Versions(x, m)
    case Whole(x, Minio) => x in minio && x !in base && forall b <- base :: !Versions(b, x)
    case Mixed(b, members) =>
      b in base && exists m :: m in minio && Versions(b, m) && members == MergedMembers(b.members, m.members)
  }

  lemma {:induction false} EmitFromAre(base: seq<Item>, minio: seq<Item>)
    ensures forall p :: p in EmitFrom(base, minio) <==> exists b :: b in base && p in EmitOne(b, minio)
  {
    hide EmitOne;
    if base != [] {
      assert base == [base[0]] + base[1..];
      EmitFromAre(base[1..], minio);
    }
  }

  lemma {:induction false} WholesAre(items: seq<Item>, gate: Gate)
    ensures forall p :: p in Wholes(items, gate) <==> p.Whole? && p.item in items && p.gate == gate
  {
    if items != [] {
      assert items == [items[0]] + items[1..];
      WholesAre(items[1..], gate);
    }
  }

  lemma OnlyCounterpart(b: Item, minio: seq<Item>)
    requires UniqueKeys(minio, SubKeyOf)
    ensures var m := Counterpart(b.subKey, minio, SubKeyOf);
            forall x <- minio :: x.subKey == b.subKey ==> m == Some(x)
  {
    hide Counterpart, UniqueKeys;
    forall x | x in minio && x.subKey == b.subKey ensures Counterpart(b.subKey, minio, SubKeyOf) == Some(x) {
      CounterpartOf(x, minio, SubKeyOf);
      assert SubKeyOf(x) == x.subKey;
    }
  }

  /** What one base item adds: it stands by what becomes of it and of its counterpart. */
  lemma EmitOneAre(base: seq<Item>, b: Item, minio: seq<Item>, piece: Piece)
    requires Mergeable(base, minio) && b in base
    ensures piece in EmitOne(b, minio) <==>
            && InMerged(base, minio, piece)
            && (if piece.Whole? && piece.gate.Minio? then piece.item.subKey == b.subKey else piece.item == b)
  {
    hide Counterpart, MergeableImpls, MergedMembers;
    OnlyCounterpart(b, minio);
    CounterpartIs(b, minio);
    var m := Counterpart(b.subKey, minio, SubKeyOf);
    assert m.None? ==> forall x <- minio :: SubKeyOf(x) != b.subKey;
    forall x | x in base && x.subKey == b.subKey ensures x == b {
      CounterpartOf(x, base, SubKeyOf);
      CounterpartOf(b, base, SubKeyOf);
      assert SubKeyOf(x) == SubKeyOf(b);
    }
    if m.Some? {
      assert SameText(b, m.value) <==> b == m.value;
      assert HasMembers(b) <==> b.kind in ["impl_item", "trait_item"];
    }
  }

  /** A merged group holds exactly these pieces; what its views hold says that it holds each once. */
  lemma GroupGated(base: seq<Item>, minio: seq<Item>, piece: Piece)
    requires Mergeable(base, minio)
    ensures piece in EmitGroup(base, minio) <==> InMerged(base, minio, piece)
  {
    hide EmitOne, EmitFrom, Wholes, Unmatched, Mergeable, InMerged, Versions;
    var rest := Unmatched(minio, base, SubKeyOf);
    EmitFromAre(base, minio);
    UnmatchedAre(minio, base, SubKeyOf);
    WholesAre(rest, Minio);
    forall b <- base
      ensures piece in EmitOne(b, minio) <==>
              && InMerged(base, minio, piece)
              && (if piece.Whole? && piece.gate.Minio? then piece.item.subKey == b.subKey else piece.item == b)
    {
      EmitOneAre(base, b, minio, piece);
    }
    RestIn(base, minio, piece);
  }

  lemma RestIn(base: seq<Item>, minio: seq<Item>, piece: Piece)
    ensures InMerged(base, minio, piece) ==>
              if piece.Whole? && piece.gate.Minio? then piece.item in minio else piece.item in base
    ensures piece.Whole? && piece.gate.Minio? && piece.item in minio
            && (forall b <- base :: SubKeyOf(b) != SubKeyOf(piece.item)) ==>
              InMerged(base, minio, piece)
  {
    if piece.Whole? && piece.item in base {
      assert SubKeyOf(piece.item) == SubKeyOf(piece.item);
    }
  }

  // ----- Groups in the order of their first items

  ghost predicate FirstBefore(items: seq<Item>, a: string, b: string) {
    exists i :: 0 <= i < |items| && items[i].key == a && forall j :: 0 <= j <= i ==> items[j].key != b
  }

  lemma {:induction false} GroupsInOrder(items: seq<Item>, i: nat, j: nat)
    requires i < j < |Groups(items)|
    ensures FirstBefore(items, Groups(items)[i].key, Groups(items)[j].key)
    decreases |items|
  {
    hide AddItem, Groups, FirstBefore;
    GroupsUnfold(items);
    var n := |items| - 1;
    var init, last := items[..n], items[n];
    var before := Groups(init);
    AddedWhere(before, last);
    if j < |before| {
      GroupsInOrder(init, i, j);
    } else {
      KeyThere(init, i);
      KeyNowhere(init, last);
      NewKeyIsLater(init, before[i].key, last.key);
    }
    StillFirst(init, last, before[i].key, Groups(items)[j].key);
  }

  lemma {:induction false} GroupsUnfold(items: seq<Item>)
    ensures if items == [] then Groups(items) == []
            else
              var n := |items| - 1;
              Groups(items) == AddItem(Groups(items[..n]), items[n]) && items == items[..n] + [items[n]]
  {
    hide AddItem;
  }

  lemma NewKeyIsLater(items: seq<Item>, a: string, b: string)
    requires exists k :: 0 <= k < |items| && items[k].key == a
    requires forall k :: 0 <= k < |items| ==> items[k].key != b
    ensures FirstBefore(items, a, b)
  {
  }

  lemma StillFirst(items: seq<Item>, last: Item, a: string, b: string)
    requires FirstBefore(items, a, b)
    ensures FirstBefore(items + [last], a, b)
  {
    var i :| 0 <= i < |items| && items[i].key == a && forall j :: 0 <= j <= i ==> items[j].key != b;
    var more := items + [last];
    assert more[i].key == a && forall j :: 0 <= j <= i ==> more[j] == items[j];
  }

  /** Adding an item keeps the groups' keys, and may add one behind them. */
  lemma {:induction false} AddedWhere(groups: seq<Group>, item: Item)
    ensures var after := AddItem(groups, item);
            && |groups| <= |after| <= |groups| + 1
            && (forall i :: 0 <= i < |groups| ==> after[i].key == groups[i].key)
            && (|after| > |groups| ==>
                  after[|groups|].key == item.key && forall i :: 0 <= i < |groups| ==> groups[i].key != item.key)
  {
    if groups != [] && groups[0].key != item.key {
      AddedWhere(groups[1..], item);
    }
  }

  lemma KeyThere(items: seq<Item>, i: nat)
    requires i < |Groups(items)|
    ensures exists k :: 0 <= k < |items| && items[k].key == Groups(items)[i].key
  {
    hide Groups;
    SameKeys(items);
    assert Groups(items)[i].key in GroupKeys(Groups(items));
    var x :| x in items && x.key == Groups(items)[i].key;
  }

  lemma KeyNowhere(items: seq<Item>, last: Item)
    requires forall i :: 0 <= i < |Groups(items)| ==> Groups(items)[i].key != last.key
    ensures forall k :: 0 <= k < |items| ==> items[k].key != last.key
  {
    hide Groups;
    SameKeys(items);
    forall k | 0 <= k < |items| ensures items[k].key != last.key {
      assert items[k].key in KeysOf(items);
    }
  }

  // ----- Where minio-only groups go

  ghost predicate BaseHas(base: seq<Group>, key: string) {
    exists i :: 0 <= i < |base| && base[i].key == key
  }

  /** Base group `i` is the last one in front of minio group `n` that both files have. */
  ghost predicate Precedes(base: seq<Group>, minio: seq<Group>, i: nat, n: nat) {
    i < |base| && n <= |minio| &&
    exists s :: 0 <= s < n && minio[s].key == base[i].key
                && forall t :: s < t < n ==> !BaseHas(base, minio[t].key)
  }

  /** No group in front of minio group `n` is in both files. */
  ghost predicate NonePrecedes(base: seq<Group>, minio: seq<Group>, n: nat) {
    n <= |minio| && forall t :: 0 <= t < n ==> !BaseHas(base, minio[t].key)
  }

  lemma {:induction false} IndexFound(k: string, base: seq<Group>)
    ensures match IndexOf(k, base)
            case Some(i) => base[i].key == k
            case None => forall j :: 0 <= j < |base| ==> base[j].key != k
  {
    if base != [] && base[0].key != k {
      IndexFound(k, base[1..]);
      if IndexOf(k, base[1..]).None? {
        forall j | 0 < j < |base| ensures base[j].key != k {
          assert base[j] == base[1..][j - 1];
        }
      }
    }
  }

  lemma IndexIs(k: string, base: seq<Group>, i: nat)
    requires UniqueKeys(base, KeyOfGroup)
    ensures IndexOf(k, base) == Some(i) <==> i < |base| && base[i].key == k
    ensures IndexOf(k, base).None? <==> !BaseHas(base, k)
  {
    hide IndexOf;
    IndexFound(k, base);
    var at := IndexOf(k, base);
    if at.Some? && i < |base| && base[i].key == k {
      assert KeyOfGroup(base[i]) == KeyOfGroup(base[at.value]);
    }
  }

  lemma {:induction false} LastSharedIs(base: seq<Group>, minio: seq<Group>, n: nat)
    requires UniqueKeys(base, KeyOfGroup) && n <= |minio|
    ensures match LastShared(base, minio, n)
            case Some(i) => Precedes(base, minio, i, n)
            case None => NonePrecedes(base, minio, n)
  {
    hide IndexOf;
    if n > 0 {
      LastSharedIs(base, minio, n - 1);
      IndexIs(minio[n - 1].key, base, 0);
      var at := IndexOf(minio[n - 1].key, base);
      if at.Some? {
        IndexIs(minio[n - 1].key, base, at.value);
        assert minio[n - 1].key == base[at.value].key;
        assert Precedes(base, minio, at.value, n);
      } else {
        StillPrecedes(base, minio, n);
      }
    }
  }

  lemma StillPrecedes(base: seq<Group>, minio: seq<Group>, n: nat)
    requires 0 < n <= |minio| && !BaseHas(base, minio[n - 1].key)
    ensures forall i: nat :: Precedes(base, minio, i, n - 1) ==> Precedes(base, minio, i, n)
    ensures NonePrecedes(base, minio, n - 1) ==> NonePrecedes(base, minio, n)
  {
    hide BaseHas;
    forall i: nat | Precedes(base, minio, i, n - 1) ensures Precedes(base, minio, i, n) {
      var s :| 0 <= s < n - 1 && minio[s].key == base[i].key
               && forall t :: s < t < n - 1 ==> !BaseHas(base, minio[t].key);
      assert forall t :: s < t < n ==> !BaseHas(base, minio[t].key);
    }
  }

  /** At most one group precedes so. */
  lemma PrecedesOnce(base: seq<Group>, minio: seq<Group>, i: nat, j: nat, n: nat)
    requires UniqueKeys(base, KeyOfGroup) && Precedes(base, minio, i, n)
    ensures Precedes(base, minio, j, n) ==> i == j
    ensures !NonePrecedes(base, minio, n)
  {
    var s :| 0 <= s < n && minio[s].key == base[i].key && forall t :: s < t < n ==> !BaseHas(base, minio[t].key);
    assert BaseHas(base, minio[s].key);
    if Precedes(base, minio, j, n) {
      var r :| 0 <= r < n && minio[r].key == base[j].key && forall t :: r < t < n ==> !BaseHas(base, minio[t].key);
      assert BaseHas(base, minio[r].key);
      assert r == s;
      assert KeyOfGroup(base[i]) == KeyOfGroup(base[j]);
    }
  }

  /** Minio group `n` is in minio only, and goes behind base group `at`, or to the end. */
  ghost predicate GoesTo(base: seq<Group>, minio: seq<Group>, at: Option<nat>, n: nat) {
    && n < |minio| && !BaseHas(base, minio[n].key)
    && if at.Some? then Precedes(base, minio, at.value, n) else NonePrecedes(base, minio, n)
  }

  lemma GoesToIs(base: seq<Group>, minio: seq<Group>, at: Option<nat>, n: nat)
    requires UniqueKeys(base, KeyOfGroup) && n < |minio|
    ensures GoesTo(base, minio, at, n) <==>
            IndexOf(minio[n].key, base).None? && LastShared(base, minio, n) == at
  {
    hide IndexOf, LastShared, Precedes, NonePrecedes, BaseHas;
    IndexIs(minio[n].key, base, 0);
    LastSharedIs(base, minio, n);
    var last := LastShared(base, minio, n);
    if last.Some? {
      PrecedesOnce(base, minio, last.value, if at.Some? then at.value else 0, n);
    } else if at.Some? && Precedes(base, minio, at.value, n) {
      PrecedesOnce(base, minio, at.value, at.value, n);
    }
  }

  /** The attached groups are the minio-only ones that go there, in the order of the minio file. */
  lemma {:induction false} AttachedInOrder(base: seq<Group>, minio: seq<Group>, at: Option<nat>, n: nat)
    returns (places: seq<nat>)
    requires UniqueKeys(base, KeyOfGroup) && n <= |minio|
    ensures var s := AttachedTo(base, minio, at, n);
            && |places| == |s|
            && (forall k :: 0 <= k < |s| ==> places[k] < n && s[k] == minio[places[k]])
            && (forall k, l :: 0 <= k < l < |s| ==> places[k] < places[l])
            && (forall m: nat :: m in places <==> m < n && GoesTo(base, minio, at, m))
  {
    hide GoesTo, LastShared, IndexOf, AttachedTo;
    if n == 0 {
      NoneHere(base, minio, at);
      places := [];
    } else {
      places := AttachedInOrder(base, minio, at, n - 1);
      AttachedStep(base, minio, at, n - 1);
      GoesToIs(base, minio, at, n - 1);
      if GoesTo(base, minio, at, n - 1) {
        places := places + [n - 1];
      }
    }
  }

  lemma NoneHere(base: seq<Group>, minio: seq<Group>, at: Option<nat>)
    ensures AttachedTo(base, minio, at, 0) == []
  {
  }

  // ----- The whole file

  lemma {:induction false} PiecesFrom(base: seq<Group>, minio: seq<Group>, i: nat, n: nat) returns (back: seq<Piece>)
    requires i <= n <= |base|
    ensures PiecesOf(base, minio, n) == PiecesOf(base, minio, i) + back
    ensures Seen(back, false) == Flatten(base[i..n])
  {
    hide GroupPieces, Wholes, AttachedTo, Seen, Flatten;
    if i == n {
      back := [];
      assert base[i..n] == [];
      NothingSeenAtAll();
      NothingFlat();
    } else {
      var front := PiecesFrom(base, minio, i, n - 1);
      var own := GroupPieces(base[n - 1], minio);
      var more := Wholes(Flatten(AttachedTo(base, minio, Some(n - 1), |minio|)), Minio);
      back := front + own + more;
      GroupPiecesSeen(base[n - 1], minio);
      SeenWholes(Flatten(AttachedTo(base, minio, Some(n - 1), |minio|)), Minio, false);
      SeenJoins(front, own, false);
      SeenJoins(front + own, more, false);
      assert base[i..n] == base[i..n - 1] + [base[n - 1]];
      FlattenJoins(base[i..n - 1], [base[n - 1]]);
      OneFlat(base[n - 1]);
      assert PiecesOf(base, minio, n) == PiecesOf(base, minio, i) + front + own + more;
    }
  }

  lemma NothingSeenAtAll()
    ensures Seen([], false) == []
  {
  }

  /**
   * Where things stand: behind the pieces of the base groups in front of it comes a base group's own
   * pieces, then under the minio gate the groups that go behind it, then the later base groups; the
   * groups that go to the end come last.
   */
  lemma Layout(baseItems: seq<Item>, minioItems: seq<Item>, i: nat)
    returns (front: seq<Piece>, back: seq<Piece>)
    requires i < |Groups(baseItems)|
    ensures var base, minio := Groups(baseItems), Groups(minioItems);
            && Merged(baseItems, minioItems) ==
               front + GroupPieces(base[i], minio) + Wholes(Flatten(AttachedTo(base, minio, Some(i), |minio|)), Minio)
               + back + Wholes(Flatten(AttachedTo(base, minio, None, |minio|)), Minio)
            && Seen(front, false) == Flatten(base[..i]) && Seen(back, false) == Flatten(base[i + 1..])
  {
    hide Groups, GroupPieces, Wholes, AttachedTo, Seen, Flatten;
    var base, minio := Groups(baseItems), Groups(minioItems);
    front := PiecesFrom(base, minio, 0, i);
    assert PiecesOf(base, minio, i) == front;
    back := PiecesFrom(base, minio, i + 1, |base|);
    assert base[0..i] == base[..i] && base[i + 1..|base|] == base[i + 1..];
  }

  /** Two groups hold the same items. */
  predicate Alike(base: seq<Item>, minio: seq<Item>) {
    |base| == |minio| && forall b <- base :: b in minio
  }

  lemma AlikeIs(base: seq<Item>, minio: seq<Item>)
    requires Mergeable(base, minio)
    ensures SameGroup(base, minio) <==> Alike(base, minio)
  {
    hide Counterpart, UniqueKeys, MergeableImpls;
    forall b <- base
      ensures b in minio <==>
              (var m := Counterpart(b.subKey, minio, SubKeyOf); m.Some? && SameText(b, m.value))
    {
      OnlyCounterpart(b, minio);
      CounterpartIs(b, minio);
    }
  }

  /** A group that only the base has is not gated, and neither is one that both have alike; others are merged. */
  lemma GroupsGated(g: Group, minio: seq<Group>)
    requires UniqueKeys(minio, KeyOfGroup)
    ensures (forall h <- minio :: h.key != g.key) ==> GroupPieces(g, minio) == Wholes(g.items, Always)
    ensures forall h <- minio | h.key == g.key && Mergeable(g.items, h.items) ::
              GroupPieces(g, minio) ==
              if Alike(g.items, h.items) then Wholes(g.items, Always) else EmitGroup(g.items, h.items)
  {
    hide Wholes, EmitGroup, Counterpart, SameGroup, Alike, Mergeable, UniqueKeys;
    var m := Counterpart(g.key, minio, KeyOfGroup);
    assert m.Some? ==> m.value in minio && KeyOfGroup(m.value) == g.key;
    forall h | h in minio && h.key == g.key && Mergeable(g.items, h.items)
      ensures m == Some(h) && (SameGroup(g.items, h.items) <==> Alike(g.items, h.items))
    {
      CounterpartOf(h, minio, KeyOfGroup);
      assert KeyOfGroup(h) == h.key;
      AlikeIs(g.items, h.items);
    }
  }
}
