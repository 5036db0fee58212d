/** The merged file projected back: onto the base file, and onto the minio file. */
module MergeFiles {
  import opened Bytes
  import opened Merge

  // ----- Members of an impl or trait

  function KeyOfMember(m: Member): string {
    m.key
  }

  function EmitMember(b: Member, minio: seq<Member>): seq<(Member, Gate)> {
    var m := Counterpart(b.key, minio, KeyOfMember);
    if m.None? then [(b, NotMinio)]
    else if b.text == m.value.text then [(b, Always)]
    else [(b, NotMinio), (m.value, Minio)]
  }

  function MembersFrom(base: seq<Member>, minio: seq<Member>): seq<(Member, Gate)> {
    if base == [] then [] else EmitMember(base[0], minio) + MembersFrom(base[1..], minio)
  }

  lemma {:induction false} MembersFromMore(base: seq<Member>, b: Member, minio: seq<Member>)
    ensures MembersFrom(base + [b], minio) == MembersFrom(base, minio) + EmitMember(b, minio)
  {
    hide EmitMember;
    if base == [] {
      assert (base + [b])[1..] == [];
    } else {
      assert (base + [b])[0] == base[0] && (base + [b])[1..] == base[1..] + [b];
      MembersFromMore(base[1..], b, minio);
    }
  }

  function Gated<T>(s: seq<T>, gate: Gate): (r: seq<(T, Gate)>)
    ensures |r| == |s|
  {
    if s == [] then [] else [(s[0], gate)] + Gated(s[1..], gate)
  }

  /** Shared members once, differing ones twice, the rest under their own gate. */
  function MergedMembers(base: seq<Member>, minio: seq<Member>): seq<(Member, Gate)> {
    MembersFrom(base, minio) + Gated(Unmatched(minio, base, KeyOfMember), Minio)
  }

  /** What a configuration keeps. */
  function Kept<T>(s: seq<(T, Gate)>, minio: bool): seq<T> {
    if s == [] then [] else (if s[0].1.Admits(minio) then [s[0].0] else []) + Kept(s[1..], minio)
  }

  lemma {:induction false} KeptJoins<T>(a: seq<(T, Gate)>, b: seq<(T, Gate)>, minio: bool)
    ensures Kept(a + b, minio) == Kept(a, minio) + Kept(b, minio)
  {
    hide Gate.Admits;
    if a == [] {
      assert a + b == b;
    } else {
      var all := a + b;
      assert all[0] == a[0] && all[1..] == a[1..] + b;
      KeptJoins(a[1..], b, minio);
      var first := if a[0].1.Admits(minio) then [a[0].0] else [];
      assert first + (Kept(a[1..], minio) + Kept(b, minio)) == (first + Kept(a[1..], minio)) + Kept(b, minio);
    }
  }

  lemma {:induction false} KeptGated<T>(s: seq<T>, gate: Gate, minio: bool)
    ensures Kept(Gated(s, gate), minio) == if gate.Admits(minio) then s else []
  {
    if s != [] {
      KeptGated(s[1..], gate, minio);
      assert Gated(s, gate)[1..] == Gated(s[1..], gate);
      assert s == [s[0]] + s[1..];
    }
  }

  lemma EmitMemberKept(b: Member, minio: seq<Member>)
    ensures Kept(EmitMember(b, minio), false) == [b]
    ensures var m := Counterpart(KeyOfMember(b), minio, KeyOfMember);
            Kept(EmitMember(b, minio), true) == if m.Some? then [m.value] else []
  {
    hide Kept;
    TwoKept(EmitMember(b, minio));
  }

  lemma {:induction false} MembersFromKept(base: seq<Member>, minio: seq<Member>)
    ensures Kept(MembersFrom(base, minio), false) == base
    ensures Kept(MembersFrom(base, minio), true) == Matched(base, minio, KeyOfMember)
  {
    hide EmitMember, Counterpart;
    if base != [] {
      var first := EmitMember(base[0], minio);
      EmitMemberKept(base[0], minio);
      MembersFromKept(base[1..], minio);
      KeptJoins(first, MembersFrom(base[1..], minio), false);
      KeptJoins(first, MembersFrom(base[1..], minio), true);
      assert base == [base[0]] + base[1..];
    }
  }

  lemma TwoKept<T>(s: seq<(T, Gate)>)
    requires 1 <= |s| <= 2
    ensures forall minio :: Kept(s, minio) ==
                            (if s[0].1.Admits(minio) then [s[0].0] else [])
                            + (if |s| == 2 && s[1].1.Admits(minio) then [s[1].0] else [])
  {
    forall minio
      ensures Kept(s, minio) ==
              (if s[0].1.Admits(minio) then [s[0].0] else [])
              + (if |s| == 2 && s[1].1.Admits(minio) then [s[1].0] else [])
    {
      if |s| == 2 {
        assert s[1..][1..] == [];
      } else {
        assert s[1..] == [];
      }
    }
  }

  lemma MergedMembersKept(base: seq<Member>, minio: seq<Member>)
    ensures Kept(MergedMembers(base, minio), false) == base
    ensures UniqueKeys(base, KeyOfMember) && UniqueKeys(minio, KeyOfMember) ==>
              multiset(Kept(MergedMembers(base, minio), true)) == multiset(minio)
  {
    var rest := Unmatched(minio, base, KeyOfMember);
    MembersFromKept(base, minio);
    KeptJoins(MembersFrom(base, minio), Gated(rest, Minio), false);
    KeptJoins(MembersFrom(base, minio), Gated(rest, Minio), true);
    KeptGated(rest, Minio, false);
    KeptGated(rest, Minio, true);
    if UniqueKeys(base, KeyOfMember) && UniqueKeys(minio, KeyOfMember) {
      MatchedAndRest(base, minio, KeyOfMember);
    }
  }

  method EmitImplMerged(base: Item, minio: Item) returns (piece: Piece)
    ensures piece == Mixed(base, MergedMembers(base.members, minio.members))
  {
    hide MembersFrom;
    var members := [];
    NoMembers(minio.members);
    for i := 0 to |base.members|
      invariant members == MembersFrom(base.members[..i], minio.members)
    {
      var b := base.members[i];
      MembersFromMore(base.members[..i], b, minio.members);
      assert base.members[..i + 1] == base.members[..i] + [b];
      var m := Counterpart(b.key, minio.members, KeyOfMember);
      if m.None? {
        members := members + [(b, NotMinio)];
      } else if b.text == m.value.text {
        members := members + [(b, Always)];
      } else {
        members := members + [(b, NotMinio), (m.value, Minio)];
      }
    }
    assert base.members[..|base.members|] == base.members;
    var rest := Unmatched(minio.members, base.members, KeyOfMember);
    piece := Mixed(base, members + Gated(rest, Minio));
  }

  lemma NoMembers(minio: seq<Member>)
    ensures MembersFrom([], minio) == []
  {
  }

  // ----- Items of a group

  function SubKeyOf(x: Item): string {
    x.subKey
  }

  /** Equal up to comments. */
  predicate SameText(b: Item, m: Item) {
    b.kind == m.kind && b.head == m.head && b.members == m.members
  }

  predicate HasMembers(b: Item) {
    b.kind == "impl_item" || b.kind == "trait_item"
  }

  function EmitOne(b: Item, minio: seq<Item>): seq<Piece> {
    var m := Counterpart(b.subKey, minio, SubKeyOf);
    if m.None? then [Whole(b, NotMinio)]
    else if SameText(b, m.value) then [Whole(b, Always)]
    else if b.kind == m.value.kind && HasMembers(b) then [Mixed(b, MergedMembers(b.members, m.value.members))]
    else [Whole(b, NotMinio), Whole(m.value, Minio)]
  }

  function EmitFrom(base: seq<Item>, minio: seq<Item>): seq<Piece> {
    if base == [] then [] else EmitOne(base[0], minio) + EmitFrom(base[1..], minio)
  }

  function Wholes(items: seq<Item>, gate: Gate): seq<Piece> {
    if items == [] then [] else [Whole(items[0], gate)] + Wholes(items[1..], gate)
  }

  function EmitGroup(base: seq<Item>, minio: seq<Item>): seq<Piece> {
    EmitFrom(base, minio) + Wholes(Unmatched(minio, base, SubKeyOf), Minio)
  }

  predicate SameGroup(base: seq<Item>, minio: seq<Item>) {
    && |base| == |minio|
    && forall b <- base :: var m := Counterpart(b.subKey, minio, SubKeyOf); m.Some? && SameText(b, m.value)
  }

  /** The items a configuration sees. */
  function Seen(pieces: seq<Piece>, minio: bool): seq<Item> {
    if pieces == [] then [] else SeenOf(pieces[0], minio) + Seen(pieces[1..], minio)
  }

  function SeenOf(piece: Piece, minio: bool): seq<Item> {
    match piece
    case Whole(item, gate) => if gate.Admits(minio) then [item] else []
    case Mixed(item, members) => [item.(members := Kept(members, minio))]
  }

  lemma {:induction false} SeenJoins(a: seq<Piece>, b: seq<Piece>, minio: bool)
    ensures Seen(a + b, minio) == Seen(a, minio) + Seen(b, minio)
  {
    hide SeenOf;
    if a == [] {
      assert a + b == b;
    } else {
      assert (a + b)[0] == a[0] && (a + b)[1..] == a[1..] + b;
      SeenJoins(a[1..], b, minio);
    }
  }

  lemma {:induction false} SeenWholes(items: seq<Item>, gate: Gate, minio: bool)
    ensures Seen(Wholes(items, gate), minio) == if gate.Admits(minio) then items else []
  {
    if items != [] {
      SeenWholes(items[1..], gate, minio);
      assert Wholes(items, gate)[1..] == Wholes(items[1..], gate);
      assert items == [items[0]] + items[1..];
    }
  }

  /** An item up to the order of its members. */
  datatype Norm = Norm(key: string, subKey: string, kind: string, head: string, members: multiset<Member>)

  function NormOf(x: Item): Norm {
    Norm(x.key, x.subKey, x.kind, x.head, multiset(x.members))
  }

  function Norms(items: seq<Item>): multiset<Norm> {
    if items == [] then multiset{} else multiset{NormOf(items[0])} + Norms(items[1..])
  }

  lemma {:induction false} NormsJoin(a: seq<Item>, b: seq<Item>)
    ensures Norms(a + b) == Norms(a) + Norms(b)
  {
    hide NormOf;
    if a == [] {
      assert a + b == b;
    } else {
      assert (a + b)[0] == a[0] && (a + b)[1..] == a[1..] + b;
      NormsJoin(a[1..], b);
    }
  }

  lemma TakenOut(b: seq<Item>, j: nat)
    requires j < |b|
    ensures multiset(b[..j] + b[j + 1..]) == multiset(b) - multiset{b[j]}
    ensures Norms(b) == multiset{NormOf(b[j])} + Norms(b[..j] + b[j + 1..])
  {
    hide Norms, NormOf;
    var before, after := b[..j], b[j + 1..];
    var tail := [b[j]] + after;
    assert b == before + tail;
    assert multiset(b) == multiset(before) + (multiset{b[j]} + multiset(after));
    NormsJoin(before, after);
    NormsJoin(before, tail);
    NormsJoin([b[j]], after);
    OneNorm(b[j]);
  }

  /** Order does not matter. */
  lemma {:induction false} NormsPermuted(a: seq<Item>, b: seq<Item>)
    requires multiset(a) == multiset(b)
    ensures Norms(a) == Norms(b)
    decreases |a|
  {
    hide NormOf;
    if a == [] {
      assert |multiset(b)| == |b|;
    } else {
      assert a == [a[0]] + a[1..];
      assert a[0] in multiset(b);
      var j :| 0 <= j < |b| && b[j] == a[0];
      var rest := b[..j] + b[j + 1..];
      TakenOut(b, j);
      assert multiset(a) == multiset{a[0]} + multiset(a[1..]);
      assert multiset(a[1..]) == multiset(a) - multiset{a[0]};
      NormsPermuted(a[1..], rest);
    }
  }

  /** The two impls or traits that would be merged member by member share their heads and have unique members. */
  predicate MergeableImpls(b: Item, m: Item) {
    b.kind == m.kind && HasMembers(b) && !SameText(b, m) ==>
      && b.head == m.head
      && (forall i, j :: 0 <= i < j < |b.members| ==> b.members[i].key != b.members[j].key)
      && (forall i, j :: 0 <= i < j < |m.members| ==> m.members[i].key != m.members[j].key)
  }

  /** What the projection onto the minio file needs of two groups of one key. */
  ghost predicate Mergeable(base: seq<Item>, minio: seq<Item>) {
    && UniqueKeys(base, SubKeyOf) && UniqueKeys(minio, SubKeyOf)
    && (forall b, m :: b in base && m in minio ==> b.key == m.key)
    && (forall b, m :: b in base && m in minio && b.subKey == m.subKey ==> MergeableImpls(b, m))
  }

  lemma ShortSeen(out: seq<Piece>, minio: bool)
    requires 1 <= |out| <= 2
    ensures Seen(out, minio) == SeenOf(out[0], minio) + (if |out| == 2 then SeenOf(out[1], minio) else [])
  {
    hide SeenOf;
    if |out| == 2 { assert out[1..][1..] == []; } else { assert out[1..] == []; }
  }

  lemma OneNorm(x: Item)
    ensures Norms([x]) == multiset{NormOf(x)}
  {
    assert [x][1..] == [];
  }

  /** Members merged and seen by minio: the minio item, up to member order. */
  lemma MixedSeen(b: Item, m: Item)
    requires MergeableImpls(b, m) && b.kind == m.kind && HasMembers(b) && !SameText(b, m)
    requires b.key == m.key && b.subKey == m.subKey
    ensures NormOf(b.(members := Kept(MergedMembers(b.members, m.members), true))) == NormOf(m)
  {
    hide Kept, MergedMembers, SameText, HasMembers;
    MergedMembersKept(b.members, m.members);
  }

  lemma EmitOneSeen(b: Item, minio: seq<Item>)
    requires forall m <- minio :: b.key == m.key && (b.subKey == m.subKey ==> MergeableImpls(b, m))
    ensures var m := Counterpart(b.subKey, minio, SubKeyOf);
            Norms(Seen(EmitOne(b, minio), true)) == (if m.Some? then multiset{NormOf(m.value)} else multiset{})
  {
    hide Seen, Norms, MergedMembers, Kept, MergeableImpls, Counterpart, HasMembers, NormOf;
    var m := Counterpart(b.subKey, minio, SubKeyOf);
    var out := EmitOne(b, minio);
    ShortSeen(out, true);
    if m.None? {
      NoNorms();
    } else {
      CounterpartIs(b, minio);
      OneNorm(m.value);
      if SameText(b, m.value) {
        assert b == m.value;
        assert Seen(out, true) == [b];
      } else if b.kind == m.value.kind && HasMembers(b) {
        MixedSeen(b, m.value);
        OneNorm(b.(members := Kept(MergedMembers(b.members, m.value.members), true)));
        assert Seen(out, true) == [b.(members := Kept(MergedMembers(b.members, m.value.members), true))];
      } else {
        assert Seen(out, true) == [m.value];
      }
    }
  }

  lemma CounterpartIs(b: Item, minio: seq<Item>)
    ensures var m := Counterpart(b.subKey, minio, SubKeyOf);
            m.Some? ==> m.value in minio && m.value.subKey == b.subKey
  {
  }

  lemma NoNorms()
    ensures Norms([]) == multiset{}
  {
  }

  lemma EmitOneBase(b: Item, minio: seq<Item>)
    ensures Seen(EmitOne(b, minio), false) == [b]
  {
    hide Seen, MergedMembers, Kept, Counterpart, HasMembers, SameText;
    var m := Counterpart(b.subKey, minio, SubKeyOf);
    ShortSeen(EmitOne(b, minio), false);
    if m.Some? {
      MergedMembersKept(b.members, m.value.members);
    }
  }

  lemma {:induction false} EmitFromBase(base: seq<Item>, minio: seq<Item>)
    ensures Seen(EmitFrom(base, minio), false) == base
  {
    hide EmitOne, SeenOf;
    if base != [] {
      EmitOneBase(base[0], minio);
      EmitFromBase(base[1..], minio);
      SeenJoins(EmitOne(base[0], minio), EmitFrom(base[1..], minio), false);
      assert base == [base[0]] + base[1..];
    }
  }

  lemma {:induction false} EmitFromMinio(base: seq<Item>, minio: seq<Item>)
    requires forall b, m :: b in base && m in minio ==>
                              b.key == m.key && (b.subKey == m.subKey ==> MergeableImpls(b, m))
    ensures Norms(Seen(EmitFrom(base, minio), true)) == Norms(Matched(base, minio, SubKeyOf))
  {
    hide EmitOne, Seen, MergeableImpls, NormOf, Norms, Counterpart;
    if base == [] {
      assert EmitFrom(base, minio) == [] && Matched(base, minio, SubKeyOf) == [];
      NothingSeen();
    } else {
      assert base[0] in base;
      EmitOneSeen(base[0], minio);
      EmitFromMinio(base[1..], minio);
      SeenJoins(EmitOne(base[0], minio), EmitFrom(base[1..], minio), true);
      NormsJoin(Seen(EmitOne(base[0], minio), true), Seen(EmitFrom(base[1..], minio), true));
      var m := Counterpart(base[0].subKey, minio, SubKeyOf);
      assert SubKeyOf(base[0]) == base[0].subKey;
      if m.Some? {
        NormsJoin([m.value], Matched(base[1..], minio, SubKeyOf));
        OneNorm(m.value);
      } else {
        assert Matched(base, minio, SubKeyOf) == Matched(base[1..], minio, SubKeyOf);
      }
    }
  }

  lemma NothingSeen()
    ensures Seen([], true) == []
  {
  }

  /** A merged group shows its base items to the base, in order, and its minio items to minio. */
  lemma EmitGroupSeen(base: seq<Item>, minio: seq<Item>)
    ensures Seen(EmitGroup(base, minio), false) == base
    ensures Mergeable(base, minio) ==> Norms(Seen(EmitGroup(base, minio), true)) == Norms(minio)
  {
    hide Seen, Norms, MergeableImpls, Matched, Unmatched, EmitFrom;
    var rest := Unmatched(minio, base, SubKeyOf);
    EmitFromBase(base, minio);
    SeenJoins(EmitFrom(base, minio), Wholes(rest, Minio), false);
    SeenJoins(EmitFrom(base, minio), Wholes(rest, Minio), true);
    SeenWholes(rest, Minio, false);
    SeenWholes(rest, Minio, true);
    if Mergeable(base, minio) {
      EmitFromMinio(base, minio);
      MatchedAndRest(base, minio, SubKeyOf);
      NormsJoin(Seen(EmitFrom(base, minio), true), rest);
      var matched := Matched(base, minio, SubKeyOf);
      NormsJoin(matched, rest);
      NormsPermuted(matched + rest, minio);
    }
  }

  lemma {:induction false} MatchedSame(base: seq<Item>, minio: seq<Item>)
    requires forall b <- base :: var m := Counterpart(b.subKey, minio, SubKeyOf); m.Some? && m.value == b
    ensures Matched(base, minio, SubKeyOf) == base
  {
    if base != [] {
      assert base[0] in base;
      MatchedSame(base[1..], minio);
      assert base == [base[0]] + base[1..];
    }
  }

  /** Groups found to be the same hold the same items. */
  lemma SameGroupSeen(base: seq<Item>, minio: seq<Item>)
    requires SameGroup(base, minio) && Mergeable(base, minio)
    ensures Norms(base) == Norms(minio)
  {
    hide MergeableImpls, Norms;
    forall b <- base ensures var m := Counterpart(b.subKey, minio, SubKeyOf); m.Some? && m.value == b {
    }
    MatchedSame(base, minio);
    MatchedAndRest(base, minio, SubKeyOf);
    assert |multiset(minio)| == |minio| && |multiset(base)| == |base|;
    assert multiset(base) == multiset(minio);
    NormsPermuted(base, minio);
  }

  lemma {:induction false} EmitFromMore(base: seq<Item>, b: Item, minio: seq<Item>)
    ensures EmitFrom(base + [b], minio) == EmitFrom(base, minio) + EmitOne(b, minio)
  {
    hide EmitOne;
    if base == [] {
      assert (base + [b])[1..] == [];
    } else {
      assert (base + [b])[0] == base[0] && (base + [b])[1..] == base[1..] + [b];
      EmitFromMore(base[1..], b, minio);
    }
  }

  lemma {:induction false} WholesMore(items: seq<Item>, x: Item, gate: Gate)
    ensures Wholes(items + [x], gate) == Wholes(items, gate) + [Whole(x, gate)]
  {
    if items == [] {
      assert (items + [x])[1..] == [];
    } else {
      assert (items + [x])[0] == items[0] && (items + [x])[1..] == items[1..] + [x];
      WholesMore(items[1..], x, gate);
    }
  }

  method EmitGroupMerged(base: seq<Item>, minio: seq<Item>) returns (out: seq<Piece>)
    ensures out == EmitGroup(base, minio)
  {
    hide EmitFrom, Counterpart, Unmatched, Wholes, SameText, HasMembers, MergedMembers;
    out := [];
    NoItems(base, minio);
    for i := 0 to |base|
      invariant out == EmitFrom(base[..i], minio)
    {
      var b := base[i];
      EmitFromMore(base[..i], b, minio);
      assert base[..i + 1] == base[..i] + [b];
      var m := Counterpart(b.subKey, minio, SubKeyOf);
      if m.None? {
        out := out + [Whole(b, NotMinio)];
      } else if SameText(b, m.value) {
        out := out + [Whole(b, Always)];
      } else if b.kind == m.value.kind && HasMembers(b) {
        var piece := EmitImplMerged(b, m.value);
        out := out + [piece];
      } else {
        out := out + [Whole(b, NotMinio), Whole(m.value, Minio)];
      }
    }
    assert base[..|base|] == base;
    for i := 0 to |minio|
      invariant out == EmitFrom(base, minio) + Wholes(Unmatched(minio[..i], base, SubKeyOf), Minio)
    {
      var m := minio[i];
      var sofar := Unmatched(minio[..i], base, SubKeyOf);
      UnmatchedMore(minio[..i], m, base, SubKeyOf);
      WholesMore(sofar, m, Minio);
      assert minio[..i + 1] == minio[..i] + [m];
      assert SubKeyOf(m) == m.subKey && sofar + [] == sofar;
      if Counterpart(m.subKey, base, SubKeyOf).None? {
        assert out + [Whole(m, Minio)] == EmitFrom(base, minio) + (Wholes(sofar, Minio) + [Whole(m, Minio)]);
        out := out + [Whole(m, Minio)];
      }
    }
    assert minio[..|minio|] == minio;
  }

  lemma NoItems(base: seq<Item>, minio: seq<Item>)
    ensures EmitFrom(base[..0], minio) == [] && Wholes(Unmatched(minio[..0], base, SubKeyOf), Minio) == []
  {
  }

  // ----- Whole files

  /** How a base group is emitted. */
  function GroupPieces(g: Group, minio: seq<Group>): seq<Piece> {
    var h := Counterpart(g.key, minio, KeyOfGroup);
    if h.None? || SameGroup(g.items, h.value.items) then Wholes(g.items, Always)
    else EmitGroup(g.items, h.value.items)
  }

  ghost predicate AllMergeable(base: seq<Group>, minio: seq<Group>) {
    forall g, h :: g in base && h in minio && g.key == h.key ==> Mergeable(g.items, h.items)
  }

  lemma GroupPiecesSeen(g: Group, minio: seq<Group>)
    ensures Seen(GroupPieces(g, minio), false) == g.items
    ensures (forall h <- minio :: g.key == h.key ==> Mergeable(g.items, h.items)) ==>
              var h := Counterpart(g.key, minio, KeyOfGroup);
              Norms(Seen(GroupPieces(g, minio), true)) == Norms(if h.Some? then h.value.items else g.items)
  {
    hide Seen, Norms, Mergeable, EmitGroup, SameGroup, Wholes;
    SeenWholes(g.items, Always, false);
    SeenWholes(g.items, Always, true);
    var h := Counterpart(g.key, minio, KeyOfGroup);
    if h.Some? {
      EmitGroupSeen(g.items, h.value.items);
      if SameGroup(g.items, h.value.items) && Mergeable(g.items, h.value.items) {
        SameGroupSeen(g.items, h.value.items);
      }
    }
  }

  function JoinedGroups(s: seq<seq<Group>>): seq<Group> {
    if s == [] then [] else JoinedGroups(s[..|s| - 1]) + s[|s| - 1]
  }

  lemma {:induction false} PushedGroup(s: seq<seq<Group>>, i: nat, g: Group)
    requires i < |s|
    ensures multiset(JoinedGroups(s[i := s[i] + [g]])) == multiset(JoinedGroups(s)) + multiset{g}
    decreases |s|
  {
    var n := |s| - 1;
    var t := s[i := s[i] + [g]];
    if i == n {
      assert t[..n] == s[..n];
    } else {
      assert t[..n] == s[..n][i := s[..n][i] + [g]] && t[n] == s[n];
      PushedGroup(s[..n], i, g);
    }
  }

  lemma {:induction false} NoneJoined(s: seq<seq<Group>>)
    requires forall i :: 0 <= i < |s| ==> s[i] == []
    ensures JoinedGroups(s) == []
  {
    if s != [] {
      NoneJoined(s[..|s| - 1]);
    }
  }

  function IndexOf(k: string, groups: seq<Group>): (r: Option<nat>)
    ensures r.Some? ==> r.value < |groups|
    ensures r.None? <==> Counterpart(k, groups, KeyOfGroup).None?
  {
    if groups == [] then None
    else if groups[0].key == k then Some(0)
    else
      var r := IndexOf(k, groups[1..]);
      if r.None? then None else Some(r.value + 1)
  }

  /** The base group of the last shared group among the first `n` minio groups. */
  function LastShared(base: seq<Group>, minio: seq<Group>, n: nat): Option<nat>
    requires n <= |minio|
  {
    if n == 0 then None
    else
      var at := IndexOf(minio[n - 1].key, base);
      if at.Some? then at else LastShared(base, minio, n - 1)
  }

  /** The minio-only groups among the first `n` that follow this shared group, or none. */
  function AttachedTo(base: seq<Group>, minio: seq<Group>, at: Option<nat>, n: nat): seq<Group>
    requires n <= |minio|
  {
    if n == 0 then []
    else
      AttachedTo(base, minio, at, n - 1)
      + (if IndexOf(minio[n - 1].key, base).None? && LastShared(base, minio, n - 1) == at then [minio[n - 1]] else [])
  }

  function AttachedAll(base: seq<Group>, minio: seq<Group>, n: nat): seq<seq<Group>>
    requires n <= |minio|
  {
    seq(|base|, i requires 0 <= i < |base| => AttachedTo(base, minio, Some(i), n))
  }

  lemma LastSharedInRange(base: seq<Group>, minio: seq<Group>, n: nat)
    requires n <= |minio|
    ensures LastShared(base, minio, n).Some? ==> LastShared(base, minio, n).value < |base|
  {
  }

  /** One more minio group goes behind its shared group, or nowhere, or is shared itself. */
  lemma AttachedMore(base: seq<Group>, minio: seq<Group>, n: nat)
    requires n < |minio|
    ensures var all, last := AttachedAll(base, minio, n), LastShared(base, minio, n);
            && (last.Some? ==> last.value < |base|)
            && AttachedAll(base, minio, n + 1) ==
               if IndexOf(minio[n].key, base).None? && last.Some?
               then all[last.value := all[last.value] + [minio[n]]] else all
  {
    LastSharedInRange(base, minio, n);
    hide LastShared, AttachedTo;
    var all, last := AttachedAll(base, minio, n), LastShared(base, minio, n);
    var moves := IndexOf(minio[n].key, base).None?;
    var now := if moves && last.Some? then all[last.value := all[last.value] + [minio[n]]] else all;
    forall i | 0 <= i < |base| ensures AttachedAll(base, minio, n + 1)[i] == now[i] {
      AttachedStep(base, minio, Some(i), n);
    }
  }

  lemma AttachedStep(base: seq<Group>, minio: seq<Group>, at: Option<nat>, n: nat)
    requires n < |minio|
    ensures AttachedTo(base, minio, at, n + 1) ==
            if IndexOf(minio[n].key, base).None? && LastShared(base, minio, n) == at
            then AttachedTo(base, minio, at, n) + [minio[n]] else AttachedTo(base, minio, at, n)
  {
    hide LastShared, IndexOf;
  }

  /** Every minio-only group is attached or left over exactly once. */
  lemma {:induction false} AttachedOnce(base: seq<Group>, minio: seq<Group>, n: nat)
    requires n <= |minio|
    ensures multiset(JoinedGroups(AttachedAll(base, minio, n))) + multiset(AttachedTo(base, minio, None, n))
         == multiset(Unmatched(minio[..n], base, KeyOfGroup))
  {
    hide JoinedGroups, Unmatched, Counterpart, AttachedAll, LastShared, AttachedTo;
    if n == 0 {
      NoneAttached(base, minio);
      NoneUnmatched(minio, base);
    } else {
      AttachedOnce(base, minio, n - 1);
      AttachedMore(base, minio, n - 1);
      AttachedStep(base, minio, None, n - 1);
      AllOfBase(base, minio, n - 1);
      var all, last := AttachedAll(base, minio, n - 1), LastShared(base, minio, n - 1);
      UnmatchedMore(minio[..n - 1], minio[n - 1], base, KeyOfGroup);
      assert minio[..n] == minio[..n - 1] + [minio[n - 1]];
      assert KeyOfGroup(minio[n - 1]) == minio[n - 1].key;
      if IndexOf(minio[n - 1].key, base).None? && last.Some? {
        PushedGroup(all, last.value, minio[n - 1]);
      }
    }
  }

  lemma AllOfBase(base: seq<Group>, minio: seq<Group>, n: nat)
    requires n <= |minio|
    ensures |AttachedAll(base, minio, n)| == |base|
  {
  }

  lemma NoneAttached(base: seq<Group>, minio: seq<Group>)
    ensures JoinedGroups(AttachedAll(base, minio, 0)) == [] && AttachedTo(base, minio, None, 0) == []
  {
    NoneJoined(AttachedAll(base, minio, 0));
  }

  /** Minio-only groups, each attached to the nearest preceding shared group, or to none. */
  method AttachGroups(base: seq<Group>, minio: seq<Group>)
    returns (attached: seq<seq<Group>>, unanchored: seq<Group>)
    ensures attached == AttachedAll(base, minio, |minio|)
    ensures unanchored == AttachedTo(base, minio, None, |minio|)
  {
    hide AttachedAll;
    attached := seq(|base|, i => []);
    unanchored := [];
    var lastShared: Option<nat> := None;
    StartAttached(base, minio, attached);
    for n := 0 to |minio|
      invariant lastShared == LastShared(base, minio, n)
      invariant attached == AttachedAll(base, minio, n) && |attached| == |base|
      invariant unanchored == AttachedTo(base, minio, None, n)
    {
      AttachedMore(base, minio, n);
      var at := IndexOf(minio[n].key, base);
      if at.Some? {
        lastShared := at;
      } else if lastShared.Some? {
        attached := attached[lastShared.value := attached[lastShared.value] + [minio[n]]];
      } else {
        unanchored := unanchored + [minio[n]];
      }
    }
  }

  lemma StartAttached(base: seq<Group>, minio: seq<Group>, attached: seq<seq<Group>>)
    requires |attached| == |base| && forall i :: 0 <= i < |base| ==> attached[i] == []
    ensures attached == AttachedAll(base, minio, 0)
  {
  }

  lemma NoneUnmatched(minio: seq<Group>, base: seq<Group>)
    ensures Unmatched(minio[..0], base, KeyOfGroup) == []
  {
  }

  /** What minio sees of the first base groups and what is attached to them. */
  ghost function MinioView(base: seq<Group>, minio: seq<Group>, extra: seq<Group>): multiset<Norm> {
    Norms(Flatten(Matched(base, minio, KeyOfGroup))) + Norms(Flatten(Unmatched(base, minio, KeyOfGroup)))
    + Norms(Flatten(extra))
  }

  lemma MinioViewMore(base: seq<Group>, g: Group, minio: seq<Group>, extra: seq<Group>, more: seq<Group>)
    ensures var h := Counterpart(g.key, minio, KeyOfGroup);
            MinioView(base + [g], minio, extra + more) ==
            MinioView(base, minio, extra) + Norms(if h.Some? then h.value.items else g.items) + Norms(Flatten(more))
  {
    hide Norms, Flatten, Matched, Unmatched, Counterpart;
    var matched, rest := Matched(base, minio, KeyOfGroup), Unmatched(base, minio, KeyOfGroup);
    MatchedMore(base, g, minio, KeyOfGroup);
    UnmatchedMore(base, g, minio, KeyOfGroup);
    FlattenJoins(extra, more);
    NormsJoin(Flatten(extra), Flatten(more));
    var h := Counterpart(g.key, minio, KeyOfGroup);
    assert KeyOfGroup(g) == g.key;
    if h.Some? {
      FlattenJoins(matched, [h.value]);
      OneFlat(h.value);
      NormsJoin(Flatten(matched), h.value.items);
      assert rest + [] == rest;
    } else {
      FlattenJoins(rest, [g]);
      OneFlat(g);
      NormsJoin(Flatten(rest), g.items);
      assert matched + [] == matched;
    }
  }

  lemma MinioViewNone(minio: seq<Group>)
    ensures MinioView([], minio, []) == multiset{}
  {
  }

  /** What is seen of some pieces, the base items of them, and what minio sees. */
  ghost predicate SeenSoFar(out: seq<Piece>, base: seq<Group>, minio: seq<Group>, extra: seq<Group>, mergeable: bool) {
    && Seen(out, false) == Flatten(base)
    && (mergeable ==> Norms(Seen(out, true)) == MinioView(base, minio, extra))
  }

  lemma SeenMore(
    out: seq<Piece>, base: seq<Group>, g: Group, minio: seq<Group>,
    extra: seq<Group>, more: seq<Group>, mergeable: bool)
    requires SeenSoFar(out, base, minio, extra, mergeable)
    requires mergeable ==> forall h <- minio :: g.key == h.key ==> Mergeable(g.items, h.items)
    ensures SeenSoFar(
              out + GroupPieces(g, minio) + Wholes(Flatten(more), Minio), base + [g], minio, extra + more, mergeable)
  {
    hide Seen, Norms, Flatten, MinioView, GroupPieces, Wholes, Mergeable;
    var pieces, rest := GroupPieces(g, minio), Wholes(Flatten(more), Minio);
    GroupPiecesSeen(g, minio);
    SeenWholes(Flatten(more), Minio, false);
    SeenWholes(Flatten(more), Minio, true);
    SeenJoins(out, pieces, false);
    SeenJoins(out, pieces, true);
    SeenJoins(out + pieces, rest, false);
    SeenJoins(out + pieces, rest, true);
    FlattenJoins(base, [g]);
    OneFlat(g);
    NormsJoin(Seen(out, true), Seen(pieces, true));
    NormsJoin(Seen(out, true) + Seen(pieces, true), Flatten(more));
    MinioViewMore(base, g, minio, extra, more);
  }

  /** The first `n` base groups, each followed by the minio-only groups attached to it. */
  function PiecesOf(base: seq<Group>, minio: seq<Group>, n: nat): seq<Piece>
    requires n <= |base|
  {
    if n == 0 then []
    else
      PiecesOf(base, minio, n - 1) + GroupPieces(base[n - 1], minio)
      + Wholes(Flatten(AttachedTo(base, minio, Some(n - 1), |minio|)), Minio)
  }

  /** The merged file. */
  function Merged(baseItems: seq<Item>, minioItems: seq<Item>): seq<Piece> {
    var base, minio := Groups(baseItems), Groups(minioItems);
    PiecesOf(base, minio, |base|) + Wholes(Flatten(AttachedTo(base, minio, None, |minio|)), Minio)
  }

  /** The loops emit the merged file: each base group with what is attached to it, then what is left. */
  method MergeFiles(baseItems: seq<Item>, minioItems: seq<Item>) returns (out: seq<Piece>)
    ensures out == Merged(baseItems, minioItems)
  {
    hide Flatten, GroupPieces, Wholes, Groups, AttachedTo;
    var base := GroupItems(baseItems);
    var minio := GroupItems(minioItems);
    var attached, unanchored := AttachGroups(base, minio);
    out := [];
    for i := 0 to |base|
      invariant out == PiecesOf(base, minio, i)
    {
      var pieces := EmitBaseGroup(base[i], minio);
      out := out + pieces;
      var more := EmitMinioGroups(attached[i]);
      out := out + more;
    }
    var more := EmitMinioGroups(unanchored);
    out := out + more;
  }

  lemma {:induction false} PiecesSeen(base: seq<Group>, minio: seq<Group>, n: nat)
    requires n <= |base|
    ensures SeenSoFar(PiecesOf(base, minio, n), base[..n], minio,
                      JoinedGroups(AttachedAll(base, minio, |minio|)[..n]), AllMergeable(base, minio))
  {
    hide Seen, Norms, Flatten, SeenSoFar, GroupPieces, Wholes, Mergeable, JoinedGroups, MinioView, AttachedTo;
    hide AllMergeable;
    var attached := AttachedAll(base, minio, |minio|);
    var mergeable := AllMergeable(base, minio);
    if n == 0 {
      StartSeen(base, minio, attached, mergeable);
    } else {
      var i := n - 1;
      PiecesSeen(base, minio, i);
      GroupMergeable(base, minio, i);
      var sofar := PiecesOf(base, minio, i);
      SeenMore(sofar, base[..i], base[i], minio, JoinedGroups(attached[..i]), attached[i], mergeable);
      JoinedMore(attached, i);
      assert base[..n] == base[..i] + [base[i]];
    }
  }

  /**
   * The merged file, projected onto the base configuration, is the base file's items in the order of its
   * groups; projected onto minio it is the minio file's items, and the items of base groups that the minio
   * file does not have.
   */
  lemma MergedSeen(baseItems: seq<Item>, minioItems: seq<Item>)
    ensures Seen(Merged(baseItems, minioItems), false) == Flatten(Groups(baseItems))
    ensures var base, minio := Groups(baseItems), Groups(minioItems);
            AllMergeable(base, minio) ==>
              Norms(Seen(Merged(baseItems, minioItems), true)) ==
              Norms(minioItems) + Norms(Flatten(Unmatched(base, minio, KeyOfGroup)))
  {
    hide Seen, Norms, Flatten, SeenSoFar, Wholes, Groups, JoinedGroups, Unmatched, AllMergeable, AttachedTo, PiecesOf;
    var base, minio := Groups(baseItems), Groups(minioItems);
    var attached := AttachedAll(base, minio, |minio|);
    PiecesSeen(base, minio, |base|);
    AttachedOnce(base, minio, |minio|);
    assert minio[..|minio|] == minio && base[..|base|] == base && attached[..|base|] == attached;
    AllSeen(PiecesOf(base, minio, |base|), baseItems, minioItems, attached,
            AttachedTo(base, minio, None, |minio|), AllMergeable(base, minio));
  }

  lemma StartSeen(base: seq<Group>, minio: seq<Group>, attached: seq<seq<Group>>, mergeable: bool)
    ensures SeenSoFar([], base[..0], minio, JoinedGroups(attached[..0]), mergeable)
  {
    MinioViewNone(minio);
  }

  lemma JoinedMore(s: seq<seq<Group>>, i: nat)
    requires i < |s|
    ensures JoinedGroups(s[..i + 1]) == JoinedGroups(s[..i]) + s[i]
  {
    assert s[..i + 1][..i] == s[..i];
  }

  lemma GroupMergeable(base: seq<Group>, minio: seq<Group>, i: nat)
    requires i < |base|
    ensures AllMergeable(base, minio) ==>
              forall h <- minio :: base[i].key == h.key ==> Mergeable(base[i].items, h.items)
  {
    hide Mergeable;
  }

  method EmitBaseGroup(g: Group, minio: seq<Group>) returns (out: seq<Piece>)
    ensures out == GroupPieces(g, minio)
  {
    hide SameGroup, EmitGroup, Wholes;
    var h := Counterpart(g.key, minio, KeyOfGroup);
    if h.None? || SameGroup(g.items, h.value.items) {
      out := Wholes(g.items, Always);
    } else {
      out := EmitGroupMerged(g.items, h.value.items);
    }
  }

  method EmitMinioGroups(groups: seq<Group>) returns (out: seq<Piece>)
    ensures out == Wholes(Flatten(groups), Minio)
  {
    hide Flatten;
    out := [];
    NothingFlat();
    for i := 0 to |groups|
      invariant out == Wholes(Flatten(groups[..i]), Minio)
    {
      FlattenJoins(groups[..i], [groups[i]]);
      OneFlat(groups[i]);
      assert groups[..i + 1] == groups[..i] + [groups[i]];
      WholesJoin(Flatten(groups[..i]), groups[i].items, Minio);
      out := out + Wholes(groups[i].items, Minio);
    }
    assert groups[..|groups|] == groups;
  }

  lemma NothingFlat()
    ensures Flatten([]) == []
  {
  }

  lemma {:induction false} WholesJoin(a: seq<Item>, b: seq<Item>, gate: Gate)
    ensures Wholes(a + b, gate) == Wholes(a, gate) + Wholes(b, gate)
  {
    if a == [] {
      assert a + b == b;
    } else {
      assert (a + b)[0] == a[0] && (a + b)[1..] == a[1..] + b;
      WholesJoin(a[1..], b, gate);
    }
  }

  lemma AllSeen(
    out: seq<Piece>, baseItems: seq<Item>, minioItems: seq<Item>,
    attached: seq<seq<Group>>, unanchored: seq<Group>, mergeable: bool)
    requires var base, minio := Groups(baseItems), Groups(minioItems);
             && SeenSoFar(out, base, minio, JoinedGroups(attached), mergeable)
             && multiset(JoinedGroups(attached)) + multiset(unanchored) == multiset(Unmatched(minio, base, KeyOfGroup))
    ensures var base, minio := Groups(baseItems), Groups(minioItems);
            var all := out + Wholes(Flatten(unanchored), Minio);
            && Seen(all, false) == Flatten(base)
            && (mergeable ==>
                  Norms(Seen(all, true)) == Norms(minioItems) + Norms(Flatten(Unmatched(base, minio, KeyOfGroup))))
  {
    hide Seen, Norms, Flatten, Wholes, Matched, Unmatched, JoinedGroups, Groups;
    var base, minio := Groups(baseItems), Groups(minioItems);
    var last := Wholes(Flatten(unanchored), Minio);
    SeenWholes(Flatten(unanchored), Minio, false);
    SeenWholes(Flatten(unanchored), Minio, true);
    SeenJoins(out, last, false);
    SeenJoins(out, last, true);
    NormsJoin(Seen(out, true), Flatten(unanchored));
    GroupsKeepItems(baseItems);
    GroupsKeepItems(minioItems);
    var matched, extra := Matched(base, minio, KeyOfGroup), JoinedGroups(attached);
    MatchedAndRest(base, minio, KeyOfGroup);
    var all := matched + (extra + unanchored);
    assert multiset(all) == multiset(minio);
    FlattenPermuted(all, minio);
    NormsPermuted(Flatten(minio), minioItems);
    NormsPermuted(Flatten(all), Flatten(minio));
    FlattenJoins(matched, extra + unanchored);
    FlattenJoins(extra, unanchored);
    NormsJoin(Flatten(matched), Flatten(extra) + Flatten(unanchored));
    NormsJoin(Flatten(extra), Flatten(unanchored));
  }

  /**
   * In the minio configuration the merged file shows exactly the minio file's items if and only if every
   * key of the base file is also one of the minio file.
   */
  lemma MinioSeesItsOwn(baseItems: seq<Item>, minioItems: seq<Item>)
    requires AllMergeable(Groups(baseItems), Groups(minioItems))
    ensures Norms(Seen(Merged(baseItems, minioItems), true)) == Norms(minioItems) <==>
            KeysOf(baseItems) <= KeysOf(minioItems)
  {
    hide Norms, Flatten, Groups, Unmatched, Seen, Merged, AllMergeable, KeysOf;
    MergedSeen(baseItems, minioItems);
    OwnItemsOnly(baseItems, minioItems);
  }

  /** It can fail: an item that only the base file has shows in the minio configuration too. */
  lemma BaseOnlyItemShows(item: Item)
    ensures Norms(Seen(Merged([item], []), true)) != Norms([])
  {
    hide Norms, Seen, Merged;
    assert Groups([]) == [];
    assert item.key in KeysOf([item]) && item.key !in KeysOf([]);
    MinioSeesItsOwn([item], []);
  }

  lemma OwnItemsOnly(baseItems: seq<Item>, minioItems: seq<Item>)
    ensures var only := Unmatched(Groups(baseItems), Groups(minioItems), KeyOfGroup);
            Norms(minioItems) + Norms(Flatten(only)) == Norms(minioItems) <==> KeysOf(baseItems) <= KeysOf(minioItems)
  {
    hide Norms, Flatten, Groups, Unmatched;
    var base, minio := Groups(baseItems), Groups(minioItems);
    var only := Unmatched(base, minio, KeyOfGroup);
    OnlyEmpty(baseItems, minioItems);
    if only == [] {
      NothingFlat();
      NoNorms();
    } else {
      GroupsKeepItems(baseItems);
      OnlyWhenMissing(base, minio);
      assert only[0] in only;
      FlatNotEmpty(only);
      NormsCount(Flatten(only));
      assert |Norms(minioItems) + Norms(Flatten(only))| > |Norms(minioItems)|;
    }
  }

  function KeysOf(items: seq<Item>): set<string> {
    set x | x in items :: x.key
  }

  function GroupKeys(groups: seq<Group>): set<string> {
    set g | g in groups :: g.key
  }

  lemma OnlyEmpty(baseItems: seq<Item>, minioItems: seq<Item>)
    ensures Unmatched(Groups(baseItems), Groups(minioItems), KeyOfGroup) == [] <==>
            KeysOf(baseItems) <= KeysOf(minioItems)
  {
    hide Groups, Unmatched, KeysOf;
    var base, minio := Groups(baseItems), Groups(minioItems);
    var only := Unmatched(base, minio, KeyOfGroup);
    SameKeys(baseItems);
    SameKeys(minioItems);
    OnlyWhenMissing(base, minio);
    if only != [] {
      assert only[0] in only && only[0].key in GroupKeys(base) && only[0].key !in GroupKeys(minio);
    } else {
      forall k <- GroupKeys(base) ensures k in GroupKeys(minio) {
        var g :| g in base && g.key == k;
        assert g !in only;
      }
    }
  }

  lemma OnlyWhenMissing(base: seq<Group>, minio: seq<Group>)
    ensures forall g :: g in Unmatched(base, minio, KeyOfGroup) <==> g in base && g.key !in GroupKeys(minio)
  {
    if base != [] {
      OnlyWhenMissing(base[1..], minio);
      assert base == [base[0]] + base[1..];
      var h := Counterpart(base[0].key, minio, KeyOfGroup);
      assert h.Some? ==> h.value in minio && h.value.key == base[0].key;
    }
  }

  /** Items and groups have the same keys. */
  lemma SameKeys(items: seq<Item>)
    ensures KeysOf(items) == GroupKeys(Groups(items))
  {
    hide Groups, Flatten;
    var groups := Groups(items);
    GroupsKeepItems(items);
    forall b <- items ensures b.key in GroupKeys(groups) {
      assert b in multiset(items);
      InSomeGroup(groups, b);
    }
    forall g <- groups ensures g.key in KeysOf(items) {
      assert GroupOk(g);
      InFlat(groups, g);
      var x := g.items[0];
      assert x in g.items && x.key == g.key;
      assert x in Flatten(groups);
      assert x in multiset(Flatten(groups));
      assert x in items;
    }
  }

  lemma {:induction false} InSomeGroup(groups: seq<Group>, b: Item)
    requires b in Flatten(groups) && forall i :: 0 <= i < |groups| ==> GroupOk(groups[i])
    ensures exists g :: g in groups && g.key == b.key
  {
    if b in groups[0].items {
      assert GroupOk(groups[0]) && groups[0] in groups;
    } else {
      InSomeGroup(groups[1..], b);
    }
  }

  lemma {:induction false} InFlat(groups: seq<Group>, g: Group)
    requires g in groups
    ensures forall x <- g.items :: x in Flatten(groups)
  {
    assert groups == [groups[0]] + groups[1..];
    if g != groups[0] {
      InFlat(groups[1..], g);
    }
  }

  lemma {:induction false} NormsCount(items: seq<Item>)
    ensures |Norms(items)| == |items|
  {
    if items != [] {
      NormsCount(items[1..]);
    }
  }

  lemma FlatNotEmpty(groups: seq<Group>)
    requires groups != [] && GroupOk(groups[0])
    ensures Flatten(groups) != []
  {
  }
}
