/** One page of a listing, and following the continuation tokens. */
module Listing {
  import opened Bytes
  import opened Order
  import opened Tree

  // ----- The reference listing

  /** Names strictly increase. */
  ghost predicate Increasing(items: seq<Item>) {
    forall i, j :: 0 <= i < j < |items| ==> Before(items[i].Name(), items[j].Name())
  }

  /** Puts an item in its place, once. */
  function Insert(item: Item, items: seq<Item>): seq<Item> {
    if items == [] || Before(item.Name(), items[0].Name()) then [item] + items
    else if item.Name() == items[0].Name() then items
    else [items[0]] + Insert(item, items[1..])
  }

  /** What a listing shows of the files, in order. */
  function Listed(files: seq<Item>, prefix: string, delimiter: Option<char>): seq<Item>
    requires forall f <- files :: f.Object?
  {
    if files == [] then []
    else
      var shown := Shown(files[0].key, files[0].size, prefix, delimiter);
      var rest := Listed(files[1..], prefix, delimiter);
      if shown.None? then rest else Insert(shown.value, rest)
  }

  /** No two items share a name unless they are the same item. */
  ghost predicate Compatible(item: Item, items: seq<Item>) {
    forall x <- items :: x.Name() == item.Name() ==> x == item
  }

  lemma {:induction false} InsertKeeps(item: Item, items: seq<Item>)
    requires Increasing(items) && Compatible(item, items)
    ensures Increasing(Insert(item, items))
    ensures forall x :: x in Insert(item, items) <==> x == item || x in items
  {
    hide Before;
    if items != [] {
      if Before(item.Name(), items[0].Name()) {
        forall j | 0 <= j < |items| ensures Before(item.Name(), items[j].Name()) {
          if j > 0 {
            BeforeIsTransitive(item.Name(), items[0].Name(), items[j].Name());
          }
        }
      } else if item.Name() != items[0].Name() {
        BeforeIsTotal(item.Name(), items[0].Name());
        InsertKeeps(item, items[1..]);
        var more := Insert(item, items[1..]);
        assert items == [items[0]] + items[1..];
        forall x <- more ensures Before(items[0].Name(), x.Name()) {
          if x != item {
            var j :| 0 <= j < |items[1..]| && items[1..][j] == x;
            assert items[j + 1] == x;
          }
        }
      }
    }
  }

  /** Keys are pairwise different. */
  ghost predicate DistinctNames(items: seq<Item>) {
    forall i, j :: 0 <= i < j < |items| ==> items[i].Name() != items[j].Name()
  }

  /** The file shows as the item. */
  predicate ShowsAs(file: Item, item: Item, prefix: string, delimiter: Option<char>) {
    file.Object? && Shown(file.key, file.size, prefix, delimiter) == Some(item)
  }

  /** An object is never named like a common prefix, and otherwise the name says what is shown. */
  lemma NameDetermines(f: Item, g: Item, a: Item, b: Item, prefix: string, delimiter: Option<char>)
    requires ShowsAs(f, a, prefix, delimiter) && ShowsAs(g, b, prefix, delimiter)
    requires a.Name() == b.Name() && (f.key == g.key ==> f == g)
    ensures a == b
  {
    if a.Object? && b.Common? {
      CommonHasDelimiter(g, b, prefix, delimiter);
    } else if a.Common? && b.Object? {
      CommonHasDelimiter(f, a, prefix, delimiter);
    }
  }

  lemma CommonHasDelimiter(f: Item, a: Item, prefix: string, delimiter: Option<char>)
    requires ShowsAs(f, a, prefix, delimiter) && a.Common?
    ensures delimiter.Some? && |prefix| <= |a.prefix| && delimiter.value in a.prefix[|prefix|..]
  {
    var rest := f.key[|prefix|..];
    var at := Position(rest, delimiter.value);
    assert a.prefix[|prefix|..] == rest[..at.value + 1];
    assert rest[..at.value + 1][at.value] == delimiter.value;
  }

  /** The reference listing is strictly increasing and holds exactly what the files show. */
  lemma {:induction false} ListedExactly(files: seq<Item>, prefix: string, delimiter: Option<char>)
    requires (forall f <- files :: f.Object?) && DistinctNames(files)
    ensures Increasing(Listed(files, prefix, delimiter))
    ensures forall x :: x in Listed(files, prefix, delimiter) <==>
                        exists f :: f in files && ShowsAs(f, x, prefix, delimiter)
  {
    hide Shown;
    if files != [] {
      var rest := files[1..];
      assert files == [files[0]] + rest;
      ListedExactly(rest, prefix, delimiter);
      var items := Listed(rest, prefix, delimiter);
      var shown := Shown(files[0].key, files[0].size, prefix, delimiter);
      if shown.Some? {
        forall x <- items ensures x.Name() == shown.value.Name() ==> x == shown.value {
          var f :| f in rest && ShowsAs(f, x, prefix, delimiter);
          if x.Name() == shown.value.Name() {
            NameDetermines(f, files[0], x, shown.value, prefix, delimiter);
          }
        }
        InsertKeeps(shown.value, items);
        assert ShowsAs(files[0], shown.value, prefix, delimiter);
      }
    }
  }

  // ----- Keys of a tree are different

  /** The part of a string before its first slash. */
  function FirstName(s: string): string {
    if s == [] || s[0] == '/' then [] else [s[0]] + FirstName(s[1..])
  }

  lemma {:induction false} FirstNameIs(name: string, rest: string)
    requires '/' !in name && (rest == "" || rest[0] == '/')
    ensures FirstName(name + rest) == name
  {
    if name == "" {
      assert name + rest == rest;
    } else {
      assert (name + rest)[1..] == name[1..] + rest;
      FirstNameIs(name[1..], rest);
    }
  }

  function Below(dir: string): string {
    if dir == "" then "" else dir + "/"
  }

  /** The key is the directory's path, then the name of one of the entries, then nothing or a slash. */
  ghost predicate KeyOf(key: string, dir: string, es: Entries) {
    HasPrefix(key, Below(dir)) && HasName(es, FirstName(key[|Below(dir)|..]))
  }

  lemma KeyOfEntry(key: string, dir: string, es: Entries)
    requires es.Entry? && WellNamed(es)
    requires key == KeyIn(dir, es.name) || HasPrefix(key, KeyIn(dir, es.name) + "/")
    ensures KeyOf(key, dir, es) && FirstName(key[|Below(dir)|..]) == es.name
  {
    var own := KeyIn(dir, es.name);
    assert own == Below(dir) + es.name;
    var rest := key[|own|..];
    assert key == own + rest by {
      if key != own { assert key[..|own|] == key[..|own| + 1][..|own|] == own; }
    }
    assert rest == "" || rest[0] == '/' by {
      if key != own { assert rest[0] == key[|own|] == key[..|own| + 1][|own|]; }
    }
    assert key[|Below(dir)|..] == es.name + rest;
    FirstNameIs(es.name, rest);
  }

  lemma {:induction false} KeysOfEntries(dir: string, es: Entries)
    requires WellNamed(es)
    ensures forall f <- Files(dir, es) :: KeyOf(f.Name(), dir, es)
    decreases es
  {
    if es.Entry? {
      KeysOfEntries(dir, es.rest);
      EntryKeys(dir, es);
    }
  }

  /** The files of the first entry have its name next. */
  lemma EntryKeys(dir: string, es: Entries)
    requires es.Entry? && WellNamed(es)
    ensures forall f <- Under(KeyIn(dir, es.name), es.node) ::
              KeyOf(f.Name(), dir, es) && FirstName(f.Name()[|Below(dir)|..]) == es.name
  {
    var own := KeyIn(dir, es.name);
    if es.node.Dir? {
      KeysBelow(own, es.node.entries);
    }
    forall f <- Under(own, es.node)
      ensures KeyOf(f.Name(), dir, es) && FirstName(f.Name()[|Below(dir)|..]) == es.name
    {
      KeyOfEntry(f.Name(), dir, es);
    }
  }

  /** A file system holds each key once. */
  lemma {:induction false} KeysDiffer(dir: string, es: Entries)
    requires WellNamed(es)
    ensures DistinctNames(Files(dir, es))
    decreases es
  {
    hide KeyIn, KeyOf;
    if es.Entry? {
      var own := KeyIn(dir, es.name);
      if es.node.Dir? {
        KeysDiffer(own, es.node.entries);
      }
      KeysDiffer(dir, es.rest);
      EntryKeys(dir, es);
      KeysOfEntries(dir, es.rest);
      forall f <- Under(own, es.node), g <- Files(dir, es.rest) ensures f.Name() != g.Name() {
        OtherName(g.Name(), dir, es);
      }
    }
  }

  lemma OtherName(key: string, dir: string, es: Entries)
    requires es.Entry? && WellNamed(es) && KeyOf(key, dir, es.rest)
    ensures |Below(dir)| <= |key| && FirstName(key[|Below(dir)|..]) != es.name
  {
  }

  // ----- Sorting

  /** A strictly increasing list is determined by its elements. */
  lemma {:induction false} SameIncreasing(a: seq<Item>, b: seq<Item>)
    requires Increasing(a) && Increasing(b) && forall x :: x in a <==> x in b
    ensures a == b
  {
    hide Before;
    SameEmpty(a, b);
    if a != [] {
      assert a[0] in b;
      SameFirst(a, b);
      var x := a[0];
      forall y ensures y in a[1..] <==> y in b[1..] {
        NotAgain(a, y);
        NotAgain(b, y);
      }
      SameIncreasing(a[1..], b[1..]);
      assert a == [x] + a[1..] && b == [x] + b[1..];
    }
  }

  lemma SameEmpty(a: seq<Item>, b: seq<Item>)
    requires forall x :: x in a <==> x in b
    ensures a == [] <==> b == []
  {
    assert a != [] ==> a[0] in a;
    assert b != [] ==> b[0] in b;
  }

  lemma NotAgain(a: seq<Item>, y: Item)
    requires a != [] && Increasing(a)
    ensures y in a[1..] <==> y in a && y != a[0]
  {
    hide Before;
    BeforeIsStrict(a[0].Name());
    assert a == [a[0]] + a[1..];
    assert forall j :: 1 <= j < |a| ==> a[j] != a[0];
  }

  lemma SameFirst(a: seq<Item>, b: seq<Item>)
    requires a != [] && b != [] && Increasing(a) && Increasing(b) && a[0] in b && b[0] in a
    ensures a[0] == b[0]
  {
    hide Before;
    var i :| 0 <= i < |a| && a[i] == b[0];
    var j :| 0 <= j < |b| && b[j] == a[0];
    if i > 0 && j > 0 {
      BeforeIsAsymmetric(a[0].Name(), a[i].Name());
    }
  }

  /** The standard library's sort by key: a stable insertion. */
  function SortObjects(objects: seq<Item>): seq<Item> {
    if objects == [] then [] else InsertSorted(objects[0], SortObjects(objects[1..]))
  }

  function InsertSorted(item: Item, items: seq<Item>): seq<Item> {
    if items == [] || AtMost(item.Name(), items[0].Name()) then [item] + items
    else [items[0]] + InsertSorted(item, items[1..])
  }

  /** Names do not decrease. */
  ghost predicate Ordered(items: seq<Item>) {
    forall i, j :: 0 <= i < j < |items| ==> AtMost(items[i].Name(), items[j].Name())
  }

  lemma {:induction false} InsertSortedHolds(item: Item, items: seq<Item>)
    ensures multiset(InsertSorted(item, items)) == multiset(items) + multiset{item}
    ensures forall x :: x in InsertSorted(item, items) <==> x == item || x in items
  {
    hide AtMost;
    if items != [] {
      assert items == [items[0]] + items[1..];
      if !AtMost(item.Name(), items[0].Name()) {
        InsertSortedHolds(item, items[1..]);
      }
    }
  }

  lemma {:induction false} InsertSortedOrders(item: Item, items: seq<Item>)
    requires Ordered(items)
    ensures Ordered(InsertSorted(item, items))
  {
    hide AtMost;
    if items != [] {
      var first := items[0].Name();
      if AtMost(item.Name(), first) {
        forall j | 0 <= j < |items| ensures AtMost(item.Name(), items[j].Name()) {
          if j > 0 { AtMostIsTransitive(item.Name(), first, items[j].Name()); }
        }
      } else {
        AtMostIsTotal(item.Name(), first);
        InsertSortedOrders(item, items[1..]);
        InsertSortedHolds(item, items[1..]);
        var more := InsertSorted(item, items[1..]);
        forall j | 0 <= j < |more| ensures AtMost(first, more[j].Name()) {
          assert more[j] in more;
        }
      }
    }
  }

  lemma {:induction false} SortObjectsSorts(objects: seq<Item>)
    ensures Ordered(SortObjects(objects)) && multiset(SortObjects(objects)) == multiset(objects)
  {
    if objects != [] {
      assert objects == [objects[0]] + objects[1..];
      SortObjectsSorts(objects[1..]);
      InsertSortedOrders(objects[0], SortObjects(objects[1..]));
      InsertSortedHolds(objects[0], SortObjects(objects[1..]));
    }
  }

  lemma {:induction false} DistinctOnce(items: seq<Item>, x: Item)
    requires DistinctNames(items)
    ensures multiset(items)[x] <= 1
  {
    if items != [] {
      var n := |items| - 1;
      assert items == items[..n] + [items[n]];
      DistinctOnce(items[..n], x);
      assert x == items[n] ==> x !in items[..n];
    }
  }

  /** Any order of differently named items sorts to a strictly increasing list. */
  lemma SortedIncreases(items: seq<Item>, sorted: seq<Item>)
    requires DistinctNames(items) && Ordered(sorted) && multiset(sorted) == multiset(items)
    ensures Increasing(sorted) && forall x :: x in sorted <==> x in items
  {
    hide Before;
    assert forall x :: x in sorted <==> x in multiset(sorted);
    assert forall x :: x in items <==> x in multiset(items);
    forall i, j | 0 <= i < j < |sorted| ensures Before(sorted[i].Name(), sorted[j].Name()) {
      DistinctOnce(items, sorted[i]);
      NotTwice(sorted, i, j);
      assert sorted[i] in items && sorted[j] in items;
    }
  }

  /** The common prefixes in their tree-set order. */
  method SortedCommons(commons: set<string>) returns (items: seq<Item>)
    ensures Increasing(items)
    ensures forall x :: x in items <==> x.Common? && x.prefix in commons
  {
    items := [];
    var todo := commons;
    while todo != {}
      invariant todo <= commons && Increasing(items)
      invariant forall x :: x in items <==> x.Common? && x.prefix in commons - todo
      decreases |todo|
    {
      var p :| p in todo;
      InsertKeeps(Common(p), items);
      items := Insert(Common(p), items);
      todo := todo - {p};
    }
  }

  // ----- Objects and common prefixes of a list

  function Select(items: seq<Item>, objects: bool): seq<Item> {
    if items == [] then []
    else (if items[0].Object? == objects then [items[0]] else []) + Select(items[1..], objects)
  }

  lemma {:induction false} SelectIs(items: seq<Item>, objects: bool)
    ensures forall x :: x in Select(items, objects) <==> x in items && x.Object? == objects
    ensures Increasing(items) ==> Increasing(Select(items, objects))
  {
    hide Before;
    if items != [] {
      assert items == [items[0]] + items[1..];
      SelectIs(items[1..], objects);
      var rest := Select(items[1..], objects);
      forall j | 0 <= j < |rest| && Increasing(items) ensures Before(items[0].Name(), rest[j].Name()) {
        assert rest[j] in rest && rest[j] in items[1..];
      }
    }
  }

  lemma {:induction false} SelectJoins(a: seq<Item>, b: seq<Item>, objects: bool)
    ensures Select(a + b, objects) == Select(a, objects) + Select(b, objects)
  {
    if a == [] {
      assert a + b == b;
    } else {
      assert (a + b)[0] == a[0] && (a + b)[1..] == a[1..] + b;
      SelectJoins(a[1..], b, objects);
    }
  }

  /** `retain`: the items whose names come after the marker. */
  function Retain(items: seq<Item>, marker: Option<string>): seq<Item> {
    if items == [] then []
    else (if marker.None? || Before(marker.value, items[0].Name()) then [items[0]] else []) + Retain(items[1..], marker)
  }

  lemma {:induction false} RetainIs(items: seq<Item>, marker: Option<string>)
    ensures forall x :: x in Retain(items, marker) <==>
                        x in items && (marker.Some? ==> Before(marker.value, x.Name()))
    ensures Increasing(items) ==> Increasing(Retain(items, marker))
  {
    hide Before;
    if items != [] {
      assert items == [items[0]] + items[1..];
      RetainIs(items[1..], marker);
      var rest := Retain(items[1..], marker);
      forall j | 0 <= j < |rest| && Increasing(items) ensures Before(items[0].Name(), rest[j].Name()) {
        assert rest[j] in rest && rest[j] in items[1..];
      }
    }
  }

  /** Retaining what comes after an item drops everything up to it. */
  lemma RetainAfter(items: seq<Item>, marker: Option<string>, k: nat)
    requires Increasing(items) && k < |Retain(items, marker)|
    ensures var left := Retain(items, marker);
            Retain(items, Some(left[k].Name())) == left[k + 1..]
  {
    hide Before;
    var left := Retain(items, marker);
    var from := Some(left[k].Name());
    RetainIs(items, marker);
    RetainIs(items, from);
    forall x ensures x in Retain(items, from) <==> x in left[k + 1..] {
      AfterInList(left, k, x);
      if x in Retain(items, from) && marker.Some? {
        assert left[k] in left;
        BeforeIsTransitive(marker.value, left[k].Name(), x.Name());
      }
      if x in left[k + 1..] {
        assert x in left;
      }
    }
    SameIncreasing(Retain(items, from), left[k + 1..]);
  }

  lemma AfterInList(left: seq<Item>, k: nat, x: Item)
    requires Increasing(left) && k < |left|
    ensures x in left[k + 1..] <==> x in left && Before(left[k].Name(), x.Name())
  {
    hide Before;
    if x in left && Before(left[k].Name(), x.Name()) {
      var i :| 0 <= i < |left| && left[i] == x;
      BeforeIsAsymmetric(left[k].Name(), x.Name());
      assert i > k;
      assert left[k + 1..][i - k - 1] == x;
    }
  }

  // ----- One page

  datatype ListRequest = ListRequest(
    prefix: Option<string>, delimiter: Option<char>, maxKeys: Option<int>,
    continuationToken: Option<string>, startAfter: Option<string>
  ) {
    /** `max_keys` is a 32-bit signed integer. */
    predicate InRange() {
      maxKeys.Some? ==> -0x8000_0000 <= maxKeys.value < 0x8000_0000
    }

    /** The prefix without leading slashes; none is the empty one. */
    function Prefix(): string {
      TrimSlashes(if prefix.Some? then prefix.value else "")
    }

    /** Page size: 1000 when not given or negative. */
    function Limit(): nat {
      if maxKeys.Some? && maxKeys.value >= 0 then maxKeys.value else 1000
    }

    /** Where the page resumes: the later of the two markers. */
    function Start(): Option<string> {
      if continuationToken.None? then startAfter
      else if startAfter.None? || !Before(continuationToken.value, startAfter.value) then continuationToken
      else startAfter
    }
  }

  function TrimSlashes(s: string): string {
    if s != [] && s[0] == '/' then TrimSlashes(s[1..]) else s
  }

  datatype Page = Page(
    contents: seq<Item>, commonPrefixes: seq<Item>, keyCount: nat, isTruncated: bool, next: Option<string>)

  /** The page shows the first `limit` of the items and says how to get the rest. */
  ghost predicate PageOf(page: Page, items: seq<Item>, limit: nat) {
    var taken := if limit < |items| then items[..limit] else items;
    && page.contents == Select(taken, true)
    && page.commonPrefixes == Select(taken, false)
    && page.keyCount == |taken|
    && page.isTruncated == (0 < limit < |items|)
    && page.next == if page.isTruncated then Some(items[limit - 1].Name()) else None
  }

  /** The first `n` items are the first `o` objects and the first `p` common prefixes. */
  ghost predicate Taken(items: seq<Item>, n: nat, objects: seq<Item>, o: nat, commons: seq<Item>, p: nat) {
    && n == o + p <= |items| && o <= |objects| && p <= |commons|
    && objects == Select(items, true) && commons == Select(items, false)
    && objects[..o] == Select(items[..n], true) && objects[o..] == Select(items[n..], true)
    && commons[..p] == Select(items[..n], false) && commons[p..] == Select(items[n..], false)
  }

  lemma NoneTaken(items: seq<Item>)
    ensures Taken(items, 0, Select(items, true), 0, Select(items, false), 0)
  {
    assert items[0..] == items;
  }

  /** The next item is the smaller of the next object and the next common prefix. */
  lemma TakeNext(items: seq<Item>, n: nat, objects: seq<Item>, o: nat, commons: seq<Item>, p: nat)
    requires Increasing(items) && Taken(items, n, objects, o, commons, p)
    ensures n == |items| <==> o == |objects| && p == |commons|
    ensures n < |items| ==>
              var isObject := o < |objects| && (p < |commons| ==> Before(objects[o].Name(), commons[p].Name()));
              if isObject then items[n] == objects[o] && Taken(items, n + 1, objects, o + 1, commons, p)
              else p < |commons| && items[n] == commons[p] && Taken(items, n + 1, objects, o, commons, p + 1)
  {
    hide Before, Select, Increasing, Taken;
    TakenWhen(items, n, objects, o, commons, p);
    if n < |items| {
      if items[n].Object? {
        TakeObject(items, n, objects, o, commons, p);
      } else {
        TakeCommon(items, n, objects, o, commons, p);
        if o < |objects| {
          BeforeIsAsymmetric(commons[p].Name(), objects[o].Name());
        }
      }
    }
  }

  lemma TakenWhen(items: seq<Item>, n: nat, objects: seq<Item>, o: nat, commons: seq<Item>, p: nat)
    requires Taken(items, n, objects, o, commons, p)
    ensures n <= |items| && o <= |objects| && p <= |commons|
    ensures n == |items| <==> o == |objects| && p == |commons|
  {
    if n < |items| {
      SelectSplits(items[n..]);
    }
  }

  lemma SelectSplits(s: seq<Item>)
    requires s != []
    ensures Select(s, true) != [] || Select(s, false) != []
  {
  }

  lemma TakeObject(items: seq<Item>, n: nat, objects: seq<Item>, o: nat, commons: seq<Item>, p: nat)
    requires Increasing(items) && Taken(items, n, objects, o, commons, p) && n < |items| && items[n].Object?
    ensures o < |objects| && items[n] == objects[o] && Taken(items, n + 1, objects, o + 1, commons, p)
    ensures p < |commons| ==> Before(objects[o].Name(), commons[p].Name())
  {
    hide Before, Select;
    NextItem(items, n);
    assert objects[o] == objects[o..][0] == items[n];
    assert objects[..o + 1] == objects[..o] + [objects[o]] && objects[o + 1..] == objects[o..][1..];
    if p < |commons| {
      assert commons[p] == commons[p..][0];
    }
  }

  lemma TakeCommon(items: seq<Item>, n: nat, objects: seq<Item>, o: nat, commons: seq<Item>, p: nat)
    requires Increasing(items) && Taken(items, n, objects, o, commons, p) && n < |items| && items[n].Common?
    ensures p < |commons| && items[n] == commons[p] && Taken(items, n + 1, objects, o, commons, p + 1)
    ensures o < |objects| ==> Before(commons[p].Name(), objects[o].Name())
  {
    hide Before, Select;
    NextItem(items, n);
    assert commons[p] == commons[p..][0] == items[n];
    assert commons[..p + 1] == commons[..p] + [commons[p]] && commons[p + 1..] == commons[p..][1..];
    if o < |objects| {
      assert objects[o] == objects[o..][0];
    }
  }

  /** How the two halves of a list change when one item moves from the rest to the front. */
  lemma NextItem(items: seq<Item>, n: nat)
    requires Increasing(items) && n < |items|
    ensures var x, mine := items[n], items[n].Object?;
            && Select(items[..n + 1], mine) == Select(items[..n], mine) + [x]
            && Select(items[..n + 1], !mine) == Select(items[..n], !mine)
            && Select(items[n..], mine) == [x] + Select(items[n + 1..], mine)
            && Select(items[n..], !mine) == Select(items[n + 1..], !mine)
            && (Select(items[n..], !mine) != [] ==> Before(x.Name(), Select(items[n..], !mine)[0].Name()))
  {
    hide Before, Select;
    var rest := items[n..];
    assert rest[1..] == items[n + 1..];
    assert items[..n + 1] == items[..n] + [items[n]];
    SelectJoins(items[..n], [items[n]], true);
    SelectJoins(items[..n], [items[n]], false);
    SelectOne(items[n]);
    FirstOfRest(rest);
  }

  lemma SelectOne(x: Item)
    ensures Select([x], true) == (if x.Object? then [x] else [])
    ensures Select([x], false) == (if x.Object? then [] else [x])
  {
    assert [x][1..] == [];
  }

  lemma FirstOfRest(rest: seq<Item>)
    requires rest != [] && Increasing(rest)
    ensures var mine, other := Select(rest, rest[0].Object?), Select(rest, !rest[0].Object?);
            && mine == [rest[0]] + Select(rest[1..], rest[0].Object?)
            && other == Select(rest[1..], !rest[0].Object?)
            && (other != [] ==> Before(rest[0].Name(), other[0].Name()))
  {
    hide Before;
    var other := Select(rest[1..], !rest[0].Object?);
    assert [] + other == other;
    SelectIs(rest[1..], !rest[0].Object?);
    if other != [] {
      assert other[0] in other && other[0] in rest[1..];
    }
  }

  /** The interleaving of objects and common prefixes, up to the limit. */
  method MergePage(objects: seq<Item>, commons: seq<Item>, limit: nat, ghost items: seq<Item>) returns (page: Page)
    requires Increasing(items) && objects == Select(items, true) && commons == Select(items, false)
    ensures PageOf(page, items, limit)
  {
    hide Before, Taken, Select, Increasing, PageOf;
    var resultObjects, resultPrefixes: seq<Item> := [], [];
    var total, obj, prefix := 0, 0, 0;
    var last: Option<string> := None;
    NoneTaken(items);
    while total < limit
      invariant Taken(items, total, objects, obj, commons, prefix)
      invariant obj <= |objects| && prefix <= |commons| && total <= limit && total <= |items|
      invariant resultObjects == objects[..obj] && resultPrefixes == commons[..prefix]
      invariant if total == 0 then last == None else last == Some(items[total - 1].Name())
      decreases limit - total
    {
      TakeNext(items, total, objects, obj, commons, prefix);
      if obj < |objects| && (prefix < |commons| ==> Before(objects[obj].Name(), commons[prefix].Name())) {
        last := Some(objects[obj].Name());
        resultObjects := resultObjects + [objects[obj]];
        obj := obj + 1;
      } else if prefix < |commons| {
        last := Some(commons[prefix].Name());
        resultPrefixes := resultPrefixes + [commons[prefix]];
        prefix := prefix + 1;
      } else {
        break;
      }
      total := total + 1;
    }
    TakeNext(items, total, objects, obj, commons, prefix);
    var truncated := limit > 0 && (obj < |objects| || prefix < |commons|);
    var upcoming := NextName(objects, obj, commons, prefix);
    var next := if !truncated then None else if last.Some? then last else upcoming;
    page := Page(resultObjects, resultPrefixes, total, truncated, next);
    TakenIs(page, items, total, objects, obj, commons, prefix, limit);
  }

  /** The name that would come next. */
  function NextName(objects: seq<Item>, obj: nat, commons: seq<Item>, prefix: nat): Option<string> {
    if obj < |objects| && (prefix < |commons| ==> Before(objects[obj].Name(), commons[prefix].Name())) then
      Some(objects[obj].Name())
    else if prefix < |commons| then Some(commons[prefix].Name())
    else None
  }

  lemma TakenIs(
    page: Page, items: seq<Item>, n: nat, objects: seq<Item>, o: nat, commons: seq<Item>, p: nat, limit: nat)
    requires Taken(items, n, objects, o, commons, p)
    requires n <= limit && (n == limit || n == |items|)
    requires page.contents == objects[..o] && page.commonPrefixes == commons[..p] && page.keyCount == n
    requires page.isTruncated == (0 < limit && n < |items|)
    requires page.next == if page.isTruncated then Some(items[n - 1].Name()) else None
    ensures PageOf(page, items, limit)
  {
    hide Select;
    assert n == |items| ==> items[..n] == items;
  }

  // ----- The whole operation

  lemma {:induction false} ObjectsAre(files: seq<Item>, prefix: string, delimiter: Option<char>)
    requires forall f <- files :: f.Object?
    ensures forall x :: x in ObjectsOf(files, prefix, delimiter) <==>
                        x.Object? && exists f :: f in files && ShowsAs(f, x, prefix, delimiter)
  {
    hide Shown;
    if files != [] {
      assert files == [files[0]] + files[1..];
      ObjectsAre(files[1..], prefix, delimiter);
      var shown := Shown(files[0].key, files[0].size, prefix, delimiter);
      forall x ensures ShowsAs(files[0], x, prefix, delimiter) <==> shown == Some(x) {
      }
    }
  }

  lemma {:induction false} ObjectsDiffer(files: seq<Item>, prefix: string, delimiter: Option<char>)
    requires (forall f <- files :: f.Object?) && DistinctNames(files)
    ensures DistinctNames(ObjectsOf(files, prefix, delimiter))
  {
    hide Shown, ShowsAs;
    if files != [] {
      var rest := ObjectsOf(files[1..], prefix, delimiter);
      ObjectsDiffer(files[1..], prefix, delimiter);
      forall j | 0 <= j < |rest| ensures files[0].key != rest[j].Name() {
        ObjectIsFile(files[1..], prefix, delimiter, rest[j]);
      }
      ShownIs(files[0], prefix, delimiter);
    }
  }

  lemma ObjectIsFile(files: seq<Item>, prefix: string, delimiter: Option<char>, x: Item)
    requires (forall f <- files :: f.Object?) && x in ObjectsOf(files, prefix, delimiter)
    ensures x in files
  {
    hide ObjectsOf, Shown;
    ObjectsAre(files, prefix, delimiter);
    var f :| f in files && ShowsAs(f, x, prefix, delimiter);
    ShownKey(f, prefix, delimiter);
  }

  lemma ShownIs(file: Item, prefix: string, delimiter: Option<char>)
    requires file.Object?
    ensures var shown := Shown(file.key, file.size, prefix, delimiter);
            shown.Some? && shown.value.Object? ==> shown.value == file
  {
  }

  lemma ShownKey(file: Item, prefix: string, delimiter: Option<char>)
    requires file.Object?
    ensures forall x: Item :: x.Object? && ShowsAs(file, x, prefix, delimiter) ==> x == file
  {
  }

  lemma {:induction false} CommonsAre(files: seq<Item>, prefix: string, delimiter: Option<char>)
    requires forall f <- files :: f.Object?
    ensures forall p :: p in CommonsOf(files, prefix, delimiter) <==>
                        exists f :: f in files && ShowsAs(f, Common(p), prefix, delimiter)
  {
    hide Shown;
    if files != [] {
      assert files == [files[0]] + files[1..];
      CommonsAre(files[1..], prefix, delimiter);
      var shown := Shown(files[0].key, files[0].size, prefix, delimiter);
      forall p
        ensures ShowsAs(files[0], Common(p), prefix, delimiter) <==>
                shown.Some? && shown.value.Common? && shown.value.prefix == p
      {
      }
    }
  }

  lemma NothingRolledUp(files: seq<Item>, prefix: string)
    requires forall f <- files :: f.Object?
    ensures forall f, x :: f in files && ShowsAs(f, x, prefix, None) ==> x.Object?
  {
  }

  /** The two collected lists are the two halves of the reference listing. */
  lemma CollectedHalves(
    files: seq<Item>, prefix: string, delimiter: Option<char>, objects: seq<Item>, commons: seq<Item>)
    requires (forall f <- files :: f.Object?) && DistinctNames(files)
    requires multiset(objects) == multiset(ObjectsOf(files, prefix, delimiter))
    requires Increasing(commons)
    requires forall x :: x in commons <==> x.Common? && exists f :: f in files && ShowsAs(f, x, prefix, delimiter)
    ensures SortObjects(objects) == Select(Listed(files, prefix, delimiter), true)
    ensures commons == Select(Listed(files, prefix, delimiter), false)
  {
    hide ShowsAs, Listed, ObjectsOf, SortObjects, Select, Increasing, Ordered;
    var all := Listed(files, prefix, delimiter);
    ListedExactly(files, prefix, delimiter);
    SelectIs(all, true);
    SelectIs(all, false);
    SortObjectsSorts(objects);
    ObjectsAre(files, prefix, delimiter);
    ObjectsDiffer(files, prefix, delimiter);
    SortedIncreases(ObjectsOf(files, prefix, delimiter), SortObjects(objects));
    SameIncreasing(SortObjects(objects), Select(all, true));
    SameIncreasing(commons, Select(all, false));
  }

  lemma RetainHalf(all: seq<Item>, marker: Option<string>, objects: bool)
    requires Increasing(all)
    ensures Retain(Select(all, objects), marker) == Select(Retain(all, marker), objects)
  {
    hide Retain, Select, Increasing, Before;
    SelectIs(all, objects);
    RetainIs(all, marker);
    RetainIs(Select(all, objects), marker);
    SelectIs(Retain(all, marker), objects);
    SameIncreasing(Retain(Select(all, objects), marker), Select(Retain(all, marker), objects));
  }

  /** What a request lists, from its resume point on. */
  ghost function ListedFrom(bucket: Entries, req: ListRequest, start: Option<string>): seq<Item> {
    FilesAreObjects("", bucket);
    Retain(Listed(Files("", bucket), req.Prefix(), req.delimiter), start)
  }

  /**
   * A listing is strictly increasing, and holds exactly the unrolled keys and the common prefixes that
   * come after the resume point.
   */
  lemma ListedFromExactly(bucket: Entries, req: ListRequest, start: Option<string>)
    requires WellNamed(bucket)
    ensures var all := ListedFrom(bucket, req, start);
            && Increasing(all)
            && forall x :: x in all <==>
                           && (exists f :: f in Files("", bucket) && ShowsAs(f, x, req.Prefix(), req.delimiter))
                           && (start.Some? ==> Before(start.value, x.Name()))
  {
    hide Before, Retain, Listed, Files, ShowsAs;
    FilesAreObjects("", bucket);
    KeysDiffer("", bucket);
    ListedExactly(Files("", bucket), req.Prefix(), req.delimiter);
    RetainIs(Listed(Files("", bucket), req.Prefix(), req.delimiter), start);
  }

  /** One page of a bucket's listing; `None` when there is no such bucket. */
  method ListObjectsV2(bucket: Option<Entries>, req: ListRequest) returns (r: Option<Page>)
    requires bucket.Some? ==> WellNamed(bucket.value)
    requires req.InRange()
    ensures r.Some? <==> bucket.Some?
    ensures r.Some? ==> PageOf(r.value, ListedFrom(bucket.value, req, req.Start()), req.Limit())
  {
    hide Retain, Select, Increasing, Before, PageOf, Listed, ObjectsOf, CommonsOf, Files, ShowsAs, SortObjects;
    hide DistinctNames;
    if bucket.None? {
      return None;
    }
    ghost var files := Files("", bucket.value);
    KeysDiffer("", bucket.value);
    FilesAreObjects("", bucket.value);
    ghost var all := Listed(files, req.Prefix(), req.delimiter);
    ListedExactly(files, req.Prefix(), req.delimiter);
    var objects;
    var commons: set<string> := {};
    if req.delimiter.Some? {
      objects, commons := ListObjectsWithDelimiter(bucket.value, req.Prefix(), req.delimiter.value);
      CommonsAre(files, req.Prefix(), req.delimiter);
    } else {
      objects := ListObjectsRecursive(bucket.value, req.Prefix());
      NothingRolledUp(files, req.Prefix());
    }
    var prefixes := SortedCommons(commons);
    CollectedHalves(files, req.Prefix(), req.delimiter, objects, prefixes);
    RetainHalf(all, req.Start(), true);
    RetainHalf(all, req.Start(), false);
    RetainIs(all, req.Start());
    var page := MergePage(
      Retain(SortObjects(objects), req.Start()), Retain(prefixes, req.Start()), req.Limit(), Retain(all, req.Start()));
    r := Some(page);
  }

  /** A client that follows the continuation tokens, with any page sizes but zero. */
  method ListEverything(bucket: Entries, req: ListRequest, sizes: nat -> Option<int>)
    returns (contents: seq<Item>, commons: seq<Item>, pages: nat)
    requires WellNamed(bucket) && req.continuationToken.None?
    requires forall i :: req.(maxKeys := sizes(i)).InRange() && sizes(i) != Some(0)
    ensures var all := ListedFrom(bucket, req, req.startAfter);
            contents == Select(all, true) && commons == Select(all, false) && pages <= |all| + 1
  {
    hide Select, PageOf, Before, ListedFrom, Files;
    ghost var all := ListedFrom(bucket, req, req.startAfter);
    contents, commons, pages := [], [], 0;
    ghost var seen := 0;
    var token: Option<string> := None;
    var more := true;
    NoneListed(all);
    while more
      invariant seen <= |all| && pages <= seen + (if more then 0 else 1)
      invariant contents == Select(all[..seen], true) && commons == Select(all[..seen], false)
      invariant more ==> token == if seen == 0 then None else Some(all[seen - 1].Name())
      invariant !more ==> seen == |all|
      decreases more, |all| - seen
    {
      var now := req.(maxKeys := sizes(pages), continuationToken := token);
      var page := ListObjectsV2(Some(bucket), now);
      Resumes(bucket, req, now, seen);
      seen := NextSeen(page.value, all, seen, now.Limit(), contents, commons);
      contents := contents + page.value.contents;
      commons := commons + page.value.commonPrefixes;
      pages := pages + 1;
      more := page.value.isTruncated;
      token := page.value.next;
    }
    assert all[..|all|] == all;
  }

  lemma NoneListed(all: seq<Item>)
    ensures Select(all[..0], true) == [] && Select(all[..0], false) == []
  {
  }

  /** With the token of the last item seen, the next page starts right behind it. */
  lemma Resumes(bucket: Entries, req: ListRequest, now: ListRequest, seen: nat)
    requires WellNamed(bucket) && req.continuationToken.None?
    requires var all := ListedFrom(bucket, req, req.startAfter);
             && seen <= |all|
             && now == req.(maxKeys := now.maxKeys,
                            continuationToken := if seen == 0 then None else Some(all[seen - 1].Name()))
    ensures ListedFrom(bucket, now, now.Start()) == ListedFrom(bucket, req, req.startAfter)[seen..]
  {
    hide Before, Retain, Listed, Files, TrimSlashes, Increasing;
    var all := ListedFrom(bucket, req, req.startAfter);
    assert now.Prefix() == req.Prefix();
    FilesAreObjects("", bucket);
    KeysDiffer("", bucket);
    var whole := Listed(Files("", bucket), req.Prefix(), req.delimiter);
    ListedExactly(Files("", bucket), req.Prefix(), req.delimiter);
    RetainIs(whole, req.startAfter);
    if seen > 0 {
      assert all[seen - 1] in all;
      if req.startAfter.Some? {
        BeforeIsAsymmetric(req.startAfter.value, all[seen - 1].Name());
      }
      RetainAfter(whole, req.startAfter, seen - 1);
    }
  }

  lemma NextSeen(page: Page, all: seq<Item>, seen: nat, limit: nat, contents: seq<Item>, commons: seq<Item>)
    returns (next: nat)
    requires seen <= |all| && PageOf(page, all[seen..], limit) && limit > 0
    requires contents == Select(all[..seen], true) && commons == Select(all[..seen], false)
    ensures seen <= next <= |all|
    ensures contents + page.contents == Select(all[..next], true)
    ensures commons + page.commonPrefixes == Select(all[..next], false)
    ensures page.isTruncated ==> next > seen && page.next == Some(all[next - 1].Name())
    ensures !page.isTruncated ==> next == |all|
  {
    hide Select;
    var items := all[seen..];
    next := if limit < |items| then seen + limit else |all|;
    var taken := if limit < |items| then items[..limit] else items;
    assert all[..next] == all[..seen] + taken;
    SelectJoins(all[..seen], taken, true);
    SelectJoins(all[..seen], taken, false);
  }
}
