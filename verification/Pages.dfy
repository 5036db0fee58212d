/** What a page shows, said of the request's own fields, the paths of the files and the characters of their keys. */
module Pages {
  import opened Bytes
  import opened Order
  import opened Tree
  import opened Listing

  // ----- Order

  /** One string ends, or has the smaller character, where they first differ. */
  ghost predicate Earlier(a: string, b: string) {
    exists i: nat :: FirstDifference(a, b, i)
  }

  predicate FirstDifference(a: string, b: string, i: nat) {
    i <= |a| && i < |b| && a[..i] == b[..i] && (i == |a| || a[i] < b[i])
  }

  lemma {:induction false} EarlierIs(a: string, b: string)
    ensures Before(a, b) <==> Earlier(a, b)
    decreases |a|
  {
    if i: nat :| FirstDifference(a, b, i) {
      if i == |a| {
        assert b == a + b[i..] && a == a + [];
        BeforeBehind(a, [], b[i..]);
      } else {
        BeforeAt(a, b, i);
      }
    }
    if Before(a, b) {
      var i := Difference(a, b);
    }
  }

  lemma {:induction false} Difference(a: string, b: string) returns (i: nat)
    requires Before(a, b)
    ensures FirstDifference(a, b, i)
  {
    if a == [] || a[0] < b[0] {
      i := 0;
    } else {
      var j := Difference(a[1..], b[1..]);
      i := j + 1;
      assert a[..i] == [a[0]] + a[1..][..j] && b[..i] == [b[0]] + b[1..][..j];
    }
  }

  // ----- Files and their keys

  /** The names of `path`, one directory inside the other, lead to a file. */
  predicate FileAt(es: Entries, path: seq<string>, size: nat)
    decreases es
  {
    path != [] && es.Entry? && (EntryAt(es.name, es.node, path, size) || FileAt(es.rest, path, size))
  }

  predicate EntryAt(name: string, node: Node, path: seq<string>, size: nat)
    requires path != []
    decreases node
  {
    && name == path[0]
    && match node
       case File(n) => |path| == 1 && n == size
       case Dir(entries) => FileAt(entries, path[1..], size)
  }

  /** Names joined by slashes. */
  function Slashed(path: seq<string>): string {
    if path == [] then ""
    else if |path| == 1 then path[0]
    else path[0] + "/" + Slashed(path[1..])
  }

  function Inside(dir: string, key: string): string {
    if dir == "" then key else dir + "/" + key
  }

  ghost predicate HasFile(es: Entries, key: string, size: nat) {
    exists path :: FileAt(es, path, size) && Slashed(path) == key
  }

  ghost predicate HasFileIn(dir: string, es: Entries, key: string, size: nat) {
    exists path :: FileAt(es, path, size) && Inside(dir, Slashed(path)) == key
  }

  ghost predicate EntryIn(dir: string, name: string, node: Node, key: string, size: nat) {
    exists path :: path != [] && EntryAt(name, node, path, size) && Inside(dir, Slashed(path)) == key
  }

  /** The collected files are those that a path leads to, each under the names of its path. */
  lemma {:induction false} FilesAre(dir: string, es: Entries, key: string, size: nat)
    requires WellNamed(es)
    ensures Object(key, size) in Files(dir, es) <==> HasFileIn(dir, es, key, size)
    decreases es
  {
    hide Slashed, Inside;
    if es.Entry? {
      FilesAre(dir, es.rest, key, size);
      UnderAre(dir, es.name, es.node, key, size);
      if path :| FileAt(es, path, size) && Inside(dir, Slashed(path)) == key {
        assert EntryIn(dir, es.name, es.node, key, size) || HasFileIn(dir, es.rest, key, size);
      }
      if path :| path != [] && EntryAt(es.name, es.node, path, size) && Inside(dir, Slashed(path)) == key {
        assert FileAt(es, path, size);
      }
      if path :| FileAt(es.rest, path, size) && Inside(dir, Slashed(path)) == key {
        assert FileAt(es, path, size);
      }
    }
  }

  lemma {:induction false} UnderAre(dir: string, name: string, node: Node, key: string, size: nat)
    requires name != "" && (node.Dir? ==> WellNamed(node.entries))
    ensures Object(key, size) in Under(KeyIn(dir, name), node) <==> EntryIn(dir, name, node, key, size)
    decreases node
  {
    var own := KeyIn(dir, name);
    match node
    case File(n) =>
      assert Slashed([name]) == name;
      if Object(key, size) in Under(own, node) {
        assert EntryAt(name, node, [name], size) && Inside(dir, Slashed([name])) == key;
      }
    case Dir(entries) =>
      FilesAre(own, entries, key, size);
      if path :| FileAt(entries, path, size) && Inside(own, Slashed(path)) == key {
        var longer := [name] + path;
        Deeper(dir, name, path);
        assert longer[1..] == path;
        assert EntryAt(name, node, longer, size);
      }
      if path :| path != [] && EntryAt(name, node, path, size) && Inside(dir, Slashed(path)) == key {
        assert FileAt(entries, path[1..], size);
        Deeper(dir, name, path[1..]);
        assert path == [name] + path[1..];
      }
  }

  lemma Deeper(dir: string, name: string, path: seq<string>)
    requires name != "" && path != []
    ensures Inside(dir, Slashed([name] + path)) == Inside(KeyIn(dir, name), Slashed(path))
  {
    var longer := [name] + path;
    assert longer[1..] == path;
    assert dir + "/" + (name + "/" + Slashed(path)) == dir + "/" + name + "/" + Slashed(path);
  }

  // ----- What a file shows as

  /**
   * A file shows as itself if its key has the prefix and no delimiter behind it, and as a common prefix
   * if that runs through the first delimiter behind the prefix.
   */
  ghost predicate Shows(key: string, size: nat, prefix: string, delimiter: Option<char>, item: Item) {
    match item
    case Object(k, n) =>
      k == key && n == size && exists tail :: ShowsWhole(key, prefix, tail, delimiter)
    case Common(p) =>
      delimiter.Some? && exists mid, tail :: ShowsRolled(key, prefix, mid, tail, delimiter.value, p)
  }

  predicate ShowsWhole(key: string, prefix: string, tail: string, delimiter: Option<char>) {
    key == prefix + tail && (delimiter.Some? ==> delimiter.value !in tail)
  }

  predicate ShowsRolled(key: string, prefix: string, mid: string, tail: string, delimiter: char, common: string) {
    key == prefix + mid + [delimiter] + tail && delimiter !in mid && common == prefix + mid + [delimiter]
  }

  lemma ShowsIs(key: string, size: nat, prefix: string, delimiter: Option<char>, item: Item)
    ensures Shows(key, size, prefix, delimiter, item) <==> Shown(key, size, prefix, delimiter) == Some(item)
  {
    hide Position;
    if tail :| ShowsWhole(key, prefix, tail, delimiter) {
      assert key[..|prefix|] == prefix && key[|prefix|..] == tail;
    }
    if delimiter.Some? && item.Common? {
      if mid, tail :| ShowsRolled(key, prefix, mid, tail, delimiter.value, item.prefix) {
        RolledIs(key, prefix, mid, tail, delimiter.value);
      }
    }
    if Shown(key, size, prefix, delimiter) == Some(item) {
      ShownSplits(key, size, prefix, delimiter, item);
    }
  }

  lemma RolledIs(key: string, prefix: string, mid: string, tail: string, delimiter: char)
    requires key == prefix + mid + [delimiter] + tail && delimiter !in mid
    ensures HasPrefix(key, prefix) && Position(key[|prefix|..], delimiter) == Some(|mid|)
    ensures prefix + key[|prefix|..][..|mid| + 1] == prefix + mid + [delimiter]
  {
    hide Position;
    var rest := key[|prefix|..];
    assert key[..|prefix|] == prefix && rest == mid + [delimiter] + tail;
    var at := Position(rest, delimiter);
    assert rest[|mid|] == delimiter;
    assert rest[..|mid|] == mid;
    assert at.Some?;
    assert rest[..|mid| + 1] == mid + [delimiter];
  }

  lemma ShownSplits(key: string, size: nat, prefix: string, delimiter: Option<char>, item: Item)
    requires Shown(key, size, prefix, delimiter) == Some(item)
    ensures Shows(key, size, prefix, delimiter, item)
  {
    hide Position;
    var tail := key[|prefix|..];
    assert key == prefix + tail;
    if item.Object? {
      assert ShowsWhole(key, prefix, tail, delimiter);
    } else {
      var at := Position(tail, delimiter.value).value;
      assert tail == tail[..at] + [delimiter.value] + tail[at + 1..];
      assert tail[..at + 1] == tail[..at] + [delimiter.value];
      assert ShowsRolled(key, prefix, tail[..at], tail[at + 1..], delimiter.value, item.prefix);
    }
  }

  // ----- The request

  predicate AllSlashes(s: string) {
    forall i :: 0 <= i < |s| ==> s[i] == '/'
  }

  /** `p` is what is asked for: nothing in particular, or the prefix behind its leading slashes. */
  ghost predicate AsksFor(req: ListRequest, p: string) {
    if req.prefix.None? then p == ""
    else exists s :: AllSlashes(s) && req.prefix.value == s + p && (p == "" || p[0] != '/')
  }

  lemma AsksForPrefix(req: ListRequest, p: string)
    ensures AsksFor(req, p) <==> p == req.Prefix()
  {
    if req.prefix.Some? {
      var s := Trimmed(req.prefix.value);
      if s1 :| AllSlashes(s1) && req.prefix.value == s1 + p && (p == "" || p[0] != '/') {
        TrimmedIs(s1, p);
      }
    }
  }

  lemma {:induction false} Trimmed(text: string) returns (s: string)
    ensures AllSlashes(s) && text == s + TrimSlashes(text)
    ensures TrimSlashes(text) == "" || TrimSlashes(text)[0] != '/'
  {
    if text != [] && text[0] == '/' {
      var t := Trimmed(text[1..]);
      s := "/" + t;
      assert text == "/" + text[1..];
    } else {
      s := "";
    }
  }

  lemma {:induction false} TrimmedIs(s: string, p: string)
    requires AllSlashes(s) && (p == "" || p[0] != '/')
    ensures TrimSlashes(s + p) == p
  {
    if s == "" {
      assert s + p == p;
    } else {
      assert (s + p)[1..] == s[1..] + p;
      TrimmedIs(s[1..], p);
    }
  }

  /** The item lies behind everything the request has seen. */
  ghost predicate Behind(req: ListRequest, name: string) {
    && (req.continuationToken.Some? ==> Earlier(req.continuationToken.value, name))
    && (req.startAfter.Some? ==> Earlier(req.startAfter.value, name))
  }

  lemma BehindIs(req: ListRequest, name: string)
    ensures Behind(req, name) <==> (req.Start().Some? ==> Before(req.Start().value, name))
  {
    hide Before, Earlier;
    var a, b := req.continuationToken, req.startAfter;
    if a.Some? {
      EarlierIs(a.value, name);
    }
    if b.Some? {
      EarlierIs(b.value, name);
    }
    if a.Some? && b.Some? {
      BeforeIsTotal(a.value, b.value);
      if Before(a.value, b.value) && Before(b.value, name) {
        BeforeIsTransitive(a.value, b.value, name);
      }
      if Before(b.value, a.value) && Before(a.value, name) {
        BeforeIsTransitive(b.value, a.value, name);
      }
    }
  }

  /** Some file with the prefix shows as the item, behind the start. */
  ghost predicate OnList(bucket: Entries, req: ListRequest, p: string, item: Item) {
    Behind(req, item.Name())
    && exists key, size :: HasFile(bucket, key, size) && Shows(key, size, p, req.delimiter, item)
  }

  lemma OnListIs(bucket: Entries, req: ListRequest, p: string, item: Item)
    requires WellNamed(bucket) && AsksFor(req, p)
    ensures OnList(bucket, req, p, item) <==> item in ListedFrom(bucket, req, req.Start())
  {
    hide AsksFor, Behind, Shows, HasFile, Files, ListedFrom, Before, Shown;
    AsksForPrefix(req, p);
    BehindIs(req, item.Name());
    ListedFromExactly(bucket, req, req.Start());
    forall key, size
      ensures HasFile(bucket, key, size) <==> Object(key, size) in Files("", bucket)
      ensures Shows(key, size, p, req.delimiter, item) <==> ShowsAs(Object(key, size), item, p, req.delimiter)
    {
      InBucket(bucket, key, size);
      ShowsIs(key, size, p, req.delimiter, item);
    }
  }

  lemma InBucket(bucket: Entries, key: string, size: nat)
    requires WellNamed(bucket)
    ensures HasFile(bucket, key, size) <==> Object(key, size) in Files("", bucket)
  {
    FilesAre("", bucket, key, size);
  }

  // ----- The page

  /** The objects, or the common prefixes, among these items, in order. */
  ghost predicate Those(items: seq<Item>, objects: bool, all: seq<Item>) {
    Increasing(items) && forall x :: x in items <==> x in all && x.Object? == objects
  }

  /** The first `size` of all items, and how to go on. */
  ghost predicate FirstOf(page: Page, all: seq<Item>, size: nat) {
    var n := if size < |all| then size else |all|;
    && Those(page.contents, true, all[..n]) && Those(page.commonPrefixes, false, all[..n])
    && page.keyCount == n
    && (page.isTruncated <==> 0 < size < |all|)
    && page.next == (if page.isTruncated then Some(all[n - 1].Name()) else None)
  }

  /** All that a request lists, in order, and nothing else. */
  ghost predicate WholeList(bucket: Entries, req: ListRequest, p: string, all: seq<Item>) {
    Increasing(all) && forall x :: x in all <==> OnList(bucket, req, p, x)
  }

  lemma ListedWhole(bucket: Entries, req: ListRequest, p: string)
    requires WellNamed(bucket) && AsksFor(req, p)
    ensures WholeList(bucket, req, p, ListedFrom(bucket, req, req.Start()))
  {
    hide OnList, AsksFor, ListedFrom;
    ListedFromExactly(bucket, req, req.Start());
    forall x ensures x in ListedFrom(bucket, req, req.Start()) <==> OnList(bucket, req, p, x) {
      OnListIs(bucket, req, p, x);
    }
  }

  lemma Halves(all: seq<Item>, n: nat)
    requires Increasing(all) && n <= |all|
    ensures Those(Select(all[..n], true), true, all[..n]) && Those(Select(all[..n], false), false, all[..n])
  {
    hide Before;
    SelectIs(all[..n], true);
    SelectIs(all[..n], false);
  }

  /**
   * A page, from the request's own fields: the first `max_keys` items, or 1000 when there is no such
   * number or it is negative, of all that files with the prefix show behind both markers.
   */
  method RequestPage(bucket: Option<Entries>, req: ListRequest, ghost p: string)
    returns (r: Option<Page>, ghost all: seq<Item>)
    requires bucket.Some? ==> WellNamed(bucket.value)
    requires req.InRange() && AsksFor(req, p)
    ensures r.Some? <==> bucket.Some?
    ensures r.Some? ==>
              && WholeList(bucket.value, req, p, all)
              && FirstOf(r.value, all, if req.maxKeys.Some? && req.maxKeys.value >= 0 then req.maxKeys.value else 1000)
  {
    hide AsksFor, OnList, ListedFrom, WellNamed, Select, Increasing;
    r := ListObjectsV2(bucket, req);
    all := [];
    if bucket.Some? {
      all := ListedFrom(bucket.value, req, req.Start());
      ListedWhole(bucket.value, req, p);
      Halves(all, if req.Limit() < |all| then req.Limit() else |all|);
      assert all[..|all|] == all;
    }
  }

  /** Following the tokens with any page sizes but zero gives each item once, and nothing else. */
  method RequestAll(bucket: Entries, req: ListRequest, sizes: nat -> Option<int>, ghost p: string)
    returns (contents: seq<Item>, commons: seq<Item>)
    requires WellNamed(bucket) && req.continuationToken.None? && AsksFor(req, p)
    requires forall i :: req.(maxKeys := sizes(i)).InRange() && sizes(i) != Some(0)
    ensures Increasing(contents) && forall x :: x in contents <==> x.Object? && OnList(bucket, req, p, x)
    ensures Increasing(commons) && forall x :: x in commons <==> x.Common? && OnList(bucket, req, p, x)
  {
    hide AsksFor, OnList, ListedFrom, WellNamed, Select, Increasing;
    var pages;
    contents, commons, pages := ListEverything(bucket, req, sizes);
    ListedWhole(bucket, req, p);
    ghost var all := ListedFrom(bucket, req, req.Start());
    Halves(all, |all|);
    assert all[..|all|] == all;
  }
}
