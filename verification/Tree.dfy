/** A bucket on disk: a directory tree, its keys, and the two walks that collect what a listing shows. */
module Tree {
  import opened Bytes
  import opened Order

  /** A file with its size, or a directory. */
  datatype Node = File(size: nat) | Dir(entries: Entries)

  /** Directory entries in the order in which they are read. */
  datatype Entries = NoMore | Entry(name: string, node: Node, rest: Entries)

  /** A line of a listing: an object, or a common prefix that stands for the keys below it. */
  datatype Item = Object(key: string, size: nat) | Common(prefix: string) {
    function Name(): string {
      match this
      case Object(k, _) => k
      case Common(p) => p
    }
  }

  /** What a file system guarantees: names are not empty, hold no slash and differ within a directory. */
  predicate WellNamed(es: Entries) {
    match es
    case NoMore => true
    case Entry(name, node, rest) =>
      && name != "" && '/' !in name && !HasName(rest, name)
      && (node.Dir? ==> WellNamed(node.entries)) && WellNamed(rest)
  }

  predicate HasName(es: Entries, name: string) {
    es.Entry? && (es.name == name || HasName(es.rest, name))
  }

  /** The key of an entry of the directory `dir`: its path from the bucket, joined by slashes. */
  function KeyIn(dir: string, name: string): string {
    if dir == "" then name else dir + "/" + name
  }

  /** Every file of the directory `dir`, with its key. */
  function Files(dir: string, es: Entries): seq<Item>
    decreases es
  {
    match es
    case NoMore => []
    case Entry(name, node, rest) => Under(KeyIn(dir, name), node) + Files(dir, rest)
  }

  function Under(key: string, node: Node): seq<Item>
    decreases node
  {
    match node
    case File(size) => [Object(key, size)]
    case Dir(es) => Files(key, es)
  }

  predicate HasPrefix(s: string, prefix: string) {
    |prefix| <= |s| && s[..|prefix|] == prefix
  }

  /** The first position of a character. */
  function Position(s: string, c: char): (r: Option<nat>)
    ensures r.Some? ==> r.value < |s| && s[r.value] == c && c !in s[..r.value]
    ensures r.None? ==> c !in s
  {
    if s == [] then None
    else if s[0] == c then Some(0)
    else
      var r := Position(s[1..], c);
      if r.Some? then
        assert s[..r.value + 1] == [s[0]] + s[1..][..r.value];
        Some(r.value + 1)
      else None
  }

  /** How a file shows in a listing: by its key, rolled up at the first delimiter past the prefix, or not at all. */
  function Shown(key: string, size: nat, prefix: string, delimiter: Option<char>): Option<Item> {
    if !HasPrefix(key, prefix) then None
    else if delimiter.None? then Some(Object(key, size))
    else
      var at := Position(key[|prefix|..], delimiter.value);
      if at.None? then Some(Object(key, size)) else Some(Common(prefix + key[|prefix|..][..at.value + 1]))
  }

  // ----- What the files show

  function ObjectsOf(files: seq<Item>, prefix: string, delimiter: Option<char>): seq<Item>
    requires forall f <- files :: f.Object?
  {
    if files == [] then []
    else ObjectOf(files[0], prefix, delimiter) + ObjectsOf(files[1..], prefix, delimiter)
  }

  function CommonsOf(files: seq<Item>, prefix: string, delimiter: Option<char>): set<string>
    requires forall f <- files :: f.Object?
  {
    if files == [] then {}
    else CommonOf(files[0], prefix, delimiter) + CommonsOf(files[1..], prefix, delimiter)
  }

  lemma {:induction false} FilesAreObjects(dir: string, es: Entries)
    ensures forall f <- Files(dir, es) :: f.Object?
    decreases es
  {
    if es.Entry? {
      FilesAreObjects(dir, es.rest);
      if es.node.Dir? {
        FilesAreObjects(KeyIn(dir, es.name), es.node.entries);
      }
    }
  }

  /** What one file adds to the objects, and to the common prefixes. */
  function ObjectOf(file: Item, prefix: string, delimiter: Option<char>): seq<Item>
    requires file.Object?
  {
    var shown := Shown(file.key, file.size, prefix, delimiter);
    if shown.Some? && shown.value.Object? then [shown.value] else []
  }

  function CommonOf(file: Item, prefix: string, delimiter: Option<char>): set<string>
    requires file.Object?
  {
    var shown := Shown(file.key, file.size, prefix, delimiter);
    if shown.Some? && shown.value.Common? then {shown.value.prefix} else {}
  }

  lemma ObjectsJoin(a: seq<Item>, b: seq<Item>, prefix: string, delimiter: Option<char>)
    requires (forall f <- a :: f.Object?) && forall f <- b :: f.Object?
    ensures ObjectsOf(a + b, prefix, delimiter) == ObjectsOf(a, prefix, delimiter) + ObjectsOf(b, prefix, delimiter)
    ensures CommonsOf(a + b, prefix, delimiter) == CommonsOf(a, prefix, delimiter) + CommonsOf(b, prefix, delimiter)
  {
    JoinObjects(a, b, prefix, delimiter);
    JoinCommons(a, b, prefix, delimiter);
  }

  lemma {:induction false} JoinObjects(a: seq<Item>, b: seq<Item>, prefix: string, delimiter: Option<char>)
    requires (forall f <- a :: f.Object?) && forall f <- b :: f.Object?
    ensures ObjectsOf(a + b, prefix, delimiter) == ObjectsOf(a, prefix, delimiter) + ObjectsOf(b, prefix, delimiter)
  {
    hide ObjectOf;
    if a == [] {
      assert a + b == b;
    } else {
      var all := a + b;
      assert all[0] == a[0] && all[1..] == a[1..] + b;
      JoinObjects(a[1..], b, prefix, delimiter);
    }
  }

  lemma {:induction false} JoinCommons(a: seq<Item>, b: seq<Item>, prefix: string, delimiter: Option<char>)
    requires (forall f <- a :: f.Object?) && forall f <- b :: f.Object?
    ensures CommonsOf(a + b, prefix, delimiter) == CommonsOf(a, prefix, delimiter) + CommonsOf(b, prefix, delimiter)
  {
    hide CommonOf;
    if a == [] {
      assert a + b == b;
    } else {
      var all := a + b;
      assert all[0] == a[0] && all[1..] == a[1..] + b;
      JoinCommons(a[1..], b, prefix, delimiter);
    }
  }

  // ----- Pruning

  /** Every file below a directory has the directory's path and a slash before it. */
  lemma {:induction false} KeysBelow(dir: string, es: Entries)
    requires dir != ""
    ensures forall f <- Files(dir, es) :: HasPrefix(f.Name(), dir + "/")
    decreases es
  {
    if es.Entry? {
      KeysBelow(dir, es.rest);
      var key := KeyIn(dir, es.name);
      assert HasPrefix(key, dir + "/");
      if es.node.Dir? {
        KeysBelow(key, es.node.entries);
        forall f <- Files(key, es.node.entries) ensures HasPrefix(f.Name(), dir + "/") {
          var n := |dir| + 1;
          assert f.Name()[..n] == f.Name()[..|key| + 1][..n] == (key + "/")[..n] == key[..n];
        }
      }
    }
  }

  /** A directory that is neither before nor below the prefix. */
  predicate Prunable(dir: string, prefix: string) {
    !HasPrefix(prefix, dir) && !HasPrefix(dir, prefix)
  }

  lemma {:induction false} NoneShown(files: seq<Item>, dir: string, prefix: string, delimiter: Option<char>)
    requires forall f <- files :: f.Object? && HasPrefix(f.Name(), dir)
    requires Prunable(dir, prefix)
    ensures ObjectsOf(files, prefix, delimiter) == [] && CommonsOf(files, prefix, delimiter) == {}
  {
    if files != [] {
      var key := files[0].key;
      NoneShown(files[1..], dir, prefix, delimiter);
      assert files[0] in files;
      Comparable(key, dir, prefix);
    }
  }

  lemma Comparable(key: string, a: string, b: string)
    ensures HasPrefix(key, a) && HasPrefix(key, b) ==> HasPrefix(a, b) || HasPrefix(b, a)
  {
    if HasPrefix(key, a) && HasPrefix(key, b) {
      if |b| <= |a| {
        assert a[..|b|] == key[..|a|][..|b|] == key[..|b|];
      } else {
        assert b[..|a|] == key[..|b|][..|a|] == key[..|a|];
      }
    }
  }

  /** Pruning loses no match. */
  lemma PrunedShowsNothing(dir: string, es: Entries, prefix: string, delimiter: Option<char>)
    requires dir != "" && Prunable(dir, prefix)
    ensures forall f <- Files(dir, es) :: f.Object?
    ensures ObjectsOf(Files(dir, es), prefix, delimiter) == [] && CommonsOf(Files(dir, es), prefix, delimiter) == {}
  {
    FilesAreObjects(dir, es);
    KeysBelow(dir, es);
    forall f <- Files(dir, es) ensures HasPrefix(f.Name(), dir) {
      assert f.Name()[..|dir|] == f.Name()[..|dir| + 1][..|dir|] == dir;
    }
    NoneShown(Files(dir, es), dir, prefix, delimiter);
  }

  // ----- The queue of directories

  type Queue = seq<(string, Entries)>

  function Pending(queue: Queue): seq<Item> {
    if queue == [] then [] else Files(queue[0].0, queue[0].1) + Pending(queue[1..])
  }

  function NodeSize(node: Node): nat {
    match node
    case File(_) => 0
    case Dir(es) => 1 + Size(es)
  }

  function Size(es: Entries): nat {
    match es
    case NoMore => 0
    case Entry(_, node, rest) => NodeSize(node) + Size(rest)
  }

  function QueueSize(queue: Queue): nat {
    if queue == [] then 0 else 1 + Size(queue[0].1) + QueueSize(queue[1..])
  }

  lemma {:induction false} Enqueued(queue: Queue, dir: string, es: Entries)
    ensures Pending(queue + [(dir, es)]) == Pending(queue) + Files(dir, es)
    ensures QueueSize(queue + [(dir, es)]) == QueueSize(queue) + 1 + Size(es)
  {
    var more := queue + [(dir, es)];
    if queue == [] {
      assert more == [(dir, es)] && more[1..] == [];
      assert Files(dir, es) + [] == Files(dir, es);
    } else {
      assert more[0] == queue[0] && more[1..] == queue[1..] + [(dir, es)];
      Enqueued(queue[1..], dir, es);
      assert Files(queue[0].0, queue[0].1) + (Pending(queue[1..]) + Files(dir, es))
          == (Files(queue[0].0, queue[0].1) + Pending(queue[1..])) + Files(dir, es);
    }
  }

  lemma {:induction false} PendingAreObjects(queue: Queue)
    ensures forall f <- Pending(queue) :: f.Object?
  {
    if queue != [] {
      FilesAreObjects(queue[0].0, queue[0].1);
      PendingAreObjects(queue[1..]);
    }
  }

  /** What the walk still has to show: the unread entries of the open directory, and the queue. */
  ghost function LeftObjects(
    dir: string, es: Entries, queue: Queue, prefix: string, delimiter: Option<char>): multiset<Item>
  {
    FilesAreObjects(dir, es);
    PendingAreObjects(queue);
    multiset(ObjectsOf(Files(dir, es), prefix, delimiter)) + multiset(ObjectsOf(Pending(queue), prefix, delimiter))
  }

  ghost function LeftCommons(
    dir: string, es: Entries, queue: Queue, prefix: string, delimiter: Option<char>): set<string>
  {
    FilesAreObjects(dir, es);
    PendingAreObjects(queue);
    CommonsOf(Files(dir, es), prefix, delimiter) + CommonsOf(Pending(queue), prefix, delimiter)
  }

  /** Opening the first directory of the queue. */
  lemma Opened(queue: Queue, prefix: string, delimiter: Option<char>)
    requires queue != []
    ensures var d := queue[0];
            && LeftObjects("", NoMore, queue, prefix, delimiter) == LeftObjects(d.0, d.1, queue[1..], prefix, delimiter)
            && LeftCommons("", NoMore, queue, prefix, delimiter) == LeftCommons(d.0, d.1, queue[1..], prefix, delimiter)
  {
    var d := queue[0];
    FilesAreObjects(d.0, d.1);
    PendingAreObjects(queue[1..]);
    PendingAreObjects(queue);
    ObjectsJoin(Files(d.0, d.1), Pending(queue[1..]), prefix, delimiter);
  }

  lemma Closed(dir: string, queue: Queue, prefix: string, delimiter: Option<char>)
    ensures LeftObjects(dir, NoMore, queue, prefix, delimiter) == LeftObjects("", NoMore, queue, prefix, delimiter)
    ensures LeftCommons(dir, NoMore, queue, prefix, delimiter) == LeftCommons("", NoMore, queue, prefix, delimiter)
  {
  }

  lemma FilesUnfold(dir: string, es: Entries)
    requires es.Entry?
    ensures Files(dir, es) == Under(KeyIn(dir, es.name), es.node) + Files(dir, es.rest)
    ensures es.node.File? ==> Under(KeyIn(dir, es.name), es.node) == [Object(KeyIn(dir, es.name), es.node.size)]
    ensures es.node.Dir? ==> Under(KeyIn(dir, es.name), es.node) == Files(KeyIn(dir, es.name), es.node.entries)
  {
  }

  lemma OneObject(file: Item, prefix: string, delimiter: Option<char>)
    requires file.Object?
    ensures var shown := Shown(file.key, file.size, prefix, delimiter);
            && ObjectsOf([file], prefix, delimiter) ==
               (if shown.Some? && shown.value.Object? then [shown.value] else [])
            && CommonsOf([file], prefix, delimiter) ==
               (if shown.Some? && shown.value.Common? then {shown.value.prefix} else {})
  {
    hide Shown;
    assert [file][1..] == [];
  }

  /** Reading a file. */
  lemma FileRead(dir: string, es: Entries, queue: Queue, prefix: string, delimiter: Option<char>)
    requires es.Entry? && es.node.File?
    ensures var shown := Shown(KeyIn(dir, es.name), es.node.size, prefix, delimiter);
            && LeftObjects(dir, es, queue, prefix, delimiter) ==
               LeftObjects(dir, es.rest, queue, prefix, delimiter)
               + (if shown.Some? && shown.value.Object? then multiset{shown.value} else multiset{})
            && LeftCommons(dir, es, queue, prefix, delimiter) ==
               LeftCommons(dir, es.rest, queue, prefix, delimiter)
               + (if shown.Some? && shown.value.Common? then {shown.value.prefix} else {})
  {
    hide Shown, ObjectsOf, CommonsOf, Files, Under, Pending;
    var file := Object(KeyIn(dir, es.name), es.node.size);
    FilesAreObjects(dir, es.rest);
    PendingAreObjects(queue);
    FilesUnfold(dir, es);
    OneObject(file, prefix, delimiter);
    ObjectsJoin([file], Files(dir, es.rest), prefix, delimiter);
  }

  /** Queueing a directory. */
  lemma DirQueued(dir: string, es: Entries, queue: Queue, prefix: string, delimiter: Option<char>)
    requires es.Entry? && es.node.Dir?
    ensures var more := queue + [(KeyIn(dir, es.name), es.node.entries)];
            && LeftObjects(dir, es, queue, prefix, delimiter) == LeftObjects(dir, es.rest, more, prefix, delimiter)
            && LeftCommons(dir, es, queue, prefix, delimiter) == LeftCommons(dir, es.rest, more, prefix, delimiter)
            && QueueSize(more) + Size(es.rest) == QueueSize(queue) + Size(es)
  {
    hide ObjectsOf, CommonsOf, Files, Under, Pending, QueueSize;
    var key := KeyIn(dir, es.name);
    FilesUnfold(dir, es);
    Enqueued(queue, key, es.node.entries);
    FilesAreObjects(key, es.node.entries);
    FilesAreObjects(dir, es.rest);
    PendingAreObjects(queue);
    ObjectsJoin(Files(key, es.node.entries), Files(dir, es.rest), prefix, delimiter);
    ObjectsJoin(Pending(queue), Files(key, es.node.entries), prefix, delimiter);
  }

  /** Skipping a directory. */
  lemma DirPruned(dir: string, es: Entries, queue: Queue, prefix: string, delimiter: Option<char>)
    requires es.Entry? && es.node.Dir? && es.name != "" && Prunable(KeyIn(dir, es.name), prefix)
    ensures LeftObjects(dir, es, queue, prefix, delimiter) == LeftObjects(dir, es.rest, queue, prefix, delimiter)
    ensures LeftCommons(dir, es, queue, prefix, delimiter) == LeftCommons(dir, es.rest, queue, prefix, delimiter)
  {
    hide ObjectsOf, CommonsOf, Files, Under, Pending;
    var key := KeyIn(dir, es.name);
    FilesUnfold(dir, es);
    PrunedShowsNothing(key, es.node.entries, prefix, delimiter);
    FilesAreObjects(dir, es.rest);
    ObjectsJoin(Files(key, es.node.entries), Files(dir, es.rest), prefix, delimiter);
  }

  // ----- The walks

  /** All queued and open directories are well named. */
  predicate QueueNamed(queue: Queue) {
    forall d <- queue :: WellNamed(d.1)
  }

  /** The walk without a delimiter: every directory is read. */
  method ListObjectsRecursive(bucket: Entries, prefix: string) returns (objects: seq<Item>)
    requires WellNamed(bucket)
    ensures forall f <- Files("", bucket) :: f.Object?
    ensures multiset(objects) == multiset(ObjectsOf(Files("", bucket), prefix, None))
  {
    hide ObjectsOf, Files, Pending, CommonsOf, LeftObjects, LeftCommons, QueueSize;
    var queue: Queue := [("", bucket)];
    objects := [];
    ghost var all := LeftObjects("", NoMore, queue, prefix, None);
    while queue != []
      invariant multiset(objects) + LeftObjects("", NoMore, queue, prefix, None) == all
      decreases QueueSize(queue)
    {
      var dir, iter := queue[0].0, queue[0].1;
      Opened(queue, prefix, None);
      Popped(queue);
      ghost var budget := QueueSize(queue);
      queue := queue[1..];
      while iter != NoMore
        invariant multiset(objects) + LeftObjects(dir, iter, queue, prefix, None) == all
        invariant QueueSize(queue) + Size(iter) < budget
        decreases iter
      {
        if iter.node.Dir? {
          DirQueued(dir, iter, queue, prefix, None);
          queue := queue + [(KeyIn(dir, iter.name), iter.node.entries)];
        } else {
          FileRead(dir, iter, queue, prefix, None);
          var key := KeyIn(dir, iter.name);
          if prefix == "" || HasPrefix(key, prefix) {
            objects := objects + [Object(key, iter.node.size)];
          }
        }
        iter := iter.rest;
      }
      Closed(dir, queue, prefix, None);
    }
    AllOf(bucket, prefix, None);
  }

  /** The walk with a delimiter: directories that cannot hold a match are skipped, keys are rolled up. */
  method ListObjectsWithDelimiter(bucket: Entries, prefix: string, delimiter: char)
    returns (objects: seq<Item>, commons: set<string>)
    requires WellNamed(bucket)
    ensures forall f <- Files("", bucket) :: f.Object?
    ensures multiset(objects) == multiset(ObjectsOf(Files("", bucket), prefix, Some(delimiter)))
    ensures commons == CommonsOf(Files("", bucket), prefix, Some(delimiter))
  {
    hide ObjectsOf, Files, Pending, CommonsOf, LeftObjects, LeftCommons, QueueSize;
    var queue: Queue := [("", bucket)];
    objects, commons := [], {};
    ghost var split := Some(delimiter);
    ghost var all := LeftObjects("", NoMore, queue, prefix, split);
    ghost var allCommons := LeftCommons("", NoMore, queue, prefix, split);
    while queue != []
      invariant QueueNamed(queue)
      invariant multiset(objects) + LeftObjects("", NoMore, queue, prefix, split) == all
      invariant commons + LeftCommons("", NoMore, queue, prefix, split) == allCommons
      decreases QueueSize(queue)
    {
      var dir, iter := queue[0].0, queue[0].1;
      Opened(queue, prefix, split);
      Popped(queue);
      ghost var budget := QueueSize(queue);
      queue := queue[1..];
      while iter != NoMore
        invariant QueueNamed(queue) && WellNamed(iter)
        invariant multiset(objects) + LeftObjects(dir, iter, queue, prefix, split) == all
        invariant commons + LeftCommons(dir, iter, queue, prefix, split) == allCommons
        invariant QueueSize(queue) + Size(iter) < budget
        decreases iter
      {
        var key := KeyIn(dir, iter.name);
        var skip := false;
        if prefix != "" && !HasPrefix(key, prefix) {
          skip := iter.node.File? || (!HasPrefix(prefix, key) && !HasPrefix(key, prefix));
        }
        if iter.node.Dir? {
          if skip {
            DirPruned(dir, iter, queue, prefix, split);
          } else {
            DirQueued(dir, iter, queue, prefix, split);
            queue := queue + [(key, iter.node.entries)];
          }
        } else {
          FileRead(dir, iter, queue, prefix, split);
          if !skip {
            var remaining := key[|prefix|..];
            var at := Position(remaining, delimiter);
            if at.Some? {
              commons := commons + {prefix + remaining[..at.value + 1]};
            } else {
              objects := objects + [Object(key, iter.node.size)];
            }
          }
        }
        iter := iter.rest;
      }
      Closed(dir, queue, prefix, split);
    }
    AllOf(bucket, prefix, split);
  }

  lemma Popped(queue: Queue)
    requires queue != []
    ensures QueueSize(queue[1..]) + Size(queue[0].1) < QueueSize(queue)
  {
  }

  lemma AllOf(bucket: Entries, prefix: string, delimiter: Option<char>)
    ensures forall f <- Files("", bucket) :: f.Object?
    ensures LeftObjects("", NoMore, [("", bucket)], prefix, delimiter)
            == multiset(ObjectsOf(Files("", bucket), prefix, delimiter))
    ensures LeftCommons("", NoMore, [("", bucket)], prefix, delimiter)
            == CommonsOf(Files("", bucket), prefix, delimiter)
    ensures LeftObjects("", NoMore, [], prefix, delimiter) == multiset{}
    ensures LeftCommons("", NoMore, [], prefix, delimiter) == {}
  {
    FilesAreObjects("", bucket);
    var queue: Queue := [("", bucket)];
    assert queue[1..] == [];
    assert Pending(queue) == Files("", bucket) + [] == Files("", bucket);
  }
}
