/** The cached list of src/main/bookmarks-store.js, the file behind it, and the handlers. */
module BookmarksStore {
  import opened Bookmarks

  /** What a file parses to; a file may also not parse at all. */
  datatype Value = List(items: Items) | NotAList
  datatype File = Holds(value: Value) | Unparsable

  type Path = string
  type Disk = map<Path, File>

  /** What `writeFileSync` does; when it fails it may leave anything, or nothing, under that path. */
  datatype Write = Works | Fails(left: Option<File>)

  datatype Reply = Yes | No | Threw

  /** `readBookmarks` */
  function ReadFrom(disk: Disk, path: Path, defaults: Value): Value {
    if path in disk && disk[path].Holds? then disk[path].value else defaults
  }

  function Written(disk: Disk, path: Path, items: Items, w: Write): Disk {
    match w
    case Works => disk[path := Holds(List(items))]
    case Fails(left) => if left.Some? then disk[path := left.value] else disk - {path}
  }

  /** What a handler that makes `change` of the list answers and leaves on disk. */
  ghost predicate Handled(
      before: Disk, path: Path, was: Value, change: Option<Items>, w: Write, reply: Reply, after: Disk) {
    if was.NotAList? then reply == Threw && after == before
    else if change.None? then reply == No && after == before
    else reply == (if w.Works? then Yes else No) && after == Written(before, path, change.value, w)
  }

  /** An array object of the program: it can be changed by whoever holds it. */
  class ListObject {
    var items: Items

    constructor (items: Items)
      ensures this.items == items
    {
      this.items := items;
    }
  }

  class Store {
    const defaults: Value
    var path: Path
    var disk: Disk
    // `cache`: whether there is one, for which path, and its list; no list when the file holds something else.
    var cached: bool
    var cachePath: Path
    var cacheList: ListObject?

    /** A cache is what would be read from disk. */
    ghost predicate Valid()
      reads this, cacheList
    {
      cached ==> ReadFrom(disk, cachePath, defaults) == if cacheList == null then NotAList else List(cacheList.items)
    }

    ghost function Now(): Value
      reads this
    {
      ReadFrom(disk, path, defaults)
    }

    constructor (disk: Disk, path: Path, defaults: Value)
      ensures Valid() && this.disk == disk && this.path == path && this.defaults == defaults && !cached
    {
      this.disk, this.path, this.defaults := disk, path, defaults;
      cached, cachePath, cacheList := false, path, null;
    }

    /** The userData directory moves. */
    method MoveTo(path: Path)
      requires Valid()
      modifies this`path
      ensures Valid() && this.path == path
    {
      this.path := path;
    }

    /** The caller gets a list of its own: no one else can reach it, the cache least of all. */
    method LoadBookmarks() returns (list: ListObject?)
      requires Valid()
      modifies this`cached, this`cachePath, this`cacheList
      ensures Valid() && cached && (cacheList == null || cacheList == old(cacheList) || fresh(cacheList))
      ensures list == null <==> Now().NotAList?
      ensures list != null ==> fresh(list) && list != cacheList && Now() == List(list.items)
    {
      if !cached || cachePath != path {
        var value := ReadFrom(disk, path, defaults);
        cached, cachePath, cacheList := true, path, null;
        if value.List? {
          cacheList := new ListObject(value.items);
        }
      }
      if cacheList == null {
        return null;
      }
      list := new ListObject(cacheList.items);
    }

    method SaveBookmarks(items: Items, w: Write) returns (ok: bool)
      modifies this`disk, this`cached, this`cachePath, this`cacheList
      ensures Valid() && cached == ok && (cacheList == old(cacheList) || fresh(cacheList))
      ensures ok == w.Works? && disk == Written(old(disk), path, items, w)
    {
      disk := Written(disk, path, items, w);
      if w.Fails? {
        cached := false;
        return false;
      }
      cached, cachePath := true, path;
      cacheList := new ListObject(items);
      return true;
    }

    method Answer(items: Items, w: Write) returns (reply: Reply)
      modifies this`disk, this`cached, this`cachePath, this`cacheList
      ensures Valid() && (cacheList == old(cacheList) || fresh(cacheList))
      ensures reply == (if w.Works? then Yes else No) && disk == Written(old(disk), path, items, w)
    {
      var ok := SaveBookmarks(items, w);
      reply := if ok then Yes else No;
    }

    method Add(b: Bookmark, w: Write) returns (reply: Reply)
      requires Valid()
      modifies this`disk, this`cached, this`cachePath, this`cacheList
      ensures Valid()
      ensures Handled(old(disk), path, old(Now()),
        if old(Now()).List? then Added(old(Now()).items, b) else None, w, reply, disk)
    {
      var current := LoadBookmarks();
      if current == null {
        return Threw;
      }
      if HasTarget(current.items, b.target) {
        return No;
      }
      reply := Answer(current.items + [b], w);
    }

    method Update(original: string, b: Bookmark, w: Write) returns (reply: Reply)
      requires Valid()
      modifies this`disk, this`cached, this`cachePath, this`cacheList
      ensures Valid()
      ensures Handled(old(disk), path, old(Now()),
        if old(Now()).List? then Updated(old(Now()).items, original, b) else None, w, reply, disk)
    {
      var current := LoadBookmarks();
      if current == null {
        return Threw;
      }
      var index := IndexOf(current.items, original);
      if index == |current.items| {
        return No;
      }
      if b.target != original && HasTarget(current.items, b.target) {
        return No;
      }
      current.items := current.items[index := b];
      reply := Answer(current.items, w);
    }

    method Remove(target: string, w: Write) returns (reply: Reply)
      requires Valid()
      modifies this`disk, this`cached, this`cachePath, this`cacheList
      ensures Valid()
      ensures Handled(old(disk), path, old(Now()),
        if old(Now()).List? then Some(Removed(old(Now()).items, target)) else None, w, reply, disk)
    {
      var current := LoadBookmarks();
      if current == null {
        return Threw;
      }
      var kept := RemoveTarget(current.items, target);
      reply := Answer(kept, w);
    }

    method Reorder(targets: seq<string>, w: Write) returns (reply: Reply)
      requires Valid()
      modifies this`disk, this`cached, this`cachePath, this`cacheList
      ensures Valid()
      ensures Handled(old(disk), path, old(Now()),
        if old(Now()).List? then Reordered(old(Now()).items, targets) else None, w, reply, disk)
    {
      var current := LoadBookmarks();
      if current == null {
        return Threw;
      }
      var ordered := Order(current.items, targets);
      if |ordered| != |current.items| {
        return No;
      }
      reply := Answer(ordered, w);
    }
  }

  method RemoveTarget(items: Items, target: string) returns (kept: Items)
    ensures kept == Removed(items, target)
  {
    kept := [];
    for i := 0 to |items|
      invariant kept == Removed(items[..i], target)
    {
      assert items[..i + 1][..i] == items[..i];
      if items[i].target != target {
        kept := kept + [items[i]];
      }
    }
    assert items[..|items|] == items;
  }

  method IndexByTarget(items: Items) returns (byTarget: map<string, Bookmark>)
    ensures forall t :: t in byTarget <==> Lookup(items, t).Some?
    ensures forall t :: t in byTarget ==> byTarget[t] == Lookup(items, t).value
  {
    byTarget := map[];
    for i := 0 to |items|
      invariant forall t :: t in byTarget <==> Lookup(items[..i], t).Some?
      invariant forall t :: t in byTarget ==> byTarget[t] == Lookup(items[..i], t).value
    {
      assert items[..i + 1][..i] == items[..i];
      byTarget := byTarget[items[i].target := items[i]];
    }
    assert items[..|items|] == items;
  }

  method Order(items: Items, targets: seq<string>) returns (ordered: Items)
    ensures ordered == Ordered(items, targets)
  {
    var byTarget := IndexByTarget(items);
    var seen: set<string> := {};
    ordered := [];
    for i := 0 to |targets|
      invariant seen == Seen(items, targets[..i]) && ordered == Named(items, targets[..i])
    {
      assert targets[..i + 1][..i] == targets[..i];
      var target := targets[i];
      if target !in byTarget || target in seen {
        assert target in seen ==> seen + {target} == seen;
        continue;
      }
      seen := seen + {target};
      ordered := ordered + [byTarget[target]];
    }
    assert targets[..|targets|] == targets;
    var rest := KeepOthers(items, seen);
    ordered := ordered + rest;
  }

  method KeepOthers(items: Items, seen: set<string>) returns (rest: Items)
    ensures rest == Others(items, seen)
  {
    rest := [];
    for i := 0 to |items|
      invariant rest == Others(items[..i], seen)
    {
      assert items[..i + 1][..i] == items[..i];
      if items[i].target !in seen {
        rest := rest + [items[i]];
      }
    }
    assert items[..|items|] == items;
  }

  // ---------------------------------------------------------------- over a call of any handler

  datatype Call =
    | AddCall(bookmark: Bookmark)
    | UpdateCall(original: string, bookmark: Bookmark)
    | RemoveCall(target: string)
    | ReorderCall(targets: seq<string>)

  function Change(items: Items, c: Call): Option<Items> {
    match c
    case AddCall(b) => Added(items, b)
    case UpdateCall(original, b) => Updated(items, original, b)
    case RemoveCall(target) => Some(Removed(items, target))
    case ReorderCall(targets) => Reordered(items, targets)
  }

  lemma ReorderUnique(items: Items, targets: seq<string>)
    requires UniqueTargets(items) && Reordered(items, targets).Some?
    ensures UniqueTargets(Reordered(items, targets).value)
  {
    ReorderPermutes(items, targets);
    PermutedUnique(items, Reordered(items, targets).value);
  }

  lemma PermutedUnique(a: Items, b: Items)
    requires UniqueTargets(a) && multiset(a) == multiset(b)
    ensures UniqueTargets(b)
  {
    forall i, j | 0 <= i < j < |b| ensures b[i].target != b[j].target {
      if b[i] == b[j] {
        TwiceIn(b, i, j);
        var p, q := TwicePlaces(a, b[i]);
      } else {
        assert b[i] in multiset(a) && b[j] in multiset(a);
        var p :| 0 <= p < |a| && a[p] == b[i];
        var q :| 0 <= q < |a| && a[q] == b[j];
        assert a[if p < q then p else q].target != a[if p < q then q else p].target;
      }
    }
  }

  lemma TwiceIn(b: Items, i: nat, j: nat)
    requires i < j < |b| && b[i] == b[j]
    ensures multiset(b)[b[i]] >= 2
  {
    assert b == b[..j] + [b[j]] + b[j + 1..];
    assert b[i] in b[..j];
  }

  lemma {:induction false} TwicePlaces(a: Items, x: Bookmark) returns (p: nat, q: nat)
    requires multiset(a)[x] >= 2
    ensures p < q < |a| && a[p] == x && a[q] == x
  {
    var before, last := a[..|a| - 1], a[|a| - 1];
    assert a == before + [last];
    if last == x {
      assert x in multiset(before);
      p :| 0 <= p < |before| && before[p] == x;
      q := |a| - 1;
    } else {
      p, q := TwicePlaces(before, x);
    }
  }

  /** No handler ever writes a list that holds a target twice, if the list it read did not. */
  lemma HandlersKeepUnique(items: Items, c: Call)
    requires UniqueTargets(items) && Change(items, c).Some?
    ensures UniqueTargets(Change(items, c).value)
  {
    match c
    case AddCall(b) => AddedUnique(items, b);
    case UpdateCall(original, b) => UpdatedUnique(items, original, b);
    case RemoveCall(target) => RemovedMeans(items, target);
    case ReorderCall(targets) => ReorderUnique(items, targets);
  }

  /** What a handler answers and leaves: it throws for what is not a list, says yes exactly when it made a change and
      could write it, and then the file holds the new list, which is what is read next. Without a change nothing is
      written, and no other file is ever touched. */
  lemma HandledMeans(
      before: Disk, path: Path, was: Value, change: Option<Items>, w: Write, reply: Reply, after: Disk, defaults: Value)
    requires Handled(before, path, was, change, w, reply, after)
    ensures reply.Threw? <==> was.NotAList?
    ensures reply.Yes? <==> was.List? && change.Some? && w == Works
    ensures reply.Yes? ==> path in after && after[path] == Holds(List(change.value))
    ensures reply.Yes? ==> ReadFrom(after, path, defaults) == List(change.value)
    ensures was.NotAList? || change.None? ==> after == before
    ensures forall p :: p != path ==> (p in after <==> p in before) && (p in after ==> after[p] == before[p])
  {
  }

  /** What is read: what the file holds if there is one that parses, and else the defaults. */
  lemma WhatIsRead(disk: Disk, path: Path, defaults: Value, v: Value)
    ensures path in disk && disk[path] == Holds(v) ==> ReadFrom(disk, path, defaults) == v
    ensures path !in disk || disk[path] == Unparsable ==> ReadFrom(disk, path, defaults) == defaults
  {
  }
}
