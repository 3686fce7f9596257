/** What the handlers of src/main/bookmarks-store.js make of a list of bookmarks. */
module Bookmarks {
  datatype Option<+T> = None | Some(value: T)

  datatype Bookmark = Bookmark(target: string, rest: string)

  type Items = seq<Bookmark>

  predicate HasTarget(items: Items, target: string) {
    exists b :: b in items && b.target == target
  }

  ghost predicate UniqueTargets(items: Items) {
    forall i, j :: 0 <= i < j < |items| ==> items[i].target != items[j].target
  }

  /** `findIndex`, or the length. */
  function IndexOf(items: Items, target: string): (i: nat)
    ensures i <= |items| && (i < |items| ==> items[i].target == target)
    ensures forall k :: 0 <= k < i ==> items[k].target != target
  {
    if items == [] || items[0].target == target then 0 else 1 + IndexOf(items[1..], target)
  }

  // The new list, or none when the handler refuses.

  function Added(items: Items, b: Bookmark): Option<Items> {
    if HasTarget(items, b.target) then None else Some(items + [b])
  }

  function Updated(items: Items, original: string, b: Bookmark): Option<Items> {
    var i := IndexOf(items, original);
    if i == |items| then None
    else if b.target != original && HasTarget(items, b.target) then None
    else Some(items[i := b])
  }

  function Removed(items: Items, target: string): Items {
    if items == [] then []
    else Removed(items[..|items| - 1], target)
         + if items[|items| - 1].target != target then [items[|items| - 1]] else []
  }

  /** `byTarget.get(target)`: the last bookmark with that target. */
  function Lookup(items: Items, target: string): Option<Bookmark> {
    if items == [] then None
    else if items[|items| - 1].target == target then Some(items[|items| - 1])
    else Lookup(items[..|items| - 1], target)
  }

  /** The targets that name a bookmark. */
  function Seen(items: Items, targets: seq<string>): set<string> {
    if targets == [] then {}
    else
      var before, last := Seen(items, targets[..|targets| - 1]), targets[|targets| - 1];
      if Lookup(items, last).Some? then before + {last} else before
  }

  /** Their bookmarks, in the order asked for, each once. */
  function Named(items: Items, targets: seq<string>): Items {
    if targets == [] then []
    else
      var before, last := targets[..|targets| - 1], targets[|targets| - 1];
      if Lookup(items, last).Some? && last !in Seen(items, before)
      then Named(items, before) + [Lookup(items, last).value]
      else Named(items, before)
  }

  /** The bookmarks whose target is in the set, in order, and the others, in order. */
  function Among(items: Items, targets: set<string>): Items {
    if items == [] then []
    else Among(items[..|items| - 1], targets)
         + if items[|items| - 1].target in targets then [items[|items| - 1]] else []
  }

  function Others(items: Items, targets: set<string>): Items {
    if items == [] then []
    else Others(items[..|items| - 1], targets)
         + if items[|items| - 1].target in targets then [] else [items[|items| - 1]]
  }

  function Ordered(items: Items, targets: seq<string>): Items {
    Named(items, targets) + Others(items, Seen(items, targets))
  }

  function Reordered(items: Items, targets: seq<string>): Option<Items> {
    if |Ordered(items, targets)| != |items| then None else Some(Ordered(items, targets))
  }

  // ---------------------------------------------------------------- targets stay unique

  lemma AddedUnique(items: Items, b: Bookmark)
    requires UniqueTargets(items)
    ensures Added(items, b).Some? ==> UniqueTargets(Added(items, b).value)
  {
    if !HasTarget(items, b.target) {
      forall k | 0 <= k < |items| ensures items[k].target != b.target {
        assert items[k] in items;
      }
    }
  }

  lemma UpdatedUnique(items: Items, original: string, b: Bookmark)
    requires UniqueTargets(items)
    ensures Updated(items, original, b).Some? ==> UniqueTargets(Updated(items, original, b).value)
  {
    var i := IndexOf(items, original);
    if Updated(items, original, b).Some? {
      forall k | 0 <= k < |items| && k != i ensures items[k].target != b.target {
        assert items[k] in items;
        assert items[if k < i then k else i].target != items[if k < i then i else k].target;
      }
    }
  }

  lemma {:induction false} RemovedMeans(items: Items, target: string)
    ensures forall b :: b in Removed(items, target) <==> b in items && b.target != target
    ensures UniqueTargets(items) ==> UniqueTargets(Removed(items, target))
  {
    if items != [] {
      var before, last := items[..|items| - 1], items[|items| - 1];
      assert items == before + [last];
      RemovedMeans(before, target);
      if UniqueTargets(items) {
        forall k | 0 <= k < |Removed(before, target)| ensures Removed(before, target)[k].target != last.target {
          var b := Removed(before, target)[k];
          assert b in before;
          var j :| 0 <= j < |before| && before[j] == b;
          assert items[j].target != items[|items| - 1].target;
        }
      }
    }
  }

  // ---------------------------------------------------------------- reordering

  lemma {:induction false} Divided(items: Items, s: set<string>)
    ensures multiset(Among(items, s)) + multiset(Others(items, s)) == multiset(items)
    ensures |Among(items, s)| + |Others(items, s)| == |items|
  {
    if items != [] {
      var before, last := items[..|items| - 1], items[|items| - 1];
      Divided(before, s);
      assert multiset(items) == multiset(before) + multiset{last} by {
        assert items == before + [last];
      }
    }
  }

  lemma {:induction false} AmongMore(items: Items, s: set<string>, t: string)
    requires t !in s
    ensures multiset(Among(items, s + {t})) == multiset(Among(items, s)) + multiset(Among(items, {t}))
    ensures |Among(items, s + {t})| == |Among(items, s)| + |Among(items, {t})|
  {
    if items != [] {
      AmongMore(items[..|items| - 1], s, t);
    }
  }

  lemma {:induction false} AmongOne(items: Items, t: string)
    ensures Lookup(items, t).Some? <==> |Among(items, {t})| >= 1
    ensures |Among(items, {t})| == 1 ==> Among(items, {t}) == [Lookup(items, t).value]
  {
    if items != [] {
      AmongOne(items[..|items| - 1], t);
    }
  }

  lemma {:induction false} AmongNone(items: Items)
    ensures Among(items, {}) == []
  {
    if items != [] {
      AmongNone(items[..|items| - 1]);
    }
  }

  ghost predicate OnceEach(items: Items, s: set<string>) {
    forall t :: t in s ==> |Among(items, {t})| == 1
  }

  /** What is named is at most what stands under those targets, and all of it exactly when none of them stands twice. */
  lemma {:induction false} NamedCounts(items: Items, targets: seq<string>)
    ensures |Named(items, targets)| <= |Among(items, Seen(items, targets))|
    ensures |Named(items, targets)| == |Among(items, Seen(items, targets))| <==> OnceEach(items, Seen(items, targets))
    ensures OnceEach(items, Seen(items, targets)) ==>
      multiset(Named(items, targets)) == multiset(Among(items, Seen(items, targets)))
  {
    if targets == [] {
      AmongNone(items);
    } else {
      var before, last := targets[..|targets| - 1], targets[|targets| - 1];
      NamedCounts(items, before);
      var s := Seen(items, before);
      if Lookup(items, last).Some? && last !in s {
        AmongMore(items, s, last);
        AmongOne(items, last);
        OnceMore(items, s, last);
      } else if Lookup(items, last).Some? {
        assert s + {last} == s;
      }
    }
  }

  lemma OnceMore(items: Items, s: set<string>, t: string)
    ensures OnceEach(items, s + {t}) <==> OnceEach(items, s) && |Among(items, {t})| == 1
  {
    assert t in s + {t};
  }

  lemma {:induction false} SeenMeans(items: Items, targets: seq<string>, t: string)
    ensures t in Seen(items, targets) <==> t in targets && Lookup(items, t).Some?
  {
    if targets != [] {
      assert targets == targets[..|targets| - 1] + [targets[|targets| - 1]];
      SeenMeans(items, targets[..|targets| - 1], t);
    }
  }

  /** A reorder goes through exactly when no target that it names stands twice in the list. */
  lemma ReorderSucceeds(items: Items, targets: seq<string>)
    ensures Reordered(items, targets).Some? <==> forall t :: t in targets ==> |Among(items, {t})| <= 1
  {
    var s := Seen(items, targets);
    NamedCounts(items, targets);
    Divided(items, s);
    forall t ensures t in s <==> t in targets && |Among(items, {t})| >= 1 {
      SeenMeans(items, targets, t);
      AmongOne(items, t);
    }
  }

  /** A reorder that goes through writes a permutation of the list: first what was named, in the order asked for, then
      everything else in its old order. Duplicates among what was not named are kept. */
  lemma ReorderPermutes(items: Items, targets: seq<string>)
    requires Reordered(items, targets).Some?
    ensures multiset(Reordered(items, targets).value) == multiset(items)
    ensures Reordered(items, targets).value == Named(items, targets) + Others(items, Seen(items, targets))
    ensures multiset(Named(items, targets)) == multiset(Among(items, Seen(items, targets)))
  {
    NamedCounts(items, targets);
    Divided(items, Seen(items, targets));
  }

  ghost predicate AskedInOrder(targets: seq<string>, s: string, t: string) {
    exists p, q :: 0 <= p < q < |targets| && targets[p] == s && targets[q] == t
  }

  /** No bookmark is named twice, and those that are named stand in an order in which they were asked for. */
  lemma {:induction false} NamedInOrder(items: Items, targets: seq<string>, i: nat, j: nat)
    requires i < j < |Named(items, targets)|
    ensures Named(items, targets)[i].target != Named(items, targets)[j].target
    ensures AskedInOrder(targets, Named(items, targets)[i].target, Named(items, targets)[j].target)
  {
    var before := targets[..|targets| - 1];
    if j < |Named(items, before)| {
      NamedInOrder(items, before, i, j);
      var p, q :| 0 <= p < q < |before|
        && before[p] == Named(items, before)[i].target && before[q] == Named(items, before)[j].target;
      assert targets[p] == before[p] && targets[q] == before[q];
    } else {
      NamedFrom(items, before, i);
      LookupTarget(items, targets[|targets| - 1]);
      var p :| 0 <= p < |before| && before[p] == Named(items, before)[i].target;
      assert targets[p] == before[p];
    }
  }

  lemma {:induction false} NamedFrom(items: Items, targets: seq<string>, i: nat)
    requires i < |Named(items, targets)|
    ensures Named(items, targets)[i].target in Seen(items, targets)
    ensures exists p :: 0 <= p < |targets| && targets[p] == Named(items, targets)[i].target
  {
    var before := targets[..|targets| - 1];
    if i < |Named(items, before)| {
      NamedFrom(items, before, i);
      var p :| 0 <= p < |before| && before[p] == Named(items, before)[i].target;
      assert targets[p] == before[p];
    } else {
      LookupTarget(items, targets[|targets| - 1]);
      assert targets[|targets| - 1] == Named(items, targets)[i].target;
    }
  }

  lemma {:induction false} LookupTarget(items: Items, t: string)
    ensures Lookup(items, t).Some? ==> Lookup(items, t).value.target == t && Lookup(items, t).value in items
  {
    if items != [] {
      LookupTarget(items[..|items| - 1], t);
    }
  }

  // ---------------------------------------------------------------- what each change makes of the list

  /** A bookmark goes to the end, unless its target is there. */
  lemma AddMeans(items: Items, b: Bookmark)
    ensures Added(items, b).None? <==> exists k :: 0 <= k < |items| && items[k].target == b.target
    ensures Added(items, b).Some? ==> Added(items, b).value == items + [b]
  {
  }

  /** `was` is the first bookmark with that target. */
  ghost predicate FirstAt(items: Items, target: string, before: Items, was: Bookmark, after: Items) {
    && items == before + [was] + after && was.target == target
    && forall k :: 0 <= k < |before| ==> before[k].target != target
  }

  /** The first bookmark with the old target is replaced where it stands, and nothing else changes. Refused when there
      is none, and when the new target is another one that is there already. */
  lemma UpdateMeans(items: Items, original: string, b: Bookmark, before: Items, was: Bookmark, after: Items)
    ensures (forall k :: 0 <= k < |items| ==> items[k].target != original) ==> Updated(items, original, b).None?
    ensures FirstAt(items, original, before, was, after) ==>
      Updated(items, original, b)
        == if b.target != original && (exists k :: 0 <= k < |items| && items[k].target == b.target) then None
           else Some(before + [b] + after)
  {
    if FirstAt(items, original, before, was, after) {
      assert items[|before|] == was && forall k :: 0 <= k < |before| ==> items[k] == before[k];
      assert IndexOf(items, original) == |before|;
      assert items[|before| := b] == before + [b] + after;
    }
  }

  /** One by one, a bookmark goes if it has the target and stays where it is if not. */
  lemma {:induction false} RemovedInOrder(before: Items, b: Bookmark, after: Items, target: string)
    ensures Removed([], target) == []
    ensures Removed(before + [b] + after, target)
      == Removed(before, target) + (if b.target == target then [] else [b]) + Removed(after, target)
    decreases |after|
  {
    var items := before + [b] + after;
    if after == [] {
      assert items[..|items| - 1] == before;
    } else {
      assert items[..|items| - 1] == before + [b] + after[..|after| - 1];
      RemovedInOrder(before, b, after[..|after| - 1], target);
    }
  }

  /** What was not named keeps its order. */
  lemma {:induction false} OthersInOrder(before: Items, b: Bookmark, after: Items, s: set<string>)
    ensures Others([], s) == []
    ensures Others(before + [b] + after, s)
      == Others(before, s) + (if b.target in s then [] else [b]) + Others(after, s)
    decreases |after|
  {
    var items := before + [b] + after;
    if after == [] {
      assert items[..|items| - 1] == before;
    } else {
      assert items[..|items| - 1] == before + [b] + after[..|after| - 1];
      OthersInOrder(before, b, after[..|after| - 1], s);
    }
  }

  /** A target counts as named when it was asked for and a bookmark has it; each one named so stands in the result. */
  lemma {:induction false} NamedAll(items: Items, targets: seq<string>, t: string)
    ensures t in Seen(items, targets) <==> t in targets && exists k :: 0 <= k < |items| && items[k].target == t
    ensures t in Seen(items, targets) ==> exists b :: b in Named(items, targets) && b in items && b.target == t
  {
    SeenMeans(items, targets, t);
    LookupFinds(items, t);
    if t in Seen(items, targets) {
      SeenIsNamed(items, targets, t);
      LookupTarget(items, t);
    }
  }

  lemma {:induction false} LookupFinds(items: Items, t: string)
    ensures Lookup(items, t).Some? <==> exists k :: 0 <= k < |items| && items[k].target == t
  {
    if items != [] {
      var before := items[..|items| - 1];
      LookupFinds(before, t);
      assert forall k :: 0 <= k < |before| ==> before[k] == items[k];
    }
  }

  lemma {:induction false} SeenIsNamed(items: Items, targets: seq<string>, t: string)
    requires t in Seen(items, targets)
    ensures Lookup(items, t).Some? && Lookup(items, t).value in Named(items, targets)
  {
    var before := targets[..|targets| - 1];
    if t in Seen(items, before) {
      SeenIsNamed(items, before, t);
    }
  }
}
