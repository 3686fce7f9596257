/** `capCache` of src/main/cache-utils.js: a map that keeps the order of insertion, cut down in place. */
module Cache {
  type Key = string

  datatype Item = Item(key: Key, expiresAt: int)

  const MAX_CACHE_ENTRIES := 500

  predicate Expired(x: Item, now: int) {
    x.expiresAt <= now
  }

  function CountExpired(items: seq<Item>, now: int): nat {
    if items == [] then 0
    else CountExpired(items[..|items| - 1], now) + if Expired(items[|items| - 1], now) then 1 else 0
  }

  function Live(items: seq<Item>, now: int): seq<Item> {
    if items == [] then []
    else Live(items[..|items| - 1], now) + if Expired(items[|items| - 1], now) then [] else [items[|items| - 1]]
  }

  lemma {:induction false} LiveCount(items: seq<Item>, now: int)
    ensures |Live(items, now)| + CountExpired(items, now) == |items|
    ensures forall x :: x in Live(items, now) ==> !Expired(x, now)
  {
    if items != [] {
      LiveCount(items[..|items| - 1], now);
    }
  }

  /** The first pass has looked at `items[..k]` and dropped what has expired there. */
  function Swept(items: seq<Item>, now: int, k: nat): seq<Item>
    requires k <= |items|
  {
    Live(items[..k], now) + items[k..]
  }

  function Without(items: seq<Item>, i: nat): seq<Item>
    requires i < |items|
  {
    items[..i] + items[i + 1..]
  }

  lemma SweptStep(items: seq<Item>, now: int, k: nat)
    requires k < |items|
    ensures items[..k + 1][..k] == items[..k]
    ensures |Swept(items, now, k + 1)| == |Swept(items, now, k)| - if Expired(items[k], now) then 1 else 0
    ensures |Live(items[..k], now)| < |Swept(items, now, k)|
    ensures Swept(items, now, k)[|Live(items[..k], now)|] == items[k]
    ensures Swept(items, now, k + 1) == if Expired(items[k], now)
      then Without(Swept(items, now, k), |Live(items[..k], now)|) else Swept(items, now, k)
  {
    assert items[..k + 1][..k] == items[..k];
    assert items[k..] == [items[k]] + items[k + 1..];
  }

  /** How far the first pass goes: it stops as soon as the map is small enough. */
  function SweepEnd(items: seq<Item>, now: int, k: nat): (e: nat)
    requires k <= |items|
    ensures k <= e <= |items|
    ensures e == |items| || |Swept(items, now, e)| <= MAX_CACHE_ENTRIES
    decreases |items| - k
  {
    if k == |items| || |Swept(items, now, k)| <= MAX_CACHE_ENTRIES then k else SweepEnd(items, now, k + 1)
  }

  function Capped(items: seq<Item>, now: int): seq<Item> {
    var swept := Swept(items, now, SweepEnd(items, now, 0));
    if |swept| <= MAX_CACHE_ENTRIES then swept else swept[|swept| - MAX_CACHE_ENTRIES..]
  }

  class Map {
    var items: seq<Item>

    constructor (items: seq<Item>)
      ensures this.items == items
    {
      this.items := items;
    }

    method Delete(i: nat)
      requires i < |items|
      modifies this
      ensures items == Without(old(items), i)
    {
      items := items[..i] + items[i + 1..];
    }

    /** The first loop: expired entries go, in order, until the map is small enough. */
    method Sweep(now: int)
      requires |items| > MAX_CACHE_ENTRIES
      modifies this
      ensures items == Swept(old(items), now, SweepEnd(old(items), now, 0))
    {
      ghost var was := items;
      ghost var k := 0;
      assert was[..0] == [] && Swept(was, now, 0) == was;
      var i := 0;
      while i < |items|
        invariant k <= |was| && items == Swept(was, now, k) && i == |Live(was[..k], now)|
        invariant |items| > MAX_CACHE_ENTRIES && SweepEnd(was, now, 0) == SweepEnd(was, now, k)
        decreases |was| - k
      {
        SweptStep(was, now, k);
        k := k + 1;
        if items[i].expiresAt <= now {
          Delete(i);
          if |items| <= MAX_CACHE_ENTRIES {
            return;
          }
        } else {
          i := i + 1;
        }
      }
    }

    /** The second loop: the oldest entries go. */
    method DropOldest()
      modifies this
      ensures items == if |old(items)| <= MAX_CACHE_ENTRIES then old(items)
        else old(items)[|old(items)| - MAX_CACHE_ENTRIES..]
    {
      ghost var was := items;
      ghost var dropped := 0;
      while |items| > MAX_CACHE_ENTRIES
        invariant dropped <= |was| && items == was[dropped..]
        invariant dropped > 0 ==> |items| >= MAX_CACHE_ENTRIES
        decreases |items|
      {
        Delete(0);
        dropped := dropped + 1;
      }
    }

    method CapCache(now: int)
      modifies this
      ensures items == Capped(old(items), now)
    {
      if |items| <= MAX_CACHE_ENTRIES {
        assert items[..0] == [] && Swept(items, now, 0) == items;
        return;
      }
      Sweep(now);
      DropOldest();
    }
  }

  // ---------------------------------------------------------------- what is removed

  /** The elements that the mask does not remove, in order. */
  function Kept(items: seq<Item>, removed: seq<bool>): seq<Item>
    requires |items| == |removed|
  {
    if items == [] then []
    else
      Kept(items[..|items| - 1], removed[..|items| - 1])
      + (if removed[|items| - 1] then [] else [items[|items| - 1]])
  }

  function Count(removed: seq<bool>): nat {
    if removed == [] then 0 else Count(removed[..|removed| - 1]) + if removed[|removed| - 1] then 1 else 0
  }

  /** Item `j` goes before item `i`: expired ones before live ones, older ones before younger. */
  predicate Before(items: seq<Item>, now: int, j: nat, i: nat)
    requires i < |items| && j < |items|
  {
    if Expired(items[j], now) == Expired(items[i], now) then j < i else Expired(items[j], now)
  }

  ghost predicate InTurn(items: seq<Item>, now: int, removed: seq<bool>)
    requires |items| == |removed|
  {
    forall i, j :: 0 <= i < |items| && 0 <= j < |items| && removed[j] && !removed[i] ==> Before(items, now, j, i)
  }

  function Excess(items: seq<Item>): nat {
    if |items| > MAX_CACHE_ENTRIES then |items| - MAX_CACHE_ENTRIES else 0
  }

  /** The mask of a pass that swept `items[..k]` and then dropped the `d` oldest of what was left of a whole sweep. */
  function Mask(items: seq<Item>, now: int, k: nat, d: nat): seq<bool>
    requires k <= |items|
  {
    seq(|items|, i requires 0 <= i < |items| =>
      if Expired(items[i], now) then i < k else k == |items| && |Live(items[..i], now)| < d)
  }

  lemma {:induction false} KeptCount(items: seq<Item>, removed: seq<bool>)
    requires |items| == |removed|
    ensures |Kept(items, removed)| + Count(removed) == |items|
  {
    if items != [] {
      KeptCount(items[..|items| - 1], removed[..|items| - 1]);
    }
  }

  lemma {:induction false} LiveGrows(items: seq<Item>, now: int, a: nat, b: nat)
    requires a <= b <= |items|
    ensures |Live(items[..a], now)| <= |Live(items[..b], now)|
    decreases b
  {
    if a < b {
      assert items[..b][..b - 1] == items[..b - 1];
      LiveGrows(items, now, a, b - 1);
    }
  }

  lemma KeptNext(items: seq<Item>, mask: seq<bool>, n: nat)
    requires 0 < n <= |items| == |mask|
    ensures Kept(items[..n], mask[..n])
      == Kept(items[..n - 1], mask[..n - 1]) + if mask[n - 1] then [] else [items[n - 1]]
  {
    assert items[..n][..n - 1] == items[..n - 1] && mask[..n][..n - 1] == mask[..n - 1];
  }

  lemma OneMore<T>(xs: seq<T>, k: nat, n: nat)
    requires k < n <= |xs|
    ensures xs[k..n] == xs[k..n - 1] + [xs[n - 1]]
  {
  }

  lemma {:induction false} KeptSweep(items: seq<Item>, now: int, k: nat, n: nat)
    requires k <= |items| && n <= |items|
    ensures Kept(items[..n], Mask(items, now, k, 0)[..n])
      == if n <= k then Live(items[..n], now) else Live(items[..k], now) + items[k..n]
    decreases n
  {
    if n > 0 {
      KeptSweep(items, now, k, n - 1);
      KeptNext(items, Mask(items, now, k, 0), n);
      if n <= k {
        assert items[..n][..n - 1] == items[..n - 1];
      } else {
        OneMore(items, k, n);
      }
    }
  }

  lemma {:induction false} KeptDrop(items: seq<Item>, now: int, d: nat, n: nat)
    requires n <= |items|
    ensures Kept(items[..n], Mask(items, now, |items|, d)[..n])
      == if |Live(items[..n], now)| <= d then [] else Live(items[..n], now)[d..]
    decreases n
  {
    if n > 0 {
      KeptDrop(items, now, d, n - 1);
      var mask := Mask(items, now, |items|, d);
      assert items[..n][..n - 1] == items[..n - 1] && mask[..n][..n - 1] == mask[..n - 1];
    }
  }

  lemma MaskInTurn(items: seq<Item>, now: int, k: nat, d: nat)
    requires k <= |items|
    ensures InTurn(items, now, Mask(items, now, k, d))
  {
    var mask := Mask(items, now, k, d);
    forall i, j | 0 <= i < |items| && 0 <= j < |items| && mask[j] && !mask[i]
      ensures Before(items, now, j, i)
    {
      if !Expired(items[j], now) && i < j {
        LiveGrows(items, now, i, j);
      }
    }
  }

  lemma {:induction false} SweepEndSize(items: seq<Item>, now: int, k: nat)
    requires k <= |items| && |Swept(items, now, k)| >= MAX_CACHE_ENTRIES
    ensures |Swept(items, now, SweepEnd(items, now, k))| >= MAX_CACHE_ENTRIES
    ensures SweepEnd(items, now, k) < |items| ==> |Swept(items, now, SweepEnd(items, now, k))| <= MAX_CACHE_ENTRIES
    decreases |items| - k
  {
    if k < |items| && |Swept(items, now, k)| > MAX_CACHE_ENTRIES {
      SweptStep(items, now, k);
      SweepEndSize(items, now, k + 1);
    }
  }

  lemma {:induction false} CappedIsKept(items: seq<Item>, now: int) returns (removed: seq<bool>)
    ensures |removed| == |items| && Capped(items, now) == Kept(items, removed) && InTurn(items, now, removed)
  {
    var k := SweepEnd(items, now, 0);
    var swept := Swept(items, now, k);
    assert items[..|items|] == items;
    if |swept| <= MAX_CACHE_ENTRIES {
      removed := Mask(items, now, k, 0);
      KeptSweep(items, now, k, |items|);
      MaskInTurn(items, now, k, 0);
      assert k == |items| ==> items[k..] == [];
    } else {
      var d := |swept| - MAX_CACHE_ENTRIES;
      removed := Mask(items, now, |items|, d);
      assert k == |items| && items[k..] == [] && swept == Live(items, now);
      KeptDrop(items, now, d, |items|);
      MaskInTurn(items, now, |items|, d);
    }
    assert removed[..|items|] == removed;
  }

  lemma CappedSize(items: seq<Item>, now: int)
    ensures |Capped(items, now)| == |items| - Excess(items)
  {
    assert items[..0] == [] && Swept(items, now, 0) == items;
    if |items| > MAX_CACHE_ENTRIES {
      SweepEndSize(items, now, 0);
    }
  }

  /** Exactly the excess over the limit is removed, what stays keeps its order, and nothing stays that should have gone
      before something that went: the earliest expired entries go first, live ones only when no expired one is left, and
      then the oldest. */
  lemma CapRemovesInTurn(items: seq<Item>, now: int)
    ensures exists removed: seq<bool> ::
      |removed| == |items| && Count(removed) == Excess(items) && Capped(items, now) == Kept(items, removed)
      && InTurn(items, now, removed)
  {
    var removed := CappedIsKept(items, now);
    KeptCount(items, removed);
    CappedSize(items, now);
  }

  /** A mask takes each element out or leaves it where it stands among the others. */
  lemma {:induction false} KeptInOrder(
      before: seq<Item>, x: Item, after: seq<Item>, first: seq<bool>, out: bool, rest: seq<bool>)
    requires |before| == |first| && |after| == |rest|
    ensures Kept(before + [x] + after, first + [out] + rest)
      == Kept(before, first) + (if out then [] else [x]) + Kept(after, rest)
    decreases |after|
  {
    var items, removed := before + [x] + after, first + [out] + rest;
    if after == [] {
      assert items[..|items| - 1] == before && removed[..|removed| - 1] == first;
    } else {
      var n := |after| - 1;
      assert items[..|items| - 1] == before + [x] + after[..n];
      assert removed[..|removed| - 1] == first + [out] + rest[..n];
      KeptInOrder(before, x, after[..n], first, out, rest[..n]);
    }
  }

  /** Of two entries that differ, the one that has run out, `expiresAt` at or before now, goes first; otherwise the one
      that was put in first. */
  lemma BeforeMeans(items: seq<Item>, now: int, j: nat, i: nat)
    requires i < |items| && j < |items| && i != j
    ensures items[j].expiresAt <= now < items[i].expiresAt ==> Before(items, now, j, i)
    ensures items[i].expiresAt <= now < items[j].expiresAt ==> !Before(items, now, j, i)
    ensures (items[i].expiresAt <= now <==> items[j].expiresAt <= now) ==> (Before(items, now, j, i) <==> j < i)
  {
  }

  /** A map that is small enough is left alone; one in which nothing has run out loses its oldest. */
  lemma CapOfLive(items: seq<Item>, now: int)
    ensures |items| <= 500 ==> Capped(items, now) == items
    ensures |items| > 500 && (forall k :: 0 <= k < |items| ==> items[k].expiresAt > now) ==>
      Capped(items, now) == items[|items| - 500..]
  {
    assert items[..0] == [] && Swept(items, now, 0) == items;
    if |items| > 500 && forall k :: 0 <= k < |items| ==> items[k].expiresAt > now {
      NothingSwept(items, now, 0);
    }
  }

  lemma {:induction false} AllLive(items: seq<Item>, now: int)
    requires forall k :: 0 <= k < |items| ==> items[k].expiresAt > now
    ensures Live(items, now) == items
  {
    if items != [] {
      AllLive(items[..|items| - 1], now);
      assert items == items[..|items| - 1] + [items[|items| - 1]];
    }
  }

  lemma {:induction false} NothingSwept(items: seq<Item>, now: int, k: nat)
    requires k <= |items| && |items| > MAX_CACHE_ENTRIES
    requires forall i :: 0 <= i < |items| ==> items[i].expiresAt > now
    ensures Swept(items, now, SweepEnd(items, now, k)) == items
    decreases |items| - k
  {
    AllLive(items[..k], now);
    assert items[..k] + items[k..] == items;
    if k < |items| {
      NothingSwept(items, now, k + 1);
    }
  }
}
