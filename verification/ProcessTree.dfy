/** `treeFrom` of test-e2e/close-app.js: one process and its descendants, from one listing. */
module ProcessTree {
  import opened Reach

  /** A line of `ps`, as it was read. */
  datatype Row = Row(pid: int, ppid: int, line: string)

  function Child(rows: seq<Row>): (int, int) -> bool {
    (a: int, b: int) => exists row :: row in rows && row.ppid == a && row.pid == b
  }

  ghost predicate Descends(rows: seq<Row>, root: int, pid: int) {
    Reaches(Child(rows), root, pid)
  }

  /** The rows whose process is in the set, in the order of the listing. */
  function Kept(rows: seq<Row>, keep: set<int>): seq<Row> {
    if rows == [] then []
    else Kept(rows[..|rows| - 1], keep) + if rows[|rows| - 1].pid in keep then [rows[|rows| - 1]] else []
  }

  function Pids(rows: seq<Row>): set<int> {
    set row | row in rows :: row.pid
  }

  ghost predicate AllDescend(rows: seq<Row>, root: int, keep: set<int>) {
    root in keep && forall p :: p in keep ==> Descends(rows, root, p)
  }

  ghost predicate StableTo(rows: seq<Row>, keep: set<int>, n: nat) {
    forall k :: 0 <= k < n && k < |rows| ==> rows[k].pid in keep || rows[k].ppid !in keep
  }

  lemma KeepMore(rows: seq<Row>, root: int, keep: set<int>, row: Row)
    requires AllDescend(rows, root, keep) && row in rows && row.ppid in keep
    ensures AllDescend(rows, root, keep + {row.pid})
  {
    assert Child(rows)(row.ppid, row.pid);
    OneMore(Child(rows), root, row.ppid, row.pid);
  }

  lemma StableIsAll(rows: seq<Row>, root: int, keep: set<int>)
    requires AllDescend(rows, root, keep) && StableTo(rows, keep, |rows|)
    ensures forall p :: p in keep <==> Descends(rows, root, p)
  {
    forall a, b | a in keep && Child(rows)(a, b) ensures b in keep {
      var row :| row in rows && row.ppid == a && row.pid == b;
      var k :| 0 <= k < |rows| && rows[k] == row;
    }
    forall p | Descends(rows, root, p) ensures p in keep {
      ClosedHolds(Child(rows), keep, root, p);
    }
  }

  method Pass(rows: seq<Row>, root: int, before: set<int>) returns (keep: set<int>, grew: bool)
    requires AllDescend(rows, root, before)
    ensures AllDescend(rows, root, keep)
    ensures grew ==> |Pids(rows) - keep| < |Pids(rows) - before|
    ensures !grew ==> keep == before && StableTo(rows, keep, |rows|)
  {
    keep, grew := before, false;
    for i := 0 to |rows|
      invariant AllDescend(rows, root, keep)
      invariant grew ==> |Pids(rows) - keep| < |Pids(rows) - before|
      invariant !grew ==> keep == before && StableTo(rows, keep, i)
    {
      var row := rows[i];
      if row.pid !in keep && row.ppid in keep {
        KeepMore(rows, root, keep, row);
        assert row.pid in Pids(rows);
        FewerLeft(Pids(rows), keep, row.pid);
        keep := keep + {row.pid};
        grew := true;
      }
    }
  }

  method Filter(rows: seq<Row>, keep: set<int>) returns (kept: seq<Row>)
    ensures kept == Kept(rows, keep)
  {
    kept := [];
    for i := 0 to |rows|
      invariant kept == Kept(rows[..i], keep)
    {
      assert rows[..i + 1][..i] == rows[..i];
      if rows[i].pid in keep {
        kept := kept + [rows[i]];
      }
    }
    assert rows[..|rows|] == rows;
  }

  /** The rows of the root and of its descendants, in the order of the listing. */
  ghost function Family(all: seq<Row>, root: int, rows: seq<Row>): seq<Row> {
    if rows == [] then []
    else
      Family(all, root, rows[..|rows| - 1])
      + if Descends(all, root, rows[|rows| - 1].pid) then [rows[|rows| - 1]] else []
  }

  lemma {:induction false} KeptIsFamily(all: seq<Row>, root: int, rows: seq<Row>, keep: set<int>)
    requires forall p :: p in keep <==> Descends(all, root, p)
    ensures Kept(rows, keep) == Family(all, root, rows)
  {
    if rows != [] {
      KeptIsFamily(all, root, rows[..|rows| - 1], keep);
    }
  }

  /** The loop ends for every listing, cycles included, and keeps exactly the rows of the root and of its descendants,
      in the order of the listing, wherever parents stand in it. */
  method TreeFrom(rows: seq<Row>, root: int) returns (kept: seq<Row>)
    ensures kept == Family(rows, root, rows)
  {
    var keep := {root};
    Here(Child(rows), root);
    var grew := true;
    while grew
      invariant AllDescend(rows, root, keep)
      invariant !grew ==> StableTo(rows, keep, |rows|)
      decreases |Pids(rows) - keep|, grew
    {
      keep, grew := Pass(rows, root, keep);
    }
    StableIsAll(rows, root, keep);
    KeptIsFamily(rows, root, rows, keep);
    kept := Filter(rows, keep);
  }

  /** The rows come in the order of the listing: one by one, each is kept or left out. */
  lemma {:induction false} FamilyInOrder(all: seq<Row>, root: int, before: seq<Row>, row: Row, after: seq<Row>)
    ensures Family(all, root, before + [row] + after)
      == Family(all, root, before) + (if Descends(all, root, row.pid) then [row] else []) + Family(all, root, after)
    decreases |after|
  {
    var rows := before + [row] + after;
    if after == [] {
      assert rows[..|rows| - 1] == before;
    } else {
      var most := after[..|after| - 1];
      assert rows[..|rows| - 1] == before + [row] + most;
      FamilyInOrder(all, root, before, row, most);
    }
  }

  /** A process descends from the root if it is the root, or if its parent does; */
  lemma DescendsIsClosed(rows: seq<Row>, root: int, row: Row)
    ensures Descends(rows, root, root)
    ensures row in rows && Descends(rows, root, row.ppid) ==> Descends(rows, root, row.pid)
  {
    Here(Child(rows), root);
    if row in rows && Descends(rows, root, row.ppid) {
      assert Child(rows)(row.ppid, row.pid);
      OneMore(Child(rows), root, row.ppid, row.pid);
    }
  }

  /** and in no other way. */
  lemma DescendsIsLeast(rows: seq<Row>, root: int, s: set<int>, pid: int)
    requires root in s && forall row :: row in rows && row.ppid in s ==> row.pid in s
    requires Descends(rows, root, pid)
    ensures pid in s
  {
    ClosedHolds(Child(rows), s, root, pid);
  }

  /** A row is kept as often as it is listed if its process is the root or descends from it, else not at all. */
  lemma {:induction false} FamilyMeans(all: seq<Row>, root: int, rows: seq<Row>, row: Row)
    ensures multiset(Family(all, root, rows))[row] == if Descends(all, root, row.pid) then multiset(rows)[row] else 0
  {
    if rows != [] {
      var before, last := rows[..|rows| - 1], rows[|rows| - 1];
      assert rows == before + [last];
      FamilyMeans(all, root, before, row);
    }
  }
}
