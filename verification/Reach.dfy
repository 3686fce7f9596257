/** Reachability in a graph given by its steps. */
module Reach {
  ghost predicate Steps<T(!new)>(step: (T, T) -> bool, a: T, b: T, n: nat) {
    if n == 0 then a == b else exists m :: step(a, m) && Steps(step, m, b, n - 1)
  }

  ghost predicate Reaches<T(!new)>(step: (T, T) -> bool, a: T, b: T) {
    exists n: nat :: Steps(step, a, b, n)
  }

  lemma Here<T(!new)>(step: (T, T) -> bool, a: T)
    ensures Reaches(step, a, a)
  {
    assert Steps(step, a, a, 0);
  }

  lemma {:induction false} StepsMore<T(!new)>(step: (T, T) -> bool, a: T, b: T, c: T, n: nat)
    requires Steps(step, a, b, n) && step(b, c)
    ensures Steps(step, a, c, n + 1)
  {
    if n == 0 {
      assert step(a, c) && Steps(step, c, c, 0);
    } else {
      var m :| step(a, m) && Steps(step, m, b, n - 1);
      StepsMore(step, m, b, c, n - 1);
    }
  }

  lemma OneMore<T(!new)>(step: (T, T) -> bool, a: T, b: T, c: T)
    requires Reaches(step, a, b) && step(b, c)
    ensures Reaches(step, a, c)
  {
    var n: nat :| Steps(step, a, b, n);
    StepsMore(step, a, b, c, n);
  }

  lemma OneBefore<T(!new)>(step: (T, T) -> bool, a: T, b: T, c: T)
    requires step(a, b) && Reaches(step, b, c)
    ensures Reaches(step, a, c)
  {
    var n: nat :| Steps(step, b, c, n);
    assert Steps(step, a, c, n + 1);
  }

  ghost predicate Closed<T(!new)>(step: (T, T) -> bool, s: set<T>) {
    forall x, y :: x in s && step(x, y) ==> y in s
  }

  lemma {:induction false} StepsStay<T(!new)>(step: (T, T) -> bool, s: set<T>, a: T, b: T, n: nat)
    requires Closed(step, s) && a in s && Steps(step, a, b, n)
    ensures b in s
  {
    if n > 0 {
      var m :| step(a, m) && Steps(step, m, b, n - 1);
      StepsStay(step, s, m, b, n - 1);
    }
  }

  /** What can be reached from a closed set is in it. */
  lemma ClosedHolds<T(!new)>(step: (T, T) -> bool, s: set<T>, a: T, b: T)
    requires Closed(step, s) && a in s && Reaches(step, a, b)
    ensures b in s
  {
    var n: nat :| Steps(step, a, b, n);
    StepsStay(step, s, a, b, n);
  }

  function Back<T>(step: (T, T) -> bool): (T, T) -> bool {
    (a: T, b: T) => step(b, a)
  }

  lemma {:induction false} StepsBack<T(!new)>(step: (T, T) -> bool, a: T, b: T, n: nat)
    requires Steps(step, a, b, n)
    ensures Steps(Back(step), b, a, n)
  {
    if n > 0 {
      var m :| step(a, m) && Steps(step, m, b, n - 1);
      StepsBack(step, m, b, n - 1);
      assert Back(step)(m, a);
      StepsMore(Back(step), b, m, a, n - 1);
    }
  }

  /** Going back along reversed steps undoes going forth. */
  lemma Converse<T(!new)>(step: (T, T) -> bool, a: T, b: T)
    ensures Reaches(step, a, b) <==> Reaches(Back(step), b, a)
  {
    if Reaches(step, a, b) {
      var n: nat :| Steps(step, a, b, n);
      StepsBack(step, a, b, n);
    }
    if Reaches(Back(step), b, a) {
      var n: nat :| Steps(Back(step), b, a, n);
      StepsBack(Back(step), b, a, n);
      SameSteps(Back(Back(step)), step, a, b, n);
    }
  }

  lemma {:induction false} SameSteps<T(!new)>(f: (T, T) -> bool, g: (T, T) -> bool, a: T, b: T, n: nat)
    requires Steps(f, a, b, n) && forall x, y :: f(x, y) == g(x, y)
    ensures Steps(g, a, b, n)
  {
    if n > 0 {
      var m :| f(a, m) && Steps(f, m, b, n - 1);
      SameSteps(f, g, m, b, n - 1);
    }
  }

  // ---------------------------------------------------------------- worklists

  /** Reachable from one of the starting points. */
  ghost predicate From<T(!new)>(step: (T, T) -> bool, start: T -> bool, x: T) {
    exists r :: start(r) && Reaches(step, r, x)
  }

  ghost predicate AllFrom<T(!new)>(step: (T, T) -> bool, start: T -> bool, xs: seq<T>) {
    forall x :: x in xs ==> From(step, start, x)
  }

  ghost predicate VisitedFrom<T(!new)>(step: (T, T) -> bool, start: T -> bool, xs: set<T>) {
    forall x :: x in xs ==> From(step, start, x)
  }

  /** What a visited point leads to is visited or pending. */
  ghost predicate Covered<T(!new)>(step: (T, T) -> bool, visited: set<T>, pending: seq<T>) {
    forall a, b :: a in visited && step(a, b) ==> b in visited || b in pending
  }

  ghost predicate StartsCovered<T(!new)>(start: T -> bool, visited: set<T>, pending: seq<T>) {
    forall r :: start(r) ==> r in visited || r in pending
  }

  /** What a search with a worklist keeps, whatever it takes from the list next. */
  ghost predicate Search<T(!new)>(step: (T, T) -> bool, start: T -> bool, visited: set<T>, pending: seq<T>) {
    && AllFrom(step, start, pending) && VisitedFrom(step, start, visited)
    && Covered(step, visited, pending) && StartsCovered(start, visited, pending)
  }

  lemma {:induction false} SearchSeen<T(
      !new)>(step: (T, T) -> bool, start: T -> bool, visited: set<T>, pending: seq<T>, x: T)
    requires Search(step, start, visited, pending + [x]) && x in visited
    ensures Search(step, start, visited, pending)
  {
    assert forall p :: p in pending ==> p in pending + [x];
    assert forall p :: p in pending + [x] ==> p in pending || p == x;
  }

  lemma FromMore<T(!new)>(step: (T, T) -> bool, start: T -> bool, a: T, b: T)
    requires From(step, start, a) && step(a, b)
    ensures From(step, start, b)
  {
    var r :| start(r) && Reaches(step, r, a);
    OneMore(step, r, a, b);
  }

  lemma SearchNew<T(!new)>(
      step: (T, T) -> bool, start: T -> bool, visited: set<T>, pending: seq<T>, x: T, children: seq<T>)
    requires Search(step, start, visited, pending + [x])
    requires forall b :: b in children <==> step(x, b)
    ensures Search(step, start, visited + {x}, pending + children)
  {
    assert x in pending + [x] && forall p :: p in pending ==> p in pending + [x];
    assert forall p :: p in pending + [x] ==> p in pending || p == x;
    forall b | b in children ensures From(step, start, b) {
      FromMore(step, start, x, b);
    }
  }

  /** When nothing is pending, exactly the reachable points have been visited. */
  lemma {:induction false} SearchDone<T(!new)>(step: (T, T) -> bool, start: T -> bool, visited: set<T>)
    requires Search(step, start, visited, [])
    ensures forall x :: x in visited <==> From(step, start, x)
  {
    forall x | From(step, start, x) ensures x in visited {
      var r :| start(r) && Reaches(step, r, x);
      ClosedHolds(step, visited, r, x);
    }
  }

  lemma FewerLeft<T>(all: set<T>, seen: set<T>, x: T)
    requires x in all && x !in seen
    ensures |all - (seen + {x})| < |all - seen|
  {
    assert all - (seen + {x}) == (all - seen) - {x};
  }

  lemma LastOf<T>(xs: seq<T>)
    requires xs != []
    ensures xs == xs[..|xs| - 1] + [xs[|xs| - 1]]
  {
  }
}
