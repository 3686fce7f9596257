/**
 `findIndex`, `splice` and the ranges built from them, for any element type and any tests.
 `First` returns the length of the sequence where `findIndex` returns -1.
 */
module Scan {
  datatype Option<+T> = None | Some(value: T)
  datatype Range = Range(start: nat, end: nat)

  /** The first index at or after `from` that `f` accepts, or the length when there is none. */
  function First<T>(b: seq<T>, f: T -> bool, from: nat): (r: nat)
    requires from <= |b|
    ensures from <= r <= |b|
    ensures forall k :: from <= k < r ==> !f(b[k])
    ensures r < |b| ==> f(b[r])
    decreases |b| - from
  {
    if from == |b| || f(b[from]) then from else First(b, f, from + 1)
  }

  /** `b.splice(at, 0, ...xs)` */
  function Insert<T>(b: seq<T>, at: nat, xs: seq<T>): (c: seq<T>)
    requires at <= |b|
    ensures |c| == |b| + |xs|
    ensures forall k :: 0 <= k < at ==> c[k] == b[k]
    ensures forall k :: at <= k < at + |xs| ==> c[k] == xs[k - at]
    ensures forall k :: at + |xs| <= k < |c| ==> c[k] == b[k - |xs|]
  {
    b[..at] + xs + b[at..]
  }

  /** From the first `f` element up to the next `g` element. */
  function Span<T>(b: seq<T>, f: T -> bool, g: T -> bool): (r: Option<Range>)
    ensures r.Some? ==> r.value.start < r.value.end <= |b|
  {
    var start := First(b, f, 0);
    if start == |b| then None else Some(Range(start, First(b, g, start + 1)))
  }

  /** What stands strictly inside that span. */
  function Inside<T>(b: seq<T>, f: T -> bool, g: T -> bool): Option<seq<T>> {
    var range := Span(b, f, g);
    if range == None then None else Some(b[range.value.start + 1..range.value.end])
  }

  /** Steps back from `hi` over elements that `blank` accepts, stopping at `lo`. */
  function Back<T>(b: seq<T>, blank: T -> bool, lo: nat, hi: nat): (r: nat)
    requires lo <= hi <= |b|
    ensures lo <= r <= hi
    ensures forall k :: r <= k < hi ==> blank(b[k])
    ensures r > lo ==> !blank(b[r - 1])
    decreases hi
  {
    if hi > lo && blank(b[hi - 1]) then Back(b, blank, lo, hi - 1) else hi
  }

  ghost predicate NoHit<T>(xs: seq<T>, f: T -> bool) {
    forall x :: x in xs ==> !f(x)
  }

  // ---------------------------------------------------------------- First under insertion

  lemma FirstIs<T>(b: seq<T>, f: T -> bool, from: nat, r: nat)
    requires from <= r <= |b|
    requires forall k :: from <= k < r ==> !f(b[k])
    requires r < |b| ==> f(b[r])
    ensures First(b, f, from) == r
  {
  }

  lemma FirstKept<T>(b: seq<T>, at: nat, xs: seq<T>, f: T -> bool, from: nat)
    requires from <= |b| && at <= |b| && First(b, f, from) < at
    ensures First(Insert(b, at, xs), f, from) == First(b, f, from)
  {
    FirstIs(Insert(b, at, xs), f, from, First(b, f, from));
  }

  lemma FirstShifted<T>(b: seq<T>, at: nat, xs: seq<T>, f: T -> bool, from: nat)
    requires from <= at <= |b| && at <= First(b, f, from)
    requires NoHit(xs, f)
    ensures First(Insert(b, at, xs), f, from) == First(b, f, from) + |xs|
  {
    FirstIs(Insert(b, at, xs), f, from, First(b, f, from) + |xs|);
  }

  lemma FirstAfter<T>(b: seq<T>, at: nat, xs: seq<T>, f: T -> bool, from: nat)
    requires at <= from <= |b|
    ensures First(Insert(b, at, xs), f, from + |xs|) == First(b, f, from) + |xs|
  {
    var c := Insert(b, at, xs);
    var r := First(b, f, from);
    forall k | from + |xs| <= k < r + |xs|
      ensures !f(c[k])
    {
      assert c[k] == b[k - |xs|];
    }
    FirstIs(c, f, from + |xs|, r + |xs|);
  }

  // ---------------------------------------------------------------- spans under insertion

  lemma SliceInto<T>(b: seq<T>, at: nat, xs: seq<T>, lo: nat, hi: nat)
    requires lo <= at <= hi <= |b|
    ensures Insert(b, at, xs)[lo..hi + |xs|] == Insert(b[lo..hi], at - lo, xs)
  {
    var left := Insert(b, at, xs)[lo..hi + |xs|];
    var right := Insert(b[lo..hi], at - lo, xs);
    forall k | 0 <= k < |left|
      ensures left[k] == right[k]
    {
      assert left[k] == Insert(b, at, xs)[lo + k];
    }
  }

  /** Elements that end no span, put inside one, only lengthen it. */
  lemma InsertInSpan<T>(b: seq<T>, f: T -> bool, g: T -> bool, at: nat, xs: seq<T>)
    requires Span(b, f, g).Some?
    requires Span(b, f, g).value.start < at <= Span(b, f, g).value.end
    requires NoHit(xs, g)
    ensures var range := Span(b, f, g).value;
      && Span(Insert(b, at, xs), f, g) == Some(Range(range.start, range.end + |xs|))
      && Inside(Insert(b, at, xs), f, g) == Some(Insert(Inside(b, f, g).value, at - range.start - 1, xs))
  {
    var Range(start, end) := Span(b, f, g).value;
    FirstKept(b, at, xs, f, 0);
    FirstShifted(b, at, xs, g, start + 1);
    assert Span(Insert(b, at, xs), f, g) == Some(Range(start, end + |xs|));
    SliceInto(b, at, xs, start + 1, end);
  }

  lemma SliceKept<T>(b: seq<T>, at: nat, xs: seq<T>, lo: nat, hi: nat)
    requires lo <= hi <= at <= |b|
    ensures Insert(b, at, xs)[lo..hi] == b[lo..hi]
  {
  }

  lemma SliceMoved<T>(b: seq<T>, at: nat, xs: seq<T>, lo: nat, hi: nat, lo': nat, hi': nat)
    requires at <= lo <= hi <= |b| && lo' == lo + |xs| && hi' == hi + |xs|
    ensures Insert(b, at, xs)[lo'..hi'] == b[lo..hi]
  {
  }

  /** A span that ends before the insertion point stays where it is. */
  lemma SpanBefore<T>(b: seq<T>, f: T -> bool, g: T -> bool, at: nat, xs: seq<T>)
    requires Span(b, f, g).Some? && Span(b, f, g).value.end < at <= |b|
    ensures Inside(Insert(b, at, xs), f, g) == Inside(b, f, g)
  {
    var Range(start, end) := Span(b, f, g).value;
    FirstKept(b, at, xs, f, 0);
    FirstKept(b, at, xs, g, start + 1);
    SliceKept(b, at, xs, start + 1, end);
  }

  lemma SpanMoved<T>(b: seq<T>, f: T -> bool, g: T -> bool, at: nat, xs: seq<T>, start: nat, end: nat)
    requires Span(b, f, g) == Some(Range(start, end)) && at <= start && NoHit(xs, f)
    ensures Span(Insert(b, at, xs), f, g) == Some(Range(start + |xs|, end + |xs|))
  {
    FirstShifted(b, at, xs, f, 0);
    FirstAfter(b, at, xs, g, start + 1);
    assert start + |xs| + 1 == start + 1 + |xs|;
  }

  lemma InsideIs<T>(b: seq<T>, f: T -> bool, g: T -> bool, start: nat, end: nat)
    requires Span(b, f, g) == Some(Range(start, end))
    ensures start < end <= |b| && Inside(b, f, g) == Some(b[start + 1..end])
  {
  }

  lemma InsideMoved<T>(b: seq<T>, f: T -> bool, g: T -> bool, at: nat, xs: seq<T>, start: nat, end: nat)
    requires Span(b, f, g) == Some(Range(start, end)) && at <= start && NoHit(xs, f)
    ensures Inside(Insert(b, at, xs), f, g) == Some(b[start + 1..end])
  {
    SpanMoved(b, f, g, at, xs, start, end);
    InsideIs(Insert(b, at, xs), f, g, start + |xs|, end + |xs|);
    SliceMoved(b, at, xs, start + 1, end, start + |xs| + 1, end + |xs|);
  }

  lemma NoneMoved<T>(b: seq<T>, f: T -> bool, g: T -> bool, at: nat, xs: seq<T>)
    requires at <= |b| && Span(b, f, g).None? && NoHit(xs, f)
    ensures Inside(Insert(b, at, xs), f, g).None?
  {
    FirstShifted(b, at, xs, f, 0);
  }

  /** A span that starts after the insertion point moves as a whole. */
  lemma SpanAfter<T>(b: seq<T>, f: T -> bool, g: T -> bool, at: nat, xs: seq<T>)
    requires at <= |b| && (Span(b, f, g).Some? ==> at <= Span(b, f, g).value.start) && NoHit(xs, f)
    ensures Inside(Insert(b, at, xs), f, g) == Inside(b, f, g)
  {
    match Span(b, f, g)
    case None => NoneMoved(b, f, g, at, xs);
    case Some(Range(start, end)) =>
      InsideMoved(b, f, g, at, xs, start, end);
      InsideIs(b, f, g, start, end);
  }

  // ---------------------------------------------------------------- what a span keeps

  ghost predicate Within<T>(some: seq<T>, more: seq<T>) {
    forall x :: x in some ==> x in more
  }

  lemma InsertHas<T>(b: seq<T>, at: nat, xs: seq<T>)
    requires at <= |b|
    ensures Within(b, Insert(b, at, xs)) && Within(xs, Insert(b, at, xs))
    ensures forall x :: x in Insert(b, at, xs) ==> x in b || x in xs
  {
    assert b == b[..at] + b[at..];
  }

  /** Elements that neither start nor end a span, put anywhere, never take anything out of it. */
  lemma SpanKeeps<T>(b: seq<T>, f: T -> bool, g: T -> bool, at: nat, xs: seq<T>)
    requires at <= |b| && NoHit(xs, f) && NoHit(xs, g)
    ensures Inside(b, f, g).None? ==> Inside(Insert(b, at, xs), f, g).None?
    ensures Inside(b, f, g).Some? ==>
              && Inside(Insert(b, at, xs), f, g).Some?
              && Within(Inside(b, f, g).value, Inside(Insert(b, at, xs), f, g).value)
  {
    var span := Span(b, f, g);
    if span.None? || at <= span.value.start {
      SpanAfter(b, f, g, at, xs);
    } else if at <= span.value.end {
      InsertInSpan(b, f, g, at, xs);
      InsertHas(Inside(b, f, g).value, at - span.value.start - 1, xs);
    } else {
      SpanBefore(b, f, g, at, xs);
    }
  }

  lemma InsideHas<T>(b: seq<T>, f: T -> bool, g: T -> bool, start: nat, end: nat)
    requires Span(b, f, g) == Some(Range(start, end))
    ensures Inside(b, f, g).Some? && forall k :: start < k < end ==> b[k] in Inside(b, f, g).value
  {
    assert forall k :: start < k < end ==> Inside(b, f, g).value[k - start - 1] == b[k];
  }

  /** A span whose start stands at the end of `above`: it begins with whatever follows and does not end a span. */
  lemma SpanAt<T>(above: seq<T>, head: T, rest: seq<T>, below: seq<T>, f: T -> bool, g: T -> bool)
    requires NoHit(above, f) && f(head) && NoHit(rest, g)
    ensures var b := above + [head] + rest + below; Inside(b, f, g).Some? && Within(rest, Inside(b, f, g).value)
  {
    var b := above + [head] + rest + below;
    var at := |above|;
    assert forall k :: 0 <= k < at ==> b[k] == above[k] && b[k] in above;
    FirstIs(b, f, 0, at);
    var stop := First(b, g, at + 1);
    assert forall k :: at < k < at + 1 + |rest| ==> b[k] == rest[k - at - 1] && b[k] in rest;
    assert stop >= at + 1 + |rest|;
    var inside := b[at + 1..stop];
    assert Inside(b, f, g) == Some(inside);
    assert forall k :: 0 <= k < |rest| ==> inside[k] == rest[k];
  }

  // ---------------------------------------------------------------- the end of a span

  lemma {:induction false} BackShift<T>(part: seq<T>, b: seq<T>, blank: T -> bool, lo: nat, n: nat)
    requires n <= |part| && lo + n <= |b| && forall k :: 0 <= k < n ==> part[k] == b[lo + k]
    ensures Back(b, blank, lo, lo + n) == lo + Back(part, blank, 0, n)
    decreases n
  {
    if n > 0 && blank(part[n - 1]) {
      BackShift(part, b, blank, lo, n - 1);
    }
  }

  /** Going back from the end of a span is going back from the end of what is inside it. */
  lemma BackInside<T>(b: seq<T>, f: T -> bool, g: T -> bool, blank: T -> bool)
    requires Span(b, f, g).Some?
    ensures var Range(start, end) := Span(b, f, g).value; var inside := Inside(b, f, g).value;
      |inside| == end - start - 1 && Back(b, blank, start + 1, end) == start + 1 + Back(inside, blank, 0, |inside|)
  {
    var Range(start, end) := Span(b, f, g).value;
    BackShift(b[start + 1..end], b, blank, start + 1, end - start - 1);
  }

  /** An insertion given by its place inside a span. */
  lemma InsertInside<T>(b: seq<T>, f: T -> bool, g: T -> bool, at: nat, xs: seq<T>, inner: nat)
    requires Span(b, f, g).Some? && NoHit(xs, g)
    requires at == Span(b, f, g).value.start + 1 + inner <= Span(b, f, g).value.end
    ensures Inside(b, f, g).Some? && inner <= |Inside(b, f, g).value|
    ensures Inside(Insert(b, at, xs), f, g) == Some(Insert(Inside(b, f, g).value, inner, xs))
  {
    InsertInSpan(b, f, g, at, xs);
  }

  /** Elements added after the last solid one of a span go after the last solid one inside it. */
  lemma AppendInside<T>(b: seq<T>, f: T -> bool, g: T -> bool, blank: T -> bool, xs: seq<T>)
    requires Span(b, f, g).Some? && NoHit(xs, g)
    ensures var Range(start, end) := Span(b, f, g).value; var inside := Inside(b, f, g).value;
      Inside(Insert(b, Back(b, blank, start + 1, end), xs), f, g)
        == Some(Insert(inside, Back(inside, blank, 0, |inside|), xs))
  {
    var Range(start, end) := Span(b, f, g).value;
    var inside := Inside(b, f, g).value;
    BackInside(b, f, g, blank);
    InsertInside(b, f, g, Back(b, blank, start + 1, end), xs, Back(inside, blank, 0, |inside|));
  }

  /** One `x`, or nothing. */
  function Pad<T>(first: bool, x: T): seq<T> {
    if first then [x] else []
  }

  /** `xs` put at `at`, after one `x` when that is where the enclosing span begins. */
  function AppendAt<T>(b: seq<T>, at: nat, top: nat, x: T, xs: seq<T>): seq<T>
    requires at <= |b|
  {
    Insert(b, at, Pad(at == top, x) + xs)
  }

  /** `xs` put at `at` under a head of their own, set off by `x`. */
  function AppendUnder<T>(b: seq<T>, at: nat, head: T, x: T, xs: seq<T>): seq<T>
    requires at <= |b|
  {
    Insert(b, at, Pad(at == 0, x) + [head] + ([x] + xs + [x]))
  }

  lemma PadNoHit<T>(first: bool, x: T, xs: seq<T>, f: T -> bool)
    requires !f(x) && NoHit(xs, f)
    ensures NoHit(Pad(first, x) + xs, f) && NoHit([x] + xs + [x], f)
  {
  }

  /** Appending to a span is appending to what is inside it. */
  lemma AppendAtInside<T>(
      b: seq<T>, f: T -> bool, g: T -> bool, blank: T -> bool, x: T, xs: seq<T>, start: nat, end: nat)
    requires Span(b, f, g) == Some(Range(start, end)) && !g(x) && NoHit(xs, g)
    ensures start < end <= |b| && Inside(b, f, g) == Some(b[start + 1..end])
    ensures var inside := b[start + 1..end];
      Inside(AppendAt(b, Back(b, blank, start + 1, end), start + 1, x, xs), f, g)
        == Some(AppendAt(inside, Back(inside, blank, 0, |inside|), 0, x, xs))
  {
    var at := Back(b, blank, start + 1, end);
    BackInside(b, f, g, blank);
    PadNoHit(at == start + 1, x, xs, g);
    AppendInside(b, f, g, blank, Pad(at == start + 1, x) + xs);
  }

  lemma AppendAtHas<T>(b: seq<T>, at: nat, top: nat, x: T, xs: seq<T>, l: T)
    requires at <= |b| && l in AppendAt(b, at, top, x, xs)
    ensures l in b || l == x || l in xs
  {
    InsertHas(b, at, Pad(at == top, x) + xs);
  }

  lemma AppendUnderHas<T>(b: seq<T>, at: nat, head: T, x: T, xs: seq<T>, l: T)
    requires at <= |b| && l in AppendUnder(b, at, head, x, xs)
    ensures l in b || l == head || l == x || l in xs
  {
    InsertHas(b, at, Pad(at == 0, x) + [head] + ([x] + xs + [x]));
  }

  // ---------------------------------------------------------------- subsequences

  /** `f` sends each element of `a` to an equal one of `b`, in order. */
  ghost predicate Embeds<T>(a: seq<T>, b: seq<T>, f: seq<nat>) {
    && |f| == |a|
    && (forall i :: 0 <= i < |f| ==> f[i] < |b| && b[f[i]] == a[i])
    && (forall i, j :: 0 <= i < j < |f| ==> f[i] < f[j])
  }

  ghost predicate Subsequence<T>(a: seq<T>, b: seq<T>) {
    exists f :: Embeds(a, b, f)
  }

  lemma SubsequenceSelf<T>(a: seq<T>)
    ensures Subsequence(a, a)
  {
    assert Embeds(a, a, seq(|a|, (i: nat) => i));
  }

  lemma SubsequenceInsert<T>(b: seq<T>, at: nat, xs: seq<T>)
    requires at <= |b|
    ensures Subsequence(b, Insert(b, at, xs))
  {
    assert Embeds(b, Insert(b, at, xs), seq(|b|, (i: nat) => if i < at then i else i + |xs|));
  }

  lemma SubsequenceTrans<T>(a: seq<T>, b: seq<T>, c: seq<T>)
    requires Subsequence(a, b) && Subsequence(b, c)
    ensures Subsequence(a, c)
  {
    var f :| Embeds(a, b, f);
    var g :| Embeds(b, c, g);
    assert Embeds(a, c, seq(|a|, (i: nat) requires i < |a| => g[f[i]]));
  }

  lemma SubsequenceAppendAt<T>(b: seq<T>, at: nat, top: nat, x: T, xs: seq<T>)
    requires at <= |b|
    ensures Subsequence(b, AppendAt(b, at, top, x, xs))
  {
    SubsequenceInsert(b, at, Pad(at == top, x) + xs);
  }

  lemma SubsequenceAppendUnder<T>(b: seq<T>, at: nat, head: T, x: T, xs: seq<T>)
    requires at <= |b|
    ensures Subsequence(b, AppendUnder(b, at, head, x, xs))
  {
    SubsequenceInsert(b, at, Pad(at == 0, x) + [head] + ([x] + xs + [x]));
  }

  // ---------------------------------------------------------------- order

  /** Where `r` gives a rank at all (not negative), the ranks never fall. */
  ghost predicate Ordered<T>(b: seq<T>, r: T -> int) {
    forall i, j :: 0 <= i < j < |b| && r(b[i]) >= 0 && r(b[j]) >= 0 ==> r(b[i]) <= r(b[j])
  }

  ghost predicate Unranked<T>(xs: seq<T>, r: T -> int) {
    forall x :: x in xs ==> r(x) < 0
  }

  /** `xs` holds no rank but `k`, which fits at `at`: everything above ranks at most `k`, and the next element more. */
  lemma OrderedInsert<T>(b: seq<T>, r: T -> int, at: nat, xs: seq<T>, k: int)
    requires at <= |b| && Ordered(b, r)
    requires forall x :: x in xs ==> r(x) < 0 || r(x) == k
    requires Unranked(xs, r) || ((forall i :: 0 <= i < at ==> r(b[i]) <= k) && (at < |b| ==> r(b[at]) > k >= 0))
    ensures Ordered(Insert(b, at, xs), r)
  {
    var c := Insert(b, at, xs);
    forall i, j | 0 <= i < j < |c| && r(c[i]) >= 0 && r(c[j]) >= 0
      ensures r(c[i]) <= r(c[j])
    {
      var i' := if i < at then i else i - |xs|;
      var j' := if j < at then j else j - |xs|;
      assert at <= i < at + |xs| ==> c[i] == xs[i - at] && c[i] in xs;
      assert at <= j < at + |xs| ==> c[j] == xs[j - at] && c[j] in xs;
      if at <= i < at + |xs| && j >= at + |xs| {
        assert r(b[at]) <= r(b[j']) by {
          if j' > at { assert b[at] == b[at]; }
        }
      }
    }
  }
}
