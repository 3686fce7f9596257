/** Parts of spans: what an insertion, or a cut, leaves of them. */
module ScanParts {
  import opened Scan

  /** Where a span stands after an insertion of elements that neither start nor end one. */
  lemma SpanShift<T>(b: seq<T>, f: T -> bool, g: T -> bool, at: nat, xs: seq<T>)
    requires at <= |b| && NoHit(xs, f) && NoHit(xs, g)
    ensures Span(b, f, g).None? ==> Span(Insert(b, at, xs), f, g).None?
    ensures Span(b, f, g).Some? ==>
      var Range(start, end) := Span(b, f, g).value;
      Span(Insert(b, at, xs), f, g)
        == Some(Range(if at <= start then start + |xs| else start, if at <= end then end + |xs| else end))
  {
    var span := Span(b, f, g);
    if span.None? {
      FirstShifted(b, at, xs, f, 0);
    } else if at <= span.value.start {
      SpanMoved(b, f, g, at, xs, span.value.start, span.value.end);
    } else {
      FirstKept(b, at, xs, f, 0);
      if at <= span.value.end {
        FirstShifted(b, at, xs, g, span.value.start + 1);
      } else {
        FirstKept(b, at, xs, g, span.value.start + 1);
      }
    }
  }

  lemma InsertThere<T>(b: seq<T>, f: T -> bool, g: T -> bool, at: nat, xs: seq<T>, start: nat, end: nat)
    requires Span(b, f, g) == Some(Range(start, end)) && start < at <= end <= |b| && NoHit(xs, g)
    ensures Inside(b, f, g) == Some(b[start + 1..end])
    ensures Inside(Insert(b, at, xs), f, g) == Some(Insert(b[start + 1..end], at - (start + 1), xs))
    ensures forall k :: start < k < end ==> !g(b[k])
    ensures end < |b| ==> g(b[end])
  {
    InsertInSpan(b, f, g, at, xs);
  }

  /** What stands behind the first `f` element, when nothing that `g` accepts ends it. */
  function Open<T>(a: seq<T>, f: T -> bool, g: T -> bool): Option<seq<T>> {
    var span := Span(a, f, g);
    if span.Some? && span.value.end == |a| then Some(a[span.value.start + 1..]) else None
  }

  lemma SpanOfPart<T>(b: seq<T>, f: T -> bool, g: T -> bool, k: nat)
    requires k <= |b|
    ensures Span(b[..k], f, g).Some? <==> Span(b, f, g).Some? && Span(b, f, g).value.start < k
    ensures Span(b[..k], f, g).Some? ==> var Range(start, end) := Span(b, f, g).value;
      Span(b[..k], f, g) == Some(Range(start, if end < k then end else k))
  {
    var start := First(b, f, 0);
    if start < k {
      FirstIs(b[..k], f, 0, start);
      var end := First(b, g, start + 1);
      FirstIs(b[..k], g, start + 1, if end < k then end else k);
    } else {
      FirstIs(b[..k], f, 0, k);
    }
  }

  lemma AboveAt<T>(b: seq<T>, at: nat, xs: seq<T>, f: T -> bool)
    requires at <= |b| && NoHit(xs, f)
    ensures var p := First(b, f, 0); First(Insert(b, at, xs), f, 0) == if at <= p then p + |xs| else p
  {
    if at <= First(b, f, 0) {
      FirstShifted(b, at, xs, f, 0);
    } else {
      FirstKept(b, at, xs, f, 0);
    }
  }

  /** The first `f` element, and what stands above it, when elements are put in that `f` does not accept. */
  lemma AboveMoved<T>(b: seq<T>, at: nat, xs: seq<T>, f: T -> bool)
    requires at <= |b| && NoHit(xs, f)
    ensures var c := Insert(b, at, xs); var p, q := First(b, f, 0), First(c, f, 0);
      && (q < |c| <==> p < |b|) && (p < |b| ==> c[q] == b[p])
      && c[..q] == if at <= p then Insert(b[..p], at, xs) else b[..p]
  {
    AboveAt(b, at, xs, f);
  }

  lemma OpenNone<T>(a: seq<T>, f: T -> bool, g: T -> bool, at: nat, xs: seq<T>)
    requires at <= |a| && NoHit(xs, f) && NoHit(xs, g) && Open(a, f, g).None?
    ensures Open(Insert(a, at, xs), f, g).None?
  {
    SpanShift(a, f, g, at, xs);
  }

  /** Elements that neither start nor end a span go into what is open, or leave it as it is. */
  lemma OpenShift<T>(a: seq<T>, f: T -> bool, g: T -> bool, at: nat, xs: seq<T>) returns (lo: nat)
    requires at <= |a| && NoHit(xs, f) && NoHit(xs, g) && Open(a, f, g).Some?
    ensures lo <= |a| && Open(a, f, g) == Some(a[lo..]) && NoHit(a[lo..], g)
    ensures Open(Insert(a, at, xs), f, g) == Some(if at < lo then a[lo..] else Insert(a[lo..], at - lo, xs))
  {
    SpanShift(a, f, g, at, xs);
    lo := Span(a, f, g).value.start + 1;
    var c := Insert(a, at, xs);
    if at < lo {
      assert c[lo + |xs|..] == a[lo..];
    } else {
      assert c[lo..] == Insert(a[lo..], at - lo, xs);
    }
  }

  lemma OpenMoved<T>(a: seq<T>, f: T -> bool, g: T -> bool, at: nat, xs: seq<T>)
    requires at <= |a| && NoHit(xs, f) && (Span(a, f, g).Some? ==> at <= Span(a, f, g).value.start)
    ensures Open(Insert(a, at, xs), f, g) == Open(a, f, g)
  {
    var span := Span(a, f, g);
    if span.None? {
      FirstShifted(a, at, xs, f, 0);
    } else {
      var Range(start, end) := span.value;
      SpanMoved(a, f, g, at, xs, start, end);
      assert Insert(a, at, xs)[start + |xs| + 1..] == a[start + 1..];
    }
  }

  lemma OpenOfPart<T>(b: seq<T>, f: T -> bool, g: T -> bool, k: nat)
    requires k <= |b|
    ensures Open(b[..k], f, g).Some?
      <==> Span(b, f, g).Some? && Span(b, f, g).value.start < k <= Span(b, f, g).value.end
    ensures Open(b[..k], f, g).Some? ==> Open(b[..k], f, g).value == b[Span(b, f, g).value.start + 1..k]
  {
    SpanOfPart(b, f, g, k);
    if Open(b[..k], f, g).Some? {
      var start := Span(b, f, g).value.start;
      assert b[..k][start + 1..] == b[start + 1..k];
    }
  }

  lemma FirstStays<T>(b: seq<T>, at: nat, xs: seq<T>, f: T -> bool, n: nat)
    requires n <= at <= |b| && n <= First(b, f, 0)
    ensures n <= First(Insert(b, at, xs), f, 0)
  {
  }

  /** An element that ends spans, put at `at` behind the start of one, or right where it ends. */
  lemma SpanCutAt<T>(b: seq<T>, f: T -> bool, g: T -> bool, at: nat, xs: seq<T>, start: nat, end: nat)
    requires Span(b, f, g) == Some(Range(start, end)) && start < at <= end <= |b| && xs != [] && g(xs[0])
    ensures Span(Insert(b, at, xs), f, g) == Some(Range(start, at))
    ensures Inside(Insert(b, at, xs), f, g) == Some(b[start + 1..at])
  {
    var c := Insert(b, at, xs);
    FirstKept(b, at, xs, f, 0);
    assert c[at] == xs[0];
    FirstIs(c, g, start + 1, at);
    SliceKept(b, at, xs, start + 1, at);
  }

  /** The same with elements before it that end no span. */
  lemma SpanPadCut<T>(b: seq<T>, f: T -> bool, g: T -> bool, at: nat, pad: seq<T>, xs: seq<T>, start: nat, end: nat)
    requires Span(b, f, g) == Some(Range(start, end)) && start < at <= end <= |b| && xs != [] && g(xs[0])
    requires NoHit(pad, g)
    ensures Inside(Insert(b, at, pad + xs), f, g) == Some(b[start + 1..at] + pad)
  {
    var c := Insert(b, at, pad + xs);
    var stop := at + |pad|;
    FirstKept(b, at, pad + xs, f, 0);
    forall k | start < k < stop ensures !g(c[k]) {
      if k >= at { assert c[k] == pad[k - at] && pad[k - at] in pad; }
    }
    assert c[stop] == xs[0];
    FirstIs(c, g, start + 1, stop);
    assert c[start + 1..stop] == b[start + 1..at] + pad;
  }

  lemma SpanStays<T>(b: seq<T>, f: T -> bool, g: T -> bool, at: nat, xs: seq<T>, start: nat, end: nat)
    requires Span(b, f, g) == Some(Range(start, end)) && end < at <= |b|
    ensures Span(Insert(b, at, xs), f, g) == Some(Range(start, end))
    ensures Inside(Insert(b, at, xs), f, g) == Inside(b, f, g)
  {
    FirstKept(b, at, xs, f, 0);
    FirstKept(b, at, xs, g, start + 1);
    SpanBefore(b, f, g, at, xs);
  }

  /** What a span holds above `p`, when `p` is inside it. */
  function Reach<T>(b: seq<T>, f: T -> bool, g: T -> bool, p: nat): Option<seq<T>> {
    var span := Span(b, f, g);
    if span.Some? && span.value.start < p < span.value.end then Some(b[span.value.start + 1..p]) else None
  }

  lemma ReachIs<T>(b: seq<T>, f: T -> bool, g: T -> bool, p: nat, start: nat, end: nat)
    requires Span(b, f, g) == Some(Range(start, end)) && start < p
    ensures start < end <= |b|
    ensures Reach(b, f, g, p) == if p < end then Some(b[start + 1..p]) else None
  {
  }

  lemma ReachIsOpen<T>(b: seq<T>, f: T -> bool, g: T -> bool, p: nat)
    requires p <= |b|
    ensures p == |b| || g(b[p]) ==> Reach(b, f, g, p).None?
    ensures p < |b| && !g(b[p]) ==> Reach(b, f, g, p) == Open(b[..p], f, g)
  {
    OpenOfPart(b, f, g, p);
  }

  /** From `at` on there are only `blank` elements up to place `stop`, where a `top` one stands, or up to the end. */
  predicate Resting<T>(b: seq<T>, blank: T -> bool, top: T -> bool, at: nat, stop: nat) {
    && at <= stop <= |b|
    && (forall k :: at <= k < stop ==> blank(b[k]))
    && (stop < |b| ==> top(b[stop]))
  }

  lemma RestInside<T>(
      b: seq<T>, lo: nat, hi: nat, part: seq<T>, blank: T -> bool, top: T -> bool, at: nat, stop: nat)
    requires lo <= hi <= |b| && part == b[lo..hi] && Resting(part, blank, top, at, stop)
    requires hi < |b| ==> top(b[hi])
    ensures Resting(b, blank, top, lo + at, lo + stop)
  {
    forall k | lo + at <= k < lo + stop ensures blank(b[k]) {
      assert b[k] == part[k - lo];
    }
  }

  lemma RestBelow<T>(b: seq<T>, body: seq<T>, lo: nat, hi: nat, blank: T -> bool, top: T -> bool, at: nat)
    requires lo <= at <= hi <= |b| && body == b[lo..hi] && Resting(b, blank, top, at, hi)
    ensures forall k :: at - lo <= k < |body| ==> blank(body[k])
  {
    assert forall k :: at - lo <= k < |body| ==> body[k] == b[lo + k];
  }

  /** Such a place above the end of a span rests inside it. */
  lemma RestEnds<T>(b: seq<T>, blank: T -> bool, top: T -> bool, g: T -> bool, at: nat, stop: nat, end: nat)
    requires Resting(b, blank, top, at, stop) && at <= end <= |b| && (end < |b| ==> !blank(b[end]))
    requires forall k :: at <= k < end ==> !g(b[k])
    ensures stop <= end && ((stop < |b| ==> g(b[stop])) ==> stop == end)
  {
  }

  /** Whatever is put behind the start of a span, what stood above it there stays in it. */
  lemma SpanAbove<T>(b: seq<T>, f: T -> bool, g: T -> bool, at: nat, xs: seq<T>)
    requires Span(b, f, g).Some? && Span(b, f, g).value.start < at <= |b|
    ensures Inside(Insert(b, at, xs), f, g).Some?
    ensures forall k :: Span(b, f, g).value.start < k < Span(b, f, g).value.end && k < at ==>
      b[k] in Inside(Insert(b, at, xs), f, g).value
  {
    var c := Insert(b, at, xs);
    var Range(start, end) := Span(b, f, g).value;
    FirstKept(b, at, xs, f, 0);
    var stop := First(c, g, start + 1);
    assert stop >= if end < at then end else at;
    InsideHas(c, f, g, start, stop);
    assert forall k :: start < k < end && k < at ==> b[k] == c[k];
  }

  /** A new span begins with what came with it. */
  lemma NewSpanBegins<T>(b: seq<T>, f: T -> bool, g: T -> bool, at: nat, pad: seq<T>, head: T, body: seq<T>)
      returns (start: nat, end: nat)
    requires at <= |b| && NoHit(b, f) && NoHit(pad, f) && f(head) && NoHit(body, g)
    ensures var c := Insert(b, at, pad + [head] + body);
      && start + 1 + |body| <= end <= |c| && Span(c, f, g) == Some(Range(start, end))
      && c[start + 1..start + 1 + |body|] == body
  {
    var xs := pad + [head] + body;
    var c := Insert(b, at, xs);
    start := at + |pad|;
    forall k | 0 <= k < start
      ensures !f(c[k])
    {
      if k < at { assert b[k] in b; } else { assert c[k] == pad[k - at] && c[k] in pad; }
    }
    FirstIs(c, f, 0, start);
    end := First(c, g, start + 1);
    forall k | start < k < start + 1 + |body|
      ensures c[k] == body[k - start - 1] && !g(c[k])
    {
      assert body[k - start - 1] in body;
    }
    assert c[start + 1..start + 1 + |body|] == body;
  }

  lemma NoneNoHit<T>(b: seq<T>, f: T -> bool, g: T -> bool)
    ensures Span(b, f, g).None? <==> NoHit(b, f)
  {
    var start := First(b, f, 0);
    if start < |b| {
      assert b[start] in b;
    }
  }

  lemma SliceHead<T>(c: seq<T>, lo: nat, n: nat, hi: nat)
    requires lo + n <= hi <= |c|
    ensures c[lo..hi][..n] == c[lo..lo + n]
  {
  }

  lemma TailHead<T>(c: seq<T>, lo: nat, n: nat)
    requires lo + n <= |c|
    ensures c[lo..][..n] == c[lo..lo + n]
  {
  }

  lemma SplitTail<T>(tail: seq<T>, n: nat, x: T, xs: seq<T>) returns (below: seq<T>)
    requires n <= |tail| && tail[..n] == [x] + xs + [x]
    ensures tail == [x] + xs + below
  {
    below := [x] + tail[n..];
    assert tail == tail[..n] + tail[n..];
  }

  /** A span put in with a head of its own begins with its elements ... */
  lemma AppendUnderBegins<T>(b: seq<T>, f: T -> bool, g: T -> bool, at: nat, head: T, x: T, xs: seq<T>)
      returns (below: seq<T>)
    requires at <= |b| && NoHit(b, f) && f(head) && !f(x) && NoHit([x] + xs + [x], g)
    ensures Inside(AppendUnder(b, at, head, x, xs), f, g) == Some([x] + xs + below)
  {
    var c := AppendUnder(b, at, head, x, xs);
    var body := [x] + xs + [x];
    var start, end := NewSpanBegins(b, f, g, at, Pad(at == 0, x), head, body);
    SliceHead(c, start + 1, |body|, end);
    below := SplitTail(c[start + 1..end], |body|, x, xs);
  }

  /** ... and so does what is open after it. */
  lemma OpenBegins<T>(b: seq<T>, f: T -> bool, g: T -> bool, at: nat, pad: seq<T>, head: T, x: T, xs: seq<T>)
      returns (below: seq<T>)
    requires at <= |b| && NoHit(b, f) && NoHit(pad, f) && f(head) && NoHit([x] + xs + [x], g)
    requires Open(Insert(b, at, pad + [head] + ([x] + xs + [x])), f, g).Some?
    ensures Open(Insert(b, at, pad + [head] + ([x] + xs + [x])), f, g) == Some([x] + xs + below)
  {
    var body := [x] + xs + [x];
    var c := Insert(b, at, pad + [head] + body);
    var start, end := NewSpanBegins(b, f, g, at, pad, head, body);
    TailHead(c, start + 1, |body|);
    below := SplitTail(c[start + 1..], |body|, x, xs);
  }

  // ---------------------------------------------------------------- what is looked for in a part

  /** The elements of `some` that are not blank are in `more`. */
  ghost predicate InkWithin<T>(some: seq<T>, more: seq<T>, blank: T -> bool) {
    forall x :: x in some && !blank(x) ==> x in more
  }

  /** What lacks something still lacks it with fewer elements; blank ones do not count. */
  ghost predicate Monotone<T(!new)>(lacks: seq<T> -> bool, blank: T -> bool) {
    forall some, more :: InkWithin(some, more, blank) && lacks(more) ==> lacks(some)
  }

  /** There is a `lead`, and what follows it up to the next `top` lacks nothing. */
  predicate Full<T>(body: seq<T>, lead: T -> bool, top: T -> bool, lacks: seq<T> -> bool) {
    Inside(body, lead, top).Some? && !lacks(Inside(body, lead, top).value)
  }

  /** There is a `lead`, and another `top` after it or nothing lacking. */
  predicate Keeps<T>(part: seq<T>, lead: T -> bool, top: T -> bool, lacks: seq<T> -> bool) {
    var span := Span(part, lead, top);
    span.Some? && (span.value.end < |part| || !lacks(part[span.value.start + 1..]))
  }

  predicate Loses<T>(part: Option<seq<T>>, lead: T -> bool, top: T -> bool, lacks: seq<T> -> bool) {
    part.Some? && !Keeps(part.value, lead, top, lacks)
  }

  /** The upper part of something full is full exactly when it keeps what is looked for. */
  lemma FullPart<T>(part: seq<T>, body: seq<T>, lead: T -> bool, top: T -> bool, lacks: seq<T> -> bool)
    requires part <= body && Full(body, lead, top, lacks)
    ensures Full(part, lead, top, lacks) <==> Keeps(part, lead, top, lacks)
  {
    assert body[..|part|] == part;
    SpanOfPart(body, lead, top, |part|);
    if Span(part, lead, top).Some? {
      var Range(start, end) := Span(part, lead, top).value;
      if end < |part| {
        assert part[start + 1..end] == body[start + 1..end];
      } else {
        assert part[start + 1..end] == part[start + 1..];
      }
    }
  }

  lemma FullKeeps<T>(part: seq<T>, lead: T -> bool, top: T -> bool, lacks: seq<T> -> bool)
    requires Full(part, lead, top, lacks)
    ensures Keeps(part, lead, top, lacks)
  {
    FullPart(part, part, lead, top, lacks);
  }

  /** What an upper part keeps a longer one keeps. */
  lemma KeepsMore<T(!new)>(
      part: seq<T>, more: seq<T>, lead: T -> bool, top: T -> bool, lacks: seq<T> -> bool, blank: T -> bool)
    requires part <= more && Monotone(lacks, blank) && Keeps(part, lead, top, lacks)
    ensures Keeps(more, lead, top, lacks)
  {
    assert more[..|part|] == part;
    SpanOfPart(more, lead, top, |part|);
    var lo := Span(part, lead, top).value.start + 1;
    TailWithin(part, more, lo);
    assert InkWithin(part[lo..], more[lo..], blank);
  }

  lemma TailWithin<T>(part: seq<T>, more: seq<T>, lo: nat)
    requires part <= more && lo <= |part|
    ensures Within(part[lo..], more[lo..])
  {
    var some := part[lo..];
    forall x | x in some
      ensures x in more[lo..]
    {
      var k :| 0 <= k < |some| && some[k] == x;
      assert more[lo..][k] == x;
    }
  }

  /** Elements put above some `top` of a part change nothing about what it keeps. */
  lemma KeepsMoved<T>(
      part: seq<T>, at: nat, xs: seq<T>, stop: nat, lead: T -> bool, top: T -> bool, lacks: seq<T> -> bool)
    requires at <= stop < |part| && top(part[stop]) && NoHit(xs, top) && NoHit(xs, lead)
    ensures Keeps(Insert(part, at, xs), lead, top, lacks) <==> Keeps(part, lead, top, lacks)
  {
    SpanShift(part, lead, top, at, xs);
    var span := Span(part, lead, top);
    if span.Some? && span.value.end == |part| {
      var start := span.value.start;
      assert stop <= start;
      assert Insert(part, at, xs)[start + |xs| + 1..] == part[start + 1..];
    }
  }

  /** Elements put into what is full, either no `top` or below all that is not blank, leave it full. */
  lemma FullInsert<T(!new)>(
      body: seq<T>, at: nat, xs: seq<T>, lead: T -> bool, top: T -> bool, lacks: seq<T> -> bool, blank: T -> bool)
    requires at <= |body| && Monotone(lacks, blank) && Full(body, lead, top, lacks)
    requires (NoHit(xs, top) && NoHit(xs, lead)) || (forall k :: at <= k < |body| ==> blank(body[k]) && !lead(body[k]))
    ensures Full(Insert(body, at, xs), lead, top, lacks)
  {
    var c := Insert(body, at, xs);
    if NoHit(xs, top) && NoHit(xs, lead) {
      SpanKeeps(body, lead, top, at, xs);
    } else {
      SpanAbove(body, lead, top, at, xs);
    }
    assert InkWithin(Inside(body, lead, top).value, Inside(c, lead, top).value, blank);
  }

  // ---------------------------------------------------------------- elements that come to rest

  lemma RestInsideFull<T(!new)>(
      b: seq<T>, body: seq<T>, at: nat, xs: seq<T>, end: nat, blank: T -> bool, top: T -> bool, lead: T -> bool,
      lacks: seq<T> -> bool, lo: nat)
    requires lo <= at <= end <= |b| && body == b[lo..end] && Monotone(lacks, blank) && Full(body, lead, top, lacks)
    requires (NoHit(xs, top) && NoHit(xs, lead)) || Resting(b, blank, top, at, end)
    requires forall x :: x in b && lead(x) ==> !blank(x)
    ensures Full(Insert(body, at - lo, xs), lead, top, lacks)
  {
    if !(NoHit(xs, top) && NoHit(xs, lead)) {
      RestBelow(b, body, lo, end, blank, top, at);
      forall k | at - lo <= k < |body| ensures !lead(body[k]) {
        assert body[k] == b[lo + k] && b[lo + k] in b;
      }
    }
    FullInsert(body, at - lo, xs, lead, top, lacks, blank);
  }

  /** What comes to rest in a span either brings no `top` with it or rests at the end of the span. */
  lemma RestKeepsFull<T(!new)>(
      b: seq<T>, at: nat, xs: seq<T>, stop: nat, f: T -> bool, g: T -> bool, blank: T -> bool, top: T -> bool,
      lead: T -> bool, lacks: seq<T> -> bool)
    requires Resting(b, blank, top, at, stop) && NoHit(xs, f) && NoHit(xs, g) && Monotone(lacks, blank)
    requires (NoHit(xs, top) && NoHit(xs, lead)) || (stop < |b| ==> g(b[stop]))
    requires forall x :: x in b && (g(x) || lead(x)) ==> !blank(x)
    requires Inside(b, f, g).Some? && Full(Inside(b, f, g).value, lead, top, lacks)
    ensures Inside(Insert(b, at, xs), f, g).Some? && Full(Inside(Insert(b, at, xs), f, g).value, lead, top, lacks)
  {
    var Range(start, end) := Span(b, f, g).value;
    if at <= start {
      SpanAfter(b, f, g, at, xs);
    } else if end < at {
      SpanBefore(b, f, g, at, xs);
    } else {
      InsertThere(b, f, g, at, xs, start, end);
      assert end < |b| ==> b[end] in b;
      RestEnds(b, blank, top, g, at, stop, end);
      RestInsideFull(b, b[start + 1..end], at, xs, end, blank, top, lead, lacks, start + 1);
    }
  }

  /** What comes to rest above an element that is neither blank nor a `top` rests above a `top` there. */
  lemma RestKeepsOpen<T>(
      a: seq<T>, at: nat, xs: seq<T>, stop: nat, f: T -> bool, g: T -> bool, blank: T -> bool, top: T -> bool,
      lead: T -> bool, lacks: seq<T> -> bool)
    requires Resting(a, blank, top, at, stop) && stop < |a| && NoHit(xs, f) && NoHit(xs, g)
    requires (NoHit(xs, top) && NoHit(xs, lead)) || g(a[stop])
    ensures Loses(Open(Insert(a, at, xs), f, g), lead, top, lacks) <==> Loses(Open(a, f, g), lead, top, lacks)
  {
    if Open(a, f, g).None? {
      OpenNone(a, f, g, at, xs);
    } else {
      var lo := OpenShift(a, f, g, at, xs);
      if at >= lo {
        assert a[lo..][stop - lo] == a[stop] && a[stop] in a[lo..];
        KeepsMoved(a[lo..], at - lo, xs, stop - lo, lead, top, lacks);
      }
    }
  }

  /** The first `later` element: what the span around it loses there is the same after something has come to rest. */
  lemma RestKeepsReach<T>(
      b: seq<T>, at: nat, xs: seq<T>, stop: nat, later: T -> bool, f: T -> bool, g: T -> bool, blank: T -> bool,
      top: T -> bool, lead: T -> bool, lacks: seq<T> -> bool)
    requires Resting(b, blank, top, at, stop) && NoHit(xs, f) && NoHit(xs, g) && NoHit(xs, later)
    requires (NoHit(xs, top) && NoHit(xs, lead)) || (stop < |b| ==> g(b[stop]))
    requires forall x :: x in b && later(x) && !g(x) ==> !blank(x) && !top(x)
    ensures Loses(Reach(Insert(b, at, xs), f, g, First(Insert(b, at, xs), later, 0)), lead, top, lacks)
      <==> Loses(Reach(b, f, g, First(b, later, 0)), lead, top, lacks)
  {
    var p := First(b, later, 0);
    ReachMoved(b, at, xs, later, f, g);
    if p < |b| && !g(b[p]) && at <= p {
      assert b[p] in b;
      RestKeepsOpen(b[..p], at, xs, stop, f, g, blank, top, lead, lacks);
    }
  }

  lemma ReachMoved<T>(b: seq<T>, at: nat, xs: seq<T>, later: T -> bool, f: T -> bool, g: T -> bool)
    requires at <= |b| && NoHit(xs, later)
    ensures var p := First(b, later, 0); var a := b[..p];
      var was := Reach(b, f, g, p);
      var now := Reach(Insert(b, at, xs), f, g, First(Insert(b, at, xs), later, 0));
      if p == |b| || g(b[p]) then was.None? && now.None?
      else was == Open(a, f, g) && now == Open(if at <= p then Insert(a, at, xs) else a, f, g)
  {
    var c := Insert(b, at, xs);
    ReachIsOpen(b, f, g, First(b, later, 0));
    ReachIsOpen(c, f, g, First(c, later, 0));
    AboveMoved(b, at, xs, later);
  }
}
