/**
 When a later section's new heading cuts an earlier section short. A section ends at the next line that starts with
 `### `, but a new heading is put above the next line that reads as a heading of a later section, indented or not. So
 the new heading can come to stand inside a section, and what that section carried below it is lost to it.
 */
module ChangelogCuts {
  import opened Text
  import opened Scan
  import opened ScanParts
  import opened Changelog
  import opened ChangelogPlaces
  import opened ChangelogSplice

  // ---------------------------------------------------------------- the condition

  /** The upper part of a section has the bullet of `e`, and the sub-lines as well if that bullet is its last. */
  predicate Held(part: seq<string>, e: Entry) {
    Keeps(part, Lead(Key(e)), Bullet(), Lacks(e))
  }

  /** The line that a new heading for `s` would be put above. */
  function Place(b: seq<string>, s: Section): nat {
    First(b, Later(s), 0)
  }

  /** The lines of section `t` above that line, if that line is inside the section. */
  function Upper(b: seq<string>, s: Section, t: Section): Option<seq<string>> {
    Reach(b, HeadingOf(t), AnyHeading(), Place(b, s))
  }

  /** A new heading for `s` would cut off entry `e` of section `t`, or a sub-line of it. */
  predicate Severs(b: seq<string>, s: Section, t: Section, e: Entry) {
    Upper(b, s, t).Some? && !Held(Upper(b, s, t).value, e)
  }

  /** The fragments need a new heading for `s`. */
  predicate Opens(b: seq<string>, frags: Fragments, s: Section) {
    s in frags && Merge(frags[s]) != [] && Body(b, s).None?
  }

  predicate Cuts(b: seq<string>, frags: Fragments, s: Section, t: Section, e: Entry) {
    Rank(t) < Rank(s) && Opens(b, frags, s) && Severs(b, s, t, e)
  }

  function Cutters(b: seq<string>, frags: Fragments, t: Section, e: Entry): Section -> bool {
    (s: Section) => Cuts(b, frags, s, t, e)
  }

  ghost predicate SomeFrom(p: Section -> bool, i: nat) {
    exists s :: Rank(s) >= i && p(s)
  }

  /** The heading of some section from rank `i` on cuts off `e`. */
  ghost predicate CutFrom(b: seq<string>, frags: Fragments, i: nat, t: Section, e: Entry) {
    SomeFrom(Cutters(b, frags, t, e), i)
  }

  // ---------------------------------------------------------------- lines put to rest

  /** From `at` on there are only blank lines up to line `stop`, which starts at column 0, or up to the end. */
  predicate Rests(b: seq<string>, at: nat, stop: nat) {
    Resting(b, BlankLine(), Bullet(), at, stop)
  }

  predicate EndsSection(b: seq<string>, stop: nat) {
    stop < |b| ==> AnyHeading()(b[stop])
  }

  /** What folding an entry in and appending new ones put in: no heading, and no bullet before another line of the
      section. */
  ghost predicate Gentle(b: seq<string>, at: nat, xs: seq<string>, stop: nat) {
    && Rests(b, at, stop)
    && NoHit(xs, AnyHeading()) && NoHeadings(xs)
    && (NoHit(xs, Bullet()) || EndsSection(b, stop))
  }

  lemma HeadingIsTop(l: string)
    requires AnyHeading()(l)
    ensures TopLevel(l)
  {
    SolidNotBlank(l, 0);
  }

  lemma IndentedHeading(l: string, s: Section)
    requires LaterThan(s, l) && !AnyHeading()(l)
    ensures !TopLevel(l) && !Blank(l)
  {
    var t: Section :| Rank(t) > Rank(s) && Trim(l) == Heading(t);
    assert ReadsAsHeading(l);
    if TopLevel(l) {
      FlushHeading(l);
    }
  }

  lemma NoLater(xs: seq<string>, s: Section)
    requires NoHeadings(xs)
    ensures NoHit(xs, Later(s))
  {
    forall l | l in xs ensures !Later(s)(l) {
      assert !ReadsAsHeading(l);
    }
  }

  // ---------------------------------------------------------------- gentle insertions

  /** Lines where a new heading would go are indented, or they end a section. */
  lemma PlacesAre(b: seq<string>, s: Section)
    ensures forall l :: l in b && Later(s)(l) && !AnyHeading()(l) ==> !BlankLine()(l) && !Bullet()(l)
  {
    forall l | l in b && Later(s)(l) && !AnyHeading()(l)
      ensures !Blank(l) && !TopLevel(l)
    {
      IndentedHeading(l, s);
    }
  }

  lemma SolidAre(b: seq<string>, key: string)
    ensures forall l :: l in b && (AnyHeading()(l) || Lead(key)(l)) ==> !BlankLine()(l)
  {
    forall l | l in b && AnyHeading()(l)
      ensures !Blank(l)
    {
      HeadingIsTop(l);
    }
  }

  lemma SeversKept(b: seq<string>, at: nat, xs: seq<string>, stop: nat, s: Section, t: Section, e: Entry)
    requires Rests(b, at, stop) && NoHit(xs, HeadingOf(t)) && NoHit(xs, AnyHeading()) && NoHit(xs, Later(s))
    requires (NoHit(xs, Bullet()) && NoHit(xs, Lead(Key(e)))) || EndsSection(b, stop)
    ensures Severs(Insert(b, at, xs), s, t, e) <==> Severs(b, s, t, e)
  {
    PlacesAre(b, s);
    RestKeepsReach(
      b, at, xs, stop, Later(s), HeadingOf(t), AnyHeading(), BlankLine(), Bullet(), Lead(Key(e)), Lacks(e));
  }

  /** What a section carries it still carries. */
  lemma CarriedKept(b: seq<string>, at: nat, xs: seq<string>, stop: nat, t: Section, e: Entry)
    requires Rests(b, at, stop) && NoHit(xs, HeadingOf(t)) && NoHit(xs, AnyHeading())
    requires (NoHit(xs, Bullet()) && NoHit(xs, Lead(Key(e)))) || EndsSection(b, stop)
    requires Body(b, t).Some? && Full(Body(b, t).value, Lead(Key(e)), Bullet(), Lacks(e))
    ensures Body(Insert(b, at, xs), t).Some?
    ensures Full(Body(Insert(b, at, xs), t).value, Lead(Key(e)), Bullet(), Lacks(e))
  {
    SolidAre(b, Key(e));
    LacksMonotone(e);
    RestKeepsFull(b, at, xs, stop, HeadingOf(t), AnyHeading(), BlankLine(), Bullet(), Lead(Key(e)), Lacks(e));
  }

  lemma CarriedMeansFull(b: seq<string>, t: Section, e: Entry)
    ensures Carried(b, t, e) <==> Body(b, t).Some? && Full(Body(b, t).value, Lead(Key(e)), Bullet(), Lacks(e))
  {
    CarriedInBody(b, t, e);
    if Body(b, t).Some? {
      CarriedIsFull(Body(b, t).value, e);
    }
  }

  lemma LacksKept(b: seq<string>, at: nat, xs: seq<string>, s: Section)
    requires at <= |b| && NoHit(xs, HeadingOf(s))
    ensures Body(Insert(b, at, xs), s).None? <==> Body(b, s).None?
  {
    AboveAt(b, at, xs, HeadingOf(s));
  }

  // ---------------------------------------------------------------- the turn of a section that is there

  /** From `b` to `c` nothing becomes or ceases to be cut off, no section appears, and no entry is lost. */
  ghost predicate Steady(b: seq<string>, c: seq<string>, s: Section, t: Section, e: Entry) {
    && (Severs(c, s, t, e) <==> Severs(b, s, t, e))
    && (Body(c, s).None? <==> Body(b, s).None?)
    && (Carried(b, t, e) ==> Carried(c, t, e))
  }

  lemma GentleSteady(b: seq<string>, at: nat, xs: seq<string>, stop: nat, s: Section, t: Section, e: Entry)
    requires Gentle(b, at, xs, stop)
    ensures Steady(b, Insert(b, at, xs), s, t, e)
  {
    NoHeadingsNoHit(xs, s);
    NoHeadingsNoHit(xs, t);
    NoLater(xs, s);
    if NoHit(xs, Bullet()) {
      NoBulletNoLead(xs, Key(e));
    }
    SeversKept(b, at, xs, stop, s, t, e);
    LacksKept(b, at, xs, s);
    CarriedMeansFull(b, t, e);
    CarriedMeansFull(Insert(b, at, xs), t, e);
    if Carried(b, t, e) {
      CarriedKept(b, at, xs, stop, t, e);
    }
  }

  lemma LocateRests(body: seq<string>, e: Entry) returns (at: nat, stop: nat)
    requires LocateIn(body, e).Found?
    ensures at == LocateIn(body, e).subsEnd && Rests(body, at, stop)
  {
    at := LocateIn(body, e).subsEnd;
    stop := Span(body, Lead(Key(e)), Bullet()).value.end;
  }

  lemma LocateAt(b: seq<string>, s: Section, e: Entry) returns (lo: nat, hi: nat)
    requires Locate(b, s, e).Found?
    ensures lo <= hi <= |b| && (hi < |b| ==> Bullet()(b[hi])) && LocateIn(b[lo..hi], e).Found?
    ensures Locate(b, s, e).subsEnd == lo + LocateIn(b[lo..hi], e).subsEnd
  {
    lo, hi := SectionRange(b, s).value.start + 1, SectionRange(b, s).value.end;
    assert Body(b, s) == Some(b[lo..hi]);
    if hi < |b| {
      HeadingIsTop(b[hi]);
    }
  }

  lemma RestIn(b: seq<string>, lo: nat, hi: nat, body: seq<string>, e: Entry) returns (at: nat, stop: nat)
    requires lo <= hi <= |b| && (hi < |b| ==> Bullet()(b[hi])) && body == b[lo..hi] && LocateIn(body, e).Found?
    ensures at == LocateIn(body, e).subsEnd && Rests(b, lo + at, stop)
  {
    var x;
    at, x := LocateRests(body, e);
    RestInside(b, lo, hi, body, BlankLine(), Bullet(), at, x);
    stop := lo + x;
  }

  lemma FoldRests(b: seq<string>, s: Section, e: Entry) returns (stop: nat)
    requires Locate(b, s, e).Found?
    ensures Rests(b, Locate(b, s, e).subsEnd, stop)
  {
    var lo, hi := LocateAt(b, s, e);
    var at;
    at, stop := RestIn(b, lo, hi, b[lo..hi], e);
  }

  lemma FoldSteady(b: seq<string>, u: Section, x: Entry, s: Section, t: Section, e: Entry)
    requires Locate(b, u, x).Found? && GoodEntry(x) && NoHeadings(x)
    ensures var loc := Locate(b, u, x); Steady(b, Insert(b, loc.subsEnd, loc.missing), s, t, e)
  {
    LocateParts(b, u, x);
    MissingFacts(x, Under(Body(b, u).value, x).value);
    var stop := FoldRests(b, u, x);
    GentleSteady(b, Locate(b, u, x).subsEnd, Locate(b, u, x).missing, stop, s, t, e);
  }

  lemma {:induction false} FoldAllSteady(
      b: seq<string>, u: Section, entries: seq<Entry>, s: Section, t: Section, e: Entry)
    requires AllGood(entries)
    ensures Steady(b, FoldAll(b, u, entries).block, s, t, e)
    decreases |entries|
  {
    if entries != [] {
      var loc := Locate(b, u, entries[0]);
      if loc.Found? {
        FoldSteady(b, u, entries[0], s, t, e);
        FoldAllSteady(Insert(b, loc.subsEnd, loc.missing), u, entries[1..], s, t, e);
      } else {
        FoldAllSteady(b, u, entries[1..], s, t, e);
      }
    }
  }

  lemma AppendGentle(b: seq<string>, u: Section, news: seq<Entry>, start: nat, end: nat, first: bool)
    requires SectionRange(b, u) == Some(Range(start, end)) && start < end <= |b| && AllGood(news)
    ensures Gentle(b, InkEnd(b, Range(start, end)), Pad(first, "") + Flatten(news), end)
  {
    NewsLines(news);
    BlankFacts();
    if end < |b| {
      HeadingIsTop(b[end]);
    }
  }

  lemma AppendSteady(b: seq<string>, u: Section, news: seq<Entry>, s: Section, t: Section, e: Entry)
    requires SectionRange(b, u).Some? && AllGood(news)
    ensures Steady(b, AppendNews(b, u, news), s, t, e)
  {
    var Range(start, end) := SectionRange(b, u).value;
    var at := InkEnd(b, Range(start, end));
    AppendGentle(b, u, news, start, end, at == start + 1);
    GentleSteady(b, at, Pad(at == start + 1, "") + Flatten(news), end, s, t, e);
  }

  lemma ThereSteady(b: seq<string>, u: Section, entries: seq<Entry>, s: Section, t: Section, e: Entry)
    requires Body(b, u).Some? && Placeable(entries)
    ensures Steady(b, SpliceSection(b, u, entries), s, t, e)
  {
    var f := FoldAll(b, u, entries);
    FoldAllSteady(b, u, entries, s, t, e);
    FoldAllSteady(b, u, entries, u, t, e);
    FoldAllNews(b, u, entries);
    if f.news != [] {
      AppendSteady(f.block, u, f.news, s, t, e);
    }
  }

  // ---------------------------------------------------------------- the turn of a section that is not

  lemma PlacesOrdered(b: seq<string>, u: Section, s: Section)
    requires Rank(u) <= Rank(s)
    ensures Place(b, u) <= Place(b, s)
  {
    var p := Place(b, s);
    if p < |b| {
      assert LaterThan(u, b[p]);
    }
  }

  /** The lines that come with a new heading. */
  function NewLines(b: seq<string>, u: Section, lines: seq<string>): seq<string> {
    Pad(Place(b, u) == 0, "") + [Heading(u)] + ([""] + lines + [""])
  }

  lemma OneHeading(b: seq<string>, u: Section, lines: seq<string>, l: string)
    requires NoHeadings(lines) && l in NewLines(b, u, lines) && ReadsAsHeading(l)
    ensures Trim(l) == Heading(u)
  {
    BlankFacts();
    HeadingFacts(u);
  }

  lemma OnlyItsHeading(b: seq<string>, u: Section, lines: seq<string>, s: Section)
    requires NoHeadings(lines)
    ensures s != u ==> NoHit(NewLines(b, u, lines), HeadingOf(s))
    ensures Rank(u) <= Rank(s) ==> NoHit(NewLines(b, u, lines), Later(s))
  {
    forall l, t: Section | l in NewLines(b, u, lines) && Trim(l) == Heading(t) ensures t == u {
      assert ReadsAsHeading(l);
      OneHeading(b, u, lines, l);
      HeadingInjective(u, t);
    }
  }

  /** Sections that start below the new heading do not notice it. */
  lemma NewAboveBody(b: seq<string>, u: Section, lines: seq<string>, t: Section)
    requires NoHeadings(lines) && t != u
    requires SectionRange(b, t).Some? ==> Place(b, u) <= SectionRange(b, t).value.start
    ensures Body(AppendUnder(b, Place(b, u), Heading(u), "", lines), t) == Body(b, t)
  {
    OnlyItsHeading(b, u, lines, t);
    SpanAfter(b, HeadingOf(t), AnyHeading(), Place(b, u), NewLines(b, u, lines));
  }

  lemma NewAbove(b: seq<string>, u: Section, lines: seq<string>, s: Section, t: Section, e: Entry)
    requires NoHeadings(lines) && t != u && Rank(u) < Rank(s)
    requires SectionRange(b, t).Some? ==> Place(b, u) <= SectionRange(b, t).value.start
    ensures Steady(b, AppendUnder(b, Place(b, u), Heading(u), "", lines), s, t, e)
  {
    var at := Place(b, u);
    var xs := NewLines(b, u, lines);
    OnlyItsHeading(b, u, lines, s);
    OnlyItsHeading(b, u, lines, t);
    LacksKept(b, at, xs, s);
    NewAboveBody(b, u, lines, t);
    CarriedInBody(b, t, e);
    CarriedInBody(Insert(b, at, xs), t, e);
    MovedSevers(b, at, xs, u, s, t, e);
  }

  lemma MovedSevers(b: seq<string>, at: nat, xs: seq<string>, u: Section, s: Section, t: Section, e: Entry)
    requires at == Place(b, u) && Rank(u) < Rank(s) && NoHit(xs, Later(s)) && NoHit(xs, HeadingOf(t))
    requires SectionRange(b, t).Some? ==> at <= SectionRange(b, t).value.start
    ensures Severs(Insert(b, at, xs), s, t, e) <==> Severs(b, s, t, e)
  {
    PlacesOrdered(b, u, s);
    ReachMoved(b, at, xs, Later(s), HeadingOf(t), AnyHeading());
    var a := b[..Place(b, s)];
    SpanOfPart(b, HeadingOf(t), AnyHeading(), |a|);
    OpenMoved(a, HeadingOf(t), AnyHeading(), at, xs);
  }

  lemma OpenIsHeld(a: seq<string>, at: nat, pad: seq<string>, u: Section, news: seq<Entry>, e: Entry)
    requires at <= |a| && NoHit(a, HeadingOf(u)) && NoHit(pad, HeadingOf(u)) && Placeable(news) && e in news
    ensures var xs := pad + [Heading(u)] + ([""] + Flatten(news) + [""]);
      var open := Open(Insert(a, at, xs), HeadingOf(u), AnyHeading());
      open.Some? ==> Held(open.value, e)
  {
    var xs := pad + [Heading(u)] + ([""] + Flatten(news) + [""]);
    NewHeadingLines(u, news);
    if Open(Insert(a, at, xs), HeadingOf(u), AnyHeading()).Some? {
      var below := OpenBegins(a, HeadingOf(u), AnyHeading(), at, pad, Heading(u), "", Flatten(news));
      NewCarried(news, below, e);
      CarriedIsFull([""] + Flatten(news) + below, e);
      FullKeeps([""] + Flatten(news) + below, Lead(Key(e)), Bullet(), Lacks(e));
    }
  }

  /** No later heading cuts off an entry that has just been put down under a heading of its own. */
  lemma NewIsHeld(b: seq<string>, u: Section, news: seq<Entry>, s: Section, e: Entry)
    requires SectionRange(b, u).None? && Placeable(news) && e in news && Rank(u) < Rank(s)
    ensures !Severs(AppendNews(b, u, news), s, u, e)
  {
    var at := Place(b, u);
    NewsNoHeadings(news);
    OnlyItsHeading(b, u, Flatten(news), s);
    PlacesOrdered(b, u, s);
    ReachMoved(b, at, NewLines(b, u, Flatten(news)), Later(s), HeadingOf(u), AnyHeading());
    NoneNoHit(b, HeadingOf(u), AnyHeading());
    NewHeadingLines(u, news);
    OpenIsHeld(b[..Place(b, s)], at, Pad(at == 0, ""), u, news, e);
  }

  // ---------------------------------------------------------------- a section that has been cut

  /** Section `t` ends above every line that reads as a heading later than `u`. */
  predicate Sealed(b: seq<string>, t: Section, u: Section) {
    SectionRange(b, t).Some? && SectionRange(b, t).value.end <= Place(b, u)
  }

  lemma SealedInsert(b: seq<string>, at: nat, xs: seq<string>, t: Section, u: Section)
    requires Sealed(b, t, u) && SectionRange(b, t).value.end <= at <= |b|
    requires SectionRange(b, t).value.end == at ==> xs != [] && AnyHeading()(xs[0])
    ensures SectionRange(Insert(b, at, xs), t) == SectionRange(b, t)
    ensures Body(Insert(b, at, xs), t) == Body(b, t) && Sealed(Insert(b, at, xs), t, u)
  {
    var Range(start, end) := SectionRange(b, t).value;
    FirstStays(b, at, xs, Later(u), end);
    if at == end {
      SpanCutAt(b, HeadingOf(t), AnyHeading(), at, xs, start, end);
    } else {
      SpanStays(b, HeadingOf(t), AnyHeading(), at, xs, start, end);
    }
  }

  lemma CutHere(b: seq<string>, at: nat, xs: seq<string>, t: Section, u: Section, start: nat, end: nat)
    requires SectionRange(b, t) == Some(Range(start, end)) && start < at <= end <= |b| && at == Place(b, u)
    requires xs != [] && AnyHeading()(xs[0])
    ensures Body(Insert(b, at, xs), t) == Some(b[start + 1..at]) && Sealed(Insert(b, at, xs), t, u)
  {
    SpanCutAt(b, HeadingOf(t), AnyHeading(), at, xs, start, end);
    FirstStays(b, at, xs, Later(u), at);
  }

  lemma UpperIs(b: seq<string>, s: Section, t: Section, e: Entry, start: nat, end: nat)
    requires SectionRange(b, t) == Some(Range(start, end)) && start < Place(b, s)
    ensures start < end <= |b|
    ensures Place(b, s) >= end ==> !Severs(b, s, t, e)
    ensures Place(b, s) < end ==> (Severs(b, s, t, e) <==> !Held(b[start + 1..Place(b, s)], e))
  {
    ReachIs(b, HeadingOf(t), AnyHeading(), Place(b, s), start, end);
  }

  lemma PartOfPart(b: seq<string>, lo: nat, mid: nat, hi: nat)
    requires lo <= mid <= hi <= |b|
    ensures b[lo..mid] <= b[lo..hi]
  {
  }

  lemma NewBelowEnd(b: seq<string>, at: nat, xs: seq<string>, u: Section, t: Section, e: Entry, start: nat, end: nat)
    requires SectionRange(b, t) == Some(Range(start, end)) && end <= at == Place(b, u)
    requires xs != [] && AnyHeading()(xs[0])
    ensures Body(Insert(b, at, xs), t) == Body(b, t) && Sealed(Insert(b, at, xs), t, u) && !Severs(b, u, t, e)
  {
    UpperIs(b, u, t, e, start, end);
    SealedInsert(b, at, xs, t, u);
  }

  lemma NewInside(
      b: seq<string>, at: nat, xs: seq<string>, u: Section, t: Section, e: Entry, start: nat, end: nat,
      part: seq<string>)
    requires SectionRange(b, t) == Some(Range(start, end)) && start < at == Place(b, u) < end <= |b|
    requires xs != [] && AnyHeading()(xs[0]) && part == b[start + 1..at] && CarriedIn(b[start + 1..end], e)
    ensures Body(Insert(b, at, xs), t) == Some(part) && Sealed(Insert(b, at, xs), t, u)
    ensures CarriedIn(part, e) <==> !Severs(b, u, t, e)
  {
    UpperIs(b, u, t, e, start, end);
    CutHere(b, at, xs, t, u, start, end);
    PartOfPart(b, start + 1, at, end);
    CarriedIsFull(b[start + 1..end], e);
    CarriedIsFull(part, e);
    FullPart(part, b[start + 1..end], Lead(Key(e)), Bullet(), Lacks(e));
  }

  /** A section that starts above the new heading is out of reach of later ones, and has lost what was cut off. */
  lemma NewBelow(b: seq<string>, u: Section, lines: seq<string>, t: Section, e: Entry, start: nat, end: nat)
    requires SectionRange(b, t) == Some(Range(start, end)) && start < Place(b, u) && Carried(b, t, e)
    ensures var c := AppendUnder(b, Place(b, u), Heading(u), "", lines);
      Sealed(c, t, u) && (Carried(c, t, e) <==> !Severs(b, u, t, e))
  {
    var at := Place(b, u);
    var xs := NewLines(b, u, lines);
    HeadingFacts(u);
    assert xs[0] == Heading(u);
    CarriedInBody(b, t, e);
    CarriedInBody(Insert(b, at, xs), t, e);
    if at < end {
      InsideIs(b, HeadingOf(t), AnyHeading(), start, end);
      NewInside(b, at, xs, u, t, e, start, end, b[start + 1..at]);
    } else {
      NewBelowEnd(b, at, xs, u, t, e, start, end);
    }
  }

  /** What a later heading cuts off is cut off by an earlier one already. */
  lemma SeversEarlier(b: seq<string>, u: Section, s: Section, t: Section, e: Entry, start: nat, end: nat)
    requires Rank(u) <= Rank(s) && SectionRange(b, t) == Some(Range(start, end)) && start < Place(b, u)
    requires end <= |b| && Severs(b, s, t, e)
    ensures Severs(b, u, t, e)
  {
    PlacesOrdered(b, u, s);
    UpperIs(b, u, t, e, start, end);
    UpperIs(b, s, t, e, start, end);
    var p, q := Place(b, u), Place(b, s);
    if Held(b[start + 1..p], e) {
      PartOfPart(b, start + 1, p, q);
      LacksMonotone(e);
      KeepsMore(b[start + 1..p], b[start + 1..q], Lead(Key(e)), Bullet(), Lacks(e), BlankLine());
    }
  }

  lemma StartsBelow(b: seq<string>, v: Section, t: Section, u: Section)
    requires Sealed(b, t, u) && Rank(u) < Rank(v) && SectionRange(b, v).Some?
    ensures SectionRange(b, t).value.end <= SectionRange(b, v).value.start
  {
    var start := SectionRange(b, v).value.start;
    assert LaterThan(u, b[start]);
  }

  lemma {:induction false} SealedFold(b: seq<string>, v: Section, entries: seq<Entry>, t: Section, u: Section)
    requires Sealed(b, t, u) && Rank(u) < Rank(v)
    ensures var c := FoldAll(b, v, entries).block; Sealed(c, t, u) && Body(c, t) == Body(b, t)
    decreases |entries|
  {
    if entries != [] {
      var loc := Locate(b, v, entries[0]);
      if loc.Found? {
        LocateParts(b, v, entries[0]);
        StartsBelow(b, v, t, u);
        SealedInsert(b, loc.subsEnd, loc.missing, t, u);
        SealedFold(Insert(b, loc.subsEnd, loc.missing), v, entries[1..], t, u);
      } else {
        SealedFold(b, v, entries[1..], t, u);
      }
    }
  }

  lemma SealedAppend(b: seq<string>, v: Section, news: seq<Entry>, t: Section, u: Section)
    requires Sealed(b, t, u) && Rank(u) < Rank(v)
    ensures var c := AppendNews(b, v, news); Sealed(c, t, u) && Body(c, t) == Body(b, t)
  {
    var range := SectionRange(b, v);
    if range.Some? {
      var at := InkEnd(b, range.value);
      StartsBelow(b, v, t, u);
      SealedInsert(b, at, Pad(at == range.value.start + 1, "") + Flatten(news), t, u);
    } else {
      PlacesOrdered(b, u, v);
      HeadingFacts(v);
      assert NewLines(b, v, Flatten(news))[0] == Heading(v);
      SealedInsert(b, Place(b, v), NewLines(b, v, Flatten(news)), t, u);
    }
  }

  /** No later turn touches it. */
  lemma SealedTurn(b: seq<string>, frags: Fragments, v: Section, t: Section, u: Section)
    requires Sealed(b, t, u) && Rank(u) < Rank(v)
    ensures var c := SpliceTurn(b, frags, v); Sealed(c, t, u) && Body(c, t) == Body(b, t)
  {
    if v in frags {
      var f := FoldAll(b, v, Merge(frags[v]));
      SealedFold(b, v, Merge(frags[v]), t, u);
      if f.news != [] {
        SealedAppend(f.block, v, f.news, t, u);
      }
    }
  }

  lemma {:induction false} SealedStays(b: seq<string>, frags: Fragments, i: nat, t: Section, u: Section)
    requires Rank(u) < i <= |SECTIONS| && Sealed(b, t, u)
    ensures Body(SpliceBlock(b, frags, i), t) == Body(b, t)
    decreases |SECTIONS| - i
  {
    if i < |SECTIONS| {
      RankAt(i);
      var c := SpliceTurn(b, frags, SECTIONS[i]);
      SealedTurn(b, frags, SECTIONS[i], t, u);
      SealedStays(c, frags, i + 1, t, u);
      assert SpliceBlock(b, frags, i) == SpliceBlock(c, frags, i + 1);
    }
  }

  lemma RankAt(i: nat)
    requires i < |SECTIONS|
    ensures Rank(SECTIONS[i]) == i
    ensures forall t :: Rank(t) == i ==> t == SECTIONS[i]
  {
  }

  // ---------------------------------------------------------------- what becomes of an entry

  /** No line of the entries of the sections from rank `i` on reads as a heading. */
  ghost predicate FlushFrom(frags: Fragments, i: nat) {
    forall s :: s in frags && Rank(s) >= i ==> Placeable(Merge(frags[s]))
  }

  lemma IdleTurn(b: seq<string>, frags: Fragments, v: Section)
    requires v in frags ==> Merge(frags[v]) == []
    ensures SpliceTurn(b, frags, v) == b
  {
  }

  lemma StillTurn(b: seq<string>, frags: Fragments, v: Section, s: Section, t: Section, e: Entry)
    requires !Opens(b, frags, v) && FlushFrom(frags, Rank(v))
    ensures Steady(b, SpliceTurn(b, frags, v), s, t, e)
  {
    if v in frags && Merge(frags[v]) != [] {
      ThereSteady(b, v, Merge(frags[v]), s, t, e);
    } else {
      IdleTurn(b, frags, v);
    }
  }

  lemma OpeningTurn(b: seq<string>, frags: Fragments, v: Section)
    requires Opens(b, frags, v) && FlushFrom(frags, Rank(v))
    ensures var lines := Flatten(Merge(frags[v]));
      NoHeadings(lines) && SpliceTurn(b, frags, v) == AppendUnder(b, Place(b, v), Heading(v), "", lines)
    ensures SpliceTurn(b, frags, v) == AppendNews(b, v, Merge(frags[v])) && SectionRange(b, v).None?
  {
    FoldAllNoSection(b, v, Merge(frags[v]));
    NewsLines(Merge(frags[v]));
  }

  lemma CutsSame(b: seq<string>, c: seq<string>, frags: Fragments, s: Section, t: Section, e: Entry)
    requires Steady(b, c, s, t, e)
    ensures Cutters(c, frags, t, e)(s) <==> Cutters(b, frags, t, e)(s)
  {
  }

  lemma SomeLater(was: Section -> bool, now: Section -> bool, v: Section)
    requires !was(v) && forall s :: Rank(s) > Rank(v) ==> (now(s) <==> was(s))
    ensures SomeFrom(now, Rank(v) + 1) <==> SomeFrom(was, Rank(v))
  {
    if s :| Rank(s) >= Rank(v) && was(s) {
      assert Rank(s) == Rank(v) ==> s == v;
    }
  }

  /** `e` is carried at the end exactly when no heading from rank `i` on cuts it off. */
  ghost predicate Fated(b: seq<string>, frags: Fragments, i: nat, t: Section, e: Entry)
    requires i <= |SECTIONS|
  {
    Carried(SpliceBlock(b, frags, i), t, e) <==> !CutFrom(b, frags, i, t, e)
  }

  /** The turn of `v` puts a new heading below the start of section `t`. */
  predicate Below(b: seq<string>, frags: Fragments, v: Section, t: Section) {
    Opens(b, frags, v) && SectionRange(b, t).Some? && SectionRange(b, t).value.start < Place(b, v)
  }

  lemma AboveTurn(b: seq<string>, frags: Fragments, v: Section, s: Section, t: Section, e: Entry)
    requires FlushFrom(frags, Rank(v)) && t != v && Opens(b, frags, v) && !Below(b, frags, v, t)
    ensures Rank(s) > Rank(v) ==> Steady(b, SpliceTurn(b, frags, v), s, t, e)
    ensures Carried(b, t, e) ==> Carried(SpliceTurn(b, frags, v), t, e)
  {
    OpeningTurn(b, frags, v);
    var lines := Flatten(Merge(frags[v]));
    if Rank(s) > Rank(v) {
      NewAbove(b, v, lines, s, t, e);
    }
    NewAboveBody(b, v, lines, t);
    CarriedInBody(b, t, e);
    CarriedInBody(SpliceTurn(b, frags, v), t, e);
  }

  lemma TurnKeeps(b: seq<string>, frags: Fragments, v: Section, s: Section, t: Section, e: Entry)
    requires FlushFrom(frags, Rank(v)) && t != v && !Below(b, frags, v, t)
    ensures Rank(s) > Rank(v) ==> Steady(b, SpliceTurn(b, frags, v), s, t, e)
    ensures Carried(b, t, e) ==> Carried(SpliceTurn(b, frags, v), t, e)
  {
    if Opens(b, frags, v) {
      AboveTurn(b, frags, v, s, t, e);
    } else {
      StillTurn(b, frags, v, s, t, e);
    }
  }

  lemma NoCutHere(b: seq<string>, frags: Fragments, v: Section, t: Section, e: Entry)
    requires !Below(b, frags, v, t)
    ensures !Cutters(b, frags, t, e)(v)
  {
  }

  lemma TurnOf(b: seq<string>, frags: Fragments, v: Section)
    ensures SpliceBlock(b, frags, Rank(v)) == SpliceBlock(SpliceTurn(b, frags, v), frags, Rank(v) + 1)
  {
  }

  /** A new heading above the section, or a turn without one. */
  lemma QuietTurn(b: seq<string>, frags: Fragments, v: Section, t: Section, e: Entry)
    requires FlushFrom(frags, Rank(v)) && t != v && !Below(b, frags, v, t)
    ensures CutFrom(SpliceTurn(b, frags, v), frags, Rank(v) + 1, t, e) <==> CutFrom(b, frags, Rank(v), t, e)
  {
    var c := SpliceTurn(b, frags, v);
    forall s | Rank(s) > Rank(v) ensures Cutters(c, frags, t, e)(s) <==> Cutters(b, frags, t, e)(s) {
      TurnKeeps(b, frags, v, s, t, e);
      CutsSame(b, c, frags, s, t, e);
    }
    NoCutHere(b, frags, v, t, e);
    SomeLater(Cutters(b, frags, t, e), Cutters(c, frags, t, e), v);
  }

  lemma QuietFate(b: seq<string>, frags: Fragments, v: Section, t: Section, e: Entry)
    requires FlushFrom(frags, Rank(v)) && t != v && !Below(b, frags, v, t)
    requires Fated(SpliceTurn(b, frags, v), frags, Rank(v) + 1, t, e)
    ensures Fated(b, frags, Rank(v), t, e)
  {
    QuietTurn(b, frags, v, t, e);
    TurnOf(b, frags, v);
  }

  lemma SealedFate(b: seq<string>, frags: Fragments, i: nat, t: Section, u: Section, e: Entry)
    requires Rank(u) < i <= |SECTIONS| && Sealed(b, t, u)
    ensures Carried(SpliceBlock(b, frags, i), t, e) <==> Carried(b, t, e)
  {
    SealedStays(b, frags, i, t, u);
    CarriedInBody(b, t, e);
    CarriedInBody(SpliceBlock(b, frags, i), t, e);
  }

  lemma BelowTurn(b: seq<string>, frags: Fragments, v: Section, t: Section, e: Entry)
    requires FlushFrom(frags, Rank(v)) && Carried(b, t, e) && Below(b, frags, v, t)
    ensures Sealed(SpliceTurn(b, frags, v), t, v)
    ensures Carried(SpliceTurn(b, frags, v), t, e) <==> !Severs(b, v, t, e)
  {
    var Range(start, end) := SectionRange(b, t).value;
    OpeningTurn(b, frags, v);
    NewBelow(b, v, Flatten(Merge(frags[v])), t, e, start, end);
  }

  /** A new heading below the start of the section settles the matter. */
  lemma CuttingTurn(b: seq<string>, frags: Fragments, v: Section, t: Section, e: Entry)
    requires Rank(t) < Rank(v) && FlushFrom(frags, Rank(v)) && Carried(b, t, e) && Below(b, frags, v, t)
    ensures Fated(b, frags, Rank(v), t, e)
  {
    BelowTurn(b, frags, v, t, e);
    SealedFate(SpliceTurn(b, frags, v), frags, Rank(v) + 1, t, v, e);
    TurnOf(b, frags, v);
    CutOnce(b, frags, v, t, e);
  }

  lemma CutOnce(b: seq<string>, frags: Fragments, v: Section, t: Section, e: Entry)
    requires Rank(t) < Rank(v) && Below(b, frags, v, t)
    ensures CutFrom(b, frags, Rank(v), t, e) <==> Severs(b, v, t, e)
  {
    var Range(start, end) := SectionRange(b, t).value;
    assert Severs(b, v, t, e) ==> Cutters(b, frags, t, e)(v);
    forall s | Rank(s) >= Rank(v) && Cutters(b, frags, t, e)(s) ensures Severs(b, v, t, e) {
      SeversEarlier(b, v, s, t, e, start, end);
    }
  }

  lemma NoTurnLeft(b: seq<string>, frags: Fragments, t: Section, e: Entry)
    requires Carried(b, t, e)
    ensures Fated(b, frags, |SECTIONS|, t, e)
  {
  }

  /** An entry that is there when its own turn has passed. */
  lemma {:induction false} LateFate(b: seq<string>, frags: Fragments, i: nat, t: Section, e: Entry)
    requires Rank(t) < i <= |SECTIONS| && FlushFrom(frags, i) && Carried(b, t, e)
    ensures Fated(b, frags, i, t, e)
    decreases |SECTIONS| - i, 1
  {
    if i == |SECTIONS| {
      NoTurnLeft(b, frags, t, e);
    } else {
      RankAt(i);
      LateTurn(b, frags, SECTIONS[i], t, e);
    }
  }

  lemma {:induction false} LateTurn(b: seq<string>, frags: Fragments, v: Section, t: Section, e: Entry)
    requires Rank(t) < Rank(v) && FlushFrom(frags, Rank(v)) && Carried(b, t, e)
    ensures Fated(b, frags, Rank(v), t, e)
    decreases |SECTIONS| - Rank(v), 0
  {
    if Below(b, frags, v, t) {
      CuttingTurn(b, frags, v, t, e);
    } else {
      TurnKeeps(b, frags, v, t, t, e);
      LateFate(SpliceTurn(b, frags, v), frags, Rank(v) + 1, t, e);
      QuietFate(b, frags, v, t, e);
    }
  }

  lemma OwnTurnOpens(b: seq<string>, frags: Fragments, t: Section, e: Entry)
    requires FlushFrom(frags, Rank(t)) && Opens(b, frags, t) && e in Merge(frags[t])
    ensures !CutFrom(SpliceTurn(b, frags, t), frags, Rank(t) + 1, t, e) && !CutFrom(b, frags, Rank(t), t, e)
  {
    OpeningTurn(b, frags, t);
    forall s | Rank(s) > Rank(t) ensures !Severs(SpliceTurn(b, frags, t), s, t, e) {
      NewIsHeld(b, t, Merge(frags[t]), s, e);
    }
  }

  lemma OwnTurn(b: seq<string>, frags: Fragments, t: Section, e: Entry)
    requires FlushFrom(frags, Rank(t)) && t in frags && e in Merge(frags[t])
    ensures Carried(SpliceTurn(b, frags, t), t, e)
    ensures CutFrom(SpliceTurn(b, frags, t), frags, Rank(t) + 1, t, e) <==> CutFrom(b, frags, Rank(t), t, e)
  {
    var m :| 0 <= m < |Merge(frags[t])| && Merge(frags[t])[m] == e;
    SpliceSectionCarries(b, t, Merge(frags[t]), m);
    if Opens(b, frags, t) {
      OwnTurnOpens(b, frags, t, e);
    } else {
      var c := SpliceTurn(b, frags, t);
      forall s ensures Cutters(c, frags, t, e)(s) <==> Cutters(b, frags, t, e)(s) {
        StillTurn(b, frags, t, s, t, e);
        CutsSame(b, c, frags, s, t, e);
      }
      SomeLater(Cutters(b, frags, t, e), Cutters(c, frags, t, e), t);
    }
  }

  lemma StartsAfter(b: seq<string>, frags: Fragments, v: Section, t: Section)
    requires Rank(v) < Rank(t)
    ensures !Below(b, frags, v, t)
  {
    if SectionRange(b, t).Some? {
      assert LaterThan(v, b[SectionRange(b, t).value.start]);
    }
  }

  lemma OwnFate(b: seq<string>, frags: Fragments, t: Section, e: Entry)
    requires FlushFrom(frags, Rank(t)) && t in frags && e in Merge(frags[t])
    ensures Fated(b, frags, Rank(t), t, e)
  {
    OwnTurn(b, frags, t, e);
    LateFate(SpliceTurn(b, frags, t), frags, Rank(t) + 1, t, e);
    TurnOf(b, frags, t);
  }

  /** After a pass over any block a merged entry is carried exactly when no new heading cuts it off: a condition on the
      block as it was. */
  lemma {:induction false} Fate(b: seq<string>, frags: Fragments, i: nat, t: Section, e: Entry)
    requires i <= Rank(t) && FlushFrom(frags, i) && t in frags && e in Merge(frags[t])
    ensures Fated(b, frags, i, t, e)
    decreases |SECTIONS| - i
  {
    if i == Rank(t) {
      OwnFate(b, frags, t, e);
    } else {
      var v := SECTIONS[i];
      RankAt(i);
      StartsAfter(b, frags, v, t);
      Fate(SpliceTurn(b, frags, v), frags, i + 1, t, e);
      QuietFate(b, frags, v, t, e);
    }
  }
}
