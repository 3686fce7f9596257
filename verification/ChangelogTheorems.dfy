/** The promises of the changelog assembler, over whole changelogs and any validated fragments. */
module ChangelogTheorems {
  import opened Text
  import opened Scan
  import opened Changelog
  import opened ChangelogPlaces
  import opened ChangelogSplice
  import opened ChangelogMerge
  import opened ChangelogCuts

  ghost predicate Validated(frags: Fragments) {
    forall s :: s in frags ==> Valid(frags[s])
  }

  ghost predicate FlushFragments(frags: Fragments) {
    forall s :: s in frags ==> FlushBodies(frags[s])
  }

  // ---------------------------------------------------------------- doing nothing

  lemma {:induction false} PendingNone(b: seq<string>, s: Section, entries: seq<Entry>)
    ensures Pending(b, s, entries) == [] <==> forall e :: e in entries ==> Carried(b, s, e)
  {
    if entries != [] {
      var rest := entries[1..];
      PendingNone(b, s, rest);
      assert Carried(b, s, entries[0]) <==> Complete(Locate(b, s, entries[0]));
      assert forall e :: e in entries <==> e == entries[0] || e in rest;
      assert Pending(b, s, entries) == [] <==> Carried(b, s, entries[0]) && Pending(b, s, rest) == [];
    }
  }

  lemma {:induction false} FoldAllGrows(b: seq<string>, s: Section, entries: seq<Entry>)
    ensures |FoldAll(b, s, entries).block| >= |b|
    decreases |entries|
  {
    if entries != [] {
      var loc := Locate(b, s, entries[0]);
      FoldAllGrows(if loc.Found? then Insert(b, loc.subsEnd, loc.missing) else b, s, entries[1..]);
    }
  }

  lemma {:induction false} FoldAllIdle(b: seq<string>, s: Section, entries: seq<Entry>)
    requires Pending(b, s, entries) == []
    ensures FoldAll(b, s, entries) == Folded(b, [])
    decreases |entries|
  {
    if entries != [] {
      var loc := Locate(b, s, entries[0]);
      assert Complete(loc) && Insert(b, loc.subsEnd, loc.missing) == b;
      FoldAllIdle(b, s, entries[1..]);
    }
  }

  /** A fold that adds no line and leaves no entry to append had nothing to do. */
  lemma {:induction false} FoldAllStill(b: seq<string>, s: Section, entries: seq<Entry>)
    requires |FoldAll(b, s, entries).block| == |b| && FoldAll(b, s, entries).news == []
    ensures Pending(b, s, entries) == []
    decreases |entries|
  {
    if entries != [] {
      var loc := Locate(b, s, entries[0]);
      var c := Insert(b, loc.subsEnd, loc.missing);
      FoldAllGrows(c, s, entries[1..]);
      assert loc.missing == [] && c == b;
      FoldAllStill(b, s, entries[1..]);
    }
  }

  lemma {:induction false} SpliceSectionStill(b: seq<string>, s: Section, entries: seq<Entry>)
    ensures |SpliceSection(b, s, entries)| >= |b|
    ensures Pending(b, s, entries) == [] ==> SpliceSection(b, s, entries) == b
    ensures |SpliceSection(b, s, entries)| == |b| ==> Pending(b, s, entries) == [] && SpliceSection(b, s, entries) == b
  {
    var f := FoldAll(b, s, entries);
    FoldAllGrows(b, s, entries);
    if Pending(b, s, entries) == [] {
      FoldAllIdle(b, s, entries);
    } else if f.news == [] && |f.block| == |b| {
      FoldAllStill(b, s, entries);
    } else if f.news != [] {
      assert |Flatten(f.news)| > 0;
      assert |AppendNews(f.block, s, f.news)| > |f.block|;
    }
  }

  ghost predicate NonePending(b: seq<string>, frags: Fragments, i: nat) {
    forall s :: s in frags && Rank(s) >= i ==> Pending(b, s, Merge(frags[s])) == []
  }

  lemma {:induction false} SpliceTurnStill(b: seq<string>, frags: Fragments, i: nat)
    requires i < |SECTIONS|
    ensures var c := SpliceTurn(b, frags, SECTIONS[i]);
      && |c| >= |b|
      && (NonePending(b, frags, i) ==> c == b)
      && (|c| == |b| ==> c == b && (NonePending(b, frags, i) <==> NonePending(b, frags, i + 1)))
  {
    var s := SECTIONS[i];
    RankAt(i);
    if s in frags {
      SpliceSectionStill(b, s, Merge(frags[s]));
    }
  }

  /** One pass over the block changes nothing exactly when no section has anything pending. */
  lemma {:induction false} SpliceBlockStill(b: seq<string>, frags: Fragments, i: nat)
    requires i <= |SECTIONS|
    ensures |SpliceBlock(b, frags, i)| >= |b|
    ensures NonePending(b, frags, i) ==> SpliceBlock(b, frags, i) == b
    ensures |SpliceBlock(b, frags, i)| == |b| ==> NonePending(b, frags, i)
    decreases |SECTIONS| - i
  {
    if i < |SECTIONS| {
      SpliceTurnStill(b, frags, i);
      SpliceBlockStill(SpliceTurn(b, frags, SECTIONS[i]), frags, i + 1);
      assert NonePending(b, frags, i) ==> NonePending(b, frags, i + 1);
    }
  }

  // ---------------------------------------------------------------- what may appear

  /** A line a splice may add: blank, the heading of one of the sections spliced, or a line of its merged entries. */
  ghost predicate Contributed(l: string, frags: Fragments) {
    || l == ""
    || exists s :: s in frags && (l == Heading(s) || l in Flatten(Merge(frags[s])))
  }

  lemma {:induction false} FoldAllLines(b: seq<string>, s: Section, entries: seq<Entry>, l: string)
    requires l in FoldAll(b, s, entries).block
    ensures l in b || l in Flatten(entries)
    decreases |entries|
  {
    if entries != [] {
      var e := entries[0];
      var loc := Locate(b, s, e);
      if loc.Found? {
        var c := Insert(b, loc.subsEnd, loc.missing);
        FoldAllLines(c, s, entries[1..], l);
        InsertHas(b, loc.subsEnd, loc.missing);
        LocateParts(b, s, e);
        MissingIsSub(e[1..], Under(Body(b, s).value, e).value);
      } else {
        FoldAllLines(b, s, entries[1..], l);
      }
    }
  }

  lemma {:induction false} FoldAllNewsFrom(b: seq<string>, s: Section, entries: seq<Entry>)
    ensures forall n :: n in FoldAll(b, s, entries).news ==> n in entries
    decreases |entries|
  {
    if entries != [] {
      var loc := Locate(b, s, entries[0]);
      FoldAllNewsFrom(if loc.Found? then Insert(b, loc.subsEnd, loc.missing) else b, s, entries[1..]);
    }
  }

  lemma {:induction false} SpliceSectionLines(b: seq<string>, s: Section, entries: seq<Entry>, l: string)
    requires l in SpliceSection(b, s, entries)
    ensures l in b || l == "" || l == Heading(s) || l in Flatten(entries)
  {
    var f := FoldAll(b, s, entries);
    if f.news != [] {
      AppendNewsHas(f.block, s, f.news, l);
      if l in Flatten(f.news) {
        FlattenHas(f.news, l);
        FoldAllNewsFrom(b, s, entries);
        FlattenHas(entries, l);
      }
    }
    if l in f.block {
      FoldAllLines(b, s, entries, l);
    }
  }

  lemma {:induction false} SpliceBlockLines(b: seq<string>, frags: Fragments, i: nat, l: string)
    requires i <= |SECTIONS| && l in SpliceBlock(b, frags, i)
    ensures l in b || Contributed(l, frags)
    decreases |SECTIONS| - i
  {
    if i < |SECTIONS| {
      var s := SECTIONS[i];
      var c := SpliceTurn(b, frags, s);
      SpliceBlockLines(c, frags, i + 1, l);
      if s in frags && l in c {
        SpliceSectionLines(b, s, Merge(frags[s]), l);
      }
    }
  }

  lemma EntriesLineFacts(entries: seq<Entry>, l: string)
    requires (forall e :: e in entries ==> GoodEntry(e)) && l in Flatten(entries)
    ensures '\n' !in l && !Release()(l)
  {
    FlattenHas(entries, l);
    var e :| e in entries && l in e;
    EntryLines(e, l);
  }

  lemma AddedFacts(l: string, frags: Fragments)
    requires Validated(frags) && Contributed(l, frags)
    ensures '\n' !in l && !Release()(l)
  {
    if l != "" {
      var s :| s in frags && (l == Heading(s) || l in Flatten(Merge(frags[s])));
      if l == Heading(s) {
        HeadingFacts(s);
      } else {
        MergePlaceable(frags[s]);
        EntriesLineFacts(Merge(frags[s]), l);
      }
    }
  }

  // ---------------------------------------------------------------- only insertions

  lemma {:induction false} FoldAllInserts(b: seq<string>, s: Section, entries: seq<Entry>)
    ensures Subsequence(b, FoldAll(b, s, entries).block)
    decreases |entries|
  {
    if entries == [] {
      SubsequenceSelf(b);
    } else {
      var loc := Locate(b, s, entries[0]);
      if loc.Found? {
        var c := Insert(b, loc.subsEnd, loc.missing);
        SubsequenceInsert(b, loc.subsEnd, loc.missing);
        FoldAllInserts(c, s, entries[1..]);
        SubsequenceTrans(b, c, FoldAll(b, s, entries).block);
      } else {
        FoldAllInserts(b, s, entries[1..]);
      }
    }
  }

  lemma AppendNewsInserts(b: seq<string>, s: Section, news: seq<Entry>)
    ensures Subsequence(b, AppendNews(b, s, news))
  {
    var range := SectionRange(b, s);
    if range.None? {
      SubsequenceAppendUnder(b, First(b, Later(s), 0), Heading(s), "", Flatten(news));
    } else {
      SubsequenceAppendAt(b, InkEnd(b, range.value), range.value.start + 1, "", Flatten(news));
    }
  }

  lemma SpliceTurnInserts(b: seq<string>, frags: Fragments, s: Section)
    ensures Subsequence(b, SpliceTurn(b, frags, s))
  {
    if s in frags {
      var f := FoldAll(b, s, Merge(frags[s]));
      FoldAllInserts(b, s, Merge(frags[s]));
      if f.news != [] {
        AppendNewsInserts(f.block, s, f.news);
        SubsequenceTrans(b, f.block, AppendNews(f.block, s, f.news));
      }
    } else {
      SubsequenceSelf(b);
    }
  }

  lemma {:induction false} SpliceBlockInserts(b: seq<string>, frags: Fragments, i: nat)
    requires i <= |SECTIONS|
    ensures Subsequence(b, SpliceBlock(b, frags, i))
    decreases |SECTIONS| - i
  {
    if i < |SECTIONS| {
      var c := SpliceTurn(b, frags, SECTIONS[i]);
      SpliceTurnInserts(b, frags, SECTIONS[i]);
      SpliceBlockInserts(c, frags, i + 1);
      SubsequenceTrans(b, c, SpliceBlock(c, frags, i + 1));
    } else {
      SubsequenceSelf(b);
    }
  }

  // ---------------------------------------------------------------- everything is placed

  /** A new heading that the fragments need cuts off `e`, an entry of section `t`, or a sub-line of it. */
  ghost predicate CutOff(b: seq<string>, frags: Fragments, t: Section, e: Entry) {
    exists s :: Cuts(b, frags, s, t, e)
  }

  lemma CutOffIsCutFrom(b: seq<string>, frags: Fragments, t: Section, e: Entry)
    ensures CutOff(b, frags, t, e) <==> CutFrom(b, frags, 0, t, e)
  {
    assert forall s :: Cuts(b, frags, s, t, e) <==> Cutters(b, frags, t, e)(s);
  }

  /** None of the entries that the fragments have for `t` is cut off. */
  ghost predicate Whole(b: seq<string>, frags: Fragments, t: Section) {
    t in frags ==> forall e :: e in Merge(frags[t]) ==> !CutOff(b, frags, t, e)
  }

  ghost predicate NothingCut(b: seq<string>, frags: Fragments) {
    forall t :: t in frags ==> Whole(b, frags, t)
  }

  lemma FragmentsPlaceable(frags: Fragments)
    requires Validated(frags) && FlushFragments(frags)
    ensures FlushFrom(frags, 0)
  {
    forall s | s in frags ensures Placeable(Merge(frags[s])) {
      MergePlaceable(frags[s]);
    }
  }

  /** After a pass over any block, a merged entry is carried under its own section exactly when it was not cut off. */
  lemma CarriedIffNotCut(b: seq<string>, frags: Fragments, t: Section, e: Entry)
    requires Validated(frags) && FlushFragments(frags) && t in frags && e in Merge(frags[t])
    ensures Carried(SpliceBlock(b, frags, 0), t, e) <==> !CutOff(b, frags, t, e)
  {
    FragmentsPlaceable(frags);
    Fate(b, frags, 0, t, e);
    CutOffIsCutFrom(b, frags, t, e);
  }

  lemma PendsUnlessWhole(b: seq<string>, frags: Fragments, t: Section)
    requires Validated(frags) && FlushFragments(frags) && t in frags
    ensures Pending(SpliceBlock(b, frags, 0), t, Merge(frags[t])) == [] <==> Whole(b, frags, t)
  {
    forall e | e in Merge(frags[t])
      ensures Carried(SpliceBlock(b, frags, 0), t, e) <==> !CutOff(b, frags, t, e)
    {
      CarriedIffNotCut(b, frags, t, e);
    }
    PendingNone(SpliceBlock(b, frags, 0), t, Merge(frags[t]));
  }

  lemma FlushPlace(b: seq<string>, s: Section)
    requires FlushLeft(b) && Place(b, s) < |b|
    ensures AnyHeading()(b[Place(b, s)])
  {
    var l := b[Place(b, s)];
    assert LaterThan(s, l) && l in b;
    assert ReadsAsHeading(l);
    FlushHeading(l);
  }

  /** A block without indented headings is never cut. */
  lemma FlushLeftIsWhole(b: seq<string>, frags: Fragments)
    requires FlushLeft(b)
    ensures NothingCut(b, frags)
  {
    forall s, t ensures Upper(b, s, t).None? {
      if Place(b, s) < |b| {
        FlushPlace(b, s);
      }
    }
  }

  // ---------------------------------------------------------------- whole changelogs

  /** The lines of a pass over the block of a changelog: no line break and no release heading among them. */
  lemma {:induction false} PassLines(lines: seq<string>, start: nat, end: nat, frags: Fragments)
    requires Validated(frags) && Free(lines, '\n') && UnreleasedRange(lines) == Some(Range(start, end))
    ensures var block := SpliceBlock(lines[start + 1..end], frags, 0); Free(block, '\n') && NoHit(block, Release())
  {
    var was := lines[start + 1..end];
    var block := SpliceBlock(was, frags, 0);
    forall l | l in block
      ensures '\n' !in l && !Release()(l)
    {
      SpliceBlockLines(was, frags, 0, l);
      if l in was {
        var k :| 0 <= k < |was| && was[k] == l;
        assert lines[start + 1 + k] == l;
      } else {
        AddedFacts(l, frags);
      }
    }
  }

  lemma SplitMiddle(lines: seq<string>, lo: nat, hi: nat, middle: seq<string>)
    requires 0 < lo <= hi <= |lines| && Free(lines, '\n') && Free(middle, '\n')
    ensures Split(Join(lines[..lo] + middle + lines[hi..], '\n'), '\n') == lines[..lo] + middle + lines[hi..]
  {
    assert lines[0] == (lines[..lo] + middle + lines[hi..])[0];
    SplitJoin(lines[..lo] + middle + lines[hi..], '\n');
  }

  /** The result of a splice, taken apart: the same lines before and after a new block. */
  lemma SpliceText(changelog: string, frags: Fragments)
    returns (lines: seq<string>, start: nat, end: nat, block: seq<string>)
    requires Validated(frags) && frags != map[] && Splice(changelog, frags).Written?
    ensures lines == Split(changelog, '\n') && UnreleasedRange(lines) == Some(Range(start, end))
    ensures start < end <= |lines| && block == SpliceBlock(lines[start + 1..end], frags, 0)
    ensures Split(Splice(changelog, frags).text, '\n') == lines[..start + 1] + block + lines[end..]
    ensures NoHit(block, Release())
  {
    lines := Split(changelog, '\n');
    start, end := UnreleasedRange(lines).value.start, UnreleasedRange(lines).value.end;
    block := SpliceBlock(lines[start + 1..end], frags, 0);
    SplitFree(changelog, '\n');
    PassLines(lines, start, end, frags);
    SplitMiddle(lines, start + 1, end, block);
  }

  /** The new text has its Unreleased block at the same place, and it is the spliced one. */
  lemma {:induction false} SplicedBlock(changelog: string, frags: Fragments)
    requires Validated(frags) && frags != map[] && Splice(changelog, frags).Written?
    ensures Block(Split(changelog, '\n')).Some?
    ensures Block(Split(Splice(changelog, frags).text, '\n'))
         == Some(SpliceBlock(Block(Split(changelog, '\n')).value, frags, 0))
  {
    var lines, start, end, block := SpliceText(changelog, frags);
    NewMiddle(lines, Unreleased(), Release(), start, end, block);
  }

  lemma NewMiddle(lines: seq<string>, f: string -> bool, g: string -> bool, start: nat, end: nat, middle: seq<string>)
    requires Span(lines, f, g) == Some(Range(start, end)) && NoHit(middle, g)
    ensures Inside(lines[..start + 1] + middle + lines[end..], f, g) == Some(middle)
  {
    var c := lines[..start + 1] + middle + lines[end..];
    assert forall k :: 0 <= k <= start ==> c[k] == lines[k];
    FirstIs(c, f, 0, start);
    var stop := start + 1 + |middle|;
    assert forall k :: start < k < stop ==> c[k] == middle[k - start - 1] && c[k] in middle;
    assert stop < |c| ==> c[stop] == lines[end];
    FirstIs(c, g, start + 1, stop);
    assert c[start + 1..stop] == middle;
  }

  lemma SameMiddle(lines: seq<string>, lo: nat, hi: nat, middle: seq<string>)
    requires lo <= hi <= |lines|
    ensures lines[..lo] + lines[lo..hi] + lines[hi..] == lines
    ensures lines[..lo] + middle + lines[hi..] == lines ==> |middle| == hi - lo
  {
    assert |lines[..lo] + middle + lines[hi..]| == lo + |middle| + |lines| - hi;
  }

  /** Nothing is pending exactly when a splice would leave the changelog as it is, byte for byte. */
  lemma NothingPendingIffUnchanged(changelog: string, frags: Fragments)
    requires Validated(frags) && Splice(changelog, frags).Written?
    ensures NothingPending(changelog, frags) <==> Splice(changelog, frags) == Written(changelog)
  {
    if frags != map[] {
      var lines, start, end, block := SpliceText(changelog, frags);
      var was := lines[start + 1..end];
      SpliceBlockStill(was, frags, 0);
      JoinSplit(changelog, '\n');
      SameMiddle(lines, start + 1, end, block);
      assert NothingPending(changelog, frags) <==> NonePending(was, frags, 0);
    } else {
      assert forall s :: s !in frags;
    }
  }

  ghost predicate NothingCutIn(changelog: string, frags: Fragments) {
    var block := Block(Split(changelog, '\n'));
    block.Some? ==> NothingCut(block.value, frags)
  }

  /** A second splice writes the same text, as a second `--write` should, exactly when no new heading cuts off what the
      section above it carries: a condition on the changelog and the fragments as they are before the first. */
  lemma {:induction false} IdempotentIffNothingCut(changelog: string, frags: Fragments)
    requires Validated(frags) && FlushFragments(frags) && Splice(changelog, frags).Written?
    ensures NothingPending(Splice(changelog, frags).text, frags) <==> NothingCutIn(changelog, frags)
    ensures Splice(Splice(changelog, frags).text, frags) == Splice(changelog, frags) <==> NothingCutIn(changelog, frags)
  {
    if frags != map[] {
      SplicedBlock(changelog, frags);
      var was := Block(Split(changelog, '\n')).value;
      forall t | t in frags
        ensures Pending(SpliceBlock(was, frags, 0), t, Merge(frags[t])) == [] <==> Whole(was, frags, t)
      {
        PendsUnlessWhole(was, frags, t);
      }
      NothingPendingIffUnchanged(Splice(changelog, frags).text, frags);
    } else {
      assert forall t :: t !in frags;
    }
  }

  /** So it does whenever every section heading starts at column 0. */
  lemma SpliceIsIdempotent(changelog: string, frags: Fragments)
    requires Validated(frags) && FlushFragments(frags) && Splice(changelog, frags).Written?
    requires Block(Split(changelog, '\n')).Some? ==> FlushLeft(Block(Split(changelog, '\n')).value)
    ensures Splice(Splice(changelog, frags).text, frags) == Splice(changelog, frags)
  {
    if Block(Split(changelog, '\n')).Some? {
      FlushLeftIsWhole(Block(Split(changelog, '\n')).value, frags);
    }
    IdempotentIffNothingCut(changelog, frags);
  }

  ghost predicate ComesFromEither(block: seq<string>, was: seq<string>, frags: Fragments) {
    forall l :: l in block ==> l in was || Contributed(l, frags)
  }

  /** `after` is `before` with lines of the fragments put in between the two bounds, and nothing else. */
  ghost predicate InsertsInto(
      before: seq<string>, after: seq<string>, frags: Fragments, range: Range, block: seq<string>)
    requires range.start < range.end <= |before|
  {
    var was := before[range.start + 1..range.end];
    && after == before[..range.start + 1] + block + before[range.end..]
    && Subsequence(was, block)
    && ComesFromEither(block, was, frags)
  }

  /** A splice only inserts, only inside the Unreleased block, and only lines that come from the fragments. */
  lemma SpliceOnlyInserts(changelog: string, frags: Fragments)
    requires Validated(frags) && Splice(changelog, frags).Written? && Block(Split(changelog, '\n')).Some?
    ensures var before := Split(changelog, '\n'); var after := Split(Splice(changelog, frags).text, '\n');
      exists block :: InsertsInto(before, after, frags, UnreleasedRange(before).value, block)
  {
    if frags == map[] {
      var lines := Split(changelog, '\n');
      var Range(start, end) := UnreleasedRange(lines).value;
      SubsequenceSelf(lines[start + 1..end]);
      SameMiddle(lines, start + 1, end, lines[start + 1..end]);
      assert InsertsInto(lines, lines, frags, Range(start, end), lines[start + 1..end]);
    } else {
      var lines, start, end, block := SpliceText(changelog, frags);
      PassInserts(lines, start, end, frags);
      assert InsertsInto(lines, Split(Splice(changelog, frags).text, '\n'), frags, Range(start, end), block);
    }
  }

  lemma {:induction false} PassComesFrom(was: seq<string>, frags: Fragments)
    ensures ComesFromEither(SpliceBlock(was, frags, 0), was, frags)
  {
    forall l | l in SpliceBlock(was, frags, 0) ensures l in was || Contributed(l, frags) {
      SpliceBlockLines(was, frags, 0, l);
    }
  }

  lemma PassInserts(lines: seq<string>, start: nat, end: nat, frags: Fragments)
    requires start < end <= |lines|
    ensures var was := lines[start + 1..end]; var block := SpliceBlock(was, frags, 0);
      InsertsInto(lines, lines[..start + 1] + block + lines[end..], frags, Range(start, end), block)
  {
    SpliceBlockInserts(lines[start + 1..end], frags, 0);
    PassComesFrom(lines[start + 1..end], frags);
  }

  /** Under section `s` of the block stands a bullet that reads like the lead of `e`, and each of its
      sub-lines reads like that bullet or like a line between it and the next bullet. */
  ghost predicate Stands(b: seq<string>, s: Section, e: Entry) {
    && Body(b, s).Some?
    && Under(Body(b, s).value, e).Some?
    && forall l :: l in e[1..] ==> Trim(l) == Key(e) || Carries(Under(Body(b, s).value, e).value, Trim(l))
  }

  lemma CarriedStands(b: seq<string>, s: Section, m: Entry, e: Entry)
    requires GoodEntry(m) && Carried(b, s, m)
    requires Key(m) == Key(e) && CoveredBy(m, e)
    ensures Stands(b, s, e)
  {
    CarriedInBody(b, s, m);
    var body := Body(b, s).value;
    CarriedMeans(body, m);
    SubsNoBullet(m);
    MissingNone(m[1..], Under(body, m).value);
    assert Under(body, m) == Under(body, e);
    forall l | l in e[1..]
      ensures Trim(l) == Key(e) || Carries(Under(body, e).value, Trim(l))
    {
      assert l in e;
      var x :| x in m && Trim(x) == Trim(l);
      assert x == m[0] || x in m[1..];
    }
  }

  /** Every entry of every fragment ends up under its own section, lead and sub-lines, unless that section is cut. */
  lemma {:induction false} EveryFragmentLands(changelog: string, frags: Fragments, s: Section, e: Entry)
    requires Validated(frags) && FlushFragments(frags) && Splice(changelog, frags).Written?
    requires Block(Split(changelog, '\n')).Some? ==> Whole(Block(Split(changelog, '\n')).value, frags, s)
    requires s in frags && e in AllEntries(frags[s])
    ensures Block(Split(Splice(changelog, frags).text, '\n')).Some?
    ensures Stands(Block(Split(Splice(changelog, frags).text, '\n')).value, s, e)
  {
    SplicedBlock(changelog, frags);
    var was := Block(Split(changelog, '\n')).value;
    var merged := Merge(frags[s]);
    MergeKeepsText(frags[s]);
    MergePlaceable(frags[s]);
    var i :| 0 <= i < |merged| && Key(merged[i]) == Key(e) && CoveredBy(merged[i], e);
    assert merged[i] in merged;
    CarriedIffNotCut(was, frags, s, merged[i]);
    CarriedStands(SpliceBlock(was, frags, 0), s, merged[i], e);
  }
}
