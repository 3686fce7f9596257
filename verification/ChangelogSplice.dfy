/** One pass over the Unreleased block: what it places, what it leaves alone, and when it does nothing. */
module ChangelogSplice {
  import opened Text
  import opened Scan
  import opened ScanParts
  import opened Changelog
  import opened ChangelogPlaces

  /** The block carries the entry in full under its own section. */
  predicate Carried(b: seq<string>, s: Section, e: Entry) {
    Complete(Locate(b, s, e))
  }

  lemma CarriedInBody(b: seq<string>, s: Section, e: Entry)
    ensures Carried(b, s, e) <==> Body(b, s).Some? && CarriedIn(Body(b, s).value, e)
    ensures Locate(b, s, e).Absent? <==> (Body(b, s).Some? ==> AbsentIn(Body(b, s).value, e))
  {
  }

  predicate AllGood(entries: seq<Entry>) {
    forall e :: e in entries ==> GoodEntry(e) && NoHeadings(e)
  }

  // ---------------------------------------------------------------- one entry

  lemma MissingFacts(e: Entry, present: seq<string>)
    requires GoodEntry(e)
    ensures var lines := Missing(e[1..], present);
      && NoHit(lines, Bullet()) && NoHit(lines, AnyHeading()) && NoHit(lines, Release())
      && (NoHeadings(e) ==> NoHeadings(lines))
  {
    var lines := Missing(e[1..], present);
    MissingIsSub(e[1..], present);
    SubsNoBullet(e);
    forall l | l in lines
      ensures !AnyHeading()(l) && !Release()(l) && l in e
    {
      assert l in e[1..];
      EntryLines(e, l);
    }
  }

  lemma LocateParts(b: seq<string>, s: Section, e: Entry)
    requires Locate(b, s, e).Found?
    ensures SectionRange(b, s).Some? && Body(b, s).Some? && LocateIn(Body(b, s).value, e).Found?
    ensures var loc := Locate(b, s, e); var inner := LocateIn(Body(b, s).value, e);
      var range := SectionRange(b, s).value;
      && loc.subsEnd == range.start + 1 + inner.subsEnd <= range.end
      && loc.missing == inner.missing == Missing(e[1..], Under(Body(b, s).value, e).value)
  {
  }

  /** Folding one entry in is an insertion inside its own section. */
  lemma FoldStep(b: seq<string>, s: Section, e: Entry)
    requires Locate(b, s, e).Found? && GoodEntry(e)
    ensures Body(b, s).Some? && LocateIn(Body(b, s).value, e).Found?
    ensures var loc := Locate(b, s, e);
      var at := LocateIn(Body(b, s).value, e).subsEnd;
      Body(Insert(b, loc.subsEnd, loc.missing), s) == Some(Insert(Body(b, s).value, at, loc.missing))
    ensures Locate(b, s, e).missing == LocateIn(Body(b, s).value, e).missing
  {
    LocateParts(b, s, e);
    var loc := Locate(b, s, e);
    MissingFacts(e, Under(Body(b, s).value, e).value);
    InsertInside(b, HeadingOf(s), AnyHeading(), loc.subsEnd, loc.missing, LocateIn(Body(b, s).value, e).subsEnd);
  }

  lemma NoHeadingsNoHit(lines: seq<string>, t: Section)
    requires NoHeadings(lines)
    ensures NoHit(lines, HeadingOf(t))
  {
    forall l | l in lines
      ensures !HeadingOf(t)(l)
    {
      assert !ReadsAsHeading(l);
    }
  }

  /** Folding `e` in makes the block carry it, and changes for no other entry whether it is absent or carried. */
  lemma {:induction false} FoldStepKeeps(b: seq<string>, s: Section, e: Entry, other: Entry)
    requires Locate(b, s, e).Found? && GoodEntry(e)
    ensures var loc := Locate(b, s, e); var c := Insert(b, loc.subsEnd, loc.missing);
      && Carried(c, s, e)
      && (Carried(b, s, other) ==> Carried(c, s, other))
      && (Locate(b, s, other).Absent? ==> Locate(c, s, other).Absent?)
  {
    var loc := Locate(b, s, e);
    var c := Insert(b, loc.subsEnd, loc.missing);
    FoldStep(b, s, e);
    var body := Body(b, s).value;
    MissingFacts(e, Under(body, e).value);
    FoldedCarried(body, e);
    SubsKeep(body, LocateIn(body, e).subsEnd, loc.missing, other);
    CarriedInBody(b, s, other);
    CarriedInBody(c, s, other);
    CarriedInBody(c, s, e);
  }

  // ---------------------------------------------------------------- all entries of a section

  lemma {:induction false} FoldAllKeeps(b: seq<string>, s: Section, entries: seq<Entry>, e: Entry)
    requires AllGood(entries)
    ensures Carried(b, s, e) ==> Carried(FoldAll(b, s, entries).block, s, e)
    ensures Locate(b, s, e).Absent? ==> Locate(FoldAll(b, s, entries).block, s, e).Absent?
    decreases |entries|
  {
    if entries != [] {
      var loc := Locate(b, s, entries[0]);
      if loc.Found? {
        FoldStepKeeps(b, s, entries[0], e);
        FoldAllKeeps(Insert(b, loc.subsEnd, loc.missing), s, entries[1..], e);
      } else {
        FoldAllKeeps(b, s, entries[1..], e);
      }
    }
  }

  /** Every entry is carried after the fold or still to be put down, and the latter are absent. */
  lemma {:induction false} FoldAllPlaces(b: seq<string>, s: Section, entries: seq<Entry>, m: nat)
    requires AllGood(entries) && m < |entries|
    ensures var f := FoldAll(b, s, entries);
      Carried(f.block, s, entries[m]) || (entries[m] in f.news && Locate(f.block, s, entries[m]).Absent?)
    decreases |entries|
  {
    var e := entries[0];
    var loc := Locate(b, s, e);
    var c := if loc.Found? then Insert(b, loc.subsEnd, loc.missing) else b;
    if m == 0 {
      if loc.Found? {
        FoldStepKeeps(b, s, e, e);
      }
      FoldAllKeeps(c, s, entries[1..], e);
    } else {
      FoldAllPlaces(c, s, entries[1..], m - 1);
    }
  }

  lemma {:induction false} FoldAllNews(b: seq<string>, s: Section, entries: seq<Entry>)
    requires Placeable(entries)
    ensures var f := FoldAll(b, s, entries);
      Placeable(f.news) && forall n :: n in f.news ==> n in entries && Locate(f.block, s, n).Absent?
    decreases |entries|
  {
    if entries != [] {
      var e := entries[0];
      var loc := Locate(b, s, e);
      var c := if loc.Found? then Insert(b, loc.subsEnd, loc.missing) else b;
      var rest := entries[1..];
      assert Placeable(rest) by {
        assert forall i :: 0 <= i < |rest| ==> rest[i] == entries[i + 1];
      }
      FoldAllNews(c, s, rest);
      var f := FoldAll(c, s, rest);
      if loc.Absent? {
        FoldAllKeeps(b, s, rest, e);
        forall n | n in f.news
          ensures Key(n) != Key(e)
        {
          var i :| 0 <= i < |rest| && rest[i] == n;
          assert entries[i + 1] == n;
        }
        PlaceableCons(e, f.news);
      }
    }
  }

  lemma PlaceableCons(e: Entry, news: seq<Entry>)
    requires GoodEntry(e) && NoHeadings(e) && Placeable(news)
    requires forall n :: n in news ==> Key(n) != Key(e)
    ensures Placeable([e] + news)
  {
    var all := [e] + news;
    forall i, j | 0 <= i < j < |all|
      ensures Key(all[i]) != Key(all[j])
    {
      assert all[j] == news[j - 1] && news[j - 1] in news;
    }
  }

  lemma {:induction false} FoldAllNoSection(b: seq<string>, s: Section, entries: seq<Entry>)
    requires Body(b, s).None?
    ensures FoldAll(b, s, entries) == Folded(b, entries)
    decreases |entries|
  {
    if entries != [] {
      FoldAllNoSection(b, s, entries[1..]);
    }
  }

  // ---------------------------------------------------------------- the new entries

  predicate AllWellFormed(entries: seq<Entry>) {
    forall e :: e in entries ==> GoodEntry(e)
  }

  lemma NewsEnds(news: seq<Entry>)
    requires AllWellFormed(news)
    ensures NoHit(Flatten(news), AnyHeading()) && NoHit(Flatten(news), Release())
    ensures forall l :: l in Flatten(news) ==> !Blank(l)
    ensures news != [] ==> Flatten(news) != [] && TopLevel(Flatten(news)[0])
  {
    forall l | l in Flatten(news)
      ensures !AnyHeading()(l) && !Release()(l) && !Blank(l)
    {
      FlattenHas(news, l);
      var e :| e in news && l in e;
      EntryLines(e, l);
    }
    if news != [] {
      assert news[0] in news && Flatten(news)[0] == news[0][0];
      BulletLineFacts(news[0][0]);
    }
  }

  lemma NewsLines(news: seq<Entry>)
    requires AllGood(news)
    ensures NoHit(Flatten(news), AnyHeading()) && NoHit(Flatten(news), Release()) && NoHeadings(Flatten(news))
    ensures news != [] ==> Flatten(news) != [] && TopLevel(Flatten(news)[0])
  {
    NewsEnds(news);
    forall l | l in Flatten(news)
      ensures !ReadsAsHeading(l)
    {
      FlattenHas(news, l);
      var e :| e in news && l in e;
    }
  }

  lemma NewsNoHeadings(news: seq<Entry>)
    requires AllGood(news)
    ensures NoHeadings(Flatten(news))
  {
    NewsLines(news);
  }

  lemma AbsentNoLead(body: seq<string>, n: Entry)
    requires AbsentIn(body, n)
    ensures NoHit(body, Lead(Key(n)))
  {
    CarriedMeans(body, n);
    forall l | l in body
      ensures !Lead(Key(n))(l)
    {
      var k :| 0 <= k < |body| && body[k] == l;
    }
  }

  lemma AbsentAbove(body: seq<string>, at: nat, e: Entry)
    requires at <= |body| && AbsentIn(body, e)
    ensures NoHit(body[..at] + Pad(at == 0, ""), Lead(Key(e)))
  {
    BlankFacts();
    AbsentNoLead(body, e);
    NoHitBoth(body[..at], Pad(at == 0, ""), Lead(Key(e)));
  }

  lemma Unsplice(body: seq<string>, at: nat, pad: seq<string>, lines: seq<string>)
    requires at <= |body|
    ensures Insert(body, at, pad + lines) == body[..at] + pad + lines + body[at..]
  {
  }

  lemma AppendThereNew(body: seq<string>, at: nat, news: seq<Entry>, e: Entry)
    requires at <= |body| && Placeable(news) && e in news && AbsentIn(body, e)
    ensures CarriedIn(AppendAt(body, at, 0, "", Flatten(news)), e)
  {
    var pad := Pad(at == 0, "");
    var m :| 0 <= m < |news| && news[m] == e;
    AbsentAbove(body, at, e);
    NewsCarried(body[..at] + pad, news, body[at..], m);
    Unsplice(body, at, pad, Flatten(news));
  }

  lemma AppendThereOld(body: seq<string>, lines: seq<string>, e: Entry)
    requires CarriedIn(body, e)
    ensures CarriedIn(AppendAt(body, Back(body, BlankLine(), 0, |body|), 0, "", lines), e)
  {
    var at := Back(body, BlankLine(), 0, |body|);
    BlanksKeepCarried(body, at, Pad(at == 0, "") + lines, e);
  }

  /** Appending to a section that is there puts the lines behind the last line of its body that is not blank. */
  lemma AppendThereBody(b: seq<string>, s: Section, news: seq<Entry>, start: nat, end: nat)
    requires SectionRange(b, s) == Some(Range(start, end)) && AllWellFormed(news)
    ensures start < end <= |b| && Body(b, s) == Some(b[start + 1..end])
    ensures var body := b[start + 1..end];
      Body(AppendNews(b, s, news), s)
        == Some(AppendAt(body, Back(body, BlankLine(), 0, |body|), 0, "", Flatten(news)))
  {
    NewsEnds(news);
    BlankFacts();
    assert !ReadsAsHeading("");
    AppendAtInside(b, HeadingOf(s), AnyHeading(), BlankLine(), "", Flatten(news), start, end);
  }

  lemma {:induction false} AppendThereCarries(
      b: seq<string>, s: Section, news: seq<Entry>, e: Entry, start: nat, end: nat)
    requires SectionRange(b, s) == Some(Range(start, end)) && Placeable(news) && news != []
    requires e in news ==> Locate(b, s, e).Absent?
    requires e in news || Carried(b, s, e)
    ensures Carried(AppendNews(b, s, news), s, e)
  {
    AppendThereBody(b, s, news, start, end);
    CarriedInBody(b, s, e);
    CarriedInBody(AppendNews(b, s, news), s, e);
    var body := b[start + 1..end];
    if e in news {
      AppendThereNew(body, Back(body, BlankLine(), 0, |body|), news, e);
    } else {
      AppendThereOld(body, Flatten(news), e);
    }
  }

  /** A missing section appears with exactly the new entries at its top. */
  lemma AppendNewBody(b: seq<string>, s: Section, news: seq<Entry>) returns (below: seq<string>)
    requires SectionRange(b, s).None? && AllWellFormed(news)
    ensures Body(AppendNews(b, s, news), s) == Some([""] + Flatten(news) + below)
  {
    NewHeadingLines(s, news);
    NoneNoHit(b, HeadingOf(s), AnyHeading());
    below := AppendUnderBegins(b, HeadingOf(s), AnyHeading(), First(b, Later(s), 0), Heading(s), "", Flatten(news));
  }

  lemma NewHeadingLines(s: Section, news: seq<Entry>)
    requires AllWellFormed(news)
    ensures HeadingOf(s)(Heading(s)) && AnyHeading()(Heading(s)) && !HeadingOf(s)("")
    ensures NoHit([""] + Flatten(news) + [""], AnyHeading())
  {
    NewsEnds(news);
    HeadingFacts(s);
    BlankFacts();
    assert !ReadsAsHeading("");
  }

  lemma {:induction false} AppendNewCarries(b: seq<string>, s: Section, news: seq<Entry>, e: Entry)
    requires SectionRange(b, s).None? && Placeable(news) && e in news
    ensures Carried(AppendNews(b, s, news), s, e)
  {
    var below := AppendNewBody(b, s, news);
    NewCarried(news, below, e);
    CarriedInBody(AppendNews(b, s, news), s, e);
  }

  lemma NewCarried(news: seq<Entry>, below: seq<string>, e: Entry)
    requires Placeable(news) && e in news
    ensures CarriedIn([""] + Flatten(news) + below, e)
  {
    BlankFacts();
    var m :| 0 <= m < |news| && news[m] == e;
    NewsCarried([""], news, below, m);
  }

  lemma {:induction false} AppendNewsHas(b: seq<string>, s: Section, news: seq<Entry>, l: string)
    requires l in AppendNews(b, s, news)
    ensures l in b || l == Heading(s) || l == "" || l in Flatten(news)
  {
    var range := SectionRange(b, s);
    if range.None? {
      AppendUnderHas(b, First(b, Later(s), 0), Heading(s), "", Flatten(news), l);
    } else {
      AppendAtHas(b, InkEnd(b, range.value), range.value.start + 1, "", Flatten(news), l);
    }
  }

  // ---------------------------------------------------------------- one section

  /** After its section has been spliced, whatever the block, every entry is carried. */
  lemma {:induction false} SpliceSectionCarries(b: seq<string>, s: Section, entries: seq<Entry>, m: nat)
    requires Placeable(entries) && m < |entries|
    ensures Carried(SpliceSection(b, s, entries), s, entries[m])
  {
    var e := entries[m];
    var f := FoldAll(b, s, entries);
    FoldAllPlaces(b, s, entries, m);
    FoldAllNews(b, s, entries);
    if f.news != [] {
      var range := SectionRange(f.block, s);
      if range.Some? {
        AppendThereCarries(f.block, s, f.news, e, range.value.start, range.value.end);
      } else {
        CarriedInBody(f.block, s, e);
        AppendNewCarries(f.block, s, f.news, e);
      }
    }
  }
}
