/** Section headings stay in canonical order, and what goes wrong when a heading is indented. */
module ChangelogOrder {
  import opened Text
  import opened Scan
  import opened Changelog
  import opened ChangelogPlaces
  import opened ChangelogSplice
  import opened ChangelogMerge
  import opened ChangelogTheorems

  /** The rank of the section whose heading the line reads as, or -1. */
  function LineRank(l: string): int {
    if Trim(l) == Heading(Added) then 0
    else if Trim(l) == Heading(Changed) then 1
    else if Trim(l) == Heading(Deprecated) then 2
    else if Trim(l) == Heading(Removed) then 3
    else if Trim(l) == Heading(Fixed) then 4
    else if Trim(l) == Heading(Security) then 5
    else -1
  }

  function Ranks(): string -> int {
    (l: string) => LineRank(l)
  }

  lemma LineRankMeans(l: string, s: Section)
    ensures LineRank(l) == Rank(s) <==> Trim(l) == Heading(s)
  {
    if LineRank(l) == Rank(s) {
    } else if Trim(l) == Heading(s) {
      forall t | Trim(l) == Heading(t) ensures t == s {
        HeadingInjective(s, t);
      }
    }
  }

  lemma Unread(lines: seq<string>)
    requires NoHeadings(lines)
    ensures Unranked(lines, Ranks())
  {
    forall l | l in lines ensures Ranks()(l) < 0 {
      assert !ReadsAsHeading(l);
    }
  }

  /** The section headings stand in the canonical order. */
  ghost predicate InOrder(b: seq<string>) {
    Ordered(b, Ranks())
  }

  lemma {:induction false} FoldAllOrder(b: seq<string>, s: Section, entries: seq<Entry>)
    requires InOrder(b) && AllGood(entries)
    ensures InOrder(FoldAll(b, s, entries).block)
    decreases |entries|
  {
    if entries != [] {
      var e := entries[0];
      var loc := Locate(b, s, e);
      if loc.Found? {
        LocateParts(b, s, e);
        MissingFacts(e, Under(Body(b, s).value, e).value);
        Unread(loc.missing);
        OrderedInsert(b, Ranks(), loc.subsEnd, loc.missing, 0);
        FoldAllOrder(Insert(b, loc.subsEnd, loc.missing), s, entries[1..]);
      } else {
        FoldAllOrder(b, s, entries[1..]);
      }
    }
  }

  lemma HigherIsLater(l: string, s: Section)
    ensures LineRank(l) > Rank(s) ==> Later(s)(l)
  {
    if LineRank(l) > Rank(s) {
      LineRankMeans(l, SECTIONS[LineRank(l)]);
    }
  }

  /** The place of a new heading: nothing above ranks higher, and the heading there, if any, does. */
  lemma {:induction false} LaterPlace(b: seq<string>, s: Section)
    ensures var at := First(b, Later(s), 0);
      && (forall i :: 0 <= i < at ==> Ranks()(b[i]) <= Rank(s))
      && (at < |b| ==> Ranks()(b[at]) > Rank(s))
  {
    var at := First(b, Later(s), 0);
    forall i | 0 <= i < at
      ensures LineRank(b[i]) <= Rank(s)
    {
      HigherIsLater(b[i], s);
    }
    if at < |b| {
      var t: Section :| Rank(t) > Rank(s) && Trim(b[at]) == Heading(t);
      LineRankMeans(b[at], t);
    }
  }

  lemma {:induction false} AppendUnderOrder(b: seq<string>, s: Section, lines: seq<string>)
    requires InOrder(b) && NoHeadings(lines)
    ensures InOrder(AppendUnder(b, First(b, Later(s), 0), Heading(s), "", lines))
  {
    var at := First(b, Later(s), 0);
    var xs := Pad(at == 0, "") + [Heading(s)] + ([""] + lines + [""]);
    BlankFacts();
    HeadingFacts(s);
    LineRankMeans(Heading(s), s);
    LaterPlace(b, s);
    Unread(lines + [""]);
    forall l | l in xs ensures Ranks()(l) < 0 || Ranks()(l) == Rank(s) {
      assert l == Heading(s) || l in lines + [""];
    }
    OrderedInsert(b, Ranks(), at, xs, Rank(s));
  }

  lemma AppendAtOrder(b: seq<string>, at: nat, top: nat, lines: seq<string>)
    requires InOrder(b) && NoHeadings(lines) && at <= |b|
    ensures InOrder(AppendAt(b, at, top, "", lines))
  {
    BlankFacts();
    Unread(Pad(at == top, "") + lines);
    OrderedInsert(b, Ranks(), at, Pad(at == top, "") + lines, 0);
  }

  lemma {:induction false} SpliceTurnOrder(b: seq<string>, frags: Fragments, s: Section)
    requires InOrder(b) && Validated(frags) && FlushFragments(frags)
    ensures InOrder(SpliceTurn(b, frags, s))
  {
    if s in frags {
      var entries := Merge(frags[s]);
      MergePlaceable(frags[s]);
      FoldAllOrder(b, s, entries);
      FoldAllNews(b, s, entries);
      var f := FoldAll(b, s, entries);
      if f.news != [] {
        NewsNoHeadings(f.news);
        var range := SectionRange(f.block, s);
        if range.None? {
          AppendUnderOrder(f.block, s, Flatten(f.news));
        } else {
          AppendAtOrder(f.block, InkEnd(f.block, range.value), range.value.start + 1, Flatten(f.news));
        }
      }
    }
  }

  lemma {:induction false} SpliceBlockOrder(b: seq<string>, frags: Fragments, i: nat)
    requires i <= |SECTIONS| && InOrder(b) && Validated(frags) && FlushFragments(frags)
    ensures InOrder(SpliceBlock(b, frags, i))
    decreases |SECTIONS| - i
  {
    if i < |SECTIONS| {
      var c := SpliceTurn(b, frags, SECTIONS[i]);
      SpliceTurnOrder(b, frags, SECTIONS[i]);
      SpliceBlockOrder(c, frags, i + 1);
      assert SpliceBlock(b, frags, i) == SpliceBlock(c, frags, i + 1);
    }
  }

  /** Headings that were in canonical order still are after a splice, new ones included. */
  lemma {:induction false} SpliceKeepsOrder(changelog: string, frags: Fragments)
    requires Validated(frags) && FlushFragments(frags) && Splice(changelog, frags).Written?
    requires Block(Split(changelog, '\n')).Some? && InOrder(Block(Split(changelog, '\n')).value)
    ensures Block(Split(Splice(changelog, frags).text, '\n')).Some?
    ensures InOrder(Block(Split(Splice(changelog, frags).text, '\n')).value)
  {
    if frags != map[] {
      SplicedBlock(changelog, frags);
      SpliceBlockOrder(Block(Split(changelog, '\n')).value, frags, 0);
    }
  }
}
