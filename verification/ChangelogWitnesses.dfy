/** Changelogs and fragments on which a second write repeats an entry, or a write leaves headings out of order. */
module ChangelogWitnesses {
  import opened Text
  import opened Scan
  import opened Changelog
  import opened ChangelogPlaces
  import opened ChangelogSplice
  import opened ChangelogMerge
  import opened ChangelogCuts
  import opened ChangelogTheorems
  import opened ChangelogOrder

  // ---------------------------------------------------------------- changelogs of one block

  /** A changelog of one Unreleased block. */
  function ChangelogOf(block: seq<string>): string {
    Join([UNRELEASED_HEADING] + block, '\n')
  }

  lemma AfterHead(head: string, block: seq<string>, f: string -> bool, g: string -> bool)
    requires f(head) && NoHit(block, g)
    ensures Inside([head] + block, f, g) == Some(block)
  {
    var lines := [head] + block;
    FirstIs(lines, f, 0, 0);
    forall k | 1 <= k < |lines| ensures !g(lines[k]) {
      assert lines[k] == block[k - 1] && block[k - 1] in block;
    }
    FirstIs(lines, g, 1, |lines|);
    assert Span(lines, f, g) == Some(Range(0, |lines|));
    assert lines[1..|lines|] == block;
  }

  lemma UnderBlock(block: seq<string>)
    requires Free(block, '\n') && NoHit(block, Release())
    ensures Block(Split(ChangelogOf(block), '\n')) == Some(block)
  {
    SplitJoin([UNRELEASED_HEADING] + block, '\n');
    TrimSolid(UNRELEASED_HEADING);
    AfterHead(UNRELEASED_HEADING, block, Unreleased(), Release());
  }

  /** The second write gives another text than the first. */
  predicate Repeats(changelog: string, frags: Fragments) {
    var once := Splice(changelog, frags);
    once.Written? && Splice(once.text, frags) != once
  }

  lemma CutRepeats(changelog: string, frags: Fragments, block: seq<string>)
    requires Validated(frags) && FlushFragments(frags)
    requires Block(Split(changelog, '\n')) == Some(block) && !NothingCut(block, frags)
    ensures Repeats(changelog, frags)
  {
    IdempotentIffNothingCut(changelog, frags);
  }

  lemma PendingRepeats(changelog: string, frags: Fragments, block: seq<string>, s: Section, e: Entry)
    requires Validated(frags) && Block(Split(changelog, '\n')) == Some(block)
    requires s in frags && e in Merge(frags[s]) && !Carried(SpliceBlock(block, frags, 0), s, e)
    ensures Repeats(changelog, frags)
  {
    SplicedBlock(changelog, frags);
    PendingNone(SpliceBlock(block, frags, 0), s, Merge(frags[s]));
    NothingPendingIffUnchanged(Splice(changelog, frags).text, frags);
  }

  // ---------------------------------------------------------------- an indented heading in the changelog

  /** A body of one bullet is one entry of one line. */
  lemma MergeOne(l: string)
    requires BulletLine(l) && '\n' !in l && TrimEnd(l) == l
    ensures Merge([l]) == [[l]] && ValidateBody(l).Accepted?
  {
    SplitOne(l, '\n');
    BulletLineFacts(l);
    var group: Entry := [l];
    assert Groups([l]) == [group] by {
      assert [l][..1] == group && [l][1..] == [];
    }
    assert Tidy(group) == group;
    assert TidyAll([group]) == [group];
    assert AllEntries([l]) == [group];
    assert AddSubs(group, group[1..]) == group;
    assert Merge([l]) == MergeFrom(AddEntry([], group), []);
  }

  const INDENTED := "  ### Fixed"

  lemma IndentedFacts()
    ensures Trim(INDENTED) == Heading(Fixed) && !("### " <= INDENTED) && !TopLevel(INDENTED)
    ensures '\n' !in INDENTED && !("## " <= INDENTED) && Trim(INDENTED) != UNRELEASED_HEADING
  {
    var s := INDENTED;
    assert TrimStart(s) == TrimStart(s[1..]) == TrimStart(s[1..][1..]);
    assert s[1..][1..] == Heading(Fixed);
    TrimSolid(Heading(Fixed));
    SolidNotBlank(s, 2);
    assert Heading(Fixed)[2] == '#' && UNRELEASED_HEADING[2] == ' ';
  }

  /** `### Added`, an indented `### Fixed`, one bullet. */
  function IndentedBlock(): seq<string> {
    [Heading(Added), INDENTED, "- a"]
  }

  function TwoFragments(): Fragments {
    map[Added := ["- a"], Changed := ["- b"]]
  }

  lemma BulletsTrim()
    ensures Trim("- a") == "- a" && Trim("- b") == "- b" && TrimEnd("- a") == "- a" && TrimEnd("- b") == "- b"
    ensures BulletLine("- a") && BulletLine("- b")
  {
    TrimSolid("- a");
    TrimSolid("- b");
  }

  lemma {:induction false} MergedExamples()
    ensures Merge(TwoFragments()[Added]) == [["- a"]] && Merge(TwoFragments()[Changed]) == [["- b"]]
  {
    BulletsTrim();
    MergeOne("- a");
    MergeOne("- b");
  }

  lemma LaterOne<T>(x: T, y: T, z: T, f: T -> bool)
    requires !f(x) && f(y)
    ensures First([x, y, z], f, 0) == 1
  {
    FirstIs([x, y, z], f, 0, 1);
  }

  lemma ChangedPlace()
    ensures First(IndentedBlock(), Later(Changed), 0) == 1
  {
    IndentedFacts();
    HeadingFacts(Added);
    assert Rank(Fixed) > Rank(Changed) && LaterThan(Changed, INDENTED);
    NotLater(Heading(Added), Added);
    LaterOne(Heading(Added), INDENTED, "- a", Later(Changed));
  }

  lemma NotLater(l: string, s: Section)
    requires Trim(l) == Heading(s) && s == Added
    ensures !LaterThan(Changed, l)
  {
    forall t: Section | Trim(l) == Heading(t) ensures t == Added {
      HeadingInjective(s, t);
    }
  }

  lemma NoChangedYet(b: seq<string>)
    requires b == IndentedBlock()
    ensures Body(b, Changed).None?
  {
    BulletsTrim();
    IndentedFacts();
    HeadingFacts(Added);
    BulletLineFacts("- a");
    assert Heading(Added) != Heading(Changed) by {
      if Heading(Added) == Heading(Changed) { HeadingInjective(Added, Changed); }
    }
    assert Heading(Fixed) != Heading(Changed) by {
      if Heading(Fixed) == Heading(Changed) { HeadingInjective(Fixed, Changed); }
    }
    assert !ReadsAsHeading("- a");
    FirstIs(b, HeadingOf(Changed), 0, 3);
  }

  lemma IndentedChangelog(block: seq<string>)
    requires block == IndentedBlock()
    ensures Block(Split(ChangelogOf(block), '\n')) == Some(block)
  {
    HeadingFacts(Added);
    IndentedFacts();
    UnderBlock(block);
  }

  /** Nothing of Added is above the place where Changed goes. */
  lemma AddedSevered(b: seq<string>, lead: string, ea: Entry)
    requires b == IndentedBlock() && lead == "- a" && ea == [lead]
    ensures Severs(b, Changed, Added, ea)
  {
    IndentedRange(b);
    ChangedPlace();
    assert b[1..1] == [];
  }

  lemma IndentedRange(b: seq<string>)
    requires b == IndentedBlock()
    ensures SectionRange(b, Added) == Some(Range(0, 3))
  {
    HeadingFacts(Added);
    IndentedFacts();
    BulletLineFacts("- a");
    FirstIs(b, HeadingOf(Added), 0, 0);
    FirstIs(b, AnyHeading(), 1, 3);
  }

  /** A changelog on which a second write repeats a bullet: every line of it is well-formed, but for a heading that does
      not start at column 0 and that a new heading is put above. */
  lemma {:induction false} IndentedHeadingRepeats(block: seq<string>, frags: Fragments)
    requires block == IndentedBlock() && frags == TwoFragments()
    ensures Validated(frags) && FlushFragments(frags) && !FlushLeft(block)
    ensures Repeats(ChangelogOf(block), frags)
  {
    FragmentsFine(frags);
    NotFlush(block);
    IndentedRepeats(block, frags);
  }

  lemma IndentedRepeats(block: seq<string>, frags: Fragments)
    requires block == IndentedBlock() && frags == TwoFragments() && Validated(frags) && FlushFragments(frags)
    ensures Repeats(ChangelogOf(block), frags)
  {
    IndentedChangelog(block);
    AddedIsCut(block, frags, ["- a"]);
    CutRepeats(ChangelogOf(block), frags, block);
  }

  lemma AddedIsCut(block: seq<string>, frags: Fragments, ea: Entry)
    requires block == IndentedBlock() && frags == TwoFragments() && ea == ["- a"]
    ensures !NothingCut(block, frags)
  {
    MergedExamples();
    NoChangedYet(block);
    AddedSevered(block, "- a", ea);
    assert Cuts(block, frags, Changed, Added, ea);
    assert CutOff(block, frags, Added, ea);
    assert ea in Merge(frags[Added]);
    assert !Whole(block, frags, Added);
  }

  lemma NotFlush(block: seq<string>)
    requires block == IndentedBlock()
    ensures !FlushLeft(block)
  {
    IndentedFacts();
    assert INDENTED in block && ReadsAsHeading(INDENTED);
  }

  lemma {:induction false} OneBullet(l: string)
    requires BulletLine(l) && '\n' !in l && TrimEnd(l) == l
    ensures Valid([l]) && FlushBodies([l])
  {
    MergeOne(l);
    SplitOne(l, '\n');
  }

  lemma {:induction false} FragmentsFine(frags: Fragments)
    requires frags == TwoFragments()
    ensures Validated(frags) && FlushFragments(frags)
  {
    BulletsTrim();
    OneBullet("- a");
    OneBullet("- b");
  }

  // ---------------------------------------------------------------- an indented heading in a fragment

  /** A body of one bullet and one sub-line. */
  function Pair(lead: string, sub: string): string {
    lead + ['\n'] + sub
  }

  predicate GoodPair(lead: string, sub: string) {
    && BulletLine(lead) && SubLine(sub) && '\n' !in lead && '\n' !in sub
    && TrimEnd(sub) == sub && Trim(sub) != Trim(lead)
  }

  lemma PairSplits(lead: string, sub: string)
    requires GoodPair(lead, sub)
    ensures Split(Pair(lead, sub), '\n') == [lead, sub] && Join([lead, sub], '\n') == Pair(lead, sub)
    ensures TrimEnd(Pair(lead, sub)) == Pair(lead, sub)
  {
    SplitHead(lead, sub, '\n');
    SplitOne(sub, '\n');
    assert Join([sub], '\n') == sub;
    assert [lead, sub][1..] == [sub];
    assert !IsSpace(sub[|sub| - 1]) by {
      if IsSpace(sub[|sub| - 1]) {
        TrimEndPrefix(sub[..|sub| - 1]);
      }
    }
    assert Pair(lead, sub)[|Pair(lead, sub)| - 1] == sub[|sub| - 1];
  }

  lemma PairIsOneEntry(lead: string, sub: string)
    requires GoodPair(lead, sub)
    ensures ValidateBody(Pair(lead, sub)).Accepted? && EntriesOf(Pair(lead, sub)) == [[lead, sub]]
  {
    PairSplits(lead, sub);
    BulletLineFacts(lead);
    SubLineFacts(sub);
    var group: Entry := [lead, sub];
    FirstIs(group, Bullet(), 1, 2);
    assert group[..2] == group && group[2..] == [];
    assert Groups(group) == [group];
    assert Tidy(group) == group;
    assert TidyAll([group]) == [group];
    assert ValidateLines(group, 2) == Accepted && ValidateLines(group, 1) == Accepted;
  }

  lemma MergePair(lead: string, sub: string)
    requires GoodPair(lead, sub)
    ensures Merge([Pair(lead, sub)]) == [[lead, sub]] && ValidateBody(Pair(lead, sub)).Accepted?
  {
    PairIsOneEntry(lead, sub);
    var e: Entry := [lead, sub];
    assert AllEntries([Pair(lead, sub)]) == [e];
    assert AddSubs([lead], [sub]) == [lead, sub] by {
      assert !Carries([lead], Trim(sub));
      assert [lead] + [sub] == [lead, sub];
    }
    assert AddEntry([], e) == [e] by {
      assert e[1..] == [sub];
    }
    assert Merge([Pair(lead, sub)]) == MergeFrom([e], []);
  }

  /** An empty block after one entry of `s` has been put in. */
  function OneEntry(s: Section, lead: string, sub: string): seq<string> {
    ["", Heading(s), "", lead, sub, ""]
  }

  lemma UnderNothing<T>(head: T, blank: T, x: T, y: T)
    ensures AppendUnder([], 0, head, blank, [x, y]) == [blank, head, blank, x, y, blank]
  {
  }

  lemma NothingYet(frags: Fragments, s: Section, e: Entry)
    requires s in frags && Merge(frags[s]) == [e]
    ensures SpliceTurn([], frags, s) == AppendUnder([], 0, Heading(s), "", e)
  {
    FoldAllNoSection([], s, [e]);
    assert Flatten([e]) == e;
  }

  lemma FirstTurn(frags: Fragments, s: Section, e: Entry)
    requires s in frags && Merge(frags[s]) == [e] && |e| == 2
    ensures SpliceTurn([], frags, s) == OneEntry(s, e[0], e[1])
  {
    NothingYet(frags, s, e);
    UnderNothing(Heading(s), "", e[0], e[1]);
    assert e == [e[0], e[1]];
  }

  lemma AbsentTurn(b: seq<string>, frags: Fragments, i: nat)
    requires i < |SECTIONS| && SECTIONS[i] !in frags
    ensures SpliceBlock(b, frags, i) == SpliceBlock(b, frags, i + 1)
  {
  }

  lemma EntryFacts(lead: string, sub: string, s: Section)
    requires GoodPair(lead, sub)
    ensures TopLevel(lead) && !AnyHeading()(lead) && !ReadsAsHeading(lead)
    ensures !TopLevel(sub) && !AnyHeading()(sub) && !Blank(sub) && Trim(lead) == Key([lead, sub])
    ensures !TopLevel("") && !AnyHeading()("") && !ReadsAsHeading("")
    ensures HeadingOf(s)(Heading(s)) && AnyHeading()(Heading(s))
  {
    BulletLineFacts(lead);
    SubLineFacts(sub);
    BlankFacts();
    HeadingFacts(s);
  }

  lemma EntryRange(b: seq<string>, s: Section, lead: string, sub: string)
    requires GoodPair(lead, sub) && b == OneEntry(s, lead, sub)
    ensures SectionRange(b, s) == Some(Range(1, 6)) && Body(b, s) == Some(["", lead, sub, ""])
  {
    EntryFacts(lead, sub, s);
    assert !HeadingOf(s)("") by { assert !ReadsAsHeading(""); }
    FirstIs(b, HeadingOf(s), 0, 1);
    FirstIs(b, AnyHeading(), 2, 6);
    assert b[2..6] == ["", lead, sub, ""];
  }

  lemma PairIsGood(e: Entry)
    requires |e| == 2 && GoodPair(e[0], e[1])
    ensures GoodEntry(e)
  {
    assert forall l :: l in e ==> l == e[0] || l == e[1];
  }

  lemma PairCarried(e: Entry)
    requires |e| == 2 && GoodEntry(e)
    ensures CarriedIn(["", e[0], e[1], ""], e)
  {
    BlankFacts();
    PutDownCarried([""], e, [""]);
    assert [""] + e + [""] == ["", e[0], e[1], ""];
  }

  lemma EntryCarried(b: seq<string>, s: Section, e: Entry)
    requires |e| == 2 && GoodPair(e[0], e[1]) && b == OneEntry(s, e[0], e[1])
    ensures Carried(b, s, e)
  {
    EntryRange(b, s, e[0], e[1]);
    PairIsGood(e);
    PairCarried(e);
    CarriedInBody(b, s, e);
  }

  lemma LeadIsNotHeld(part: seq<string>, e: Entry)
    requires |e| == 2 && GoodPair(e[0], e[1]) && part == ["", e[0]]
    ensures !Held(part, e)
  {
    EntryFacts(e[0], e[1], Added);
    FirstIs(part, Lead(Key(e)), 0, 1);
    FirstIs(part, Bullet(), 2, 2);
    assert Span(part, Lead(Key(e)), Bullet()) == Some(Range(1, 2)) && part[2..] == [];
    assert e[1..] == [e[1]];
    assert !Carries([], Trim(e[1]));
  }

  lemma HeadingsOfEntry(b: seq<string>, s: Section, lead: string, sub: string, at: Section, l: string)
    requires GoodPair(lead, sub) && b == OneEntry(s, lead, sub) && Trim(sub) == Heading(at)
    requires l in b && ReadsAsHeading(l)
    ensures l == Heading(s) || l == sub
  {
    EntryFacts(lead, sub, s);
  }

  lemma EntryPlaces(b: seq<string>, t: Section, s: Section, lead: string, sub: string)
    requires t == Added && s == Changed
    requires GoodPair(lead, sub) && Trim(sub) == Heading(Fixed) && b == OneEntry(t, lead, sub)
    ensures Body(b, s).None? && Place(b, s) == 4 && SectionRange(b, t) == Some(Range(1, 6))
  {
    EntryFacts(lead, sub, t);
    EntryRange(b, t, lead, sub);
    forall k | 0 <= k < 6 ensures !HeadingOf(s)(b[k]) && (k < 4 ==> !Later(s)(b[k])) {
      if ReadsAsHeading(b[k]) {
        HeadingsOfEntry(b, t, lead, sub, Fixed, b[k]);
        ReadsAs(b[k], if k == 1 then t else Fixed);
      }
    }
    ReadsAs(sub, Fixed);
    FirstIs(b, HeadingOf(s), 0, 6);
    FirstIs(b, Later(s), 0, 4);
  }

  lemma EntrySevered(b: seq<string>, t: Section, s: Section, e: Entry)
    requires t == Added && s == Changed && |e| == 2
    requires GoodPair(e[0], e[1]) && Trim(e[1]) == Heading(Fixed) && b == OneEntry(t, e[0], e[1])
    ensures Body(b, s).None? && Severs(b, s, t, e)
  {
    EntryPlaces(b, t, s, e[0], e[1]);
    assert b[2..4] == ["", e[0]];
    LeadIsNotHeld(b[2..4], e);
  }

  /** A line reads as one heading only. */
  lemma ReadsAs(l: string, s: Section)
    requires Trim(l) == Heading(s)
    ensures HeadingOf(Changed)(l) <==> s == Changed
    ensures Later(Changed)(l) <==> Rank(s) > Rank(Changed)
  {
    forall t: Section | Trim(l) == Heading(t) ensures t == s {
      HeadingInjective(s, t);
    }
  }

  /** A bullet `- b` with the sub-line `  ### Fixed` under Added, and another `- b` under Changed. */
  function HeadingFragments(): Fragments {
    map[Added := [Pair("- b", INDENTED)], Changed := ["- b"]]
  }

  lemma ExamplePair(lead: string, sub: string)
    requires lead == "- b" && sub == INDENTED
    ensures GoodPair(lead, sub) && Trim(sub) == Heading(Fixed) && TrimEnd(lead) == lead
  {
    IndentedFacts();
    BulletsTrim();
    HeadingFacts(Fixed);
    assert sub[|sub| - 1] == 'd';
    assert Trim(sub)[0] == '#' && Trim(lead)[0] == '-';
  }

  lemma LostWhenCut(b: seq<string>, frags: Fragments, i: nat, s: Section, t: Section, e: Entry)
    requires Rank(t) < i <= Rank(s) && FlushFrom(frags, i) && Carried(b, t, e) && Cuts(b, frags, s, t, e)
    ensures !Carried(SpliceBlock(b, frags, i), t, e)
  {
    LateFate(b, frags, i, t, e);
    assert Cutters(b, frags, t, e)(s);
  }

  lemma FirstTurnSevered(c: seq<string>, t: Section, s: Section, e: Entry)
    requires t == Added && s == Changed && |e| == 2 && c == OneEntry(t, e[0], e[1])
    requires GoodPair(e[0], e[1]) && Trim(e[1]) == Heading(Fixed)
    ensures Body(c, s).None? && Severs(c, s, t, e) && Carried(c, t, e)
  {
    EntrySevered(c, t, s, e);
    EntryCarried(c, t, e);
  }

  lemma FirstTurnIs(block: seq<string>, frags: Fragments, t: Section, s: Section, e: Entry)
    requires |e| == 2 && GoodPair(e[0], e[1]) && Trim(e[1]) == Heading(Fixed)
    requires t == Added && s == Changed && block == [] && t in frags && Merge(frags[t]) == [e]
    ensures var c := SpliceTurn(block, frags, t); Body(c, s).None? && Severs(c, s, t, e) && Carried(c, t, e)
  {
    FirstTurn(frags, t, e);
    FirstTurnSevered(OneEntry(t, e[0], e[1]), t, s, e);
  }

  lemma PairFacts(body: string, lead: string, sub: string, e: Entry)
    requires GoodPair(lead, sub) && body == Pair(lead, sub) && e == [lead, sub]
    ensures Valid([body]) && Merge([body]) == [e]
  {
    MergePair(lead, sub);
  }

  lemma PairNotFlush(frags: Fragments, s: Section, body: string, lead: string, sub: string)
    requires GoodPair(lead, sub) && ReadsAsHeading(sub) && body == Pair(lead, sub)
    requires s in frags && frags[s] == [body]
    ensures !FlushFragments(frags)
  {
    PairSplits(lead, sub);
    assert sub in Split(body, '\n') && body in frags[s];
  }

  lemma EmptyChangelog(block: seq<string>)
    requires block == []
    ensures Block(Split(ChangelogOf(block), '\n')) == Some(block) && FlushLeft(block)
  {
    UnderBlock(block);
  }

  /** Fragments that a second write repeats a sub-line of, in a changelog without any heading: the first write puts the
      heading of Changed between the bullet of Added and its sub-line. */
  lemma FragmentHeadingRepeats(block: seq<string>, frags: Fragments)
    requires block == [] && frags == HeadingFragments()
    ensures Validated(frags) && !FlushFragments(frags) && FlushLeft(block)
    ensures Repeats(ChangelogOf(block), frags)
  {
    var lead, sub := "- b", INDENTED;
    ExamplePair(lead, sub);
    PairNotFlush(frags, Added, Pair(lead, sub), lead, sub);
    PairRepeats(block, frags, Pair(lead, sub), lead, sub);
  }

  lemma PairRepeats(block: seq<string>, frags: Fragments, body: string, lead: string, sub: string)
    requires GoodPair(lead, sub) && Trim(sub) == Heading(Fixed) && TrimEnd(lead) == lead && body == Pair(lead, sub)
    requires block == [] && frags == map[Added := [body], Changed := [lead]]
    ensures Validated(frags) && Repeats(ChangelogOf(block), frags)
  {
    var e: Entry := [lead, sub];
    EmptyChangelog(block);
    PairFacts(body, lead, sub, e);
    MergeOne(lead);
    OneBullet(lead);
    TwoFlush(frags, body, lead);
    EntryRepeats(block, frags, Changed, Added, e);
  }

  lemma BothValid(frags: Fragments, body: string, other: string)
    requires frags == map[Added := [body], Changed := [other]] && Valid([body]) && Valid([other])
    ensures Validated(frags)
  {
  }

  lemma OtherFlush(frags: Fragments, s: Section, bodies: seq<string>)
    requires frags.Keys == {Added, s} && Rank(s) > 0 && frags[s] == bodies && Placeable(Merge(bodies))
    ensures FlushFrom(frags, 1)
  {
  }

  lemma TwoFlush(frags: Fragments, body: string, other: string)
    requires frags == map[Added := [body], Changed := [other]]
    requires Valid([body]) && Valid([other]) && FlushBodies([other])
    ensures Validated(frags) && FlushFrom(frags, 1)
  {
    BothValid(frags, body, other);
    MergePlaceable([other]);
    OtherFlush(frags, Changed, [other]);
  }

  lemma EntryRepeats(block: seq<string>, frags: Fragments, s: Section, t: Section, e: Entry)
    requires t == Added && s == Changed && |e| == 2 && GoodPair(e[0], e[1]) && Trim(e[1]) == Heading(Fixed)
    requires Validated(frags) && FlushFrom(frags, 1)
    requires t in frags && Merge(frags[t]) == [e] && s in frags && Merge(frags[s]) != []
    requires block == [] && Block(Split(ChangelogOf(block), '\n')) == Some(block)
    ensures Repeats(ChangelogOf(block), frags)
  {
    FirstTurnIs(block, frags, t, s, e);
    LostFirst(block, frags, s, t, e);
    PendingRepeats(ChangelogOf(block), frags, block, t, e);
  }

  lemma LostFirst(b: seq<string>, frags: Fragments, s: Section, t: Section, e: Entry)
    requires t == Added && s == Changed && FlushFrom(frags, 1)
    requires var c := SpliceTurn(b, frags, t); Carried(c, t, e) && Cuts(c, frags, s, t, e)
    ensures !Carried(SpliceBlock(b, frags, 0), t, e)
  {
    assert SECTIONS[0] == t;
    var c := SpliceTurn(b, frags, t);
    LostWhenCut(c, frags, 1, s, t, e);
    assert SpliceBlock(b, frags, 0) == SpliceBlock(c, frags, 1);
  }

  // ---------------------------------------------------------------- headings out of order

  /** A bullet `- b` with the sub-line `  ### Fixed` under Security. */
  function LastFragments(): Fragments {
    map[Security := [Pair("- b", INDENTED)]]
  }

  /** The write leaves the section headings out of order. */
  ghost predicate Disorders(changelog: string, frags: Fragments) {
    var after := Splice(changelog, frags);
    && after.Written? && Block(Split(after.text, '\n')).Some?
    && !InOrder(Block(Split(after.text, '\n')).value)
  }

  lemma LastTurn(b: seq<string>, frags: Fragments, s: Section, bodies: seq<string>)
    requires s == Security && frags == map[s := bodies]
    ensures SpliceBlock(b, frags, 0) == SpliceTurn(b, frags, s)
  {
    assert SECTIONS[5] == s;
    assert forall i :: 0 <= i < 5 ==> SECTIONS[i] != s;
    AbsentTurn(b, frags, 0);
    AbsentTurn(b, frags, 1);
    AbsentTurn(b, frags, 2);
    AbsentTurn(b, frags, 3);
    AbsentTurn(b, frags, 4);
    assert SpliceBlock(b, frags, 5) == SpliceBlock(SpliceTurn(b, frags, s), frags, 6);
  }

  lemma EntryDisorders(b: seq<string>, s: Section, t: Section, lead: string, sub: string)
    requires b == OneEntry(s, lead, sub) && Trim(sub) == Heading(t) && Rank(t) < Rank(s)
    ensures !InOrder(b)
  {
    HeadingFacts(s);
    LineRankMeans(Heading(s), s);
    LineRankMeans(sub, t);
    assert Ranks()(b[1]) > Ranks()(b[4]) >= 0;
  }

  /** A fragment that brings a heading of its own leaves the headings out of order. */
  lemma FragmentHeadingDisorders(block: seq<string>, frags: Fragments)
    requires block == [] && frags == LastFragments()
    ensures Validated(frags) && !FlushFragments(frags) && InOrder(block)
    ensures Disorders(ChangelogOf(block), frags)
  {
    var lead, sub := "- b", INDENTED;
    ExamplePair(lead, sub);
    PairNotFlush(frags, Security, Pair(lead, sub), lead, sub);
    PairDisorders(block, frags, Security, Pair(lead, sub), lead, sub);
  }

  lemma PairDisorders(
      block: seq<string>, frags: Fragments, s: Section, body: string, lead: string, sub: string)
    requires GoodPair(lead, sub) && Trim(sub) == Heading(Fixed) && body == Pair(lead, sub)
    requires s == Security && block == [] && frags == map[s := [body]]
    ensures Validated(frags) && Disorders(ChangelogOf(block), frags)
  {
    var e: Entry := [lead, sub];
    PairFacts(body, lead, sub, e);
    EmptyChangelog(block);
    EntryOutOfOrder(block, frags, s, body, e);
  }

  lemma EntryOutOfOrder(block: seq<string>, frags: Fragments, s: Section, body: string, e: Entry)
    requires |e| == 2 && Trim(e[1]) == Heading(Fixed)
    requires s == Security && frags == map[s := [body]]
    requires Valid([body]) && Merge([body]) == [e]
    requires block == [] && Block(Split(ChangelogOf(block), '\n')) == Some(block)
    ensures Validated(frags) && Disorders(ChangelogOf(block), frags)
  {
    TurnDisorders(block, frags, s, e);
    LastDisorders(ChangelogOf(block), frags, block, s, [body]);
  }

  lemma TurnDisorders(block: seq<string>, frags: Fragments, s: Section, e: Entry)
    requires s == Security && block == [] && s in frags && Merge(frags[s]) == [e]
    requires |e| == 2 && Trim(e[1]) == Heading(Fixed)
    ensures !InOrder(SpliceTurn(block, frags, s))
  {
    FirstTurn(frags, s, e);
    EntryDisorders(OneEntry(s, e[0], e[1]), s, Fixed, e[0], e[1]);
  }

  lemma LastDisorders(changelog: string, frags: Fragments, block: seq<string>, s: Section, bodies: seq<string>)
    requires Validated(frags) && Block(Split(changelog, '\n')) == Some(block)
    requires s == Security && frags == map[s := bodies] && !InOrder(SpliceTurn(block, frags, s))
    ensures Disorders(changelog, frags)
  {
    LastTurn(block, frags, s, bodies);
    SplicedBlock(changelog, frags);
  }
}
