/** What scripts/assemble-changelog.js takes for a list, for the Unreleased block, for a section and for an entry. */
module ChangelogParts {
  import opened Text
  import opened Scan
  import opened Changelog
  import opened ChangelogPlaces
  import opened ChangelogMerge
  import opened ChangelogReading
  import opened AssembleChangelog

  // ---------------------------------------------------------------- fragments that are accepted

  /** A bullet or a line two spaces in, with something solid after. */
  predicate Fits(l: string) {
    |l| >= 3 && ((l[0] == '-' && l[1] == ' ') || (l[0] == ' ' && l[1] == ' ')) && !IsSpace(l[2])
  }

  predicate Opens(l: string) {
    |l| >= 3 && l[0] == '-' && l[1] == ' ' && !IsSpace(l[2])
  }

  /** The first line from `from` on that is neither. */
  ghost predicate FirstMisfit(lines: seq<string>, from: nat, at: nat) {
    from <= at < |lines| && !Fits(lines[at]) && forall k :: from <= k < at ==> Fits(lines[k])
  }

  /** What is said of a misfit. */
  function Complaint(l: string, at: nat): BodyError {
    if Blank(l) then LooseAt(at) else if IsSpace(l[0]) then TooDeep(at) else NotIndented(at)
  }

  lemma {:induction false} LinesMean(lines: seq<string>, at: nat)
    requires at <= |lines|
    ensures ValidateLines(lines, at).Accepted? <==> forall k :: at <= k < |lines| ==> Fits(lines[k])
    ensures forall k: nat :: FirstMisfit(lines, at, k) ==> ValidateLines(lines, at) == Refused(Complaint(lines[k], k))
    decreases |lines| - at
  {
    if at < |lines| {
      LinesMean(lines, at + 1);
      if Fits(lines[at]) {
        SolidNotBlank(lines[at], 2);
        assert forall k: nat :: FirstMisfit(lines, at, k) ==> FirstMisfit(lines, at + 1, k);
      }
    }
  }

  /** A fragment is accepted exactly when its first line is a bullet and every other one a bullet or a line two spaces
      in. If not, the first line that is neither is the one complained of: as blank, as too deep, or as not indented. */
  lemma AcceptedExactly(body: string)
    ensures var lines := Split(body, '\n');
      && lines != []
      && (ValidateBody(body) == Accepted
          <==> body != "" && Opens(lines[0]) && forall k :: 1 <= k < |lines| ==> Fits(lines[k]))
      && (ValidateBody(body) == Refused(Empty) <==> body == "")
      && (ValidateBody(body) == Refused(NoLeadBullet) <==> body != "" && !Opens(lines[0]))
      && (body != "" && Opens(lines[0]) ==>
            forall k: nat :: FirstMisfit(lines, 1, k) ==> ValidateBody(body) == Refused(Complaint(lines[k], k)))
  {
    LinesMean(Split(body, '\n'), 1);
    if body != "" && Opens(Split(body, '\n')[0]) && !ValidateBody(body).Accepted? {
      var k := Misfit(Split(body, '\n'), 1);
    }
  }

  lemma {:induction false} Misfit(lines: seq<string>, from: nat) returns (at: nat)
    requires from <= |lines| && !forall k :: from <= k < |lines| ==> Fits(lines[k])
    ensures FirstMisfit(lines, from, at)
    decreases |lines| - from
  {
    if Fits(lines[from]) {
      at := Misfit(lines, from + 1);
    } else {
      at := from;
    }
  }

  /** A line at column 0: not blank, and no white space in front. */
  predicate Flush(l: string) {
    l != "" && !IsSpace(l[0])
  }

  lemma FlushIsTop(l: string)
    ensures TopLevel(l) <==> Flush(l)
  {
    if Flush(l) {
      SolidNotBlank(l, 0);
    }
  }

  lemma GroupIsGood(lines: seq<string>, group: Entry, rest: seq<string>)
    requires ListLines(lines) && lines == group + rest && BulletLine(lines[0])
    requires NoHit(group[1..], Bullet()) && (rest != [] ==> Bullet()(rest[0]))
    ensures Groups(lines) == [group] + Groups(rest) && GoodEntry(group) && Free(rest, '\n')
  {
    GroupEnds(group, rest);
    GroupsGood(lines);
    assert group in Groups(lines);
  }

  lemma TidyFirst(group: Entry, groups: seq<Entry>)
    requires GoodEntry(group)
    ensures TidyAll([group] + groups) == [group[..|group| - 1] + [TrimEnd(group[|group| - 1])]] + TidyAll(groups)
  {
    assert ([group] + groups)[1..] == groups;
    TidyGood(group);
    GoodSolid(group);
    TidyIs(group);
  }

  /** The entries of an accepted fragment are its lines, an entry from each line at column 0 up to the next one, with
      the white space at the end of each entry gone and nothing else changed. */
  lemma EntriesAre(body: string, group: Entry, rest: seq<string>)
    requires ValidateBody(body).Accepted? && Split(body, '\n') == group + rest
    requires (forall l :: l in group[1..] ==> !Flush(l)) && (rest != [] ==> Flush(rest[0]))
    ensures EntriesOf(body)
      == [group[..|group| - 1] + [TrimEnd(group[|group| - 1])]]
         + if rest == [] then [] else EntriesOf(Join(rest, '\n'))
  {
    forall l ensures TopLevel(l) <==> Flush(l) {
      FlushIsTop(l);
    }
    AcceptedBody(body);
    GroupIsGood(Split(body, '\n'), group, rest);
    TidyFirst(group, Groups(rest));
    if rest != [] {
      SplitJoin(rest, '\n');
    }
  }

  // ---------------------------------------------------------------- where a part begins and ends

  lemma {:induction false} InsideIs<T>(
      before: seq<T>, head: T, inner: seq<T>, after: seq<T>, f: T -> bool, g: T -> bool)
    requires NoHit(before, f) && f(head) && NoHit(inner, g) && (after == [] || g(after[0]))
    ensures Inside(before + [head] + inner + after, f, g) == Some(inner)
  {
    var b := before + [head] + inner + after;
    var start, end := |before|, |before| + 1 + |inner|;
    assert forall k :: 0 <= k < start ==> b[k] in before;
    assert forall k :: start + 1 <= k < end ==> b[k] == inner[k - start - 1] && b[k] in inner;
    FirstIs(b, f, 0, start);
    FirstIs(b, g, start + 1, end);
    assert b[start + 1..end] == inner;
  }

  lemma {:induction false} InsideNone<T>(b: seq<T>, f: T -> bool, g: T -> bool)
    ensures Inside(b, f, g).None? <==> NoHit(b, f)
  {
    if NoHit(b, f) {
      FirstIs(b, f, 0, |b|);
    }
  }

  /** The block runs from the first line that reads as the Unreleased heading to the next line that starts a release. */
  lemma BlockIs(before: seq<string>, head: string, inner: seq<string>, after: seq<string>)
    requires forall l :: l in before ==> Trim(l) != UNRELEASED_HEADING
    requires Trim(head) == UNRELEASED_HEADING
    requires forall l :: l in inner ==> !("## " <= l)
    requires after == [] || "## " <= after[0]
    ensures Block(before + [head] + inner + after) == Some(inner)
  {
    InsideIs(before, head, inner, after, Unreleased(), Release());
  }

  /** A section runs from the first line that reads as its heading to the next line that starts with `### `. */
  lemma BodyIs(s: Section, name: string, before: seq<string>, head: string, inner: seq<string>, after: seq<string>)
    requires name == Name(s) && forall l :: l in before ==> Trim(l) != "### " + name
    requires Trim(head) == "### " + name
    requires forall l :: l in inner ==> !("### " <= l)
    requires after == [] || "### " <= after[0]
    ensures Body(before + [head] + inner + after, s) == Some(inner)
  {
    InsideIs(before, head, inner, after, HeadingOf(s), AnyHeading());
  }

  /** What stands below a lead: up to the next line at column 0. */
  lemma BelowIs(key: string, before: seq<string>, lead: string, inner: seq<string>, after: seq<string>)
    requires forall l :: l in before ==> !(Flush(l) && Trim(l) == key)
    requires Flush(lead) && Trim(lead) == key
    requires forall l :: l in inner ==> !Flush(l)
    requires after == [] || Flush(after[0])
    ensures Below(before + [lead] + inner + after, key) == Some(inner)
  {
    forall l ensures TopLevel(l) <==> Flush(l) {
      FlushIsTop(l);
    }
    InsideIs(before, lead, inner, after, Lead(key), Bullet());
  }

  /** Without fragments nothing is asked of the changelog; with some, it is refused exactly when no line of it reads as
      the Unreleased heading. */
  lemma RefusedExactly(changelog: string, frags: Fragments)
    ensures frags == map[] ==> Splice(changelog, frags) == Written(changelog)
    ensures Splice(changelog, frags) == NoUnreleasedHeading <==>
      frags != map[] && forall l :: l in Split(changelog, '\n') ==> Trim(l) != UNRELEASED_HEADING
  {
    InsideNone(Split(changelog, '\n'), Unreleased(), Release());
  }

  // ---------------------------------------------------------------- what is pending

  lemma PendingHead(b: seq<string>, s: Section, e: Entry, rest: seq<Entry>)
    ensures Pending(b, s, [e] + rest) == Pending(b, s, [e]) + Pending(b, s, rest)
  {
    assert ([e] + rest)[1..] == rest && [e][1..] == [];
  }

  lemma PendingOne(b: seq<string>, s: Section, e: Entry)
    ensures Pending(b, s, [e]) == if Complete(Locate(b, s, e)) then [] else [e]
  {
    assert [e][1..] == [];
  }

  /** The entries still to be added are those that are not there, or not in full, in their order. */
  lemma {:induction false} PendingSplits(b: seq<string>, s: Section, first: seq<Entry>, more: seq<Entry>)
    ensures Pending(b, s, first + more) == Pending(b, s, first) + Pending(b, s, more)
    decreases |first|
  {
    if first == [] {
      assert first + more == more;
    } else {
      var e, rest := first[0], first[1..];
      assert first == [e] + rest && first + more == [e] + (rest + more);
      PendingHead(b, s, e, rest + more);
      PendingHead(b, s, e, rest);
      PendingSplits(b, s, rest, more);
      Regrouped(Pending(b, s, [e]), Pending(b, s, rest), Pending(b, s, more));
    }
  }

  /** An entry is carried in full when its lead stands in its section and below it, up to the next lead, a line for each
      sub-line of the entry that reads the same. */
  lemma CompleteMeans(b: seq<string>, s: Section, e: Entry, body: seq<string>, under: seq<string>)
    requires Body(b, s) == Some(body) && Below(body, Key(e)) == Some(under)
    ensures Complete(Locate(b, s, e)) <==>
      forall l :: l in e[1..] && !Blank(l) ==> exists m :: m in under && Trim(m) == Trim(l)
  {
    MissingMeans(e[1..], under);
  }

  lemma {:induction false} MissingMeans(subs: seq<string>, present: seq<string>)
    ensures Missing(subs, present) == [] <==>
      forall l :: l in subs && !Blank(l) ==> exists m :: m in present && Trim(m) == Trim(l)
  {
    if subs != [] {
      MissingMeans(subs[1..], present);
      assert subs == [subs[0]] + subs[1..];
    }
  }
}
