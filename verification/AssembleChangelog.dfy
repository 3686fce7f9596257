/** The loops of scripts/assemble-changelog.js, each proved to compute what the functions of `Changelog` say. */
module AssembleChangelog {
  import opened Text
  import opened Scan
  import opened Changelog

  // ---------------------------------------------------------------- splitEntries

  lemma {:induction false} GroupEnds(group: Entry, rest: seq<string>)
    requires NoHit(group[1..], Bullet()) && (rest != [] ==> Bullet()(rest[0]))
    ensures Groups(group + rest) == [group] + Groups(rest)
  {
    var lines := group + rest;
    assert forall k :: 1 <= k < |group| ==> lines[k] == group[1..][k - 1] && lines[k] in group[1..];
    FirstIs(lines, Bullet(), 1, |group|);
    assert lines[..|group|] == group && lines[|group|..] == rest;
  }

  /** What is left to group, given the groups closed so far and the open one. */
  ghost predicate Grouping(lines: seq<string>, done: seq<Entry>, group: Entry, i: nat) {
    && i <= |lines|
    && NoHit(group[1..], Bullet())
    && Groups(lines) == done + Groups(group + lines[i..])
  }

  lemma NextBullet(lines: seq<string>, done: seq<Entry>, group: Entry, i: nat)
    requires Grouping(lines, done, group, i) && i < |lines| && TopLevel(lines[i])
    ensures Grouping(lines, done + [group], [lines[i]], i + 1)
  {
    var next: Entry := [lines[i]];
    GroupEnds(group, lines[i..]);
    assert next + lines[i + 1..] == lines[i..];
    assert next[1..] == [];
  }

  lemma NextSub(lines: seq<string>, done: seq<Entry>, group: Entry, i: nat)
    requires Grouping(lines, done, group, i) && i < |lines| && !TopLevel(lines[i])
    ensures Grouping(lines, done, group + [lines[i]], i + 1)
  {
    var longer: Entry := group + [lines[i]];
    assert group + lines[i..] == longer + lines[i + 1..];
    assert longer[1..] == group[1..] + [lines[i]];
  }

  lemma NextLine(lines: seq<string>, done: seq<Entry>, group: Entry, i: nat)
    requires Grouping(lines, done, group, i) && i < |lines|
    ensures if TopLevel(lines[i]) then Grouping(lines, done + [group], [lines[i]], i + 1)
      else Grouping(lines, done, group + [lines[i]], i + 1)
  {
    if TopLevel(lines[i]) {
      NextBullet(lines, done, group, i);
    } else {
      NextSub(lines, done, group, i);
    }
  }

  lemma GroupingDone(lines: seq<string>, done: seq<Entry>, group: Entry)
    requires Grouping(lines, done, group, |lines|)
    ensures Groups(lines) == done + [group]
  {
    LastGroup(group, lines[|lines|..]);
  }

  lemma LastGroup(group: Entry, rest: seq<string>)
    requires NoHit(group[1..], Bullet()) && rest == []
    ensures Groups(group + rest) == [group]
  {
    GroupEnds(group, rest);
  }

  lemma GroupingStart(lines: seq<string>)
    requires lines != []
    ensures Grouping(lines, [], [lines[0]], 1)
  {
    assert [lines[0]] + lines[1..] == lines;
  }

  method SplitEntries(body: string) returns (entries: seq<Entry>)
    ensures entries == EntriesOf(body)
  {
    var groups := GroupLines(Split(body, '\n'));
    entries := TidyAll(groups);
  }

  method GroupLines(lines: seq<string>) returns (groups: seq<Entry>)
    requires lines != []
    ensures groups == Groups(lines)
  {
    var done: seq<Entry> := [];
    var group: Entry := [lines[0]];
    GroupingStart(lines);
    for i := 1 to |lines|
      invariant Grouping(lines, done, group, i)
    {
      NextLine(lines, done, group, i);
      if TopLevel(lines[i]) {
        done := done + [group];
        group := [lines[i]];
      } else {
        group := group + [lines[i]];
      }
    }
    GroupingDone(lines, done, group);
    groups := done + [group];
  }

  // ---------------------------------------------------------------- mergeEntries

  lemma {:induction false} MergeFromSnoc(merged: seq<Entry>, entries: seq<Entry>, e: Entry)
    ensures MergeFrom(merged, entries + [e]) == AddEntry(MergeFrom(merged, entries), e)
    decreases |entries|
  {
    if entries == [] {
      assert MergeFrom(AddEntry(merged, e), []) == AddEntry(merged, e);
      assert (entries + [e])[1..] == [];
    } else {
      assert (entries + [e])[1..] == entries[1..] + [e];
      MergeFromSnoc(AddEntry(merged, entries[0]), entries[1..], e);
    }
  }

  lemma {:induction false} AddSubsSnoc(lines: Entry, subs: seq<string>, l: string)
    ensures AddSubs(lines, subs + [l])
         == (var r := AddSubs(lines, subs); if Carries(r, Trim(l)) then r else r + [l])
    decreases |subs|
  {
    if subs == [] {
      assert (subs + [l])[1..] == [];
    } else {
      assert (subs + [l])[1..] == subs[1..] + [l];
      AddSubsSnoc(if Carries(lines, Trim(subs[0])) then lines else lines + [subs[0]], subs[1..], l);
    }
  }

  /** An insertion-ordered table of the entries collected so far, by lead. */
  ghost predicate Tabled(leads: seq<string>, byLead: map<string, Entry>, merged: seq<Entry>) {
    && |leads| == |merged|
    && (forall k :: 0 <= k < |leads| ==>
          leads[k] == Key(merged[k]) && leads[k] in byLead && byLead[leads[k]] == merged[k])
    && (forall key :: key in byLead ==> key in leads)
    && (forall i, j :: 0 <= i < j < |leads| ==> leads[i] != leads[j])
  }

  lemma TabledSlot(leads: seq<string>, byLead: map<string, Entry>, merged: seq<Entry>, key: string)
    requires Tabled(leads, byLead, merged)
    ensures key in byLead <==> Slot(merged, key) < |merged|
    ensures key in byLead ==> byLead[key] == merged[Slot(merged, key)]
  {
    if key in byLead {
      var k :| 0 <= k < |leads| && leads[k] == key;
    }
  }

  lemma TabledReplace(leads: seq<string>, byLead: map<string, Entry>, merged: seq<Entry>, at: nat, lines: Entry)
    requires Tabled(leads, byLead, merged) && at < |merged| && leads[at] == Key(lines)
    ensures Tabled(leads, byLead[Key(lines) := lines], merged[at := lines])
  {
  }

  lemma TabledAppend(leads: seq<string>, byLead: map<string, Entry>, merged: seq<Entry>, lines: Entry)
    requires Tabled(leads, byLead, merged) && Key(lines) !in byLead
    ensures Tabled(leads + [Key(lines)], byLead[Key(lines) := lines], merged + [lines])
  {
  }

  lemma TabledUpdate(leads: seq<string>, byLead: map<string, Entry>, merged: seq<Entry>, e: Entry, lines: Entry)
    requires Tabled(leads, byLead, merged) && Key(lines) == Key(e)
    requires lines == AddSubs(if Key(e) in byLead then byLead[Key(e)] else [e[0]], e[1..])
    ensures Tabled(if Key(e) in byLead then leads else leads + [Key(e)], byLead[Key(e) := lines], AddEntry(merged, e))
  {
    TabledSlot(leads, byLead, merged, Key(e));
    if Key(e) in byLead {
      TabledReplace(leads, byLead, merged, Slot(merged, Key(e)), lines);
    } else {
      TabledAppend(leads, byLead, merged, lines);
    }
  }

  /** The inner loop: sub-lines that are not there yet, pushed one by one. */
  method PushSubs(base: Entry, subs: seq<string>) returns (lines: Entry)
    ensures lines == AddSubs(base, subs)
  {
    lines := base;
    for j := 0 to |subs|
      invariant lines == AddSubs(base, subs[..j])
    {
      assert subs[..j + 1] == subs[..j] + [subs[j]];
      AddSubsSnoc(base, subs[..j], subs[j]);
      if !Carries(lines, Trim(subs[j])) {
        lines := lines + [subs[j]];
      }
    }
    assert subs[..|subs|] == subs;
  }

  lemma {:induction false} AllEntriesSnoc(bodies: seq<string>, body: string)
    ensures AllEntries(bodies + [body]) == AllEntries(bodies) + EntriesOf(body)
  {
    var all := bodies + [body];
    if bodies == [] {
      assert all[0] == body && all[1..] == [];
    } else {
      assert all[0] == bodies[0] && all[1..] == bodies[1..] + [body];
      AllEntriesSnoc(bodies[1..], body);
      assert EntriesOf(bodies[0]) + (AllEntries(bodies[1..]) + EntriesOf(body))
          == EntriesOf(bodies[0]) + AllEntries(bodies[1..]) + EntriesOf(body);
    }
  }

  method CollectEntries(bodies: seq<string>) returns (entries: seq<Entry>)
    ensures entries == AllEntries(bodies)
  {
    entries := [];
    for i := 0 to |bodies|
      invariant entries == AllEntries(bodies[..i])
    {
      var split := SplitEntries(bodies[i]);
      AllEntriesSnoc(bodies[..i], bodies[i]);
      assert bodies[..i + 1] == bodies[..i] + [bodies[i]];
      entries := entries + split;
    }
    assert bodies[..|bodies|] == bodies;
  }

  lemma TabledValues(leads: seq<string>, byLead: map<string, Entry>, merged: seq<Entry>)
    requires Tabled(leads, byLead, merged)
    ensures seq(|leads|, (k: nat) requires k < |leads| && leads[k] in byLead => byLead[leads[k]]) == merged
  {
  }

  lemma TabledNext(leads: seq<string>, byLead: map<string, Entry>, entries: seq<Entry>, i: nat, base: Entry,
                   lines: Entry)
    requires i < |entries| && Tabled(leads, byLead, MergeFrom([], entries[..i]))
    requires base == (if Key(entries[i]) in byLead then byLead[Key(entries[i])] else [entries[i][0]])
    requires lines == AddSubs(base, entries[i][1..])
    ensures var key := Key(entries[i]);
      Tabled(if key in byLead then leads else leads + [key], byLead[key := lines], MergeFrom([], entries[..i + 1]))
  {
    var e := entries[i];
    var before := MergeFrom([], entries[..i]);
    assert entries[..i + 1] == entries[..i] + [e];
    MergeFromSnoc([], entries[..i], e);
    TabledSlot(leads, byLead, before, Key(e));
    assert lines[0] == lines[..|base|][0] == base[0];
    TabledUpdate(leads, byLead, before, e, lines);
  }

  method MergeEntries(bodies: seq<string>) returns (merged: seq<Entry>)
    ensures merged == Merge(bodies)
  {
    var entries := CollectEntries(bodies);
    var leads: seq<string> := [];
    var byLead: map<string, Entry> := map[];
    for i := 0 to |entries|
      invariant Tabled(leads, byLead, MergeFrom([], entries[..i]))
    {
      var key := Key(entries[i]);
      var base: Entry := if key in byLead then byLead[key] else [entries[i][0]];
      var lines := PushSubs(base, entries[i][1..]);
      TabledNext(leads, byLead, entries, i, base, lines);
      if key !in byLead {
        leads := leads + [key];
      }
      byLead := byLead[key := lines];
    }
    assert entries[..|entries|] == entries;
    TabledValues(leads, byLead, MergeFrom([], entries));
    merged := seq(|leads|, (k: nat) requires k < |leads| && leads[k] in byLead => byLead[leads[k]]);
  }

  // ---------------------------------------------------------------- locateEntry

  lemma FirstInPart<T>(b: seq<T>, f: T -> bool, lo: nat, hi: nat, from: nat, at: nat, body: seq<T>, p: nat, x: nat)
    requires lo <= from <= at <= hi <= |b| && body == b[lo..hi] && from == lo + p && at == lo + x
    requires (forall k :: from <= k < at ==> !f(b[k])) && (at < hi ==> f(b[at]))
    ensures First(body, f, p) == x
  {
    FirstIs(body, f, p, x);
  }

  lemma {:induction false} BackInPart<T>(b: seq<T>, blank: T -> bool, lo: nat, hi: nat, body: seq<T>, p: nat, q: nat)
    requires lo <= hi <= |b| && body == b[lo..hi] && p <= q <= |body|
    ensures Back(b, blank, lo + p, lo + q) == lo + Back(body, blank, p, q)
    decreases q
  {
    if q > p && blank(body[q - 1]) {
      BackInPart(b, blank, lo, hi, body, p, q - 1);
    }
  }

  lemma SliceInPart<T>(b: seq<T>, lo: nat, hi: nat, body: seq<T>, p: nat, q: nat, from: nat, till: nat)
    requires lo <= hi <= |b| && body == b[lo..hi] && p <= q <= |body| && from == lo + p && till == lo + q
    ensures b[from..till] == body[p..q]
  {
    forall k | 0 <= k < q - p
      ensures b[from..till][k] == body[p..q][k]
    {
      assert b[from..till][k] == b[from + k] && body[p..q][k] == body[p + k];
    }
  }

  /** The first scan: the lead bullet of the entry, or the end of the section. */
  method ScanForLead(block: seq<string>, top: nat, end: nat, key: string, ghost body: seq<string>)
    returns (leadAt: nat)
    requires top <= end <= |block| && body == block[top..end]
    ensures leadAt == top + First(body, Lead(key), 0)
  {
    leadAt := top;
    while leadAt < end && !(TopLevel(block[leadAt]) && Trim(block[leadAt]) == key)
      invariant top <= leadAt <= end
      invariant forall k :: top <= k < leadAt ==> !Lead(key)(block[k])
    {
      leadAt := leadAt + 1;
    }
    FirstInPart(block, Lead(key), top, end, top, leadAt, body, 0, leadAt - top);
  }

  /** The second scan, for any tests of lines: up to the next bullet, and the place after the last line that is not
      blank. */
  method ScanSubs<T>(block: seq<T>, bullet: T -> bool, blank: T -> bool, top: nat, end: nat, first: nat,
                     ghost body: seq<T>, ghost p: nat)
    returns (scan: nat, subsEnd: nat)
    requires top <= first <= end <= |block| && body == block[top..end] && first == top + p
    ensures scan == top + First(body, bullet, p)
    ensures subsEnd == top + Back(body, blank, p, First(body, bullet, p))
  {
    scan, subsEnd := first, first;
    while scan < end && !bullet(block[scan])
      invariant first <= scan <= end
      invariant forall k :: first <= k < scan ==> !bullet(block[k])
      invariant subsEnd == Back(block, blank, first, scan)
    {
      scan := scan + 1;
      if !blank(block[scan - 1]) {
        subsEnd := scan;
      }
    }
    FirstInPart(block, bullet, top, end, first, scan, body, p, scan - top);
    BackInPart(block, blank, top, end, body, p, scan - top);
  }

  method LocateEntry(block: seq<string>, section: Section, entry: Entry) returns (loc: Location)
    ensures loc == Locate(block, section, entry)
  {
    var range := SectionRange(block, section);
    if range.None? {
      return Absent;
    }
    var start, end := range.value.start, range.value.end;
    ghost var body := BodyLines(block, section, start, end);
    loc := LocateInLines(block, start, end, entry, body);
    LocateIsShifted(block, section, entry, body, start);
  }

  lemma LocateIsShifted(b: seq<string>, s: Section, e: Entry, body: seq<string>, start: nat)
    requires SectionRange(b, s).Some? && SectionRange(b, s).value.start == start && Body(b, s) == Some(body)
    ensures Locate(b, s, e) == Shift(LocateIn(body, e), start + 1)
  {
  }

  /** The two scans over the lines of one section. */
  method LocateInLines(block: seq<string>, start: nat, end: nat, entry: Entry, ghost body: seq<string>)
    returns (loc: Location)
    requires start < end <= |block| && body == block[start + 1..end]
    ensures loc == Shift(LocateIn(body, entry), start + 1)
  {
    var top := start + 1;
    var leadAt := ScanForLead(block, top, end, Trim(entry[0]), body);
    ghost var x := leadAt - top;
    if leadAt == end {
      LocateInAbsent(body, entry, start + 1);
      return Absent;
    }
    var scan, subsEnd := ScanSubs(block, Bullet(), BlankLine(), top, end, leadAt + 1, body, x + 1);
    ghost var y := scan - top;
    var present := block[leadAt + 1..scan];
    SliceInPart(block, top, end, body, x + 1, y, leadAt + 1, scan);
    LocateInIs(body, entry, x, y, leadAt, subsEnd, start + 1, present);
    loc := Found(leadAt, subsEnd, Missing(entry[1..], present));
  }

  lemma LocateInAbsent(body: seq<string>, e: Entry, n: nat)
    requires First(body, Lead(Key(e)), 0) == |body|
    ensures Shift(LocateIn(body, e), n) == Absent
  {
  }

  lemma LocateInIs(
      body: seq<string>, e: Entry, x: nat, y: nat, leadAt: nat, subsEnd: nat, top: nat, present: seq<string>)
    requires x < y <= |body| && First(body, Lead(Key(e)), 0) == x && First(body, Bullet(), x + 1) == y
    requires leadAt == top + x && subsEnd == top + Back(body, BlankLine(), x + 1, y) && present == body[x + 1..y]
    ensures Shift(LocateIn(body, e), top) == Found(leadAt, subsEnd, Missing(e[1..], present))
  {
  }

  lemma BodyLines(b: seq<string>, s: Section, start: nat, end: nat) returns (body: seq<string>)
    requires SectionRange(b, s) == Some(Range(start, end))
    ensures start < end <= |b| && body == b[start + 1..end] && Body(b, s) == Some(body)
  {
    body := Body(b, s).value;
  }

  // ---------------------------------------------------------------- pendingFragments, spliceIntoChangelog

  /** The entries of one section that would still add something. */
  method PendingEntries(block: seq<string>, section: Section, bodies: seq<string>) returns (pending: seq<Entry>)
    ensures pending == Pending(block, section, Merge(bodies))
  {
    var entries := MergeEntries(bodies);
    pending := FilterPending(block, section, entries);
  }

  ghost predicate Filtering(b: seq<string>, s: Section, entries: seq<Entry>, i: nat, pending: seq<Entry>) {
    i <= |entries| && Pending(b, s, entries) == pending + Pending(b, s, entries[i..])
  }

  lemma PendingHead(b: seq<string>, s: Section, entries: seq<Entry>)
    requires entries != []
    ensures Pending(b, s, entries)
         == (if Complete(Locate(b, s, entries[0])) then [] else [entries[0]]) + Pending(b, s, entries[1..])
  {
  }

  lemma FilterNext(b: seq<string>, s: Section, entries: seq<Entry>, i: nat, pending: seq<Entry>)
    requires i < |entries| && Filtering(b, s, entries, i, pending)
    ensures Filtering(b, s, entries, i + 1, pending + if Complete(Locate(b, s, entries[i])) then [] else [entries[i]])
  {
    PendingHead(b, s, entries[i..]);
    Assoc(pending, if Complete(Locate(b, s, entries[i])) then [] else [entries[i]], Pending(b, s, entries[i + 1..]));
    assert entries[i..][1..] == entries[i + 1..];
  }

  lemma Assoc(a: seq<Entry>, b: seq<Entry>, c: seq<Entry>)
    ensures a + (b + c) == (a + b) + c
  {
  }

  method FilterPending(block: seq<string>, section: Section, entries: seq<Entry>) returns (pending: seq<Entry>)
    ensures pending == Pending(block, section, entries)
  {
    pending := [];
    assert entries[0..] == entries;
    for i := 0 to |entries|
      invariant Filtering(block, section, entries, i, pending)
    {
      FilterNext(block, section, entries, i, pending);
      var loc := LocateEntry(block, section, entries[i]);
      pending := pending + if loc.Absent? || |loc.missing| > 0 then [entries[i]] else [];
    }
    assert entries[|entries|..] == [];
  }

  /** What `pendingFragments` returns: the fragments as they were given, or the merged entries still to be added. */
  datatype Answer = AsGiven(frags: Fragments) | ToAdd(pending: map<Section, seq<Entry>>)

  predicate IsEmpty(answer: Answer) {
    match answer
    case AsGiven(frags) => frags == map[]
    case ToAdd(pending) => pending == map[]
  }

  /** `done` sections have been gone through, and those with something to add are in `pending`, with what that is. */
  ghost predicate PendingOf(
      b: seq<string>, frags: Fragments, done: set<Section>, pending: map<Section, seq<Entry>>) {
    && (forall s :: s in pending <==> s in frags && s in done && Pending(b, s, Merge(frags[s])) != [])
    && (forall s :: s in pending ==> pending[s] == Pending(b, s, Merge(frags[s])))
  }

  /** `pendingFragments`: with no Unreleased heading everything is still to come; otherwise the sections with something
      to add, and what. */
  method PendingFragments(changelog: string, frags: Fragments) returns (answer: Answer)
    ensures answer.AsGiven? <==> Block(Split(changelog, '\n')).None?
    ensures answer.AsGiven? ==> answer.frags == frags
    ensures answer.ToAdd? ==> PendingOf(Block(Split(changelog, '\n')).value, frags, frags.Keys, answer.pending)
    ensures IsEmpty(answer) <==> NothingPending(changelog, frags)
  {
    var lines := Split(changelog, '\n');
    var range := UnreleasedRange(lines);
    if range.None? {
      return AsGiven(frags);
    }
    var pending := PendingSections(lines[range.value.start + 1..range.value.end], frags);
    answer := ToAdd(pending);
  }

  method PendingSections(b: seq<string>, frags: Fragments) returns (pending: map<Section, seq<Entry>>)
    ensures PendingOf(b, frags, frags.Keys, pending)
    ensures pending == map[] <==> forall s :: s in frags ==> Pending(b, s, Merge(frags[s])) == []
  {
    pending := map[];
    var todo := frags.Keys;
    while todo != {}
      invariant todo <= frags.Keys && PendingOf(b, frags, frags.Keys - todo, pending)
      decreases todo
    {
      var s :| s in todo;
      var news := PendingEntries(b, s, frags[s]);
      if |news| > 0 {
        pending := pending[s := news];
      }
      todo := todo - {s};
    }
    assert frags.Keys - todo == frags.Keys;
    assert pending == map[] <==> forall s :: s !in pending;
  }

  /** One entry: left for later, or its missing sub-lines spliced in. */
  method FoldEntry(block: seq<string>, section: Section, entry: Entry) returns (absent: bool, b: seq<string>)
    ensures absent == Locate(block, section, entry).Absent?
    ensures b == if absent then block
                 else Insert(block, Locate(block, section, entry).subsEnd, Locate(block, section, entry).missing)
  {
    var loc := LocateEntry(block, section, entry);
    absent, b := loc.Absent?, block;
    if !absent && |loc.missing| > 0 {
      b := Insert(block, loc.subsEnd, loc.missing);
    }
  }

  lemma {:induction false} FoldSnoc(b: seq<string>, s: Section, entries: seq<Entry>, e: Entry)
    ensures var f := FoldAll(b, s, entries); var loc := Locate(f.block, s, e);
      FoldAll(b, s, entries + [e])
        == if loc.Absent? then Folded(f.block, f.news + [e])
           else Folded(Insert(f.block, loc.subsEnd, loc.missing), f.news)
    decreases |entries|
  {
    var all := entries + [e];
    if entries == [] {
      assert all[0] == e && all[1..] == [];
    } else {
      var loc := Locate(b, s, entries[0]);
      var c := if loc.Absent? then b else Insert(b, loc.subsEnd, loc.missing);
      assert all[0] == entries[0] && all[1..] == entries[1..] + [e];
      FoldSnoc(c, s, entries[1..], e);
      if loc.Absent? {
        var f := FoldAll(c, s, entries[1..]);
        assert [entries[0]] + (f.news + [e]) == [entries[0]] + f.news + [e];
      }
    }
  }

  /** The fold over the entries of one section. */
  method FoldSection(block: seq<string>, section: Section, entries: seq<Entry>) returns (r: Folded)
    ensures r == FoldAll(block, section, entries)
  {
    var b := block;
    var news: seq<Entry> := [];
    for i := 0 to |entries|
      invariant Folded(b, news) == FoldAll(block, section, entries[..i])
    {
      FoldSnoc(block, section, entries[..i], entries[i]);
      assert entries[..i + 1] == entries[..i] + [entries[i]];
      var absent, c := FoldEntry(b, section, entries[i]);
      b := c;
      if absent {
        news := news + [entries[i]];
      }
    }
    assert entries[..|entries|] == entries;
    r := Folded(b, news);
  }

  /** The new entries put down, with the place found by stepping back over the blank lines. */
  method AppendSection(block: seq<string>, section: Section, news: seq<Entry>) returns (b: seq<string>)
    ensures b == AppendNews(block, section, news)
  {
    var range := SectionRange(block, section);
    if range.None? {
      b := AppendUnder(block, First(block, Later(section), 0), Heading(section), "", Flatten(news));
    } else {
      var insertAt := StepBack(block, range.value);
      b := AppendAt(block, insertAt, range.value.start + 1, "", Flatten(news));
    }
  }

  /** From the end of a section back over its blank lines. */
  method StepBack(block: seq<string>, range: Range) returns (insertAt: nat)
    requires range.start < range.end <= |block|
    ensures insertAt == InkEnd(block, range)
  {
    insertAt := range.end;
    while insertAt > range.start + 1 && Blank(block[insertAt - 1])
      invariant range.start + 1 <= insertAt <= range.end
      invariant InkEnd(block, range) == Back(block, BlankLine(), range.start + 1, insertAt)
    {
      insertAt := insertAt - 1;
    }
  }

  method SpliceOneSection(block: seq<string>, section: Section, frags: Fragments) returns (b: seq<string>)
    ensures b == SpliceTurn(block, frags, section)
  {
    b := block;
    if section in frags {
      var entries := MergeEntries(frags[section]);
      var folded := FoldSection(block, section, entries);
      b := folded.block;
      if |folded.news| > 0 {
        b := AppendSection(b, section, folded.news);
      }
    }
  }

  method SpliceSections(block: seq<string>, frags: Fragments) returns (b: seq<string>)
    ensures b == SpliceBlock(block, frags, 0)
  {
    b := block;
    for i := 0 to |SECTIONS|
      invariant SpliceBlock(block, frags, 0) == SpliceBlock(b, frags, i)
    {
      b := SpliceOneSection(b, SECTIONS[i], frags);
    }
  }

  method SpliceIntoChangelog(changelog: string, frags: Fragments) returns (r: Spliced)
    ensures r == Splice(changelog, frags)
  {
    if frags == map[] {
      return Written(changelog);
    }
    var lines := Split(changelog, '\n');
    var range := UnreleasedRange(lines);
    if range.None? {
      return NoUnreleasedHeading;
    }
    var start, end := range.value.start, range.value.end;
    var block := SpliceSections(lines[start + 1..end], frags);
    return Written(Join(lines[..start + 1] + block + lines[end..], '\n'));
  }
}
