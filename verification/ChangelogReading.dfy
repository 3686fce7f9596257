/**
 What merged fragments say, in the order in which a reader of the fragments meets it: each lead once, where it first
 appears, and under it each sub-line once, from every fragment that has the lead. And that a splice puts them down so.
 */
module ChangelogReading {
  import opened Text
  import opened Scan
  import opened ScanParts
  import opened Changelog
  import opened ChangelogPlaces
  import opened ChangelogSplice
  import opened ChangelogMerge
  import opened ChangelogCuts
  import opened ChangelogTheorems

  // ---------------------------------------------------------------- reading lines

  /** Each value once, in the order of first appearance, after those in `done`. */
  function FirstsFrom(done: seq<string>, xs: seq<string>): seq<string>
    decreases |xs|
  {
    if xs == [] then done
    else FirstsFrom(if xs[0] in done then done else done + [xs[0]], xs[1..])
  }

  function Firsts(xs: seq<string>): seq<string> {
    FirstsFrom([], xs)
  }

  /** The lines of the fragments, one after the other. */
  function LinesOf(bodies: seq<string>): seq<string> {
    if bodies == [] then [] else Split(bodies[0], '\n') + LinesOf(bodies[1..])
  }

  /** The texts of the lines at column 0. */
  function Leads(lines: seq<string>): seq<string> {
    if lines == [] then [] else (if TopLevel(lines[0]) then [Trim(lines[0])] else []) + Leads(lines[1..])
  }

  /** The texts of the lines at or under a lead that reads `key`; `under`: what the lead above reads. */
  function Filed(lines: seq<string>, under: string, key: string): seq<string> {
    if lines == [] then []
    else
      var lead := if TopLevel(lines[0]) then Trim(lines[0]) else under;
      (if lead == key then [Trim(lines[0])] else []) + Filed(lines[1..], lead, key)
  }

  function Texts(lines: seq<string>): seq<string> {
    if lines == [] then [] else [Trim(lines[0])] + Texts(lines[1..])
  }

  function Keys(entries: seq<Entry>): seq<string> {
    if entries == [] then [] else [Key(entries[0])] + Keys(entries[1..])
  }

  /** The texts of the entries with that lead. */
  function FiledIn(entries: seq<Entry>, key: string): seq<string> {
    if entries == [] then []
    else (if Key(entries[0]) == key then Texts(entries[0]) else []) + FiledIn(entries[1..], key)
  }

  // ---------------------------------------------------------------- small facts

  lemma Regrouped<T>(a: seq<T>, b: seq<T>, c: seq<T>)
    ensures a + (b + c) == a + b + c
  {
  }

  lemma {:induction false} LeadsIn(a: seq<string>, b: seq<string>)
    ensures Leads(a + b) == Leads(a) + Leads(b)
  {
    if a == [] {
      assert a + b == b;
    } else {
      var head := if TopLevel(a[0]) then [Trim(a[0])] else [];
      assert (a + b)[0] == a[0] && (a + b)[1..] == a[1..] + b;
      LeadsIn(a[1..], b);
      Regrouped(head, Leads(a[1..]), Leads(b));
    }
  }

  lemma {:induction false} NoLeads(lines: seq<string>)
    requires NoHit(lines, Bullet())
    ensures Leads(lines) == []
  {
    if lines != [] {
      assert lines[0] in lines && !Bullet()(lines[0]);
      NoLeads(lines[1..]);
    }
  }

  lemma {:induction false} TextsIn(a: seq<string>, b: seq<string>)
    ensures Texts(a + b) == Texts(a) + Texts(b)
  {
    if a == [] {
      assert a + b == b;
    } else {
      assert (a + b)[0] == a[0] && (a + b)[1..] == a[1..] + b;
      TextsIn(a[1..], b);
    }
  }

  lemma {:induction false} TextsAt(lines: seq<string>)
    ensures |Texts(lines)| == |lines|
    ensures forall k :: 0 <= k < |lines| ==> Texts(lines)[k] == Trim(lines[k])
  {
    if lines != [] {
      TextsAt(lines[1..]);
    }
  }

  lemma TextsHas(lines: seq<string>, text: string)
    ensures text in Texts(lines) <==> Carries(lines, text)
  {
    TextsAt(lines);
    if text in Texts(lines) {
      var k :| 0 <= k < |Texts(lines)| && Texts(lines)[k] == text;
      assert lines[k] in lines;
    }
    if Carries(lines, text) {
      var l :| l in lines && Trim(l) == text;
      var k :| 0 <= k < |lines| && lines[k] == l;
      assert Texts(lines)[k] == text;
    }
  }

  lemma {:induction false} SameTexts(a: seq<string>, b: seq<string>)
    requires |a| == |b| && forall k :: 0 <= k < |a| ==> Trim(a[k]) == Trim(b[k])
    ensures Texts(a) == Texts(b)
  {
    TextsAt(a);
    TextsAt(b);
  }

  lemma {:induction false} FirstsMore(done: seq<string>, a: seq<string>, b: seq<string>)
    ensures FirstsFrom(done, a + b) == FirstsFrom(FirstsFrom(done, a), b)
    decreases |a|
  {
    if a == [] {
      assert a + b == b;
    } else {
      assert (a + b)[0] == a[0] && (a + b)[1..] == a[1..] + b;
      FirstsMore(if a[0] in done then done else done + [a[0]], a[1..], b);
    }
  }

  /** No value twice, all values, and in the order of their first places. */
  lemma {:induction false} FirstsAre(done: seq<string>, xs: seq<string>)
    requires forall i, j :: 0 <= i < j < |done| ==> done[i] != done[j]
    ensures var r := FirstsFrom(done, xs);
      && done <= r && (forall i, j :: 0 <= i < j < |r| ==> r[i] != r[j])
      && (forall x :: x in r <==> x in done || x in xs)
    decreases |xs|
  {
    if xs != [] {
      var next := if xs[0] in done then done else done + [xs[0]];
      FirstsAre(next, xs[1..]);
      assert forall x :: x in xs <==> x == xs[0] || x in xs[1..];
    }
  }

  // ---------------------------------------------------------------- the entries of the fragments

  lemma HeadReads(l: string, rest: seq<string>, under: string, key: string)
    requires TopLevel(l)
    ensures Leads([l] + rest) == [Trim(l)] + Leads(rest)
    ensures Filed([l] + rest, under, key) == (if Trim(l) == key then [key] else []) + Filed(rest, Trim(l), key)
  {
    assert ([l] + rest)[1..] == rest;
  }

  lemma SubsReads(subs: seq<string>, rest: seq<string>)
    requires NoHit(subs, Bullet())
    ensures Leads(subs + rest) == Leads(rest)
  {
    LeadsIn(subs, rest);
    NoLeads(subs);
  }

  lemma GroupLeads(l: string, subs: seq<string>, rest: seq<string>)
    requires TopLevel(l) && NoHit(subs, Bullet())
    ensures Leads([l] + subs + rest) == [Trim(l)] + Leads(rest)
  {
    Regrouped([l], subs, rest);
    HeadReads(l, subs + rest, "", "");
    SubsReads(subs, rest);
  }

  lemma GroupFiled(l: string, subs: seq<string>, rest: seq<string>, under: string, key: string)
    requires TopLevel(l) && NoHit(subs, Bullet())
    ensures Filed([l] + subs + rest, under, key)
      == (if Trim(l) == key then [key] + Texts(subs) else []) + Filed(rest, Trim(l), key)
  {
    Regrouped([l], subs, rest);
    HeadReads(l, subs + rest, under, key);
    FiledSubs(subs, rest, Trim(l), key);
    Regrouped([key], Texts(subs), Filed(rest, Trim(l), key));
  }

  lemma GroupParts(group: Entry)
    requires GoodEntry(group)
    ensures TopLevel(group[0]) && NoHit(group[1..], Bullet()) && group == [group[0]] + group[1..]
    ensures Texts(group) == [Key(group)] + Texts(group[1..])
  {
    BulletLineFacts(group[0]);
    SubsNoBullet(group);
  }

  lemma {:induction false} FiledSubs(subs: seq<string>, rest: seq<string>, under: string, key: string)
    requires NoHit(subs, Bullet())
    ensures Filed(subs + rest, under, key) == (if under == key then Texts(subs) else []) + Filed(rest, under, key)
  {
    if subs == [] {
      assert subs + rest == rest;
    } else {
      assert subs[0] in subs && !Bullet()(subs[0]);
      assert (subs + rest)[0] == subs[0] && (subs + rest)[1..] == subs[1..] + rest;
      FiledSubs(subs[1..], rest, under, key);
    }
  }

  lemma TopIsBullet(l: string)
    requires TopLevel(l) && (BulletLine(l) || SubLine(l))
    ensures BulletLine(l)
  {
    if SubLine(l) { SubLineFacts(l); }
  }

  lemma RestIsList(lines: seq<string>, stop: nat)
    requires ListLines(lines) && stop <= |lines| && (stop < |lines| ==> TopLevel(lines[stop]))
    ensures ListLines(lines[stop..]) && (lines[stop..] != [] ==> BulletLine(lines[stop..][0]))
  {
    assert forall l :: l in lines[stop..] ==> l in lines;
    if stop < |lines| {
      TopIsBullet(lines[stop]);
    }
  }

  lemma GroupsFirst(lines: seq<string>) returns (group: Entry, rest: seq<string>)
    requires ListLines(lines) && lines != [] && BulletLine(lines[0])
    ensures lines == group + rest && Groups(lines) == [group] + Groups(rest) && GoodEntry(group)
    ensures ListLines(rest) && (rest != [] ==> BulletLine(rest[0]))
  {
    var stop := First(lines, Bullet(), 1);
    group, rest := lines[..stop], lines[stop..];
    assert GoodEntry(group) by {
      GroupsGood(lines);
      assert group in Groups(lines);
    }
    assert stop < |lines| ==> Bullet()(lines[stop]);
    RestIsList(lines, stop);
  }

  lemma KeysCons(e: Entry, entries: seq<Entry>, key: string)
    ensures Keys([e] + entries) == [Key(e)] + Keys(entries)
    ensures FiledIn([e] + entries, key) == (if Key(e) == key then Texts(e) else []) + FiledIn(entries, key)
  {
    assert ([e] + entries)[1..] == entries;
  }

  lemma {:induction false} GroupsLeads(lines: seq<string>)
    requires ListLines(lines) && (lines != [] ==> BulletLine(lines[0]))
    ensures Leads(lines) == Keys(Groups(lines))
    decreases |lines|
  {
    if lines != [] {
      var group, rest := GroupsFirst(lines);
      GroupParts(group);
      GroupLeads(group[0], group[1..], rest);
      GroupsLeads(rest);
      KeysCons(group, Groups(rest), "");
    }
  }

  lemma {:induction false} GroupsFiled(lines: seq<string>, more: seq<string>, under: string, key: string)
    requires ListLines(lines) && (lines != [] ==> BulletLine(lines[0])) && (more != [] ==> TopLevel(more[0]))
    ensures Filed(lines + more, under, key) == FiledIn(Groups(lines), key) + Filed(more, "", key)
    decreases |lines|
  {
    if lines == [] {
      assert lines + more == more;
      HeadForgets(more, under, key);
    } else {
      var group, rest := GroupsFirst(lines);
      GroupParts(group);
      Regrouped([group[0]] + group[1..], rest, more);
      GroupFiled(group[0], group[1..], rest + more, under, key);
      GroupsFiled(rest, more, Key(group), key);
      KeysCons(group, Groups(rest), key);
      Regrouped(if Key(group) == key then Texts(group) else [], FiledIn(Groups(rest), key), Filed(more, "", key));
    }
  }

  lemma HeadForgets(more: seq<string>, under: string, key: string)
    requires more != [] ==> TopLevel(more[0])
    ensures Filed(more, under, key) == Filed(more, "", key)
  {
  }

  lemma {:induction false} TidyReads(groups: seq<Entry>, key: string)
    requires forall g :: g in groups ==> GoodEntry(g)
    ensures Keys(TidyAll(groups)) == Keys(groups) && FiledIn(TidyAll(groups), key) == FiledIn(groups, key)
  {
    if groups != [] {
      TidyGood(groups[0]);
      SameTexts(Tidy(groups[0]), groups[0]);
      TidyReads(groups[1..], key);
      assert TidyAll(groups)[1..] == TidyAll(groups[1..]);
    }
  }

  lemma {:induction false} KeysIn(a: seq<Entry>, b: seq<Entry>, key: string)
    ensures Keys(a + b) == Keys(a) + Keys(b) && FiledIn(a + b, key) == FiledIn(a, key) + FiledIn(b, key)
  {
    if a == [] {
      assert a + b == b;
    } else {
      assert (a + b)[0] == a[0] && (a + b)[1..] == a[1..] + b;
      KeysIn(a[1..], b, key);
    }
  }

  lemma BodyReads(body: string, more: seq<string>, key: string)
    requires ValidateBody(body).Accepted? && (more != [] ==> TopLevel(more[0]))
    ensures Leads(Split(body, '\n') + more) == Keys(EntriesOf(body)) + Leads(more)
    ensures Filed(Split(body, '\n') + more, "", key) == FiledIn(EntriesOf(body), key) + Filed(more, "", key)
    ensures TopLevel((Split(body, '\n') + more)[0])
  {
    var lines := Split(body, '\n');
    AcceptedBody(body);
    assert TopLevel(lines[0]) by { BulletLineFacts(lines[0]); }
    GroupsGood(lines);
    GroupsLeads(lines);
    LeadsIn(lines, more);
    GroupsFiled(lines, more, "", key);
    TidyReads(Groups(lines), key);
  }

  /** The entries of validated fragments are read off their lines. */
  lemma {:induction false} EntriesRead(bodies: seq<string>, key: string)
    requires Valid(bodies)
    ensures Leads(LinesOf(bodies)) == Keys(AllEntries(bodies))
    ensures Filed(LinesOf(bodies), "", key) == FiledIn(AllEntries(bodies), key)
    ensures LinesOf(bodies) != [] ==> TopLevel(LinesOf(bodies)[0])
  {
    if bodies != [] {
      EntriesRead(bodies[1..], key);
      assert bodies[0] in bodies;
      BodyReads(bodies[0], LinesOf(bodies[1..]), key);
      KeysIn(EntriesOf(bodies[0]), AllEntries(bodies[1..]), key);
    }
  }

  // ---------------------------------------------------------------- merging, in order

  lemma OneText(l: string)
    ensures Texts([l]) == [Trim(l)]
  {
    assert [l][1..] == [];
  }

  lemma {:induction false} AddSubsReads(lines: Entry, subs: seq<string>)
    ensures Texts(AddSubs(lines, subs)) == FirstsFrom(Texts(lines), Texts(subs))
    decreases |subs|
  {
    if subs != [] {
      var next: Entry := if Carries(lines, Trim(subs[0])) then lines else lines + [subs[0]];
      TextsHas(lines, Trim(subs[0]));
      TextsIn(lines, [subs[0]]);
      OneText(subs[0]);
      AddSubsReads(next, subs[1..]);
      assert AddSubs(lines, subs) == AddSubs(next, subs[1..]);
      assert Texts(subs)[0] == Trim(subs[0]) && Texts(subs)[1..] == Texts(subs[1..]);
    }
  }

  /** What has been merged so far is what has been read so far. */
  ghost predicate ReadsSo(merged: seq<Entry>, seen: seq<Entry>) {
    && Keys(merged) == Firsts(Keys(seen))
    && forall i :: 0 <= i < |merged| ==> Texts(merged[i]) == Firsts(FiledIn(seen, Key(merged[i])))
  }

  lemma {:induction false} KeysAt(entries: seq<Entry>)
    ensures |Keys(entries)| == |entries|
    ensures forall i :: 0 <= i < |entries| ==> Keys(entries)[i] == Key(entries[i])
  {
    if entries != [] {
      KeysAt(entries[1..]);
    }
  }

  lemma {:induction false} NotFiled(entries: seq<Entry>, key: string)
    requires key !in Keys(entries)
    ensures FiledIn(entries, key) == []
  {
    if entries != [] {
      assert Keys(entries)[0] == Key(entries[0]);
      assert forall k :: k in Keys(entries[1..]) ==> k in Keys(entries);
      NotFiled(entries[1..], key);
    }
  }

  lemma OneMoreKey(seen: seq<Entry>, e: Entry, key: string)
    ensures Keys(seen + [e]) == Keys(seen) + [Key(e)]
    ensures FiledIn(seen + [e], key) == FiledIn(seen, key) + if Key(e) == key then Texts(e) else []
    ensures Firsts(Keys(seen + [e]))
      == if Key(e) in Firsts(Keys(seen)) then Firsts(Keys(seen)) else Firsts(Keys(seen)) + [Key(e)]
  {
    KeysIn(seen, [e], key);
    assert [e][1..] == [];
    FirstsMore([], Keys(seen), [Key(e)]);
    assert [Key(e)][1..] == [];
  }

  lemma NewEntryReads(e: Entry)
    ensures Texts(AddSubs([e[0]], e[1..])) == Firsts(Texts(e))
  {
    AddSubsReads([e[0]], e[1..]);
    assert [e[0]][1..] == [];
    assert Texts(e) == [Trim(e[0])] + Texts(e[1..]) && Texts(e)[1..] == Texts(e[1..]);
    assert Texts([e[0]]) == [Trim(e[0])] == [] + [Texts(e)[0]];
  }

  lemma OldEntryReads(lines: Entry, e: Entry, before: seq<string>)
    requires Texts(lines) == Firsts(before) && Key(lines) == Key(e)
    ensures Texts(AddSubs(lines, e[1..])) == Firsts(before + Texts(e))
  {
    AddSubsReads(lines, e[1..]);
    FirstsMore([], before, Texts(e));
    assert Texts(e) == [Key(e)] + Texts(e[1..]) && Texts(e)[1..] == Texts(e[1..]);
    assert Texts(lines)[0] == Key(e);
  }

  lemma AddReads(merged: seq<Entry>, seen: seq<Entry>, e: Entry)
    requires ReadsSo(merged, seen)
    ensures ReadsSo(AddEntry(merged, e), seen + [e])
  {
    var at := Slot(merged, Key(e));
    KeysAt(merged);
    OneMoreKey(seen, e, Key(e));
    if at < |merged| {
      AddOldReads(merged, seen, e, at);
    } else {
      AddNewReads(merged, seen, e);
    }
  }

  lemma NotOfThis(seen: seq<Entry>, e: Entry, key: string)
    requires Key(e) != key
    ensures FiledIn(seen + [e], key) == FiledIn(seen, key)
  {
    OneMoreKey(seen, e, key);
    assert FiledIn(seen, key) + [] == FiledIn(seen, key);
  }

  lemma AddOldReads(merged: seq<Entry>, seen: seq<Entry>, e: Entry, at: nat)
    requires ReadsSo(merged, seen) && at == Slot(merged, Key(e)) < |merged|
    ensures ReadsSo(merged[at := AddSubs(merged[at], e[1..])], seen + [e])
  {
    var m := AddSubs(merged[at], e[1..]);
    var r := merged[at := m];
    assert m[0] == m[..|merged[at]|][0] == merged[at][0];
    KeysAt(merged);
    KeysAt(r);
    FirstsAre([], Keys(seen));
    assert Keys(r) == Keys(merged);
    assert Key(e) == Keys(merged)[at];
    OneMoreKey(seen, e, Key(e));
    OldEntryReads(merged[at], e, FiledIn(seen, Key(e)));
    forall i | 0 <= i < |r| ensures Texts(r[i]) == Firsts(FiledIn(seen + [e], Key(r[i]))) {
      if i != at {
        assert Keys(merged)[i] != Keys(merged)[at];
        NotOfThis(seen, e, Key(r[i]));
      }
    }
  }

  lemma KeyIsNew(merged: seq<Entry>, key: string)
    requires Slot(merged, key) == |merged|
    ensures key !in Keys(merged)
  {
    KeysAt(merged);
  }

  lemma AddNewReads(merged: seq<Entry>, seen: seq<Entry>, e: Entry)
    requires ReadsSo(merged, seen) && Slot(merged, Key(e)) == |merged|
    ensures ReadsSo(merged + [AddSubs([e[0]], e[1..])], seen + [e])
  {
    var m := AddSubs([e[0]], e[1..]);
    assert m[0] == m[..1][0] == e[0];
    KeyIsNew(merged, Key(e));
    OneMoreKey(merged, m, "");
    OneMoreKey(seen, e, Key(e));
    FirstsAre([], Keys(seen));
    NotFiled(seen, Key(e));
    NewEntryReads(e);
    assert [] + Texts(e) == Texts(e);
    forall i | 0 <= i < |merged| + 1
      ensures Texts((merged + [m])[i]) == Firsts(FiledIn(seen + [e], Key((merged + [m])[i])))
    {
      if i < |merged| {
        KeysAt(merged);
        assert Keys(merged)[i] == Key(merged[i]);
        OneMoreKey(seen, e, Key(merged[i]));
        assert FiledIn(seen, Key(merged[i])) + [] == FiledIn(seen, Key(merged[i]));
      }
    }
  }

  lemma {:induction false} MergeReadsOn(merged: seq<Entry>, seen: seq<Entry>, entries: seq<Entry>)
    requires ReadsSo(merged, seen)
    ensures ReadsSo(MergeFrom(merged, entries), seen + entries)
    decreases |entries|
  {
    if entries == [] {
      assert seen + entries == seen;
    } else {
      AddReads(merged, seen, entries[0]);
      MergeReadsOn(AddEntry(merged, entries[0]), seen + [entries[0]], entries[1..]);
      assert seen + [entries[0]] + entries[1..] == seen + entries;
    }
  }

  /** The merged entries of validated fragments, read off their lines: the leads in the order of their first appearance,
      and under each lead each text once, in the order of its first appearance under that lead. */
  lemma MergeReads(bodies: seq<string>)
    requires Valid(bodies)
    ensures Keys(Merge(bodies)) == Firsts(Leads(LinesOf(bodies)))
    ensures forall m :: m in Merge(bodies) ==> Texts(m) == Firsts(Filed(LinesOf(bodies), "", Key(m)))
  {
    var all := AllEntries(bodies);
    MergeReadsOn([], [], all);
    assert [] + all == all;
    EntriesRead(bodies, "");
    forall m | m in Merge(bodies) ensures Texts(m) == Firsts(Filed(LinesOf(bodies), "", Key(m))) {
      EntriesRead(bodies, Key(m));
      var i :| 0 <= i < |Merge(bodies)| && Merge(bodies)[i] == m;
    }
  }

  // ---------------------------------------------------------------- ink

  /** The texts of the lines that are not blank. */
  function Ink(lines: seq<string>): seq<string> {
    if lines == [] then [] else (if Blank(lines[0]) then [] else [Trim(lines[0])]) + Ink(lines[1..])
  }

  lemma {:induction false} InkIn(a: seq<string>, b: seq<string>)
    ensures Ink(a + b) == Ink(a) + Ink(b)
  {
    if a == [] {
      assert a + b == b;
    } else {
      assert (a + b)[0] == a[0] && (a + b)[1..] == a[1..] + b;
      InkIn(a[1..], b);
      Regrouped(if Blank(a[0]) then [] else [Trim(a[0])], Ink(a[1..]), Ink(b));
    }
  }

  lemma {:induction false} NoInk(lines: seq<string>)
    requires forall l :: l in lines ==> Blank(l)
    ensures Ink(lines) == [] && Leads(lines) == []
  {
    if lines != [] {
      assert lines[0] in lines;
      NoInk(lines[1..]);
    }
  }

  lemma {:induction false} AllInk(lines: seq<string>)
    requires forall l :: l in lines ==> !Blank(l)
    ensures Ink(lines) == Texts(lines)
  {
    if lines != [] {
      assert lines[0] in lines;
      AllInk(lines[1..]);
    }
  }

  lemma TailBlank(body: seq<string>, at: nat)
    requires at <= |body| && forall k :: at <= k < |body| ==> Blank(body[k])
    ensures Ink(body) == Ink(body[..at]) && Leads(body) == Leads(body[..at])
  {
    assert body == body[..at] + body[at..];
    forall l | l in body[at..] ensures Blank(l) {
      var k :| 0 <= k < |body[at..]| && body[at..][k] == l;
    }
    NoInk(body[at..]);
    InkIn(body[..at], body[at..]);
    LeadsIn(body[..at], body[at..]);
  }

  /** Lines put in where only blank ones follow are read after the others. */
  lemma InsertReads(body: seq<string>, at: nat, xs: seq<string>)
    requires at <= |body| && forall k :: at <= k < |body| ==> Blank(body[k])
    ensures Ink(Insert(body, at, xs)) == Ink(body) + Ink(xs)
    ensures Leads(Insert(body, at, xs)) == Leads(body) + Leads(xs)
  {
    TailBlank(body, at);
    var c := Insert(body, at, xs);
    assert c[..at + |xs|] == body[..at] + xs;
    TailBlank(c, at + |xs|);
    InkIn(body[..at], xs);
    LeadsIn(body[..at], xs);
  }

  lemma {:induction false} NewsRead(news: seq<Entry>)
    requires AllWellFormed(news)
    ensures Leads(Flatten(news)) == Keys(news) && Ink(Flatten(news)) == Texts(Flatten(news))
  {
    NewsEnds(news);
    AllInk(Flatten(news));
    if news != [] {
      NewsRead(news[1..]);
      GroupParts(news[0]);
      GroupLeads(news[0][0], news[0][1..], Flatten(news[1..]));
    }
  }

  lemma PadReads(first: bool, xs: seq<string>)
    ensures Ink(Pad(first, "") + xs) == Ink(xs) && Leads(Pad(first, "") + xs) == Leads(xs)
  {
    BlankFacts();
    NoInk(Pad(first, ""));
    InkIn(Pad(first, ""), xs);
    LeadsIn(Pad(first, ""), xs);
  }

  // ---------------------------------------------------------------- fragments of one section

  lemma {:induction false} OtherTurns(b: seq<string>, frags: Fragments, s: Section, i: nat)
    requires frags.Keys == {s} && Rank(s) < i <= |SECTIONS|
    ensures SpliceBlock(b, frags, i) == b
    decreases |SECTIONS| - i
  {
    if i < |SECTIONS| {
      RankAt(i);
      OtherTurns(b, frags, s, i + 1);
    }
  }

  lemma {:induction false} OnlyTurn(b: seq<string>, frags: Fragments, s: Section, i: nat)
    requires frags.Keys == {s} && i <= Rank(s)
    ensures SpliceBlock(b, frags, i) == SpliceSection(b, s, Merge(frags[s]))
    decreases |SECTIONS| - i
  {
    RankAt(i);
    if i == Rank(s) {
      OtherTurns(SpliceSection(b, s, Merge(frags[s])), frags, s, i + 1);
    } else {
      OnlyTurn(b, frags, s, i + 1);
    }
  }

  lemma {:induction false} LeadsHas(lines: seq<string>, text: string)
    ensures text in Leads(lines) <==> exists l :: l in lines && TopLevel(l) && Trim(l) == text
  {
    if lines != [] {
      LeadsHas(lines[1..], text);
      assert forall l :: l in lines <==> l == lines[0] || l in lines[1..];
    }
  }

  lemma LackedIsAbsent(body: seq<string>, e: Entry)
    ensures Key(e) in Leads(body) <==> !AbsentIn(body, e)
  {
    LeadsHas(body, Key(e));
    CarriedMeans(body, e);
    NoneNoHit(body, Lead(Key(e)), Bullet());
  }

  lemma {:induction false} FoldNothing(b: seq<string>, s: Section, entries: seq<Entry>)
    requires forall e :: e in entries ==> Locate(b, s, e).Absent?
    ensures FoldAll(b, s, entries) == Folded(b, entries)
    decreases |entries|
  {
    if entries != [] {
      assert entries[0] in entries;
      FoldNothing(b, s, entries[1..]);
    }
  }

  /** The block holds none of these leads under the section. */
  ghost predicate LacksLeads(b: seq<string>, s: Section, leads: seq<string>) {
    Body(b, s).Some? ==> forall key :: key in leads ==> key !in Leads(Body(b, s).value)
  }

  lemma LacksEntries(b: seq<string>, s: Section, entries: seq<Entry>)
    requires LacksLeads(b, s, Keys(entries))
    ensures FoldAll(b, s, entries) == Folded(b, entries)
  {
    KeysAt(entries);
    forall e | e in entries ensures Locate(b, s, e).Absent? {
      var i :| 0 <= i < |entries| && entries[i] == e;
      assert Keys(entries)[i] == Key(e);
      CarriedInBody(b, s, e);
      if Body(b, s).Some? {
        LackedIsAbsent(Body(b, s).value, e);
      }
    }
    FoldNothing(b, s, entries);
  }

  /** Under a heading that is there, new entries come after every line that was there, in their order. */
  lemma AddedBelow(b: seq<string>, s: Section, entries: seq<Entry>)
    requires Body(b, s).Some? && AllWellFormed(entries) && LacksLeads(b, s, Keys(entries))
    ensures var c := SpliceSection(b, s, entries);
      && Body(c, s).Some?
      && Leads(Body(c, s).value) == Leads(Body(b, s).value) + Keys(entries)
      && Ink(Body(c, s).value) == Ink(Body(b, s).value) + Texts(Flatten(entries))
  {
    LacksEntries(b, s, entries);
    NewsRead(entries);
    var Range(start, end) := SectionRange(b, s).value;
    var body := b[start + 1..end];
    AppendThereBody(b, s, entries, start, end);
    if entries != [] {
      var at := Back(body, BlankLine(), 0, |body|);
      PadReads(at == 0, Flatten(entries));
      assert forall k :: at <= k < |body| ==> BlankLine()(body[k]);
      InsertReads(body, at, Pad(at == 0, "") + Flatten(entries));
    } else {
      assert Flatten(entries) == [] && Texts(Flatten(entries)) == [] && Keys(entries) == [];
    }
  }

  lemma PrefixOf<T>(a: seq<T>, b: seq<T>, all: seq<T>)
    requires all == [] + a + b
    ensures a <= all
  {
  }

  /** Under a heading of their own, they are all that there is before the lines that were there below. */
  lemma AddedUnder(b: seq<string>, s: Section, entries: seq<Entry>)
    requires Body(b, s).None? && AllWellFormed(entries) && entries != []
    ensures var c := SpliceSection(b, s, entries);
      && Body(c, s).Some? && Keys(entries) <= Leads(Body(c, s).value)
      && Texts(Flatten(entries)) <= Ink(Body(c, s).value)
  {
    LacksEntries(b, s, entries);
    NewsRead(entries);
    var below := AppendNewBody(b, s, entries);
    PadReads(true, Flatten(entries));
    var top := [""] + Flatten(entries);
    InkIn(top, below);
    LeadsIn(top, below);
    PrefixOf(Keys(entries), Leads(below), Leads(top + below));
    PrefixOf(Texts(Flatten(entries)), Ink(below), Ink(top + below));
  }

  lemma UnderIs<T>(b: seq<T>, p: nat, head: T, x: T, xs: seq<T>)
    requires p <= |b|
    ensures AppendUnder(b, p, head, x, xs) == b[..p] + (if p == 0 then [x] else []) + [head, x] + xs + [x] + b[p..]
  {
  }

  /** The heading is put above the first line that reads as a later one, or last, and nothing else is touched. */
  lemma HeadingAdded(b: seq<string>, s: Section, entries: seq<Entry>, p: nat)
    requires Body(b, s).None? && entries != [] && p <= |b|
    requires (forall k :: 0 <= k < p ==> !LaterThan(s, b[k])) && (p < |b| ==> LaterThan(s, b[p]))
    ensures SpliceSection(b, s, entries)
      == b[..p] + (if p == 0 then [""] else []) + [Heading(s), ""] + Flatten(entries) + [""] + b[p..]
  {
    FoldAllNoSection(b, s, entries);
    FirstIs(b, Later(s), 0, p);
    UnderIs(b, p, Heading(s), "", Flatten(entries));
  }

  /** For a changelog and validated fragments of one section, none of whose leads stands there yet: their leads come in
      the order of their first appearance in the fragments, after all that stood under the heading, or first under a
      heading of their own. */
  lemma NewLeadsInOrder(changelog: string, frags: Fragments, s: Section, b: seq<string>)
    requires Validated(frags) && frags.Keys == {s} && frags[s] != [] && Block(Split(changelog, '\n')) == Some(b)
    requires LacksLeads(b, s, Leads(LinesOf(frags[s])))
    ensures Splice(changelog, frags).Written?
    ensures var after := Block(Split(Splice(changelog, frags).text, '\n'));
      var leads := Firsts(Leads(LinesOf(frags[s])));
      && after.Some? && Body(after.value, s).Some?
      && if Body(b, s).Some? then Leads(Body(after.value, s).value) == Leads(Body(b, s).value) + leads
         else leads <= Leads(Body(after.value, s).value)
  {
    var entries := Merge(frags[s]);
    MergeReads(frags[s]);
    MergePlaceable(frags[s]);
    FirstsAre([], Leads(LinesOf(frags[s])));
    SplicedBlock(changelog, frags);
    OnlyTurn(b, frags, s, 0);
    NotNothing(frags[s]);
    if Body(b, s).Some? {
      AddedBelow(b, s, entries);
    } else {
      AddedUnder(b, s, entries);
    }
  }

  lemma NotNothing(bodies: seq<string>)
    requires Valid(bodies) && bodies != []
    ensures Merge(bodies) != []
  {
    MergeReads(bodies);
    EntriesRead(bodies, "");
    var lines := LinesOf(bodies);
    assert lines == Split(bodies[0], '\n') + LinesOf(bodies[1..]);
    assert Leads(lines)[0] in Leads(lines);
    FirstsAre([], Leads(lines));
  }

  // ---------------------------------------------------------------- leads that are there already

  /** Those of `xs` that are not among `ys`, in order. */
  function Without(xs: seq<string>, ys: seq<string>): seq<string> {
    if xs == [] then [] else (if xs[0] in ys then [] else [xs[0]]) + Without(xs[1..], ys)
  }

  /** The lines between the first line that reads as this lead and the next lead. */
  function Below(body: seq<string>, key: string): Option<seq<string>> {
    Inside(body, Lead(key), Bullet())
  }

  lemma {:induction false} InkHas(lines: seq<string>, text: string)
    requires text != ""
    ensures text in Ink(lines) <==> Carries(lines, text)
  {
    if lines != [] {
      InkHas(lines[1..], text);
      assert Carries(lines, text) <==> Trim(lines[0]) == text || Carries(lines[1..], text) by {
        assert forall l :: l in lines <==> l == lines[0] || l in lines[1..];
      }
    }
  }

  lemma {:induction false} MissingReads(subs: seq<string>, present: seq<string>)
    requires forall l :: l in subs ==> !Blank(l)
    ensures Texts(Missing(subs, present)) == Without(Texts(subs), Ink(present))
  {
    if subs != [] {
      var l := subs[0];
      assert l in subs;
      InkHas(present, Trim(l));
      MissingReads(subs[1..], present);
      assert Texts(subs)[0] == Trim(l) && Texts(subs)[1..] == Texts(subs[1..]);
      var first := if Carries(present, Trim(l)) then [] else [l];
      OneText(l);
      TextsIn(first, Missing(subs[1..], present));
    }
  }

  lemma MissingIsInk(subs: seq<string>, present: seq<string>)
    requires forall l :: l in subs ==> !Blank(l)
    ensures Ink(Missing(subs, present)) == Without(Texts(subs), Ink(present))
  {
    MissingIsSub(subs, present);
    AllInk(Missing(subs, present));
    MissingReads(subs, present);
  }

  /** Where the lines of one lead end, only blank ones follow up to the next lead. */
  lemma LocatedIn(body: seq<string>, e: Entry) returns (start: nat, stop: nat)
    requires LocateIn(body, e).Found?
    ensures Span(body, Lead(Key(e)), Bullet()) == Some(Range(start, stop))
    ensures var at := LocateIn(body, e).subsEnd;
      start < at <= stop <= |body| && forall k :: at <= k < stop ==> Blank(body[k])
    ensures LocateIn(body, e).missing == Missing(e[1..], body[start + 1..stop])
    ensures Below(body, Key(e)) == Some(body[start + 1..stop])
  {
    start := Span(body, Lead(Key(e)), Bullet()).value.start;
    stop := Span(body, Lead(Key(e)), Bullet()).value.end;
    var at := LocateIn(body, e).subsEnd;
    assert forall k :: at <= k < stop ==> BlankLine()(body[k]);
  }

  lemma PartReads(body: seq<string>, part: seq<string>, lo: nat, hi: nat, at: nat, xs: seq<string>)
    requires lo <= at <= hi <= |body| && part == body[lo..hi] && forall k :: at <= k < hi ==> Blank(body[k])
    ensures Ink(Insert(part, at - lo, xs)) == Ink(part) + Ink(xs)
  {
    assert forall k :: at - lo <= k < hi - lo ==> part[k] == body[lo + k];
    InsertReads(part, at - lo, xs);
  }

  lemma BelowInsert(
      body: seq<string>, part: seq<string>, key: string, at: nat, xs: seq<string>, start: nat, stop: nat)
    requires Span(body, Lead(key), Bullet()) == Some(Range(start, stop)) && start < at <= stop <= |body|
    requires NoHit(xs, Bullet()) && part == body[start + 1..stop]
    ensures Below(Insert(body, at, xs), key) == Some(Insert(part, at - (start + 1), xs))
  {
    InsertThere(body, Lead(key), Bullet(), at, xs, start, stop);
  }

  lemma MissingNoBullet(e: Entry, present: seq<string>)
    requires GoodEntry(e)
    ensures NoHit(Missing(e[1..], present), Bullet()) && forall l :: l in e[1..] ==> !Blank(l)
  {
    SubsNoBullet(e);
    MissingIsSub(e[1..], present);
  }

  lemma FoldReadsAt(
      body: seq<string>, e: Entry, start: nat, stop: nat, at: nat, under: seq<string>, missing: seq<string>)
    requires GoodEntry(e) && Span(body, Lead(Key(e)), Bullet()) == Some(Range(start, stop))
    requires start < at <= stop <= |body| && (forall k :: at <= k < stop ==> Blank(body[k]))
    requires under == body[start + 1..stop] && missing == Missing(e[1..], under)
    ensures Below(Insert(body, at, missing), Key(e)) == Some(Insert(under, at - (start + 1), missing))
    ensures Ink(Insert(under, at - (start + 1), missing)) == Ink(under) + Without(Texts(e[1..]), Ink(under))
  {
    MissingNoBullet(e, under);
    BelowInsert(body, under, Key(e), at, missing, start, stop);
    InkFilled(body, under, start + 1, stop, at, e);
  }

  lemma InkFilled(body: seq<string>, under: seq<string>, lo: nat, hi: nat, at: nat, e: Entry)
    requires lo <= at <= hi <= |body| && under == body[lo..hi] && (forall k :: at <= k < hi ==> Blank(body[k]))
    requires forall l :: l in e[1..] ==> !Blank(l)
    ensures Ink(Insert(under, at - lo, Missing(e[1..], under))) == Ink(under) + Without(Texts(e[1..]), Ink(under))
  {
    PartReads(body, under, lo, hi, at, Missing(e[1..], under));
    MissingIsInk(e[1..], under);
  }

  /** Folding an entry in puts what is missing behind what there is, in order. */
  lemma FoldReads(body: seq<string>, e: Entry)
    requires GoodEntry(e) && LocateIn(body, e).Found?
    ensures Completed(body, Insert(body, LocateIn(body, e).subsEnd, LocateIn(body, e).missing), e)
  {
    var start, stop := LocatedIn(body, e);
    FoldReadsAt(body, e, start, stop, LocateIn(body, e).subsEnd, body[start + 1..stop], LocateIn(body, e).missing);
  }

  /** ... and touches no other lead. */
  lemma FoldElsewhere(body: seq<string>, x: Entry, key: string)
    requires GoodEntry(x) && LocateIn(body, x).Found? && Key(x) != key
    ensures var loc := LocateIn(body, x); Below(Insert(body, loc.subsEnd, loc.missing), key) == Below(body, key)
  {
    var start, stop := LocatedIn(body, x);
    var loc := LocateIn(body, x);
    SubsNoBullet(x);
    MissingIsSub(x[1..], body[start + 1..stop]);
    assert NoHit(loc.missing, Bullet());
    BesideSpan(body, loc.subsEnd, loc.missing, Key(x), key, start, stop);
  }

  lemma BesideSpan(body: seq<string>, at: nat, xs: seq<string>, here: string, key: string, start: nat, stop: nat)
    requires Span(body, Lead(here), Bullet()) == Some(Range(start, stop)) && start < at <= stop <= |body|
    requires NoHit(xs, Bullet()) && here != key
    ensures Below(Insert(body, at, xs), key) == Below(body, key)
  {
    NoBulletNoLead(xs, key);
    var other := Span(body, Lead(key), Bullet());
    if other.Some? {
      assert Bullet()(body[start]) && Bullet()(body[other.value.start]) && other.value.start != start;
      if other.value.start < start {
        assert other.value.end <= start;
        SpanBefore(body, Lead(key), Bullet(), at, xs);
      } else {
        assert stop <= other.value.start;
        SpanAfter(body, Lead(key), Bullet(), at, xs);
      }
    } else {
      SpanAfter(body, Lead(key), Bullet(), at, xs);
    }
  }

  ghost predicate Apart(entries: seq<Entry>, key: string) {
    forall e :: e in entries ==> Key(e) != key
  }

  lemma FoldInBody(b: seq<string>, s: Section, e: Entry) returns (body: seq<string>)
    requires Locate(b, s, e).Found? && GoodEntry(e)
    ensures Body(b, s) == Some(body) && LocateIn(body, e).Found?
    ensures var loc := Locate(b, s, e); var inner := LocateIn(body, e);
      Body(Insert(b, loc.subsEnd, loc.missing), s) == Some(Insert(body, inner.subsEnd, inner.missing))
  {
    FoldStep(b, s, e);
    body := Body(b, s).value;
  }

  lemma {:induction false} FoldsElsewhere(b: seq<string>, s: Section, entries: seq<Entry>, key: string)
    requires AllWellFormed(entries) && Apart(entries, key) && Body(b, s).Some?
    ensures var c := FoldAll(b, s, entries).block;
      Body(c, s).Some? && Below(Body(c, s).value, key) == Below(Body(b, s).value, key)
    decreases |entries|
  {
    if entries != [] {
      var loc := Locate(b, s, entries[0]);
      assert entries[0] in entries;
      if loc.Found? {
        var body := FoldInBody(b, s, entries[0]);
        FoldElsewhere(body, entries[0], key);
        FoldsElsewhere(Insert(b, loc.subsEnd, loc.missing), s, entries[1..], key);
      } else {
        FoldsElsewhere(b, s, entries[1..], key);
      }
    }
  }

  /** Behind what stood under the lead of `e` there is what was missing of it. */
  ghost predicate Completed(was: seq<string>, now: seq<string>, e: Entry) {
    Below(was, Key(e)).Some? && Below(now, Key(e)).Some?
    && var had := Ink(Below(was, Key(e)).value);
      Ink(Below(now, Key(e)).value) == had + Without(Texts(e[1..]), had)
  }

  lemma {:induction false} FoldsRead(b: seq<string>, s: Section, entries: seq<Entry>, e: Entry)
    requires AllWellFormed(entries) && Distinct(entries) && e in entries
    requires Body(b, s).Some? && Below(Body(b, s).value, Key(e)).Some?
    ensures var c := FoldAll(b, s, entries).block; Body(c, s).Some? && Completed(Body(b, s).value, Body(c, s).value, e)
    decreases |entries|
  {
    var x, rest := entries[0], entries[1..];
    var loc := Locate(b, s, x);
    assert x in entries && Distinct(rest);
    RestApart(entries);
    if x == e {
      CarriedInBody(b, s, e);
      CarriedMeans(Body(b, s).value, e);
      var body := FoldInBody(b, s, e);
      FoldReads(body, e);
      FoldsElsewhere(Insert(b, loc.subsEnd, loc.missing), s, rest, Key(e));
    } else if loc.Found? {
      var body := FoldInBody(b, s, x);
      FoldElsewhere(body, x, Key(e));
      FoldsRead(Insert(b, loc.subsEnd, loc.missing), s, rest, e);
    } else {
      FoldsRead(b, s, rest, e);
    }
  }

  lemma RestApart(entries: seq<Entry>)
    requires entries != [] && Distinct(entries)
    ensures Apart(entries[1..], Key(entries[0])) && Distinct(entries[1..])
  {
    forall e | e in entries[1..] ensures Key(e) != Key(entries[0]) {
      var i :| 0 <= i < |entries| - 1 && entries[1..][i] == e;
      assert entries[i + 1] == e;
    }
    assert forall i :: 0 <= i < |entries| - 1 ==> entries[1..][i] == entries[i + 1];
  }

  /** What is appended at the end of a section leaves the ink under each lead as it was. */
  lemma AppendElsewhere(body: seq<string>, at: nat, pad: seq<string>, lines: seq<string>, key: string)
    requires at <= |body| && (forall k :: at <= k < |body| ==> Blank(body[k])) && Below(body, key).Some?
    requires (forall l :: l in pad ==> Blank(l)) && lines != [] && TopLevel(lines[0])
    ensures Below(Insert(body, at, pad + lines), key).Some?
    ensures Ink(Below(Insert(body, at, pad + lines), key).value) == Ink(Below(body, key).value)
  {
    var Range(start, stop) := Span(body, Lead(key), Bullet()).value;
    var c := Insert(body, at, pad + lines);
    assert TopLevel(body[start]) && start < at;
    if stop < at {
      SpanBefore(body, Lead(key), Bullet(), at, pad + lines);
    } else {
      LastSpan(body, key, at, start, stop);
      BlankNoBullet(pad);
      SpanPadCut(body, Lead(key), Bullet(), at, pad, lines, start, stop);
      CutInk(body, start + 1, at, pad);
    }
  }

  lemma LastSpan(body: seq<string>, key: string, at: nat, start: nat, stop: nat)
    requires Span(body, Lead(key), Bullet()) == Some(Range(start, stop)) && at <= stop <= |body|
    requires forall k :: at <= k < |body| ==> Blank(body[k])
    ensures stop == |body|
  {
  }

  lemma CutInk(body: seq<string>, lo: nat, at: nat, pad: seq<string>)
    requires lo <= at <= |body| && (forall k :: at <= k < |body| ==> Blank(body[k]))
    requires forall l :: l in pad ==> Blank(l)
    ensures Ink(body[lo..at] + pad) == Ink(body[lo..|body|])
  {
    InkIn(body[lo..at], pad);
    NoInk(pad);
    var rest := body[lo..|body|];
    assert rest[..at - lo] == body[lo..at];
    assert forall k :: at - lo <= k < |rest| ==> rest[k] == body[lo + k];
    TailBlank(rest, at - lo);
  }

  lemma BlankNoBullet(pad: seq<string>)
    requires forall l :: l in pad ==> Blank(l)
    ensures NoHit(pad, Bullet())
  {
  }

  /** The whole turn of a section: what was missing under a lead that was there comes behind what stood there. */
  lemma LeadsCompleted(b: seq<string>, s: Section, entries: seq<Entry>, e: Entry)
    requires AllWellFormed(entries) && Distinct(entries) && e in entries
    requires Body(b, s).Some? && Key(e) in Leads(Body(b, s).value)
    ensures var c := SpliceSection(b, s, entries); Body(c, s).Some? && Completed(Body(b, s).value, Body(c, s).value, e)
  {
    LackedIsAbsent(Body(b, s).value, e);
    CarriedMeans(Body(b, s).value, e);
    FoldsRead(b, s, entries, e);
    var f := FoldAll(b, s, entries);
    NewsWellFormed(b, s, entries);
    if f.news != [] {
      var Range(start, end) := SectionRange(f.block, s).value;
      var body := f.block[start + 1..end];
      AppendThereBody(f.block, s, f.news, start, end);
      NewsEnds(f.news);
      BlankFacts();
      var at := Back(body, BlankLine(), 0, |body|);
      assert forall k :: at <= k < |body| ==> BlankLine()(body[k]);
      AppendElsewhere(body, at, Pad(at == 0, ""), Flatten(f.news), Key(e));
    }
  }

  lemma {:induction false} NewsWellFormed(b: seq<string>, s: Section, entries: seq<Entry>)
    requires AllWellFormed(entries)
    ensures AllWellFormed(FoldAll(b, s, entries).news)
    decreases |entries|
  {
    if entries != [] {
      var loc := Locate(b, s, entries[0]);
      assert entries[0] in entries;
      NewsWellFormed(if loc.Found? then Insert(b, loc.subsEnd, loc.missing) else b, s, entries[1..]);
    }
  }

  lemma EntryOf(bodies: seq<string>, key: string) returns (e: Entry)
    requires Valid(bodies) && key in Leads(LinesOf(bodies))
    ensures Firsts(Filed(LinesOf(bodies), "", key)) != []
    ensures e in Merge(bodies) && Key(e) == key && Texts(e[1..]) == Firsts(Filed(LinesOf(bodies), "", key))[1..]
  {
    MergeReads(bodies);
    FirstsAre([], Leads(LinesOf(bodies)));
    KeysAt(Merge(bodies));
    var i :| 0 <= i < |Keys(Merge(bodies))| && Keys(Merge(bodies))[i] == key;
    e := Merge(bodies)[i];
    assert Texts(e)[1..] == Texts(e[1..]);
  }

  /** For a changelog and validated fragments of one section: under a lead that stands there, what the fragments have
      under that lead and the changelog has not comes behind what it has, in the order of the fragments. */
  lemma MissingLinesInOrder(changelog: string, frags: Fragments, s: Section, b: seq<string>, key: string)
    requires Validated(frags) && frags.Keys == {s} && Block(Split(changelog, '\n')) == Some(b)
    requires Body(b, s).Some? && key in Leads(Body(b, s).value) && key in Leads(LinesOf(frags[s]))
    ensures Splice(changelog, frags).Written?
    ensures var after := Block(Split(Splice(changelog, frags).text, '\n'));
      && after.Some? && Body(after.value, s).Some?
      && Below(Body(b, s).value, key).Some? && Below(Body(after.value, s).value, key).Some?
      && Firsts(Filed(LinesOf(frags[s]), "", key)) != []
      && var had := Ink(Below(Body(b, s).value, key).value);
        Ink(Below(Body(after.value, s).value, key).value)
          == had + Without(Firsts(Filed(LinesOf(frags[s]), "", key))[1..], had)
  {
    var e := EntryOf(frags[s], key);
    MergePlaceable(frags[s]);
    SplicedBlock(changelog, frags);
    OnlyTurn(b, frags, s, 0);
    LeadsCompleted(b, s, Merge(frags[s]), e);
  }
}
