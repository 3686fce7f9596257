/** What validated fragments become once they are split into entries and merged by lead bullet. */
module ChangelogMerge {
  import opened Text
  import opened Scan
  import opened Changelog
  import opened ChangelogPlaces

  // ---------------------------------------------------------------- trimming a whole entry

  lemma {:induction false} TrimTail(t: string, c: char)
    requires IsSpace(c)
    ensures Trim(t + [c]) == Trim(t)
  {
    var s := t + [c];
    if t == "" {
      assert TrimStart(s) == TrimStart(s[1..]) == "";
    } else if IsSpace(t[0]) {
      TrimTail(t[1..], c);
      assert s[1..] == t[1..] + [c];
    } else {
      assert s[..|s| - 1] == t;
    }
  }

  lemma {:induction false} TrimTrimEnd(s: string)
    ensures Trim(TrimEnd(s)) == Trim(s)
  {
    if s != "" && IsSpace(s[|s| - 1]) {
      TrimTrimEnd(s[..|s| - 1]);
      TrimTail(s[..|s| - 1], s[|s| - 1]);
      assert s == s[..|s| - 1] + [s[|s| - 1]];
    }
  }

  lemma {:induction false} TrimEndAppend(x: string, y: string)
    requires TrimEnd(y) != ""
    ensures TrimEnd(x + y) == x + TrimEnd(y)
  {
    var s := x + y;
    if IsSpace(y[|y| - 1]) {
      TrimEndAppend(x, y[..|y| - 1]);
      assert s[..|s| - 1] == x + y[..|y| - 1];
    }
  }

  predicate Solid(lines: seq<string>) {
    forall l :: l in lines ==> |l| >= 3 && !IsSpace(l[2])
  }

  /** The group with its last line trimmed at the end. */
  function TrimLast(group: Entry): Entry {
    group[..|group| - 1] + [TrimEnd(group[|group| - 1])]
  }

  lemma {:induction false} JoinTrim(group: Entry)
    requires Solid(group)
    ensures TrimEnd(Join(group, '\n')) == Join(TrimLast(group), '\n') != ""
  {
    var last := group[|group| - 1];
    assert last in group;
    TrimEndPrefix(last);
    if |group| > 1 {
      var rest: Entry := group[1..];
      assert Solid(rest) by {
        assert forall l :: l in rest ==> l in group;
      }
      JoinTrim(rest);
      assert TrimLast(group)[1..] == TrimLast(rest);
      TrimEndAppend(group[0] + ['\n'], Join(rest, '\n'));
    }
  }

  /** A well-formed group comes back whole, only its last line trimmed. */
  lemma TidyIs(group: Entry)
    requires Solid(group) && Free(group, '\n')
    ensures Tidy(group) == TrimLast(group) && TrimEnd(Join(group, '\n')) != ""
  {
    JoinTrim(group);
    var last := group[|group| - 1];
    TrimEndPrefix(last);
    forall l | l in TrimLast(group)
      ensures '\n' !in l
    {
      assert last in group;
    }
    SplitJoin(TrimLast(group), '\n');
  }

  lemma LineTrimmed(l: string)
    ensures BulletLine(l) ==> BulletLine(TrimEnd(l))
    ensures SubLine(l) ==> SubLine(TrimEnd(l))
    ensures Trim(TrimEnd(l)) == Trim(l)
    ensures '\n' !in l ==> '\n' !in TrimEnd(l)
  {
    TrimEndPrefix(l);
    TrimTrimEnd(l);
  }

  lemma TrimLastLine(group: Entry, k: nat)
    requires k < |group|
    ensures TrimLast(group)[k] == if k == |group| - 1 then TrimEnd(group[k]) else group[k]
  {
  }

  lemma TrimLastGood(group: Entry)
    requires GoodEntry(group)
    ensures GoodEntry(TrimLast(group))
    ensures forall k :: 0 <= k < |group| ==> Trim(TrimLast(group)[k]) == Trim(group[k])
  {
    var t := TrimLast(group);
    forall k | 0 <= k < |t|
      ensures (k == 0 ==> BulletLine(t[k])) && (k > 0 ==> SubLine(t[k]))
      ensures '\n' !in t[k] && Trim(t[k]) == Trim(group[k])
    {
      TrimLastLine(group, k);
      LineTrimmed(group[k]);
      assert group[k] in group;
    }
  }

  lemma GoodSolid(group: Entry)
    requires GoodEntry(group)
    ensures Solid(group)
  {
    forall l | l in group ensures |l| >= 3 && !IsSpace(l[2]) {
      var k :| 0 <= k < |group| && group[k] == l;
    }
  }

  lemma TidyGood(group: Entry)
    requires GoodEntry(group)
    ensures GoodEntry(Tidy(group)) && TrimEnd(Join(group, '\n')) != ""
    ensures |Tidy(group)| == |group| && Key(Tidy(group)) == Key(group)
    ensures forall k :: 0 <= k < |group| ==> Trim(Tidy(group)[k]) == Trim(group[k])
  {
    GoodSolid(group);
    TidyIs(group);
    TrimLastGood(group);
  }

  // ---------------------------------------------------------------- validated bodies

  lemma {:induction false} AcceptedLines(lines: seq<string>, at: nat)
    requires at <= |lines| && ValidateLines(lines, at).Accepted?
    ensures forall k :: at <= k < |lines| ==> BulletLine(lines[k]) || SubLine(lines[k])
    decreases |lines| - at
  {
    if at < |lines| {
      AcceptedLines(lines, at + 1);
    }
  }

  predicate ListLines(lines: seq<string>) {
    && Free(lines, '\n')
    && (forall k :: 0 <= k < |lines| ==> BulletLine(lines[k]) || SubLine(lines[k]))
  }

  lemma AcceptedBody(body: string)
    requires ValidateBody(body).Accepted?
    ensures ListLines(Split(body, '\n')) && BulletLine(Split(body, '\n')[0])
  {
    AcceptedLines(Split(body, '\n'), 1);
    SplitFree(body, '\n');
  }

  lemma {:induction false} GroupsGood(lines: seq<string>)
    requires ListLines(lines) && (lines != [] ==> BulletLine(lines[0]))
    ensures forall g :: g in Groups(lines) ==> GoodEntry(g) && forall l :: l in g ==> l in lines
    decreases |lines|
  {
    if lines != [] {
      var stop := First(lines, Bullet(), 1);
      var g: Entry := lines[..stop];
      var rest := lines[stop..];
      forall k | 1 <= k < stop
        ensures SubLine(lines[k])
      {
        if BulletLine(lines[k]) { BulletLineFacts(lines[k]); }
      }
      assert forall l :: l in g ==> l in lines;
      assert forall l :: l in rest ==> l in lines;
      if rest != [] && !BulletLine(rest[0]) {
        SubLineFacts(rest[0]);
      }
      GroupsGood(rest);
    }
  }

  /** A line that is a sub-line cannot start at column 0, so under the flush-left rule it reads as no heading. */
  lemma FlushNoHeadings(lines: seq<string>, l: string)
    requires ListLines(lines) && FlushLeft(lines) && l in lines
    ensures !ReadsAsHeading(l)
  {
    var k :| 0 <= k < |lines| && lines[k] == l;
    if BulletLine(l) {
      BulletLineFacts(l);
    }
  }

  lemma TidyNoHeadings(group: Entry)
    requires GoodEntry(group) && NoHeadings(group)
    ensures NoHeadings(Tidy(group))
  {
    TidyGood(group);
    forall l | l in Tidy(group)
      ensures !ReadsAsHeading(l)
    {
      var k :| 0 <= k < |group| && Tidy(group)[k] == l;
      assert group[k] in group;
    }
  }

  lemma {:induction false} TidyAllGood(groups: seq<Entry>)
    requires forall g :: g in groups ==> GoodEntry(g)
    ensures |TidyAll(groups)| == |groups|
    ensures forall k :: 0 <= k < |groups| ==> TidyAll(groups)[k] == Tidy(groups[k])
  {
    if groups != [] {
      var rest := groups[1..];
      TidyGood(groups[0]);
      TidyAllGood(rest);
      assert TidyAll(groups) == [Tidy(groups[0])] + TidyAll(rest);
      assert forall k :: 0 < k < |groups| ==> groups[k] == rest[k - 1];
    }
  }

  lemma {:induction false} EntriesGood(body: string)
    requires ValidateBody(body).Accepted?
    ensures forall e :: e in EntriesOf(body) ==> GoodEntry(e)
    ensures FlushLeft(Split(body, '\n')) ==> forall e :: e in EntriesOf(body) ==> NoHeadings(e)
  {
    var lines := Split(body, '\n');
    AcceptedBody(body);
    GroupsGood(lines);
    var groups := Groups(lines);
    TidyAllGood(groups);
    forall e | e in EntriesOf(body)
      ensures GoodEntry(e) && (FlushLeft(lines) ==> NoHeadings(e))
    {
      var k :| 0 <= k < |groups| && TidyAll(groups)[k] == e;
      assert groups[k] in groups;
      TidyGood(groups[k]);
      if FlushLeft(lines) {
        forall l | l in groups[k] ensures !ReadsAsHeading(l) {
          FlushNoHeadings(lines, l);
        }
        TidyNoHeadings(groups[k]);
      }
    }
  }

  predicate Valid(bodies: seq<string>) {
    forall b :: b in bodies ==> ValidateBody(b).Accepted?
  }

  predicate FlushBodies(bodies: seq<string>) {
    forall b :: b in bodies ==> FlushLeft(Split(b, '\n'))
  }

  lemma {:induction false} AllEntriesGood(bodies: seq<string>)
    requires Valid(bodies)
    ensures forall e :: e in AllEntries(bodies) ==> GoodEntry(e)
    ensures FlushBodies(bodies) ==> forall e :: e in AllEntries(bodies) ==> NoHeadings(e)
  {
    if bodies != [] {
      EntriesGood(bodies[0]);
      AllEntriesGood(bodies[1..]);
    }
  }

  // ---------------------------------------------------------------- merging

  /** Every line of `m` is a line of one of these entries with the same lead. */
  predicate ComesFrom(m: Entry, entries: seq<Entry>) {
    forall l :: l in m ==> exists e :: e in entries && Key(e) == Key(m) && l in e
  }

  /** One of the merged entries has the lead of `e` and a line that reads like each of its lines. */
  predicate Covers(merged: seq<Entry>, e: Entry) {
    exists i :: 0 <= i < |merged| && Key(merged[i]) == Key(e) && CoveredBy(merged[i], e)
  }

  predicate CoveredBy(m: Entry, e: Entry) {
    forall l :: l in e ==> Carries(m, Trim(l))
  }

  lemma {:induction false} AddSubsFacts(lines: Entry, subs: seq<string>)
    ensures forall l :: l in AddSubs(lines, subs) ==> l in lines || l in subs
    ensures forall l :: l in subs ==> Carries(AddSubs(lines, subs), Trim(l))
    ensures forall l :: l in lines ==> l in AddSubs(lines, subs)
    decreases |subs|
  {
    if subs != [] {
      var next: Entry := if Carries(lines, Trim(subs[0])) then lines else lines + [subs[0]];
      AddSubsFacts(next, subs[1..]);
      var r := AddSubs(lines, subs);
      assert r == AddSubs(next, subs[1..]);
      assert Carries(next, Trim(subs[0])) by {
        assert next == lines || subs[0] in next;
      }
      CarriesMore(next, r, Trim(subs[0]));
    }
  }

  lemma {:induction false} AddSubsGood(lines: Entry, subs: seq<string>)
    requires GoodEntry(lines) && (forall l :: l in subs ==> SubLine(l) && '\n' !in l)
    ensures GoodEntry(AddSubs(lines, subs))
    decreases |subs|
  {
    if subs != [] {
      var next: Entry := if Carries(lines, Trim(subs[0])) then lines else lines + [subs[0]];
      AddSubsGood(next, subs[1..]);
    }
  }

  /** The merged entries are kept well-formed, with distinct leads, made of lines of the entries merged. */
  ghost predicate MergedOf(merged: seq<Entry>, entries: seq<Entry>) {
    && Distinct(merged)
    && (forall m :: m in merged ==> GoodEntry(m) && ComesFrom(m, entries))
  }

  lemma {:induction false} AddEntryAt(merged: seq<Entry>, e: Entry) returns (at: nat, m: Entry)
    requires GoodEntry(e) && forall x :: x in merged ==> GoodEntry(x)
    ensures at == Slot(merged, Key(e))
    ensures AddEntry(merged, e) == if at < |merged| then merged[at := m] else merged + [m]
    ensures Key(m) == Key(e) && GoodEntry(m) && CoveredBy(m, e)
    ensures at < |merged| ==> forall l :: l in merged[at] ==> l in m
    ensures forall l :: l in m ==> l in e || (at < |merged| && l in merged[at])
  {
    at := Slot(merged, Key(e));
    var base: Entry := if at < |merged| then merged[at] else [e[0]];
    m := AddSubs(base, e[1..]);
    forall l | l in e[1..] ensures SubLine(l) && '\n' !in l && l in e {
      var k :| 0 <= k < |e| - 1 && e[1..][k] == l;
      assert SubLine(e[k + 1]);
    }
    assert e[0] in e;
    AddSubsGood(base, e[1..]);
    AddSubsFacts(base, e[1..]);
    assert m[0] == m[..|base|][0] == base[0];
    assert base[0] in m;
    assert forall l :: l in e ==> l == e[0] || l in e[1..];
  }

  lemma ComesFromMore(m: Entry, e: Entry, base: seq<string>, entries: seq<Entry>)
    requires e in entries && Key(m) == Key(e)
    requires forall l :: l in base ==> exists x :: x in entries && Key(x) == Key(m) && l in x
    requires forall l :: l in m ==> l in e || l in base
    ensures ComesFrom(m, entries)
  {
  }

  lemma AddEntryDistinct(merged: seq<Entry>, at: nat, m: Entry)
    requires Distinct(merged) && at == Slot(merged, Key(m))
    ensures Distinct(if at < |merged| then merged[at := m] else merged + [m])
  {
  }

  lemma AddEntryMerged(merged: seq<Entry>, e: Entry, entries: seq<Entry>)
    requires MergedOf(merged, entries) && GoodEntry(e) && e in entries
    ensures MergedOf(AddEntry(merged, e), entries)
  {
    var at, m := AddEntryAt(merged, e);
    AddEntryDistinct(merged, at, m);
    if at < |merged| {
      assert merged[at] in merged && ComesFrom(merged[at], entries);
      ComesFromMore(m, e, merged[at], entries);
    } else {
      ComesFromMore(m, e, [], entries);
    }
    assert forall x :: x in AddEntry(merged, e) ==> x == m || x in merged;
  }

  lemma AddEntryCovers(merged: seq<Entry>, e: Entry, x: Entry)
    requires GoodEntry(e) && forall m :: m in merged ==> GoodEntry(m)
    requires x == e || Covers(merged, x)
    ensures Covers(AddEntry(merged, e), x)
  {
    var at, m := AddEntryAt(merged, e);
    var r := AddEntry(merged, e);
    if x == e {
      assert r[at] == m;
    } else {
      var i :| 0 <= i < |merged| && Key(merged[i]) == Key(x) && CoveredBy(merged[i], x);
      if i == at {
        forall l | l in x ensures Carries(m, Trim(l)) {
          CarriesMore(merged[at], m, Trim(l));
        }
        assert r[at] == m;
      } else {
        assert r[i] == merged[i];
      }
    }
  }

  lemma {:induction false} MergeFromFacts(merged: seq<Entry>, entries: seq<Entry>, all: seq<Entry>)
    requires MergedOf(merged, all)
    requires forall e :: e in entries ==> GoodEntry(e) && e in all
    ensures MergedOf(MergeFrom(merged, entries), all)
    decreases |entries|
  {
    if entries != [] {
      AddEntryMerged(merged, entries[0], all);
      MergeFromFacts(AddEntry(merged, entries[0]), entries[1..], all);
    }
  }

  lemma {:induction false} MergeFromCovers(merged: seq<Entry>, entries: seq<Entry>, all: seq<Entry>, x: Entry)
    requires MergedOf(merged, all)
    requires forall e :: e in entries ==> GoodEntry(e) && e in all
    requires x in entries || Covers(merged, x)
    ensures Covers(MergeFrom(merged, entries), x)
    decreases |entries|
  {
    if entries != [] {
      AddEntryMerged(merged, entries[0], all);
      if x == entries[0] || Covers(merged, x) {
        AddEntryCovers(merged, entries[0], x);
      }
      MergeFromCovers(AddEntry(merged, entries[0]), entries[1..], all, x);
    }
  }

  /** Validated bodies merge into entries the splice can place: well-formed, no two with the same lead. */
  lemma MergePlaceable(bodies: seq<string>)
    requires Valid(bodies)
    ensures Distinct(Merge(bodies)) && forall m :: m in Merge(bodies) ==> GoodEntry(m)
    ensures FlushBodies(bodies) ==> Placeable(Merge(bodies))
  {
    var all := AllEntries(bodies);
    AllEntriesGood(bodies);
    MergeFromFacts([], all, all);
    if FlushBodies(bodies) {
      forall m | m in Merge(bodies)
        ensures NoHeadings(m)
      {
        forall l | l in m ensures !ReadsAsHeading(l) {
          var e :| e in all && Key(e) == Key(m) && l in e;
        }
      }
    }
  }

  /** Merging loses nothing and invents nothing. */
  lemma MergeKeepsText(bodies: seq<string>)
    requires Valid(bodies)
    ensures forall e :: e in AllEntries(bodies) ==> Covers(Merge(bodies), e)
    ensures forall m :: m in Merge(bodies) ==> ComesFrom(m, AllEntries(bodies))
  {
    var all := AllEntries(bodies);
    AllEntriesGood(bodies);
    MergeFromFacts([], all, all);
    forall e | e in all
      ensures Covers(Merge(bodies), e)
    {
      MergeFromCovers([], all, all, e);
    }
  }
}
