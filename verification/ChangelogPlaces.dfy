/** Which entries a section carries, and how folding and appending entries changes that. */
module ChangelogPlaces {
  import opened Text
  import opened Scan
  import opened ScanParts
  import opened Changelog

  // ---------------------------------------------------------------- lines

  /** A well-formed entry: what `validateBody` lets through, as lines. */
  predicate GoodEntry(e: Entry) {
    && BulletLine(e[0])
    && (forall k :: 1 <= k < |e| ==> SubLine(e[k]))
    && Free(e, '\n')
  }

  predicate ReadsAsHeading(l: string) {
    exists s: Section :: Trim(l) == Heading(s)
  }

  /** No line of these reads as a section heading. */
  predicate NoHeadings(lines: seq<string>) {
    forall l :: l in lines ==> !ReadsAsHeading(l)
  }

  /** Every line that reads as a section heading starts at column 0. */
  predicate FlushLeft(lines: seq<string>) {
    forall l :: l in lines && ReadsAsHeading(l) ==> l != "" && !IsSpace(l[0])
  }

  predicate Distinct(entries: seq<Entry>) {
    forall i, j :: 0 <= i < j < |entries| ==> Key(entries[i]) != Key(entries[j])
  }

  /** What the splice may assume of the merged entries of validated fragments. */
  predicate Placeable(entries: seq<Entry>) {
    && Distinct(entries)
    && (forall e :: e in entries ==> GoodEntry(e) && NoHeadings(e))
  }

  lemma HeadingFacts(s: Section)
    ensures Trim(Heading(s)) == Heading(s) && "### " <= Heading(s) && '\n' !in Heading(s)
    ensures !("## " <= Heading(s))
  {
    TrimSolid(Heading(s));
    assert Heading(s)[2] == '#';
  }

  lemma HeadingInjective(s: Section, t: Section)
    requires Heading(s) == Heading(t)
    ensures s == t
  {
    assert Heading(s)[4] == Name(s)[0] && Heading(t)[4] == Name(t)[0];
  }

  /** A heading at column 0 starts with `### `: the two ways the script looks for one agree on it. */
  lemma FlushHeading(l: string)
    requires l != "" && !IsSpace(l[0]) && ReadsAsHeading(l)
    ensures "### " <= l
  {
    var s: Section :| Trim(l) == Heading(s);
    TrimFlush(l);
    HeadingFacts(s);
  }

  lemma BulletLineFacts(l: string)
    requires BulletLine(l)
    ensures TopLevel(l) && !Blank(l) && !("### " <= l) && !("## " <= l) && !ReadsAsHeading(l)
  {
    TrimFlush(l);
    forall s ensures Trim(l) != Heading(s) {
      assert Trim(l)[0] == '-' && Heading(s)[0] == '#';
    }
  }

  lemma SubLineFacts(l: string)
    requires SubLine(l)
    ensures !TopLevel(l) && !Blank(l) && !("### " <= l) && !("## " <= l)
  {
    SolidNotBlank(l, 2);
  }

  lemma BlankFacts()
    ensures Blank("") && !TopLevel("") && !ReadsAsHeading("")
  {
    forall s ensures Trim("") != Heading(s) {
      assert Heading(s)[0] == '#';
    }
  }

  lemma EntryLines(e: Entry, l: string)
    requires GoodEntry(e) && l in e
    ensures !Blank(l) && !("### " <= l) && !("## " <= l)
  {
    var k :| 0 <= k < |e| && e[k] == l;
    if k == 0 { BulletLineFacts(l); } else { SubLineFacts(l); }
  }

  lemma SubsNoBullet(e: Entry)
    requires GoodEntry(e)
    ensures NoHit(e[1..], Bullet())
    ensures forall l :: l in e[1..] ==> !Blank(l)
  {
    forall l | l in e[1..]
      ensures !Bullet()(l) && !Blank(l)
    {
      SubLineFacts(l);
    }
  }

  // ---------------------------------------------------------------- missing sub-lines

  lemma CarriesMore(some: seq<string>, more: seq<string>, text: string)
    requires forall l :: l in some ==> l in more
    ensures Carries(some, text) ==> Carries(more, text)
  {
  }

  lemma {:induction false} MissingIsSub(subs: seq<string>, present: seq<string>)
    ensures forall l :: l in Missing(subs, present) ==> l in subs
    ensures |Missing(subs, present)| <= |subs|
  {
    if subs != [] {
      MissingIsSub(subs[1..], present);
    }
  }

  /** Nothing is missing exactly when every sub-line reads like a line that is there. */
  lemma {:induction false} MissingNone(subs: seq<string>, present: seq<string>)
    requires forall l :: l in subs ==> !Blank(l)
    ensures Missing(subs, present) == [] <==> forall l :: l in subs ==> Carries(present, Trim(l))
  {
    if subs != [] {
      MissingNone(subs[1..], present);
      assert forall l :: l in subs <==> l == subs[0] || l in subs[1..];
    }
  }

  /** Lines that hold what was there and what was missing miss nothing. */
  lemma {:induction false} MissingFilled(subs: seq<string>, present: seq<string>, now: seq<string>)
    requires forall l :: l in present || l in Missing(subs, present) ==> l in now
    ensures Missing(subs, now) == []
  {
    if subs != [] {
      assert forall l :: l in Missing(subs[1..], present) ==> l in Missing(subs, present);
      MissingFilled(subs[1..], present, now);
      CarriesMore(present, now, Trim(subs[0]));
      if !Blank(subs[0]) && !Carries(present, Trim(subs[0])) {
        assert subs[0] in Missing(subs, present);
      }
    }
  }

  lemma {:induction false} MissingStaysNone(subs: seq<string>, present: seq<string>, now: seq<string>)
    requires Missing(subs, present) == []
    requires forall l :: l in present && !Blank(l) ==> l in now
    ensures Missing(subs, now) == []
  {
    if subs != [] {
      MissingStaysNone(subs[1..], present, now);
      if !Blank(subs[0]) {
        var l :| l in present && Trim(l) == Trim(subs[0]);
        assert l in now;
      }
    }
  }

  // ---------------------------------------------------------------- one section

  predicate CarriedIn(body: seq<string>, e: Entry) {
    Complete(LocateIn(body, e))
  }

  predicate AbsentIn(body: seq<string>, e: Entry) {
    LocateIn(body, e).Absent?
  }

  lemma CarriedMeans(body: seq<string>, e: Entry)
    ensures CarriedIn(body, e) <==> Under(body, e).Some? && Missing(e[1..], Under(body, e).value) == []
    ensures AbsentIn(body, e) <==> Under(body, e).None?
  {
  }

  lemma NoBulletNoLead(lines: seq<string>, key: string)
    requires NoHit(lines, Bullet())
    ensures NoHit(lines, Lead(key))
  {
    assert forall l :: l in lines ==> !Bullet()(l);
  }

  /** An entry put down whole, with no bullet of its own text above it, is carried. */
  lemma PutDownCarried(above: seq<string>, e: Entry, below: seq<string>)
    requires GoodEntry(e) && NoHit(above, Lead(Key(e)))
    ensures CarriedIn(above + e + below, e)
  {
    BulletLineFacts(e[0]);
    SubsNoBullet(e);
    var body := above + [e[0]] + e[1..] + below;
    SpanAt(above, e[0], e[1..], below, Lead(Key(e)), Bullet());
    assert above + e + below == body;
    var there := Under(body, e).value;
    MissingStaysNone(e[1..], e[1..], there) by {
      MissingNone(e[1..], e[1..]);
    }
    CarriedMeans(body, e);
  }

  /** Sub-lines put anywhere into a section change neither which entries it lacks nor what it carries. */
  lemma SubsKeep(body: seq<string>, at: nat, subs: seq<string>, e: Entry)
    requires at <= |body| && NoHit(subs, Bullet())
    ensures AbsentIn(body, e) ==> AbsentIn(Insert(body, at, subs), e)
    ensures CarriedIn(body, e) ==> CarriedIn(Insert(body, at, subs), e)
  {
    var c := Insert(body, at, subs);
    NoBulletNoLead(subs, Key(e));
    SpanKeeps(body, Lead(Key(e)), Bullet(), at, subs);
    CarriedMeans(body, e);
    CarriedMeans(c, e);
    if CarriedIn(body, e) {
      MissingStaysNone(e[1..], Under(body, e).value, Under(c, e).value);
    }
  }

  /** Folding an entry's missing sub-lines in makes the section carry it. */
  lemma FoldedCarried(body: seq<string>, e: Entry)
    requires GoodEntry(e) && LocateIn(body, e).Found?
    ensures var loc := LocateIn(body, e); CarriedIn(Insert(body, loc.subsEnd, loc.missing), e)
  {
    var Found(leadAt, subsEnd, missing) := LocateIn(body, e);
    var present := Under(body, e).value;
    MissingIsSub(e[1..], present);
    SubsNoBullet(e);
    InsertInSpan(body, Lead(Key(e)), Bullet(), subsEnd, missing);
    var c := Insert(body, subsEnd, missing);
    InsertHas(present, subsEnd - leadAt - 1, missing);
    MissingFilled(e[1..], present, Under(c, e).value);
    CarriedMeans(c, e);
  }

  // ---------------------------------------------------------------- new entries

  lemma {:induction false} FlattenSplit(entries: seq<Entry>, m: nat)
    requires m <= |entries|
    ensures Flatten(entries) == Flatten(entries[..m]) + Flatten(entries[m..])
  {
    if m == 0 {
      assert entries[m..] == entries;
    } else {
      FlattenSplit(entries[1..], m - 1);
      assert entries[..m][1..] == entries[1..][..m - 1];
      assert entries[1..][m - 1..] == entries[m..];
    }
  }

  lemma {:induction false} FlattenHas(entries: seq<Entry>, l: string)
    ensures l in Flatten(entries) <==> exists e :: e in entries && l in e
  {
    if entries != [] {
      FlattenHas(entries[1..], l);
      assert forall e :: e in entries <==> e == entries[0] || e in entries[1..];
    }
  }

  lemma NoLeadAmong(entries: seq<Entry>, key: string)
    requires forall e :: e in entries ==> GoodEntry(e) && Key(e) != key
    ensures NoHit(Flatten(entries), Lead(key))
  {
    forall l | l in Flatten(entries)
      ensures !Lead(key)(l)
    {
      FlattenHas(entries, l);
      var e :| e in entries && l in e;
      var k :| 0 <= k < |e| && e[k] == l;
      if k > 0 {
        SubLineFacts(l);
      }
    }
  }

  lemma NoHitBoth(some: seq<string>, more: seq<string>, f: string -> bool)
    requires NoHit(some, f) && NoHit(more, f)
    ensures NoHit(some + more, f)
  {
  }

  lemma Regroup(a: seq<string>, b: seq<string>, c: seq<string>, d: seq<string>, e: seq<string>)
    ensures a + (b + (c + d)) + e == (a + b) + c + (d + e)
  {
  }

  /** Where the `m`th of several entries stands. */
  lemma {:induction false} FlattenAround(above: seq<string>, entries: seq<Entry>, below: seq<string>, m: nat)
    requires m < |entries|
    ensures above + Flatten(entries) + below
         == (above + Flatten(entries[..m])) + entries[m] + (Flatten(entries[m + 1..]) + below)
  {
    FlattenSplit(entries, m);
    var rest := entries[m..];
    assert rest[0] == entries[m] && rest[1..] == entries[m + 1..];
    Regroup(above, Flatten(entries[..m]), entries[m], Flatten(rest[1..]), below);
  }

  /** Entries with different leads, put down one after the other, are all carried. */
  lemma {:induction false} NewsCarried(above: seq<string>, news: seq<Entry>, below: seq<string>, m: nat)
    requires Placeable(news) && m < |news|
    requires NoHit(above, Lead(Key(news[m])))
    ensures CarriedIn(above + Flatten(news) + below, news[m])
  {
    FlattenAround(above, news, below, m);
    var key := Key(news[m]);
    var before := Flatten(news[..m]);
    assert NoHit(before, Lead(key)) by {
      assert forall x :: x in news[..m] ==> GoodEntry(x) && Key(x) != key;
      NoLeadAmong(news[..m], key);
    }
    NoHitBoth(above, before, Lead(key));
    PutDownCarried(above + before, news[m], Flatten(news[m + 1..]) + below);
  }

  /** Lines without all the sub-lines of `e`. */
  function Lacks(e: Entry): seq<string> -> bool {
    (lines: seq<string>) => Missing(e[1..], lines) != []
  }

  lemma LacksMonotone(e: Entry)
    ensures Monotone(Lacks(e), BlankLine())
  {
    forall some, more | InkWithin(some, more, BlankLine()) && Lacks(e)(more)
      ensures Lacks(e)(some)
    {
      if Missing(e[1..], some) == [] {
        MissingStaysNone(e[1..], some, more);
      }
    }
  }

  lemma CarriedIsFull(body: seq<string>, e: Entry)
    ensures CarriedIn(body, e) <==> Full(body, Lead(Key(e)), Bullet(), Lacks(e))
  {
    CarriedMeans(body, e);
  }

  /** Lines put in below the last line of a section that is not blank leave what it carried in place. */
  lemma BlanksKeepCarried(body: seq<string>, at: nat, xs: seq<string>, e: Entry)
    requires at <= |body| && (forall k :: at <= k < |body| ==> Blank(body[k])) && CarriedIn(body, e)
    ensures CarriedIn(Insert(body, at, xs), e)
  {
    CarriedIsFull(body, e);
    CarriedIsFull(Insert(body, at, xs), e);
    LacksMonotone(e);
    FullInsert(body, at, xs, Lead(Key(e)), Bullet(), Lacks(e), BlankLine());
  }
}
