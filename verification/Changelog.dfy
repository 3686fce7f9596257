/**
 The changelog assembler of scripts/assemble-changelog.js, as functions over lines.

 An entry is its list of lines: the lead bullet, then its sub-lines. The script keeps an entry
 as one string and splits it whenever it needs the lines; no line holds a line break, so the
 two views are the same value (`Text.SplitJoin`). Indices
 that may be missing are as `Scan.First` has them.
 */
module Changelog {
  import opened Text
  import opened Scan

  datatype Section = Added | Changed | Deprecated | Removed | Fixed | Security

  const SECTIONS: seq<Section> := [Added, Changed, Deprecated, Removed, Fixed, Security]

  const UNRELEASED_HEADING := "## [Unreleased]"

  function Rank(s: Section): (r: nat)
    ensures r < |SECTIONS| && SECTIONS[r] == s
  {
    match s
    case Added => 0
    case Changed => 1
    case Deprecated => 2
    case Removed => 3
    case Fixed => 4
    case Security => 5
  }

  function Name(s: Section): string {
    match s
    case Added => "Added"
    case Changed => "Changed"
    case Deprecated => "Deprecated"
    case Removed => "Removed"
    case Fixed => "Fixed"
    case Security => "Security"
  }

  function Heading(s: Section): string {
    "### " + Name(s)
  }

  type Entry = e: seq<string> | e != [] witness [""]

  /** The fragments on disk: the bodies filed under each section, in file-name order. */
  type Fragments = map<Section, seq<string>>

  // ---------------------------------------------------------------- lines

  predicate TopLevel(l: string) {
    !Blank(l) && !IsSpace(l[0])
  }

  // What the script's `findIndex` calls look for.

  function Unreleased(): string -> bool {
    (l: string) => Trim(l) == UNRELEASED_HEADING
  }

  function Release(): string -> bool {
    (l: string) => "## " <= l
  }

  function AnyHeading(): string -> bool {
    (l: string) => "### " <= l
  }

  function HeadingOf(s: Section): string -> bool {
    (l: string) => Trim(l) == Heading(s)
  }

  predicate LaterThan(s: Section, l: string) {
    exists t: Section :: Rank(t) > Rank(s) && Trim(l) == Heading(t)
  }

  function Later(s: Section): string -> bool {
    (l: string) => LaterThan(s, l)
  }

  function Lead(key: string): string -> bool {
    (l: string) => TopLevel(l) && Trim(l) == key
  }

  function Bullet(): string -> bool {
    (l: string) => TopLevel(l)
  }

  function BlankLine(): string -> bool {
    (l: string) => Blank(l)
  }

  // ---------------------------------------------------------------- fragments

  predicate BulletLine(l: string) {
    |l| >= 3 && l[0] == '-' && l[1] == ' ' && !IsSpace(l[2])
  }

  predicate SubLine(l: string) {
    |l| >= 3 && l[0] == ' ' && l[1] == ' ' && !IsSpace(l[2])
  }

  datatype BodyError = Empty | NoLeadBullet | LooseAt(at: nat) | TooDeep(at: nat) | NotIndented(at: nat)
  datatype Checked = Accepted | Refused(error: BodyError)

  /** `validateBody`: the first line is a bullet, every other one a bullet or a sub-line. */
  function ValidateBody(body: string): Checked {
    if body == "" then Refused(Empty)
    else
      var lines := Split(body, '\n');
      if !BulletLine(lines[0]) then Refused(NoLeadBullet) else ValidateLines(lines, 1)
  }

  function ValidateLines(lines: seq<string>, at: nat): Checked
    requires at <= |lines|
    decreases |lines| - at
  {
    if at == |lines| then Accepted
    else if Blank(lines[at]) then Refused(LooseAt(at))
    else if BulletLine(lines[at]) || SubLine(lines[at]) then ValidateLines(lines, at + 1)
    else if lines[at] != "" && IsSpace(lines[at][0]) then Refused(TooDeep(at))
    else Refused(NotIndented(at))
  }

  /** Lines grouped at each top-level bullet; the first line always opens a group. */
  function Groups(lines: seq<string>): (groups: seq<Entry>)
    ensures lines != [] ==> groups != []
    decreases |lines|
  {
    if lines == [] then []
    else
      var stop := First(lines, Bullet(), 1);
      [lines[..stop]] + Groups(lines[stop..])
  }

  /** One group as the entry `splitEntries` returns: its text with the white space at the end removed. */
  function Tidy(group: Entry): (e: Entry) {
    Split(TrimEnd(Join(group, '\n')), '\n')
  }

  function TidyAll(groups: seq<Entry>): (entries: seq<Entry>) {
    if groups == [] then []
    else
      var rest := TidyAll(groups[1..]);
      if TrimEnd(Join(groups[0], '\n')) == "" then rest else [Tidy(groups[0])] + rest
  }

  function EntriesOf(body: string): seq<Entry> {
    TidyAll(Groups(Split(body, '\n')))
  }

  function AllEntries(bodies: seq<string>): seq<Entry> {
    if bodies == [] then [] else EntriesOf(bodies[0]) + AllEntries(bodies[1..])
  }

  function Key(e: Entry): string {
    Trim(e[0])
  }

  predicate Carries(lines: seq<string>, text: string) {
    exists l :: l in lines && Trim(l) == text
  }

  /** `subs` added one by one, each only when no line so far reads the same. */
  function AddSubs(lines: Entry, subs: seq<string>): (r: Entry)
    ensures |lines| <= |r| && r[..|lines|] == lines
    decreases |subs|
  {
    if subs == [] then lines
    else if Carries(lines, Trim(subs[0])) then AddSubs(lines, subs[1..])
    else AddSubs(lines + [subs[0]], subs[1..])
  }

  function Slot(merged: seq<Entry>, key: string): (r: nat)
    ensures r <= |merged|
    ensures forall k :: 0 <= k < r ==> Key(merged[k]) != key
    ensures r < |merged| ==> Key(merged[r]) == key
  {
    if merged == [] || Key(merged[0]) == key then 0 else 1 + Slot(merged[1..], key)
  }

  function AddEntry(merged: seq<Entry>, e: Entry): seq<Entry> {
    var at := Slot(merged, Key(e));
    if at < |merged| then merged[at := AddSubs(merged[at], e[1..])]
    else merged + [AddSubs([e[0]], e[1..])]
  }

  function MergeFrom(merged: seq<Entry>, entries: seq<Entry>): seq<Entry>
    decreases |entries|
  {
    if entries == [] then merged else MergeFrom(AddEntry(merged, entries[0]), entries[1..])
  }

  /** `mergeEntries`: the entries of these bodies, those with the same lead bullet folded into one. */
  function Merge(bodies: seq<string>): seq<Entry> {
    MergeFrom([], AllEntries(bodies))
  }

  function Flatten(entries: seq<Entry>): seq<string> {
    if entries == [] then [] else entries[0] + Flatten(entries[1..])
  }

  // ---------------------------------------------------------------- the block

  function UnreleasedRange(lines: seq<string>): Option<Range> {
    Span(lines, Unreleased(), Release())
  }

  function Block(lines: seq<string>): Option<seq<string>> {
    Inside(lines, Unreleased(), Release())
  }

  function SectionRange(b: seq<string>, s: Section): Option<Range> {
    Span(b, HeadingOf(s), AnyHeading())
  }

  /** The lines under the heading of `s`, up to the next heading. */
  function Body(b: seq<string>, s: Section): Option<seq<string>> {
    Inside(b, HeadingOf(s), AnyHeading())
  }

  datatype Location = Absent | Found(leadAt: nat, subsEnd: nat, missing: seq<string>)

  /** The sub-lines whose text is not among `present`. */
  function Missing(subs: seq<string>, present: seq<string>): seq<string> {
    if subs == [] then []
    else (if !Blank(subs[0]) && !Carries(present, Trim(subs[0])) then [subs[0]] else []) + Missing(subs[1..], present)
  }

  /** The lines between an entry's bullet and the next one. */
  function Under(body: seq<string>, e: Entry): Option<seq<string>> {
    Inside(body, Lead(Key(e)), Bullet())
  }

  /** `locateEntry` inside the lines of one section. */
  function LocateIn(body: seq<string>, e: Entry): (r: Location)
    ensures r.Found? ==> r.leadAt < r.subsEnd <= |body|
  {
    match Span(body, Lead(Key(e)), Bullet())
    case None => Absent
    case Some(Range(leadAt, stop)) =>
      Found(leadAt, Back(body, BlankLine(), leadAt + 1, stop), Missing(e[1..], Under(body, e).value))
  }

  function Shift(loc: Location, offset: nat): Location {
    match loc
    case Absent => Absent
    case Found(leadAt, subsEnd, missing) => Found(offset + leadAt, offset + subsEnd, missing)
  }

  function Locate(b: seq<string>, s: Section, e: Entry): (r: Location)
    ensures r.Found? ==> r.leadAt < r.subsEnd <= |b|
  {
    match Body(b, s)
    case None => Absent
    case Some(body) => Shift(LocateIn(body, e), SectionRange(b, s).value.start + 1)
  }

  predicate Complete(loc: Location) {
    loc.Found? && loc.missing == []
  }

  datatype Folded = Folded(block: seq<string>, news: seq<Entry>)

  /** Folds each located entry into its bullet; the ones not there yet are returned. */
  function FoldAll(b: seq<string>, s: Section, entries: seq<Entry>): Folded
    decreases |entries|
  {
    if entries == [] then Folded(b, [])
    else
      match Locate(b, s, entries[0])
      case Absent =>
        var f := FoldAll(b, s, entries[1..]);
        Folded(f.block, [entries[0]] + f.news)
      case Found(_, subsEnd, missing) => FoldAll(Insert(b, subsEnd, missing), s, entries[1..])
  }

  /** The new entries after the last line of their section, or under a new heading before the first one that sorts
      after it. A heading that stands first, or has no lines yet, gets a blank line. */
  function AppendNews(b: seq<string>, s: Section, news: seq<Entry>): seq<string> {
    var range := SectionRange(b, s);
    if range.None? then AppendUnder(b, First(b, Later(s), 0), Heading(s), "", Flatten(news))
    else AppendAt(b, InkEnd(b, range.value), range.value.start + 1, "", Flatten(news))
  }

  /** The end of the last line of a section that is not blank. */
  function InkEnd(b: seq<string>, range: Range): (at: nat)
    requires range.start < range.end <= |b|
    ensures range.start < at <= range.end
  {
    Back(b, BlankLine(), range.start + 1, range.end)
  }

  function SpliceSection(b: seq<string>, s: Section, entries: seq<Entry>): seq<string> {
    var f := FoldAll(b, s, entries);
    if f.news == [] then f.block else AppendNews(f.block, s, f.news)
  }

  /** One turn of the loop over the sections. */
  function SpliceTurn(b: seq<string>, frags: Fragments, s: Section): seq<string> {
    if s in frags then SpliceSection(b, s, Merge(frags[s])) else b
  }

  /** The sections from rank `i` on, in canonical order. */
  function SpliceBlock(b: seq<string>, frags: Fragments, i: nat): seq<string>
    requires i <= |SECTIONS|
    decreases |SECTIONS| - i
  {
    if i == |SECTIONS| then b else SpliceBlock(SpliceTurn(b, frags, SECTIONS[i]), frags, i + 1)
  }

  datatype Spliced = Written(text: string) | NoUnreleasedHeading

  /** `spliceIntoChangelog` */
  function Splice(changelog: string, frags: Fragments): Spliced {
    if frags == map[] then Written(changelog)
    else
      var lines := Split(changelog, '\n');
      var range := UnreleasedRange(lines);
      if range == None then NoUnreleasedHeading
      else
        var Range(start, end) := range.value;
        var block := SpliceBlock(lines[start + 1..end], frags, 0);
        Written(Join(lines[..start + 1] + block + lines[end..], '\n'))
  }

  /** The entries of one section that the block does not carry in full. */
  function Pending(b: seq<string>, s: Section, entries: seq<Entry>): seq<Entry> {
    if entries == [] then []
    else (if Complete(Locate(b, s, entries[0])) then [] else [entries[0]]) + Pending(b, s, entries[1..])
  }

  /** Whether `pendingFragments` is empty; without an Unreleased heading it is all the fragments. */
  predicate NothingPending(changelog: string, frags: Fragments) {
    match Block(Split(changelog, '\n'))
    case None => frags == map[]
    case Some(b) => forall s :: s in frags ==> Pending(b, s, Merge(frags[s])) == []
  }
}
