/** Version needs of an ELF file, as scripts/linux-native-scan.js compares and summarises them. */
module Versions {
  import Text

  datatype Option<+T> = None | Some(value: T)

  // ---------------------------------------------------------------- compareVersions

  predicate Digits(s: string) {
    forall k :: 0 <= k < |s| ==> '0' <= s[k] <= '9'
  }

  /** `Number(s) || 0` for decimal digits; any other text counts as 0. */
  function Value(s: string): nat {
    if !Digits(s) || s == "" then 0 else 10 * Value(s[..|s| - 1]) + (s[|s| - 1] - '0') as nat
  }

  function Values(parts: seq<string>): seq<nat> {
    seq(|parts|, k requires 0 <= k < |parts| => Value(parts[k]))
  }

  /** `v.split('.').map(Number)` */
  function Parts(v: string): seq<nat> {
    Values(Text.Split(v, '.'))
  }

  /** `p[i] || 0` */
  function At(p: seq<nat>, i: nat): nat {
    if i < |p| then p[i] else 0
  }

  function Max(a: nat, b: nat): nat {
    if a < b then b else a
  }

  function CompareFrom(a: seq<nat>, b: seq<nat>, i: nat): int
    decreases Max(|a|, |b|) - i
  {
    if i >= Max(|a|, |b|) then 0
    else if At(a, i) != At(b, i) then (if At(a, i) < At(b, i) then -1 else 1)
    else CompareFrom(a, b, i + 1)
  }

  function Compare(a: seq<nat>, b: seq<nat>): int {
    CompareFrom(a, b, 0)
  }

  method CompareVersions(a: string, b: string) returns (r: int)
    ensures r == Compare(Parts(a), Parts(b))
  {
    var pa, pb := Parts(a), Parts(b);
    var i := 0;
    while i < Max(|pa|, |pb|)
      invariant Compare(pa, pb) == CompareFrom(pa, pb, i)
    {
      var d: int := At(pa, i) - At(pb, i);
      if d != 0 {
        return if d < 0 then -1 else 1;
      }
      i := i + 1;
    }
    return 0;
  }

  ghost predicate AgreeBelow(a: seq<nat>, b: seq<nat>, k: nat) {
    forall i: nat :: i < k ==> At(a, i) == At(b, i)
  }

  ghost predicate FirstDiffers(a: seq<nat>, b: seq<nat>, k: nat) {
    AgreeBelow(a, b, k) && At(a, k) < At(b, k)
  }

  /** The order of the infinite sequences that `a` and `b` stand for, padded with zeros. */
  ghost predicate Below(a: seq<nat>, b: seq<nat>) {
    exists k: nat :: FirstDiffers(a, b, k)
  }

  ghost predicate Same(a: seq<nat>, b: seq<nat>) {
    forall i: nat :: At(a, i) == At(b, i)
  }

  lemma {:induction false} CompareFromMeans(a: seq<nat>, b: seq<nat>, i: nat)
    requires AgreeBelow(a, b, i)
    ensures CompareFrom(a, b, i) in {-1, 0, 1}
    ensures CompareFrom(a, b, i) == -1 ==> Below(a, b)
    ensures CompareFrom(a, b, i) == 0 ==> Same(a, b)
    ensures CompareFrom(a, b, i) == 1 ==> Below(b, a)
    decreases Max(|a|, |b|) - i
  {
    if i < Max(|a|, |b|) {
      if At(a, i) < At(b, i) {
        assert FirstDiffers(a, b, i);
      } else if At(a, i) > At(b, i) {
        assert FirstDiffers(b, a, i);
      } else {
        CompareFromMeans(a, b, i + 1);
      }
    }
  }

  lemma BelowApart(a: seq<nat>, b: seq<nat>)
    ensures !(Below(a, b) && Below(b, a)) && !(Below(a, b) && Same(a, b))
  {
    if Below(a, b) {
      var k: nat :| FirstDiffers(a, b, k);
      assert forall j: nat :: FirstDiffers(b, a, j) ==> j <= k && k <= j;
    }
  }

  /** What the result of the comparison means, in both directions. */
  lemma CompareMeans(a: seq<nat>, b: seq<nat>)
    ensures Compare(a, b) in {-1, 0, 1}
    ensures Compare(a, b) == -1 <==> Below(a, b)
    ensures Compare(a, b) == 0 <==> Same(a, b)
    ensures Compare(a, b) == 1 <==> Below(b, a)
  {
    CompareFromMeans(a, b, 0);
    BelowApart(a, b);
    BelowApart(b, a);
  }

  lemma BelowTransitive(a: seq<nat>, b: seq<nat>, c: seq<nat>)
    requires (Below(a, b) || Same(a, b)) && (Below(b, c) || Same(b, c))
    ensures Below(a, c) || Same(a, c)
    ensures Below(a, b) || Below(b, c) ==> Below(a, c)
  {
    if Below(a, b) && Below(b, c) {
      var j: nat :| FirstDiffers(a, b, j);
      var k: nat :| FirstDiffers(b, c, k);
      assert FirstDiffers(a, c, if j < k then j else k);
    } else if Below(a, b) {
      var j: nat :| FirstDiffers(a, b, j);
      assert FirstDiffers(a, c, j);
    } else if Below(b, c) {
      var k: nat :| FirstDiffers(b, c, k);
      assert FirstDiffers(a, c, k);
    }
  }

  /** `compareVersions` is a total preorder: antisymmetric in sign and transitive, also through versions that it takes
      for equal, such as 2.9 and 2.9.0. */
  lemma ComparePreorder(a: seq<nat>, b: seq<nat>, c: seq<nat>)
    ensures Compare(a, a) == 0
    ensures Compare(b, a) == -Compare(a, b)
    ensures Compare(a, b) <= 0 && Compare(b, c) <= 0 ==> Compare(a, c) <= 0
    ensures Compare(a, b) <= 0 && Compare(b, c) <= 0 && Compare(a, b) + Compare(b, c) < 0 ==> Compare(a, c) < 0
  {
    CompareMeans(a, a);
    CompareMeans(a, b);
    CompareMeans(b, a);
    CompareMeans(b, c);
    CompareMeans(a, c);
    if Compare(a, b) <= 0 && Compare(b, c) <= 0 {
      BelowTransitive(a, b, c);
    }
  }

  // ---------------------------------------------------------------- summarizeVersionNeeds

  datatype Family = GLIBC | GLIBCXX | CXXABI | OtherFamily

  /** One entry of the version needs section, split into its parts; `weak`: its flags hold the word WEAK. */
  datatype Entry = Entry(family: Family, version: string, weak: bool)

  datatype Need = Need(version: string, weak: bool)

  datatype Summary = Summary(glibc: seq<Need>, newest: Option<string>, newestNonWeak: Option<string>)

  /** `map.set(version, ...)` on a map that keeps the order in which its keys came. */
  function Note(needs: seq<Need>, version: string, weak: bool): seq<Need> {
    if needs == [] then [Need(version, weak)]
    else if needs[0].version == version then [Need(version, needs[0].weak && weak)] + needs[1..]
    else [needs[0]] + Note(needs[1..], version, weak)
  }

  function Noted(entries: seq<Entry>, family: Family): seq<Need> {
    if entries == [] then []
    else
      var before, last := Noted(entries[..|entries| - 1], family), entries[|entries| - 1];
      if last.family == family then Note(before, last.version, last.weak) else before
  }

  predicate NotAbove(a: Need, b: Need) {
    Compare(Parts(a.version), Parts(b.version)) <= 0
  }

  /** Puts `n` behind everything that is not above it. */
  function Place(n: Need, sorted: seq<Need>): seq<Need> {
    if sorted == [] || !NotAbove(sorted[|sorted| - 1], n)
    then (if sorted == [] then [n] else Place(n, sorted[..|sorted| - 1]) + [sorted[|sorted| - 1]])
    else sorted + [n]
  }

  /** A stable sort by version. */
  function Sorted(needs: seq<Need>): seq<Need> {
    if needs == [] then [] else Place(needs[|needs| - 1], Sorted(needs[..|needs| - 1]))
  }

  function NonWeak(needs: seq<Need>): seq<Need> {
    if needs == [] then []
    else NonWeak(needs[..|needs| - 1]) + if needs[|needs| - 1].weak then [] else [needs[|needs| - 1]]
  }

  function LastVersion(needs: seq<Need>): Option<string> {
    if needs == [] then None else Some(needs[|needs| - 1].version)
  }

  function Summarized(entries: seq<Entry>): Summary {
    var glibc := Sorted(Noted(entries, GLIBC));
    Summary(glibc, LastVersion(glibc), LastVersion(NonWeak(glibc)))
  }

  method SummarizeVersionNeeds(entries: seq<Entry>) returns (s: Summary)
    ensures s == Summarized(entries)
  {
    var byFamily := map[GLIBC := [], GLIBCXX := [], CXXABI := []];
    for i := 0 to |entries|
      invariant byFamily.Keys == {GLIBC, GLIBCXX, CXXABI}
      invariant forall f :: f in byFamily ==> byFamily[f] == Noted(entries[..i], f)
    {
      var e := entries[i];
      assert entries[..i + 1][..i] == entries[..i];
      if e.family in byFamily {
        byFamily := byFamily[e.family := Note(byFamily[e.family], e.version, e.weak)];
      }
    }
    assert entries[..|entries|] == entries;
    var glibc := Sorted(byFamily[GLIBC]);
    s := Summary(glibc, LastVersion(glibc), LastVersion(NonWeak(glibc)));
  }

  // ---------------------------------------------------------------- what a summary says

  /** `version` is needed, and not weakly. */
  predicate Hard(needs: seq<Need>, version: string) {
    Need(version, false) in needs
  }

  predicate Keyed(needs: seq<Need>, version: string) {
    Hard(needs, version) || Need(version, true) in needs
  }

  lemma {:induction false} NoteKeeps(needs: seq<Need>, version: string, weak: bool, v: string)
    requires Distinct(needs)
    ensures Distinct(Note(needs, version, weak))
    ensures Hard(Note(needs, version, weak), v) <==> Hard(needs, v) || (v == version && !weak)
    ensures Keyed(Note(needs, version, weak), v) <==> Keyed(needs, v) || v == version
  {
    if needs != [] {
      assert needs == [needs[0]] + needs[1..];
      if needs[0].version != version {
        NoteKeeps(needs[1..], version, weak, v);
        NoteKeeps(needs[1..], version, weak, needs[0].version);
        var rest := Note(needs[1..], version, weak);
        assert !Keyed(needs[1..], needs[0].version);
        assert forall k :: 0 <= k < |rest| ==> Keyed(rest, rest[k].version);
      }
    }
  }

  /** No version has two entries. */
  ghost predicate Distinct(needs: seq<Need>) {
    forall i, j :: 0 <= i < j < |needs| ==> needs[i].version != needs[j].version
  }

  /** A version stays weak only when every entry that names it is weak. */
  lemma {:induction false} NotedMeans(entries: seq<Entry>, family: Family, v: string)
    ensures Distinct(Noted(entries, family))
    ensures Hard(Noted(entries, family), v) <==> Entry(family, v, false) in entries
    ensures Keyed(Noted(entries, family), v)
      <==> Entry(family, v, false) in entries || Entry(family, v, true) in entries
  {
    if entries != [] {
      var before, last := entries[..|entries| - 1], entries[|entries| - 1];
      assert entries == before + [last];
      NotedMeans(before, family, v);
      if last.family == family {
        NoteKeeps(Noted(before, family), last.version, last.weak, v);
      }
    }
  }

  ghost predicate Ordered(needs: seq<Need>) {
    forall i, j :: 0 <= i < j < |needs| ==> NotAbove(needs[i], needs[j])
  }

  ghost predicate NoneAbove(needs: seq<Need>, n: Need) {
    forall i :: 0 <= i < |needs| ==> NotAbove(needs[i], n)
  }

  lemma NotAboveTransitive(a: Need, b: Need, c: Need)
    ensures NotAbove(a, b) || NotAbove(b, a)
    ensures NotAbove(a, b) && NotAbove(b, c) ==> NotAbove(a, c)
  {
    ComparePreorder(Parts(a.version), Parts(b.version), Parts(c.version));
  }

  lemma OrderedMore(needs: seq<Need>, n: Need)
    requires Ordered(needs) && (needs == [] || NotAbove(needs[|needs| - 1], n))
    ensures Ordered(needs + [n]) && NoneAbove(needs, n)
  {
    forall i | 0 <= i < |needs|
      ensures NotAbove(needs[i], n)
    {
      NotAboveTransitive(needs[i], needs[|needs| - 1], n);
    }
  }

  lemma {:induction false} PlaceKeeps(n: Need, sorted: seq<Need>)
    requires Ordered(sorted)
    ensures multiset(Place(n, sorted)) == multiset(sorted) + multiset{n}
    ensures Ordered(Place(n, sorted))
  {
    if sorted == [] || NotAbove(sorted[|sorted| - 1], n) {
      OrderedMore(sorted, n);
    } else {
      var before, last := sorted[..|sorted| - 1], sorted[|sorted| - 1];
      assert sorted == before + [last];
      PlaceKeeps(n, before);
      NotAboveTransitive(last, n, last);
      PlacedLast(n, before, last);
    }
  }

  lemma {:induction false} PlacedLast(n: Need, before: seq<Need>, last: Need)
    requires Ordered(Place(n, before)) && multiset(Place(n, before)) == multiset(before) + multiset{n}
    requires NotAbove(n, last) && NoneAbove(before, last)
    ensures Ordered(Place(n, before) + [last])
  {
    var placed := Place(n, before);
    forall i | 0 <= i < |placed|
      ensures NotAbove(placed[i], last)
    {
      assert placed[i] in multiset(placed);
      assert placed[i] in before || placed[i] == n;
    }
  }

  /** Sorting loses nothing, adds nothing and puts the versions in order. */
  lemma {:induction false} SortedKeeps(needs: seq<Need>)
    ensures multiset(Sorted(needs)) == multiset(needs) && Ordered(Sorted(needs))
  {
    if needs != [] {
      var before, last := needs[..|needs| - 1], needs[|needs| - 1];
      SortedKeeps(before);
      PlaceKeeps(last, Sorted(before));
      assert multiset(needs) == multiset(before) + multiset{last} by {
        assert needs == before + [last];
      }
    }
  }

  lemma {:induction false} NonWeakKeeps(needs: seq<Need>)
    requires Ordered(needs)
    ensures forall n :: n in NonWeak(needs) <==> n in needs && !n.weak
    ensures Ordered(NonWeak(needs))
  {
    if needs != [] {
      var before, last := needs[..|needs| - 1], needs[|needs| - 1];
      assert needs == before + [last];
      NonWeakKeeps(before);
      if !last.weak {
        forall i | 0 <= i < |NonWeak(before)|
          ensures NotAbove(NonWeak(before)[i], last)
        {
          var n := NonWeak(before)[i];
          assert n in before;
        }
      }
    }
  }

  /** The hard needs, in order. */
  function HardNeeds(entries: seq<Entry>): seq<Need> {
    NonWeak(Sorted(Noted(entries, GLIBC)))
  }

  lemma HardNeedsOrdered(entries: seq<Entry>)
    ensures Ordered(HardNeeds(entries))
    ensures forall n :: n in HardNeeds(entries) ==> !n.weak
  {
    SortedKeeps(Noted(entries, GLIBC));
    NonWeakKeeps(Sorted(Noted(entries, GLIBC)));
  }

  lemma HardNeedsAre(entries: seq<Entry>, v: string)
    ensures Need(v, false) in HardNeeds(entries) <==> Entry(GLIBC, v, false) in entries
  {
    var noted := Noted(entries, GLIBC);
    SortedKeeps(noted);
    NonWeakKeeps(Sorted(noted));
    NotedMeans(entries, GLIBC, v);
    assert Need(v, false) in multiset(Sorted(noted)) <==> Need(v, false) in multiset(noted);
  }

  lemma LastIsNewest(hard: seq<Need>, v: string)
    requires Ordered(hard) && Need(v, false) in hard
    ensures Compare(Parts(v), Parts(hard[|hard| - 1].version)) <= 0
  {
    var i :| 0 <= i < |hard| && hard[i] == Need(v, false);
    if i == |hard| - 1 {
      ComparePreorder(Parts(v), Parts(v), Parts(v));
    } else {
      assert NotAbove(hard[i], hard[|hard| - 1]);
    }
  }

  /** The newest version that is needed and not weakly: it is there when some entry is hard, it is the version of a
      hard entry, and no hard entry is above it. */
  lemma NewestNonWeakMeans(entries: seq<Entry>, v: string)
    ensures var newest := Summarized(entries).newestNonWeak;
      && (newest.Some? ==> Entry(GLIBC, newest.value, false) in entries)
      && (Entry(GLIBC, v, false) in entries ==> newest.Some? && Compare(Parts(v), Parts(newest.value)) <= 0)
  {
    var hard := HardNeeds(entries);
    HardNeedsOrdered(entries);
    if hard != [] {
      var last := hard[|hard| - 1];
      assert last in hard && last == Need(last.version, false);
      HardNeedsAre(entries, last.version);
    }
    HardNeedsAre(entries, v);
    if Entry(GLIBC, v, false) in entries {
      LastIsNewest(hard, v);
    }
  }

  /** The test of the floor, made on the newest version that is not weak. */
  predicate AboveFloor(s: Summary, floor: string) {
    s.newestNonWeak.Some? && Compare(Parts(s.newestNonWeak.value), Parts(floor)) > 0
  }

  /** Grouping, sorting and taking the last come to the plain question: the test fails exactly when some single entry,
      read on its own, is a GLIBC need that is not weak and is above the floor. */
  lemma FloorTestIsExists(entries: seq<Entry>, floor: string)
    ensures AboveFloor(Summarized(entries), floor)
      <==> exists v :: Entry(GLIBC, v, false) in entries && Compare(Parts(v), Parts(floor)) > 0
  {
    var newest := Summarized(entries).newestNonWeak;
    NewestNonWeakMeans(entries, if newest.Some? then newest.value else "");
    forall v | Entry(GLIBC, v, false) in entries && Compare(Parts(v), Parts(floor)) > 0
      ensures AboveFloor(Summarized(entries), floor)
    {
      NewestNonWeakMeans(entries, v);
      ComparePreorder(Parts(v), Parts(newest.value), Parts(floor));
    }
  }

  // ---------------------------------------------------------------- numbers as they are written

  function Numeral(n: nat): string {
    if n < 10 then [('0' as int + n) as char] else Numeral(n / 10) + [('0' as int + n % 10) as char]
  }

  lemma {:induction false} NumeralReads(n: nat)
    ensures Value(Numeral(n)) == n && Digits(Numeral(n)) && Numeral(n) != "" && '.' !in Numeral(n)
  {
    if n >= 10 {
      NumeralReads(n / 10);
      assert Numeral(n)[..|Numeral(n)| - 1] == Numeral(n / 10);
    }
  }

  function Numerals(ns: seq<nat>): seq<string> {
    seq(|ns|, k requires 0 <= k < |ns| => Numeral(ns[k]))
  }

  /** The parts of a version are the numbers written between its dots; so `2.9` is below `2.10`. */
  lemma DottedReads(ns: seq<nat>)
    requires ns != []
    ensures Parts(Text.Join(Numerals(ns), '.')) == ns
  {
    forall k | 0 <= k < |ns| ensures Value(Numerals(ns)[k]) == ns[k] && '.' !in Numerals(ns)[k] {
      NumeralReads(ns[k]);
    }
    Text.SplitJoin(Numerals(ns), '.');
  }

  // ---------------------------------------------------------------- the list of a summary

  lemma SameMembers(a: seq<Need>, b: seq<Need>)
    requires multiset(a) == multiset(b)
    ensures |a| == |b| && forall n :: n in a <==> n in b
  {
    assert |multiset(a)| == |a| && |multiset(b)| == |b|;
    assert forall n :: n in a <==> n in multiset(a);
    assert forall n :: n in b <==> n in multiset(b);
  }

  /** The list of a summary is in order, and has each version once, weak only if every entry that names it is weak; */
  lemma SummaryList(entries: seq<Entry>, v: string)
    ensures var glibc := Summarized(entries).glibc;
      && Ordered(glibc) && |glibc| == |Noted(entries, GLIBC)|
      && (Need(v, false) in glibc <==> Entry(GLIBC, v, false) in entries)
      && (Need(v, true) in glibc <==> Entry(GLIBC, v, true) in entries && Entry(GLIBC, v, false) !in entries)
  {
    var noted := Noted(entries, GLIBC);
    SortedKeeps(noted);
    NotedMeans(entries, GLIBC, v);
    SameMembers(Sorted(noted), noted);
    OnceWeak(noted, v);
  }

  lemma LastOfOrdered(needs: seq<Need>, n: Need)
    requires Ordered(needs) && n in needs
    ensures NotAbove(n, needs[|needs| - 1])
  {
    NotAboveTransitive(n, n, n);
    var i :| 0 <= i < |needs| && needs[i] == n;
    assert i == |needs| - 1 || NotAbove(needs[i], needs[|needs| - 1]);
  }

  /** and the newest is one of them, with none above it, whenever there is any. */
  lemma NewestMeans(entries: seq<Entry>, v: string, weak: bool)
    ensures var s := Summarized(entries);
      && (s.newest.Some? ==>
            Entry(GLIBC, s.newest.value, false) in entries || Entry(GLIBC, s.newest.value, true) in entries)
      && (Entry(GLIBC, v, weak) in entries ==> s.newest.Some? && Compare(Parts(v), Parts(s.newest.value)) <= 0)
  {
    var glibc := Summarized(entries).glibc;
    SummaryList(entries, v);
    if glibc != [] {
      var last := glibc[|glibc| - 1];
      assert last in glibc && (last == Need(last.version, false) || last == Need(last.version, true));
      SummaryList(entries, last.version);
    }
    if Entry(GLIBC, v, weak) in entries {
      var n :| n in glibc && n.version == v;
      LastOfOrdered(glibc, n);
    }
  }

  lemma OnceWeak(needs: seq<Need>, v: string)
    requires Distinct(needs)
    ensures !(Need(v, true) in needs && Need(v, false) in needs)
  {
  }

  function VersionsOf(needs: seq<Need>): seq<string> {
    seq(|needs|, k requires 0 <= k < |needs| => needs[k].version)
  }

  lemma {:induction false} NoteOrder(needs: seq<Need>, version: string, weak: bool)
    ensures VersionsOf(Note(needs, version, weak))
      == if version in VersionsOf(needs) then VersionsOf(needs) else VersionsOf(needs) + [version]
  {
    if needs != [] {
      var rest := needs[1..];
      assert VersionsOf(needs) == [needs[0].version] + VersionsOf(rest);
      if needs[0].version != version {
        NoteOrder(rest, version, weak);
        assert Note(needs, version, weak) == [needs[0]] + Note(rest, version, weak);
        assert VersionsOf([needs[0]] + Note(rest, version, weak))
          == [needs[0].version] + VersionsOf(Note(rest, version, weak));
      }
    }
  }

  /** Before sorting, the versions stand in the order in which the entries first name them. */
  lemma {:induction false} NotedOrder(entries: seq<Entry>, e: Entry, family: Family)
    ensures var before := VersionsOf(Noted(entries, family));
      VersionsOf(Noted(entries + [e], family))
        == if e.family == family && e.version !in before then before + [e.version] else before
  {
    assert (entries + [e])[..|entries|] == entries;
    if e.family == family {
      NoteOrder(Noted(entries, family), e.version, e.weak);
    }
  }

  /** The needs that the comparison takes for the same as `c`, in order. */
  function Ties(needs: seq<Need>, c: Need): seq<Need> {
    if needs == [] then []
    else Ties(needs[..|needs| - 1], c) + if Tied(needs[|needs| - 1], c) then [needs[|needs| - 1]] else []
  }

  predicate Tied(a: Need, c: Need) {
    NotAbove(a, c) && NotAbove(c, a)
  }

  lemma {:induction false} PlaceTies(n: Need, sorted: seq<Need>, c: Need)
    requires Ordered(sorted)
    ensures Ties(Place(n, sorted), c) == Ties(sorted, c) + if Tied(n, c) then [n] else []
  {
    if sorted != [] && !NotAbove(sorted[|sorted| - 1], n) {
      var before, last := sorted[..|sorted| - 1], sorted[|sorted| - 1];
      PlaceTies(n, before, c);
      NotAboveTransitive(last, c, n);
      assert !(Tied(n, c) && Tied(last, c));
    }
  }

  /** The sort is stable: versions that it takes for the same keep their order. */
  lemma {:induction false} SortedTies(needs: seq<Need>, c: Need)
    ensures Ties(Sorted(needs), c) == Ties(needs, c)
  {
    if needs != [] {
      var before, last := needs[..|needs| - 1], needs[|needs| - 1];
      SortedTies(before, c);
      SortedKeeps(before);
      PlaceTies(last, Sorted(before), c);
    }
  }
}
