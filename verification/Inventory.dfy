/** Comparing a scanned package with its inventory, as scripts/linux-native-scan.js does. */
module Inventory {
  import opened Versions
  import Resolver

  type Path = seq<string>

  datatype Libc = Glibc | Musl | Bionic | Static | UnknownLibc

  /** An ELF file of the scan. `x64`: ELF64 for the x86-64 machine; `needs`: its version needs. */
  datatype Record = Record(path: Path, x64: bool, libc: Libc, interp: Option<string>, sha256: string, needs: seq<Entry>)

  datatype Class = Supported | Foreign | Dormant

  datatype File = File(path: Path, class_: Class, sha256: Option<string>, prebuildsOnly: bool)

  datatype Archive = Archive(path: Path, elfMembers: seq<string>, missingUnpacked: seq<string>)

  datatype SymLink = SymLink(path: Path, status: Resolver.Status)

  datatype Scan = Scan(results: seq<Record>, errors: seq<Path>, symlinks: seq<SymLink>, asar: seq<Archive>)

  datatype Inventory = Inventory(files: seq<File>, glibcFloor: string)

  /** The floor a package declares: not looked for, looked for and absent, or a version. */
  datatype Declared = Unread | Absent | Floor(version: string)

  datatype Kind = FloorKind | Extra | Missing | Digest | ClassKind | Interp | Asar | SymlinkKind

  datatype Failure = Failure(kind: Kind, path: Path)

  datatype Report = Error | Fail | Pass

  const X86_64_INTERP := "/lib64/ld-linux-x86-64.so.2"
  const UP := ".."

  // ---------------------------------------------------------------- paths under the prefix

  /** How many leading components two paths share. */
  function Shared(a: Path, b: Path): (n: nat)
    ensures n <= |a| && n <= |b| && a[..n] == b[..n]
  {
    if a == [] || b == [] || a[0] != b[0] then 0 else 1 + Shared(a[1..], b[1..])
  }

  /** `path.relative(prefix, p)` */
  function Relative(prefix: Path, p: Path): Path {
    var n := Shared(prefix, p);
    seq(|prefix| - n, _ => UP) + p[n..]
  }

  function Rel(prefix: Path, p: Path): Path {
    if prefix == [] then p else Relative(prefix, p)
  }

  predicate IsOutside(prefix: Path, p: Path) {
    prefix != [] && Rel(prefix, p) != [] && UP <= Rel(prefix, p)[0]
  }

  lemma ShortIsOutside(prefix: Path, p: Path)
    requires Shared(prefix, p) < |prefix|
    ensures IsOutside(prefix, p)
  {
    assert Relative(prefix, p)[0] == UP;
  }

  lemma InsideIsUnder(prefix: Path, p: Path)
    requires !IsOutside(prefix, p)
    ensures p == prefix + Rel(prefix, p)
  {
    if Shared(prefix, p) < |prefix| {
      ShortIsOutside(prefix, p);
    } else if prefix != [] {
      assert prefix[..|prefix|] == prefix;
      assert p == p[..|prefix|] + p[|prefix|..];
      assert Relative(prefix, p) == p[|prefix|..];
    }
  }

  /** Two paths inside the prefix are told apart by what follows it. */
  lemma SameRel(prefix: Path, p: Path, q: Path)
    requires !IsOutside(prefix, p) && !IsOutside(prefix, q) && Rel(prefix, p) == Rel(prefix, q)
    ensures p == q
  {
    InsideIsUnder(prefix, p);
    InsideIsUnder(prefix, q);
  }

  // ---------------------------------------------------------------- the failures

  /** What pushing `f(x)` for each `x` in turn adds up to. */
  function Flat<X>(xs: seq<X>, f: X -> seq<Failure>): seq<Failure> {
    if xs == [] then [] else Flat(xs[..|xs| - 1], f) + f(xs[|xs| - 1])
  }

  predicate IsX86_64Glibc(r: Record) {
    r.x64 && r.libc == Glibc
  }

  predicate FloorApplies(e: File) {
    e.class_ == Supported || e.prebuildsOnly
  }

  function When(c: bool, kind: Kind, path: Path): seq<Failure> {
    if c then [Failure(kind, path)] else []
  }

  function DeclaredFailures(declared: Declared, inv: Inventory): seq<Failure> {
    When(declared.Absent? || (declared.Floor? && declared.version != inv.glibcFloor), FloorKind, [])
  }

  function OutsideFailure(prefix: Path): Record -> seq<Failure> {
    (r: Record) => When(IsOutside(prefix, r.path), Extra, r.path)
  }

  /** `byPath`; a later record replaces an earlier one with the same path. */
  function ByPath(prefix: Path, results: seq<Record>): map<Path, Record> {
    if results == [] then map[]
    else
      var before, last := ByPath(prefix, results[..|results| - 1]), results[|results| - 1];
      if IsOutside(prefix, last.path) then before else before[Rel(prefix, last.path) := last]
  }

  /** Its keys in the order in which they came. */
  function KeyOrder(prefix: Path, results: seq<Record>): seq<Path> {
    if results == [] then []
    else
      var before, last := KeyOrder(prefix, results[..|results| - 1]), results[|results| - 1];
      if IsOutside(prefix, last.path) || Rel(prefix, last.path) in before then before
      else before + [Rel(prefix, last.path)]
  }

  function ListedPaths(files: seq<File>): set<Path> {
    set e | e in files :: e.path
  }

  function ErroredPaths(prefix: Path, errors: seq<Path>): set<Path> {
    set p | p in errors :: Rel(prefix, p)
  }

  function ExtraFailure(listed: set<Path>): Path -> seq<Failure> {
    (rel: Path) => When(rel !in listed, Extra, rel)
  }

  function ClassFailures(e: File, r: Record): seq<Failure> {
    When(e.class_ == Foreign && IsX86_64Glibc(r), ClassKind, e.path)
    + When(e.class_ == Dormant && !IsX86_64Glibc(r), ClassKind, e.path)
    + When(e.class_ == Supported && !(r.x64 && r.libc in {Glibc, Static}), ClassKind, e.path)
  }

  /** An inventoried file that the scan found. */
  function PresentFailures(e: File, r: Record, floor: string): seq<Failure> {
    When(e.sha256.Some? && e.sha256.value != r.sha256, Digest, e.path)
    + ClassFailures(e, r)
    + When(e.class_ == Supported && r.interp.Some? && r.interp.value != X86_64_INTERP, Interp, e.path)
    + When(FloorApplies(e) && AboveFloor(Summarized(r.needs), floor), FloorKind, e.path)
  }

  function FileFailures(byPath: map<Path, Record>, errored: set<Path>, floor: string): File -> seq<Failure> {
    (e: File) =>
      if e.path in byPath then PresentFailures(e, byPath[e.path], floor)
      else When(e.path !in errored, Missing, e.path)
  }

  function MemberFailure(path: Path): string -> seq<Failure> {
    (member: string) => [Failure(Asar, path + [member])]
  }

  function ArchiveFailures(): Archive -> seq<Failure> {
    (a: Archive) => Flat(a.elfMembers, MemberFailure(a.path)) + Flat(a.missingUnpacked, MemberFailure(a.path))
  }

  function LinkFailure(): SymLink -> seq<Failure> {
    (l: SymLink) => When(l.status != Resolver.Ok, SymlinkKind, l.path)
  }

  function Failures(scan: Scan, inv: Inventory, prefix: Path, floor: string, declared: Declared): seq<Failure> {
    DeclaredFailures(declared, inv)
    + Flat(scan.results, OutsideFailure(prefix))
    + Flat(KeyOrder(prefix, scan.results), ExtraFailure(ListedPaths(inv.files)))
    + Flat(inv.files, FileFailures(ByPath(prefix, scan.results), ErroredPaths(prefix, scan.errors), floor))
    + Flat(scan.asar, ArchiveFailures())
    + Flat(scan.symlinks, LinkFailure())
  }

  function StatusOf(scan: Scan, failures: seq<Failure>): Report {
    if scan.errors != [] then Error else if failures != [] then Fail else Pass
  }

  // ---------------------------------------------------------------- the loops

  lemma FlatSnoc<X>(xs: seq<X>, f: X -> seq<Failure>, i: nat)
    requires i < |xs|
    ensures Flat(xs[..i + 1], f) == Flat(xs[..i], f) + f(xs[i])
  {
    assert xs[..i + 1][..i] == xs[..i];
  }

  lemma WholeIsAll<X>(xs: seq<X>)
    ensures xs[..|xs|] == xs
  {
  }

  method CompareClass(e: File, r: Record) returns (failures: seq<Failure>)
    ensures failures == ClassFailures(e, r)
  {
    failures := [];
    if e.class_ == Foreign && IsX86_64Glibc(r) {
      failures := failures + [Failure(ClassKind, e.path)];
    }
    if e.class_ == Dormant && !IsX86_64Glibc(r) {
      failures := failures + [Failure(ClassKind, e.path)];
    }
    if e.class_ == Supported && !(r.x64 && r.libc in {Glibc, Static}) {
      failures := failures + [Failure(ClassKind, e.path)];
    }
  }

  method CompareFloor(e: File, r: Record, floor: string) returns (failures: seq<Failure>)
    ensures failures == When(FloorApplies(e) && AboveFloor(Summarized(r.needs), floor), FloorKind, e.path)
  {
    failures := [];
    var summary := SummarizeVersionNeeds(r.needs);
    if FloorApplies(e) && summary.newestNonWeak.Some? {
      var c := CompareVersions(summary.newestNonWeak.value, floor);
      if c > 0 {
        failures := [Failure(FloorKind, e.path)];
      }
    }
  }

  method CompareFile(e: File, r: Record, floor: string) returns (failures: seq<Failure>)
    ensures failures == PresentFailures(e, r, floor)
  {
    failures := [];
    if e.sha256.Some? && r.sha256 != e.sha256.value {
      failures := [Failure(Digest, e.path)];
    }
    var classFailures := CompareClass(e, r);
    failures := failures + classFailures;
    if e.class_ == Supported && r.interp.Some? && r.interp.value != X86_64_INTERP {
      failures := failures + [Failure(Interp, e.path)];
    }
    var floorFailures := CompareFloor(e, r, floor);
    failures := failures + floorFailures;
  }

  method IndexResults(prefix: Path, results: seq<Record>)
      returns (byPath: map<Path, Record>, order: seq<Path>, failures: seq<Failure>)
    ensures byPath == ByPath(prefix, results) && order == KeyOrder(prefix, results)
    ensures failures == Flat(results, OutsideFailure(prefix))
  {
    byPath, order, failures := map[], [], [];
    for i := 0 to |results|
      invariant byPath == ByPath(prefix, results[..i]) && order == KeyOrder(prefix, results[..i])
      invariant failures == Flat(results[..i], OutsideFailure(prefix))
    {
      FlatSnoc(results, OutsideFailure(prefix), i);
      assert results[..i + 1][..i] == results[..i];
      var record := results[i];
      if IsOutside(prefix, record.path) {
        failures := failures + [Failure(Extra, record.path)];
      } else {
        var rel := Rel(prefix, record.path);
        byPath := byPath[rel := record];
        if rel !in order {
          order := order + [rel];
        }
      }
    }
    WholeIsAll(results);
  }

  method CompareFiles(files: seq<File>, byPath: map<Path, Record>, errored: set<Path>, floor: string)
      returns (failures: seq<Failure>)
    ensures failures == Flat(files, FileFailures(byPath, errored, floor))
  {
    failures := [];
    for i := 0 to |files|
      invariant failures == Flat(files[..i], FileFailures(byPath, errored, floor))
    {
      FlatSnoc(files, FileFailures(byPath, errored, floor), i);
      var entry := files[i];
      if entry.path !in byPath {
        if entry.path !in errored {
          failures := failures + [Failure(Missing, entry.path)];
        }
      } else {
        var found := CompareFile(entry, byPath[entry.path], floor);
        failures := failures + found;
      }
    }
    WholeIsAll(files);
  }

  method CompareExtras(order: seq<Path>, listed: set<Path>) returns (failures: seq<Failure>)
    ensures failures == Flat(order, ExtraFailure(listed))
  {
    failures := [];
    for i := 0 to |order|
      invariant failures == Flat(order[..i], ExtraFailure(listed))
    {
      FlatSnoc(order, ExtraFailure(listed), i);
      if order[i] !in listed {
        failures := failures + [Failure(Extra, order[i])];
      }
    }
    WholeIsAll(order);
  }

  method CompareMembers(path: Path, members: seq<string>) returns (failures: seq<Failure>)
    ensures failures == Flat(members, MemberFailure(path))
  {
    failures := [];
    for i := 0 to |members|
      invariant failures == Flat(members[..i], MemberFailure(path))
    {
      FlatSnoc(members, MemberFailure(path), i);
      failures := failures + [Failure(Asar, path + [members[i]])];
    }
    WholeIsAll(members);
  }

  method CompareArchives(asar: seq<Archive>) returns (failures: seq<Failure>)
    ensures failures == Flat(asar, ArchiveFailures())
  {
    failures := [];
    for i := 0 to |asar|
      invariant failures == Flat(asar[..i], ArchiveFailures())
    {
      FlatSnoc(asar, ArchiveFailures(), i);
      var packed := CompareMembers(asar[i].path, asar[i].elfMembers);
      var lost := CompareMembers(asar[i].path, asar[i].missingUnpacked);
      failures := failures + (packed + lost);
    }
    WholeIsAll(asar);
  }

  method CompareLinks(symlinks: seq<SymLink>) returns (failures: seq<Failure>)
    ensures failures == Flat(symlinks, LinkFailure())
  {
    failures := [];
    for i := 0 to |symlinks|
      invariant failures == Flat(symlinks[..i], LinkFailure())
    {
      FlatSnoc(symlinks, LinkFailure(), i);
      if symlinks[i].status != Resolver.Ok {
        failures := failures + [Failure(SymlinkKind, symlinks[i].path)];
      }
    }
    WholeIsAll(symlinks);
  }

  /** The comparison and the status that `scanPackage` reports. */
  method ScanPackage(scan: Scan, inv: Inventory, prefix: Path, asked: Option<string>, declared: Declared)
      returns (status: Report, failures: seq<Failure>)
    ensures asked.Some? ==> failures == Failures(scan, inv, prefix, asked.value, declared)
    ensures asked.None? && declared.Floor? ==> failures == Failures(scan, inv, prefix, declared.version, declared)
    ensures asked.None? && !declared.Floor? ==> failures == Failures(scan, inv, prefix, inv.glibcFloor, declared)
    ensures status == Error <==> scan.errors != []
    ensures status == Pass <==> scan.errors == [] && failures == []
  {
    var floor :=
      if asked.Some? then asked.value else if declared.Floor? then declared.version else inv.glibcFloor;
    failures := DeclaredFailures(declared, inv);
    var byPath, order, outside := IndexResults(prefix, scan.results);
    failures := failures + outside;
    var extras := CompareExtras(order, ListedPaths(inv.files));
    failures := failures + extras;
    var files := CompareFiles(inv.files, byPath, ErroredPaths(prefix, scan.errors), floor);
    failures := failures + files;
    var archives := CompareArchives(scan.asar);
    failures := failures + archives;
    var links := CompareLinks(scan.symlinks);
    failures := failures + links;
    status := if scan.errors != [] then Error else if failures != [] then Fail else Pass;
  }

  // ---------------------------------------------------------------- what a pass means

  /** A file walk lists every path once. */
  ghost predicate DistinctResults(results: seq<Record>) {
    forall i, j :: 0 <= i < j < |results| ==> results[i].path != results[j].path
  }

  /** `validateInventory` refuses a path that is listed twice. */
  ghost predicate DistinctFiles(files: seq<File>) {
    forall i, j :: 0 <= i < j < |files| ==> files[i].path != files[j].path
  }

  /** The record that the scan has under a path of the inventory. */
  predicate At(prefix: Path, r: Record, rel: Path) {
    !IsOutside(prefix, r.path) && Rel(prefix, r.path) == rel
  }

  ghost predicate NoHardNeedAbove(r: Record, floor: string) {
    forall v :: Entry(GLIBC, v, false) in r.needs ==> Compare(Parts(v), Parts(floor)) <= 0
  }

  /** All that the inventory says about a file is true of it, and no single version need breaks the floor. */
  ghost predicate Agrees(e: File, r: Record, floor: string) {
    && (e.sha256.Some? ==> e.sha256.value == r.sha256)
    && (e.class_ == Foreign ==> !IsX86_64Glibc(r))
    && (e.class_ == Dormant ==> IsX86_64Glibc(r))
    && (e.class_ == Supported ==> r.x64 && r.libc in {Glibc, Static})
    && (e.class_ == Supported ==> (r.interp.None? || r.interp.value == X86_64_INTERP))
    && (FloorApplies(e) ==> NoHardNeedAbove(r, floor))
  }

  ghost predicate Found(scan: Scan, prefix: Path, e: File, floor: string) {
    exists r :: r in scan.results && At(prefix, r, e.path) && Agrees(e, r, floor)
  }

  ghost predicate Listed(inv: Inventory, prefix: Path, r: Record) {
    exists e :: e in inv.files && At(prefix, r, e.path)
  }

  ghost predicate DeclaresRight(declared: Declared, inv: Inventory) {
    declared == Unread || declared == Floor(inv.glibcFloor)
  }

  ghost predicate AllListed(scan: Scan, inv: Inventory, prefix: Path) {
    forall r :: r in scan.results ==> Listed(inv, prefix, r)
  }

  ghost predicate AllFound(scan: Scan, inv: Inventory, prefix: Path, floor: string) {
    forall e :: e in inv.files ==> Found(scan, prefix, e, floor)
  }

  ghost predicate NothingPacked(asar: seq<Archive>) {
    forall a :: a in asar ==> a.elfMembers == [] && a.missingUnpacked == []
  }

  ghost predicate LinksResolve(symlinks: seq<SymLink>) {
    forall l :: l in symlinks ==> l.status == Resolver.Ok
  }

  ghost predicate Clean(scan: Scan, inv: Inventory, prefix: Path, floor: string, declared: Declared) {
    && scan.errors == []
    && DeclaresRight(declared, inv)
    && AllListed(scan, inv, prefix)
    && AllFound(scan, inv, prefix, floor)
    && NothingPacked(scan.asar)
    && LinksResolve(scan.symlinks)
  }

  lemma {:induction false} FlatEmpty<X>(xs: seq<X>, f: X -> seq<Failure>)
    ensures Flat(xs, f) == [] <==> forall x :: x in xs ==> f(x) == []
  {
    if xs != [] {
      FlatEmpty(xs[..|xs| - 1], f);
      assert xs == xs[..|xs| - 1] + [xs[|xs| - 1]];
    }
  }

  lemma FloorMeans(r: Record, floor: string)
    ensures !AboveFloor(Summarized(r.needs), floor) <==> NoHardNeedAbove(r, floor)
  {
    FloorTestIsExists(r.needs, floor);
  }

  lemma PresentMeans(e: File, r: Record, floor: string)
    ensures PresentFailures(e, r, floor) == [] <==> Agrees(e, r, floor)
  {
    FloorMeans(r, floor);
    assert ClassFailures(e, r) == [] <==>
        (e.class_ == Foreign ==> !IsX86_64Glibc(r)) && (e.class_ == Dormant ==> IsX86_64Glibc(r))
        && (e.class_ == Supported ==> r.x64 && r.libc in {Glibc, Static});
  }

  lemma AtMostOne(prefix: Path, results: seq<Record>, rel: Path, r: Record)
    requires results != [] && DistinctResults(results) && r in results[..|results| - 1] && At(prefix, r, rel)
    ensures !At(prefix, results[|results| - 1], rel)
  {
    var i :| 0 <= i < |results| - 1 && results[i] == r;
    assert results[i].path != results[|results| - 1].path;
    if At(prefix, results[|results| - 1], rel) {
      SameRel(prefix, r.path, results[|results| - 1].path);
    }
  }

  lemma {:induction false} ByPathFrom(prefix: Path, results: seq<Record>, rel: Path)
    requires rel in ByPath(prefix, results)
    ensures ByPath(prefix, results)[rel] in results && At(prefix, ByPath(prefix, results)[rel], rel)
  {
    var before, last := results[..|results| - 1], results[|results| - 1];
    if !At(prefix, last, rel) {
      ByPathFrom(prefix, before, rel);
      assert ByPath(prefix, results)[rel] == ByPath(prefix, before)[rel];
    }
  }

  lemma {:induction false} ByPathHas(prefix: Path, results: seq<Record>, rel: Path, r: Record)
    requires DistinctResults(results) && r in results && At(prefix, r, rel)
    ensures rel in ByPath(prefix, results) && ByPath(prefix, results)[rel] == r
  {
    var before, last := results[..|results| - 1], results[|results| - 1];
    if r in before {
      AtMostOne(prefix, results, rel, r);
      ByPathHas(prefix, before, rel, r);
    } else {
      assert r == last;
    }
  }

  lemma {:induction false} KeyOrderMeans(prefix: Path, results: seq<Record>, rel: Path)
    ensures rel in KeyOrder(prefix, results)
      <==> exists r :: r in results && At(prefix, r, rel)
  {
    if results != [] {
      var before, last := results[..|results| - 1], results[|results| - 1];
      assert results == before + [last];
      KeyOrderMeans(prefix, before, rel);
      forall r | r in results && At(prefix, r, rel)
        ensures rel in KeyOrder(prefix, results)
      {
        assert r in before || r == last;
      }
      if rel in KeyOrder(prefix, results) && rel !in KeyOrder(prefix, before) {
        assert last in results && At(prefix, last, rel);
      }
    }
  }

  // ---------------------------------------------------------------- segment by segment

  lemma ResultsClean(scan: Scan, inv: Inventory, prefix: Path)
    ensures (Flat(scan.results, OutsideFailure(prefix)) == []
             && Flat(KeyOrder(prefix, scan.results), ExtraFailure(ListedPaths(inv.files))) == [])
      <==> AllListed(scan, inv, prefix)
  {
    var f, g := OutsideFailure(prefix), ExtraFailure(ListedPaths(inv.files));
    var order := KeyOrder(prefix, scan.results);
    FlatEmpty(scan.results, f);
    FlatEmpty(order, g);
    forall r | r in scan.results
      ensures Listed(inv, prefix, r) <==> f(r) == [] && Rel(prefix, r.path) in ListedPaths(inv.files)
    {
    }
    forall rel ensures rel in order <==> exists r :: r in scan.results && At(prefix, r, rel) {
      KeyOrderMeans(prefix, scan.results, rel);
    }
    assert forall rel :: g(rel) == [] <==> rel in ListedPaths(inv.files);
    if (forall r :: r in scan.results ==> f(r) == []) {
      assert forall r :: r in scan.results ==> At(prefix, r, Rel(prefix, r.path)) && Rel(prefix, r.path) in order;
    }
  }

  lemma FileClean(scan: Scan, prefix: Path, e: File, floor: string)
    requires DistinctResults(scan.results)
    ensures FileFailures(ByPath(prefix, scan.results), {}, floor)(e) == [] <==> Found(scan, prefix, e, floor)
  {
    var byPath := ByPath(prefix, scan.results);
    forall r | r in scan.results && At(prefix, r, e.path)
      ensures e.path in byPath && byPath[e.path] == r
    {
      ByPathHas(prefix, scan.results, e.path, r);
    }
    if e.path in byPath {
      ByPathFrom(prefix, scan.results, e.path);
      PresentMeans(e, byPath[e.path], floor);
    }
  }

  lemma FilesClean(scan: Scan, inv: Inventory, prefix: Path, floor: string)
    requires DistinctResults(scan.results)
    ensures Flat(inv.files, FileFailures(ByPath(prefix, scan.results), {}, floor)) == []
      <==> AllFound(scan, inv, prefix, floor)
  {
    FlatEmpty(inv.files, FileFailures(ByPath(prefix, scan.results), {}, floor));
    forall e | e in inv.files
      ensures FileFailures(ByPath(prefix, scan.results), {}, floor)(e) == [] <==> Found(scan, prefix, e, floor)
    {
      FileClean(scan, prefix, e, floor);
    }
  }

  lemma MembersClean(path: Path, members: seq<string>)
    ensures Flat(members, MemberFailure(path)) == [] <==> members == []
  {
    FlatEmpty(members, MemberFailure(path));
    if members != [] {
      assert members[0] in members && MemberFailure(path)(members[0]) != [];
    }
  }

  lemma ArchivesClean(asar: seq<Archive>)
    ensures Flat(asar, ArchiveFailures()) == [] <==> NothingPacked(asar)
  {
    FlatEmpty(asar, ArchiveFailures());
    forall a ensures ArchiveFailures()(a) == [] <==> a.elfMembers == [] && a.missingUnpacked == [] {
      MembersClean(a.path, a.elfMembers);
      MembersClean(a.path, a.missingUnpacked);
    }
  }

  lemma LinksClean(symlinks: seq<SymLink>)
    ensures Flat(symlinks, LinkFailure()) == [] <==> LinksResolve(symlinks)
  {
    FlatEmpty(symlinks, LinkFailure());
  }

  lemma AllEmpty(a: seq<Failure>, b: seq<Failure>, c: seq<Failure>, d: seq<Failure>, e: seq<Failure>, f: seq<Failure>)
    ensures a + b + c + d + e + f == [] <==> a == [] && b == [] && c == [] && d == [] && e == [] && f == []
  {
  }

  lemma FailuresEmpty(scan: Scan, inv: Inventory, prefix: Path, floor: string, declared: Declared, errored: set<Path>)
    requires errored == ErroredPaths(prefix, scan.errors)
    ensures Failures(scan, inv, prefix, floor, declared) == [] <==>
      && DeclaredFailures(declared, inv) == []
      && Flat(scan.results, OutsideFailure(prefix)) == []
      && Flat(KeyOrder(prefix, scan.results), ExtraFailure(ListedPaths(inv.files))) == []
      && Flat(inv.files, FileFailures(ByPath(prefix, scan.results), errored, floor)) == []
      && Flat(scan.asar, ArchiveFailures()) == []
      && Flat(scan.symlinks, LinkFailure()) == []
  {
    AllEmpty(DeclaredFailures(declared, inv),
      Flat(scan.results, OutsideFailure(prefix)),
      Flat(KeyOrder(prefix, scan.results), ExtraFailure(ListedPaths(inv.files))),
      Flat(inv.files, FileFailures(ByPath(prefix, scan.results), errored, floor)),
      Flat(scan.asar, ArchiveFailures()),
      Flat(scan.symlinks, LinkFailure()));
  }

  lemma DeclaredClean(declared: Declared, inv: Inventory)
    ensures DeclaredFailures(declared, inv) == [] <==> DeclaresRight(declared, inv)
  {
  }

  lemma NothingErrored(prefix: Path, errors: seq<Path>)
    requires errors == []
    ensures ErroredPaths(prefix, errors) == {}
  {
  }

  lemma {:induction false} NoFailureMeansClean(
      scan: Scan, inv: Inventory, prefix: Path, floor: string, declared: Declared)
    requires DistinctResults(scan.results) && scan.errors == []
    ensures Failures(scan, inv, prefix, floor, declared) == [] <==> Clean(scan, inv, prefix, floor, declared)
  {
    NothingErrored(prefix, scan.errors);
    FailuresEmpty(scan, inv, prefix, floor, declared, {});
    DeclaredClean(declared, inv);
    ResultsClean(scan, inv, prefix);
    FilesClean(scan, inv, prefix, floor);
    ArchivesClean(scan.asar);
    LinksClean(scan.symlinks);
  }

  /** A package passes exactly when nothing went unread, the declared floor is the inventory's, every ELF file is in the
      inventory and every entry of the inventory is there and agrees, with no version need above the floor where the
      floor applies, no archive hides a member and every link resolves. */
  lemma PassMeansClean(scan: Scan, inv: Inventory, prefix: Path, floor: string, declared: Declared)
    requires DistinctResults(scan.results)
    ensures StatusOf(scan, Failures(scan, inv, prefix, floor, declared)) == Pass
      <==> Clean(scan, inv, prefix, floor, declared)
  {
    if scan.errors == [] {
      NoFailureMeansClean(scan, inv, prefix, floor, declared);
    }
  }

  // ---------------------------------------------------------------- one to one

  function RelPaths(prefix: Path, results: seq<Record>): set<Path> {
    set r | r in results :: Rel(prefix, r.path)
  }

  lemma {:induction false} RelPathsCount(prefix: Path, results: seq<Record>)
    requires DistinctResults(results) && forall r :: r in results ==> !IsOutside(prefix, r.path)
    ensures |RelPaths(prefix, results)| == |results|
  {
    if results != [] {
      var before, last := results[..|results| - 1], results[|results| - 1];
      assert results == before + [last];
      RelPathsCount(prefix, before);
      forall r | r in before ensures Rel(prefix, r.path) != Rel(prefix, last.path) {
        AtMostOne(prefix, results, Rel(prefix, r.path), r);
      }
      assert RelPaths(prefix, results) == RelPaths(prefix, before) + {Rel(prefix, last.path)};
    }
  }

  lemma {:induction false} ListedPathsCount(files: seq<File>)
    requires DistinctFiles(files)
    ensures |ListedPaths(files)| == |files|
  {
    if files != [] {
      var before, last := files[..|files| - 1], files[|files| - 1];
      assert files == before + [last];
      ListedPathsCount(before);
      forall e | e in before ensures e.path != last.path {
        var i :| 0 <= i < |before| && before[i] == e;
        assert files[i].path != files[|files| - 1].path;
      }
      assert ListedPaths(files) == ListedPaths(before) + {last.path};
    }
  }

  lemma CleanPaths(scan: Scan, inv: Inventory, prefix: Path, floor: string)
    requires AllListed(scan, inv, prefix) && AllFound(scan, inv, prefix, floor)
    ensures RelPaths(prefix, scan.results) == ListedPaths(inv.files)
    ensures forall r :: r in scan.results ==> !IsOutside(prefix, r.path)
  {
    forall e | e in inv.files ensures e.path in RelPaths(prefix, scan.results) {
      assert Found(scan, prefix, e, floor);
    }
    forall r | r in scan.results ensures Rel(prefix, r.path) in ListedPaths(inv.files) && !IsOutside(prefix, r.path) {
      assert Listed(inv, prefix, r);
    }
  }

  /** In a package that passes, the ELF files and the entries of the inventory match one to one. */
  lemma {:induction false} PassIsOneToOne(scan: Scan, inv: Inventory, prefix: Path, floor: string, declared: Declared)
    requires DistinctResults(scan.results) && DistinctFiles(inv.files)
    requires StatusOf(scan, Failures(scan, inv, prefix, floor, declared)) == Pass
    ensures RelPaths(prefix, scan.results) == ListedPaths(inv.files)
    ensures |RelPaths(prefix, scan.results)| == |scan.results| == |inv.files|
  {
    PassMeansClean(scan, inv, prefix, floor, declared);
    CleanPaths(scan, inv, prefix, floor);
    RelPathsCount(prefix, scan.results);
    ListedPathsCount(inv.files);
  }

  // ---------------------------------------------------------------- the floor in the report

  lemma {:induction false} FlatHas<X>(xs: seq<X>, f: X -> seq<Failure>, fault: Failure)
    ensures fault in Flat(xs, f) <==> exists x :: x in xs && fault in f(x)
  {
    if xs != [] {
      var before, last := xs[..|xs| - 1], xs[|xs| - 1];
      FlatHas(before, f, fault);
      assert forall x :: x in xs <==> x in before || x == last;
    }
  }

  lemma FlatLacks<X>(xs: seq<X>, f: X -> seq<Failure>, fault: Failure)
    requires forall x :: fault !in f(x)
    ensures fault !in Flat(xs, f)
  {
    FlatHas(xs, f, fault);
  }

  lemma PackedLacksFloor(asar: seq<Archive>, path: Path)
    ensures Failure(FloorKind, path) !in Flat(asar, ArchiveFailures())
  {
    forall a ensures Failure(FloorKind, path) !in ArchiveFailures()(a) {
      FlatLacks(a.elfMembers, MemberFailure(a.path), Failure(FloorKind, path));
      FlatLacks(a.missingUnpacked, MemberFailure(a.path), Failure(FloorKind, path));
    }
    FlatLacks(asar, ArchiveFailures(), Failure(FloorKind, path));
  }

  lemma InAny(a: seq<Failure>, b: seq<Failure>, c: seq<Failure>, d: seq<Failure>, e: seq<Failure>, g: seq<Failure>,
      fault: Failure)
    requires fault !in b && fault !in c && fault !in e && fault !in g
    ensures fault in a + b + c + d + e + g <==> fault in a || fault in d
  {
  }

  /** Some single entry among the raw version needs is a GLIBC one, is not weak and is above the floor. */
  ghost predicate HardNeedAbove(r: Record, floor: string) {
    exists v :: Entry(GLIBC, v, false) in r.needs && Compare(Parts(v), Parts(floor)) > 0
  }

  /** `e` is the inventory's entry for `path`, the floor applies to it, and its file in the scan breaks the floor. */
  ghost predicate BreaksFloor(scan: Scan, prefix: Path, e: File, path: Path, floor: string) {
    e.path == path && FloorApplies(e)
    && exists r :: r in scan.results && At(prefix, r, path) && HardNeedAbove(r, floor)
  }

  lemma LastOnly(a: seq<Failure>, b: seq<Failure>, c: seq<Failure>, d: seq<Failure>, fault: Failure)
    requires fault !in a && fault !in b && fault !in c
    ensures fault in a + b + c + d <==> fault in d
  {
  }

  lemma ClassLacksFloor(e: File, r: Record, path: Path)
    ensures Failure(FloorKind, path) !in ClassFailures(e, r)
  {
  }

  lemma PresentFloor(e: File, r: Record, floor: string, path: Path)
    ensures Failure(FloorKind, path) in PresentFailures(e, r, floor)
      <==> e.path == path && FloorApplies(e) && HardNeedAbove(r, floor)
  {
    FloorTestIsExists(r.needs, floor);
    ClassLacksFloor(e, r, path);
    var above := AboveFloor(Summarized(r.needs), floor);
    assert above <==> HardNeedAbove(r, floor);
    LastOnly(When(e.sha256.Some? && e.sha256.value != r.sha256, Digest, e.path), ClassFailures(e, r),
      When(e.class_ == Supported && r.interp.Some? && r.interp.value != X86_64_INTERP, Interp, e.path),
      When(FloorApplies(e) && above, FloorKind, e.path), Failure(FloorKind, path));
  }

  lemma TheRecord(prefix: Path, results: seq<Record>, path: Path)
    requires DistinctResults(results)
    ensures path in ByPath(prefix, results) <==> exists r :: r in results && At(prefix, r, path)
    ensures forall r :: r in results && At(prefix, r, path) ==>
      path in ByPath(prefix, results) && ByPath(prefix, results)[path] == r
    ensures path in ByPath(prefix, results) ==>
      ByPath(prefix, results)[path] in results && At(prefix, ByPath(prefix, results)[path], path)
  {
    forall r | r in results && At(prefix, r, path)
      ensures path in ByPath(prefix, results) && ByPath(prefix, results)[path] == r
    {
      ByPathHas(prefix, results, path, r);
    }
    if path in ByPath(prefix, results) {
      ByPathFrom(prefix, results, path);
    }
  }

  lemma FileFloor(scan: Scan, prefix: Path, e: File, errored: set<Path>, floor: string, path: Path)
    requires DistinctResults(scan.results)
    ensures Failure(FloorKind, path) in FileFailures(ByPath(prefix, scan.results), errored, floor)(e)
      <==> BreaksFloor(scan, prefix, e, path, floor)
  {
    var byPath := ByPath(prefix, scan.results);
    TheRecord(prefix, scan.results, e.path);
    if e.path in byPath {
      PresentFloor(e, byPath[e.path], floor, path);
    }
  }

  lemma RestLacksFloor(scan: Scan, inv: Inventory, prefix: Path, path: Path)
    ensures Failure(FloorKind, path) !in Flat(scan.results, OutsideFailure(prefix))
    ensures Failure(FloorKind, path) !in Flat(KeyOrder(prefix, scan.results), ExtraFailure(ListedPaths(inv.files)))
    ensures Failure(FloorKind, path) !in Flat(scan.symlinks, LinkFailure())
  {
    FlatLacks(scan.results, OutsideFailure(prefix), Failure(FloorKind, path));
    FlatLacks(KeyOrder(prefix, scan.results), ExtraFailure(ListedPaths(inv.files)), Failure(FloorKind, path));
    FlatLacks(scan.symlinks, LinkFailure(), Failure(FloorKind, path));
  }

  lemma FilesFloor(scan: Scan, inv: Inventory, prefix: Path, errored: set<Path>, floor: string, path: Path)
    requires DistinctResults(scan.results)
    ensures Failure(FloorKind, path) in Flat(inv.files, FileFailures(ByPath(prefix, scan.results), errored, floor))
      <==> FloorIsBroken(scan, inv, prefix, path, floor)
  {
    var f := FileFailures(ByPath(prefix, scan.results), errored, floor);
    FlatHas(inv.files, f, Failure(FloorKind, path));
    forall e ensures Failure(FloorKind, path) in f(e) <==> BreaksFloor(scan, prefix, e, path, floor) {
      FileFloor(scan, prefix, e, errored, floor, path);
    }
  }

  ghost predicate FloorIsBroken(scan: Scan, inv: Inventory, prefix: Path, path: Path, floor: string) {
    exists e :: e in inv.files && BreaksFloor(scan, prefix, e, path, floor)
  }

  /** The report says that the floor is broken at a path exactly when the inventory lists that path, the floor applies
      to it, and the file that the scan has there needs some version above it. The one other floor failure, without a
      path, is that the package does not declare the floor of the inventory. */
  lemma FloorFailureReported(
      scan: Scan, inv: Inventory, prefix: Path, floor: string, declared: Declared, path: Path)
    requires DistinctResults(scan.results)
    ensures Failure(FloorKind, path) in Failures(scan, inv, prefix, floor, declared) <==>
      FloorIsBroken(scan, inv, prefix, path, floor) || (path == [] && !DeclaresRight(declared, inv))
  {
    var errored := ErroredPaths(prefix, scan.errors);
    FilesFloor(scan, inv, prefix, errored, floor, path);
    RestLacksFloor(scan, inv, prefix, path);
    PackedLacksFloor(scan.asar, path);
    InAny(DeclaredFailures(declared, inv), Flat(scan.results, OutsideFailure(prefix)),
      Flat(KeyOrder(prefix, scan.results), ExtraFailure(ListedPaths(inv.files))),
      Flat(inv.files, FileFailures(ByPath(prefix, scan.results), errored, floor)),
      Flat(scan.asar, ArchiveFailures()), Flat(scan.symlinks, LinkFailure()), Failure(FloorKind, path));
  }
}
