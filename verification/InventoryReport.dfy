/** What each failure in the report of scripts/linux-native-scan.js says, and in which order they come. */
module InventoryReport {
  import Versions
  import opened Inventory
  import Resolver

  // ---------------------------------------------------------------- inside and outside of the prefix

  lemma {:induction false} SharedWith(prefix: Path, p: Path)
    ensures Shared(prefix, p) == |prefix| <==> prefix <= p
  {
    if prefix != [] && p != [] && prefix[0] == p[0] {
      SharedWith(prefix[1..], p[1..]);
      assert prefix == [prefix[0]] + prefix[1..] && p == [p[0]] + p[1..];
      assert prefix <= p <==> prefix[1..] <= p[1..];
    }
  }

  /** Under a prefix a path is what follows it. What is not under it is outside, and so is a path whose first component
      after it starts with two dots. */
  lemma OutsideMeans(prefix: Path, p: Path)
    ensures IsOutside(prefix, p) <==>
      prefix != [] && (!(prefix <= p) || (|prefix| < |p| && ".." <= p[|prefix|]))
    ensures prefix <= p ==> Rel(prefix, p) == p[|prefix|..]
  {
    SharedWith(prefix, p);
    if prefix <= p {
      assert Relative(prefix, p) == p[|prefix|..];
    } else {
      ShortIsOutside(prefix, p);
    }
  }

  // ---------------------------------------------------------------- what is reported

  /** What is wrong with a file that is there, as far as its entry says. */
  ghost predicate Disagrees(e: File, r: Record, floor: string, kind: Kind) {
    var selectable := r.x64 && r.libc == Glibc;
    || (kind == Digest && e.sha256.Some? && e.sha256.value != r.sha256)
    || (kind == ClassKind && e.class_ == Foreign && selectable)
    || (kind == ClassKind && e.class_ == Dormant && !selectable)
    || (kind == ClassKind && e.class_ == Supported && !selectable && !(r.x64 && r.libc == Static))
    || (kind == Interp && e.class_ == Supported && r.interp.Some? && r.interp.value != X86_64_INTERP)
    || (kind == FloorKind && (e.class_ == Supported || e.prebuildsOnly) && HardNeedAbove(r, floor))
  }

  /** The scan has a file at that place under the prefix. */
  ghost predicate Scanned(scan: Scan, prefix: Path, path: Path) {
    exists r :: r in scan.results && At(prefix, r, path)
  }

  ghost predicate Unread(scan: Scan, prefix: Path, path: Path) {
    exists p :: p in scan.errors && Rel(prefix, p) == path
  }

  ghost predicate EntryFault(scan: Scan, prefix: Path, e: File, floor: string, kind: Kind) {
    if Scanned(scan, prefix, e.path)
    then exists r :: r in scan.results && At(prefix, r, e.path) && Disagrees(e, r, floor, kind)
    else kind == Missing && !Unread(scan, prefix, e.path)
  }

  ghost predicate FileFault(scan: Scan, inv: Inventory, prefix: Path, floor: string, fault: Failure) {
    exists e :: e in inv.files && e.path == fault.path && EntryFault(scan, prefix, e, floor, fault.kind)
  }

  ghost predicate DeclaredFault(declared: Declared, inv: Inventory, fault: Failure) {
    && fault == Failure(FloorKind, [])
    && (declared == Absent || exists version :: declared == Floor(version) && version != inv.glibcFloor)
  }

  ghost predicate OutsideFault(scan: Scan, prefix: Path, fault: Failure) {
    fault.kind == Extra && exists r :: r in scan.results && IsOutside(prefix, r.path) && r.path == fault.path
  }

  ghost predicate ExtraFault(scan: Scan, inv: Inventory, prefix: Path, fault: Failure) {
    && fault.kind == Extra && Scanned(scan, prefix, fault.path)
    && forall e :: e in inv.files ==> e.path != fault.path
  }

  ghost predicate PackedFault(asar: seq<Archive>, fault: Failure) {
    && fault.kind == Asar
    && exists a, member :: a in asar && (member in a.elfMembers || member in a.missingUnpacked)
         && fault.path == a.path + [member]
  }

  ghost predicate LinkFault(symlinks: seq<SymLink>, fault: Failure) {
    && fault.kind == SymlinkKind
    && exists l :: l in symlinks && l.status != Resolver.Ok && l.path == fault.path
  }

  lemma DeclaredHas(declared: Declared, inv: Inventory, fault: Failure)
    ensures fault in DeclaredFailures(declared, inv) <==> DeclaredFault(declared, inv, fault)
  {
    if declared.Floor? {
      assert declared == Floor(declared.version);
    }
  }

  lemma OutsideHas(scan: Scan, prefix: Path, fault: Failure)
    ensures fault in Flat(scan.results, OutsideFailure(prefix)) <==> OutsideFault(scan, prefix, fault)
  {
    FlatHas(scan.results, OutsideFailure(prefix), fault);
  }

  lemma ExtraHas(scan: Scan, inv: Inventory, prefix: Path, fault: Failure)
    ensures fault in Flat(KeyOrder(prefix, scan.results), ExtraFailure(ListedPaths(inv.files)))
      <==> ExtraFault(scan, inv, prefix, fault)
  {
    FlatHas(KeyOrder(prefix, scan.results), ExtraFailure(ListedPaths(inv.files)), fault);
    KeyOrderMeans(prefix, scan.results, fault.path);
    assert fault.path in ListedPaths(inv.files) <==> exists e :: e in inv.files && e.path == fault.path;
  }

  lemma InFour(a: seq<Failure>, b: seq<Failure>, c: seq<Failure>, d: seq<Failure>, fault: Failure)
    ensures fault in a + b + c + d <==> fault in a || fault in b || fault in c || fault in d
  {
  }

  lemma PresentHas(e: File, r: Record, floor: string, fault: Failure)
    ensures fault in PresentFailures(e, r, floor) <==> fault.path == e.path && Disagrees(e, r, floor, fault.kind)
  {
    Versions.FloorTestIsExists(r.needs, floor);
    var above := Versions.AboveFloor(Versions.Summarized(r.needs), floor);
    assert above <==> HardNeedAbove(r, floor);
    ClassHas(e, r, fault);
    InFour(When(e.sha256.Some? && e.sha256.value != r.sha256, Digest, e.path), ClassFailures(e, r),
      When(e.class_ == Supported && r.interp.Some? && r.interp.value != X86_64_INTERP, Interp, e.path),
      When(FloorApplies(e) && above, FloorKind, e.path), fault);
  }

  lemma ClassHas(e: File, r: Record, fault: Failure)
    ensures fault in ClassFailures(e, r) <==>
      fault == Failure(ClassKind, e.path) && Disagrees(e, r, "", ClassKind)
  {
  }

  lemma EntryHas(scan: Scan, prefix: Path, e: File, floor: string, fault: Failure)
    requires DistinctResults(scan.results)
    ensures fault in FileFailures(ByPath(prefix, scan.results), ErroredPaths(prefix, scan.errors), floor)(e)
      <==> fault.path == e.path && EntryFault(scan, prefix, e, floor, fault.kind)
  {
    TheRecord(prefix, scan.results, e.path);
    var byPath := ByPath(prefix, scan.results);
    if e.path in byPath {
      var r := byPath[e.path];
      PresentHas(e, r, floor, fault);
      assert r in scan.results && At(prefix, r, e.path);
    } else {
      assert e.path in ErroredPaths(prefix, scan.errors) <==> Unread(scan, prefix, e.path);
    }
  }

  lemma FilesHave(scan: Scan, inv: Inventory, prefix: Path, floor: string, fault: Failure)
    requires DistinctResults(scan.results)
    ensures fault in
      Flat(inv.files, FileFailures(ByPath(prefix, scan.results), ErroredPaths(prefix, scan.errors), floor))
      <==> FileFault(scan, inv, prefix, floor, fault)
  {
    var f := FileFailures(ByPath(prefix, scan.results), ErroredPaths(prefix, scan.errors), floor);
    FlatHas(inv.files, f, fault);
    forall e ensures fault in f(e) <==> fault.path == e.path && EntryFault(scan, prefix, e, floor, fault.kind) {
      EntryHas(scan, prefix, e, floor, fault);
    }
  }

  lemma MembersHave(path: Path, members: seq<string>, fault: Failure)
    ensures fault in Flat(members, MemberFailure(path))
      <==> fault.kind == Asar && exists m :: m in members && fault.path == path + [m]
  {
    FlatHas(members, MemberFailure(path), fault);
  }

  lemma PackedHas(asar: seq<Archive>, fault: Failure)
    ensures fault in Flat(asar, ArchiveFailures()) <==> PackedFault(asar, fault)
  {
    FlatHas(asar, ArchiveFailures(), fault);
    forall a ensures fault in ArchiveFailures()(a) <==> (fault.kind == Asar && exists m ::
        (m in a.elfMembers || m in a.missingUnpacked) && fault.path == a.path + [m]) {
      MembersHave(a.path, a.elfMembers, fault);
      MembersHave(a.path, a.missingUnpacked, fault);
    }
  }

  lemma LinkHas(symlinks: seq<SymLink>, fault: Failure)
    ensures fault in Flat(symlinks, LinkFailure()) <==> LinkFault(symlinks, fault)
  {
    FlatHas(symlinks, LinkFailure(), fault);
  }

  lemma InSix(a: seq<Failure>, b: seq<Failure>, c: seq<Failure>, d: seq<Failure>, e: seq<Failure>, g: seq<Failure>,
      fault: Failure)
    ensures fault in a + b + c + d + e + g
      <==> fault in a || fault in b || fault in c || fault in d || fault in e || fault in g
  {
  }

  /** Every failure of a report, of every kind, and nothing else: each stands for something that is wrong with the
      package, and each thing that is wrong is reported. */
  lemma ReportMeans(scan: Scan, inv: Inventory, prefix: Path, floor: string, declared: Declared, fault: Failure)
    requires DistinctResults(scan.results)
    ensures fault in Failures(scan, inv, prefix, floor, declared) <==> (
      || DeclaredFault(declared, inv, fault)
      || OutsideFault(scan, prefix, fault)
      || ExtraFault(scan, inv, prefix, fault)
      || FileFault(scan, inv, prefix, floor, fault)
      || PackedFault(scan.asar, fault)
      || LinkFault(scan.symlinks, fault))
  {
    DeclaredHas(declared, inv, fault);
    OutsideHas(scan, prefix, fault);
    ExtraHas(scan, inv, prefix, fault);
    FilesHave(scan, inv, prefix, floor, fault);
    PackedHas(scan.asar, fault);
    LinkHas(scan.symlinks, fault);
    var errored := ErroredPaths(prefix, scan.errors);
    InSix(DeclaredFailures(declared, inv), Flat(scan.results, OutsideFailure(prefix)),
      Flat(KeyOrder(prefix, scan.results), ExtraFailure(ListedPaths(inv.files))),
      Flat(inv.files, FileFailures(ByPath(prefix, scan.results), errored, floor)),
      Flat(scan.asar, ArchiveFailures()), Flat(scan.symlinks, LinkFailure()), fault);
  }

  // ---------------------------------------------------------------- the order

  /** Where a failure of that kind stands; a floor failure may stand first, or with the files. */
  function Rank(kind: Kind): nat {
    match kind
    case FloorKind => 0
    case Extra => 1
    case Missing => 2
    case Digest => 2
    case ClassKind => 2
    case Interp => 2
    case Asar => 3
    case SymlinkKind => 4
  }

  ghost predicate InOrder(fs: seq<Failure>) {
    forall i, j :: 0 <= i < j < |fs| && fs[i].kind != FloorKind && fs[j].kind != FloorKind ==>
      Rank(fs[i].kind) <= Rank(fs[j].kind)
  }

  ghost predicate Within(fs: seq<Failure>, low: nat, high: nat) {
    forall k :: 0 <= k < |fs| && fs[k].kind != FloorKind ==> low <= Rank(fs[k].kind) <= high
  }

  lemma Follows(a: seq<Failure>, b: seq<Failure>, low: nat, mid: nat, high: nat)
    requires InOrder(a) && Within(a, low, mid) && Within(b, high, high) && low <= mid <= high
    ensures InOrder(a + b) && Within(a + b, low, high)
  {
  }

  lemma SixFollow(
      a: seq<Failure>, b: seq<Failure>, c: seq<Failure>, d: seq<Failure>, e: seq<Failure>, g: seq<Failure>)
    requires InOrder(a) && Within(a, 1, 1) && Within(b, 1, 1) && Within(c, 1, 1)
    requires Within(d, 2, 2) && Within(e, 3, 3) && Within(g, 4, 4)
    ensures InOrder(a + b + c + d + e + g)
  {
    Follows(a, b, 1, 1, 1);
    Follows(a + b, c, 1, 1, 1);
    Follows(a + b + c, d, 1, 1, 2);
    Follows(a + b + c + d, e, 1, 2, 3);
    Follows(a + b + c + d + e, g, 1, 3, 4);
  }

  lemma {:induction false} FlatWithin<X>(xs: seq<X>, f: X -> seq<Failure>, rank: nat)
    requires forall x :: Within(f(x), rank, rank)
    ensures Within(Flat(xs, f), rank, rank)
  {
    if xs != [] {
      FlatWithin(xs[..|xs| - 1], f, rank);
      assert Within(f(xs[|xs| - 1]), rank, rank);
    }
  }

  /** No more than one failure, of that kind. */
  ghost predicate Single(fs: seq<Failure>, kind: Kind) {
    |fs| <= 1 && (fs != [] ==> fs[0].kind == kind)
  }

  lemma ClassSingle(e: File, r: Record)
    ensures Single(ClassFailures(e, r), ClassKind)
  {
  }

  lemma PresentParts(e: File, r: Record, floor: string)
      returns (a: seq<Failure>, b: seq<Failure>, c: seq<Failure>, d: seq<Failure>)
    ensures PresentFailures(e, r, floor) == a + b + c + d
    ensures Single(a, Digest) && Single(b, ClassKind) && Single(c, Interp) && Single(d, FloorKind)
  {
    ClassSingle(e, r);
    a := When(e.sha256.Some? && e.sha256.value != r.sha256, Digest, e.path);
    b := ClassFailures(e, r);
    c := When(e.class_ == Supported && r.interp.Some? && r.interp.value != X86_64_INTERP, Interp, e.path);
    d := When(FloorApplies(e) && Versions.AboveFloor(Versions.Summarized(r.needs), floor), FloorKind, e.path);
  }

  lemma FourWithin(a: seq<Failure>, b: seq<Failure>, c: seq<Failure>, d: seq<Failure>)
    requires Single(a, Digest) && Single(b, ClassKind) && Single(c, Interp) && Single(d, FloorKind)
    ensures Within(a + b + c + d, 2, 2)
  {
    assert Within(a + b, 2, 2);
    assert Within(a + b + c, 2, 2);
  }

  lemma PresentRank(e: File, r: Record, floor: string)
    ensures Within(PresentFailures(e, r, floor), 2, 2)
  {
    var a, b, c, d := PresentParts(e, r, floor);
    FourWithin(a, b, c, d);
  }

  lemma EntryRank(byPath: map<Path, Record>, errored: set<Path>, floor: string, e: File)
    ensures Within(FileFailures(byPath, errored, floor)(e), 2, 2)
  {
    if e.path in byPath {
      PresentRank(e, byPath[e.path], floor);
    }
  }

  lemma ArchiveRank(a: Archive)
    ensures Within(ArchiveFailures()(a), 3, 3)
  {
    FlatWithin(a.elfMembers, MemberFailure(a.path), 3);
    FlatWithin(a.missingUnpacked, MemberFailure(a.path), 3);
  }

  lemma ExtrasRank(scan: Scan, inv: Inventory, prefix: Path)
    ensures Within(Flat(scan.results, OutsideFailure(prefix)), 1, 1)
    ensures Within(Flat(KeyOrder(prefix, scan.results), ExtraFailure(ListedPaths(inv.files))), 1, 1)
  {
    FlatWithin(scan.results, OutsideFailure(prefix), 1);
    FlatWithin(KeyOrder(prefix, scan.results), ExtraFailure(ListedPaths(inv.files)), 1);
  }

  lemma FilesRank(files: seq<File>, byPath: map<Path, Record>, errored: set<Path>, floor: string)
    ensures Within(Flat(files, FileFailures(byPath, errored, floor)), 2, 2)
  {
    forall x ensures Within(FileFailures(byPath, errored, floor)(x), 2, 2) {
      EntryRank(byPath, errored, floor, x);
    }
    FlatWithin(files, FileFailures(byPath, errored, floor), 2);
  }

  lemma OthersRank(asar: seq<Archive>, symlinks: seq<SymLink>)
    ensures Within(Flat(asar, ArchiveFailures()), 3, 3)
    ensures Within(Flat(symlinks, LinkFailure()), 4, 4)
  {
    forall x ensures Within(ArchiveFailures()(x), 3, 3) {
      ArchiveRank(x);
    }
    FlatWithin(asar, ArchiveFailures(), 3);
    FlatWithin(symlinks, LinkFailure(), 4);
  }

  lemma DeclaredRank(declared: Declared, inv: Inventory)
    ensures InOrder(DeclaredFailures(declared, inv)) && Within(DeclaredFailures(declared, inv), 1, 1)
  {
  }

  /** Files that are too many come first, then what is wrong entry by entry, then archives, and links last. */
  lemma ReportOrder(scan: Scan, inv: Inventory, prefix: Path, floor: string, declared: Declared)
    ensures InOrder(Failures(scan, inv, prefix, floor, declared))
  {
    var errored := ErroredPaths(prefix, scan.errors);
    var byPath := ByPath(prefix, scan.results);
    DeclaredRank(declared, inv);
    ExtrasRank(scan, inv, prefix);
    FilesRank(inv.files, byPath, errored, floor);
    OthersRank(scan.asar, scan.symlinks);
    SixFollow(DeclaredFailures(declared, inv), Flat(scan.results, OutsideFailure(prefix)),
      Flat(KeyOrder(prefix, scan.results), ExtraFailure(ListedPaths(inv.files))),
      Flat(inv.files, FileFailures(byPath, errored, floor)),
      Flat(scan.asar, ArchiveFailures()), Flat(scan.symlinks, LinkFailure()));
  }

  /** Within a section the failures come in the order of what they are about. */
  lemma {:induction false} SectionOrder<X>(before: seq<X>, x: X, after: seq<X>, f: X -> seq<Failure>)
    ensures Flat(before + [x] + after, f) == Flat(before, f) + f(x) + Flat(after, f)
    decreases |after|
  {
    var xs := before + [x] + after;
    if after == [] {
      assert xs[..|xs| - 1] == before;
    } else {
      assert xs[..|xs| - 1] == before + [x] + after[..|after| - 1];
      SectionOrder(before, x, after[..|after| - 1], f);
    }
  }

  /** Each extra file is reported once. */
  lemma {:induction false} KeysOnce(prefix: Path, results: seq<Record>, i: nat, j: nat)
    requires i < j < |KeyOrder(prefix, results)|
    ensures KeyOrder(prefix, results)[i] != KeyOrder(prefix, results)[j]
  {
    var before := KeyOrder(prefix, results[..|results| - 1]);
    if j < |before| {
      KeysOnce(prefix, results[..|results| - 1], i, j);
    } else {
      assert before[i] in before;
    }
  }

  ghost predicate EntryOrdered(fs: seq<Failure>) {
    forall i, j :: 0 <= i < j < |fs| ==> (
      || (fs[i].kind == Digest && fs[j].kind in {ClassKind, Interp, FloorKind})
      || (fs[i].kind == ClassKind && fs[j].kind in {Interp, FloorKind})
      || (fs[i].kind == Interp && fs[j].kind == FloorKind))
  }

  lemma FourOrdered(a: seq<Failure>, b: seq<Failure>, c: seq<Failure>, d: seq<Failure>)
    requires Single(a, Digest) && Single(b, ClassKind) && Single(c, Interp) && Single(d, FloorKind)
    ensures EntryOrdered(a + b + c + d)
  {
    assert EntryOrdered(a + b);
    assert EntryOrdered(a + b + c);
  }

  /** What is wrong with one file comes as digest, class, interpreter, floor, each at most once. */
  lemma EntryOrder(e: File, r: Record, floor: string)
    ensures EntryOrdered(PresentFailures(e, r, floor))
  {
    var a, b, c, d := PresentParts(e, r, floor);
    FourOrdered(a, b, c, d);
  }
}
