/** `restore_protected_entries` of ops/dependency-repair/lock-contract.py. */
module LockRestore {
  import opened Lockfile

  const HELPER := "node_modules/@babel/helper-plugin-utils"
  const JSX := "node_modules/@babel/plugin-syntax-jsx"
  const TYPESCRIPT := "node_modules/@babel/plugin-syntax-typescript"
  const JEST_ROOTS := ["jest", "babel-jest"]

  datatype Outcome =
    | Restored(lock: Packages, restored: Packages, isolated: Packages)
    | RootMissing
    | JestHelperScope
    | HelperAlreadyNested
    | HelperMissing

  function Production(lock: Packages): Packages {
    map p | p in lock && p != "" && !lock[p].dev :: lock[p]
  }

  /** Every root resolves. */
  ghost predicate RootsResolve(lock: Packages, roots: seq<string>) {
    forall name :: name in roots ==> Resolve(lock.Keys, "", name).Some?
  }

  ghost function WantedEntries(lock: Packages, roots: seq<string>): Packages {
    map p | p in lock && Wanted(lock, roots, p) :: lock[p]
  }

  /** What must stay as it was: production packages, and everything that the other roots reach. */
  ghost function Protected(original: Packages, roots: seq<string>): Packages {
    Production(original) + WantedEntries(original, roots)
  }

  function Differing(protected: Packages, lock: Packages): Packages {
    map p | p in protected && (p !in lock || lock[p] != protected[p]) :: protected[p]
  }

  function NestedIn(parent: string): string {
    parent + "/" + HELPER
  }

  /** What has to stay: a production package, or one that the other roots reach. */
  ghost predicate Stays(original: Packages, roots: seq<string>, p: string) {
    p in original && ((p != "" && !original[p].dev) || Wanted(original, roots, p))
  }

  /** The helper has to stay, and was not generated as it was. */
  ghost predicate HelperPutBack(original: Packages, roots: seq<string>, generated: Packages) {
    && Stays(original, roots, HELPER)
    && (HELPER !in generated || generated[HELPER] != original[HELPER])
  }

  lemma StaysIsProtected(original: Packages, roots: seq<string>, generated: Packages)
    ensures forall p :: p in Protected(original, roots) <==> Stays(original, roots, p)
    ensures forall p :: p in Protected(original, roots) ==> Protected(original, roots)[p] == original[p]
    ensures HELPER in Differing(Protected(original, roots), generated) <==> HelperPutBack(original, roots, generated)
  {
  }

  /** A parent that needs the helper as it was generated can be given a copy of its own. */
  ghost predicate CanNest(protected: Packages, generated: Packages, parent: string) {
    parent in generated ==>
      && parent !in protected && RootsResolve(generated, JEST_ROOTS) && Wanted(generated, JEST_ROOTS, parent)
      && NestedIn(parent) !in generated && NestedIn(parent) !in protected && HELPER in generated
  }

  ghost predicate CanRestore(original: Packages, roots: seq<string>, generated: Packages) {
    && RootsResolve(original, roots)
    && (HELPER in Differing(Protected(original, roots), generated) ==>
          CanNest(Protected(original, roots), generated, JSX)
          && CanNest(Protected(original, roots), generated, TYPESCRIPT))
  }

  /** The parent need not stay itself, is one of Jest's own packages, and has not got the helper already. */
  ghost predicate MayNest(original: Packages, roots: seq<string>, generated: Packages, parent: string) {
    && !Stays(original, roots, parent) && Wanted(generated, JEST_ROOTS, parent)
    && (forall name :: name in JEST_ROOTS ==> Resolve(generated.Keys, "", name).Some?)
    && parent + "/" + HELPER !in generated && !Stays(original, roots, parent + "/" + HELPER)
    && HELPER in generated
  }

  lemma MayNestIsCanNest(original: Packages, roots: seq<string>, generated: Packages, parent: string)
    ensures CanNest(Protected(original, roots), generated, parent)
      <==> (parent in generated ==> MayNest(original, roots, generated, parent))
  {
    StaysIsProtected(original, roots, generated);
  }

  /** Spelled out: when the helper is put back, each of the two parents that was generated must be able to nest it. */
  lemma CanRestoreMeans(original: Packages, roots: seq<string>, generated: Packages)
    ensures CanRestore(original, roots, generated) <==> (
      && (forall name :: name in roots ==> Resolve(original.Keys, "", name).Some?)
      && (HelperPutBack(original, roots, generated) ==>
            forall parent :: (parent == JSX || parent == TYPESCRIPT) && parent in generated ==>
              MayNest(original, roots, generated, parent)))
  {
    StaysIsProtected(original, roots, generated);
    MayNestIsCanNest(original, roots, generated, JSX);
    MayNestIsCanNest(original, roots, generated, TYPESCRIPT);
  }

  /** What a parent is refused for: the first of the reasons that applies. */
  ghost predicate FirstReason(stays: bool, resolved: bool, ours: bool, nested: bool, helper: bool, why: Outcome) {
    && (why.JestHelperScope? ==> stays || (resolved && !ours))
    && (why.RootMissing? ==> !stays && !resolved)
    && (why.HelperAlreadyNested? ==> !stays && resolved && ours && nested)
    && (why.HelperMissing? ==> !stays && resolved && ours && !nested && !helper)
    && !why.Restored?
  }

  /** A parent that cannot be given its copy, and what the caller is told. */
  ghost predicate Refused(original: Packages, roots: seq<string>, generated: Packages, parent: string, why: Outcome) {
    && HelperPutBack(original, roots, generated) && parent in generated
    && FirstReason(Stays(original, roots, parent), RootsResolve(generated, JEST_ROOTS),
                   Wanted(generated, JEST_ROOTS, parent),
                   NestedIn(parent) in generated || Stays(original, roots, NestedIn(parent)), HELPER in generated, why)
  }

  /** The copy for a parent that is there, when the helper itself was put back. */
  function CopyFor(protected: Packages, generated: Packages, parent: string): Packages {
    if HELPER in Differing(protected, generated) && parent in generated && HELPER in generated
    then map[NestedIn(parent) := generated[HELPER]] else map[]
  }

  function Copies(protected: Packages, generated: Packages): Packages {
    CopyFor(protected, generated, JSX) + CopyFor(protected, generated, TYPESCRIPT)
  }

  function EntriesOf(graph: map<string, Lockfile.Resolved>): Packages {
    map p | p in graph :: graph[p].entry
  }

  lemma GraphIsWanted(lock: Packages, roots: seq<string>, graph: map<string, Lockfile.Resolved>)
    requires (forall p :: p in graph <==> Wanted(lock, roots, p)) && NodesRight(lock, graph)
    ensures EntriesOf(graph) == WantedEntries(lock, roots)
  {
  }

  method ProtectedEntries(original: Packages, roots: seq<string>) returns (protected: Option<Packages>)
    ensures protected.Some? <==> RootsResolve(original, roots)
    ensures protected.Some? ==> protected.value == Protected(original, roots)
  {
    var graph := ResolvedGraph(original, roots);
    if graph.None? {
      return None;
    }
    GraphIsWanted(original, roots, graph.value);
    return Some(Production(original) + EntriesOf(graph.value));
  }

  lemma PutOne(done: Packages, generated: Packages, path: string, entry: Entry)
    requires path !in done
    ensures generated + done[path := entry] == (generated + done)[path := entry]
    ensures path in generated && generated[path] == entry ==>
      generated + done[path := entry] == generated + done
      && Differing(done[path := entry], generated) == Differing(done, generated)
    ensures !(path in generated && generated[path] == entry) ==>
      Differing(done[path := entry], generated) == Differing(done, generated)[path := entry]
  {
  }

  /** The loop that puts back what differs. */
  method PutBack(protected: Packages, generated: Packages) returns (lock: Packages, restored: Packages)
    ensures lock == generated + protected && restored == Differing(protected, generated)
  {
    lock, restored := generated, map[];
    ghost var done: Packages := map[];
    var left := protected.Keys;
    while left != {}
      invariant left <= protected.Keys && done.Keys == protected.Keys - left
      invariant forall p :: p in done ==> done[p] == protected[p]
      invariant lock == generated + done && restored == Differing(done, generated)
    {
      var path :| path in left;
      PutOne(done, generated, path, protected[path]);
      if path !in lock || lock[path] != protected[path] {
        lock := lock[path := protected[path]];
        restored := restored[path := protected[path]];
      }
      done := done[path := protected[path]];
      left := left - {path};
    }
    assert done == protected;
  }

  datatype Nesting = Nested(copies: Packages) | CannotNest(why: Outcome)

  ghost predicate Allowed(protected: Packages, generated: Packages, parent: string) {
    HELPER in Differing(protected, generated) ==> CanNest(protected, generated, parent)
  }

  method AskParent(protected: Packages, generated: Packages, parent: string, nested: string, helper: string)
      returns (n: Nesting)
    ensures n.Nested? <==>
      && parent !in protected && RootsResolve(generated, JEST_ROOTS) && Wanted(generated, JEST_ROOTS, parent)
      && nested !in generated && nested !in protected && helper in generated
    ensures n.Nested? ==> n.copies == map[nested := generated[helper]]
    ensures n.CannotNest? ==>
      FirstReason(parent in protected, RootsResolve(generated, JEST_ROOTS), Wanted(generated, JEST_ROOTS, parent),
                  nested in generated || nested in protected, helper in generated, n.why)
  {
    if parent in protected {
      return CannotNest(JestHelperScope);
    }
    var graph := ResolvedGraph(generated, JEST_ROOTS);
    if graph.None? {
      return CannotNest(RootMissing);
    }
    if parent !in graph.value {
      return CannotNest(JestHelperScope);
    }
    if nested in generated || nested in protected {
      return CannotNest(HelperAlreadyNested);
    }
    if helper !in generated {
      return CannotNest(HelperMissing);
    }
    return Nested(map[nested := generated[helper]]);
  }

  /** One turn of the loop over the two parents. */
  method NestHelper(
      protected: Packages, generated: Packages, parent: string, ghost original: Packages, ghost roots: seq<string>)
      returns (n: Nesting)
    requires protected == Protected(original, roots)
    ensures n.Nested? <==> Allowed(protected, generated, parent)
    ensures n.Nested? ==> n.copies == CopyFor(protected, generated, parent)
    ensures n.CannotNest? ==> Refused(original, roots, generated, parent, n.why)
  {
    StaysIsProtected(original, roots, generated);
    if HELPER !in Differing(protected, generated) || parent !in generated {
      return Nested(map[]);
    }
    n := AskParent(protected, generated, parent, NestedIn(parent), HELPER);
  }

  /** Refused exactly when a root is missing or a parent that needs its own copy of the helper cannot have one.
      Otherwise the lockfile is the generated one with every protected entry as it was and those copies added. */
  method RestoreProtectedEntries(original: Packages, roots: seq<string>, generated: Packages) returns (r: Outcome)
    ensures r.Restored? <==> CanRestore(original, roots, generated)
    ensures !r.Restored? ==>
      || (r.RootMissing? && !RootsResolve(original, roots))
      || (RootsResolve(original, roots) && Refused(original, roots, generated, JSX, r))
      || (RootsResolve(original, roots) && Refused(original, roots, generated, TYPESCRIPT, r)
          && Allowed(Protected(original, roots), generated, JSX))
    ensures r.Restored? ==>
      && r.lock == Mended(Protected(original, roots), generated)
      && r.restored == Differing(Protected(original, roots), generated)
      && r.isolated == Copies(Protected(original, roots), generated)
  {
    var found := ProtectedEntries(original, roots);
    if found.None? {
      return RootMissing;
    }
    var protected := found.value;
    var lock, restored := PutBack(protected, generated);
    var first := NestHelper(protected, generated, JSX, original, roots);
    if first.CannotNest? {
      return first.why;
    }
    var second := NestHelper(protected, generated, TYPESCRIPT, original, roots);
    if second.CannotNest? {
      return second.why;
    }
    var isolated := first.copies + second.copies;
    return Restored(lock + isolated, restored, isolated);
  }

  // ---------------------------------------------------------------- what the result keeps

  lemma CopiesNew(protected: Packages, generated: Packages, p: string)
    requires Allowed(protected, generated, JSX) && Allowed(protected, generated, TYPESCRIPT)
    requires p in Copies(protected, generated)
    ensures p !in generated && p !in protected
    ensures exists parent :: (parent == JSX || parent == TYPESCRIPT) && p == NestedIn(parent) && parent in generated
  {
    if p in CopyFor(protected, generated, JSX) {
      assert p == NestedIn(JSX);
    } else {
      assert p == NestedIn(TYPESCRIPT);
    }
  }

  function Mended(protected: Packages, generated: Packages): Packages {
    generated + protected + Copies(protected, generated)
  }

  lemma MendedAt(protected: Packages, generated: Packages, p: string)
    requires Allowed(protected, generated, JSX) && Allowed(protected, generated, TYPESCRIPT)
    ensures p in protected ==> p in Mended(protected, generated) && Mended(protected, generated)[p] == protected[p]
    ensures p in generated && p !in protected ==>
      p in Mended(protected, generated) && Mended(protected, generated)[p] == generated[p]
    ensures p in Mended(protected, generated) && p !in protected && p !in generated ==>
      HELPER in generated && Mended(protected, generated)[p] == generated[HELPER]
  {
    if p in Copies(protected, generated) {
      CopiesNew(protected, generated, p);
    }
  }

  ghost predicate Holds(lock: Packages, protected: Packages) {
    forall p :: p in protected ==> p in lock && lock[p] == protected[p]
  }

  lemma NothingDiffers(lock: Packages, protected: Packages)
    requires Holds(lock, protected)
    ensures Differing(protected, lock) == map[] && lock + protected == lock
  {
  }

  lemma NothingCopied(lock: Packages, protected: Packages)
    requires Differing(protected, lock) == map[]
    ensures Copies(protected, lock) == map[]
  {
    assert CopyFor(protected, lock, JSX) == map[] && CopyFor(protected, lock, TYPESCRIPT) == map[];
  }

  lemma MendedTwice(protected: Packages, generated: Packages)
    requires Allowed(protected, generated, JSX) && Allowed(protected, generated, TYPESCRIPT)
    ensures Differing(protected, Mended(protected, generated)) == map[]
    ensures Mended(protected, Mended(protected, generated)) == Mended(protected, generated)
  {
    var lock := Mended(protected, generated);
    forall p | p in protected ensures p in lock && lock[p] == protected[p] {
      MendedAt(protected, generated, p);
    }
    NothingDiffers(lock, protected);
    NothingCopied(lock, protected);
    assert lock + map[] == lock;
  }

  /** Every package that has to stay comes out as it was, and every other one as it was generated. When the helper is
      put back, the parents that were generated get the generated helper inside of them, and nothing else is new. */
  lemma RestoreKeeps(original: Packages, roots: seq<string>, generated: Packages, p: string)
    requires CanRestore(original, roots, generated)
    ensures var lock := Mended(Protected(original, roots), generated);
      && (Stays(original, roots, p) ==> p in lock && lock[p] == original[p])
      && (p in generated && !Stays(original, roots, p) ==> p in lock && lock[p] == generated[p])
      && (GetsCopy(original, roots, generated, p) ==> HELPER in generated && p in lock && lock[p] == generated[HELPER])
      && (p in lock ==> Stays(original, roots, p) || p in generated || GetsCopy(original, roots, generated, p))
  {
    StaysIsProtected(original, roots, generated);
    MendedAt(Protected(original, roots), generated, p);
    if p in Copies(Protected(original, roots), generated) {
      CopiesNew(Protected(original, roots), generated, p);
    }
  }

  /** The place of the helper inside of one of the two parents. */
  ghost predicate GetsCopy(original: Packages, roots: seq<string>, generated: Packages, p: string) {
    && HelperPutBack(original, roots, generated)
    && ((p == JSX + "/" + HELPER && JSX in generated) || (p == TYPESCRIPT + "/" + HELPER && TYPESCRIPT in generated))
  }

  /** What is reported as put back: the packages that had to stay and were not generated as they were; */
  lemma RestoredAre(original: Packages, roots: seq<string>, generated: Packages, p: string)
    ensures var restored := Differing(Protected(original, roots), generated);
      && (p in restored
          <==> Stays(original, roots, p) && (p !in generated || generated[p] != original[p]))
      && (p in restored ==> restored[p] == original[p])
  {
    StaysIsProtected(original, roots, generated);
  }

  lemma CopiesAre(protected: Packages, generated: Packages, p: string)
    requires HELPER in Differing(protected, generated)
    requires (JSX in generated || TYPESCRIPT in generated) ==> HELPER in generated
    ensures p in Copies(protected, generated)
      <==> (p == NestedIn(JSX) && JSX in generated) || (p == NestedIn(TYPESCRIPT) && TYPESCRIPT in generated)
    ensures p in Copies(protected, generated) ==>
      HELPER in generated && Copies(protected, generated)[p] == generated[HELPER]
  {
  }

  lemma NestedPlace(parent: string)
    ensures NestedIn(parent) == parent + "/" + HELPER
  {
  }

  /** and as isolated: the copies of the helper. */
  lemma IsolatedAre(original: Packages, roots: seq<string>, generated: Packages, p: string)
    requires CanRestore(original, roots, generated)
    ensures var isolated := Copies(Protected(original, roots), generated);
      && (p in isolated <==> GetsCopy(original, roots, generated, p))
      && (p in isolated ==> HELPER in generated && isolated[p] == generated[HELPER])
  {
    NestedPlace(JSX);
    NestedPlace(TYPESCRIPT);
    var protected := Protected(original, roots);
    StaysIsProtected(original, roots, generated);
    if HELPER in Differing(protected, generated) {
      CopiesAre(protected, generated, p);
    }
  }

  lemma {:induction false} CanRestoreAgain(original: Packages, roots: seq<string>, lock: Packages)
    requires RootsResolve(original, roots) && Differing(Protected(original, roots), lock) == map[]
    ensures CanRestore(original, roots, lock)
  {
  }

  /** Restoring what was restored is possible, puts nothing back and changes nothing. */
  lemma RestoreTwice(original: Packages, roots: seq<string>, generated: Packages)
    requires CanRestore(original, roots, generated)
    ensures var protected := Protected(original, roots); var lock := Mended(protected, generated);
      CanRestore(original, roots, lock) && Differing(protected, lock) == map[] && Mended(protected, lock) == lock
  {
    MendedTwice(Protected(original, roots), generated);
    CanRestoreAgain(original, roots, Mended(Protected(original, roots), generated));
  }
}
