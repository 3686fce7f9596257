/** `resolve_package` and `resolved_graph` of ops/dependency-repair/lock-contract.py. */
module Lockfile {
  import opened Reach

  datatype Option<+T> = None | Some(value: T)

  // ---------------------------------------------------------------- resolve_package

  const NODE_MODULES := "node_modules/"
  const SEPARATOR := "/node_modules/"

  predicate OccursAt(s: string, sep: string, i: nat) {
    i + |sep| <= |s| && s[i..i + |sep|] == sep
  }

  /** Where `sep` occurs last in the first `n` places of `s`. */
  function LastAt(s: string, sep: string, n: nat): (r: Option<nat>)
    ensures r.Some? ==> r.value < n && OccursAt(s, sep, r.value)
    ensures r.Some? ==> forall i :: r.value < i < n ==> !OccursAt(s, sep, i)
    ensures r.None? ==> forall i :: 0 <= i < n ==> !OccursAt(s, sep, i)
  {
    if n == 0 then None else if OccursAt(s, sep, n - 1) then Some(n - 1) else LastAt(s, sep, n - 1)
  }

  /** `parent.rsplit(sep, 1)[0] if sep in parent else ""` */
  function Up(parent: string, sep: string): (r: string)
    ensures r <= parent && (parent != "" ==> |r| < |parent|)
  {
    var i := LastAt(parent, sep, |parent|);
    if i.None? then "" else parent[..i.value]
  }

  function CopyIn(parent: string, name: string): string {
    (if parent == "" then "" else parent + "/") + NODE_MODULES + name
  }

  /** `packages`: the paths that the lockfile lists. */
  function Resolve(packages: set<string>, parent: string, name: string): (r: Option<string>)
    ensures r.Some? ==> r.value in packages
    decreases |parent|
  {
    if CopyIn(parent, name) in packages then Some(CopyIn(parent, name))
    else if parent == "" then None
    else Resolve(packages, Up(parent, SEPARATOR), name)
  }

  method ResolvePackage<E>(packages: map<string, E>, start: string, name: string) returns (r: Option<string>)
    ensures r == Resolve(packages.Keys, start, name)
  {
    var parent := start;
    while true
      invariant Resolve(packages.Keys, parent, name) == Resolve(packages.Keys, start, name)
      decreases |parent|
    {
      var path := CopyIn(parent, name);
      if path in packages {
        return Some(path);
      }
      if parent == "" {
        return None;
      }
      parent := Up(parent, SEPARATOR);
    }
  }

  /** From the root there is one place to look; from a package its own copy comes first. */
  lemma OwnCopyFirst(packages: set<string>, parent: string, name: string)
    ensures Resolve(packages, "", name)
      == if "node_modules/" + name in packages then Some("node_modules/" + name) else None
    ensures parent != "" && parent + "/node_modules/" + name in packages ==>
      Resolve(packages, parent, name) == Some(parent + "/node_modules/" + name)
  {
    assert CopyIn("", name) == "node_modules/" + name;
    assert parent != "" ==> CopyIn(parent, name) == parent + "/node_modules/" + name;
  }

  /** A package without a copy of its own asks on behalf of the one it is installed in. */
  lemma GoesOut(packages: set<string>, outer: string, inner: string, name: string, parent: string)
    requires parent == outer + "/node_modules/" + inner
    requires forall i :: |outer| < i < |parent| ==> !OccursAt(parent, "/node_modules/", i)
    requires parent + "/node_modules/" + name !in packages
    ensures Resolve(packages, parent, name) == Resolve(packages, outer, name)
  {
    assert CopyIn(parent, name) == parent + "/node_modules/" + name;
    assert parent[|outer|..|outer| + |SEPARATOR|] == SEPARATOR;
    assert OccursAt(parent, SEPARATOR, |outer|);
    assert Up(parent, SEPARATOR) == outer;
  }

  /** A package at the top asks on behalf of the root. */
  lemma GoesToRoot(packages: set<string>, parent: string, name: string)
    requires parent != "" && parent + "/node_modules/" + name !in packages
    requires forall i :: 0 <= i < |parent| ==> !OccursAt(parent, "/node_modules/", i)
    ensures Resolve(packages, parent, name) == Resolve(packages, "", name)
  {
    assert CopyIn(parent, name) == parent + "/node_modules/" + name;
    assert Up(parent, SEPARATOR) == "";
  }

  // ---------------------------------------------------------------- the nearest enclosing copy

  /** The directories that are looked at, in order. */
  function Chain(parent: string, sep: string): seq<string>
    decreases |parent|
  {
    if parent == "" then [""] else [parent] + Chain(Up(parent, sep), sep)
  }

  /** `p` is `parent`, the root, or a package that `parent` is installed inside of. */
  predicate Encloses(p: string, parent: string, sep: string) {
    p == "" || p == parent || (p <= parent && OccursAt(parent, sep, |p|))
  }

  /** A separator starts and ends with a character that it has nowhere else. */
  predicate IsSeparator(sep: string) {
    && |sep| >= 2 && sep[|sep| - 1] == sep[0]
    && forall k :: 0 < k < |sep| - 1 ==> sep[k] != sep[0]
  }

  /** Two separators that share a character: a package called `node_modules` inside of another one. */
  predicate OverlapAt(parent: string, sep: string, j: nat)
    requires |sep| >= 2
  {
    j >= 1 && OccursAt(parent, sep, j) && OccursAt(parent, sep, j + |sep| - 1)
  }

  ghost predicate Overlaps(parent: string, sep: string)
    requires |sep| >= 2
  {
    exists j: nat :: OverlapAt(parent, sep, j)
  }

  lemma ApartOrOverlap(s: string, sep: string, i: nat, j: nat)
    requires IsSeparator(sep) && OccursAt(s, sep, i) && OccursAt(s, sep, j) && i < j
    ensures j >= i + |sep| || j == i + |sep| - 1
  {
    if j < i + |sep| {
      assert s[j..j + |sep|][0] == sep[0];
      assert s[i..i + |sep|][j - i] == sep[j - i];
    }
  }

  lemma PrefixOccurs(s: string, sep: string, n: nat, i: nat)
    requires n <= |s|
    ensures OccursAt(s[..n], sep, i) <==> OccursAt(s, sep, i) && i + |sep| <= n
  {
    if i + |sep| <= n {
      assert s[..n][i..i + |sep|] == s[i..i + |sep|];
    }
  }

  lemma {:induction false} ChainEncloses(parent: string, sep: string, p: string)
    requires sep != "" && p in Chain(parent, sep)
    ensures Encloses(p, parent, sep)
    decreases |parent|
  {
    if p != parent && parent != "" {
      var up := Up(parent, sep);
      ChainEncloses(up, sep, p);
      if p != "" {
        PrefixOccurs(parent, sep, |up|, |p|);
      }
    }
  }

  lemma {:induction false} EnclosingInChain(parent: string, sep: string, p: string)
    requires IsSeparator(sep) && !Overlaps(parent, sep) && Encloses(p, parent, sep)
    ensures p in Chain(parent, sep)
    decreases |parent|
  {
    if parent != "" && p != parent {
      var up := Up(parent, sep);
      NoOverlapAbove(parent, sep);
      if p != "" && p != up {
        assert OccursAt(parent, sep, |p|);
        ApartOrOverlap(parent, sep, |p|, |up|);
        assert !OverlapAt(parent, sep, |p|);
        PrefixOccurs(parent, sep, |up|, |p|);
      }
      EnclosingInChain(up, sep, p);
    }
  }

  lemma NoOverlapAbove(parent: string, sep: string)
    requires |sep| >= 2 && !Overlaps(parent, sep)
    ensures !Overlaps(Up(parent, sep), sep)
  {
    var up := Up(parent, sep);
    forall j: nat ensures !OverlapAt(up, sep, j) {
      PrefixOccurs(parent, sep, |up|, j);
      PrefixOccurs(parent, sep, |up|, if j >= 1 then j + |sep| - 1 else 0);
      assert !OverlapAt(parent, sep, j);
    }
  }

  lemma SkipsHere(parent: string, sep: string, up: string, p: string)
    requires IsSeparator(sep) && up == Up(parent, sep) && parent != "" && OccursAt(parent, sep, |up|)
    requires p <= parent && |p| + |sep| - 1 == |up| && p != "" && OccursAt(parent, sep, |p|)
    ensures Encloses(p, parent, sep) && p !in Chain(parent, sep)
  {
    PrefixOccurs(parent, sep, |up|, |p|);
    if p in Chain(up, sep) {
      ChainEncloses(up, sep, p);
    }
  }

  lemma SkipsAbove(parent: string, sep: string, up: string, p: string)
    requires sep != "" && up == Up(parent, sep) && parent != "" && p != ""
    requires Encloses(p, up, sep) && p !in Chain(up, sep)
    ensures Encloses(p, parent, sep) && p !in Chain(parent, sep)
  {
    PrefixOccurs(parent, sep, |up|, |p|);
  }

  /** An overlap makes the walk leave out one of the enclosing packages. */
  lemma {:induction false} OverlapSkips(parent: string, sep: string, j: nat) returns (p: string)
    requires IsSeparator(sep) && OverlapAt(parent, sep, j)
    ensures p != "" && Encloses(p, parent, sep) && p !in Chain(parent, sep)
    decreases |parent|
  {
    var up := Up(parent, sep);
    var i := |up|;
    if i >= |sep| && OccursAt(parent, sep, i - (|sep| - 1)) {
      p := parent[..i - (|sep| - 1)];
      SkipsHere(parent, sep, up, p);
    } else {
      ApartOrOverlap(parent, sep, j + |sep| - 1, i);
      PrefixOccurs(parent, sep, i, j);
      PrefixOccurs(parent, sep, i, j + |sep| - 1);
      p := OverlapSkips(up, sep, j);
      SkipsAbove(parent, sep, up, p);
    }
  }

  /** The walk looks at every enclosing directory exactly when no two separators in the path overlap. */
  lemma ChainIsEnclosing(parent: string, sep: string)
    requires IsSeparator(sep)
    ensures forall p :: p in Chain(parent, sep) ==> Encloses(p, parent, sep)
    ensures (forall p :: Encloses(p, parent, sep) ==> p in Chain(parent, sep)) <==> !Overlaps(parent, sep)
  {
    forall p | p in Chain(parent, sep) ensures Encloses(p, parent, sep) {
      ChainEncloses(parent, sep, p);
    }
    if Overlaps(parent, sep) {
      var j: nat :| OverlapAt(parent, sep, j);
      var p := OverlapSkips(parent, sep, j);
    } else {
      forall p | Encloses(p, parent, sep) ensures p in Chain(parent, sep) {
        EnclosingInChain(parent, sep, p);
      }
    }
  }

  lemma {:induction false} ResolveWalksChain(packages: set<string>, parent: string, name: string) returns (k: nat)
    ensures k <= |Chain(parent, SEPARATOR)|
    ensures forall j :: 0 <= j < k ==> CopyIn(Chain(parent, SEPARATOR)[j], name) !in packages
    ensures Resolve(packages, parent, name)
      == if k < |Chain(parent, SEPARATOR)| then Some(CopyIn(Chain(parent, SEPARATOR)[k], name)) else None
    decreases |parent|
  {
    if CopyIn(parent, name) in packages {
      k := 0;
    } else if parent == "" {
      k := 1;
    } else {
      var n := ResolveWalksChain(packages, Up(parent, SEPARATOR), name);
      k := n + 1;
    }
  }

  lemma {:induction false} ChainShortens(parent: string, sep: string, i: nat, j: nat)
    requires i < j < |Chain(parent, sep)|
    ensures |Chain(parent, sep)[j]| < |Chain(parent, sep)[i]|
    decreases |parent|
  {
    var rest := Chain(Up(parent, sep), sep);
    if i > 0 {
      ChainShortens(Up(parent, sep), sep, i - 1, j - 1);
    } else if j > 1 {
      ChainShortens(Up(parent, sep), sep, 0, j - 1);
    }
  }

  /** `r` is the copy of `name` in the innermost directory around `parent` that has one. */
  ghost predicate Nearest(packages: set<string>, parent: string, name: string, r: Option<string>) {
    match r
    case None => forall q :: Encloses(q, parent, SEPARATOR) ==> CopyIn(q, name) !in packages
    case Some(path) => exists p :: InnermostCopy(packages, parent, name, p) && path == CopyIn(p, name)
  }

  ghost predicate InnermostCopy(packages: set<string>, parent: string, name: string, p: string) {
    && Encloses(p, parent, SEPARATOR) && CopyIn(p, name) in packages
    && forall q :: Encloses(q, parent, SEPARATOR) && |q| > |p| ==> CopyIn(q, name) !in packages
  }

  lemma SeparatorFits()
    ensures IsSeparator(SEPARATOR)
  {
  }

  lemma NearestWithoutOverlap(packages: set<string>, parent: string, name: string)
    requires !Overlaps(parent, SEPARATOR)
    ensures Nearest(packages, parent, name, Resolve(packages, parent, name))
  {
    SeparatorFits();
    ChainIsEnclosing(parent, SEPARATOR);
    var chain := Chain(parent, SEPARATOR);
    var k := ResolveWalksChain(packages, parent, name);
    if k < |chain| {
      forall q | Encloses(q, parent, SEPARATOR) && |q| > |chain[k]|
        ensures CopyIn(q, name) !in packages
      {
        var j :| 0 <= j < |chain| && chain[j] == q;
        if j > k {
          ChainShortens(parent, SEPARATOR, k, j);
        }
      }
      assert InnermostCopy(packages, parent, name, chain[k]);
    } else {
      forall q | Encloses(q, parent, SEPARATOR) ensures CopyIn(q, name) !in packages {
        var j :| 0 <= j < |chain| && chain[j] == q;
      }
    }
  }

  lemma CopyLength(p: string, name: string)
    requires p != ""
    ensures CopyIn(p, name) == p + ("/" + NODE_MODULES + name)
    ensures |CopyIn(p, name)| == |p| + 1 + |CopyIn("", name)|
  {
  }

  lemma CopiesApart(p: string, q: string, name: string)
    requires p != "" && CopyIn(p, name) == CopyIn(q, name)
    ensures p == q
  {
    CopyLength(p, name);
    if q != "" {
      CopyLength(q, name);
      var tail := "/" + NODE_MODULES + name;
      assert (p + tail)[..|p|] == p && (q + tail)[..|q|] == q;
    }
  }

  lemma OverlapMisses(parent: string, name: string) returns (packages: set<string>)
    requires Overlaps(parent, SEPARATOR)
    ensures !Nearest(packages, parent, name, Resolve(packages, parent, name))
  {
    SeparatorFits();
    var j: nat :| OverlapAt(parent, SEPARATOR, j);
    var p := OverlapSkips(parent, SEPARATOR, j);
    packages := {CopyIn(p, name)};
    forall c | c in Chain(parent, SEPARATOR) ensures CopyIn(c, name) !in packages {
      if CopyIn(c, name) == CopyIn(p, name) {
        CopiesApart(p, c, name);
      }
    }
    var k := ResolveWalksChain(packages, parent, name);
    assert CopyIn(p, name) in packages;
  }

  /** The copy in the nearest enclosing `node_modules` is what every lockfile resolves to, exactly when the path asked
      from has no package called `node_modules` right inside another one; npm gives no package that name. */
  lemma ResolvesNearestExactly(parent: string, name: string)
    ensures (forall packages :: Nearest(packages, parent, name, Resolve(packages, parent, name)))
      <==> !Overlaps(parent, SEPARATOR)
  {
    if Overlaps(parent, SEPARATOR) {
      var packages := OverlapMisses(parent, name);
    } else {
      forall packages ensures Nearest(packages, parent, name, Resolve(packages, parent, name)) {
        NearestWithoutOverlap(packages, parent, name);
      }
    }
  }

  const MODULES := "/node_modules"

  /** `node_modules/a/node_modules/node_modules/b` */
  const NAMESAKE := "node_modules/a" + (MODULES + (MODULES + "/b"))

  lemma NamesakeOverlaps()
    ensures Overlaps(NAMESAKE, SEPARATOR)
  {
    assert SEPARATOR == MODULES + "/" && |MODULES| == 13;
    var tail := MODULES + "/b";
    assert tail[..14] == MODULES + "/" && (MODULES + tail)[..14] == MODULES + "/";
    assert NAMESAKE[14..] == MODULES + tail && NAMESAKE[27..] == tail;
    assert NAMESAKE[14..][..14] == NAMESAKE[14..28] && NAMESAKE[27..][..14] == NAMESAKE[27..41];
    assert OverlapAt(NAMESAKE, SEPARATOR, 14);
  }

  /** Such a path, and a lockfile in which its package is missed. */
  lemma NestedNamesakeMisses(name: string) returns (packages: set<string>)
    ensures !Nearest(packages, NAMESAKE, name, Resolve(packages, NAMESAKE, name))
  {
    NamesakeOverlaps();
    packages := OverlapMisses(NAMESAKE, name);
  }

  // ---------------------------------------------------------------- resolved_graph

  datatype Kind = Dependency | Optional | Peer

  /** `deps`: the names under the three kinds of dependencies, in order; `dev`: marked as a development package. */
  datatype Entry = Entry(deps: seq<(Kind, string)>, dev: bool, rest: string)

  type Packages = map<string, Entry>

  type Edges = map<(Kind, string), Option<string>>

  datatype Resolved = Resolved(entry: Entry, edges: Edges)

  function EdgesOf(packages: Packages, path: string): Edges
    requires path in packages
  {
    map d | d in packages[path].deps :: Resolve(packages.Keys, path, d.1)
  }

  /** One package depends on another, through its nearest copy. */
  function Needs(packages: Packages): (string, string) -> bool {
    (a: string, b: string) =>
      a in packages && exists d :: d in packages[a].deps && Resolve(packages.Keys, a, d.1) == Some(b)
  }

  /** Where the search starts: what a root resolves to. */
  function Root(packages: Packages, roots: seq<string>): string -> bool {
    (path: string) => exists name :: name in roots && Resolve(packages.Keys, "", name) == Some(path)
  }

  /** Reachable from one of the roots, as they resolve. */
  ghost predicate Wanted(packages: Packages, roots: seq<string>, path: string) {
    From(Needs(packages), Root(packages, roots), path)
  }

  predicate AllKnown(packages: Packages, paths: seq<string>) {
    forall path :: path in paths ==> path in packages
  }

  ghost predicate NodesRight(packages: Packages, graph: map<string, Resolved>) {
    forall path :: path in graph ==>
      path in packages && graph[path] == Resolved(packages[path], EdgesOf(packages, path))
  }

  lemma RootKnown(packages: Packages, roots: seq<string>, name: string, path: string)
    requires name in roots && Resolve(packages.Keys, "", name) == Some(path)
    ensures Root(packages, roots)(path) && Wanted(packages, roots, path)
  {
    Here(Needs(packages), path);
  }

  method ResolveRoots(packages: Packages, roots: seq<string>) returns (pending: seq<string>, missing: bool)
    ensures missing <==> exists name :: name in roots && Resolve(packages.Keys, "", name).None?
    ensures AllKnown(packages, pending)
    ensures !missing ==> Search(Needs(packages), Root(packages, roots), {}, pending)
  {
    pending, missing := [], false;
    for i := 0 to |roots|
      invariant missing <==> exists k :: 0 <= k < i && Resolve(packages.Keys, "", roots[k]).None?
      invariant AllKnown(packages, pending) && AllFrom(Needs(packages), Root(packages, roots), pending)
      invariant forall k :: 0 <= k < i && Resolve(packages.Keys, "", roots[k]).Some? ==>
        Resolve(packages.Keys, "", roots[k]).value in pending
    {
      var path := ResolvePackage(packages, "", roots[i]);
      if path.None? {
        missing := true;
      } else {
        RootKnown(packages, roots, roots[i], path.value);
        pending := pending + [path.value];
      }
    }
  }

  function Dep(packages: Packages, path: string, i: nat): Option<string>
    requires path in packages && i < |packages[path].deps|
  {
    Resolve(packages.Keys, path, packages[path].deps[i].1)
  }

  function Listed(child: Option<string>): seq<string> {
    if child.Some? then [child.value] else []
  }

  /** The packages that `path` leads to, dependency by dependency. */
  function Children(packages: Packages, path: string, n: nat): seq<string>
    requires path in packages && n <= |packages[path].deps|
  {
    if n == 0 then []
    else Children(packages, path, n - 1) + Listed(Dep(packages, path, n - 1))
  }

  lemma {:induction false} ChildrenAre(packages: Packages, path: string, n: nat, b: string)
    requires path in packages && n <= |packages[path].deps|
    ensures b in Children(packages, path, n) <==> exists k :: 0 <= k < n && Dep(packages, path, k) == Some(b)
  {
    if n > 0 {
      ChildrenAre(packages, path, n - 1, b);
    }
  }

  lemma ChildrenNeeded(packages: Packages, path: string, b: string)
    requires path in packages
    ensures b in Children(packages, path, |packages[path].deps|) <==> Needs(packages)(path, b)
  {
    var deps := packages[path].deps;
    ChildrenAre(packages, path, |deps|, b);
    if Needs(packages)(path, b) {
      var d :| d in deps && Resolve(packages.Keys, path, d.1) == Some(b);
      var k :| 0 <= k < |deps| && deps[k] == d;
      assert Dep(packages, path, k) == Some(b);
    }
    if b in Children(packages, path, |deps|) {
      var k :| 0 <= k < |deps| && Dep(packages, path, k) == Some(b);
      assert deps[k] in deps;
    }
  }

  function EdgesTo(packages: Packages, path: string, n: nat): Edges
    requires path in packages && n <= |packages[path].deps|
  {
    if n == 0 then map[] else EdgesTo(packages, path, n - 1)[packages[path].deps[n - 1] := Dep(packages, path, n - 1)]
  }

  lemma {:induction false} EdgesAre(packages: Packages, path: string, n: nat, d: (Kind, string))
    requires path in packages && n <= |packages[path].deps|
    ensures d in EdgesTo(packages, path, n) <==> exists k :: 0 <= k < n && packages[path].deps[k] == d
    ensures d in EdgesTo(packages, path, n) ==> EdgesTo(packages, path, n)[d] == Resolve(packages.Keys, path, d.1)
  {
    if n > 0 {
      EdgesAre(packages, path, n - 1, d);
    }
  }

  lemma EdgesAll(packages: Packages, path: string)
    requires path in packages
    ensures EdgesTo(packages, path, |packages[path].deps|) == EdgesOf(packages, path)
  {
    var n := |packages[path].deps|;
    forall d ensures d in EdgesTo(packages, path, n) <==> d in EdgesOf(packages, path) {
      EdgesAre(packages, path, n, d);
    }
    forall d | d in EdgesTo(packages, path, n) ensures EdgesTo(packages, path, n)[d] == EdgesOf(packages, path)[d] {
      EdgesAre(packages, path, n, d);
    }
  }

  /** The edges of one package, and the packages that they lead to. */
  method Visit(packages: Packages, path: string) returns (edges: Edges, children: seq<string>)
    requires path in packages
    ensures edges == EdgesOf(packages, path)
    ensures children == Children(packages, path, |packages[path].deps|)
  {
    var deps := packages[path].deps;
    edges, children := map[], [];
    for i := 0 to |deps|
      invariant edges == EdgesTo(packages, path, i)
      invariant children == Children(packages, path, i)
    {
      var child := ResolvePackage(packages, path, deps[i].1);
      assert child == Dep(packages, path, i);
      edges := edges[deps[i] := child];
      if child.Some? {
        children := children + [child.value];
      }
    }
    EdgesAll(packages, path);
  }

  /** One package more. */
  method Extend(packages: Packages, graph: map<string, Resolved>, path: string)
      returns (more: map<string, Resolved>, children: seq<string>)
    requires path in packages && NodesRight(packages, graph)
    ensures NodesRight(packages, more) && more.Keys == graph.Keys + {path}
    ensures children == Children(packages, path, |packages[path].deps|)
  {
    var edges;
    edges, children := Visit(packages, path);
    more := graph[path := Resolved(packages[path], edges)];
  }

  lemma {:induction false} VisitSearch(
      packages: Packages, roots: seq<string>, visited: set<string>, pending: seq<string>, path: string)
    requires path in packages && Search(Needs(packages), Root(packages, roots), visited, pending + [path])
    ensures Search(Needs(packages), Root(packages, roots), visited + {path},
      pending + Children(packages, path, |packages[path].deps|))
  {
    var children := Children(packages, path, |packages[path].deps|);
    forall b ensures b in children <==> Needs(packages)(path, b) {
      ChildrenNeeded(packages, path, b);
    }
    SearchNew(Needs(packages), Root(packages, roots), visited, pending, path, children);
  }

  lemma ChildrenKnown(packages: Packages, pending: seq<string>, path: string)
    requires path in packages && AllKnown(packages, pending)
    ensures AllKnown(packages, pending + Children(packages, path, |packages[path].deps|))
  {
    forall b | b in Children(packages, path, |packages[path].deps|) ensures b in packages {
      ChildrenNeeded(packages, path, b);
    }
  }

  ghost predicate Working(packages: Packages, roots: seq<string>, visited: set<string>, pending: seq<string>) {
    Search(Needs(packages), Root(packages, roots), visited, pending) && AllKnown(packages, pending)
  }

  lemma {:induction false} TurnSeen(
      packages: Packages, roots: seq<string>, visited: set<string>, pending: seq<string>, path: string)
    requires Working(packages, roots, visited, pending + [path]) && path in visited
    ensures Working(packages, roots, visited, pending)
  {
    SearchSeen(Needs(packages), Root(packages, roots), visited, pending, path);
    KnownPart(packages, pending, path);
  }

  lemma KnownPart(packages: Packages, pending: seq<string>, path: string)
    requires AllKnown(packages, pending + [path])
    ensures AllKnown(packages, pending) && path in packages
  {
    assert path in pending + [path];
    assert forall p :: p in pending ==> p in pending + [path];
  }

  lemma {:induction false} TurnNew(
      packages: Packages, roots: seq<string>, visited: set<string>, pending: seq<string>, path: string)
    requires Working(packages, roots, visited, pending + [path])
    ensures path in packages
    ensures Working(packages, roots, visited + {path}, pending + Children(packages, path, |packages[path].deps|))
  {
    KnownPart(packages, pending, path);
    VisitSearch(packages, roots, visited, pending, path);
    ChildrenKnown(packages, pending, path);
  }

  /** One turn of the loop for a package that is not in the graph yet. */
  method Turn(
      packages: Packages, graph: map<string, Resolved>, pending: seq<string>, path: string, ghost roots: seq<string>)
      returns (more: map<string, Resolved>, rest: seq<string>)
    requires Working(packages, roots, graph.Keys, pending + [path]) && NodesRight(packages, graph) && path !in graph
    ensures Working(packages, roots, more.Keys, rest) && NodesRight(packages, more)
    ensures |packages.Keys - more.Keys| < |packages.Keys - graph.Keys|
  {
    TurnNew(packages, roots, graph.Keys, pending, path);
    var children;
    more, children := Extend(packages, graph, path);
    rest := pending + children;
    FewerLeft(packages.Keys, graph.Keys, path);
  }

  lemma {:induction false} Finished(packages: Packages, roots: seq<string>, visited: set<string>)
    requires Working(packages, roots, visited, [])
    ensures forall path :: path in visited <==> Wanted(packages, roots, path)
  {
    SearchDone(Needs(packages), Root(packages, roots), visited);
  }

  /** The worklist: it ends, cycles or not, and its keys are exactly the packages that can be reached from the resolved
      roots, each with its own entry and its own resolved edges; a root that resolves to nothing is refused. */
  method ResolvedGraph(packages: Packages, roots: seq<string>) returns (r: Option<map<string, Resolved>>)
    ensures r.None? <==> exists name :: name in roots && Resolve(packages.Keys, "", name).None?
    ensures r.Some? ==> forall path :: path in r.value <==> Wanted(packages, roots, path)
    ensures r.Some? ==> forall path :: path in r.value ==> path in packages && r.value[path].entry == packages[path]
    ensures r.Some? ==> forall path, d :: path in r.value ==> (d in r.value[path].edges <==> d in packages[path].deps)
    ensures r.Some? ==> forall path, d :: path in r.value && d in packages[path].deps ==>
      r.value[path].edges[d] == Resolve(packages.Keys, path, d.1)
  {
    var pending, missing := ResolveRoots(packages, roots);
    if missing {
      return None;
    }
    var graph := Grow(packages, pending, roots);
    Finished(packages, roots, graph.Keys);
    return Some(graph);
  }

  /** `to` is the copy that `path` gets for one of its dependencies. */
  predicate GetsFor(packages: Packages, path: string, d: (Kind, string), to: string) {
    path in packages && d in packages[path].deps && Resolve(packages.Keys, path, d.1) == Some(to)
  }

  /** The wanted packages hold what the roots resolve to, and with a package all that its dependencies resolve to. */
  lemma WantedIsClosed(
      packages: Packages, roots: seq<string>, name: string, path: string, d: (Kind, string), to: string)
    ensures name in roots && Resolve(packages.Keys, "", name) == Some(path) ==> Wanted(packages, roots, path)
    ensures Wanted(packages, roots, path) && GetsFor(packages, path, d, to) ==> Wanted(packages, roots, to)
  {
    if name in roots && Resolve(packages.Keys, "", name) == Some(path) {
      RootKnown(packages, roots, name, path);
    }
    if Wanted(packages, roots, path) && GetsFor(packages, path, d, to) {
      assert Needs(packages)(path, to);
      FromMore(Needs(packages), Root(packages, roots), path, to);
    }
  }

  /** And no smaller set does. */
  lemma {:induction false} WantedIsLeast(packages: Packages, roots: seq<string>, s: set<string>, path: string)
    requires forall name, to :: name in roots && Resolve(packages.Keys, "", name) == Some(to) ==> to in s
    requires forall p, d, to :: p in s && GetsFor(packages, p, d, to) ==> to in s
    requires Wanted(packages, roots, path)
    ensures path in s
  {
    var r :| Root(packages, roots)(r) && Reaches(Needs(packages), r, path);
    forall a, b | a in s && Needs(packages)(a, b) ensures b in s {
      var d :| d in packages[a].deps && Resolve(packages.Keys, a, d.1) == Some(b);
      assert GetsFor(packages, a, d, b);
    }
    ClosedHolds(Needs(packages), s, r, path);
  }

  method Grow(packages: Packages, first: seq<string>, ghost roots: seq<string>) returns (graph: map<string, Resolved>)
    requires Working(packages, roots, {}, first)
    ensures Working(packages, roots, graph.Keys, []) && NodesRight(packages, graph)
  {
    var pending := first;
    graph := map[];
    while pending != []
      invariant Working(packages, roots, graph.Keys, pending) && NodesRight(packages, graph)
      decreases |packages.Keys - graph.Keys|, |pending|
    {
      LastOf(pending);
      var path := pending[|pending| - 1];
      pending := pending[..|pending| - 1];
      if path in graph {
        TurnSeen(packages, roots, graph.Keys, pending, path);
      } else {
        graph, pending := Turn(packages, graph, pending, path, roots);
      }
    }
  }
}
