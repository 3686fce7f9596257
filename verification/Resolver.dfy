/**
 `resolveInTree` of scripts/linux-native-scan.js: a symlink resolved lexically inside a tree that stands for
 the directory `base` of an installed system. A path is the sequence of its components.
 */
module Resolver {
  type Name = string
  type Path = seq<Name>

  /** What `lstat` and `readlink` say about an entry. */
  datatype Node = Plain | Link(absolute: bool, target: Path)

  datatype Tree = Tree(base: Path, nodes: map<Path, Node>)

  datatype Status = Ok | Dangling | Escapes | Loop
  datatype Outcome = Outcome(status: Status, resolved: Path)

  const MAX_SYMLINK_HOPS := 40
  const HERE := "."
  const UP := ".."

  predicate IsAncestor(base: Path, sys: Path) {
    sys == [] || (sys <= base && |sys| < |base|)
  }

  function Pop(done: Path): Path {
    if done == [] then [] else done[..|done| - 1]
  }

  /** What the walk meets at the system path `sys`. */
  datatype Sight = Passable | Outside | Missing | Follow(absolute: bool, target: Path)

  function Look(t: Tree, sys: Path): Sight {
    if IsAncestor(t.base, sys) then Passable
    else if !(t.base <= sys) then Outside
    else if sys[|t.base|..] !in t.nodes then Missing
    else
      var node := t.nodes[sys[|t.base|..]];
      if node.Plain? then Passable else Follow(node.absolute, node.target)
  }

  function Finish(t: Tree, done: Path): Outcome {
    if !IsAncestor(t.base, done) && !(t.base <= done) then Outcome(Escapes, done) else Outcome(Ok, done)
  }

  /** The loop from any of its states on. */
  function Resolve(t: Tree, pending: Path, done: Path, hops: nat): Outcome
    requires hops <= MAX_SYMLINK_HOPS
    decreases MAX_SYMLINK_HOPS - hops, |pending|
  {
    if pending == [] then Finish(t, done)
    else
      var part, rest := pending[0], pending[1..];
      if part == HERE then Resolve(t, rest, done, hops)
      else if part == UP then Resolve(t, rest, Pop(done), hops)
      else
        match Look(t, done + [part])
        case Passable => Resolve(t, rest, done + [part], hops)
        case Outside => Outcome(Escapes, done + [part] + rest)
        case Missing => Outcome(Dangling, done + [part] + rest)
        case Follow(absolute, target) =>
          if hops == MAX_SYMLINK_HOPS then Outcome(Loop, done + [part] + rest)
          else Resolve(t, target + rest, if absolute then [] else done, hops + 1)
  }

  /** What `path.posix.normalize` leaves of an absolute path, read from `done` on. */
  function Normal(done: Path, parts: Path): Path
    decreases |parts|
  {
    if parts == [] then done
    else Normal(if parts[0] == HERE then done else if parts[0] == UP then Pop(done) else done + [parts[0]], parts[1..])
  }

  /** Where a walk to `rel` starts from: `path.posix.join` of the base and the path in the tree. */
  function Start(t: Tree, rel: Path): Path {
    Normal([], t.base + rel)
  }

  /** The tree whose files stand for what is mounted at `mount`. */
  function Mounted(mount: Path, nodes: map<Path, Node>): Tree {
    Tree(Normal([], mount), nodes)
  }

  /** The loop itself. Each turn uses up a hop or a pending component. */
  method ResolveInTree(nodes: map<Path, Node>, mount: Path, rel: Path) returns (r: Outcome)
    ensures var t := Mounted(mount, nodes); r == Resolve(t, Start(t, rel), [], 0)
  {
    var t := Mounted(mount, nodes);
    var pending, done, hops := Start(t, rel), [], 0;
    while pending != []
      invariant hops <= MAX_SYMLINK_HOPS
      invariant Resolve(t, pending, done, hops) == Resolve(t, Start(t, rel), [], 0)
      decreases MAX_SYMLINK_HOPS - hops, |pending|
    {
      var part := pending[0];
      pending := pending[1..];
      if part == HERE {
        continue;
      }
      if part == UP {
        done := Pop(done);
        continue;
      }
      var sight := Look(t, done + [part]);
      if sight.Passable? {
        done := done + [part];
        continue;
      }
      if sight.Outside? {
        return Outcome(Escapes, done + [part] + pending);
      }
      if sight.Missing? {
        return Outcome(Dangling, done + [part] + pending);
      }
      if hops + 1 > MAX_SYMLINK_HOPS {
        return Outcome(Loop, done + [part] + pending);
      }
      hops := hops + 1;
      if sight.absolute {
        done := [];
      }
      pending := sight.target + pending;
    }
    r := Finish(t, done);
  }

  // ---------------------------------------------------------------- every prefix of `done`

  /** An ancestor of the tree, or an entry of the tree that exists and is no link. */
  predicate Solid(t: Tree, sys: Path) {
    || IsAncestor(t.base, sys)
    || (t.base <= sys && sys[|t.base|..] in t.nodes && t.nodes[sys[|t.base|..]].Plain?)
  }

  predicate Named(n: Name) {
    n != HERE && n != UP
  }

  ghost predicate AllNamed(path: Path) {
    forall k :: 0 <= k < |path| ==> Named(path[k])
  }

  lemma {:induction false} NormalHasNames(done: Path, parts: Path)
    requires AllNamed(done)
    ensures AllNamed(Normal(done, parts))
    decreases |parts|
  {
    if parts != [] {
      NormalHasNames(
        if parts[0] == HERE then done else if parts[0] == UP then Pop(done) else done + [parts[0]], parts[1..]);
    }
  }

  lemma {:induction false} NamesAreNormal(done: Path, parts: Path)
    requires AllNamed(parts)
    ensures Normal(done, parts) == done + parts
    decreases |parts|
  {
    if parts == [] {
      assert done + parts == done;
    } else {
      assert Named(parts[0]);
      NamesAreNormal(done + [parts[0]], parts[1..]);
      assert done + [parts[0]] + parts[1..] == done + parts;
    }
  }

  /** A normal path has no `.` and no `..`, and a path without them is normal. */
  lemma {:induction false} NormalIsNamed(done: Path, parts: Path)
    requires AllNamed(done)
    ensures AllNamed(Normal(done, parts))
    ensures AllNamed(parts) ==> Normal(done, parts) == done + parts
  {
    NormalHasNames(done, parts);
    if AllNamed(parts) {
      NamesAreNormal(done, parts);
    }
  }

  /** `..` takes back the component before it, and nothing more; at the root it takes back nothing. */
  lemma NormalTakesBack(done: Path, n: Name, rest: Path)
    requires Named(n)
    ensures Normal(done, [n, UP] + rest) == Normal(done, rest)
    ensures Normal(done, [HERE] + rest) == Normal(done, rest)
    ensures Normal([], [UP] + rest) == Normal([], rest)
  {
    var up := [UP] + rest;
    assert ([n, UP] + rest)[1..] == up && up[1..] == rest && ([HERE] + rest)[1..] == rest;
    assert Normal(done, [n, UP] + rest) == Normal(done + [n], up);
    assert (done + [n])[..|done|] == done;
  }

  lemma {:induction false} NormalSplits(done: Path, a: Path, b: Path)
    ensures Normal(done, a + b) == Normal(Normal(done, a), b)
    decreases |a|
  {
    if a == [] {
      assert a + b == b;
    } else {
      assert (a + b)[1..] == a[1..] + b;
      NormalSplits(if a[0] == HERE then done else if a[0] == UP then Pop(done) else done + [a[0]], a[1..], b);
    }
  }

  /** Every prefix is solid, and no component is `.` or `..`. */
  ghost predicate LinkFree(t: Tree, done: Path) {
    && (forall k :: 0 <= k <= |done| ==> Solid(t, done[..k]))
    && (forall k :: 0 <= k < |done| ==> Named(done[k]))
  }

  lemma LinkFreePush(t: Tree, done: Path, part: Name)
    requires LinkFree(t, done) && Named(part) && Look(t, done + [part]).Passable?
    ensures LinkFree(t, done + [part])
  {
    var at := done + [part];
    forall k | 0 <= k <= |at|
      ensures Solid(t, at[..k])
    {
      if k <= |done| {
        assert at[..k] == done[..k];
      } else {
        assert at[..k] == at;
      }
    }
  }

  lemma LinkFreePop(t: Tree, done: Path)
    requires LinkFree(t, done)
    ensures LinkFree(t, Pop(done))
  {
    if done != [] {
      forall k | 0 <= k <= |done| - 1
        ensures Solid(t, Pop(done)[..k])
      {
        assert Pop(done)[..k] == done[..k];
      }
    }
  }

  // What there is at a system path, in terms of the tree.

  predicate Beyond(t: Tree, sys: Path) {
    !IsAncestor(t.base, sys) && !(t.base <= sys)
  }

  predicate Absent(t: Tree, sys: Path) {
    !IsAncestor(t.base, sys) && t.base <= sys && sys[|t.base|..] !in t.nodes
  }

  /** A link, and where it points. */
  predicate LinkAt(t: Tree, sys: Path, absolute: bool, target: Path) {
    && !IsAncestor(t.base, sys) && t.base <= sys && sys[|t.base|..] in t.nodes
    && t.nodes[sys[|t.base|..]] == Link(absolute, target)
  }

  predicate IsLink(t: Tree, sys: Path) {
    && !IsAncestor(t.base, sys) && t.base <= sys && sys[|t.base|..] in t.nodes
    && t.nodes[sys[|t.base|..]].Link?
  }

  /** Why a walk ended: up to component `k` the path is link-free, and with it there is `what`. */
  ghost predicate StopsAt(t: Tree, path: Path, k: nat, what: (Tree, Path) -> bool) {
    k < |path| && LinkFree(t, path[..k]) && what(t, path[..k] + [path[k]])
  }

  ghost predicate Explained(t: Tree, o: Outcome) {
    match o.status
    case Ok => LinkFree(t, o.resolved)
    case Dangling => exists k :: StopsAt(t, o.resolved, k, Absent)
    case Escapes => exists k :: StopsAt(t, o.resolved, k, Beyond)
    case Loop => exists k :: StopsAt(t, o.resolved, k, IsLink)
  }

  lemma StopExplained(t: Tree, done: Path, part: Name, rest: Path, status: Status)
    requires LinkFree(t, done)
    requires match Look(t, done + [part])
             case Outside => status == Escapes
             case Missing => status == Dangling
             case Follow(_, _) => status == Loop
             case Passable => false
    ensures Explained(t, Outcome(status, done + [part] + rest))
  {
    var path := done + [part] + rest;
    assert path[..|done|] == done && path[|done|] == part;
    assert status == Dangling ==> StopsAt(t, path, |done|, Absent);
    assert status == Escapes ==> StopsAt(t, path, |done|, Beyond);
    assert status == Loop ==> StopsAt(t, path, |done|, IsLink);
  }

  lemma EndsInside(t: Tree, done: Path)
    requires LinkFree(t, done)
    ensures Finish(t, done) == Outcome(Ok, done)
  {
    assert done[..|done|] == done;
    assert Solid(t, done[..|done|]);
  }

  lemma {:induction false} ResolveExplained(t: Tree, pending: Path, done: Path, hops: nat)
    requires hops <= MAX_SYMLINK_HOPS && LinkFree(t, done)
    ensures Explained(t, Resolve(t, pending, done, hops))
    decreases MAX_SYMLINK_HOPS - hops, |pending|
  {
    if pending == [] {
      EndsInside(t, done);
    } else {
      var part, rest := pending[0], pending[1..];
      if part == HERE {
        ResolveExplained(t, rest, done, hops);
      } else if part == UP {
        LinkFreePop(t, done);
        ResolveExplained(t, rest, Pop(done), hops);
      } else {
        match Look(t, done + [part])
        case Passable =>
          LinkFreePush(t, done, part);
          ResolveExplained(t, rest, done + [part], hops);
        case Outside => StopExplained(t, done, part, rest, Escapes);
        case Missing => StopExplained(t, done, part, rest, Dangling);
        case Follow(absolute, target) =>
          if hops == MAX_SYMLINK_HOPS {
            StopExplained(t, done, part, rest, Loop);
          } else {
            ResolveExplained(t, target + rest, if absolute then [] else done, hops + 1);
          }
      }
    }
  }

  /** What each status means, for every symlink graph: `Ok` names a path of existing entries without a link, and each
      failure names a path that is link-free up to the component that is missing, outside, or one link too many. */
  lemma OutcomeMeans(t: Tree, rel: Path)
    ensures Explained(t, Resolve(t, Start(t, rel), [], 0))
  {
    ResolveExplained(t, Start(t, rel), [], 0);
  }

  /** The states the loop goes through. */
  ghost predicate Reaches(t: Tree, pending: Path, done: Path, hops: nat, toPending: Path, toDone: Path, turns: nat)
    requires hops <= MAX_SYMLINK_HOPS
    decreases turns
  {
    if turns == 0 then toPending == pending && toDone == done
    else
      pending != [] &&
      var part, rest := pending[0], pending[1..];
      if part == HERE then Reaches(t, rest, done, hops, toPending, toDone, turns - 1)
      else if part == UP then Reaches(t, rest, Pop(done), hops, toPending, toDone, turns - 1)
      else
        match Look(t, done + [part])
        case Passable => Reaches(t, rest, done + [part], hops, toPending, toDone, turns - 1)
        case Outside => false
        case Missing => false
        case Follow(absolute, target) =>
          hops < MAX_SYMLINK_HOPS &&
          Reaches(t, target + rest, if absolute then [] else done, hops + 1, toPending, toDone, turns - 1)
  }

  /** In every state of the loop, every prefix of `done` is an ancestor of the tree or an existing entry that is no
      link; so when nothing is pending the last `escapes` return is not taken. */
  lemma {:induction false} LoopStaysLinkFree(
      t: Tree, pending: Path, done: Path, hops: nat, p: Path, d: Path, turns: nat)
    requires hops <= MAX_SYMLINK_HOPS && LinkFree(t, done) && Reaches(t, pending, done, hops, p, d, turns)
    ensures LinkFree(t, d)
    ensures p == [] ==> Finish(t, d).status == Ok
    decreases turns
  {
    if turns == 0 {
      EndsInside(t, d);
    } else {
      var part, rest := pending[0], pending[1..];
      if part == HERE {
        LoopStaysLinkFree(t, rest, done, hops, p, d, turns - 1);
      } else if part == UP {
        LinkFreePop(t, done);
        LoopStaysLinkFree(t, rest, Pop(done), hops, p, d, turns - 1);
      } else {
        var sight := Look(t, done + [part]);
        if sight.Passable? {
          LinkFreePush(t, done, part);
          LoopStaysLinkFree(t, rest, done + [part], hops, p, d, turns - 1);
        } else {
          LoopStaysLinkFree(t, sight.target + rest, if sight.absolute then [] else done, hops + 1, p, d, turns - 1);
        }
      }
    }
  }

  // ---------------------------------------------------------------- dots and links

  /** From a directory that was reached `..` goes to the directory it is in; at the root it stays there. */
  lemma UpGoesBack(t: Tree, d: Path, n: Name, rest: Path, hops: nat)
    requires hops <= MAX_SYMLINK_HOPS
    ensures Resolve(t, [UP] + rest, d + [n], hops) == Resolve(t, rest, d, hops)
    ensures Resolve(t, [UP] + rest, [], hops) == Resolve(t, rest, [], hops)
    ensures Resolve(t, [HERE] + rest, d, hops) == Resolve(t, rest, d, hops)
  {
    assert ([UP] + rest)[1..] == rest && ([HERE] + rest)[1..] == rest;
    assert (d + [n])[..|d|] == d;
  }

  /** A link is followed from the directory that it stands in, an absolute one from the root. */
  lemma LinkGoesOn(t: Tree, d: Path, n: Name, absolute: bool, target: Path, rest: Path, hops: nat)
    requires hops < MAX_SYMLINK_HOPS && Named(n) && LinkAt(t, d + [n], absolute, target)
    ensures Resolve(t, [n] + rest, d, hops) == Resolve(t, target + rest, if absolute then [] else d, hops + 1)
  {
    assert ([n] + rest)[1..] == rest;
  }

  /** So a link to `../p` in one directory goes on with `p` from the directory above. */
  lemma LinkUpGoesOn(t: Tree, d: Path, m: Name, n: Name, p: Path, rest: Path, hops: nat)
    requires hops < MAX_SYMLINK_HOPS && Named(n) && LinkAt(t, d + [m] + [n], false, [UP] + p)
    ensures Resolve(t, [n] + rest, d + [m], hops) == Resolve(t, p + rest, d, hops + 1)
  {
    LinkGoesOn(t, d + [m], n, false, [UP] + p, rest, hops);
    UpGoesBack(t, d, m, p + rest, hops + 1);
    assert [UP] + p + rest == [UP] + (p + rest);
  }

  /** `links` links one after the other in the directory `d`, and a file at the end of them. */
  ghost predicate ChainOf(t: Tree, d: Path, names: Path, links: nat) {
    && |names| == links + 1 && AllNamed(names) && t.base <= d
    && (forall i :: 0 <= i < links ==> LinkAt(t, d + [names[i]], false, [names[i + 1]]))
    && d[|t.base|..] + [names[links]] in t.nodes && t.nodes[d[|t.base|..] + [names[links]]].Plain?
  }

  /** Exactly forty links can be followed. */
  lemma {:induction false} FortyLinks(t: Tree, d: Path, names: Path, links: nat, hops: nat)
    requires ChainOf(t, d, names, links) && hops <= 40
    ensures Resolve(t, [names[0]], d, hops).status == if hops + links <= 40 then Ok else Loop
    ensures hops + links <= 40 ==> Resolve(t, [names[0]], d, hops).resolved == d + [names[links]]
    decreases links
  {
    var at := d + [names[0]];
    assert [names[0]][1..] == [] && at[|t.base|..] == d[|t.base|..] + [names[0]];
    assert !IsAncestor(t.base, at);
    if links > 0 {
      assert LinkAt(t, at, false, [names[1]]);
      if hops < 40 {
        LinkGoesOn(t, d, names[0], false, [names[1]], [], hops);
        assert [names[0]] + [] == [names[0]] && [names[1]] + [] == [names[1]];
        FortyLinks(t, d, names[1..], links - 1, hops + 1);
      }
    }
  }

  // ---------------------------------------------------------------- resolving again

  lemma {:induction false} WalkLinkFree(t: Tree, path: Path, k: nat, hops: nat)
    requires LinkFree(t, path) && k <= |path| && hops <= MAX_SYMLINK_HOPS
    ensures Resolve(t, path[k..], path[..k], hops) == Outcome(Ok, path)
    decreases |path| - k
  {
    if k == |path| {
      assert path[k..] == [] && path[..k] == path;
      EndsInside(t, path);
    } else {
      assert path[k..][0] == path[k] && path[k..][1..] == path[k + 1..];
      assert path[..k] + [path[k]] == path[..k + 1];
      assert Solid(t, path[..k + 1]) && Named(path[k]);
      WalkLinkFree(t, path, k + 1, hops);
    }
  }

  /** A path that was reached resolves to itself, without using a hop. */
  lemma ResolvedIsFixed(t: Tree, rel: Path, hops: nat)
    requires Resolve(t, Start(t, rel), [], 0).status == Ok && hops <= MAX_SYMLINK_HOPS
    ensures Resolve(t, Resolve(t, Start(t, rel), [], 0).resolved, [], hops) == Resolve(t, Start(t, rel), [], 0)
  {
    OutcomeMeans(t, rel);
    var path := Resolve(t, Start(t, rel), [], 0).resolved;
    assert path[0..] == path && path[..0] == [];
    WalkLinkFree(t, path, 0, hops);
  }

  // ---------------------------------------------------------------- the nested definition

  datatype Walk = Arrived(at: Path, hops: nat) | Failed(outcome: Outcome)

  /** Resolution as it is usually described: to go past a link, first resolve its target, then go on from there. */
  function Nested(t: Tree, dir: Path, names: Path, hops: nat): (w: Walk)
    requires hops <= MAX_SYMLINK_HOPS
    ensures w.Arrived? ==> hops <= w.hops <= MAX_SYMLINK_HOPS
    decreases MAX_SYMLINK_HOPS - hops, |names|
  {
    if names == [] then Arrived(dir, hops)
    else
      var first := NestedOne(t, dir, names[0], hops);
      if first.Failed? then Failed(first.outcome.(resolved := first.outcome.resolved + names[1..]))
      else Nested(t, first.at, names[1..], first.hops)
  }

  function NestedOne(t: Tree, dir: Path, name: Name, hops: nat): (w: Walk)
    requires hops <= MAX_SYMLINK_HOPS
    ensures w.Arrived? ==> hops <= w.hops <= MAX_SYMLINK_HOPS
    decreases MAX_SYMLINK_HOPS - hops, 0
  {
    if name == HERE then Arrived(dir, hops)
    else if name == UP then Arrived(Pop(dir), hops)
    else
      match Look(t, dir + [name])
      case Passable => Arrived(dir + [name], hops)
      case Outside => Failed(Outcome(Escapes, dir + [name]))
      case Missing => Failed(Outcome(Dangling, dir + [name]))
      case Follow(absolute, target) =>
        if hops == MAX_SYMLINK_HOPS then Failed(Outcome(Loop, dir + [name]))
        else Nested(t, if absolute then [] else dir, target, hops + 1)
  }

  /** What the flat loop does with `more` once the nested walk is over. */
  function Then(t: Tree, w: Walk, more: Path): Outcome
    requires w.Arrived? ==> w.hops <= MAX_SYMLINK_HOPS
  {
    if w.Failed? then w.outcome.(resolved := w.outcome.resolved + more) else Resolve(t, more, w.at, w.hops)
  }

  lemma {:induction false} FlatOne(t: Tree, dir: Path, name: Name, more: Path, hops: nat)
    requires hops <= MAX_SYMLINK_HOPS
    ensures Resolve(t, [name] + more, dir, hops) == Then(t, NestedOne(t, dir, name, hops), more)
    decreases MAX_SYMLINK_HOPS - hops, 0
  {
    assert ([name] + more)[1..] == more;
    if Named(name) {
      var sight := Look(t, dir + [name]);
      if sight.Follow? && hops < MAX_SYMLINK_HOPS {
        FlatIsNested(t, if sight.absolute then [] else dir, sight.target, more, hops + 1);
      }
    }
  }

  /** The flat loop over pending components does what the nested definition does, at any depth of links, with the same
      count of hops, and with what was still pending appended to the path a failure reports. */
  lemma {:induction false} FlatIsNested(t: Tree, dir: Path, names: Path, more: Path, hops: nat)
    requires hops <= MAX_SYMLINK_HOPS
    ensures Resolve(t, names + more, dir, hops) == Then(t, Nested(t, dir, names, hops), more)
    decreases MAX_SYMLINK_HOPS - hops, |names|
  {
    if names == [] {
      assert names + more == more;
    } else {
      var first := NestedOne(t, dir, names[0], hops);
      assert names + more == [names[0]] + (names[1..] + more);
      FlatOne(t, dir, names[0], names[1..] + more, hops);
      if first.Failed? {
        assert first.outcome.resolved + (names[1..] + more) == first.outcome.resolved + names[1..] + more;
      } else {
        FlatIsNested(t, first.at, names[1..], more, first.hops);
      }
    }
  }

  // ---------------------------------------------------------------- what can matter

  /** No entry above `p` is a link, so looking `p` up follows none and stays in the tree. */
  ghost predicate Sheltered(t: Tree, p: Path) {
    forall j :: 0 <= j < |p| && |t.base| + j > 0 ==> Standing(t, p[..j])
  }

  ghost predicate Standing(t: Tree, p: Path) {
    p in t.nodes && t.nodes[p].Plain?
  }

  ghost predicate SameAt(t: Tree, u: Tree, p: Path) {
    (p in t.nodes <==> p in u.nodes) && (p in t.nodes ==> t.nodes[p] == u.nodes[p])
  }

  lemma LookedUpIsSheltered(t: Tree, done: Path, part: Name)
    requires LinkFree(t, done) && !IsAncestor(t.base, done + [part]) && t.base <= done + [part]
    ensures Sheltered(t, (done + [part])[|t.base|..])
  {
    var at := done + [part];
    var p := at[|t.base|..];
    forall j | 0 <= j < |p| && |t.base| + j > 0
      ensures Standing(t, p[..j])
    {
      var n := |t.base| + j;
      assert at[..n] == done[..n];
      assert Solid(t, done[..n]);
      assert done[..n][|t.base|..] == p[..j];
    }
  }

  /** The walk depends on nothing but entries whose parents are no links: two trees that agree on those give the same
      outcome, whatever lies behind a link, and nothing outside the tree plays a part. */
  lemma {:induction false} OnlyShelteredEntriesMatter(t: Tree, u: Tree, pending: Path, done: Path, hops: nat)
    requires hops <= MAX_SYMLINK_HOPS && LinkFree(t, done)
    requires t.base == u.base && forall p :: Sheltered(t, p) ==> SameAt(t, u, p)
    ensures Resolve(t, pending, done, hops) == Resolve(u, pending, done, hops)
    decreases MAX_SYMLINK_HOPS - hops, |pending|
  {
    if pending != [] {
      var part, rest := pending[0], pending[1..];
      if part == HERE {
        OnlyShelteredEntriesMatter(t, u, rest, done, hops);
      } else if part == UP {
        LinkFreePop(t, done);
        OnlyShelteredEntriesMatter(t, u, rest, Pop(done), hops);
      } else {
        var at := done + [part];
        assert Look(t, at) == Look(u, at) by {
          if !IsAncestor(t.base, at) && t.base <= at {
            LookedUpIsSheltered(t, done, part);
            assert SameAt(t, u, at[|t.base|..]);
          }
        }
        match Look(t, at)
        case Passable =>
          LinkFreePush(t, done, part);
          OnlyShelteredEntriesMatter(t, u, rest, at, hops);
        case Outside =>
        case Missing =>
        case Follow(absolute, target) =>
          if hops < MAX_SYMLINK_HOPS {
            OnlyShelteredEntriesMatter(t, u, target + rest, if absolute then [] else done, hops + 1);
          }
      }
    }
  }

  // ---------------------------------------------------------------- paths as text

  /** `/` and the components joined by `/`; the root itself is the empty text here. */
  function Slashed(path: Path): string {
    if path == [] then "" else ['/'] + path[0] + Slashed(path[1..])
  }

  ghost predicate NoSlash(path: Path) {
    forall k :: 0 <= k < |path| ==> '/' !in path[k]
  }

  lemma HeadsAgree(x: string, xs: string, y: string, ys: string)
    requires '/' !in x && '/' !in y && xs != [] && xs[0] == '/' && (ys == [] || ys[0] == '/')
    requires x + xs <= y + ys
    ensures x == y && xs <= ys
  {
    assert (x + xs)[|x|] == (y + ys)[|x|] == '/';
    assert forall k :: 0 <= k < |y| ==> (y + ys)[k] == y[k];
    assert (x + xs)[|y|] == (y + ys)[|y|] == '/';
    assert forall k :: 0 <= k < |x| ==> (x + xs)[k] == x[k];
    assert x == (x + xs)[..|x|] == (y + ys)[..|x|] == y;
    assert xs == (x + xs)[|x|..] && ys == (y + ys)[|y|..];
  }

  lemma {:induction false} PrefixSlashed(sys: Path, base: Path)
    requires sys <= base && |sys| < |base|
    ensures Slashed(sys) + ['/'] <= Slashed(base)
  {
    if sys != [] {
      PrefixSlashed(sys[1..], base[1..]);
      assert Slashed(sys) + ['/'] == ['/'] + sys[0] + (Slashed(sys[1..]) + ['/']);
    }
  }

  lemma {:induction false} SlashedPrefix(sys: Path, base: Path)
    requires NoSlash(sys) && NoSlash(base) && Slashed(sys) + ['/'] <= Slashed(base)
    ensures sys <= base && |sys| < |base|
  {
    if sys != [] {
      var left := Slashed(sys[1..]) + ['/'];
      var right := Slashed(base[1..]);
      assert Slashed(sys) + ['/'] == ['/'] + (sys[0] + left);
      assert Slashed(base) == ['/'] + (base[0] + right);
      assert sys[0] + left == (['/'] + (sys[0] + left))[1..] <= (['/'] + (base[0] + right))[1..] == base[0] + right;
      assert left[0] == '/' && (right == [] || right[0] == '/');
      HeadsAgree(sys[0], left, base[0], right);
      SlashedPrefix(sys[1..], base[1..]);
      assert sys == [sys[0]] + sys[1..] && base == [base[0]] + base[1..];
    }
  }

  /** `sys === '/' || base.startsWith(sys + '/')` on the text of two paths is the test for an ancestor, and
      `sys === base || sys.startsWith(base + '/')` is the test for being in the tree, component by component. */
  lemma StartsWithIsPrefix(sys: Path, base: Path)
    requires NoSlash(sys) && NoSlash(base)
    ensures IsAncestor(base, sys) <==> sys == [] || Slashed(sys) + ['/'] <= Slashed(base)
    ensures base <= sys <==> sys == base || base == [] || Slashed(base) + ['/'] <= Slashed(sys)
  {
    ProperPrefix(sys, base);
    ProperPrefix(base, sys);
  }

  lemma ProperPrefix(sys: Path, base: Path)
    requires NoSlash(sys) && NoSlash(base)
    ensures Slashed(sys) + ['/'] <= Slashed(base) <==> sys <= base && |sys| < |base|
  {
    if Slashed(sys) + ['/'] <= Slashed(base) {
      SlashedPrefix(sys, base);
    }
    if sys <= base && |sys| < |base| {
      PrefixSlashed(sys, base);
    }
  }
}
