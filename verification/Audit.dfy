/**
 Two walks over an npm audit report: forward along `via`, as ops/dependency-repair/lock-contract.py resolves an entry to
 its advisories, and backward, as scripts/ci/accepted-advisories.js collects the dependents of one.
 */
module Audit {
  import opened Reach

  datatype Via = Url(url: string) | Dep(name: string)

  type Findings = map<string, seq<Via>>

  datatype Result = Ok(urls: set<string>) | ReferenceMissing | NoAdvisory

  /** One entry names another one in its `via`. */
  function Step(findings: Findings): (string, string) -> bool {
    (a: string, b: string) => a in findings && Dep(b) in findings[a]
  }

  function Only(name: string): string -> bool {
    (x: string) => x == name
  }

  ghost predicate Reached(findings: Findings, a: string, b: string) {
    Reaches(Step(findings), a, b)
  }

  /** The advisories carried by what can be reached from `name`. */
  ghost function UrlsOf(findings: Findings, name: string): set<string> {
    set p, v | p in findings && v in findings[p] && v.Url? && Reached(findings, name, p) :: v.url
  }

  /** Everything but `name` itself from which `name` can be reached. */
  ghost function ChainOf(findings: Findings, name: string): set<string> {
    set d | d in findings && d != name && Reached(findings, d, name)
  }

  /** What is reached: the name itself, and whatever a `via` of something reached names; */
  lemma ReachedIsClosed(findings: Findings, name: string, a: string, b: string)
    ensures Reached(findings, name, name)
    ensures Reached(findings, name, a) && a in findings && Dep(b) in findings[a] ==> Reached(findings, name, b)
  {
    Here(Step(findings), name);
    if Reached(findings, name, a) && a in findings && Dep(b) in findings[a] {
      OneMore(Step(findings), name, a, b);
    }
  }

  /** and nothing else. */
  lemma ReachedIsLeast(findings: Findings, name: string, s: set<string>, x: string)
    requires name in s && forall a, b :: a in s && a in findings && Dep(b) in findings[a] ==> b in s
    requires Reached(findings, name, x)
    ensures x in s
  {
    ClosedHolds(Step(findings), s, name, x);
  }

  lemma FromOnly(findings: Findings, name: string, x: string)
    ensures From(Step(findings), Only(name), x) <==> Reached(findings, name, x)
  {
    if From(Step(findings), Only(name), x) {
      var r :| Only(name)(r) && Reaches(Step(findings), r, x);
    }
    if Reached(findings, name, x) {
      assert Only(name)(name);
    }
  }

  // ---------------------------------------------------------------- forward

  function UrlsIn(vias: seq<Via>): set<string> {
    set v | v in vias && v.Url? :: v.url
  }

  function DepsIn(vias: seq<Via>): seq<string> {
    if vias == [] then []
    else DepsIn(vias[..|vias| - 1]) + if vias[|vias| - 1].Dep? then [vias[|vias| - 1].name] else []
  }

  lemma {:induction false} DepsInMeans(vias: seq<Via>, b: string)
    ensures b in DepsIn(vias) <==> Dep(b) in vias
  {
    if vias != [] {
      var before, last := vias[..|vias| - 1], vias[|vias| - 1];
      assert vias == before + [last];
      DepsInMeans(before, b);
    }
  }

  method ReadVias(vias: seq<Via>) returns (urls: set<string>, names: seq<string>)
    ensures urls == UrlsIn(vias) && names == DepsIn(vias)
  {
    urls, names := {}, [];
    for i := 0 to |vias|
      invariant urls == UrlsIn(vias[..i]) && names == DepsIn(vias[..i])
    {
      assert vias[..i + 1][..i] == vias[..i];
      assert vias[..i + 1] == vias[..i] + [vias[i]];
      if vias[i].Url? {
        urls := urls + {vias[i].url};
      } else {
        names := names + [vias[i].name];
      }
    }
    assert vias[..|vias|] == vias;
  }

  ghost predicate Collected(findings: Findings, seen: set<string>, urls: set<string>) {
    seen <= findings.Keys && forall u :: u in urls <==> exists p :: p in seen && Url(u) in findings[p]
  }

  ghost predicate Working(
      findings: Findings, name: string, seen: set<string>, pending: seq<string>, urls: set<string>) {
    Search(Step(findings), Only(name), seen, pending) && Collected(findings, seen, urls)
  }

  lemma WorkingFirst(findings: Findings, name: string)
    ensures Working(findings, name, {}, [name], {})
  {
    FromOnly(findings, name, name);
    Here(Step(findings), name);
  }

  lemma WorkingSeen(
      findings: Findings, name: string, seen: set<string>, pending: seq<string>, x: string, urls: set<string>)
    requires Working(findings, name, seen, pending + [x], urls) && x in seen
    ensures Working(findings, name, seen, pending, urls)
  {
    SearchSeen(Step(findings), Only(name), seen, pending, x);
  }

  lemma CollectedMore(findings: Findings, seen: set<string>, x: string, urls: set<string>)
    requires Collected(findings, seen, urls) && x in findings
    ensures Collected(findings, seen + {x}, urls + UrlsIn(findings[x]))
  {
    forall u ensures u in UrlsIn(findings[x]) <==> Url(u) in findings[x] {
    }
  }

  lemma {:induction false} WorkingNew(
      findings: Findings, name: string, seen: set<string>, pending: seq<string>, x: string, urls: set<string>)
    requires Working(findings, name, seen, pending + [x], urls) && x in findings
    ensures Working(findings, name, seen + {x}, pending + DepsIn(findings[x]), urls + UrlsIn(findings[x]))
  {
    forall b ensures b in DepsIn(findings[x]) <==> Step(findings)(x, b) {
      DepsInMeans(findings[x], b);
    }
    SearchNew(Step(findings), Only(name), seen, pending, x, DepsIn(findings[x]));
    CollectedMore(findings, seen, x, urls);
  }

  lemma PendingReached(
      findings: Findings, name: string, seen: set<string>, pending: seq<string>, x: string, urls: set<string>)
    requires Working(findings, name, seen, pending + [x], urls)
    ensures Reached(findings, name, x)
  {
    assert x in pending + [x];
    FromOnly(findings, name, x);
  }

  lemma WorkingDone(findings: Findings, name: string, seen: set<string>, urls: set<string>)
    requires Working(findings, name, seen, [], urls)
    ensures urls == UrlsOf(findings, name)
    ensures forall x :: Reached(findings, name, x) ==> x in findings
  {
    SearchDone(Step(findings), Only(name), seen);
    forall x ensures x in seen <==> Reached(findings, name, x) {
      FromOnly(findings, name, x);
    }
    forall u ensures u in urls <==> u in UrlsOf(findings, name) {
      if u in urls {
        var p :| p in seen && Url(u) in findings[p];
        assert Url(u).Url? && Reached(findings, name, p);
      }
    }
  }

  /** `audit_observation.resolve`: refused exactly when some name that can be reached has no entry, or when nothing that
      can be reached carries an advisory; otherwise the advisories of all that can be reached. */
  method ResolveFinding(findings: Findings, name: string) returns (r: Result)
    ensures r.ReferenceMissing? <==> exists x :: Reached(findings, name, x) && x !in findings
    ensures r.NoAdvisory? ==> forall p, u :: Reached(findings, name, p) ==> Url(u) !in findings[p]
    ensures r.Ok? ==> r.urls != {}
    ensures r.Ok? ==> forall u :: u in r.urls <==> exists p :: Reached(findings, name, p) && Url(u) in findings[p]
  {
    var pending := [name];
    var seen: set<string>, urls: set<string> := {}, {};
    WorkingFirst(findings, name);
    while pending != []
      invariant Working(findings, name, seen, pending, urls)
      decreases |findings.Keys - seen|, |pending|
    {
      LastOf(pending);
      var current := pending[|pending| - 1];
      pending := pending[..|pending| - 1];
      if current !in findings {
        PendingReached(findings, name, seen, pending, current, urls);
        return ReferenceMissing;
      }
      if current in seen {
        WorkingSeen(findings, name, seen, pending, current, urls);
        continue;
      }
      WorkingNew(findings, name, seen, pending, current, urls);
      FewerLeft(findings.Keys, seen, current);
      seen := seen + {current};
      var more, names := ReadVias(findings[current]);
      urls := urls + more;
      pending := pending + names;
    }
    WorkingDone(findings, name, seen, urls);
    if urls == {} {
      return NoAdvisory;
    }
    return Ok(urls);
  }

  // ---------------------------------------------------------------- backward

  predicate Leads(vias: seq<Via>, reached: set<string>) {
    exists v :: v in vias && v.Dep? && v.name in reached
  }

  ghost predicate AllLead(findings: Findings, name: string, reached: set<string>) {
    name in reached && forall x :: x in reached ==> Reached(findings, x, name) && (x == name || x in findings)
  }

  /** No entry among the first `n` leads into the set without being in it. */
  ghost predicate StableTo(findings: Findings, order: seq<string>, reached: set<string>, n: nat) {
    forall k :: 0 <= k < n && k < |order| && order[k] in findings ==>
      order[k] in reached || !Leads(findings[order[k]], reached)
  }

  ghost predicate Lists(order: seq<string>, findings: Findings) {
    forall d :: d in order <==> d in findings
  }

  lemma LeadMore(findings: Findings, name: string, reached: set<string>, d: string)
    requires AllLead(findings, name, reached) && d in findings && Leads(findings[d], reached)
    ensures AllLead(findings, name, reached + {d})
  {
    var v :| v in findings[d] && v.Dep? && v.name in reached;
    assert Step(findings)(d, v.name);
    OneBefore(Step(findings), d, v.name, name);
  }

  lemma StableIsClosed(findings: Findings, order: seq<string>, reached: set<string>)
    requires Lists(order, findings) && StableTo(findings, order, reached, |order|)
    ensures Closed(Back(Step(findings)), reached)
  {
    forall a, b | a in reached && Back(Step(findings))(a, b) ensures b in reached {
      assert Step(findings)(b, a);
      assert b in order;
      var k :| 0 <= k < |order| && order[k] == b;
      assert Leads(findings[b], reached);
    }
  }

  lemma StableIsAll(findings: Findings, order: seq<string>, name: string, reached: set<string>)
    requires Lists(order, findings) && AllLead(findings, name, reached) && StableTo(findings, order, reached, |order|)
    ensures reached - {name} == ChainOf(findings, name)
  {
    StableIsClosed(findings, order, reached);
    forall d | Reached(findings, d, name) ensures d in reached {
      Converse(Step(findings), d, name);
      ClosedHolds(Back(Step(findings)), reached, name, d);
    }
  }

  /** How far a pass has come, and what it has found so far. */
  ghost predicate Passing(
      findings: Findings, order: seq<string>, name: string, before: set<string>, reached: set<string>,
      grew: bool, n: nat)
  {
    && AllLead(findings, name, reached)
    && (grew ==> |findings.Keys - reached| < |findings.Keys - before|)
    && (!grew ==> reached == before && StableTo(findings, order, reached, n))
  }

  lemma PassingAdds(findings: Findings, order: seq<string>, name: string, before: set<string>, reached: set<string>,
      grew: bool, n: nat, d: string)
    requires Passing(findings, order, name, before, reached, grew, n)
    requires d in findings && d !in reached && Leads(findings[d], reached)
    ensures Passing(findings, order, name, before, reached + {d}, true, n + 1)
  {
    LeadMore(findings, name, reached, d);
    FewerLeft(findings.Keys, reached, d);
  }

  lemma PassingSkips(findings: Findings, order: seq<string>, name: string, before: set<string>, reached: set<string>,
      grew: bool, n: nat)
    requires Passing(findings, order, name, before, reached, grew, n) && n < |order| && order[n] in findings
    requires order[n] in reached || !Leads(findings[order[n]], reached)
    ensures Passing(findings, order, name, before, reached, grew, n + 1)
  {
  }

  /** One pass over all entries. */
  method Pass(findings: Findings, order: seq<string>, name: string, before: set<string>)
      returns (reached: set<string>, grew: bool)
    requires Lists(order, findings) && AllLead(findings, name, before)
    ensures Passing(findings, order, name, before, reached, grew, |order|)
  {
    reached, grew := before, false;
    for i := 0 to |order|
      invariant Passing(findings, order, name, before, reached, grew, i)
    {
      var dependent := order[i];
      assert dependent in order;
      if dependent in reached || !Leads(findings[dependent], reached) {
        PassingSkips(findings, order, name, before, reached, grew, i);
      } else {
        PassingAdds(findings, order, name, before, reached, grew, i, dependent);
        reached := reached + {dependent};
        grew := true;
      }
    }
  }

  /** `dependentChain`, before it is sorted and rendered: passes over all entries until one adds nothing. `order` is the
      order in which the entries are listed, and plays no part in the result. */
  method DependentChain(findings: Findings, order: seq<string>, name: string) returns (chain: set<string>)
    requires Lists(order, findings)
    ensures forall d :: d in chain <==> d in findings && d != name && Reached(findings, d, name)
  {
    var reached := {name};
    Here(Step(findings), name);
    var grew := true;
    while grew
      invariant AllLead(findings, name, reached)
      invariant !grew ==> StableTo(findings, order, reached, |order|)
      decreases |findings.Keys - reached|, grew
    {
      reached, grew := Pass(findings, order, name, reached);
    }
    StableIsAll(findings, order, name, reached);
    return reached - {name};
  }

  // ---------------------------------------------------------------- the two walks together

  ghost predicate ReferencesListed(findings: Findings) {
    forall d, v :: d in findings && v in findings[d] && v.Dep? ==> v.name in findings
  }

  lemma {:induction false} ListedStays(findings: Findings, a: string, b: string, n: nat)
    requires ReferencesListed(findings) && a in findings && Steps(Step(findings), a, b, n)
    ensures b in findings
    decreases n
  {
    if n > 0 {
      var m :| Step(findings)(a, m) && Steps(Step(findings), m, b, n - 1);
      assert Dep(m) in findings[a];
      ListedStays(findings, m, b, n - 1);
    }
  }

  /** The walks are converses: in a report whose references are all listed, the forward walk from `d` succeeds or
      finds no advisory, and it finds one of `p` exactly when `d` is such a `p` or lies in the chain of one. */
  lemma WalksAreConverse(findings: Findings, d: string, u: string)
    requires ReferencesListed(findings) && d in findings
    ensures forall x :: Reached(findings, d, x) ==> x in findings
    ensures u in UrlsOf(findings, d)
      <==> exists p :: p in findings && Url(u) in findings[p] && (d == p || d in ChainOf(findings, p))
  {
    forall x | Reached(findings, d, x) ensures x in findings {
      var n: nat :| Steps(Step(findings), d, x, n);
      ListedStays(findings, d, x, n);
    }
    if u in UrlsOf(findings, d) {
      var p, v :| p in findings && v in findings[p] && v.Url? && Reached(findings, d, p) && v.url == u;
      assert v == Url(u);
      assert d == p || d in ChainOf(findings, p);
    }
    forall p | p in findings && Url(u) in findings[p] && (d == p || d in ChainOf(findings, p))
      ensures u in UrlsOf(findings, d)
    {
      Here(Step(findings), d);
      assert Url(u).Url? && Reached(findings, d, p);
    }
  }
}
