/** Conformance of workspace dependencies to the architecture: which projects depend on which through
    production code, and the shortest forbidden paths among them. */
module SourceConformance {
  import opened SourceGraphs
  import opened Texts
  import opened Walks
  import opened Search = Reachability
  import opened RelationPaths

  const DEPENDS_ON: PredicateId := "depends_on"

  /** For each project the projects it depends on, with the (sorted, distinct) evidence. */
  type Dependencies = map<ProjectId, map<ProjectId, set<SourceEvidence>>>

  ghost function DependencyEdges(dependencies: Dependencies): (edges: set<(ProjectId, ProjectId)>)
    ensures forall p, q :: (p, q) in edges <==> p in dependencies && q in dependencies[p]
  {
    set p, q | p in dependencies && q in dependencies[p] :: (p, q)
  }

  // ---------- collecting the dependencies ----------

  predicate IsDependencyKind(kind: SourceEdgeKind) {
    kind.ModuleDependency? || kind.DynamicImport? || kind.GlobImport? || kind.Require? || kind.WorkspaceSourceBypass?
  }

  /** The edge makes project `p` depend on project `q`: it leaves a node that production reaches. */
  ghost predicate Depends(g: Graph, e: SourceEdge, p: ProjectId, q: ProjectId) {
    && e in g.edges && IsDependencyKind(e.kind) && Production in RolesIn(VisitsOf(g, e.from), e.from)
    && e.to.Node? && e.from in g.nodes && e.to.id in g.nodes
    && g.nodes[e.from].project == p && g.nodes[e.to.id].project == q && p != q
  }

  ghost function Evidence(g: Graph, edges: set<SourceEdge>, p: ProjectId, q: ProjectId): set<SourceEvidence> {
    set e | e in edges && Depends(g, e, p, q) :: e.evidence
  }

  function EvidenceAt(dependencies: Dependencies, p: ProjectId, q: ProjectId): set<SourceEvidence> {
    if p in dependencies && q in dependencies[p] then dependencies[p][q] else {}
  }

  ghost predicate NoEmptyEvidence(dependencies: Dependencies) {
    forall p, q :: p in dependencies && q in dependencies[p] ==> dependencies[p][q] != {}
  }

  ghost predicate NoSelfDependency(dependencies: Dependencies) {
    forall p :: p in dependencies ==> p !in dependencies[p]
  }

  /** The dependencies hold the evidence of exactly these edges, and no empty entry. */
  ghost predicate Collected(g: Graph, edges: set<SourceEdge>, dependencies: Dependencies) {
    && NoEmptyEvidence(dependencies)
    && forall p, q :: EvidenceAt(dependencies, p, q) == Evidence(g, edges, p, q)
  }

  function WithEvidence(dependencies: Dependencies, p: ProjectId, q: ProjectId, evidence: SourceEvidence)
    : Dependencies
  {
    var targets := if p in dependencies then dependencies[p] else map[];
    dependencies[p := targets[q := EvidenceAt(dependencies, p, q) + {evidence}]]
  }

  lemma EvidenceAdded(dependencies: Dependencies, p: ProjectId, q: ProjectId, evidence: SourceEvidence)
    ensures var more := WithEvidence(dependencies, p, q, evidence);
            && (NoEmptyEvidence(dependencies) ==> NoEmptyEvidence(more))
            && forall a, b :: EvidenceAt(more, a, b)
                 == EvidenceAt(dependencies, a, b) + if a == p && b == q then {evidence} else {}
  {
  }

  lemma CollectDependency(g: Graph, edges: set<SourceEdge>, dependencies: Dependencies, e: SourceEdge,
                          p: ProjectId, q: ProjectId)
    requires Collected(g, edges, dependencies) && Depends(g, e, p, q)
    ensures Collected(g, edges + {e}, WithEvidence(dependencies, p, q, e.evidence))
  {
    hide RolesIn, VisitsOf, EvidenceAt, WithEvidence, NoEmptyEvidence;
    EvidenceAdded(dependencies, p, q, e.evidence);
    forall a, b
      ensures Evidence(g, edges + {e}, a, b)
           == if a == p && b == q then Evidence(g, edges, a, b) + {e.evidence} else Evidence(g, edges, a, b)
    {
      OneMoreEdge(g, edges, e, a, b);
    }
  }

  lemma OneMoreEdge(g: Graph, edges: set<SourceEdge>, e: SourceEdge, p: ProjectId, q: ProjectId)
    ensures Evidence(g, edges + {e}, p, q)
         == if Depends(g, e, p, q) then Evidence(g, edges, p, q) + {e.evidence} else Evidence(g, edges, p, q)
  {
    hide Depends;
  }

  lemma SkipDependency(g: Graph, edges: set<SourceEdge>, dependencies: Dependencies, e: SourceEdge)
    requires Collected(g, edges, dependencies) && forall p, q :: !Depends(g, e, p, q)
    ensures Collected(g, edges + {e}, dependencies)
  {
    hide Depends, EvidenceAt, NoEmptyEvidence;
    forall p, q
      ensures Evidence(g, edges + {e}, p, q) == Evidence(g, edges, p, q)
    {
      OneMoreEdge(g, edges, e, p, q);
    }
  }

  method WorkspaceDependencies(g: Graph, reachability: Reachability) returns (dependencies: Dependencies)
    requires forall n :: reachability.Answers(g, n)
    ensures Collected(g, g.edges, dependencies)
  {
    hide RolesIn, VisitsOf, Collected, RootsIn, ContextsIn;
    dependencies := map[];
    var rest := g.edges;
    assert Collected(g, {}, map[]) by { NothingCollected(g); }
    assert g.edges - rest == {};
    while rest != {}
      invariant rest <= g.edges
      invariant Collected(g, g.edges - rest, dependencies)
    {
      var e :| e in rest;
      ghost var before := g.edges - rest;
      rest := rest - {e};
      assert g.edges - rest == before + {e};
      assert reachability.Answers(g, e.from);
      if IsDependencyKind(e.kind) && Production in reachability.Roles(e.from) && e.to.Node?
         && e.from in g.nodes && e.to.id in g.nodes && g.nodes[e.from].project != g.nodes[e.to.id].project
      {
        var p, q := g.nodes[e.from].project, g.nodes[e.to.id].project;
        CollectDependency(g, before, dependencies, e, p, q);
        dependencies := WithEvidence(dependencies, p, q, e.evidence);
      } else {
        SkipDependency(g, before, dependencies, e);
      }
    }
    assert g.edges - rest == g.edges;
  }

  lemma NothingCollected(g: Graph)
    ensures Collected(g, {}, map[])
  {
  }

  /** The projects that production code makes depend on each other. */
  ghost function ProjectEdges(g: Graph): (edges: set<(ProjectId, ProjectId)>)
    ensures forall p, q :: (p, q) in edges <==> exists e :: Depends(g, e, p, q)
  {
    set e | e in g.edges && e.to.Node? && e.from in g.nodes && e.to.id in g.nodes
            && Depends(g, e, g.nodes[e.from].project, g.nodes[e.to.id].project)
         :: (g.nodes[e.from].project, g.nodes[e.to.id].project)
  }

  lemma CollectedAll(g: Graph, dependencies: Dependencies)
    requires Collected(g, g.edges, dependencies)
    ensures DependencyEdges(dependencies) == ProjectEdges(g)
    ensures NoEmptyEvidence(dependencies) && NoSelfDependency(dependencies)
  {
    hide RolesIn, VisitsOf;
    forall p, q
      ensures (p, q) in DependencyEdges(dependencies) <==> (p, q) in ProjectEdges(g)
      ensures (p, q) in DependencyEdges(dependencies) ==> p != q
    {
      if e :| Depends(g, e, p, q) {
        assert e.evidence in Evidence(g, g.edges, p, q);
      }
      if (p, q) in DependencyEdges(dependencies) {
        assert EvidenceAt(dependencies, p, q) != {};
        var x :| x in Evidence(g, g.edges, p, q);
      }
    }
  }

  // ---------- the path search ----------

  /** The search tree: every found project but the source hangs below a project one level up. */
  ghost predicate Tree(edges: set<(ProjectId, ProjectId)>, source: ProjectId,
                       parents: map<ProjectId, ProjectId>, level: map<ProjectId, nat>)
  {
    && source in level && level[source] == 0 && source !in parents
    && (forall n :: n in level && n != source ==> n in parents)
    && (forall n :: n in parents ==>
          n in level && parents[n] in level && (parents[n], n) in edges && level[n] == level[parents[n]] + 1)
  }

  /** The waiting projects are sorted by level, and nothing found is more than a level below `d`. */
  ghost predicate Layered(level: map<ProjectId, nat>, queue: seq<ProjectId>, d: nat) {
    && (forall n :: n in queue ==> n in level && d <= level[n])
    && (forall n :: n in level ==> level[n] <= d + 1)
    && (forall i, j :: 0 <= i < j < |queue| ==> level[queue[i]] <= level[queue[j]])
  }

  ghost predicate Expanded(edges: set<(ProjectId, ProjectId)>, level: map<ProjectId, nat>, u: ProjectId) {
    forall w :: (u, w) in edges ==> w in level && (u in level ==> level[w] <= level[u] + 1)
  }

  /** Everything found has been expanded, except for the projects listed. */
  ghost predicate ExpandedBut(edges: set<(ProjectId, ProjectId)>, level: map<ProjectId, nat>, rest: seq<ProjectId>) {
    forall u :: u in level && u !in rest ==> Expanded(edges, level, u)
  }

  /** The state of the search, with the projects that are found but not yet expanded. */
  ghost predicate Crawl(edges: set<(ProjectId, ProjectId)>, source: ProjectId, parents: map<ProjectId, ProjectId>,
                        level: map<ProjectId, nat>, queue: seq<ProjectId>, rest: seq<ProjectId>, d: nat)
  {
    Tree(edges, source, parents, level) && Layered(level, queue, d) && ExpandedBut(edges, level, rest)
  }

  ghost function Within(edges: set<(ProjectId, ProjectId)>, source: ProjectId): (nodes: set<ProjectId>)
    ensures source in nodes && forall a, b :: (a, b) in edges ==> b in nodes
  {
    var targets := set e | e in edges :: e.1;
    assert forall a, b :: (a, b) in edges ==> (a, b).1 in targets;
    {source} + targets
  }

  /** Everything found above level `d` has been expanded. */
  ghost predicate ExpandedAbove(edges: set<(ProjectId, ProjectId)>, level: map<ProjectId, nat>, d: nat) {
    forall u :: u in level && level[u] < d ==> Expanded(edges, level, u)
  }

  lemma {:induction false} FoundByLevel(edges: set<(ProjectId, ProjectId)>, source: ProjectId,
                                        level: map<ProjectId, nat>, d: nat, n: ProjectId, k: nat)
    requires source in level && level[source] == 0 && ExpandedAbove(edges, level, d)
    requires Steps(edges, source, n, k) && k <= d
    ensures n in level && level[n] <= k
    decreases k
  {
    if k > 0 {
      var m :| Steps(edges, source, m, k - 1) && (m, n) in edges;
      FoundByLevel(edges, source, level, d, m, k - 1);
      assert Expanded(edges, level, m);
    }
  }

  /** A shortest walk of different projects, from the source to the target. */
  ghost predicate ShortestPath(edges: set<(ProjectId, ProjectId)>, source: ProjectId, target: ProjectId,
                               path: seq<ProjectId>)
  {
    && IsWalk(edges, path) && path[0] == source && path[|path| - 1] == target
    && (forall i, j :: 0 <= i < j < |path| ==> path[i] != path[j])
    && (forall k: nat :: Steps(edges, source, target, k) ==> |path| - 1 <= k)
  }

  /** Follows the parents up from the target, then turns the list around. */
  method PathTo(source: ProjectId, target: ProjectId, parents: map<ProjectId, ProjectId>,
                ghost edges: set<(ProjectId, ProjectId)>, ghost level: map<ProjectId, nat>,
                ghost queue: seq<ProjectId>, ghost rest: seq<ProjectId>, ghost d: nat)
    returns (path: seq<ProjectId>)
    requires Crawl(edges, source, parents, level, queue, rest, d) && target in level
    ensures IsWalk(edges, path) && path[0] == source && path[|path| - 1] == target
    ensures |path| == level[target] + 1
    ensures forall i, j :: 0 <= i < j < |path| ==> path[i] != path[j]
  {
    hide Layered, ExpandedBut;
    var up := [target];
    while up[|up| - 1] in parents
      invariant up != [] && up[0] == target
      invariant forall i :: 0 <= i < |up| ==> up[i] in level && level[up[i]] == level[target] - i
      invariant forall i, j :: 0 <= i && j == i + 1 && j < |up| ==> (up[j], up[i]) in edges
      decreases level[up[|up| - 1]]
    {
      up := up + [parents[up[|up| - 1]]];
    }
    path := Reversed(up);
    forall i, j | 0 <= i && j == i + 1 && j < |path|
      ensures (path[i], path[j]) in edges
    {
      assert path[i] == up[|up| - 1 - i] && path[j] == up[|up| - 2 - i];
    }
  }

  function Reversed(s: seq<ProjectId>): (r: seq<ProjectId>)
    ensures |r| == |s| && forall i :: 0 <= i < |r| ==> r[i] == s[|s| - 1 - i]
  {
    seq(|s|, i requires 0 <= i < |s| => s[|s| - 1 - i])
  }

  function TargetsOf(dependencies: Dependencies, current: ProjectId): (targets: set<ProjectId>)
    ensures forall w :: w in targets <==> (current, w) in DependencyEdges(dependencies)
  {
    if current in dependencies then dependencies[current].Keys else {}
  }

  /** Finds a shortest dependency path exactly when the target is another project the source reaches. */
  method DependencyPath(dependencies: Dependencies, source: ProjectId, target: ProjectId)
    returns (path: Option<seq<ProjectId>>)
    ensures path.Some? <==> source != target && Reaches(DependencyEdges(dependencies), source, target)
    ensures path.Some? ==> ShortestPath(DependencyEdges(dependencies), source, target, path.value)
  {
    hide Crawl, DependencyEdges, ShortestPath, Reaches, Within;
    ghost var edges := DependencyEdges(dependencies);
    ghost var nodes := Within(edges, source);
    var parents: map<ProjectId, ProjectId> := map[];
    var visited, queue := {source}, [source];
    ghost var level: map<ProjectId, nat> := map[source := 0];
    ghost var d: nat := 0;
    StartSearch(edges, source);
    while queue != []
      invariant visited == level.Keys <= nodes
      invariant Crawl(edges, source, parents, level, queue, queue, d)
      invariant target in visited ==> target == source
      decreases nodes - visited, |queue|
    {
      var current := queue[0];
      d := NextLevel(edges, source, parents, level, queue, d);
      queue := queue[1..];
      var targets := TargetsOf(dependencies, current);
      ghost var all := targets;
      ghost var before, length := visited, |queue|;
      while targets != {}
        invariant targets <= all
        invariant visited == level.Keys <= nodes && before <= visited
        invariant visited == before ==> |queue| == length
        invariant current in level && level[current] == d
        invariant Crawl(edges, source, parents, level, queue, [current] + queue, d)
        invariant forall w :: w in all - targets ==> w in visited
        invariant target in visited ==> target == source
      {
        var next :| next in targets;
        targets := targets - {next};
        if next in visited {
          continue;
        }
        if next == target {
          FirstFound(edges, source, parents, level, queue, d, current, target);
        }
        AddChild(edges, source, parents, level, queue, d, current, next);
        visited := visited + {next};
        parents := parents[next := current];
        level := level[next := d + 1];
        if next == target {
          var p := PathTo(source, target, parents, edges, level, queue + [next], [current] + (queue + [next]), d);
          PathIsShortest(edges, source, target, p, d);
          return Some(p);
        }
        queue := queue + [next];
      }
      AllChildrenFound(edges, source, parents, level, queue, d, current);
    }
    SearchExhausted(edges, source, target, level, parents, d);
    return None;
  }

  lemma StartSearch(edges: set<(ProjectId, ProjectId)>, source: ProjectId)
    ensures Crawl(edges, source, map[], map[source := 0], [source], [source], 0)
  {
  }

  lemma NextLevel(edges: set<(ProjectId, ProjectId)>, source: ProjectId, parents: map<ProjectId, ProjectId>,
                  level: map<ProjectId, nat>, queue: seq<ProjectId>, d: nat) returns (next: nat)
    requires queue != [] && Crawl(edges, source, parents, level, queue, queue, d)
    ensures queue[0] in level && next == level[queue[0]]
    ensures Crawl(edges, source, parents, level, queue[1..], [queue[0]] + queue[1..], next)
  {
    hide Tree, ExpandedBut;
    next := level[queue[0]];
    assert [queue[0]] + queue[1..] == queue;
  }

  lemma TreeGrows(edges: set<(ProjectId, ProjectId)>, source: ProjectId, parents: map<ProjectId, ProjectId>,
                  level: map<ProjectId, nat>, current: ProjectId, next: ProjectId)
    requires Tree(edges, source, parents, level) && current in level && (current, next) in edges && next !in level
    ensures Tree(edges, source, parents[next := current], level[next := level[current] + 1])
  {
  }

  lemma LayersGrow(level: map<ProjectId, nat>, queue: seq<ProjectId>, d: nat, next: ProjectId)
    requires Layered(level, queue, d) && next !in level
    ensures Layered(level[next := d + 1], queue + [next], d)
  {
  }

  lemma StillExpanded(edges: set<(ProjectId, ProjectId)>, level: map<ProjectId, nat>, queue: seq<ProjectId>,
                      current: ProjectId, next: ProjectId, d: nat)
    requires ExpandedBut(edges, level, [current] + queue) && next !in level
    ensures ExpandedBut(edges, level[next := d], [current] + (queue + [next]))
  {
    forall u | u in level && u !in [current] + queue
      ensures Expanded(edges, level[next := d], u)
    {
      assert Expanded(edges, level, u);
    }
    hide Expanded;
    assert forall u :: u in [current] + queue ==> u in [current] + (queue + [next]);
    assert next in [current] + (queue + [next]);
  }

  lemma AddChild(edges: set<(ProjectId, ProjectId)>, source: ProjectId, parents: map<ProjectId, ProjectId>,
                 level: map<ProjectId, nat>, queue: seq<ProjectId>, d: nat, current: ProjectId, next: ProjectId)
    requires Crawl(edges, source, parents, level, queue, [current] + queue, d)
    requires current in level && level[current] == d && (current, next) in edges && next !in level
    ensures Crawl(edges, source, parents[next := current], level[next := d + 1], queue + [next],
                  [current] + (queue + [next]), d)
  {
    hide Tree, Layered, ExpandedBut;
    TreeGrows(edges, source, parents, level, current, next);
    LayersGrow(level, queue, d, next);
    StillExpanded(edges, level, queue, current, next, d + 1);
  }

  lemma AllChildrenFound(edges: set<(ProjectId, ProjectId)>, source: ProjectId, parents: map<ProjectId, ProjectId>,
                         level: map<ProjectId, nat>, queue: seq<ProjectId>, d: nat, current: ProjectId)
    requires Crawl(edges, source, parents, level, queue, [current] + queue, d)
    requires current in level && level[current] == d && forall w :: (current, w) in edges ==> w in level
    ensures Crawl(edges, source, parents, level, queue, queue, d)
  {
    assert Expanded(edges, level, current);
  }

  /** While a project has not been found, no walk of the levels seen so far leads to it. */
  lemma FirstFound(edges: set<(ProjectId, ProjectId)>, source: ProjectId, parents: map<ProjectId, ProjectId>,
                   level: map<ProjectId, nat>, queue: seq<ProjectId>, d: nat, current: ProjectId, target: ProjectId)
    requires Crawl(edges, source, parents, level, queue, [current] + queue, d)
    requires target !in level && current in level && level[current] == d
    ensures forall k: nat :: Steps(edges, source, target, k) ==> d + 1 <= k
  {
    hide Expanded;
    forall k: nat | Steps(edges, source, target, k)
      ensures d + 1 <= k
    {
      if k <= d {
        FoundByLevel(edges, source, level, d, target, k);
      }
    }
  }

  lemma PathIsShortest(edges: set<(ProjectId, ProjectId)>, source: ProjectId, target: ProjectId,
                       path: seq<ProjectId>, d: nat)
    requires IsWalk(edges, path) && path[0] == source && path[|path| - 1] == target && |path| == d + 2
    requires forall i, j :: 0 <= i < j < |path| ==> path[i] != path[j]
    requires forall k: nat :: Steps(edges, source, target, k) ==> d + 1 <= k
    ensures ShortestPath(edges, source, target, path) && Reaches(edges, source, target) && source != target
  {
    WalkSteps(edges, path);
  }

  lemma SearchExhausted(edges: set<(ProjectId, ProjectId)>, source: ProjectId, target: ProjectId,
                        level: map<ProjectId, nat>, parents: map<ProjectId, ProjectId>, d: nat)
    requires Crawl(edges, source, parents, level, [], [], d)
    requires target in level ==> target == source
    ensures !(source != target && Reaches(edges, source, target))
  {
    if n: nat :| Steps(edges, source, target, n) {
      ClosedHolds(edges, level.Keys, source, target, n);
    }
  }

  // ---------- constraints ----------

  datatype Verdict =
    | Ignored
    | Skipped
    | Kept
    | Violated(path: seq<ProjectId>, evidence: seq<SourceEvidence>)

  /** The rules that speak about observed dependencies, with the objects they forbid to connect. */
  function Ends(rule: Rule): Option<(ObjectId, ObjectId)> {
    match rule
    case NoPath(via, from, to) => if DEPENDS_ON in via then Some((from, to)) else None
    case ForbidsRelation(kind, subject, target) => if kind == DEPENDS_ON then Some((subject, target)) else None
    case _ => None
  }

  type Bindings = map<ObjectId, ProjectId>

  predicate Bound(bindings: Bindings, rule: Rule) {
    Ends(rule).Some? && Ends(rule).value.0 in bindings && Ends(rule).value.1 in bindings
  }

  predicate Unbound(bindings: Bindings, rule: Rule) {
    Ends(rule).Some? && !Bound(bindings, rule)
  }

  /** The dependencies do what the rule forbids. */
  ghost predicate Breaks(edges: set<(ProjectId, ProjectId)>, rule: Rule, source: ProjectId, target: ProjectId) {
    if rule.NoPath? then source != target && Reaches(edges, source, target)
    else (source, target) in edges
  }

  ghost predicate Broken(edges: set<(ProjectId, ProjectId)>, bindings: Bindings, rule: Rule) {
    && Bound(bindings, rule)
    && Breaks(edges, rule, bindings[Ends(rule).value.0], bindings[Ends(rule).value.1])
  }

  // ---------- the order of evidence ----------

  predicate SpanLess(a: Span, b: Span) {
    if a.startLine != b.startLine then a.startLine < b.startLine
    else if a.startCol != b.startCol then a.startCol < b.startCol
    else if a.endLine != b.endLine then a.endLine < b.endLine
    else a.endCol < b.endCol
  }

  /** By path, then by span, none first, then by extractor. */
  predicate EvidenceLess(a: SourceEvidence, b: SourceEvidence) {
    if a.path != b.path then Less(a.path, b.path)
    else if a.span != b.span then b.span.Some? && (a.span.None? || SpanLess(a.span.value, b.span.value))
    else Less(a.extractor, b.extractor)
  }

  lemma EvidenceLessIsOrder(a: SourceEvidence, b: SourceEvidence, c: SourceEvidence)
    ensures a == b || EvidenceLess(a, b) || EvidenceLess(b, a)
    ensures EvidenceLess(a, b) && EvidenceLess(b, c) ==> EvidenceLess(a, c)
  {
    LessIsOrder(a.path, b.path, c.path);
    LessIsOrder(a.path, b.path, a.path);
    LessIsOrder(a.extractor, b.extractor, c.extractor);
  }

  /** The first item of the sorted list of these. */
  ghost predicate IsFirst(known: set<SourceEvidence>, first: SourceEvidence) {
    first in known && forall e :: e in known ==> e == first || EvidenceLess(first, e)
  }

  method FirstOf(known: set<SourceEvidence>) returns (first: SourceEvidence)
    requires known != {}
    ensures IsFirst(known, first)
  {
    hide EvidenceLess;
    first :| first in known;
    var rest := known - {first};
    while rest != {}
      invariant rest <= known && IsFirst(known - rest, first)
    {
      var e :| e in rest;
      rest := rest - {e};
      EvidenceLessIsOrder(e, first, first);
      if EvidenceLess(e, first) {
        forall d | d in known - rest
          ensures d == e || EvidenceLess(e, d)
        {
          EvidenceLessIsOrder(e, first, d);
        }
        first := e;
      }
    }
    assert known - rest == known;
  }

  /** For each hop the first item of its evidence. */
  ghost predicate Evident(dependencies: Dependencies, path: seq<ProjectId>, evidence: seq<SourceEvidence>) {
    && |path| == |evidence| + 1
    && forall i, j :: 0 <= i && j == i + 1 && j < |path| ==>
         IsFirst(EvidenceAt(dependencies, path[i], path[j]), evidence[i])
  }

  lemma EvidentMore(dependencies: Dependencies, path: seq<ProjectId>, evidence: seq<SourceEvidence>,
                    next: ProjectId, item: SourceEvidence)
    requires path != [] && Evident(dependencies, path, evidence)
    requires IsFirst(EvidenceAt(dependencies, path[|path| - 1], next), item)
    ensures Evident(dependencies, path + [next], evidence + [item])
  {
    hide IsFirst, EvidenceAt;
  }

  method EvidenceAlong(dependencies: Dependencies, path: seq<ProjectId>) returns (evidence: seq<SourceEvidence>)
    requires NoEmptyEvidence(dependencies) && IsWalk(DependencyEdges(dependencies), path)
    ensures Evident(dependencies, path, evidence)
  {
    hide IsFirst;
    evidence := [];
    for k := 1 to |path|
      invariant Evident(dependencies, path[..k], evidence)
    {
      assert (path[k - 1], path[k]) in DependencyEdges(dependencies);
      var known := EvidenceAt(dependencies, path[k - 1], path[k]);
      if known != {} {
        var first := FirstOf(known);
        EvidentMore(dependencies, path[..k], evidence, path[k], first);
        assert path[..k + 1] == path[..k] + [path[k]];
        evidence := evidence + [first];
      }
    }
    assert path[..|path|] == path;
  }

  /** The verdict on one rule: a violation is told with a shortest path and the evidence along it. */
  ghost predicate Judged(dependencies: Dependencies, bindings: Bindings, rule: Rule, v: Verdict) {
    && (v.Ignored? <==> Ends(rule).None?)
    && (v.Skipped? <==> Unbound(bindings, rule))
    && (v.Violated? <==> Broken(DependencyEdges(dependencies), bindings, rule))
    && (v.Violated? ==>
          && ShortestPath(DependencyEdges(dependencies), bindings[Ends(rule).value.0],
                          bindings[Ends(rule).value.1], v.path)
          && Evident(dependencies, v.path, v.evidence))
  }

  method CheckConstraint(dependencies: Dependencies, bindings: Bindings, rule: Rule) returns (v: Verdict)
    requires NoEmptyEvidence(dependencies) && NoSelfDependency(dependencies)
    ensures Judged(dependencies, bindings, rule, v)
  {
    hide Reaches, Evident;
    var ends := Ends(rule);
    if ends.None? {
      return Ignored;
    }
    if ends.value.0 !in bindings || ends.value.1 !in bindings {
      return Skipped;
    }
    var source, target := bindings[ends.value.0], bindings[ends.value.1];
    var path;
    if rule.NoPath? {
      path := DependencyPath(dependencies, source, target);
    } else if source in dependencies && target in dependencies[source] {
      OneHop(DependencyEdges(dependencies), source, target);
      path := Some([source, target]);
    } else {
      path := None;
    }
    if path.None? {
      return Kept;
    }
    var evidence := EvidenceAlong(dependencies, path.value);
    return Violated(path.value, evidence);
  }

  lemma OneHop(edges: set<(ProjectId, ProjectId)>, source: ProjectId, target: ProjectId)
    requires (source, target) in edges && source != target
    ensures ShortestPath(edges, source, target, [source, target])
  {
  }

  datatype Report = InvalidGraph | Report(verdicts: map<string, Verdict>, evaluated: nat, skipped: nat)

  /** The verdict in terms of the graph: its path is a shortest one among the projects that production
      code connects, and each hop is shown by the first evidence of the edges that cross over. */
  ghost predicate Shown(g: Graph, bindings: Bindings, rule: Rule, v: Verdict) {
    && (v.Violated? <==> Broken(ProjectEdges(g), bindings, rule))
    && (v.Violated? ==>
          && ShortestPath(ProjectEdges(g), bindings[Ends(rule).value.0], bindings[Ends(rule).value.1], v.path)
          && |v.path| == |v.evidence| + 1
          && forall i, j :: 0 <= i && j == i + 1 && j < |v.path| ==>
               IsFirst(Evidence(g, g.edges, v.path[i], v.path[j]), v.evidence[i]))
  }

  lemma JudgedIsShown(g: Graph, dependencies: Dependencies, bindings: Bindings, rule: Rule, v: Verdict)
    requires Collected(g, g.edges, dependencies) && Judged(dependencies, bindings, rule, v)
    requires DependencyEdges(dependencies) == ProjectEdges(g)
    ensures Shown(g, bindings, rule, v)
  {
    hide IsFirst, EvidenceAt, Evidence, DependencyEdges, ProjectEdges, Breaks, ShortestPath;
  }

  ghost predicate AllJudged(dependencies: Dependencies, architecture: CompiledGraph, bindings: Bindings,
                            report: Report)
  {
    && report.Report? && report.verdicts.Keys == architecture.constraints.Keys
    && (forall id :: id in architecture.constraints ==>
          Judged(dependencies, bindings, architecture.constraints[id], report.verdicts[id]))
    && report.evaluated == |BoundIds(architecture, bindings, report.verdicts.Keys)|
    && report.skipped == |UnboundIds(architecture, bindings, report.verdicts.Keys)|
  }

  /** A constraint is reported exactly when production code of a valid graph breaks it, and shown by it;
      the counters say how many constraints were evaluated and how many lack a bound package. */
  method Analyze(g: Graph, architecture: CompiledGraph, bindings: Bindings) returns (report: Report)
    ensures report.Report? <==> ValidGraph(g)
    ensures report.Report? ==>
              && report.verdicts.Keys == architecture.constraints.Keys
              && (forall id :: id in architecture.constraints ==>
                    Shown(g, bindings, architecture.constraints[id], report.verdicts[id]))
              && report.evaluated == |BoundIds(architecture, bindings, report.verdicts.Keys)|
              && report.skipped == |UnboundIds(architecture, bindings, report.verdicts.Keys)|
  {
    hide Judged, Shown, Collected, ProjectEdges, BoundIds, UnboundIds, NoEmptyEvidence, NoSelfDependency;
    hide RolesIn, VisitsOf, RootsIn, ContextsIn, ValidGraph;
    var outcome := Search.Analyze(g);
    if outcome.Invalid? {
      return InvalidGraph;
    }
    var dependencies := WorkspaceDependencies(g, outcome.result);
    CollectedAll(g, dependencies);
    report := CheckConstraints(dependencies, architecture, bindings);
    forall id | id in architecture.constraints
      ensures Shown(g, bindings, architecture.constraints[id], report.verdicts[id])
    {
      JudgedIsShown(g, dependencies, bindings, architecture.constraints[id], report.verdicts[id]);
    }
  }

  method CheckConstraints(dependencies: Dependencies, architecture: CompiledGraph, bindings: Bindings)
    returns (report: Report)
    requires NoEmptyEvidence(dependencies) && NoSelfDependency(dependencies)
    ensures AllJudged(dependencies, architecture, bindings, report)
  {
    hide Judged, BoundIds, UnboundIds, NoEmptyEvidence, NoSelfDependency;
    CountNone(architecture, bindings);
    var verdicts: map<string, Verdict> := map[];
    var evaluated, skipped := 0, 0;
    var ids := architecture.constraints.Keys;
    ghost var done: set<string> := {};
    while ids != {}
      invariant ids <= architecture.constraints.Keys
      invariant verdicts.Keys == done == architecture.constraints.Keys - ids
      invariant forall id :: id in verdicts ==>
                  Judged(dependencies, bindings, architecture.constraints[id], verdicts[id])
      invariant evaluated == |BoundIds(architecture, bindings, done)|
      invariant skipped == |UnboundIds(architecture, bindings, done)|
    {
      var id :| id in ids;
      ids := ids - {id};
      var v := CheckConstraint(dependencies, bindings, architecture.constraints[id]);
      verdicts := verdicts[id := v];
      CountVerdict(dependencies, architecture, bindings, done, id, v);
      done := done + {id};
      if v.Skipped? {
        skipped := skipped + 1;
      } else if !v.Ignored? {
        evaluated := evaluated + 1;
      }
    }
    return Report.Report(verdicts, evaluated, skipped);
  }

  lemma CountVerdict(dependencies: Dependencies, architecture: CompiledGraph, bindings: Bindings, ids: set<string>,
                     id: string, v: Verdict)
    requires id in architecture.constraints && id !in ids
    requires Judged(dependencies, bindings, architecture.constraints[id], v)
    ensures |BoundIds(architecture, bindings, ids + {id})|
         == |BoundIds(architecture, bindings, ids)| + if v.Skipped? || v.Ignored? then 0 else 1
    ensures |UnboundIds(architecture, bindings, ids + {id})|
         == |UnboundIds(architecture, bindings, ids)| + if v.Skipped? then 1 else 0
  {
    hide BoundIds, UnboundIds, Breaks, ShortestPath, Evident;
    CountBound(architecture, bindings, ids, id);
    CountUnbound(architecture, bindings, ids, id);
  }

  ghost function BoundIds(architecture: CompiledGraph, bindings: Bindings, ids: set<string>): set<string> {
    set id | id in ids && id in architecture.constraints && Bound(bindings, architecture.constraints[id])
  }

  ghost function UnboundIds(architecture: CompiledGraph, bindings: Bindings, ids: set<string>): set<string> {
    set id | id in ids && id in architecture.constraints && Unbound(bindings, architecture.constraints[id])
  }

  lemma CountNone(architecture: CompiledGraph, bindings: Bindings)
    ensures BoundIds(architecture, bindings, {}) == {} == UnboundIds(architecture, bindings, {})
  {
  }

  lemma CountBound(architecture: CompiledGraph, bindings: Bindings, ids: set<string>, id: string)
    requires id in architecture.constraints && id !in ids
    ensures |BoundIds(architecture, bindings, ids + {id})|
         == |BoundIds(architecture, bindings, ids)| + if Bound(bindings, architecture.constraints[id]) then 1 else 0
  {
    hide Bound;
    var before := BoundIds(architecture, bindings, ids);
    assert BoundIds(architecture, bindings, ids + {id})
        == if Bound(bindings, architecture.constraints[id]) then before + {id} else before;
  }

  lemma CountUnbound(architecture: CompiledGraph, bindings: Bindings, ids: set<string>, id: string)
    requires id in architecture.constraints && id !in ids
    ensures |UnboundIds(architecture, bindings, ids + {id})|
         == |UnboundIds(architecture, bindings, ids)| + if Unbound(bindings, architecture.constraints[id]) then 1 else 0
  {
    hide Unbound;
    var before := UnboundIds(architecture, bindings, ids);
    assert UnboundIds(architecture, bindings, ids + {id})
        == if Unbound(bindings, architecture.constraints[id]) then before + {id} else before;
  }
}
