/** Which files and symbols are reported as dead, and which of those reports fail a build. */
module DeadCode {
  import opened SourceGraphs
  import opened Walks
  import opened Reachability

  // ---------- confidence ----------

  function NodeLanguage(g: Graph, n: NodeId): Option<SourceLanguage> {
    if n !in g.nodes then None
    else match g.nodes[n]
      case File(_, _, language) => Some(language)
      case Symbol(_, file, _, _, _) =>
        if file in g.nodes && g.nodes[file].File? then Some(g.nodes[file].language) else None
  }

  predicate Ecmascript(language: SourceLanguage) {
    language.JavaScript? || language.TypeScript? || language.Svelte?
  }

  predicate SameRuntimeFamily(left: Option<SourceLanguage>, right: Option<SourceLanguage>) {
    left.Some? && right.Some?
    && (left == right || (Ecmascript(left.value) && Ecmascript(right.value)))
  }

  function ConfidenceFor(completeness: AnalysisCompleteness): FindingConfidence {
    match completeness
    case Complete => High
    case Partial => Medium
    case Unsupported => Low
  }

  /** The worst effect of some boundaries, complete when there are none. */
  function WorstOf(boundaries: set<AnalysisBoundary>): AnalysisCompleteness {
    if exists b :: b in boundaries && b.effect.Unsupported? then Unsupported
    else if exists b :: b in boundaries && b.effect.Partial? then Partial
    else Complete
  }

  function OwnBoundaries(g: Graph, project: ProjectId): set<AnalysisBoundary> {
    set b | b in g.boundaries && b.project == project
  }

  function LocalizedConfidence(g: Graph, project: ProjectId, applies: AnalysisBoundary -> bool): FindingConfidence {
    if project !in g.projects || g.projects[project].completeness.Unsupported? then Low
    else
      var own := OwnBoundaries(g, project);
      var base := if g.projects[project].completeness.Partial? && own == {} then Partial else Complete;
      ConfidenceFor(base.Worst(WorstOf(set b | b in own && (b.node.None? || applies(b)))))
  }

  predicate ConcernsFile(g: Graph, file: NodeId, b: AnalysisBoundary) {
    b.node.Some? &&
    var n := b.node.value;
    || n == file
    || (n in g.nodes && g.nodes[n].Symbol? && g.nodes[n].file == file)
    || ((b.kind.DynamicImportBoundary? || b.kind.Reflection?)
        && SameRuntimeFamily(NodeLanguage(g, n), NodeLanguage(g, file)))
  }

  function FileConfidence(g: Graph, project: ProjectId, file: NodeId): FindingConfidence {
    LocalizedConfidence(g, project, b => ConcernsFile(g, file, b))
  }

  predicate SyntaxLimit(kind: BoundaryKind) {
    kind.MacroExpansion? || kind.ConditionalCompilation? || kind.UnsupportedSyntax?
  }

  predicate ConcernsSymbol(g: Graph, file: NodeId, symbol: NodeId, b: AnalysisBoundary) {
    b.node.Some? &&
    var n := b.node.value;
    || n == symbol
    || (b.kind.Reflection? && SameRuntimeFamily(NodeLanguage(g, n), NodeLanguage(g, file)))
    || (n == file && SyntaxLimit(b.kind))
  }

  function RustLimits(g: Graph, project: ProjectId): set<AnalysisBoundary> {
    set b | b in OwnBoundaries(g, project) && SyntaxLimit(b.kind)
            && (b.node.None? || NodeLanguage(g, b.node.value) == Some(Rust))
  }

  function SymbolConfidence(g: Graph, project: ProjectId, file: NodeId, symbol: NodeId): FindingConfidence {
    var rust := WorstOf(RustLimits(g, project));
    if NodeLanguage(g, file) == Some(Rust) && rust != Complete then ConfidenceFor(rust)
    else LocalizedConfidence(g, project, b => ConcernsSymbol(g, file, symbol, b))
  }

  function LowerConfidence(confidence: FindingConfidence): FindingConfidence {
    if confidence.Low? then Low else Medium
  }

  function LoweredIf(lower: bool, confidence: FindingConfidence): FindingConfidence {
    if lower then LowerConfidence(confidence) else confidence
  }

  /** High confidence, spelled out: the project is supported, its incompleteness is accounted for by
      boundaries, and every boundary that could hide a use of the file is complete. */
  ghost predicate CertainFile(g: Graph, project: ProjectId, file: NodeId) {
    && project in g.projects
    && !g.projects[project].completeness.Unsupported?
    && (g.projects[project].completeness.Partial? ==> OwnBoundaries(g, project) != {})
    && forall b :: b in OwnBoundaries(g, project) && (b.node.None? || ConcernsFile(g, file, b))
                   ==> b.effect.Complete?
  }

  lemma HighMeansCertain(g: Graph, project: ProjectId, file: NodeId)
    ensures FileConfidence(g, project, file) == High <==> CertainFile(g, project, file)
  {
    var own := OwnBoundaries(g, project);
    var near := set b | b in own && (b.node.None? || ConcernsFile(g, file, b));
    assert WorstOf(near) == Complete <==> forall b :: b in near ==> b.effect.Complete?;
  }

  // ---------- public dependencies ----------

  function DependencyEdges(g: Graph): set<(NodeId, NodeId)> {
    set e | e in g.edges && !e.kind.Contains? && !e.kind.ReExport? && e.to.Node? :: (e.from, e.to.id)
  }

  predicate IsPublic(node: SourceNode) {
    node.Symbol? && node.visibility.Public?
  }

  /** Some public symbol depends on the node, directly or not. */
  ghost predicate PublicDependency(g: Graph, n: NodeId) {
    exists s :: s in g.nodes && IsPublic(g.nodes[s]) && Reaches(DependencyEdges(g), s, n)
  }

  method PublicDependencyNodes(g: Graph) returns (dependencies: set<NodeId>)
    ensures forall n :: n in dependencies <==> PublicDependency(g, n)
  {
    var adjacency := DependencyAdjacency(g);
    ghost var edges := DependencyEdges(g);
    var publics := set s | s in g.nodes && IsPublic(g.nodes[s]);
    var queue := Listed(publics);
    forall s | s in publics
      ensures PublicDependency(g, s)
    {
      ReachesSelf(edges, s);
    }
    ghost var unseen := publics + set e | e in edges :: e.1;
    dependencies := {};
    while queue != []
      invariant forall s :: s in publics ==> s in dependencies || s in queue
      invariant forall n :: n in dependencies || n in queue ==> PublicDependency(g, n)
      invariant forall n :: n in queue ==> n in dependencies || n in unseen
      invariant forall e :: e in edges && e.1 !in dependencies ==> e.1 in unseen
      invariant forall e :: e in edges && e.0 in dependencies ==> e.1 in dependencies || e.1 in queue
      decreases unseen, |queue|
    {
      var node := queue[0];
      ghost var before := queue;
      queue := queue[1..];
      assert forall n :: n in before ==> n == node || n in queue;
      if node in dependencies {
        continue;
      }
      dependencies := dependencies + {node};
      unseen := unseen - {node};
      var targets := Listed(At(adjacency, node));
      forall t | t in targets
        ensures PublicDependency(g, t) && (t in dependencies || t in unseen)
      {
        var s :| s in g.nodes && IsPublic(g.nodes[s]) && Reaches(edges, s, node);
        var d: nat :| Steps(edges, s, node, d);
        assert (node, t) in edges;
        StepsAppend(edges, s, node, t, d);
      }
      queue := queue + targets;
    }
    forall n | PublicDependency(g, n)
      ensures n in dependencies
    {
      var s :| s in g.nodes && IsPublic(g.nodes[s]) && Reaches(edges, s, n);
      var d: nat :| Steps(edges, s, n, d);
      ClosedHolds(edges, dependencies, s, n, d);
    }
  }

  method DependencyAdjacency(g: Graph) returns (adjacency: Adjacency)
    ensures IsAdjacency(adjacency, DependencyEdges(g))
  {
    adjacency := map[];
    ghost var used: set<(NodeId, NodeId)> := {};
    var edges := g.edges;
    while edges != {}
      invariant edges <= g.edges
      invariant IsAdjacency(adjacency, used) && used <= DependencyEdges(g)
      invariant forall e :: e in g.edges - edges && !e.kind.Contains? && !e.kind.ReExport? && e.to.Node?
                  ==> (e.from, e.to.id) in used
    {
      var e :| e in edges;
      edges := edges - {e};
      if e.kind.Contains? || e.kind.ReExport? || !e.to.Node? {
        continue;
      }
      WithEdgeAdds(adjacency, used, e.from, e.to.id);
      adjacency := With(adjacency, e.from, e.to.id);
      used := used + {(e.from, e.to.id)};
    }
    assert used == DependencyEdges(g);
  }

  // ---------- findings ----------

  datatype FindingKind = UnreachableFile | UnusedPrivateSymbol | TestOnly | ToolingOnly | UnreferencedPublic {
    /** Of the kinds of this model, only two can fail a build, and only with high confidence. */
    predicate GatesAt(confidence: FindingConfidence) {
      confidence.High? && (UnreachableFile? || UnusedPrivateSymbol?)
    }
  }

  datatype Finding = Finding(
    kind: FindingKind, node: NodeId, contexts: set<ContextId>, roles: set<ContextRole>,
    confidence: FindingConfidence, gates: bool)

  function BuildFinding(kind: FindingKind, node: NodeId, contexts: set<ContextId>, roles: set<ContextRole>,
                        confidence: FindingConfidence): Finding {
    Finding(kind, node, contexts, roles, confidence, kind.GatesAt(confidence))
  }

  function ContextOnlyKind(roles: set<ContextRole>): FindingKind {
    if roles == {Test} then TestOnly else ToolingOnly
  }

  function ContextRoots(g: Graph): set<NodeId> {
    set c, r | c in g.contexts.Values && r in c.roots :: r
  }

  ghost function ContextsOf(g: Graph, n: NodeId): set<ContextId> {
    ContextsIn(VisitsOf(g, n), n)
  }

  ghost function RolesOf(g: Graph, n: NodeId): set<ContextRole> {
    RolesIn(VisitsOf(g, n), n)
  }

  /** The report, if any, that a file deserves. */
  ghost predicate FileDeserves(g: Graph, n: NodeId, f: Finding) {
    && n in g.nodes && g.nodes[n].File?
    && f.node == n && f.contexts == ContextsOf(g, n) && f.roles == RolesOf(g, n)
    && f.gates == f.kind.GatesAt(f.confidence)
    && f.confidence == LoweredIf(PublicDependency(g, n), FileConfidence(g, g.nodes[n].project, n))
    && (if f.contexts == {} then f.kind == UnreachableFile
        else Production !in f.roles && n !in ContextRoots(g) && f.kind == ContextOnlyKind(f.roles))
  }

  /** A file whose symbols are still worth looking at: some production context reaches it. */
  ghost predicate LiveFile(g: Graph, file: NodeId) {
    file in g.nodes && g.nodes[file].File? ==> ContextsOf(g, file) != {} && Production in RolesOf(g, file)
  }

  /** The report, if any, that a symbol of a live file deserves. */
  ghost predicate SymbolDeserves(g: Graph, n: NodeId, f: Finding) {
    && n in g.nodes && g.nodes[n].Symbol? && LiveFile(g, g.nodes[n].file)
    && f.node == n && f.contexts == ContextsOf(g, n) && f.gates == f.kind.GatesAt(f.confidence)
    && var symbol := g.nodes[n];
       && f.confidence == LoweredIf(symbol.visibility.Public? || PublicDependency(g, n),
                                    SymbolConfidence(g, symbol.project, symbol.file, n))
       && (if f.contexts == {} then
             && f.roles == {}
             && !symbol.visibility.Unknown?
             && f.kind == (if symbol.visibility.Public? then UnreferencedPublic else UnusedPrivateSymbol)
           else
             && f.roles == RolesOf(g, n)
             && Production !in f.roles && n !in ContextRoots(g) && f.kind == ContextOnlyKind(f.roles))
  }

  lemma DeservingNodes(g: Graph)
    ensures forall n, f :: FileDeserves(g, n, f) ==> n in g.nodes && g.nodes[n].File? && f.node == n
    ensures forall n, f :: SymbolDeserves(g, n, f) ==> n in g.nodes && g.nodes[n].Symbol? && f.node == n
    ensures forall n :: !LiveFile(g, n) ==> n in g.nodes && g.nodes[n].File?
  {
  }

  method FileFinding(g: Graph, n: NodeId, reachability: Reachability, lower: bool)
    returns (finding: Option<Finding>)
    requires reachability.Answers(g, n) && lower == PublicDependency(g, n)
    requires n in g.nodes && g.nodes[n].File?
    ensures forall f :: finding == Some(f) <==> FileDeserves(g, n, f)
    ensures LiveFile(g, n) <==> reachability.Contexts(n) != {} && Production in reachability.Roles(n)
  {
    var confidence := LoweredIf(lower, FileConfidence(g, g.nodes[n].project, n));
    var contexts, roles := reachability.Contexts(n), reachability.Roles(n);
    if contexts == {} {
      finding := Some(BuildFinding(UnreachableFile, n, contexts, roles, confidence));
    } else if Production in roles || n in ContextRoots(g) {
      finding := None;
    } else {
      finding := Some(BuildFinding(ContextOnlyKind(roles), n, contexts, roles, confidence));
    }
  }

  method FileFindings(g: Graph, reachability: Reachability, publicDependencies: set<NodeId>)
    returns (findings: seq<Finding>, unreachable: set<NodeId>, nonProduction: set<NodeId>)
    requires forall n :: reachability.Answers(g, n)
    requires forall n :: n in publicDependencies <==> PublicDependency(g, n)
    ensures forall f :: f in findings <==> FileDeserves(g, f.node, f)
    ensures forall i, j :: 0 <= i < j < |findings| ==> findings[i].node != findings[j].node
    ensures forall n :: n in unreachable || n in nonProduction <==> !LiveFile(g, n)
  {
    hide PublicDependency, FileDeserves, LiveFile;
    DeservingNodes(g);
    findings, unreachable, nonProduction := [], {}, {};
    var nodes := set n | n in g.nodes && g.nodes[n].File?;
    while nodes != {}
      invariant forall n :: n in nodes ==> n in g.nodes && g.nodes[n].File?
      invariant forall f :: f in findings <==> f.node !in nodes && FileDeserves(g, f.node, f)
      invariant forall i, j :: 0 <= i < j < |findings| ==> findings[i].node != findings[j].node
      invariant forall n :: n in unreachable || n in nonProduction <==> n !in nodes && !LiveFile(g, n)
    {
      var n :| n in nodes;
      nodes := nodes - {n};
      assert forall f :: f in findings ==> f.node != n;
      var finding := FileFinding(g, n, reachability, n in publicDependencies);
      if reachability.Contexts(n) == {} {
        unreachable := unreachable + {n};
      } else if Production !in reachability.Roles(n) {
        nonProduction := nonProduction + {n};
      }
      if finding.Some? {
        assert FileDeserves(g, n, finding.value);
        findings := findings + [finding.value];
      }
    }
  }

  method SymbolFinding(g: Graph, n: NodeId, reachability: Reachability, dependency: bool)
    returns (finding: Option<Finding>)
    requires reachability.Answers(g, n) && dependency == PublicDependency(g, n)
    requires n in g.nodes && g.nodes[n].Symbol? && LiveFile(g, g.nodes[n].file)
    ensures forall f :: finding == Some(f) <==> SymbolDeserves(g, n, f)
  {
    var symbol := g.nodes[n];
    var contexts := reachability.Contexts(n);
    var base := SymbolConfidence(g, symbol.project, symbol.file, n);
    if contexts != {} {
      var roles := reachability.Roles(n);
      if Production in roles || n in ContextRoots(g) {
        return None;
      }
      var confidence := LoweredIf(symbol.visibility.Public? || dependency, base);
      return Some(BuildFinding(ContextOnlyKind(roles), n, contexts, roles, confidence));
    }
    match symbol.visibility {
      case Private | Internal =>
        return Some(BuildFinding(UnusedPrivateSymbol, n, {}, {}, LoweredIf(dependency, base)));
      case Public =>
        return Some(BuildFinding(UnreferencedPublic, n, {}, {}, LowerConfidence(base)));
      case Unknown =>
        return None;
    }
  }

  method SymbolFindings(g: Graph, reachability: Reachability, publicDependencies: set<NodeId>,
                        unreachable: set<NodeId>, nonProduction: set<NodeId>)
    returns (findings: seq<Finding>)
    requires forall n :: reachability.Answers(g, n)
    requires forall n :: n in publicDependencies <==> PublicDependency(g, n)
    requires forall n :: n in unreachable || n in nonProduction <==> !LiveFile(g, n)
    ensures forall f :: f in findings <==> SymbolDeserves(g, f.node, f)
    ensures forall i, j :: 0 <= i < j < |findings| ==> findings[i].node != findings[j].node
  {
    hide PublicDependency, SymbolDeserves, LiveFile;
    DeservingNodes(g);
    findings := [];
    var nodes := set n | n in g.nodes && g.nodes[n].Symbol?;
    while nodes != {}
      invariant forall n :: n in nodes ==> n in g.nodes && g.nodes[n].Symbol?
      invariant forall f :: f in findings <==> f.node !in nodes && SymbolDeserves(g, f.node, f)
      invariant forall i, j :: 0 <= i < j < |findings| ==> findings[i].node != findings[j].node
    {
      var n :| n in nodes;
      nodes := nodes - {n};
      assert forall f :: f in findings ==> f.node != n;
      var finding := None;
      if g.nodes[n].file !in unreachable && g.nodes[n].file !in nonProduction {
        finding := SymbolFinding(g, n, reachability, n in publicDependencies);
      }
      NeedsLiveFile(g, n);
      if finding.Some? {
        assert SymbolDeserves(g, n, finding.value);
        findings := findings + [finding.value];
      }
    }
  }

  lemma NeedsLiveFile(g: Graph, n: NodeId)
    requires n in g.nodes && g.nodes[n].Symbol?
    ensures !LiveFile(g, g.nodes[n].file) ==> forall f :: !SymbolDeserves(g, n, f)
  {
  }

  /** The file and symbol findings: exactly the deserved ones, at most one for a node. */
  method AnalyzeReport(g: Graph, reachability: Reachability) returns (findings: seq<Finding>)
    requires forall n :: reachability.Answers(g, n)
    ensures forall f :: f in findings <==> FileDeserves(g, f.node, f) || SymbolDeserves(g, f.node, f)
    ensures forall i, j :: 0 <= i < j < |findings| ==> findings[i].node != findings[j].node
  {
    var publicDependencies := PublicDependencyNodes(g);
    var files, unreachable, nonProduction := FileFindings(g, reachability, publicDependencies);
    var symbols := SymbolFindings(g, reachability, publicDependencies, unreachable, nonProduction);
    findings := files + symbols;
    forall i, j | 0 <= i < j < |findings|
      ensures findings[i].node != findings[j].node
    {
      if i < |files| <= j {
        assert files[i] in files && symbols[j - |files|] in symbols;
      }
    }
  }

  // ---------- what fails a build ----------

  ghost predicate Unreached(g: Graph, n: NodeId) {
    forall c :: c in g.contexts.Values ==> !ReachedBy(g, c, n)
  }

  ghost predicate GatingFile(g: Graph, n: NodeId) {
    exists f :: FileDeserves(g, n, f) && f.gates && f.kind == UnreachableFile
  }

  ghost predicate GatingSymbol(g: Graph, n: NodeId) {
    exists f :: SymbolDeserves(g, n, f) && f.gates && f.kind == UnusedPrivateSymbol
  }

  /** A file fails the build exactly when nothing configured reaches it, no public symbol depends on
      it, and no boundary leaves room for doubt. */
  lemma GatingFileExactly(g: Graph, n: NodeId)
    ensures GatingFile(g, n) <==>
            n in g.nodes && g.nodes[n].File? && Unreached(g, n) && !PublicDependency(g, n)
            && CertainFile(g, g.nodes[n].project, n)
  {
    NoContexts(g, n);
    if n in g.nodes && g.nodes[n].File? {
      var project := g.nodes[n].project;
      HighMeansCertain(g, project, n);
      if Unreached(g, n) && !PublicDependency(g, n) && CertainFile(g, project, n) {
        assert FileDeserves(g, n, BuildFinding(UnreachableFile, n, {}, RolesOf(g, n), High));
      }
    }
  }

  lemma GatingSymbolExactly(g: Graph, n: NodeId)
    ensures GatingSymbol(g, n) <==>
            && n in g.nodes && g.nodes[n].Symbol? && LiveFile(g, g.nodes[n].file)
            && Unreached(g, n) && !PublicDependency(g, n)
            && (g.nodes[n].visibility.Private? || g.nodes[n].visibility.Internal?)
            && SymbolConfidence(g, g.nodes[n].project, g.nodes[n].file, n) == High
  {
    NoContexts(g, n);
    if n in g.nodes && g.nodes[n].Symbol? && LiveFile(g, g.nodes[n].file) && Unreached(g, n)
       && !PublicDependency(g, n) && (g.nodes[n].visibility.Private? || g.nodes[n].visibility.Internal?)
       && SymbolConfidence(g, g.nodes[n].project, g.nodes[n].file, n) == High {
      assert SymbolDeserves(g, n, BuildFinding(UnusedPrivateSymbol, n, {}, {}, High));
    }
  }

  // ---------- adding contexts and roots ----------

  /** `h` is `g` with contexts added or given further roots. */
  ghost predicate MoreContexts(g: Graph, h: Graph) {
    && h.projects == g.projects && h.nodes == g.nodes && h.edges == g.edges && h.boundaries == g.boundaries
    && forall c :: c in g.contexts.Values ==> exists d :: d in h.contexts.Values && Extends(c, d)
  }

  ghost predicate Extends(c: SourceContext, d: SourceContext) {
    d.scope == c.scope && d.role == c.role && forall r :: r in c.roots ==> r in d.roots
  }

  lemma StillReached(g: Graph, h: Graph, c: SourceContext, d: SourceContext, n: NodeId)
    requires MoreContexts(g, h) && Extends(c, d) && ReachedBy(g, c, n)
    ensures ReachedBy(h, d, n)
  {
    var i: nat, s :| IsStart(g, c, i, s) && Reaches(RuntimeEdges(g), s, n);
    assert c.roots[i] in d.roots;
    var j: nat :| j < |d.roots| && d.roots[j] == c.roots[i];
    assert IsStart(h, d, j, s);
  }

  lemma LiveMeansProduction(g: Graph, file: NodeId)
    requires file in g.nodes && g.nodes[file].File?
    ensures LiveFile(g, file) <==>
            exists c :: c in g.contexts.Values && c.role.Production? && ReachedBy(g, c, file)
  {
    forall c
      ensures ReachedBy(g, c, file) <==> exists r :: Witnesses(g, Visit(file, c, r))
    {
      OneWitness(g, c, file);
    }
    if Production in RolesOf(g, file) {
      var v :| v in VisitsOf(g, file) && v.context.role == Production;
      assert v == Visit(file, v.context, v.root);
    }
    if c :| c in g.contexts.Values && c.role.Production? && ReachedBy(g, c, file) {
      var r :| Witnesses(g, Visit(file, c, r));
      assert Visit(file, c, r) in VisitsOf(g, file);
      assert c.id in ContextsOf(g, file);
    }
  }

  /** Adding contexts or roots never makes a file fail the build. */
  lemma AddingContextsRemovesFileFindings(g: Graph, h: Graph, n: NodeId)
    requires MoreContexts(g, h) && GatingFile(h, n)
    ensures GatingFile(g, n)
  {
    GatingFileExactly(g, n);
    GatingFileExactly(h, n);
    forall c | c in g.contexts.Values
      ensures !ReachedBy(g, c, n)
    {
      var d :| d in h.contexts.Values && Extends(c, d);
      if ReachedBy(g, c, n) {
        StillReached(g, h, c, d, n);
      }
    }
    assert DependencyEdges(h) == DependencyEdges(g);
    assert PublicDependency(h, n) <==> PublicDependency(g, n);
    assert OwnBoundaries(h, g.nodes[n].project) == OwnBoundaries(g, g.nodes[n].project);
  }

  lemma SameBoundaries(g: Graph, h: Graph, project: ProjectId)
    requires MoreContexts(g, h)
    ensures OwnBoundaries(h, project) == OwnBoundaries(g, project) && RustLimits(h, project) == RustLimits(g, project)
  {
  }

  lemma SameConcern(g: Graph, h: Graph, file: NodeId, symbol: NodeId, b: AnalysisBoundary)
    requires MoreContexts(g, h)
    ensures ConcernsSymbol(h, file, symbol, b) == ConcernsSymbol(g, file, symbol, b)
    ensures NodeLanguage(h, file) == NodeLanguage(g, file)
  {
  }

  lemma SameConfidence(g: Graph, h: Graph, project: ProjectId, file: NodeId, symbol: NodeId)
    requires MoreContexts(g, h)
    ensures SymbolConfidence(h, project, file, symbol) == SymbolConfidence(g, project, file, symbol)
  {
    assert h.projects == g.projects;
    hide OwnBoundaries, RustLimits, ConcernsSymbol, NodeLanguage, MoreContexts, WorstOf, ConfidenceFor;
    hide LocalizedConfidence;
    SameBoundaries(g, h, project);
    forall b: AnalysisBoundary
      ensures ConcernsSymbol(h, file, symbol, b) == ConcernsSymbol(g, file, symbol, b)
      ensures NodeLanguage(h, file) == NodeLanguage(g, file)
    {
      SameConcern(g, h, file, symbol, b);
    }
    SameLocalized(g, h, project, b => ConcernsSymbol(g, file, symbol, b), b => ConcernsSymbol(h, file, symbol, b));
  }

  lemma SameLocalized(g: Graph, h: Graph, project: ProjectId, p: AnalysisBoundary -> bool, q: AnalysisBoundary -> bool)
    requires h.projects == g.projects && OwnBoundaries(h, project) == OwnBoundaries(g, project)
    requires forall b :: p(b) == q(b)
    ensures LocalizedConfidence(h, project, q) == LocalizedConfidence(g, project, p)
  {
    hide OwnBoundaries, WorstOf, ConfidenceFor;
    assert (set b | b in OwnBoundaries(h, project) && (b.node.None? || q(b)))
        == (set b | b in OwnBoundaries(g, project) && (b.node.None? || p(b)));
  }

  /** For symbols it can: a failing symbol is new exactly when its file has only now become live. */
  lemma SymbolFindingIsNewExactly(g: Graph, h: Graph, n: NodeId)
    requires MoreContexts(g, h) && GatingSymbol(h, n)
    ensures GatingSymbol(g, n) <==> LiveFile(g, g.nodes[n].file)
  {
    GatingSymbolExactly(g, n);
    GatingSymbolExactly(h, n);
    forall c | c in g.contexts.Values
      ensures !ReachedBy(g, c, n)
    {
      var d :| d in h.contexts.Values && Extends(c, d);
      if ReachedBy(g, c, n) {
        StillReached(g, h, c, d, n);
      }
    }
    assert DependencyEdges(h) == DependencyEdges(g);
    assert PublicDependency(h, n) <==> PublicDependency(g, n);
    SameConfidence(g, h, g.nodes[n].project, g.nodes[n].file, n);
  }

  /** A file with one private symbol that nothing refers to. */
  ghost function LonelySymbol(contexts: map<ContextId, SourceContext>): Graph {
    Graph(map["p" := SourceProject("p", ".", {}, Complete)],
          map["f" := File("p", "f.ts", TypeScript), "s" := Symbol("p", "f", "s", Private, None)],
          {}, contexts, {})
  }

  const APP := SourceContext("c", "p", "app", Production, Runtime, ["f"])

  lemma LonelySymbolIsUnreached(g: Graph)
    requires g == LonelySymbol(map[]) || g == LonelySymbol(map["c" := APP])
    ensures Unreached(g, "s") && !PublicDependency(g, "s")
  {
    forall c, i: nat, s | c in g.contexts.Values && IsStart(g, c, i, s)
      ensures !Reaches(RuntimeEdges(g), s, "s")
    {
      assert s == "f";
      NoWayIn(RuntimeEdges(g), s, "s");
    }
  }

  lemma LonelySymbolIsCertain(g: Graph)
    requires g == LonelySymbol(map["c" := APP])
    ensures SymbolConfidence(g, "p", "f", "s") == High && LiveFile(g, "f")
  {
    assert RustLimits(g, "p") == {} == OwnBoundaries(g, "p");
    ReachesSelf(RuntimeEdges(g), "f");
    assert IsStart(g, APP, 0, "f") && ReachedBy(g, APP, "f");
    assert g.contexts["c"] == APP;
    LiveMeansProduction(g, "f");
  }

  /** A production context on a file exposes the file's unused private symbol. */
  lemma AddingAContextExposesSymbol() returns (g: Graph, h: Graph, n: NodeId)
    ensures ValidGraph(g) && ValidGraph(h) && MoreContexts(g, h)
    ensures GatingSymbol(h, n) && !GatingSymbol(g, n)
  {
    g, h, n := LonelySymbol(map[]), LonelySymbol(map["c" := APP]), "s";
    LonelySymbolIsUnreached(h);
    LonelySymbolIsCertain(h);
    GatingSymbolExactly(h, n);
    LiveMeansProduction(g, "f");
    GatingSymbolExactly(g, n);
  }
}
