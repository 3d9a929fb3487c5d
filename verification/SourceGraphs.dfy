/** The language-neutral source graph: the facts every analysis below starts from. */
module SourceGraphs {

  datatype Option<+T> = None | Some(value: T)

  type NodeId = string
  type ProjectId = string
  type ContextId = string

  datatype Span = Span(startLine: nat, startCol: nat, endLine: nat, endCol: nat)

  datatype SourceLanguage = JavaScript | TypeScript | Svelte | Python | Rust

  datatype SourceVisibility = Public | Internal | Private | Unknown

  datatype ContextRole = Production | Test | Tooling

  datatype ContextScope = Runtime | PublicSurface

  datatype SourceEdgeKind =
    | Contains | ModuleDependency | Import | ReExport | DynamicImport | GlobImport
    | Require | WorkspaceSourceBypass | LexicalReference | AssumeReachable

  datatype BoundaryKind =
    | DynamicImportBoundary | Reflection | MacroExpansion | ConditionalCompilation
    | UnresolvedInternalBoundary | UnsupportedDependency | UnsupportedSyntax

  datatype AnalysisCompleteness = Complete | Partial | Unsupported {
    function Worst(other: AnalysisCompleteness): AnalysisCompleteness {
      if this.Unsupported? || other.Unsupported? then Unsupported
      else if this.Partial? || other.Partial? then Partial
      else Complete
    }
  }

  datatype FindingConfidence = High | Medium | Low

  datatype EvidenceClass = DirectEvidence | Inferred | BoundaryLimited

  datatype EffectKind =
    | FilesystemRead | FilesystemWrite | Network | Database | Process | Environment
    | Time | Randomness | AmbientState | UnknownEffect

  datatype EffectProvenance = Direct | Propagated(sourceTarget: NodeId)

  datatype CallableEffect = CallableEffect(
    kind: EffectKind, provenance: EffectProvenance, evidence: EvidenceClass, span: Option<Span>)

  /** The effect list of a contract is kept sorted and free of duplicates, so it is a set. */
  datatype CallableContract = CallableContract(effects: set<CallableEffect>)

  datatype SourceNode =
    | File(project: ProjectId, path: string, language: SourceLanguage)
    | Symbol(project: ProjectId, file: NodeId, name: string, visibility: SourceVisibility,
             callable: Option<CallableContract>)

  datatype EdgeTarget =
    | Node(id: NodeId)
    | External(value: string)
    | UnexportedWorkspace(value: string)
    | UnresolvedInternal(value: string)
    | DynamicUnknown(value: string)
    | UnsupportedTarget(value: string)

  datatype SourceEvidence = SourceEvidence(path: string, span: Option<Span>, extractor: string)

  datatype SourceEdge = SourceEdge(
    from: NodeId, to: EdgeTarget, kind: SourceEdgeKind, evidence: SourceEvidence)

  datatype AnalysisBoundary = AnalysisBoundary(
    project: ProjectId, node: Option<NodeId>, kind: BoundaryKind, effect: AnalysisCompleteness,
    message: string, evidence: SourceEvidence)

  datatype SourceProject = SourceProject(
    id: ProjectId, root: string, languages: set<SourceLanguage>, completeness: AnalysisCompleteness)

  /** `roots` lists the elements of an ordered set: ascending, hence without repetition. */
  datatype SourceContext = SourceContext(
    id: ContextId, project: ProjectId, name: string, role: ContextRole, scope: ContextScope,
    roots: seq<NodeId>)

  datatype Graph = Graph(
    projects: map<ProjectId, SourceProject>,
    nodes: map<NodeId, SourceNode>,
    edges: set<SourceEdge>,
    contexts: map<ContextId, SourceContext>,
    boundaries: set<AnalysisBoundary>)

  /** What the graph's own validation accepts: every reference resolves, inside its project. */
  predicate ValidGraph(g: Graph)
  {
    && (forall n :: n in g.nodes ==>
          && g.nodes[n].project in g.projects
          && (g.nodes[n].Symbol? ==>
                && g.nodes[n].file in g.nodes
                && g.nodes[g.nodes[n].file].File?
                && g.nodes[g.nodes[n].file].project == g.nodes[n].project))
    && (forall e :: e in g.edges ==> e.from in g.nodes && (e.to.Node? ==> e.to.id in g.nodes))
    && (forall c :: c in g.contexts ==>
          && g.contexts[c].project in g.projects
          && forall r :: r in g.contexts[c].roots ==>
               r in g.nodes && g.nodes[r].project == g.contexts[c].project)
    && (forall b :: b in g.boundaries ==>
          b.project in g.projects && (b.node.Some? ==> b.node.value in g.nodes))
  }

  /** The graph as the scanners share it: its nodes are rewritten in place by the effect analysis. */
  class SourceGraph {
    const projects: map<ProjectId, SourceProject>
    var nodes: map<NodeId, SourceNode>
    const edges: set<SourceEdge>
    const contexts: map<ContextId, SourceContext>
    const boundaries: set<AnalysisBoundary>

    ghost function View(): Graph
      reads this
    {
      Graph(projects, nodes, edges, contexts, boundaries)
    }

    constructor (g: Graph)
      ensures View() == g
    {
      projects, nodes, edges, contexts, boundaries :=
        g.projects, g.nodes, g.edges, g.contexts, g.boundaries;
    }
  }
}
