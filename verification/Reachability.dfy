/** Which contexts reach which nodes, and from which root: the full search over all nodes, and the
    reverse search that answers the same question for a few chosen targets. */
module Reachability {
  import opened SourceGraphs
  import opened Walks
  import opened BreadthFirst

  type Adjacency = map<NodeId, set<NodeId>>

  // ---------- what the analysis means ----------

  /** Containment is not execution and a re-export is not a use; a symbol's use loads its file. */
  function RuntimeEdges(g: Graph): set<(NodeId, NodeId)> {
    (set e | e in g.edges && e.to.Node? && !e.kind.Contains? && !e.kind.ReExport? :: (e.from, e.to.id))
    + (set n | n in g.nodes && g.nodes[n].Symbol? :: (n, g.nodes[n].file))
  }

  function PublicEdges(g: Graph): set<(NodeId, NodeId)> {
    set e | e in g.edges && e.to.Node? && e.kind.ReExport? :: (e.from, e.to.id)
  }

  /** Where the search for root number `i` of a context starts: at the root itself, or, for a
      public-surface context, anywhere in the root's re-export closure. */
  ghost predicate IsStart(g: Graph, c: SourceContext, i: nat, n: NodeId) {
    i < |c.roots| && if c.scope.Runtime? then n == c.roots[i] else Reaches(PublicEdges(g), c.roots[i], n)
  }

  ghost function Starts(g: Graph, c: SourceContext): (starts: set<(NodeId, nat)>)
    ensures forall n, i: nat :: (n, i) in starts <==> IsStart(g, c, i, n)
  {
    var nodes := (set r | r in c.roots) + (set e | e in PublicEdges(g) :: e.1);
    var starts := set n, i: nat | n in nodes && i < |c.roots| && IsStart(g, c, i, n) :: (n, i);
    forall n, i: nat | IsStart(g, c, i, n)
      ensures (n, i) in starts
    {
      if c.scope.PublicSurface? {
        var d: nat :| Steps(PublicEdges(g), c.roots[i], n, d);
        if d > 0 {
          var m :| Steps(PublicEdges(g), c.roots[i], m, d - 1) && (m, n) in PublicEdges(g);
          assert (m, n).1 in nodes;
        }
      }
    }
    starts
  }

  datatype Visit = Visit(node: NodeId, context: SourceContext, root: NodeId)

  /** The context reaches the node, and `root` is its root with the least (distance, position). */
  ghost predicate Witnesses(g: Graph, v: Visit) {
    exists key: Key :: Best(RuntimeEdges(g), Starts(g, v.context), v.node, key)
      && key.index < |v.context.roots| && v.root == v.context.roots[key.index]
  }

  ghost predicate IsVisit(g: Graph, v: Visit) {
    v.context in g.contexts.Values && Witnesses(g, v)
  }

  /** All there is to say about one node. */
  ghost function VisitsOf(g: Graph, n: NodeId): (visits: set<Visit>)
    ensures forall v :: v in visits <==> v.node == n && IsVisit(g, v)
  {
    set c, r | c in g.contexts.Values && r in c.roots && Witnesses(g, Visit(n, c, r)) :: Visit(n, c, r)
  }

  ghost predicate ReachedBy(g: Graph, c: SourceContext, n: NodeId) {
    exists i: nat, s :: IsStart(g, c, i, s) && Reaches(RuntimeEdges(g), s, n)
  }

  lemma {:induction false} LeastKey(edges: set<(NodeId, NodeId)>, starts: set<(NodeId, nat)>, n: NodeId, key: Key)
    returns (best: Key)
    requires Candidate(edges, starts, n, key)
    ensures Best(edges, starts, n, best)
    decreases key.depth, key.index
  {
    if other: Key :| Candidate(edges, starts, n, other) && !key.Leq(other) {
      best := LeastKey(edges, starts, n, other);
    } else {
      best := key;
    }
  }

  /** A context has a witness root for a node exactly when it reaches the node, and only one. */
  lemma OneWitness(g: Graph, c: SourceContext, n: NodeId)
    ensures ReachedBy(g, c, n) <==> exists r :: Witnesses(g, Visit(n, c, r))
    ensures forall r, q :: Witnesses(g, Visit(n, c, r)) && Witnesses(g, Visit(n, c, q)) ==> r == q
  {
    var edges, starts := RuntimeEdges(g), Starts(g, c);
    if ReachedBy(g, c, n) {
      var i: nat, s :| IsStart(g, c, i, s) && Reaches(edges, s, n);
      var d: nat :| Steps(edges, s, n, d);
      var best := LeastKey(edges, starts, n, Key(d, i));
      var t :| (t, best.index) in starts && Steps(edges, t, n, best.depth);
      assert IsStart(g, c, best.index, t);
      assert Witnesses(g, Visit(n, c, c.roots[best.index]));
    }
    if r :| Witnesses(g, Visit(n, c, r)) {
      var key: Key :| Best(edges, starts, n, key);
      var s :| (s, key.index) in starts && Steps(edges, s, n, key.depth);
      assert IsStart(g, c, key.index, s) && Reaches(edges, s, n);
    }
  }

  datatype ReachabilityRoot = ReachabilityRoot(context: ContextId, root: NodeId)

  ghost function ContextsIn(visits: set<Visit>, n: NodeId): set<ContextId> {
    set v | v in visits && v.node == n :: v.context.id
  }

  ghost function RolesIn(visits: set<Visit>, n: NodeId): set<ContextRole> {
    set v | v in visits && v.node == n :: v.context.role
  }

  ghost function RootsIn(visits: set<Visit>, n: NodeId): set<ReachabilityRoot> {
    set v | v in visits && v.node == n :: ReachabilityRoot(v.context.id, v.root)
  }

  /** No context is reported for a node exactly when no context reaches it. */
  lemma NoContexts(g: Graph, n: NodeId)
    ensures ContextsIn(VisitsOf(g, n), n) == {} <==> forall c :: c in g.contexts.Values ==> !ReachedBy(g, c, n)
  {
    forall c | c in g.contexts.Values
      ensures ReachedBy(g, c, n) <==> exists r :: Visit(n, c, r) in VisitsOf(g, n)
    {
      OneWitness(g, c, n);
    }
    if v :| v in VisitsOf(g, n) {
      assert v == Visit(n, v.context, v.root);
      assert v.context.id in ContextsIn(VisitsOf(g, n), n);
    }
    if c :| c in g.contexts.Values && ReachedBy(g, c, n) {
      var r :| Visit(n, c, r) in VisitsOf(g, n);
    }
  }

  lemma AddedVisit(visits: set<Visit>, v: Visit, n: NodeId)
    ensures ContextsIn(visits + {v}, n)
         == ContextsIn(visits, n) + if v.node == n then {v.context.id} else {}
    ensures RolesIn(visits + {v}, n) == RolesIn(visits, n) + if v.node == n then {v.context.role} else {}
    ensures RootsIn(visits + {v}, n)
         == RootsIn(visits, n) + if v.node == n then {ReachabilityRoot(v.context.id, v.root)} else {}
  {
    assert forall w :: w in visits + {v} <==> w in visits || w == v;
    assert v in visits + {v};
    forall w | w in visits
      ensures w in visits + {v}
    {
    }
  }

  function At<T>(m: map<NodeId, set<T>>, n: NodeId): set<T> {
    if n in m then m[n] else {}
  }

  function With<T>(m: map<NodeId, set<T>>, n: NodeId, x: T): (m': map<NodeId, set<T>>)
    ensures forall k :: At(m', k) == At(m, k) + if k == n then {x} else {}
  {
    m[n := At(m, n) + {x}]
  }

  class Reachability {
    var contextsByNode: map<NodeId, set<ContextId>>
    var rolesByNode: map<NodeId, set<ContextRole>>
    var witnessRootsByNode: map<NodeId, set<ReachabilityRoot>>
    ghost var visits: set<Visit>

    function Contexts(n: NodeId): set<ContextId>
      reads this
    {
      At(contextsByNode, n)
    }

    function Roles(n: NodeId): set<ContextRole>
      reads this
    {
      At(rolesByNode, n)
    }

    function Roots(n: NodeId): set<ReachabilityRoot>
      reads this
    {
      At(witnessRootsByNode, n)
    }

    ghost predicate Valid()
      reads this
    {
      forall n ::
        && Contexts(n) == ContextsIn(visits, n)
        && Roles(n) == RolesIn(visits, n)
        && Roots(n) == RootsIn(visits, n)
    }

    /** The recorded answers for `n` are those the graph determines. */
    ghost predicate Answers(g: Graph, n: NodeId)
      reads this
    {
      && Contexts(n) == ContextsIn(VisitsOf(g, n), n)
      && Roles(n) == RolesIn(VisitsOf(g, n), n)
      && Roots(n) == RootsIn(VisitsOf(g, n), n)
    }

    lemma AnswersNode(g: Graph, n: NodeId)
      requires Valid() && forall v: Visit :: v.node == n ==> (v in visits <==> IsVisit(g, v))
      ensures Answers(g, n)
    {
      assert (set v | v in visits && v.node == n) == VisitsOf(g, n);
      assert ContextsIn(visits, n) == ContextsIn(VisitsOf(g, n), n);
      assert RolesIn(visits, n) == RolesIn(VisitsOf(g, n), n);
      assert RootsIn(visits, n) == RootsIn(VisitsOf(g, n), n);
    }

    constructor ()
      ensures Valid() && visits == {}
    {
      contextsByNode, rolesByNode, witnessRootsByNode := map[], map[], map[];
      visits := {};
    }

    method Record(n: NodeId, context: SourceContext, root: NodeId)
      requires Valid()
      modifies this
      ensures Valid() && visits == old(visits) + {Visit(n, context, root)}
    {
      contextsByNode := With(contextsByNode, n, context.id);
      rolesByNode := With(rolesByNode, n, context.role);
      witnessRootsByNode := With(witnessRootsByNode, n, ReachabilityRoot(context.id, root));
      visits := visits + {Visit(n, context, root)};
      forall m
        ensures Contexts(m) == ContextsIn(visits, m)
        ensures Roles(m) == RolesIn(visits, m)
        ensures Roots(m) == RootsIn(visits, m)
      {
        AddedVisit(old(visits), Visit(n, context, root), m);
        assert old(Contexts(m) == ContextsIn(visits, m));
      }
    }
  }

  // ---------- adjacency ----------

  ghost predicate IsAdjacency(adjacency: Adjacency, edges: set<(NodeId, NodeId)>) {
    forall a, b :: (a in adjacency && b in adjacency[a]) <==> (a, b) in edges
  }

  lemma WithEdgeAdds(adjacency: Adjacency, edges: set<(NodeId, NodeId)>, a: NodeId, b: NodeId)
    requires IsAdjacency(adjacency, edges)
    ensures IsAdjacency(With(adjacency, a, b), edges + {(a, b)})
  {
  }

  method Adjacencies(g: Graph) returns (runtime: Adjacency, publicSurface: Adjacency)
    ensures IsAdjacency(runtime, RuntimeEdges(g))
    ensures IsAdjacency(publicSurface, PublicEdges(g))
  {
    runtime, publicSurface := map[], map[];
    ghost var used, exported: set<(NodeId, NodeId)> := {}, {};
    var edges := g.edges;
    while edges != {}
      invariant edges <= g.edges
      invariant IsAdjacency(runtime, used) && IsAdjacency(publicSurface, exported)
      invariant used <= RuntimeEdges(g) && exported <= PublicEdges(g)
      invariant forall e :: e in g.edges - edges && e.to.Node? && !e.kind.Contains? && !e.kind.ReExport?
                  ==> (e.from, e.to.id) in used
      invariant forall e :: e in g.edges - edges && e.to.Node? && e.kind.ReExport?
                  ==> (e.from, e.to.id) in exported
    {
      var e :| e in edges;
      edges := edges - {e};
      if !e.to.Node? || e.kind.Contains? {
        continue;
      }
      if e.kind.ReExport? {
        WithEdgeAdds(publicSurface, exported, e.from, e.to.id);
        publicSurface := With(publicSurface, e.from, e.to.id);
        exported := exported + {(e.from, e.to.id)};
      } else {
        WithEdgeAdds(runtime, used, e.from, e.to.id);
        runtime := With(runtime, e.from, e.to.id);
        used := used + {(e.from, e.to.id)};
      }
    }
    assert exported == PublicEdges(g);
    var nodes := g.nodes.Keys;
    while nodes != {}
      invariant nodes <= g.nodes.Keys
      invariant IsAdjacency(runtime, used) && used <= RuntimeEdges(g)
      invariant forall e :: e in g.edges && e.to.Node? && !e.kind.Contains? && !e.kind.ReExport?
                  ==> (e.from, e.to.id) in used
      invariant forall n :: n in g.nodes.Keys - nodes && g.nodes[n].Symbol? ==> (n, g.nodes[n].file) in used
    {
      var n :| n in nodes;
      nodes := nodes - {n};
      if g.nodes[n].Symbol? {
        WithEdgeAdds(runtime, used, n, g.nodes[n].file);
        runtime := With(runtime, n, g.nodes[n].file);
        used := used + {(n, g.nodes[n].file)};
      }
    }
    assert used == RuntimeEdges(g);
  }

  /** The elements of a set in some order. */
  method Listed(s: set<NodeId>) returns (list: seq<NodeId>)
    ensures forall x :: x in list <==> x in s
  {
    list := [];
    var rest := s;
    while rest != {}
      invariant rest <= s && forall x :: x in list <==> x in s - rest
    {
      var x :| x in rest;
      rest := rest - {x};
      list := list + [x];
    }
  }

  method PublicSurfaceRoots(root: NodeId, adjacency: Adjacency, ghost edges: set<(NodeId, NodeId)>)
    returns (reachable: set<NodeId>)
    requires IsAdjacency(adjacency, edges)
    ensures forall n :: n in reachable <==> Reaches(edges, root, n)
  {
    reachable := {};
    var queue := [root];
    ghost var universe := {root} + set e | e in edges :: e.1;
    ReachesSelf(edges, root);
    while queue != []
      invariant root in reachable || root in queue
      invariant forall n :: n in reachable || n in queue ==> n in universe && Reaches(edges, root, n)
      invariant forall e :: e in edges && e.0 in reachable ==> e.1 in reachable || e.1 in queue
      decreases universe - reachable, |queue|
    {
      var node := queue[0];
      ghost var before := queue;
      queue := queue[1..];
      assert forall n :: n in before ==> n == node || n in queue;
      if node in reachable {
        continue;
      }
      reachable := reachable + {node};
      var targets := Listed(At(adjacency, node));
      forall t | t in targets
        ensures t in universe && Reaches(edges, root, t)
      {
        assert (node, t).1 in universe;
        ReachesSelf(edges, t);
        ReachesEdge(edges, node, t, t);
        ReachesTransitive(edges, root, node, t);
      }
      queue := queue + targets;
    }
    forall n | Reaches(edges, root, n)
      ensures n in reachable
    {
      var d: nat :| Steps(edges, root, n, d);
      ClosedHolds(edges, reachable, root, n, d);
    }
  }

  // ---------- the full search ----------

  /** The entries of the roots before number `i`, in root order. */
  ghost predicate Waiting(g: Graph, c: SourceContext, entries: seq<Entry<NodeId>>, i: nat) {
    && (forall k, l :: 0 <= k < l < |entries| ==> entries[k].key.Leq(entries[l].key))
    && (forall q :: q in entries ==> q.key.depth == 0 && q.key.index < i && IsStart(g, c, q.key.index, q.node))
    && (forall j: nat, n :: j < i && IsStart(g, c, j, n) ==> Entry(n, Key(0, j)) in entries)
  }

  lemma StartsWait(g: Graph, c: SourceContext, entries: seq<Entry<NodeId>>, i: nat, starts: seq<NodeId>)
    requires Waiting(g, c, entries, i)
    requires forall n :: n in starts <==> IsStart(g, c, i, n)
    ensures Waiting(g, c, entries + Pushed(starts, Key(0, i)), i + 1)
  {
    var pushed := Pushed(starts, Key(0, i));
    var all := entries + pushed;
    forall j: nat, n | j < i + 1 && IsStart(g, c, j, n)
      ensures Entry(n, Key(0, j)) in all
    {
      if j == i {
        var k :| 0 <= k < |starts| && starts[k] == n;
        assert pushed[k] == Entry(n, Key(0, i));
      }
    }
    forall k, l | 0 <= k < l < |all|
      ensures all[k].key.Leq(all[l].key)
    {
      if k < |entries| <= l {
        assert entries[k] in entries;
      }
    }
  }

  method InitialQueue(g: Graph, c: SourceContext, publicSurface: Adjacency)
    returns (queue: seq<(NodeId, nat)>, ghost entries: seq<Entry<NodeId>>)
    requires IsAdjacency(publicSurface, PublicEdges(g))
    ensures Carries(queue, entries) && Waiting(g, c, entries, |c.roots|)
  {
    queue, entries := [], [];
    for i := 0 to |c.roots|
      invariant Carries(queue, entries) && Waiting(g, c, entries, i)
    {
      var starts := [c.roots[i]];
      if c.scope.PublicSurface? {
        var surface := PublicSurfaceRoots(c.roots[i], publicSurface, PublicEdges(g));
        starts := Listed(surface);
      }
      StartsWait(g, c, entries, i, starts);
      CarriesMore(queue, entries, starts, Key(0, i));
      queue := queue + Paired(starts, i);
      entries := entries + Pushed(starts, Key(0, i));
    }
  }

  /** The visits a context contributes once the nodes of `best` have been served. */
  ghost predicate Contributed(before: set<Visit>, after: set<Visit>, c: SourceContext, best: map<NodeId, Key>) {
    forall v :: v in after <==>
      v in before || (v.context == c && v.node in best && best[v.node].index < |c.roots|
                      && v.root == c.roots[best[v.node].index])
  }

  lemma ContributedMore(before: set<Visit>, after: set<Visit>, c: SourceContext, best: map<NodeId, Key>,
                        n: NodeId, key: Key)
    requires Contributed(before, after, c, best) && n !in best && key.index < |c.roots|
    ensures Contributed(before, after + {Visit(n, c, c.roots[key.index])}, c, best[n := key])
  {
  }

  lemma IndexInRange(edges: set<(NodeId, NodeId)>, starts: set<(NodeId, nat)>, roots: nat, n: NodeId, key: Key)
    requires Candidate(edges, starts, n, key)
    requires forall s :: s in starts ==> s.1 < roots
    ensures key.index < roots
  {
    var s :| (s, key.index) in starts && Steps(edges, s, n, key.depth);
    assert (s, key.index).1 < roots;
  }

  /** Serves a queue front to back and records each node when it is first seen. */
  method Drain(result: Reachability, c: SourceContext, runtime: Adjacency, queue0: seq<(NodeId, nat)>,
               ghost search0: Search<NodeId>)
    returns (ghost best: map<NodeId, Key>)
    requires result.Valid() && IsAdjacency(runtime, search0.edges)
    requires Carries(queue0, search0.queue) && search0.best == map[]
    requires forall s :: s in search0.starts ==> s.1 < |c.roots|
    modifies result
    ensures result.Valid() && Contributed(old(result.visits), result.visits, c, best)
    ensures forall n, key: Key :: Best(search0.edges, search0.starts, n, key) <==> n in best && key == best[n]
  {
    hide Sound;
    var queue := queue0;
    ghost var search := search0;
    ghost var universe := Bound(search.edges, search.starts);
    var visited: set<NodeId> := {};
    while queue != []
      invariant result.Valid() && Carries(queue, search.queue)
      invariant search.edges == search0.edges && search.starts == search0.starts
      invariant visited == search.best.Keys
      invariant Contributed(old(result.visits), result.visits, c, search.best)
      decreases universe - visited, |queue|
    {
      var (node, rootIndex) := queue[0];
      queue := queue[1..];
      if node in visited {
        search := Skip(search);
        continue;
      }
      visited := visited + {node};
      ghost var key := search.queue[0].key;
      FrontIsCandidate(search);
      IndexInRange(search.edges, search.starts, |c.roots|, node, key);
      ContributedMore(old(result.visits), result.visits, c, search.best, node, key);
      result.Record(node, c, c.roots[rootIndex]);
      var targets := Listed(At(runtime, node));
      CarriesMore(queue, search.queue[1..], targets, key.Next());
      queue := queue + Paired(targets, rootIndex);
      search := BreadthFirst.Visit(search, targets);
    }
    Drained(search);
    best := search.best;
  }

  method AnalyzeContext(g: Graph, result: Reachability, c: SourceContext, runtime: Adjacency,
                        publicSurface: Adjacency)
    requires result.Valid()
    requires IsAdjacency(runtime, RuntimeEdges(g)) && IsAdjacency(publicSurface, PublicEdges(g))
    modifies result
    ensures result.Valid()
    ensures forall v :: v in result.visits <==>
              v in old(result.visits) || (v.context == c && Witnesses(g, v))
  {
    var queue; ghost var entries;
    queue, entries := InitialQueue(g, c, publicSurface);
    ghost var search := Begin(RuntimeEdges(g), Starts(g, c), entries);
    ghost var best := Drain(result, c, runtime, queue, search);
    forall v: Visit
      ensures v.context == c ==>
        (Witnesses(g, v) <==> v.node in best && best[v.node].index < |c.roots|
                              && v.root == c.roots[best[v.node].index])
    {
    }
  }

  /** Every node gets exactly the contexts, roles and witness roots that the graph determines. */
  method AnalyzeValidated(g: Graph) returns (result: Reachability)
    ensures fresh(result) && forall n :: result.Answers(g, n)
  {
    var runtime, publicSurface := Adjacencies(g);
    result := new Reachability();
    var contexts := g.contexts.Values;
    while contexts != {}
      invariant contexts <= g.contexts.Values
      invariant fresh(result) && result.Valid()
      invariant forall v :: v in result.visits <==>
                  v.context in g.contexts.Values - contexts && Witnesses(g, v)
    {
      var c :| c in contexts;
      contexts := contexts - {c};
      AnalyzeContext(g, result, c, runtime, publicSurface);
    }
    forall n
      ensures result.Answers(g, n)
    {
      result.AnswersNode(g, n);
    }
  }

  datatype Outcome = Valid(result: Reachability) | Invalid

  method Analyze(g: Graph) returns (r: Outcome)
    ensures r.Valid? <==> ValidGraph(g)
    ensures r.Valid? ==> fresh(r.result) && forall n :: r.result.Answers(g, n)
  {
    if !ValidGraph(g) {
      return Invalid;
    }
    var result := AnalyzeValidated(g);
    return Outcome.Valid(result);
  }

  // ---------- the search from a few targets ----------

  method ReverseAdjacency(adjacency: Adjacency, ghost edges: set<(NodeId, NodeId)>)
    returns (reverse: Adjacency)
    requires IsAdjacency(adjacency, edges)
    ensures IsAdjacency(reverse, Flip(edges))
  {
    reverse := map[];
    ghost var turned: set<(NodeId, NodeId)> := {};
    var sources := adjacency.Keys;
    while sources != {}
      invariant sources <= adjacency.Keys
      invariant IsAdjacency(reverse, turned) && turned <= Flip(edges)
      invariant forall a, b :: a in adjacency.Keys - sources && b in adjacency[a] ==> (b, a) in turned
    {
      var a :| a in sources;
      sources := sources - {a};
      var targets := adjacency[a];
      while targets != {}
        invariant targets <= adjacency[a]
        invariant IsAdjacency(reverse, turned) && turned <= Flip(edges)
        invariant forall c, b :: c in adjacency.Keys - sources - {a} && b in adjacency[c] ==> (b, c) in turned
        invariant forall b :: b in adjacency[a] - targets ==> (b, a) in turned
      {
        var b :| b in targets;
        targets := targets - {b};
        assert (a, b) in edges;
        WithEdgeAdds(reverse, turned, b, a);
        reverse := With(reverse, b, a);
        turned := turned + {(b, a)};
      }
    }
    assert turned == Flip(edges);
  }

  ghost predicate Shortest(edges: set<(NodeId, NodeId)>, a: NodeId, b: NodeId, d: nat) {
    Steps(edges, a, b, d) && forall k: nat :: Steps(edges, a, b, k) ==> d <= k
  }

  ghost predicate DepthsOf(distances: map<NodeId, nat>, best: map<NodeId, Key>) {
    forall n :: (n in distances <==> n in best) && (n in best ==> distances[n] == best[n].depth)
  }

  /** Distances along the reversed edges: `best` is what the search proves about them. */
  method ReverseDistances(target: NodeId, reverse: Adjacency, ghost search0: Search<NodeId>)
    returns (distances: map<NodeId, nat>, ghost best: map<NodeId, Key>)
    requires IsAdjacency(reverse, search0.edges)
    requires search0.queue == [Entry(target, Key(0, 0))] && search0.best == map[]
    ensures DepthsOf(distances, best)
    ensures forall n, key: Key :: Best(search0.edges, search0.starts, n, key) <==> n in best && key == best[n]
    ensures forall n, key: Key :: Candidate(search0.edges, search0.starts, n, key) ==> n in best
  {
    hide Sound;
    var queue: seq<(NodeId, nat)> := [(target, 0)];
    ghost var search := search0;
    ghost var unseen := Bound(search.edges, search.starts);
    distances := map[];
    while queue != []
      invariant Measures(queue, search.queue)
      invariant search.edges == search0.edges && search.starts == search0.starts
      invariant DepthsOf(distances, search.best)
      invariant forall n, key: Key :: Candidate(search.edges, search.starts, n, key) ==> n in unseen || n in distances
      decreases unseen, |queue|
    {
      var (node, distance) := queue[0];
      queue := queue[1..];
      if node in distances {
        search := Skip(search);
        continue;
      }
      ghost var key := search.queue[0].key;
      FrontIsCandidate(search);
      unseen := unseen - {node};
      distances := distances[node := distance];
      var sources := Listed(At(reverse, node));
      MeasuresMore(queue, search.queue[1..], sources, distance + 1, key.Next());
      queue := queue + Paired(sources, distance + 1);
      search := BreadthFirst.Visit(search, sources);
    }
    Drained(search);
    best := search.best;
  }

  lemma DistancesAreShortest(edges: set<(NodeId, NodeId)>, target: NodeId, best: map<NodeId, Key>)
    requires forall n, key: Key :: Candidate(Flip(edges), {(target, 0)}, n, key) ==> n in best
    requires forall n, key: Key ::
               Best(Flip(edges), {(target, 0)}, n, key) <==> n in best && key == best[n]
    ensures forall n, d: nat :: Steps(edges, n, target, d) ==> n in best
    ensures forall n :: n in best ==> Shortest(edges, n, target, best[n].depth)
  {
    FlipFlip(edges);
    forall n, d: nat | Steps(edges, n, target, d)
      ensures Candidate(Flip(edges), {(target, 0)}, n, Key(d, 0))
    {
      StepsFlip(edges, n, target, d);
    }
    forall n | n in best
      ensures Shortest(edges, n, target, best[n].depth)
    {
      assert Best(Flip(edges), {(target, 0)}, n, best[n]);
      StepsFlip(Flip(edges), target, n, best[n].depth);
      forall k: nat | Steps(edges, n, target, k)
        ensures best[n].depth <= k
      {
        assert Candidate(Flip(edges), {(target, 0)}, n, Key(k, 0));
      }
    }
  }

  /** The least distance to the target from the starts of one root. */
  method RootDistance(g: Graph, c: SourceContext, i: nat, publicSurface: Adjacency, target: NodeId,
                      distances: map<NodeId, nat>)
    returns (found: Option<nat>)
    requires i < |c.roots| && IsAdjacency(publicSurface, PublicEdges(g))
    requires forall n, d: nat :: Steps(RuntimeEdges(g), n, target, d) ==> n in distances
    requires forall n :: n in distances ==> Shortest(RuntimeEdges(g), n, target, distances[n])
    ensures found.Some? ==> Candidate(RuntimeEdges(g), Starts(g, c), target, Key(found.value, i))
    ensures forall d: nat :: Candidate(RuntimeEdges(g), Starts(g, c), target, Key(d, i))
                             ==> found.Some? && found.value <= d
  {
    var starts := {c.roots[i]};
    if c.scope.PublicSurface? {
      starts := PublicSurfaceRoots(c.roots[i], publicSurface, PublicEdges(g));
    }
    assert forall n :: n in starts <==> IsStart(g, c, i, n);
    found := None;
    var rest := starts;
    while rest != {}
      invariant rest <= starts
      invariant found.Some? ==> exists n :: n in starts && n in distances && distances[n] == found.value
      invariant forall n :: n in starts - rest && n in distances ==> found.Some? && found.value <= distances[n]
    {
      var n :| n in rest;
      rest := rest - {n};
      if n in distances && (found.None? || distances[n] < found.value) {
        found := Some(distances[n]);
      }
    }
    forall d: nat | Candidate(RuntimeEdges(g), Starts(g, c), target, Key(d, i))
      ensures found.Some? && found.value <= d
    {
      var s :| (s, i) in Starts(g, c) && Steps(RuntimeEdges(g), s, target, d);
      assert s in starts && s in distances && distances[s] <= d;
    }
  }

  /** The root that the full search would record for this target, found from the target's side. */
  method SelectRoot(g: Graph, c: SourceContext, publicSurface: Adjacency, target: NodeId,
                    distances: map<NodeId, nat>)
    returns (selected: Option<Key>)
    requires IsAdjacency(publicSurface, PublicEdges(g))
    requires forall n, d: nat :: Steps(RuntimeEdges(g), n, target, d) ==> n in distances
    requires forall n :: n in distances ==> Shortest(RuntimeEdges(g), n, target, distances[n])
    ensures selected.Some? ==> Best(RuntimeEdges(g), Starts(g, c), target, selected.value)
                               && selected.value.index < |c.roots|
    ensures selected.None? ==> forall key: Key :: !Candidate(RuntimeEdges(g), Starts(g, c), target, key)
  {
    ghost var edges, starts := RuntimeEdges(g), Starts(g, c);
    selected := None;
    for i := 0 to |c.roots|
      invariant selected.Some? ==> selected.value.index < i && Candidate(edges, starts, target, selected.value)
      invariant forall key: Key :: key.index < i && Candidate(edges, starts, target, key)
                  ==> selected.Some? && selected.value.Leq(key)
    {
      var distance := RootDistance(g, c, i, publicSurface, target, distances);
      if distance.Some? && (selected.None? || !selected.value.Leq(Key(distance.value, i))) {
        selected := Some(Key(distance.value, i));
      }
      forall key: Key | key.index == i && Candidate(edges, starts, target, key)
        ensures selected.Some? && selected.value.Leq(key)
      {
        assert key == Key(key.depth, i);
      }
    }
    forall key: Key | Candidate(edges, starts, target, key)
      ensures key.index < |c.roots|
    {
      IndexInRange(edges, starts, |c.roots|, target, key) by {
        assert forall s :: s in starts ==> IsStart(g, c, s.1, s.0);
      }
    }
  }

  lemma SelectedWitnesses(g: Graph, c: SourceContext, v: Visit, key: Key)
    requires v.context == c && key.index < |c.roots|
    requires Best(RuntimeEdges(g), Starts(g, c), v.node, key)
    ensures Witnesses(g, v) <==> v.root == c.roots[key.index]
  {
    forall other: Key | Best(RuntimeEdges(g), Starts(g, c), v.node, other)
      ensures other == key
    {
      BestIsUnique(RuntimeEdges(g), Starts(g, c), v.node, other, key);
    }
  }

  /** The same answers for the chosen targets, found from the targets' side unless there are more
      of them than contexts. */
  method AnalyzeTargets(g: Graph, targets: set<NodeId>) returns (r: Outcome)
    ensures r.Valid? <==> ValidGraph(g)
    ensures r.Valid? ==> fresh(r.result) && forall n :: n in targets ==> r.result.Answers(g, n)
  {
    if !ValidGraph(g) {
      return Invalid;
    }
    var result := new Reachability();
    if targets == {} {
      return Outcome.Valid(result);
    }
    if |targets| > (if |g.contexts| > 1 then |g.contexts| else 1) {
      result := AnalyzeValidated(g);
      return Outcome.Valid(result);
    }
    var runtime, publicSurface := Adjacencies(g);
    var reverse := ReverseAdjacency(runtime, RuntimeEdges(g));
    var rest := targets;
    while rest != {}
      invariant rest <= targets
      invariant fresh(result) && result.Valid()
      invariant forall v :: v in result.visits <==> v.node in targets - rest && IsVisit(g, v)
    {
      var target :| target in rest;
      rest := rest - {target};
      if target in g.nodes {
        AnalyzeTarget(g, result, target, reverse, publicSurface);
      } else {
        forall v: Visit | v.node == target
          ensures !IsVisit(g, v)
        {
          if IsVisit(g, v) {
            VisitedNodesExist(g, v);
          }
        }
      }
    }
    forall n | n in targets
      ensures result.Answers(g, n)
    {
      result.AnswersNode(g, n);
    }
    return Outcome.Valid(result);
  }

  method AnalyzeTarget(g: Graph, result: Reachability, target: NodeId, reverse: Adjacency,
                       publicSurface: Adjacency)
    requires result.Valid()
    requires IsAdjacency(reverse, Flip(RuntimeEdges(g))) && IsAdjacency(publicSurface, PublicEdges(g))
    modifies result
    ensures result.Valid()
    ensures forall v :: v in result.visits <==>
              v in old(result.visits) || (v.node == target && IsVisit(g, v))
  {
    hide Sound;
    var distances; ghost var best;
    ghost var search := Begin(Flip(RuntimeEdges(g)), {(target, 0)}, [Entry(target, Key(0, 0))]);
    distances, best := ReverseDistances(target, reverse, search);
    DistancesAreShortest(RuntimeEdges(g), target, best);
    var contexts := g.contexts.Values;
    while contexts != {}
      invariant contexts <= g.contexts.Values
      invariant result.Valid()
      invariant forall v :: v in result.visits <==>
                  v in old(result.visits)
                  || (v.node == target && v.context in g.contexts.Values - contexts && Witnesses(g, v))
    {
      var c :| c in contexts;
      contexts := contexts - {c};
      var selected := SelectRoot(g, c, publicSurface, target, distances);
      if selected.Some? {
        forall v: Visit | v.node == target && v.context == c {
          SelectedWitnesses(g, c, v, selected.value);
        }
        result.Record(target, c, c.roots[selected.value.index]);
      }
    }
  }

  /** In a valid graph no search leaves the graph's nodes. */
  lemma VisitedNodesExist(g: Graph, v: Visit)
    requires ValidGraph(g) && IsVisit(g, v)
    ensures v.node in g.nodes
  {
    var c := v.context;
    var key: Key :| Best(RuntimeEdges(g), Starts(g, c), v.node, key);
    var s :| (s, key.index) in Starts(g, c) && Steps(RuntimeEdges(g), s, v.node, key.depth);
    assert IsStart(g, c, key.index, s);
    assert c.roots[key.index] in g.nodes;
    if c.scope.PublicSurface? {
      var d: nat :| Steps(PublicEdges(g), c.roots[key.index], s, d);
      ClosedHolds(PublicEdges(g), g.nodes.Keys, c.roots[key.index], s, d);
    }
    ClosedHolds(RuntimeEdges(g), g.nodes.Keys, s, v.node, key.depth);
  }
}
