/** Bounded propagation of callable effects from callees to callers. */
module Effects {
  import opened SourceGraphs
  import opened Walks

  const USIZE_MAX: nat := 0xFFFF_FFFF_FFFF_FFFF

  /** What a counter shows after being bumped `n` times with saturating addition. */
  function Saturated(n: nat): nat {
    if n <= USIZE_MAX then n else USIZE_MAX
  }

  function Bumped(count: nat): nat {
    if count < USIZE_MAX then count + 1 else USIZE_MAX
  }

  lemma BumpedCount<T>(s: set<T>, x: T)
    requires x !in s
    ensures Bumped(Saturated(|s|)) == Saturated(|s + {x}|)
  {
  }

  datatype Limits = Limits(maxNodes: nat, maxEdges: nat, maxEffectFacts: nat, maxWorkItems: nat)

  datatype EffectFact = EffectFact(
    origin: NodeId, kind: EffectKind, evidence: EvidenceClass, span: Option<Span>)

  datatype LimitKind = NodeLimit | EdgeLimit | EffectFactLimit | WorkItemLimit

  datatype Result<+T> = Ok(value: T) | Err(kind: LimitKind, observed: nat, maximum: nat)

  // ---------- what the analysis means ----------

  predicate IsCallable(node: SourceNode) {
    node.Symbol? && node.callable.Some?
  }

  function Callables(g: Graph): set<NodeId> {
    set n | n in g.nodes && IsCallable(g.nodes[n])
  }

  function DirectFact(n: NodeId, e: CallableEffect): EffectFact {
    EffectFact(n, e.kind, e.evidence, e.span)
  }

  function BoundaryFact(n: NodeId, b: AnalysisBoundary): EffectFact {
    EffectFact(n, UnknownEffect, BoundaryLimited, b.evidence.span)
  }

  predicate SeedsBoundary(callables: set<NodeId>, b: AnalysisBoundary) {
    !b.effect.Complete? && b.node.Some? && b.node.value in callables
  }

  /** The direct effects of callables, and one unknown effect per incomplete boundary on one. */
  ghost predicate Seeded(g: Graph, f: EffectFact) {
    && f.origin in Callables(g)
    && ((exists e :: e in g.nodes[f.origin].callable.value.effects && e.provenance.Direct?
                     && f == DirectFact(f.origin, e))
        || (exists b :: b in g.boundaries && SeedsBoundary(Callables(g), b)
                        && f == BoundaryFact(b.node.value, b)))
  }

  /** Lexical references between callables, from the caller to the callee. */
  function CallEdges(g: Graph): set<(NodeId, NodeId)> {
    set e | e in g.edges && e.kind.LexicalReference? && e.from in Callables(g)
            && e.to.Node? && e.to.id in Callables(g) :: (e.from, e.to.id)
  }

  /** A callable has a fact when the fact is seeded somewhere it can reach by references. */
  ghost predicate Holds(g: Graph, n: NodeId, f: EffectFact) {
    n in Callables(g) && Seeded(g, f) && Reaches(CallEdges(g), n, f.origin)
  }

  type Pair = (NodeId, EffectFact)

  ghost function Seeds(g: Graph): set<EffectFact>
    ensures forall f :: f in Seeds(g) <==> Seeded(g, f)
  {
    (set n, e | n in Callables(g) && e in g.nodes[n].callable.value.effects && e.provenance.Direct?
        :: DirectFact(n, e))
    + (set b | b in g.boundaries && SeedsBoundary(Callables(g), b) :: BoundaryFact(b.node.value, b))
  }

  ghost function Closure(g: Graph): set<Pair>
    ensures forall p :: p in Closure(g) <==> Holds(g, p.0, p.1)
  {
    set n, f | n in Callables(g) && f in Seeds(g) && Reaches(CallEdges(g), n, f.origin) :: (n, f)
  }

  /** One unit of work: a pair handed to one of the callers of its callable. */
  ghost function Work(g: Graph): set<(Pair, NodeId)> {
    set p, c | p in Closure(g) && c in Callables(g) && (c, p.0) in CallEdges(g) :: (p, c)
  }

  ghost predicate Fits(g: Graph, limits: Limits) {
    && |g.nodes| <= limits.maxNodes
    && |g.edges| <= limits.maxEdges
    && Saturated(|Closure(g)|) <= limits.maxEffectFacts
    && Saturated(|Work(g)|) <= limits.maxWorkItems
  }

  function EffectForNode(n: NodeId, f: EffectFact): CallableEffect {
    var direct := n == f.origin;
    CallableEffect(
      f.kind,
      if direct then Direct else Propagated(f.origin),
      if direct then f.evidence
      else if f.kind.UnknownEffect? || f.evidence.BoundaryLimited? then BoundaryLimited
      else Inferred,
      f.span)
  }

  function WithEffects(node: SourceNode, effects: set<CallableEffect>): SourceNode
    requires IsCallable(node)
  {
    node.(callable := Some(CallableContract(effects)))
  }

  ghost function EffectsOf(g: Graph, n: NodeId): set<CallableEffect> {
    set p | p in Closure(g) && p.0 == n :: EffectForNode(n, p.1)
  }

  ghost function Annotated(g: Graph): Graph {
    g.(nodes := map n | n in g.nodes ::
         if IsCallable(g.nodes[n]) then WithEffects(g.nodes[n], EffectsOf(g, n)) else g.nodes[n])
  }

  // ---------- the closure is the least fixpoint of propagation ----------

  /** Seeds sit at their origin, and a caller has whatever its callee has. */
  ghost predicate Fixpoint(g: Graph, pairs: set<Pair>) {
    && (forall f :: Seeded(g, f) ==> (f.origin, f) in pairs)
    && (forall p, c :: p in pairs && (c, p.0) in CallEdges(g) ==> (c, p.1) in pairs)
  }

  lemma ClosureIsFixpoint(g: Graph)
    ensures Fixpoint(g, Closure(g))
  {
    forall f | Seeded(g, f)
      ensures (f.origin, f) in Closure(g)
    {
      ReachesSelf(CallEdges(g), f.origin);
    }
    forall p, c | p in Closure(g) && (c, p.0) in CallEdges(g)
      ensures (c, p.1) in Closure(g)
    {
      ReachesEdge(CallEdges(g), c, p.0, p.1.origin);
    }
  }

  lemma {:induction false} FixpointHolds(g: Graph, pairs: set<Pair>, n: NodeId, f: EffectFact, d: nat)
    requires Fixpoint(g, pairs) && Seeded(g, f) && Steps(CallEdges(g), n, f.origin, d)
    ensures (n, f) in pairs
    decreases d
  {
    if d == 0 {
      assert (f.origin, f) in pairs;
    } else {
      var m := FirstEdge(CallEdges(g), n, f.origin, d);
      FixpointHolds(g, pairs, m, f, d - 1);
      assert (n, (m, f).0) in CallEdges(g);
    }
  }

  lemma ClosureIsLeast(g: Graph, pairs: set<Pair>)
    requires Fixpoint(g, pairs)
    ensures Closure(g) <= pairs
  {
    forall p | p in Closure(g)
      ensures p in pairs
    {
      var d: nat :| Steps(CallEdges(g), p.0, p.1.origin, d);
      FixpointHolds(g, pairs, p.0, p.1, d);
    }
  }

  // ---------- what an annotated graph says ----------

  /** The effects of a callable are read off the seeds it reaches: its own seeds come back as direct
      effects, those of other callables as propagated ones naming where they come from. */
  lemma AnnotatedEffects(g: Graph, n: NodeId, e: CallableEffect)
    requires n in Callables(g)
    ensures e in Annotated(g).nodes[n].callable.value.effects <==>
            exists f :: Seeded(g, f) && Reaches(CallEdges(g), n, f.origin) && e == EffectForNode(n, f)
    ensures e in Annotated(g).nodes[n].callable.value.effects && e.provenance.Direct?
            ==> Seeded(g, DirectFact(n, e))
    ensures e in Annotated(g).nodes[n].callable.value.effects && e.provenance.Propagated?
            ==> e.provenance.sourceTarget != n && Reaches(CallEdges(g), n, e.provenance.sourceTarget)
  {
    if f :| Seeded(g, f) && Reaches(CallEdges(g), n, f.origin) && e == EffectForNode(n, f) {
      assert (n, f) in Closure(g);
    }
    if e in EffectsOf(g, n) {
      var p :| p in Closure(g) && p.0 == n && e == EffectForNode(n, p.1);
      assert Seeded(g, p.1);
    }
  }

  lemma AnnotationKeepsSeeds(g: Graph, f: EffectFact)
    ensures Callables(Annotated(g)) == Callables(g)
    ensures Seeded(Annotated(g), f) <==> Seeded(g, f)
  {
    var a := Annotated(g);
    assert Callables(a) == Callables(g);
    if Seeded(g, f) {
      ReachesSelf(CallEdges(g), f.origin);
      AnnotatedEffects(g, f.origin, EffectForNode(f.origin, f));
      assert f == DirectFact(f.origin, EffectForNode(f.origin, f));
    }
    if Seeded(a, f) {
      if e :| e in a.nodes[f.origin].callable.value.effects && e.provenance.Direct?
              && f == DirectFact(f.origin, e) {
        AnnotatedEffects(g, f.origin, e);
      }
    }
  }

  lemma SameClosure(g: Graph, a: Graph)
    requires Callables(a) == Callables(g) && a.edges == g.edges
    requires forall f :: Seeded(a, f) <==> Seeded(g, f)
    ensures CallEdges(a) == CallEdges(g) && Closure(a) == Closure(g) && Work(a) == Work(g)
  {
    assert CallEdges(a) == CallEdges(g);
    assert Seeds(a) == Seeds(g);
  }

  /** Annotating an annotated graph succeeds under the same limits and changes nothing. */
  lemma AnnotationIsIdempotent(g: Graph, limits: Limits)
    ensures Annotated(Annotated(g)) == Annotated(g)
    ensures Fits(Annotated(g), limits) <==> Fits(g, limits)
  {
    var a := Annotated(g);
    forall f
      ensures Seeded(a, f) <==> Seeded(g, f)
    {
      AnnotationKeepsSeeds(g, f);
    }
    AnnotationKeepsSeeds(g, EffectFact("", UnknownEffect, BoundaryLimited, None));
    SameClosure(g, a);
    assert Annotated(a).nodes == a.nodes;
    assert a.nodes.Keys == g.nodes.Keys;
    assert |a.nodes| == |a.nodes.Keys| && |g.nodes| == |g.nodes.Keys|;
  }

  // ---------- the analysis ----------

  method EnsureLimit(kind: LimitKind, observed: nat, maximum: nat) returns (r: Result<()>)
    ensures r.Ok? <==> observed <= maximum
    ensures r.Err? ==> r == Err(kind, observed, maximum)
  {
    if observed > maximum {
      return Err(kind, observed, maximum);
    }
    return Ok(());
  }

  /** The fact sets under construction and the running count of facts. */
  class FactStore {
    var factsByNode: map<NodeId, set<EffectFact>>
    var factCount: nat
    ghost var pairs: set<Pair>

    ghost predicate Valid()
      reads this
    {
      && (forall n, f :: (n, f) in pairs <==> n in factsByNode && f in factsByNode[n])
      && factCount == Saturated(|pairs|)
    }

    constructor (callables: set<NodeId>)
      ensures Valid() && pairs == {} && factsByNode.Keys == callables
    {
      factsByNode := map n | n in callables :: {};
      factCount := 0;
      pairs := {};
    }

    method InsertFact(n: NodeId, f: EffectFact, maximum: nat) returns (r: Result<bool>)
      requires Valid()
      modifies this
      ensures Valid() && factsByNode.Keys == old(factsByNode.Keys)
      ensures pairs == old(pairs) + (if n in factsByNode then {(n, f)} else {})
      ensures r.Ok? ==> r.value == (pairs != old(pairs))
      ensures r.Ok? && r.value ==> Saturated(|pairs|) <= maximum
      ensures r.Err? ==> maximum < Saturated(|pairs|)
    {
      if n !in factsByNode || f in factsByNode[n] {
        return Ok(false);
      }
      assert (n, f) !in pairs;
      factsByNode := factsByNode[n := factsByNode[n] + {f}];
      factCount := Bumped(factCount);
      pairs := pairs + {(n, f)};
      var checked := EnsureLimit(EffectFactLimit, factCount, maximum);
      if checked.Err? {
        return Err(checked.kind, checked.observed, checked.maximum);
      }
      return Ok(true);
    }
  }

  lemma SubsetExceeds<T>(part: set<T>, whole: set<T>, maximum: nat)
    requires part <= whole && maximum < Saturated(|part|)
    ensures maximum < Saturated(|whole|)
  {
    CardinalityMonotone(part, whole);
  }

  lemma {:induction false} CardinalityMonotone<T>(part: set<T>, whole: set<T>)
    requires part <= whole
    ensures |part| <= |whole|
  {
    assert whole == part + (whole - part);
  }

  /** What the worklist is to reach: seeds, edges, the pairs that hold and the work they cost. */
  datatype Target = Target(
    seeds: set<EffectFact>, edges: set<(NodeId, NodeId)>, closure: set<Pair>, work: set<(Pair, NodeId)>)
  {
    ghost predicate Coherent() {
      && (forall f :: f in seeds ==> (f.origin, f) in closure)
      && (forall p :: p in closure ==> p.1 in seeds)
      && (forall p, c :: p in closure && (c, p.0) in edges ==> (p, c) in work && (c, p.1) in closure)
      && (forall w :: w in work ==> w.0 in closure && (w.1, w.0.0) in edges)
      && (forall pairs :: Settled(pairs) ==> closure <= pairs)
    }

    /** Seeds sit at their origin, and a caller has whatever its callee has. */
    ghost predicate Settled(pairs: set<Pair>) {
      && (forall f :: f in seeds ==> (f.origin, f) in pairs)
      && (forall p, c :: p in pairs && (c, p.0) in edges ==> (c, p.1) in pairs)
    }

    ghost predicate Exceeds(limits: Limits) {
      limits.maxEffectFacts < Saturated(|closure|) || limits.maxWorkItems < Saturated(|work|)
    }
  }

  ghost function TargetOf(g: Graph): Target {
    Target(Seeds(g), CallEdges(g), Closure(g), Work(g))
  }

  lemma TargetIsCoherent(g: Graph)
    ensures TargetOf(g).Coherent() && TargetOf(g).edges == CallEdges(g)
  {
    ClosureIsFixpoint(g);
    var t := TargetOf(g);
    forall pairs | t.Settled(pairs)
      ensures t.closure <= pairs
    {
      ClosureIsLeast(g, pairs);
    }
  }

  /** Only true pairs are recorded, no more than the limit allows. */
  ghost predicate Sound(t: Target, store: FactStore, limits: Limits)
    reads store
  {
    store.Valid() && store.pairs <= t.closure && Saturated(|store.pairs|) <= limits.maxEffectFacts
  }

  /** The direct effects of `n`, apart from those still waiting, are recorded at `n`. */
  ghost predicate DirectRecorded(g: Graph, n: NodeId, waiting: set<CallableEffect>, pairs: set<Pair>)
    requires n in Callables(g)
  {
    forall e :: e in g.nodes[n].callable.value.effects - waiting && e.provenance.Direct?
      ==> (n, DirectFact(n, e)) in pairs
  }

  method SeedDirectEffects(g: Graph, store: FactStore, limits: Limits) returns (r: Result<()>)
    requires Sound(TargetOf(g), store, limits) && store.factsByNode.Keys == Callables(g)
    modifies store
    ensures r.Ok? ==> Sound(TargetOf(g), store, limits) && old(store.pairs) <= store.pairs
    ensures r.Ok? ==> store.factsByNode.Keys == Callables(g)
    ensures r.Err? ==> TargetOf(g).Exceeds(limits)
    ensures r.Ok? ==> forall n :: n in Callables(g) ==> DirectRecorded(g, n, {}, store.pairs)
  {
    var nodes := Callables(g);
    while nodes != {}
      invariant nodes <= Callables(g)
      invariant Sound(TargetOf(g), store, limits) && old(store.pairs) <= store.pairs
      invariant store.factsByNode.Keys == Callables(g)
      invariant forall n :: n in Callables(g) - nodes ==> DirectRecorded(g, n, {}, store.pairs)
    {
      var n :| n in nodes;
      var effects := g.nodes[n].callable.value.effects;
      while effects != {}
        invariant effects <= g.nodes[n].callable.value.effects
        invariant Sound(TargetOf(g), store, limits) && old(store.pairs) <= store.pairs
        invariant store.factsByNode.Keys == Callables(g)
        invariant forall m :: m in Callables(g) - nodes ==> DirectRecorded(g, m, {}, store.pairs)
        invariant DirectRecorded(g, n, effects, store.pairs)
      {
        var e :| e in effects;
        effects := effects - {e};
        if !e.provenance.Direct? {
          continue;
        }
        ClosureIsFixpoint(g);
        assert Seeded(g, DirectFact(n, e));
        var inserted := store.InsertFact(n, DirectFact(n, e), limits.maxEffectFacts);
        if inserted.Err? {
          SubsetExceeds(store.pairs, Closure(g), limits.maxEffectFacts);
          return Err(inserted.kind, inserted.observed, inserted.maximum);
        }
      }
      nodes := nodes - {n};
    }
    return Ok(());
  }

  method SeedBoundaries(g: Graph, store: FactStore, limits: Limits) returns (r: Result<()>)
    requires Sound(TargetOf(g), store, limits) && store.factsByNode.Keys == Callables(g)
    modifies store
    ensures r.Ok? ==> Sound(TargetOf(g), store, limits) && old(store.pairs) <= store.pairs
    ensures r.Ok? ==> store.factsByNode.Keys == Callables(g)
    ensures r.Err? ==> TargetOf(g).Exceeds(limits)
    ensures r.Ok? ==> forall b :: b in g.boundaries && SeedsBoundary(Callables(g), b)
                        ==> (b.node.value, BoundaryFact(b.node.value, b)) in store.pairs
  {
    var boundaries := g.boundaries;
    while boundaries != {}
      invariant boundaries <= g.boundaries
      invariant Sound(TargetOf(g), store, limits) && old(store.pairs) <= store.pairs
      invariant store.factsByNode.Keys == Callables(g)
      invariant forall b :: b in g.boundaries - boundaries && SeedsBoundary(Callables(g), b)
                  ==> (b.node.value, BoundaryFact(b.node.value, b)) in store.pairs
    {
      var b :| b in boundaries;
      boundaries := boundaries - {b};
      if b.effect.Complete? || b.node.None? || b.node.value !in store.factsByNode {
        continue;
      }
      ClosureIsFixpoint(g);
      assert SeedsBoundary(Callables(g), b) && Seeded(g, BoundaryFact(b.node.value, b));
      var inserted := store.InsertFact(b.node.value, BoundaryFact(b.node.value, b), limits.maxEffectFacts);
      if inserted.Err? {
        SubsetExceeds(store.pairs, Closure(g), limits.maxEffectFacts);
        return Err(inserted.kind, inserted.observed, inserted.maximum);
      }
    }
    return Ok(());
  }

  method CallersByCallee(g: Graph) returns (callers: map<NodeId, set<NodeId>>)
    ensures forall callee, caller ::
              (callee in callers && caller in callers[callee]) <==> (caller, callee) in CallEdges(g)
  {
    callers := map[];
    var edges := g.edges;
    while edges != {}
      invariant edges <= g.edges
      invariant forall callee, caller :: callee in callers && caller in callers[callee]
                  ==> (caller, callee) in CallEdges(g)
      invariant forall e :: e in g.edges - edges && e.kind.LexicalReference? && e.from in Callables(g)
                  && e.to.Node? && e.to.id in Callables(g)
                  ==> e.to.id in callers && e.from in callers[e.to.id]
    {
      var e :| e in edges;
      edges := edges - {e};
      if !e.kind.LexicalReference? || e.from !in Callables(g) || !e.to.Node? {
        continue;
      }
      var callee := e.to.id;
      if callee in Callables(g) {
        assert (e.from, callee) in CallEdges(g);
        callers := callers[callee := (if callee in callers then callers[callee] else {}) + {e.from}];
      }
    }
  }

  /** The bookkeeping of the worklist: pairs are either processed or pending, every seed is known,
      and each unit of work done belongs to a processed pair and left its fact at the caller. */
  ghost predicate Consistent(t: Target, pairs: set<Pair>, processed: set<Pair>, pending: set<Pair>,
                             done: set<(Pair, NodeId)>)
  {
    && processed + pending == pairs
    && processed !! pending
    && (forall f :: f in t.seeds ==> (f.origin, f) in pairs)
    && done <= t.work
    && (forall w :: w in done ==> w.0 in processed && (w.1, w.0.1) in pairs)
  }

  /** Every caller of every processed pair was served, apart from `rest` for the pair `last`. */
  ghost predicate Served(t: Target, processed: set<Pair>, done: set<(Pair, NodeId)>,
                         last: Pair, rest: set<NodeId>)
  {
    forall q, c :: q in processed && (c, q.0) in t.edges ==> (q, c) in done || (q == last && c in rest)
  }

  /** No unit of work is done twice: the callers in `rest` have not been served for `p`. */
  ghost predicate Waiting(done: set<(Pair, NodeId)>, p: Pair, rest: set<NodeId>) {
    forall w :: w in done && w.0 == p ==> w.1 !in rest
  }

  lemma NewPairWaits(t: Target, pairs: set<Pair>, processed: set<Pair>, pending: set<Pair>,
                     done: set<(Pair, NodeId)>, p: Pair, callers: set<NodeId>)
    requires Consistent(t, pairs, processed, pending, done) && p in pending
    requires forall q, c :: q in processed && (c, q.0) in t.edges ==> (q, c) in done
    requires forall c :: (c, p.0) in t.edges ==> c in callers
    ensures Consistent(t, pairs, processed + {p}, pending - {p}, done)
    ensures Waiting(done, p, callers) && Served(t, processed + {p}, done, p, callers)
  {
  }

  lemma HandedOn(t: Target, pairs: set<Pair>, processed: set<Pair>, pending: set<Pair>,
                 done: set<(Pair, NodeId)>, p: Pair, caller: NodeId, rest: set<NodeId>)
    requires t.Coherent() && pairs <= t.closure && Consistent(t, pairs, processed, pending, done)
    requires p in processed && (caller, p.0) in t.edges
    requires caller in rest && Served(t, processed, done, p, rest) && Waiting(done, p, rest)
    ensures (p, caller) in t.work && (caller, p.1) in t.closure
    ensures caller == p.1.origin ==> (caller, p.1) in pairs
    ensures var fact := (caller, p.1);
            Consistent(t, pairs + {fact}, processed,
                       if fact in pairs then pending else pending + {fact}, done + {(p, caller)})
    ensures Served(t, processed, done + {(p, caller)}, p, rest - {caller})
    ensures (p, caller) !in done && Waiting(done + {(p, caller)}, p, rest - {caller})
  {
    assert p in t.closure;
  }

  /** Hands the fact of `p` to each of its callers, in any order. */
  method HandToCallers(ghost t: Target, store: FactStore, p: Pair, callers: set<NodeId>, limits: Limits,
                       pending0: set<Pair>, workItems0: nat,
                       ghost processed: set<Pair>, ghost done0: set<(Pair, NodeId)>)
    returns (r: Result<()>, pending: set<Pair>, workItems: nat, ghost done: set<(Pair, NodeId)>)
    requires t.Coherent() && Sound(t, store, limits)
    requires forall q :: q in t.closure ==> q.0 in store.factsByNode
    requires p in processed && Consistent(t, store.pairs, processed, pending0, done0)
    requires workItems0 == Saturated(|done0|) <= limits.maxWorkItems
    requires forall c :: c in callers <==> (c, p.0) in t.edges
    requires Waiting(done0, p, callers)
    requires Served(t, processed, done0, p, callers)
    modifies store
    ensures r.Err? ==> t.Exceeds(limits)
    ensures r.Ok? ==>
              && Sound(t, store, limits) && store.factsByNode.Keys == old(store.factsByNode.Keys)
              && Consistent(t, store.pairs, processed, pending, done)
              && workItems == Saturated(|done|) <= limits.maxWorkItems
              && Served(t, processed, done, p, {})
  {
    pending, workItems, done := pending0, workItems0, done0;
    var rest := callers;
    while rest != {}
      invariant rest <= callers
      invariant Sound(t, store, limits) && store.factsByNode.Keys == old(store.factsByNode.Keys)
      invariant Consistent(t, store.pairs, processed, pending, done)
      invariant workItems == Saturated(|done|) <= limits.maxWorkItems
      invariant Waiting(done, p, rest)
      invariant Served(t, processed, done, p, rest)
    {
      var caller :| caller in rest;
      HandedOn(t, store.pairs, processed, pending, done, p, caller, rest);
      rest := rest - {caller};
      ghost var fact, pairs := (caller, p.1), store.pairs;
      BumpedCount(done, (p, caller));
      workItems := Bumped(workItems);
      done := done + {(p, caller)};
      r := EnsureLimit(WorkItemLimit, workItems, limits.maxWorkItems);
      if r.Err? {
        SubsetExceeds(done, t.work, limits.maxWorkItems);
        return;
      }
      if caller == p.1.origin {
        assert pairs + {fact} == pairs;
        continue;
      }
      var inserted := store.InsertFact(caller, p.1, limits.maxEffectFacts);
      if inserted.Err? {
        SubsetExceeds(store.pairs, t.closure, limits.maxEffectFacts);
        r := Err(inserted.kind, inserted.observed, inserted.maximum);
        return;
      }
      if inserted.value {
        pending := pending + {(caller, p.1)};
      }
    }
    r := Ok(());
  }

  /** Drains the worklist, in any order. */
  method Propagate(ghost t: Target, store: FactStore, callers: map<NodeId, set<NodeId>>, limits: Limits)
    returns (r: Result<()>)
    requires t.Coherent() && Sound(t, store, limits)
    requires forall q :: q in t.closure ==> q.0 in store.factsByNode
    requires forall f :: f in t.seeds ==> (f.origin, f) in store.pairs
    requires forall callee, caller ::
               (callee in callers && caller in callers[callee]) <==> (caller, callee) in t.edges
    modifies store
    ensures r.Err? ==> t.Exceeds(limits)
    ensures r.Ok? ==>
              && Sound(t, store, limits) && store.factsByNode.Keys == old(store.factsByNode.Keys)
              && store.pairs == t.closure && Saturated(|t.work|) <= limits.maxWorkItems
  {
    var pending := set n, f | n in store.factsByNode && f in store.factsByNode[n] :: (n, f);
    assert pending == store.pairs;
    var workItems := 0;
    ghost var processed: set<Pair>, done: set<(Pair, NodeId)> := {}, {};
    while pending != {}
      invariant Sound(t, store, limits) && store.factsByNode.Keys == old(store.factsByNode.Keys)
      invariant Consistent(t, store.pairs, processed, pending, done)
      invariant workItems == Saturated(|done|) <= limits.maxWorkItems
      invariant forall p, c :: p in processed && (c, p.0) in t.edges ==> (p, c) in done
      decreases t.closure - processed
    {
      var p :| p in pending;
      var served := if p.0 in callers then callers[p.0] else {};
      NewPairWaits(t, store.pairs, processed, pending, done, p, served);
      pending := pending - {p};
      processed := processed + {p};
      r, pending, workItems, done :=
        HandToCallers(t, store, p, served, limits, pending, workItems, processed, done);
      if r.Err? {
        return;
      }
    }
    DrainedIsClosure(t, store.pairs, done);
    r := Ok(());
  }

  lemma DrainedIsClosure(t: Target, pairs: set<Pair>, done: set<(Pair, NodeId)>)
    requires t.Coherent() && pairs <= t.closure && Consistent(t, pairs, pairs, {}, done)
    requires forall p, c :: p in pairs && (c, p.0) in t.edges ==> (p, c) in done
    ensures pairs == t.closure && done == t.work
  {
    assert t.Settled(pairs) by {
      forall p, c | p in pairs && (c, p.0) in t.edges
        ensures (c, p.1) in pairs
      {
        assert (p, c) in done;
      }
    }
    forall w | w in t.work
      ensures w in done
    {
      assert w == (w.0, w.1);
    }
  }

  method WriteBack(graph: SourceGraph, store: FactStore)
    requires store.Valid() && store.pairs == Closure(graph.View())
    requires store.factsByNode.Keys == Callables(graph.View())
    modifies graph
    ensures graph.View() == Annotated(old(graph.View()))
  {
    ghost var g := graph.View();
    var nodes := store.factsByNode.Keys;
    while nodes != {}
      invariant nodes <= Callables(g) && graph.nodes.Keys == g.nodes.Keys
      invariant forall n :: n in g.nodes ==>
                  graph.nodes[n] == (if n in nodes then g.nodes else Annotated(g).nodes)[n]
    {
      var n :| n in nodes;
      nodes := nodes - {n};
      var effects := set f | f in store.factsByNode[n] :: EffectForNode(n, f);
      StoredEffects(g, store, n);
      graph.nodes := graph.nodes[n := WithEffects(graph.nodes[n], effects)];
    }
    assert graph.nodes == Annotated(g).nodes;
  }

  lemma StoredEffects(g: Graph, store: FactStore, n: NodeId)
    requires store.Valid() && store.pairs == Closure(g) && n in store.factsByNode
    ensures (set f | f in store.factsByNode[n] :: EffectForNode(n, f)) == EffectsOf(g, n)
  {
    forall f | f in store.factsByNode[n]
      ensures EffectForNode(n, f) in EffectsOf(g, n)
    {
      assert (n, f) in Closure(g);
    }
  }

  /** Recording the direct effects of all callables and their boundaries records all seeds. */
  lemma AllSeeded(g: Graph, direct: set<Pair>, pairs: set<Pair>)
    requires direct <= pairs && forall n :: n in Callables(g) ==> DirectRecorded(g, n, {}, direct)
    requires forall b :: b in g.boundaries && SeedsBoundary(Callables(g), b) ==>
               (b.node.value, BoundaryFact(b.node.value, b)) in pairs
    ensures forall f :: f in TargetOf(g).seeds ==> (f.origin, f) in pairs
    ensures forall p :: p in TargetOf(g).closure ==> p.0 in Callables(g)
  {
  }

  lemma FitsExactly(g: Graph, limits: Limits)
    ensures Fits(g, limits) <==>
            |g.nodes| <= limits.maxNodes && |g.edges| <= limits.maxEdges && !TargetOf(g).Exceeds(limits)
  {
  }

  lemma ReachedTarget(g: Graph, store: FactStore, limits: Limits)
    requires Sound(TargetOf(g), store, limits) && store.pairs == TargetOf(g).closure
    requires Saturated(|TargetOf(g).work|) <= limits.maxWorkItems
    ensures !TargetOf(g).Exceeds(limits) && store.Valid() && store.pairs == Closure(g)
  {
  }

  lemma NothingRecorded(g: Graph, store: FactStore, limits: Limits)
    requires store.Valid() && store.pairs == {}
    ensures Sound(TargetOf(g), store, limits)
  {
  }

  /** Succeeds exactly when the four order-independent quantities fit, and then stores exactly the
      closure's effects; on any error the graph is untouched. */
  method AnnotateCallableEffects(graph: SourceGraph, limits: Limits) returns (r: Result<()>)
    modifies graph
    ensures r.Ok? <==> Fits(old(graph.View()), limits)
    ensures graph.View() == if r.Ok? then Annotated(old(graph.View())) else old(graph.View())
  {
    hide Fits, Annotated, Closure, Sound, TargetOf, DirectRecorded, SeedsBoundary, CallEdges, Callables;
    hide Target.Coherent, Target.Exceeds;
    var g := Graph(graph.projects, graph.nodes, graph.edges, graph.contexts, graph.boundaries);
    FitsExactly(g, limits);
    r := EnsureLimit(NodeLimit, |graph.nodes|, limits.maxNodes);
    if r.Err? { return; }
    r := EnsureLimit(EdgeLimit, |graph.edges|, limits.maxEdges);
    if r.Err? { return; }

    TargetIsCoherent(g);
    var store := new FactStore(Callables(g));
    NothingRecorded(g, store, limits);
    r := SeedDirectEffects(g, store, limits);
    if r.Err? { return; }
    ghost var direct := store.pairs;
    r := SeedBoundaries(g, store, limits);
    if r.Err? { return; }
    AllSeeded(g, direct, store.pairs);
    var callers := CallersByCallee(g);
    r := Propagate(TargetOf(g), store, callers, limits);
    if r.Err? { return; }
    ReachedTarget(g, store, limits);
    WriteBack(graph, store);
  }
}
