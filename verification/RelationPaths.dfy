/** The constraints of a compiled architecture graph: forbidden paths and cycles among its relations,
    and the rules that count or require single declarations. */
module RelationPaths {
  import opened SourceGraphs
  import opened Walks

  type ObjectId = string
  type PredicateId = string

  datatype Relation = Relation(kind: PredicateId, subject: ObjectId, target: ObjectId)

  datatype ObjectEntry = ObjectEntry(kind: string, visibility: Option<string>, hasContract: bool)

  datatype Rule =
    | RequiresObject(target: ObjectId)
    | ExactlyOneIncoming(kind: PredicateId, target: ObjectId)
    | ForbidsRelation(kind: PredicateId, subject: ObjectId, target: ObjectId)
    | NoPath(via: set<PredicateId>, from: ObjectId, to: ObjectId)
    | MustReferenceContract(objectKind: string, visibility: Option<string>)
    | OtherRule

  datatype CompiledGraph = CompiledGraph(
    objects: map<ObjectId, ObjectEntry>, relations: map<string, Relation>, constraints: map<string, Rule>)

  datatype CyclePolicy = Allowed | Forbidden

  datatype Vocabulary = Vocabulary(objectKinds: set<string>, predicates: map<PredicateId, CyclePolicy>)

  datatype Code = ConstraintFailed | PredicateUnknown | ObjectKindUnknown

  // ---------- walks over relations ----------

  ghost function EdgesOf(relations: map<string, Relation>, via: set<PredicateId>): set<(ObjectId, ObjectId)> {
    set id | id in relations && relations[id].kind in via :: (relations[id].subject, relations[id].target)
  }

  ghost function Edges(edges: seq<(ObjectId, ObjectId)>): (es: set<(ObjectId, ObjectId)>)
    ensures forall e :: e in es <==> e in edges
  {
    set e | e in edges
  }

  method RelationEdges(relations: map<string, Relation>, via: set<PredicateId>)
    returns (edges: seq<(ObjectId, ObjectId)>)
    ensures Edges(edges) == EdgesOf(relations, via)
  {
    edges := [];
    var ids := relations.Keys;
    while ids != {}
      invariant ids <= relations.Keys
      invariant forall e :: e in edges <==>
                  exists id :: id in relations.Keys - ids && relations[id].kind in via
                               && e == (relations[id].subject, relations[id].target)
    {
      var id :| id in ids;
      ids := ids - {id};
      if relations[id].kind in via {
        edges := edges + [(relations[id].subject, relations[id].target)];
      }
    }
  }

  /** A walk leads from `a` to `b`; one of at least one edge when that is required. */
  ghost predicate Leads(edges: set<(ObjectId, ObjectId)>, a: ObjectId, b: ObjectId, requireEdge: bool) {
    exists n: nat :: Steps(edges, a, b, n) && (requireEdge ==> n > 0)
  }

  function Successors(edges: seq<(ObjectId, ObjectId)>, current: ObjectId): (next: seq<(ObjectId, bool)>)
    ensures forall x :: x in next <==> x.1 && (current, x.0) in edges
  {
    if edges == [] then []
    else (if edges[0].0 == current then [(edges[0].1, true)] else []) + Successors(edges[1..], current)
  }

  /** What the search knows: waiting and visited nodes are behind `from`, and every edge out of a
      visited node still waits or ends on a visited node other than the one looked for. */
  ghost predicate Searching(edges: set<(ObjectId, ObjectId)>, from: ObjectId, to: ObjectId, requireEdge: bool,
                            pending: seq<(ObjectId, bool)>, visited: set<ObjectId>)
  {
    && (forall x :: x in pending ==> if x.1 then Leads(edges, from, x.0, true) else x.0 == from)
    && (forall u :: u in visited ==> Leads(edges, from, u, false))
    && (forall u, w :: u in visited && (u, w) in edges ==> (w, true) in pending || (w in visited && w != to))
    && ((from, false) in pending || (from in visited && (requireEdge || from != to)))
  }

  lemma LeadsOn(edges: set<(ObjectId, ObjectId)>, from: ObjectId, u: ObjectId, w: ObjectId)
    requires Leads(edges, from, u, false) && (u, w) in edges
    ensures Leads(edges, from, w, true)
  {
    var n: nat :| Steps(edges, from, u, n);
    StepsAppend(edges, from, u, w, n);
  }

  lemma SearchedAll(edges: set<(ObjectId, ObjectId)>, from: ObjectId, to: ObjectId, requireEdge: bool,
                    visited: set<ObjectId>)
    requires Searching(edges, from, to, requireEdge, [], visited)
    ensures !Leads(edges, from, to, requireEdge)
  {
    if n: nat :| Steps(edges, from, to, n) && (requireEdge ==> n > 0) {
      if n > 0 {
        var m :| Steps(edges, from, m, n - 1) && (m, to) in edges;
        ClosedHolds(edges, visited, from, m, n - 1);
        assert false;
      }
    }
  }

  lemma Popped(edges: set<(ObjectId, ObjectId)>, from: ObjectId, to: ObjectId, requireEdge: bool,
               pending: seq<(ObjectId, bool)>, visited: set<ObjectId>, next: seq<(ObjectId, bool)>)
    requires Searching(edges, from, to, requireEdge, pending, visited) && pending != []
    requires var (current, traversed) := pending[|pending| - 1]; current != to || (requireEdge && !traversed)
    requires forall x :: x in next <==> x.1 && (pending[|pending| - 1].0, x.0) in edges
    ensures var rest, current := pending[..|pending| - 1], pending[|pending| - 1].0;
            && (current in visited ==> Searching(edges, from, to, requireEdge, rest, visited))
            && Searching(edges, from, to, requireEdge, rest + next, visited + {current})
  {
    hide Leads;
    var rest, x := pending[..|pending| - 1], pending[|pending| - 1];
    assert pending == rest + [x];
    assert Leads(edges, from, x.0, false) by { WeakenLeads(edges, from, x); }
    forall y | y in next
      ensures Leads(edges, from, y.0, true)
    {
      LeadsOn(edges, from, x.0, y.0);
    }
    assert forall w :: (x.0, w) in edges ==> (w, true) in next;
  }

  lemma WeakenLeads(edges: set<(ObjectId, ObjectId)>, from: ObjectId, x: (ObjectId, bool))
    requires if x.1 then Leads(edges, from, x.0, true) else x.0 == from
    ensures Leads(edges, from, x.0, false)
  {
    if !x.1 {
      assert Steps(edges, from, from, 0);
    }
  }

  method EdgePathExists(edges: seq<(ObjectId, ObjectId)>, from: ObjectId, to: ObjectId, requireEdge: bool)
    returns (found: bool)
    ensures found <==> Leads(Edges(edges), from, to, requireEdge)
  {
    hide Leads, Searching, Edges;
    ghost var es := Edges(edges);
    ghost var nodes := {from} + set e | e in es :: e.1;
    var pending, visited := [(from, false)], {};
    StartSearching(es, from, to, requireEdge);
    while pending != []
      invariant Searching(es, from, to, requireEdge, pending, visited)
      invariant visited <= nodes && forall x :: x in pending ==> x.0 in nodes
      decreases nodes - visited, |pending|
    {
      ghost var before := pending;
      var (current, traversed) := pending[|pending| - 1];
      pending := pending[..|pending| - 1];
      if current == to && (!requireEdge || traversed) {
        Found(es, from, to, requireEdge, before, visited);
        return true;
      }
      var next := Successors(edges, current);
      Popped(es, from, to, requireEdge, before, visited, next);
      if current in visited {
        continue;
      }
      visited := visited + {current};
      pending := pending + next;
      assert forall x :: x in next ==> (current, x.0) in es && (current, x.0).1 in nodes;
    }
    SearchedAll(es, from, to, requireEdge, visited);
    return false;
  }

  lemma StartSearching(edges: set<(ObjectId, ObjectId)>, from: ObjectId, to: ObjectId, requireEdge: bool)
    ensures Searching(edges, from, to, requireEdge, [(from, false)], {})
  {
  }

  lemma Found(edges: set<(ObjectId, ObjectId)>, from: ObjectId, to: ObjectId, requireEdge: bool,
              pending: seq<(ObjectId, bool)>, visited: set<ObjectId>)
    requires Searching(edges, from, to, requireEdge, pending, visited) && pending != []
    requires var (current, traversed) := pending[|pending| - 1]; current == to && (!requireEdge || traversed)
    ensures Leads(edges, from, to, requireEdge)
  {
    WeakenLeads(edges, from, pending[|pending| - 1]);
  }

  // ---------- forbidden cycles ----------

  /** There is no cycle exactly when no edge starts one. */
  lemma CyclesStartOnEdges(edges: set<(ObjectId, ObjectId)>)
    ensures Acyclic(edges) <==> forall e :: e in edges ==> !Leads(edges, e.0, e.0, true)
  {
    if a, n: nat :| Steps(edges, a, a, n) && n > 0 {
      var m := FirstEdge(edges, a, a, n);
      assert Leads(edges, (a, m).0, (a, m).0, true);
    }
  }

  ghost predicate CycleFree(graph: CompiledGraph, kind: PredicateId) {
    Acyclic(EdgesOf(graph.relations, {kind}))
  }

  /** Reports a predicate and a node on one of its cycles exactly when some predicate that forbids
      cycles has one. */
  method ValidatePredicateCycles(graph: CompiledGraph, vocabulary: Vocabulary)
    returns (cycle: Option<(PredicateId, ObjectId)>)
    ensures cycle.None? <==>
            forall p :: p in vocabulary.predicates && vocabulary.predicates[p].Forbidden? ==> CycleFree(graph, p)
    ensures cycle.Some? ==>
              var (p, from) := cycle.value;
              && p in vocabulary.predicates && vocabulary.predicates[p].Forbidden?
              && Leads(EdgesOf(graph.relations, {p}), from, from, true)
  {
    hide Leads, Edges;
    var predicates := vocabulary.predicates.Keys;
    while predicates != {}
      invariant predicates <= vocabulary.predicates.Keys
      invariant forall p :: p in vocabulary.predicates.Keys - predicates && vocabulary.predicates[p].Forbidden? ==>
                  CycleFree(graph, p)
    {
      var p :| p in predicates;
      predicates := predicates - {p};
      if vocabulary.predicates[p].Allowed? {
        continue;
      }
      var edges := RelationEdges(graph.relations, {p});
      CyclesStartOnEdges(Edges(edges));
      for k := 0 to |edges|
        invariant forall j :: 0 <= j < k ==> !Leads(Edges(edges), edges[j].0, edges[j].0, true)
      {
        var found := EdgePathExists(edges, edges[k].0, edges[k].0, true);
        if found {
          assert edges[k] in Edges(edges);
          return Some((p, edges[k].0));
        }
      }
      assert forall e :: e in Edges(edges) ==> e in edges;
    }
    return None;
  }

  // ---------- constraints ----------

  /** The rule names something the vocabulary does not have. */
  predicate Unknown(vocabulary: Vocabulary, rule: Rule) {
    match rule
    case ExactlyOneIncoming(p, _) => p !in vocabulary.predicates
    case ForbidsRelation(p, _, _) => p !in vocabulary.predicates
    case NoPath(via, _, _) => exists p :: p in via && p !in vocabulary.predicates
    case MustReferenceContract(kind, _) => kind !in vocabulary.objectKinds
    case _ => false
  }

  ghost predicate IsIncoming(graph: CompiledGraph, id: string, kind: PredicateId, target: ObjectId) {
    id in graph.relations && graph.relations[id].kind == kind && graph.relations[id].target == target
  }

  /** What each rule demands of the graph. */
  ghost predicate Demands(graph: CompiledGraph, rule: Rule) {
    match rule
    case RequiresObject(target) => target in graph.objects
    case ExactlyOneIncoming(p, target) =>
      exists id :: IsIncoming(graph, id, p, target)
                   && forall other :: IsIncoming(graph, other, p, target) ==> other == id
    case ForbidsRelation(p, subject, target) =>
      forall id :: id in graph.relations ==> graph.relations[id] != Relation(p, subject, target)
    case NoPath(via, from, to) => !Reaches(EdgesOf(graph.relations, via), from, to)
    case MustReferenceContract(kind, visibility) =>
      forall id :: id in graph.objects && graph.objects[id].kind == kind
                   && (visibility.Some? ==> graph.objects[id].visibility == visibility)
                   ==> graph.objects[id].hasContract
    case OtherRule => true
  }

  lemma LeadsReaches(edges: set<(ObjectId, ObjectId)>, a: ObjectId, b: ObjectId)
    ensures Leads(edges, a, b, false) <==> Reaches(edges, a, b)
  {
    if n: nat :| Steps(edges, a, b, n) {
    }
  }

  /** Every node has a walk of no edge to itself, so such a rule can never be met. */
  lemma NoPathToItself(graph: CompiledGraph, via: set<PredicateId>, a: ObjectId)
    ensures !Demands(graph, NoPath(via, a, a))
  {
    ReachesSelf(EdgesOf(graph.relations, via), a);
  }

  /** Listing more predicates makes a path rule harder to meet. */
  lemma MorePredicatesForbidMore(graph: CompiledGraph, few: set<PredicateId>, many: set<PredicateId>,
                                 from: ObjectId, to: ObjectId)
    requires few <= many && Demands(graph, NoPath(many, from, to))
    ensures Demands(graph, NoPath(few, from, to))
  {
    var small, large := EdgesOf(graph.relations, few), EdgesOf(graph.relations, many);
    if n: nat :| Steps(small, from, to, n) {
      StepsMonotone(small, large, from, to, n);
      assert Reaches(large, from, to);
    }
  }

  /** One code for each listed predicate the vocabulary does not have. */
  method UnknownPredicates(vocabulary: Vocabulary, via: set<PredicateId>) returns (codes: seq<Code>)
    ensures |codes| == |set p | p in via && p !in vocabulary.predicates|
    ensures forall c :: c in codes ==> c == PredicateUnknown
  {
    codes := [];
    var rest := via;
    ghost var found: set<PredicateId> := {};
    while rest != {}
      invariant rest <= via && found == set p | p in via - rest && p !in vocabulary.predicates
      invariant |codes| == |found| && forall c :: c in codes ==> c == PredicateUnknown
    {
      var p :| p in rest;
      rest := rest - {p};
      if p !in vocabulary.predicates {
        codes := codes + [PredicateUnknown];
        found := found + {p};
      }
    }
    assert found == set p | p in via && p !in vocabulary.predicates;
  }

  method EvaluateConstraint(graph: CompiledGraph, vocabulary: Vocabulary, rule: Rule) returns (codes: seq<Code>)
    ensures |codes| == 0 <==> !Unknown(vocabulary, rule) && Demands(graph, rule)
    ensures ConstraintFailed in codes <==> !Unknown(vocabulary, rule) && !Demands(graph, rule)
    ensures PredicateUnknown in codes <==> Unknown(vocabulary, rule) && !rule.MustReferenceContract?
    ensures ObjectKindUnknown in codes <==> Unknown(vocabulary, rule) && rule.MustReferenceContract?
    ensures rule.NoPath? && Unknown(vocabulary, rule) ==>
              |codes| == |set p | p in rule.via && p !in vocabulary.predicates|
  {
    hide Reaches;
    codes := [];
    if Unknown(vocabulary, rule) {
      if rule.NoPath? {
        codes := UnknownPredicates(vocabulary, rule.via);
        var p :| p in rule.via && p !in vocabulary.predicates;
        ghost var unknown := set q | q in rule.via && q !in vocabulary.predicates;
        assert p in unknown && |unknown| > 0;
        assert codes[0] in codes;
        return;
      }
      return [if rule.MustReferenceContract? then ObjectKindUnknown else PredicateUnknown];
    }
    match rule
    case RequiresObject(target) =>
      if target !in graph.objects {
        codes := [ConstraintFailed];
      }
    case ExactlyOneIncoming(p, target) =>
      var incoming := set id | id in graph.relations && graph.relations[id].kind == p
                               && graph.relations[id].target == target;
      if |incoming| != 1 {
        codes := [ConstraintFailed];
      }
      OneElement(incoming);
      assert forall id :: id in incoming <==> IsIncoming(graph, id, p, target);
    case ForbidsRelation(p, subject, target) =>
      if Relation(p, subject, target) in graph.relations.Values {
        codes := [ConstraintFailed];
      }
    case NoPath(via, from, to) =>
      var edges := RelationEdges(graph.relations, via);
      var found := EdgePathExists(edges, from, to, false);
      LeadsReaches(EdgesOf(graph.relations, via), from, to);
      if found {
        codes := [ConstraintFailed];
      }
    case MustReferenceContract(kind, visibility) =>
      codes := MissingContracts(graph, kind, visibility);
      assert |codes| > 0 ==> codes[0] in codes;
    case OtherRule =>
  }

  lemma OneElement(s: set<string>)
    ensures |s| == 1 <==> exists x :: x in s && forall y :: y in s ==> y == x
  {
    if |s| == 1 {
      var x :| x in s;
      assert |s - {x}| == 0;
      assert forall y :: y in s && y != x ==> y in s - {x};
    }
    if x :| x in s && forall y :: y in s ==> y == x {
      assert s == {x};
    }
  }

  method MissingContracts(graph: CompiledGraph, kind: string, visibility: Option<string>) returns (codes: seq<Code>)
    ensures |codes| == 0 <==> Demands(graph, MustReferenceContract(kind, visibility))
    ensures forall c :: c in codes ==> c == ConstraintFailed
  {
    codes := [];
    var ids := graph.objects.Keys;
    while ids != {}
      invariant ids <= graph.objects.Keys
      invariant forall c :: c in codes ==> c == ConstraintFailed
      invariant |codes| == 0 <==>
                forall id :: id in graph.objects.Keys - ids && graph.objects[id].kind == kind
                             && (visibility.Some? ==> graph.objects[id].visibility == visibility)
                             ==> graph.objects[id].hasContract
    {
      var id :| id in ids;
      ids := ids - {id};
      var o := graph.objects[id];
      if o.kind != kind || (visibility.Some? && o.visibility != visibility) {
        continue;
      }
      if !o.hasContract {
        codes := codes + [ConstraintFailed];
      }
    }
  }

  function Named(id: string, codes: seq<Code>): (named: seq<(string, Code)>)
    ensures |named| == |codes|
    ensures forall x :: x in named <==> x.0 == id && x.1 in codes
  {
    if codes == [] then [] else [(id, codes[0])] + Named(id, codes[1..])
  }

  /** The graph's constraints raise nothing exactly when each is known and met. */
  method EvaluateConstraints(graph: CompiledGraph, vocabulary: Vocabulary) returns (codes: seq<(string, Code)>)
    ensures |codes| == 0 <==>
            forall id :: id in graph.constraints ==>
              !Unknown(vocabulary, graph.constraints[id]) && Demands(graph, graph.constraints[id])
    ensures forall id :: id in graph.constraints ==>
              ((id, ConstraintFailed) in codes <==>
                 !Unknown(vocabulary, graph.constraints[id]) && !Demands(graph, graph.constraints[id]))
  {
    hide Unknown, Demands;
    codes := [];
    var ids := graph.constraints.Keys;
    while ids != {}
      invariant ids <= graph.constraints.Keys
      invariant |codes| == 0 <==>
                forall id :: id in graph.constraints.Keys - ids ==>
                  !Unknown(vocabulary, graph.constraints[id]) && Demands(graph, graph.constraints[id])
      invariant forall id :: id in graph.constraints ==>
                  ((id, ConstraintFailed) in codes <==>
                     id !in ids && !Unknown(vocabulary, graph.constraints[id])
                     && !Demands(graph, graph.constraints[id]))
    {
      var id :| id in ids;
      ids := ids - {id};
      var found := EvaluateConstraint(graph, vocabulary, graph.constraints[id]);
      var named := Named(id, found);
      codes := codes + named;
    }
  }
}
