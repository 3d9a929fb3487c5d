/** The two import-cycle checks: an explicit stack with exit markers, and a recursive visit. Both
    accept exactly the acyclic import graphs. */
module ImportCycles {
  import opened SourceGraphs
  import opened Walks

  type ModuleId = string

  /** Each known module with its imports in order; an import may name an unknown module. */
  type Modules = map<ModuleId, seq<ModuleId>>

  function Imports(modules: Modules, id: ModuleId): seq<ModuleId> {
    if id in modules then modules[id] else []
  }

  ghost function ImportEdges(modules: Modules): set<(ModuleId, ModuleId)>
    ensures forall a, b :: (a, b) in ImportEdges(modules) <==> a in modules && b in modules[a]
  {
    set a, b | a in modules && b in modules[a] :: (a, b)
  }

  /** Finished modules, earliest first: what a module imports was finished before it. */
  ghost predicate Finished(edges: set<(ModuleId, ModuleId)>, order: seq<ModuleId>) {
    && (forall i, j :: 0 <= i < j < |order| ==> order[i] != order[j])
    && (forall i, t :: 0 <= i < |order| && (order[i], t) in edges ==> t in order[..i])
  }

  lemma FinishOne(edges: set<(ModuleId, ModuleId)>, order: seq<ModuleId>, id: ModuleId)
    requires Finished(edges, order) && id !in order
    requires forall t :: (id, t) in edges ==> t in order
    ensures Finished(edges, order + [id])
  {
    var more := order + [id];
    forall i, t | 0 <= i < |more| && (more[i], t) in edges
      ensures t in more[..i]
    {
      assert more[..i] == order[..i];
      if i == |order| {
        assert order[..i] == order;
      }
    }
  }

  /** A walk that returns to one of its modules closes a cycle. */
  lemma ReturningWalk(edges: set<(ModuleId, ModuleId)>, p: seq<ModuleId>)
    requires IsWalk(edges, p) && |p| > 1 && p[|p| - 1] in p[..|p| - 1]
    ensures !Acyclic(edges)
  {
    var j :| 0 <= j < |p| - 1 && p[j] == p[|p| - 1];
    var q := p[j..];
    assert IsWalk(edges, q);
    WalkSteps(edges, q);
  }

  // ---------- the explicit stack ----------

  /** A module being explored, with those of its imports that still wait on the stack. */
  datatype Frame = Frame(node: ModuleId, waiting: seq<ModuleId>)

  function Entering(ids: seq<ModuleId>): (entries: seq<(ModuleId, bool)>)
    ensures |entries| == |ids| && forall i :: 0 <= i < |ids| ==> entries[i] == (ids[i], false)
  {
    seq(|ids|, i requires 0 <= i < |ids| => (ids[i], false))
  }

  /** The stack: the root until it is entered, then an exit marker and waiting imports per frame. */
  ghost function Stack(root: seq<ModuleId>, frames: seq<Frame>): seq<(ModuleId, bool)> {
    if frames == [] then Entering(root)
    else
      var top := frames[|frames| - 1];
      Stack(root, frames[..|frames| - 1]) + [(top.node, true)] + Entering(top.waiting)
  }

  ghost function Path(frames: seq<Frame>): (p: seq<ModuleId>)
    ensures |p| == |frames| && forall k :: 0 <= k < |frames| ==> p[k] == frames[k].node
  {
    seq(|frames|, k requires 0 <= k < |frames| => frames[k].node)
  }

  ghost predicate Handled(visited: set<ModuleId>, frames: seq<Frame>, k: int, t: ModuleId)
    requires 0 <= k < |frames|
  {
    t in visited || t in frames[k].waiting || (k + 1 < |frames| && t == frames[k + 1].node)
  }

  /** Each import of an explored module is finished, being explored next, or still waiting. */
  ghost predicate Exploring(edges: set<(ModuleId, ModuleId)>, visited: set<ModuleId>, frames: seq<Frame>) {
    && (forall i, j :: 0 <= i < j < |frames| ==> frames[i].node != frames[j].node)
    && (forall k :: 0 <= k < |frames| ==> frames[k].node !in visited)
    && (forall k, l :: 0 <= k && l == k + 1 && l < |frames| ==> (frames[k].node, frames[l].node) in edges)
    && (forall k, t :: 0 <= k < |frames| && t in frames[k].waiting ==> (frames[k].node, t) in edges)
    && (forall k, t :: 0 <= k < |frames| && (frames[k].node, t) in edges ==> Handled(visited, frames, k, t))
  }

  function Reversed(ids: seq<ModuleId>): (r: seq<ModuleId>)
    ensures |r| == |ids| && forall t :: t in r <==> t in ids
  {
    if ids == [] then [] else Reversed(ids[1..]) + [ids[0]]
  }

  /** The frames after the last waiting import of the top frame was taken off the stack. */
  ghost function Taken(frames: seq<Frame>): (less: seq<Frame>)
    requires frames != [] && frames[|frames| - 1].waiting != []
    ensures |less| == |frames| && Path(less) == Path(frames)
  {
    var top := frames[|frames| - 1];
    frames[..|frames| - 1] + [top.(waiting := top.waiting[..|top.waiting| - 1])]
  }

  lemma StackBottom(edges: set<(ModuleId, ModuleId)>, visited: set<ModuleId>, root: seq<ModuleId>)
    ensures Stack(root, []) == Entering(root) && Path([]) == [] && Exploring(edges, visited, [])
  {
  }

  lemma EnterFirst(edges: set<(ModuleId, ModuleId)>, visited: set<ModuleId>, f: Frame)
    requires f.node !in visited && forall t :: t in f.waiting <==> (f.node, t) in edges
    ensures Exploring(edges, visited, [f]) && Path([f]) == [f.node]
    ensures Stack([], [f]) == [(f.node, true)] + Entering(f.waiting)
  {
    FirstFrame(edges, visited, f);
    hide Exploring, Stack, Path;
    StackPush([], f);
    StackBottom(edges, visited, []);
    assert [] + [f] == [f];
  }

  lemma FirstFrame(edges: set<(ModuleId, ModuleId)>, visited: set<ModuleId>, f: Frame)
    requires f.node !in visited && forall t :: t in f.waiting <==> (f.node, t) in edges
    ensures Exploring(edges, visited, [f])
  {
    forall k, t | 0 <= k < 1 && ([f][k].node, t) in edges
      ensures Handled(visited, [f], k, t)
    {
    }
  }

  /** The top of the stack is the last waiting import of the last frame, or that frame's marker. */
  lemma StackTop(frames: seq<Frame>)
    requires frames != []
    ensures var top := frames[|frames| - 1];
            Stack([], frames) ==
              if top.waiting == [] then Stack([], frames[..|frames| - 1]) + [(top.node, true)]
              else Stack([], Taken(frames)) + [(top.waiting[|top.waiting| - 1], false)]
  {
    var top := frames[|frames| - 1];
    if top.waiting != [] {
      var less := top.waiting[..|top.waiting| - 1];
      assert Taken(frames)[..|frames| - 1] == frames[..|frames| - 1];
      assert Entering(top.waiting) == Entering(less) + [(top.waiting[|less|], false)];
    }
  }

  lemma StackPush(frames: seq<Frame>, f: Frame)
    ensures Stack([], frames + [f]) == Stack([], frames) + [(f.node, true)] + Entering(f.waiting)
    ensures Path(frames + [f]) == Path(frames) + [f.node]
  {
    assert (frames + [f])[..|frames|] == frames;
  }

  lemma Leave(edges: set<(ModuleId, ModuleId)>, visited: set<ModuleId>, frames: seq<Frame>)
    requires Exploring(edges, visited, frames) && frames != [] && frames[|frames| - 1].waiting == []
    ensures var top := frames[|frames| - 1].node;
            && (forall t :: (top, t) in edges ==> t in visited)
            && Exploring(edges, visited + {top}, frames[..|frames| - 1])
            && top !in visited && Path(frames) == Path(frames[..|frames| - 1]) + [top]
            && top !in Path(frames[..|frames| - 1])
  {
    var top, less := frames[|frames| - 1].node, frames[..|frames| - 1];
    forall t | (top, t) in edges
      ensures t in visited
    {
      assert Handled(visited, frames, |frames| - 1, t);
    }
    forall k, t | 0 <= k < |less| && (less[k].node, t) in edges
      ensures Handled(visited + {top}, less, k, t)
    {
      assert frames[k] == less[k] && Handled(visited, frames, k, t);
    }
  }

  lemma Skip(edges: set<(ModuleId, ModuleId)>, visited: set<ModuleId>, frames: seq<Frame>)
    requires Exploring(edges, visited, frames) && frames != [] && frames[|frames| - 1].waiting != []
    requires var top := frames[|frames| - 1]; top.waiting[|top.waiting| - 1] in visited
    ensures Exploring(edges, visited, Taken(frames))
  {
    var top, less := frames[|frames| - 1], Taken(frames);
    assert forall t :: t in top.waiting ==>
      t == top.waiting[|top.waiting| - 1] || t in top.waiting[..|top.waiting| - 1];
    forall k, t | 0 <= k < |less| && (less[k].node, t) in edges
      ensures Handled(visited, less, k, t)
    {
      assert less[k].node == frames[k].node && Handled(visited, frames, k, t);
    }
  }

  lemma Enter(edges: set<(ModuleId, ModuleId)>, visited: set<ModuleId>, frames: seq<Frame>, imports: seq<ModuleId>)
    requires Exploring(edges, visited, frames) && frames != [] && frames[|frames| - 1].waiting != []
    requires var top := frames[|frames| - 1];
             var next := top.waiting[|top.waiting| - 1];
             && next !in visited && next !in Path(frames)
             && forall t :: t in imports <==> (next, t) in edges
    ensures var top := frames[|frames| - 1];
            var next := top.waiting[|top.waiting| - 1];
            && (top.node, next) in edges
            && Exploring(edges, visited, Taken(frames) + [Frame(next, imports)])
  {
    var top := frames[|frames| - 1];
    var next := top.waiting[|top.waiting| - 1];
    var more := Taken(frames) + [Frame(next, imports)];
    assert (top.node, next) in edges;
    assert forall t :: t in top.waiting ==> t == next || t in top.waiting[..|top.waiting| - 1];
    forall k | 0 <= k < |frames|
      ensures frames[k].node != next && more[k].node == frames[k].node
    {
      assert Path(frames)[k] == frames[k].node;
    }
    forall k, t | 0 <= k < |more| && (more[k].node, t) in edges
      ensures Handled(visited, more, k, t)
    {
      if k < |frames| {
        assert Handled(visited, frames, k, t);
      }
    }
  }

  /** The path followed by a waiting import of its last module is a walk. */
  lemma PathIsWalk(edges: set<(ModuleId, ModuleId)>, visited: set<ModuleId>, frames: seq<Frame>, next: ModuleId)
    requires Exploring(edges, visited, frames) && frames != [] && next in frames[|frames| - 1].waiting
    ensures IsWalk(edges, Path(frames) + [next])
  {
  }

  /** A path of imports that returns to a module it passed, if there is one. */
  method ValidateImportCycles(modules: Modules) returns (cycle: Option<seq<ModuleId>>)
    ensures cycle.None? <==> Acyclic(ImportEdges(modules))
    ensures cycle.Some? ==> var p := cycle.value;
              IsWalk(ImportEdges(modules), p) && |p| > 1 && p[|p| - 1] in p[..|p| - 1]
  {
    ghost var edges := ImportEdges(modules);
    var visited: set<ModuleId> := {};
    ghost var order: seq<ModuleId> := [];
    var ids := modules.Keys;
    while ids != {}
      invariant ids <= modules.Keys
      invariant Finished(edges, order) && forall t :: t in visited <==> t in order
      invariant modules.Keys - ids <= visited
    {
      var id :| id in ids;
      ids := ids - {id};
      cycle, visited, order := Explore(modules, id, visited, order);
      if cycle.Some? {
        ReturningWalk(edges, cycle.value);
        return;
      }
    }
    RankedIsAcyclic(edges, order);
    return None;
  }

  /** The root and whatever is imported. */
  ghost function Known(edges: set<(ModuleId, ModuleId)>, root: ModuleId): set<ModuleId> {
    {root} + set e | e in edges :: e.1
  }

  /** What the search holds: its stack, its path and the modules on that path. */
  datatype Exploration = Exploration(start: seq<ModuleId>, frames: seq<Frame>, pending: seq<(ModuleId, bool)>,
                                     path: seq<ModuleId>, visiting: set<ModuleId>)
  {
    ghost predicate Valid(edges: set<(ModuleId, ModuleId)>, root: ModuleId, visited: set<ModuleId>) {
      && pending == Stack(start, frames) && path == Path(frames)
      && (if start == [] then root in visited || root in path else start == [root] && frames == [])
      && (forall t :: t in visiting <==> t in path)
      && Exploring(edges, visited, frames)
    }
  }

  lemma Started(edges: set<(ModuleId, ModuleId)>, root: ModuleId, visited: set<ModuleId>)
    ensures Exploration([root], [], [(root, false)], [], {}).Valid(edges, root, visited)
  {
    StackBottom(edges, visited, [root]);
  }

  lemma Ended(edges: set<(ModuleId, ModuleId)>, root: ModuleId, visited: set<ModuleId>, s: Exploration)
    requires s.Valid(edges, root, visited) && s.pending == []
    ensures root in visited
  {
    hide Exploring, Taken;
    if s.frames != [] && s.start == [] {
      StackTop(s.frames);
    }
  }

  lemma Shortened(less: seq<ModuleId>, last: ModuleId, visiting: set<ModuleId>)
    requires last !in less && forall t :: t in visiting <==> t in less + [last]
    ensures (less + [last])[..|less + [last]| - 1] == less
    ensures last in visiting && forall t :: t in visiting - {last} <==> t in less
    ensures forall t :: t in less + [last] <==> t in less || t == last
  {
    assert last in less + [last];
  }

  /** An exit marker is that of the last frame, of which nothing is waiting. */
  lemma MarkerOnTop(edges: set<(ModuleId, ModuleId)>, root: ModuleId, visited: set<ModuleId>, s: Exploration)
    requires s.Valid(edges, root, visited) && s.pending != [] && s.pending[|s.pending| - 1].1
    ensures s.start == [] && s.frames != []
    ensures var top := s.frames[|s.frames| - 1];
            && top.waiting == [] && top.node == s.pending[|s.pending| - 1].0
            && s.pending[..|s.pending| - 1] == Stack([], s.frames[..|s.frames| - 1])
  {
    hide Exploring, Taken, Stack, Path;
    if s.frames == [] {
      StackBottom(edges, visited, s.start);
      assert false;
    } else {
      StackTop(s.frames);
    }
  }

  /** Its module is left when all its imports are finished. */
  lemma Exited(edges: set<(ModuleId, ModuleId)>, root: ModuleId, visited: set<ModuleId>, s: Exploration)
    requires s.Valid(edges, root, visited) && s.pending != [] && s.pending[|s.pending| - 1].1
    ensures var current := s.pending[|s.pending| - 1].0;
            && current !in visited && current in s.visiting && s.frames != [] && s.path != []
            && (forall t :: (current, t) in edges ==> t in visited)
            && Exploration(s.start, s.frames[..|s.frames| - 1], s.pending[..|s.pending| - 1], s.path[..|s.path| - 1],
                           s.visiting - {current}).Valid(edges, root, visited + {current})
  {
    hide Exploring, Taken, Stack, Path;
    MarkerOnTop(edges, root, visited, s);
    Leave(edges, visited, s.frames);
    var current, less := s.pending[|s.pending| - 1].0, Path(s.frames[..|s.frames| - 1]);
    Shortened(less, current, s.visiting);
  }

  /** The search once a module is taken off its stack. */
  ghost function Popped(s: Exploration): (rest: Exploration)
    requires s.frames == [] || s.frames[|s.frames| - 1].waiting != []
    requires s.pending != []
  {
    Exploration([], if s.frames == [] then [] else Taken(s.frames), s.pending[..|s.pending| - 1], s.path, s.visiting)
  }

  /** What is taken off the stack to be explored is the root or imported by the last module of the path. */
  lemma OnTop(edges: set<(ModuleId, ModuleId)>, root: ModuleId, visited: set<ModuleId>, s: Exploration)
    requires s.Valid(edges, root, visited) && s.pending != [] && !s.pending[|s.pending| - 1].1
    ensures var current := s.pending[|s.pending| - 1].0;
            if s.frames == [] then current == root && s.start == [root]
            else
              && s.start == [] && s.frames[|s.frames| - 1].waiting != []
              && current == var w := s.frames[|s.frames| - 1].waiting; w[|w| - 1]
    ensures Popped(s).pending == Stack([], Popped(s).frames)
  {
    hide Exploring, Stack, Taken, Path;
    if s.frames == [] {
      StackBottom(edges, visited, s.start);
      StackBottom(edges, visited, []);
    } else {
      StackTop(s.frames);
      assert s.frames[|s.frames| - 1].waiting != [];
    }
  }

  lemma OnTopIsKnown(edges: set<(ModuleId, ModuleId)>, root: ModuleId, visited: set<ModuleId>, s: Exploration)
    requires s.Valid(edges, root, visited) && s.pending != [] && !s.pending[|s.pending| - 1].1
    ensures s.pending[|s.pending| - 1].0 in Known(edges, root)
  {
    hide Exploring, Stack, Taken, Path;
    OnTop(edges, root, visited, s);
    if s.frames != [] {
      hide Known;
      WaitingIsKnown(edges, root, visited, s.frames);
    }
  }

  lemma WaitingIsKnown(edges: set<(ModuleId, ModuleId)>, root: ModuleId, visited: set<ModuleId>, frames: seq<Frame>)
    requires Exploring(edges, visited, frames) && frames != []
    ensures forall t :: t in frames[|frames| - 1].waiting ==> t in Known(edges, root)
  {
  }

  lemma Skipped(edges: set<(ModuleId, ModuleId)>, root: ModuleId, visited: set<ModuleId>, s: Exploration)
    requires s.Valid(edges, root, visited) && s.pending != [] && !s.pending[|s.pending| - 1].1
    requires s.pending[|s.pending| - 1].0 in visited
    ensures s.frames == [] || s.frames[|s.frames| - 1].waiting != []
    ensures Popped(s).Valid(edges, root, visited)
  {
    hide Exploring, Stack, Taken;
    OnTop(edges, root, visited, s);
    if s.frames != [] {
      Skip(edges, visited, s.frames);
    }
  }

  /** A module of the path closes a cycle. */
  lemma Returned(edges: set<(ModuleId, ModuleId)>, root: ModuleId, visited: set<ModuleId>, s: Exploration)
    requires s.Valid(edges, root, visited) && s.pending != [] && !s.pending[|s.pending| - 1].1
    requires s.pending[|s.pending| - 1].0 in s.visiting
    ensures IsWalk(edges, s.path + [s.pending[|s.pending| - 1].0]) && s.pending[|s.pending| - 1].0 in s.path
  {
    hide Exploring, Stack, Taken, IsWalk;
    OnTop(edges, root, visited, s);
    PathIsWalk(edges, visited, s.frames, s.pending[|s.pending| - 1].0);
  }

  lemma Entered(edges: set<(ModuleId, ModuleId)>, root: ModuleId, visited: set<ModuleId>, s: Exploration,
                imports: seq<ModuleId>)
    requires s.Valid(edges, root, visited) && s.pending != [] && !s.pending[|s.pending| - 1].1
    requires var current := s.pending[|s.pending| - 1].0;
             current !in visited && current !in s.visiting && forall t :: t in imports <==> (current, t) in edges
    ensures s.frames == [] || s.frames[|s.frames| - 1].waiting != []
    ensures var current, rest := s.pending[|s.pending| - 1].0, Popped(s);
            Exploration([], rest.frames + [Frame(current, imports)],
                        rest.pending + [(current, true)] + Entering(imports),
                        s.path + [current], s.visiting + {current}).Valid(edges, root, visited)
  {
    hide Exploring, Stack, Taken, Entering;
    OnTop(edges, root, visited, s);
    var f := Frame(s.pending[|s.pending| - 1].0, imports);
    if s.frames == [] {
      EnterFirst(edges, visited, f);
      StackBottom(edges, visited, []);
      assert [] + [f] == [f];
    } else {
      Enter(edges, visited, s.frames, imports);
    }
    StackPush(Popped(s).frames, f);
  }

  /** Explores everything below one root module. */
  method Explore(modules: Modules, root: ModuleId, visited0: set<ModuleId>, ghost order0: seq<ModuleId>)
    returns (cycle: Option<seq<ModuleId>>, visited: set<ModuleId>, ghost order: seq<ModuleId>)
    requires Finished(ImportEdges(modules), order0) && forall t :: t in visited0 <==> t in order0
    ensures cycle.None? ==>
              && Finished(ImportEdges(modules), order) && (forall t :: t in visited <==> t in order)
              && visited0 <= visited && root in visited
    ensures cycle.Some? ==> var p := cycle.value;
              IsWalk(ImportEdges(modules), p) && |p| > 1 && p[|p| - 1] in p[..|p| - 1]
  {
    ghost var edges := ImportEdges(modules);
    hide Exploration.Valid, Finished, ImportEdges, Known, Exploring, Stack, Taken, Entering, IsWalk;
    visited, order := visited0, order0;
    var visiting: set<ModuleId> := {};
    var pending := [(root, false)];
    var path: seq<ModuleId> := [];
    ghost var start, frames: seq<Frame> := [root], [];
    Started(edges, root, visited);
    while pending != []
      invariant Exploration(start, frames, pending, path, visiting).Valid(edges, root, visited)
      invariant Finished(edges, order) && forall t :: t in visited <==> t in order
      invariant visited0 <= visited
      decreases Known(edges, root) - visited - visiting, |pending|
    {
      ghost var s := Exploration(start, frames, pending, path, visiting);
      var (current, exiting) := pending[|pending| - 1];
      pending := pending[..|pending| - 1];
      if exiting {
        Exited(edges, root, visited, s);
        FinishOne(edges, order, current);
        visiting := visiting - {current};
        visited := visited + {current};
        order := order + [current];
        path := path[..|path| - 1];
        frames := frames[..|frames| - 1];
        continue;
      }
      if current in visited {
        Skipped(edges, root, visited, s);
        start, frames := [], Popped(s).frames;
        continue;
      }
      if current in visiting {
        Returned(edges, root, visited, s);
        return Some(path + [current]), visited, order;
      }
      OnTopIsKnown(edges, root, visited, s);
      visiting := visiting + {current};
      var imports := Reversed(Imports(modules, current));
      Entered(edges, root, visited, s, imports);
      start, frames := [], Popped(s).frames + [Frame(current, imports)];
      path := path + [current];
      pending := pending + [(current, true)] + Entering(imports);
    }
    Ended(edges, root, visited, Exploration(start, frames, pending, path, visiting));
    return None, visited, order;
  }

  // ---------- the recursive visit ----------

  /** The edges between known modules: the recursive check follows no others. */
  ghost function InnerEdges(modules: Modules): set<(ModuleId, ModuleId)>
    ensures forall a, b :: (a, b) in InnerEdges(modules) <==> a in modules && b in modules[a] && b in modules
  {
    set e | e in ImportEdges(modules) && e.1 in modules
  }

  lemma {:induction false} StepsStayInside(modules: Modules, a: ModuleId, b: ModuleId, n: nat)
    requires Steps(ImportEdges(modules), a, b, n) && b in modules
    ensures Steps(InnerEdges(modules), a, b, n)
    decreases n
  {
    hide InnerEdges, ImportEdges;
    if n > 0 {
      var m :| Steps(ImportEdges(modules), a, m, n - 1) && (m, b) in ImportEdges(modules);
      StepsStayInside(modules, a, m, n - 1);
      StepsAppend(InnerEdges(modules), a, m, b, n - 1);
    }
  }

  /** Unknown modules import nothing, so they lie on no cycle. */
  lemma SameCycles(modules: Modules)
    ensures Acyclic(InnerEdges(modules)) <==> Acyclic(ImportEdges(modules))
  {
    forall a, n: nat | n > 0
      ensures Steps(InnerEdges(modules), a, a, n) <==> Steps(ImportEdges(modules), a, a, n)
    {
      if Steps(InnerEdges(modules), a, a, n) {
        StepsMonotone(InnerEdges(modules), ImportEdges(modules), a, a, n);
      }
      if Steps(ImportEdges(modules), a, a, n) {
        var first := FirstEdge(ImportEdges(modules), a, a, n);
        StepsStayInside(modules, a, a, n);
      }
    }
  }

  ghost predicate OnCycle(modules: Modules, id: ModuleId) {
    exists n: nat :: Steps(InnerEdges(modules), id, id, n) && n > 0
  }

  lemma Descend(modules: Modules, active: set<ModuleId>, id: ModuleId, imported: ModuleId)
    requires id in modules && imported in modules[id] && imported in modules
    requires forall a :: a in active ==> a == id || Reaches(InnerEdges(modules), a, id)
    ensures forall a :: a in active ==> Reaches(InnerEdges(modules), a, imported)
    ensures imported in active ==> OnCycle(modules, imported)
  {
    var edges := InnerEdges(modules);
    assert (id, imported) in edges;
    ReachesSelf(edges, id);
    forall a | a in active
      ensures Reaches(edges, a, imported)
      ensures a == imported ==> OnCycle(modules, imported)
    {
      var n: nat :| Steps(edges, a, id, n);
      StepsAppend(edges, a, id, imported, n);
    }
  }

  /** The visitor's two sets; `order` lists the complete modules as they were completed. */
  class CycleVisitor {
    const modules: Modules
    var active: set<ModuleId>
    var complete: set<ModuleId>
    ghost var order: seq<ModuleId>

    ghost predicate Valid()
      reads this
    {
      && Finished(InnerEdges(modules), order)
      && (forall t :: t in complete <==> t in order)
      && active !! complete
      && active <= modules.Keys
    }

    constructor (modules: Modules)
      ensures this.modules == modules && Valid() && active == {} && complete == {}
    {
      this.modules := modules;
      active, complete, order := {}, {}, [];
    }

    /** Completes `id` and everything below it, or finds a module on a cycle. The active modules are
        those from which the visit came down to `id`. */
    method Visit(id: ModuleId) returns (cycle: Option<ModuleId>)
      requires Valid() && id in modules
      requires forall a :: a in active ==> Reaches(InnerEdges(modules), a, id)
      requires id in active ==> OnCycle(modules, id)
      modifies this`active, this`complete, this`order
      ensures cycle.Some? ==> OnCycle(modules, cycle.value)
      ensures cycle.None? ==> Valid() && active == old(active) && id in complete && old(complete) <= complete
      decreases modules.Keys - active
    {
      if id in complete {
        return None;
      }
      if id in active {
        return Some(id);
      }
      active := active + {id};
      var imports := modules[id];
      for i := 0 to |imports|
        invariant Valid() && active == old(active) + {id} && old(complete) <= complete
        invariant forall j :: 0 <= j < i && imports[j] in modules ==> imports[j] in complete
      {
        var imported := imports[i];
        if imported in modules {
          Descend(modules, active, id, imported);
          cycle := Visit(imported);
          if cycle.Some? {
            return;
          }
        }
      }
      FinishOne(InnerEdges(modules), order, id);
      active := active - {id};
      complete := complete + {id};
      order := order + [id];
      return None;
    }
  }

  /** A module on an import cycle, if there is one. */
  method ValidateImportCyclesByVisit(modules: Modules) returns (cycle: Option<ModuleId>)
    ensures cycle.None? <==> Acyclic(ImportEdges(modules))
    ensures cycle.Some? ==> OnCycle(modules, cycle.value)
  {
    var visitor := new CycleVisitor(modules);
    var ids := modules.Keys;
    SameCycles(modules);
    while ids != {}
      invariant ids <= modules.Keys && visitor.modules == modules && visitor.Valid() && visitor.active == {}
      invariant fresh(visitor) && modules.Keys - ids <= visitor.complete
    {
      var id :| id in ids;
      ids := ids - {id};
      cycle := visitor.Visit(id);
      if cycle.Some? {
        return;
      }
    }
    RankedIsAcyclic(InnerEdges(modules), visitor.order);
    return None;
  }
}
