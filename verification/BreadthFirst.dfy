/** The invariant behind every first-in first-out search of the repository. A queue entry carries
    the depth at which it was found and the index of the root it came from; entries are served in
    the lexicographic order of (depth, index), which makes the first visit of a node its best one. */
module BreadthFirst {
  import opened Walks

  datatype Key = Key(depth: nat, index: nat) {
    predicate Leq(other: Key) {
      depth < other.depth || (depth == other.depth && index <= other.index)
    }
    function Next(): Key {
      Key(depth + 1, index)
    }
  }

  datatype Entry<+N> = Entry(node: N, key: Key)

  /** `n` lies `key.depth` edges behind a start that belongs to root number `key.index`. */
  ghost predicate Candidate<N(!new)>(edges: set<(N, N)>, starts: set<(N, nat)>, n: N, key: Key)
  {
    exists s :: (s, key.index) in starts && Steps(edges, s, n, key.depth)
  }

  ghost predicate Best<N(!new)>(edges: set<(N, N)>, starts: set<(N, nat)>, n: N, key: Key)
  {
    && Candidate(edges, starts, n, key)
    && forall other: Key :: Candidate(edges, starts, n, other) ==> key.Leq(other)
  }

  lemma BestIsUnique<N(!new)>(edges: set<(N, N)>, starts: set<(N, nat)>, n: N, k: Key, l: Key)
    requires Best(edges, starts, n, k) && Best(edges, starts, n, l)
    ensures k == l
  {
  }

  ghost predicate Known<N>(best: map<N, Key>, n: N, key: Key)
  {
    n in best && best[n].Leq(key)
  }

  /** A search: what is searched, the waiting entries, the visited nodes with the keys they were
      visited under, and the key served last. */
  datatype State<N> = State(
    edges: set<(N, N)>, starts: set<(N, nat)>, queue: seq<Entry<N>>, best: map<N, Key>, last: Key)

  /** Visited keys are below the last one, waiting keys are sorted and at most one step above it. */
  ghost predicate Ordered<N>(s: State<N>)
  {
    && (forall i, j :: 0 <= i < j < |s.queue| ==> s.queue[i].key.Leq(s.queue[j].key))
    && (forall q :: q in s.queue ==> s.last.Leq(q.key) && q.key.Leq(s.last.Next()))
    && (forall n :: n in s.best ==> s.best[n].Leq(s.last))
  }

  ghost predicate Justified<N(!new)>(s: State<N>)
  {
    && (forall q :: q in s.queue ==> Candidate(s.edges, s.starts, q.node, q.key))
    && (forall n :: n in s.best ==> Candidate(s.edges, s.starts, n, s.best[n]))
  }

  ghost predicate Awaited<N>(s: State<N>, n: N, key: Key)
  {
    Known(s.best, n, key) || Entry(n, key) in s.queue
  }

  /** Starts, and the targets of visited nodes, are either known or waiting. */
  ghost predicate Covered<N(!new)>(s: State<N>)
  {
    && (forall r :: r in s.starts ==> Awaited(s, r.0, Key(0, r.1)))
    && (forall u, w :: u in s.best && (u, w) in s.edges ==> Awaited(s, w, s.best[u].Next()))
  }

  ghost predicate Sound<N(!new)>(s: State<N>)
  {
    Ordered(s) && Justified(s) && Covered(s)
  }

  type Search<!N(!new)> = s: State<N> | Sound(s) ghost witness State({}, {}, [], map[], Key(0, 0))

  /** The entries pushed when a node is expanded. */
  function Pushed<N>(targets: seq<N>, key: Key): (entries: seq<Entry<N>>)
    ensures |entries| == |targets|
    ensures forall i :: 0 <= i < |targets| ==> entries[i] == Entry(targets[i], key)
  {
    seq(|targets|, i requires 0 <= i < |targets| => Entry(targets[i], key))
  }

  // ---------- queues as the searches keep them ----------

  /** A queue of (node, root position) pairs: the entries with their depths forgotten. */
  ghost predicate Carries<N>(queue: seq<(N, nat)>, entries: seq<Entry<N>>) {
    && |queue| == |entries|
    && forall k :: 0 <= k < |queue| ==> queue[k] == (entries[k].node, entries[k].key.index)
  }

  /** A queue of (node, distance) pairs: the entries with their root positions forgotten. */
  ghost predicate Measures<N>(queue: seq<(N, nat)>, entries: seq<Entry<N>>) {
    && |queue| == |entries|
    && forall k :: 0 <= k < |queue| ==> queue[k] == (entries[k].node, entries[k].key.depth)
  }

  function Paired<N>(nodes: seq<N>, i: nat): (pairs: seq<(N, nat)>)
    ensures |pairs| == |nodes| && forall k :: 0 <= k < |nodes| ==> pairs[k] == (nodes[k], i)
  {
    seq(|nodes|, k requires 0 <= k < |nodes| => (nodes[k], i))
  }

  lemma CarriesMore<N>(queue: seq<(N, nat)>, entries: seq<Entry<N>>, nodes: seq<N>, key: Key)
    requires Carries(queue, entries)
    ensures Carries(queue + Paired(nodes, key.index), entries + Pushed(nodes, key))
  {
  }

  lemma MeasuresFront<N>(queue: seq<(N, nat)>, entries: seq<Entry<N>>)
    requires Measures(queue, entries)
    ensures |queue| == |entries|
    ensures queue != [] ==> queue[0] == (entries[0].node, entries[0].key.depth)
                            && Measures(queue[1..], entries[1..])
  {
  }

  lemma MeasuresMore<N>(queue: seq<(N, nat)>, entries: seq<Entry<N>>, nodes: seq<N>,
                        distance: nat, key: Key)
    requires Measures(queue, entries) && distance == key.depth
    ensures Measures(queue + Paired(nodes, distance), entries + Pushed(nodes, key))
  {
  }

  // ---------- the steps of a search ----------

  lemma CandidateStep<N(!new)>(edges: set<(N, N)>, starts: set<(N, nat)>, u: N, w: N, key: Key)
    requires Candidate(edges, starts, u, key) && (u, w) in edges
    ensures Candidate(edges, starts, w, key.Next())
  {
    var s :| (s, key.index) in starts && Steps(edges, s, u, key.depth);
    StepsAppend(edges, s, u, w, key.depth);
  }

  lemma Begin<N(!new)>(edges: set<(N, N)>, starts: set<(N, nat)>, queue: seq<Entry<N>>)
    returns (s: Search<N>)
    requires forall i, j :: 0 <= i < j < |queue| ==> queue[i].key.Leq(queue[j].key)
    requires forall q :: q in queue ==> q.key.depth == 0 && (q.node, q.key.index) in starts
    requires forall r :: r in starts ==> Entry(r.0, Key(0, r.1)) in queue
    ensures s == State(edges, starts, queue, map[], Key(0, 0))
  {
    forall q | q in queue
      ensures Candidate(edges, starts, q.node, q.key)
    {
      assert Steps(edges, q.node, q.node, 0);
    }
    s := State(edges, starts, queue, map[], Key(0, 0));
  }

  lemma FrontIsCandidate<N(!new)>(s: Search<N>)
    requires s.queue != []
    ensures Candidate(s.edges, s.starts, s.queue[0].node, s.queue[0].key)
  {
    assert s.queue[0] in s.queue;
  }

  /** Whatever lies ahead of an unvisited node waits under a key no greater than the node's. */
  lemma {:induction false} WaitingBelow<N(!new)>(s: Search<N>, start: N, n: N, key: Key)
    requires (start, key.index) in s.starts && Steps(s.edges, start, n, key.depth)
    ensures Known(s.best, n, key) || exists q :: q in s.queue && q.key.Leq(key)
    decreases key.depth
  {
    if key.depth == 0 {
      assert Awaited(s, (start, key.index).0, Key(0, key.index));
    } else {
      var m :| Steps(s.edges, start, m, key.depth - 1) && (m, n) in s.edges;
      WaitingBelow(s, start, m, Key(key.depth - 1, key.index));
      assert m in s.best ==> Awaited(s, n, s.best[m].Next());
    }
  }

  /** The front entry of an unvisited node carries the best key of that node. */
  lemma FrontIsBest<N(!new)>(s: Search<N>)
    requires s.queue != [] && s.queue[0].node !in s.best
    ensures Best(s.edges, s.starts, s.queue[0].node, s.queue[0].key)
  {
    FrontIsCandidate(s);
    var n := s.queue[0].node;
    forall key: Key | Candidate(s.edges, s.starts, n, key)
      ensures s.queue[0].key.Leq(key)
    {
      var start :| (start, key.index) in s.starts && Steps(s.edges, start, n, key.depth);
      WaitingBelow(s, start, n, key);
      var q :| q in s.queue && q.key.Leq(key);
      var k :| 0 <= k < |s.queue| && s.queue[k] == q;
    }
  }

  /** The front entry's node was visited before: dropping it loses nothing. */
  lemma Skip<N(!new)>(s: Search<N>) returns (t: Search<N>)
    requires s.queue != [] && s.queue[0].node in s.best
    ensures t == s.(queue := s.queue[1..])
  {
    var rest := s.(queue := s.queue[1..]);
    var e := s.queue[0];
    assert Known(s.best, e.node, e.key);
    forall n, key: Key | Awaited(s, n, key)
      ensures Awaited(rest, n, key)
    {
      assert Entry(n, key) in s.queue ==> Entry(n, key) == e || Entry(n, key) in rest.queue;
    }
    t := rest;
  }

  ghost function Visited<N>(s: State<N>, targets: seq<N>): State<N>
    requires s.queue != []
  {
    var e := s.queue[0];
    s.(queue := s.queue[1..] + Pushed(targets, e.key.Next()),
       best := s.best[e.node := e.key], last := e.key)
  }

  lemma VisitedOrdered<N>(s: State<N>, targets: seq<N>)
    requires s.queue != [] && Ordered(s)
    ensures Ordered(Visited(s, targets))
  {
    var t := Visited(s, targets);
    assert s.queue[0] in s.queue;
    forall q | q in t.queue
      ensures t.last.Leq(q.key) && q.key.Leq(t.last.Next())
    {
    }
    forall i, j | 0 <= i < j < |t.queue|
      ensures t.queue[i].key.Leq(t.queue[j].key)
    {
      assert t.queue[i] in t.queue;
    }
  }

  lemma VisitedJustified<N(!new)>(s: State<N>, targets: seq<N>)
    requires s.queue != [] && Justified(s)
    requires forall w :: w in targets ==> (s.queue[0].node, w) in s.edges
    ensures Justified(Visited(s, targets))
  {
    var e := s.queue[0];
    assert e in s.queue;
    forall q | q in Pushed(targets, e.key.Next())
      ensures Candidate(s.edges, s.starts, q.node, q.key)
    {
      CandidateStep(s.edges, s.starts, e.node, q.node, e.key);
    }
  }

  lemma VisitedCovered<N(!new)>(s: State<N>, targets: seq<N>)
    requires s.queue != [] && s.queue[0].node !in s.best && Covered(s)
    requires forall w :: (s.queue[0].node, w) in s.edges ==> w in targets
    ensures Covered(Visited(s, targets))
  {
    var e, t := s.queue[0], Visited(s, targets);
    forall n, key: Key | Awaited(s, n, key)
      ensures Awaited(t, n, key)
    {
      assert Entry(n, key) in s.queue ==> Entry(n, key) == e || Entry(n, key) in s.queue[1..];
    }
    forall w | (e.node, w) in s.edges
      ensures Entry(w, e.key.Next()) in t.queue
    {
      var i :| 0 <= i < |targets| && targets[i] == w;
      assert Pushed(targets, e.key.Next())[i] in t.queue;
    }
    forall u, w | u in t.best && (u, w) in s.edges
      ensures Awaited(t, w, t.best[u].Next())
    {
      assert u != e.node ==> Awaited(s, w, s.best[u].Next());
    }
  }

  /** The front entry's node is new: it is visited, and its targets go to the back of the queue. */
  lemma Visit<N(!new)>(s: Search<N>, targets: seq<N>) returns (t: Search<N>)
    requires s.queue != [] && s.queue[0].node !in s.best
    requires forall w :: w in targets <==> (s.queue[0].node, w) in s.edges
    ensures t == Visited(s, targets)
  {
    VisitedOrdered(s, targets);
    VisitedJustified(s, targets);
    VisitedCovered(s, targets);
    t := Visited(s, targets);
  }

  /** A drained search visited exactly the nodes with a candidate, each under its best key. */
  lemma Drained<N(!new)>(s: Search<N>)
    requires s.queue == []
    ensures forall n, key: Key :: Candidate(s.edges, s.starts, n, key) ==> n in s.best
    ensures forall n, key: Key :: Best(s.edges, s.starts, n, key) <==> n in s.best && key == s.best[n]
  {
    forall n, key: Key | Candidate(s.edges, s.starts, n, key)
      ensures Known(s.best, n, key)
    {
      var start :| (start, key.index) in s.starts && Steps(s.edges, start, n, key.depth);
      WaitingBelow(s, start, n, key);
    }
    forall n | n in s.best
      ensures Best(s.edges, s.starts, n, s.best[n])
    {
    }
    forall n, key: Key | Best(s.edges, s.starts, n, key)
      ensures n in s.best && key == s.best[n]
    {
      BestIsUnique(s.edges, s.starts, n, key, s.best[n]);
    }
  }

  /** A finite bound on everything a search can visit. */
  lemma Bound<N(!new)>(edges: set<(N, N)>, starts: set<(N, nat)>) returns (universe: set<N>)
    ensures forall n, key: Key :: Candidate(edges, starts, n, key) ==> n in universe
  {
    universe := (set s | s in starts :: s.0) + (set e | e in edges :: e.1);
    forall n, key: Key | Candidate(edges, starts, n, key)
      ensures n in universe
    {
      var s :| (s, key.index) in starts && Steps(edges, s, n, key.depth);
      if key.depth > 0 {
        var m :| Steps(edges, s, m, key.depth - 1) && (m, n) in edges;
        assert (m, n).1 in universe;
      } else {
        assert (s, key.index).0 in universe;
      }
    }
  }
}
