/** Walks in a finite directed graph given by its set of edges. Every graph search of the
    repository is specified by the predicates of this module. */
module Walks {

  /** Some walk of exactly `n` edges leads from `a` to `b`. */
  ghost predicate Steps<N(!new)>(edges: set<(N, N)>, a: N, b: N, n: nat)
  {
    if n == 0 then a == b
    else exists m :: Steps(edges, a, m, n - 1) && (m, b) in edges
  }

  ghost predicate Reaches<N(!new)>(edges: set<(N, N)>, a: N, b: N)
  {
    exists n: nat :: Steps(edges, a, b, n)
  }

  /** No node lies on a walk of at least one edge back to itself. */
  ghost predicate Acyclic<N(!new)>(edges: set<(N, N)>)
  {
    forall a, n: nat :: Steps(edges, a, a, n) ==> n == 0
  }

  ghost predicate ClosedUnder<N>(edges: set<(N, N)>, s: set<N>)
  {
    forall e :: e in edges && e.0 in s ==> e.1 in s
  }

  /** A node sequence in which neighbours are joined by edges. */
  ghost predicate IsWalk<N>(edges: set<(N, N)>, p: seq<N>)
  {
    |p| > 0 && forall i, j :: 0 <= i && j == i + 1 && j < |p| ==> (p[i], p[j]) in edges
  }

  ghost function Flip<N>(edges: set<(N, N)>): set<(N, N)>
  {
    set e | e in edges :: (e.1, e.0)
  }

  lemma StepsAppend<N(!new)>(edges: set<(N, N)>, a: N, m: N, b: N, n: nat)
    requires Steps(edges, a, m, n) && (m, b) in edges
    ensures Steps(edges, a, b, n + 1)
    ensures Reaches(edges, a, b)
  {
    assert Steps(edges, a, b, n + 1);
  }

  lemma {:induction false} StepsPrepend<N(!new)>(edges: set<(N, N)>, a: N, m: N, b: N, n: nat)
    requires (a, m) in edges && Steps(edges, m, b, n)
    ensures Steps(edges, a, b, n + 1)
  {
    if n == 0 {
      assert Steps(edges, a, a, 0);
    } else {
      var k :| Steps(edges, m, k, n - 1) && (k, b) in edges;
      StepsPrepend(edges, a, m, k, n - 1);
      StepsAppend(edges, a, k, b, n);
    }
  }

  lemma {:induction false} StepsConcat<N(!new)>(edges: set<(N, N)>, a: N, b: N, c: N, m: nat, n: nat)
    requires Steps(edges, a, b, m) && Steps(edges, b, c, n)
    ensures Steps(edges, a, c, m + n)
  {
    if n > 0 {
      var k :| Steps(edges, b, k, n - 1) && (k, c) in edges;
      StepsConcat(edges, a, b, k, m, n - 1);
      StepsAppend(edges, a, k, c, m + n - 1);
    }
  }

  lemma ReachesTransitive<N(!new)>(edges: set<(N, N)>, a: N, b: N, c: N)
    requires Reaches(edges, a, b) && Reaches(edges, b, c)
    ensures Reaches(edges, a, c)
  {
    var m: nat :| Steps(edges, a, b, m);
    var n: nat :| Steps(edges, b, c, n);
    StepsConcat(edges, a, b, c, m, n);
  }

  lemma ReachesEdge<N(!new)>(edges: set<(N, N)>, a: N, m: N, b: N)
    requires (a, m) in edges && Reaches(edges, m, b)
    ensures Reaches(edges, a, b)
  {
    var n: nat :| Steps(edges, m, b, n);
    StepsPrepend(edges, a, m, b, n);
  }

  lemma ReachesSelf<N(!new)>(edges: set<(N, N)>, a: N)
    ensures Reaches(edges, a, a)
  {
    assert Steps(edges, a, a, 0);
  }

  lemma {:induction false} StepsFlip<N(!new)>(edges: set<(N, N)>, a: N, b: N, n: nat)
    requires Steps(edges, a, b, n)
    ensures Steps(Flip(edges), b, a, n)
  {
    if n > 0 {
      var m :| Steps(edges, a, m, n - 1) && (m, b) in edges;
      StepsFlip(edges, a, m, n - 1);
      StepsPrepend(Flip(edges), b, m, a, n - 1);
    }
  }

  lemma FlipFlip<N(!new)>(edges: set<(N, N)>)
    ensures Flip(Flip(edges)) == edges
  {
    forall e | e in edges
      ensures e in Flip(Flip(edges))
    {
      assert (e.1, e.0) in Flip(edges);
    }
  }

  lemma {:induction false} StepsMonotone<N(!new)>(small: set<(N, N)>, large: set<(N, N)>, a: N, b: N, n: nat)
    requires small <= large && Steps(small, a, b, n)
    ensures Steps(large, a, b, n)
  {
    if n > 0 {
      var m :| Steps(small, a, m, n - 1) && (m, b) in small;
      StepsMonotone(small, large, a, m, n - 1);
    }
  }

  /** Whatever holds a walk's first node and is closed under the edges holds its last one. */
  lemma {:induction false} ClosedHolds<N(!new)>(edges: set<(N, N)>, s: set<N>, a: N, b: N, n: nat)
    requires ClosedUnder(edges, s) && a in s && Steps(edges, a, b, n)
    ensures b in s
  {
    if n > 0 {
      var m :| Steps(edges, a, m, n - 1) && (m, b) in edges;
      ClosedHolds(edges, s, a, m, n - 1);
    }
  }

  lemma NoWayIn<N(!new)>(edges: set<(N, N)>, a: N, b: N)
    requires a != b && forall e :: e in edges ==> e.1 != b
    ensures !Reaches(edges, a, b)
  {
    forall n: nat
      ensures !Steps(edges, a, b, n)
    {
      assert forall m :: (m, b) in edges ==> (m, b).1 != b;
    }
  }

  /** A node sequence is a walk of one edge less than its length. */
  lemma {:induction false} WalkSteps<N(!new)>(edges: set<(N, N)>, p: seq<N>)
    requires IsWalk(edges, p)
    ensures Steps(edges, p[0], p[|p| - 1], |p| - 1)
  {
    if |p| > 1 {
      var q := p[..|p| - 1];
      WalkSteps(edges, q);
      assert (p[|p| - 2], p[|p| - 1]) in edges;
    }
  }

  /** When the nodes can be listed so that every edge leads to an earlier one, there is no cycle. */
  lemma {:induction false} RankedStepsDescend<N(!new)>(edges: set<(N, N)>, order: seq<N>, a: nat, b: N, n: nat)
    requires forall i, t :: 0 <= i < |order| && (order[i], t) in edges ==> t in order[..i]
    requires a < |order| && n > 0 && Steps(edges, order[a], b, n)
    ensures b in order[..a]
  {
    var m :| Steps(edges, order[a], m, n - 1) && (m, b) in edges;
    if n > 1 {
      RankedStepsDescend(edges, order, a, m, n - 1);
      var i :| 0 <= i < a && order[i] == m;
      assert b in order[..i];
    }
  }

  lemma RankedIsAcyclic<N(!new)>(edges: set<(N, N)>, order: seq<N>)
    requires forall i, j :: 0 <= i < j < |order| ==> order[i] != order[j]
    requires forall e :: e in edges ==> e.0 in order
    requires forall i, t :: 0 <= i < |order| && (order[i], t) in edges ==> t in order[..i]
    ensures Acyclic(edges)
  {
    forall a, n: nat | Steps(edges, a, a, n)
      ensures n == 0
    {
      if n > 0 {
        var first := FirstEdge(edges, a, a, n);
        var i :| 0 <= i < |order| && order[i] == a;
        RankedStepsDescend(edges, order, i, a, n);
      }
    }
  }

  lemma {:induction false} FirstEdge<N(!new)>(edges: set<(N, N)>, a: N, b: N, n: nat) returns (m: N)
    requires n > 0 && Steps(edges, a, b, n)
    ensures (a, m) in edges && Steps(edges, m, b, n - 1)
  {
    var k :| Steps(edges, a, k, n - 1) && (k, b) in edges;
    if n == 1 {
      m := b;
    } else {
      m := FirstEdge(edges, a, k, n - 1);
      StepsAppend(edges, m, k, b, n - 2);
    }
  }
}
