/** Directed graphs as the module-graph script holds them: a dictionary from a
    vertex to its set of successors, where a missing key means no successors. */
module Digraph {

  type Vertex = string
  type Graph = map<Vertex, set<Vertex>>

  function Succ(g: Graph, v: Vertex): set<Vertex> {
    if v in g then g[v] else {}
  }

  /** A nonempty walk along edges of g. */
  ghost predicate IsPath(g: Graph, p: seq<Vertex>) {
    |p| > 0 && forall i :: 0 <= i < |p| - 1 ==> StepAt(g, p, i)
  }

  ghost predicate StepAt(g: Graph, p: seq<Vertex>, i: nat)
    requires i < |p| - 1
  {
    p[i + 1] in Succ(g, p[i])
  }

  ghost predicate Connects(g: Graph, p: seq<Vertex>, x: Vertex, y: Vertex) {
    IsPath(g, p) && p[0] == x && p[|p| - 1] == y
  }

  /** Reachability in zero or more steps. */
  ghost predicate Reach(g: Graph, x: Vertex, y: Vertex) {
    exists p :: Connects(g, p, x, y)
  }

  ghost predicate Mutual(g: Graph, x: Vertex, y: Vertex) {
    Reach(g, x, y) && Reach(g, y, x)
  }

  lemma ReachRefl(g: Graph, x: Vertex)
    ensures Reach(g, x, x)
  {
    assert Connects(g, [x], x, x);
  }

  lemma ReachEdge(g: Graph, x: Vertex, y: Vertex)
    requires y in Succ(g, x)
    ensures Reach(g, x, y)
  {
    assert Connects(g, [x, y], x, y);
  }

  lemma Join(g: Graph, p: seq<Vertex>, q: seq<Vertex>, x: Vertex, y: Vertex, z: Vertex) returns (r: seq<Vertex>)
    requires Connects(g, p, x, y) && Connects(g, q, y, z)
    ensures Connects(g, r, x, z) && |r| == |p| + |q| - 1
  {
    r := p + q[1..];
    forall i | 0 <= i < |r| - 1 ensures StepAt(g, r, i) {
      assert if i < |p| - 1 then StepAt(g, p, i) else StepAt(g, q, i - (|p| - 1));
    }
  }

  lemma ReachTrans(g: Graph, x: Vertex, y: Vertex, z: Vertex)
    requires Reach(g, x, y) && Reach(g, y, z)
    ensures Reach(g, x, z)
  {
    var p :| Connects(g, p, x, y);
    var q :| Connects(g, q, y, z);
    var r := Join(g, p, q, x, y, z);
  }

  ghost predicate IsCycle(g: Graph, p: seq<Vertex>) {
    IsPath(g, p) && |p| > 1 && p[0] == p[|p| - 1]
  }

  /** Two vertices that reach each other lie on a cycle. */
  lemma MutualCycle(g: Graph, x: Vertex, y: Vertex) returns (r: seq<Vertex>)
    requires x != y && Mutual(g, x, y)
    ensures IsCycle(g, r)
  {
    var p :| Connects(g, p, x, y);
    var q :| Connects(g, q, y, x);
    r := Join(g, p, q, x, y, x);
  }

  /** The first edge of a cycle joins two vertices that reach each other. */
  lemma CycleMutual(g: Graph, p: seq<Vertex>)
    requires IsCycle(g, p)
    ensures p[1] in Succ(g, p[0]) && Mutual(g, p[0], p[1])
  {
    assert StepAt(g, p, 0);
    ReachEdge(g, p[0], p[1]);
    var q := p[1..];
    forall i | 0 <= i < |q| - 1 ensures StepAt(g, q, i) {
      assert StepAt(g, p, i + 1);
    }
    assert Connects(g, q, p[1], p[0]);
  }

  /** A walk from inside A to outside A crosses the border along some edge. */
  lemma Leaves(g: Graph, x: Vertex, y: Vertex, A: set<Vertex>) returns (a: Vertex, b: Vertex)
    requires x in A && y !in A && Reach(g, x, y)
    ensures a in A && b !in A && b in Succ(g, a)
    ensures Reach(g, x, a) && Reach(g, b, y)
  {
    var p :| Connects(g, p, x, y);
    var k := 0;
    while p[k + 1] in A
      invariant 0 <= k < |p| - 1 && p[k] in A
      decreases |p| - k
    {
      k := k + 1;
    }
    a, b := p[k], p[k + 1];
    assert StepAt(g, p, k);
    var front, back := p[..k + 1], p[k + 1..];
    forall i | 0 <= i < k ensures StepAt(g, front, i) {
      assert StepAt(g, p, i);
    }
    forall i | 0 <= i < |back| - 1 ensures StepAt(g, back, i) {
      assert StepAt(g, p, k + 1 + i);
    }
    assert Connects(g, front, x, a);
    assert Connects(g, back, b, y);
  }

  /** Everything a set closed under successors reaches lies inside it. */
  lemma ClosedReach(g: Graph, A: set<Vertex>, x: Vertex, y: Vertex)
    requires forall a :: a in A ==> Succ(g, a) <= A
    requires x in A && Reach(g, x, y)
    ensures y in A
  {
    if y !in A {
      var a, b := Leaves(g, x, y, A);
    }
  }
}
