/** Directed graphs given by lists of successors, and the orders a depth-first search leaves. */
module Digraph {

  type Node = string

  type Graph = map<Node, seq<Node>>

  predicate Edge(g: Graph, a: Node, b: Node) {
    a in g && b in g[a]
  }

  ghost predicate Walk(g: Graph, w: seq<Node>) {
    w != [] && forall i | 0 <= i < |w| - 1 :: Edge(g, w[i], w[i + 1])
  }

  ghost predicate WalkBetween(g: Graph, w: seq<Node>, a: Node, b: Node) {
    Walk(g, w) && w[0] == a && w[|w| - 1] == b
  }

  /** By any number of edges, none included. */
  ghost predicate Reaches(g: Graph, a: Node, b: Node) {
    exists w :: WalkBetween(g, w, a, b)
  }

  /** By at least one edge. */
  ghost predicate Leads(g: Graph, a: Node, b: Node) {
    exists c :: Edge(g, a, c) && Reaches(g, c, b)
  }

  ghost predicate AllLead(g: Graph, starts: set<Node>, b: Node) {
    forall q | q in starts :: Leads(g, q, b)
  }

  /** On a cycle. */
  ghost predicate Cyclic(g: Graph, x: Node) {
    Leads(g, x, x)
  }

  /** Edges lead to nodes of the graph. */
  ghost predicate Closed(g: Graph) {
    forall a, b | Edge(g, a, b) :: b in g
  }

  /** Something missing or circular is reached. */
  ghost predicate Broken(g: Graph, x: Node) {
    exists y :: Reaches(g, x, y) && (y !in g || Cyclic(g, y))
  }

  lemma ReachesSelf(g: Graph, a: Node)
    ensures Reaches(g, a, a)
  {
    assert WalkBetween(g, [a], a, a);
  }

  lemma ReachesStep(g: Graph, a: Node, b: Node, c: Node)
    requires Reaches(g, a, b) && Edge(g, b, c)
    ensures Reaches(g, a, c)
  {
    var w :| WalkBetween(g, w, a, b);
    assert WalkBetween(g, w + [c], a, c);
  }

  lemma EdgeReaches(g: Graph, a: Node, b: Node)
    requires Edge(g, a, b)
    ensures Reaches(g, a, b)
  {
    ReachesSelf(g, a);
    ReachesStep(g, a, a, b);
  }

  lemma ReachesTrans(g: Graph, a: Node, b: Node, c: Node)
    requires Reaches(g, a, b) && Reaches(g, b, c)
    ensures Reaches(g, a, c)
  {
    var v, w :| WalkBetween(g, v, a, b) && WalkBetween(g, w, b, c);
    var u := v + w[1..];
    assert u[|u| - 1] == c;
    assert forall i | 0 <= i < |u| - 1 :: Edge(g, u[i], u[i + 1]) by {
      forall i | 0 <= i < |u| - 1
        ensures Edge(g, u[i], u[i + 1])
      {
        if i == |v| - 1 {
          assert u[i] == w[0] && u[i + 1] == w[1];
        } else if i >= |v| {
          assert u[i] == w[i - |v| + 1] && u[i + 1] == w[i - |v| + 2];
        }
      }
    }
    assert WalkBetween(g, u, a, c);
  }

  lemma LeadsStep(g: Graph, a: Node, b: Node, c: Node)
    requires (a == b || Leads(g, a, b)) && Edge(g, b, c)
    ensures Leads(g, a, c)
  {
    if Leads(g, a, b) {
      var d :| Edge(g, a, d) && Reaches(g, d, b);
      ReachesStep(g, d, b, c);
    } else {
      ReachesSelf(g, c);
    }
  }

  /** A node before one that is broken is broken. */
  lemma BrokenBefore(g: Graph, a: Node, b: Node)
    requires Reaches(g, a, b) && Broken(g, b)
    ensures Broken(g, a)
  {
    var y :| Reaches(g, b, y) && (y !in g || Cyclic(g, y));
    ReachesTrans(g, a, b, y);
  }

  lemma BrokenHere(g: Graph, x: Node)
    requires x !in g || Cyclic(g, x)
    ensures Broken(g, x)
  {
    ReachesSelf(g, x);
  }

  // ----- topological orders -----

  predicate Distinct(order: seq<Node>) {
    forall i, j | 0 <= i < j < |order| :: order[i] != order[j]
  }

  /** Every node comes after all its successors, and only once. */
  ghost predicate Topological(g: Graph, order: seq<Node>) {
    && Distinct(order)
    && forall i | 0 <= i < |order| :: order[i] in g && SuccessorsIn(g[order[i]], order[..i])
  }

  predicate SuccessorsIn(successors: seq<Node>, earlier: seq<Node>) {
    forall y | y in successors :: y in earlier
  }

  lemma TopologicalPush(g: Graph, order: seq<Node>, x: Node)
    requires Topological(g, order) && x in g && x !in order && SuccessorsIn(g[x], order)
    ensures Topological(g, order + [x])
  {
    var order' := order + [x];
    forall i | 0 <= i < |order'|
      ensures order'[i] in g && SuccessorsIn(g[order'[i]], order'[..i])
    {
      if i < |order| {
        assert order'[..i] == order[..i];
      } else {
        assert order'[..i] == order;
      }
    }
  }

  /** What is reached from a node of the order is in the order, not after it. */
  lemma {:induction false} WalkDown(g: Graph, order: seq<Node>, w: seq<Node>, i: nat)
    requires Topological(g, order) && Walk(g, w) && i < |order| && order[i] == w[0]
    ensures w[|w| - 1] in order[..i + 1]
    decreases w
  {
    if |w| > 1 {
      assert Edge(g, w[0], w[1]);
      assert w[1] in order[..i];
      var j :| 0 <= j < i && order[j] == w[1];
      WalkDown(g, order, w[1..], j);
      assert order[..j + 1] <= order[..i + 1];
    }
  }

  lemma OrderClosed(g: Graph, order: seq<Node>, x: Node, y: Node)
    requires Topological(g, order) && x in order && Reaches(g, x, y)
    ensures y in order
  {
    var w :| WalkBetween(g, w, x, y);
    var i :| 0 <= i < |order| && order[i] == x;
    WalkDown(g, order, w, i);
  }

  /** Nothing in a topological order is broken. */
  lemma OrderSound(g: Graph, order: seq<Node>, x: Node)
    requires Topological(g, order) && x in order
    ensures !Broken(g, x)
  {
    if Broken(g, x) {
      var y :| Reaches(g, x, y) && (y !in g || Cyclic(g, y));
      OrderClosed(g, order, x, y);
      NotCyclic(g, order, y);
    }
  }

  lemma NotCyclic(g: Graph, order: seq<Node>, y: Node)
    requires Topological(g, order) && y in order
    ensures y in g && !Cyclic(g, y)
  {
    var i :| 0 <= i < |order| && order[i] == y;
    if Cyclic(g, y) {
      var z :| Edge(g, y, z) && Reaches(g, z, y);
      assert z in order[..i];
      var j :| 0 <= j < i && order[j] == z;
      var w :| WalkBetween(g, w, z, y);
      WalkDown(g, order, w, j);
    }
  }
}
