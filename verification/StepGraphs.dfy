/** Dependency graphs between named steps: walks, cycles and orderings. */
module StepGraphs {
  import opened Sequences

  type Name = string
  type Graph = map<Name, seq<Name>>

  /** The entries listed for a node; a name the graph does not hold lists none. */
  function Targets(g: Graph, n: Name): seq<Name> {
    if n in g then g[n] else []
  }

  predicate Edge(g: Graph, a: Name, b: Name) {
    b in Targets(g, a)
  }

  function Nodes(g: Graph): set<Name> {
    g.Keys + set n, t | n in g && t in g[n] :: t
  }

  /** One slot for every entry of every dependency list, repeated entries included. */
  function Slots(g: Graph): set<(Name, nat)> {
    set n, i: nat | n in g && 0 <= i < |g[n]| :: (n, i)
  }

  ghost predicate Walk(g: Graph, p: seq<Name>) {
    forall i :: 0 <= i < |p| - 1 ==> Edge(g, p[i], p[i + 1])
  }

  ghost predicate Cycle(g: Graph, c: seq<Name>) {
    |c| > 0 && Walk(g, c) && Edge(g, c[|c| - 1], c[0])
  }

  ghost predicate Cyclic(g: Graph) {
    exists c :: Cycle(g, c)
  }

  /** Everything a listed node depends on comes before it. */
  ghost predicate DependenciesFirst(g: Graph, order: seq<Name>) {
    forall i, t :: 0 <= i < |order| && Edge(g, order[i], t) ==> t in order[..i]
  }

  /** A complete topological order: every node once, dependencies first. */
  ghost predicate TopologicalOrder(g: Graph, order: seq<Name>) {
    Distinct(order) && ToSet(order) == Nodes(g) && DependenciesFirst(g, order)
  }

  ghost predicate Orderable(g: Graph) {
    exists order :: TopologicalOrder(g, order)
  }

  ghost function Position(order: seq<Name>, n: Name): (i: nat)
    requires n in order
    ensures i < |order| && order[i] == n
  {
    var i :| 0 <= i < |order| && order[i] == n;
    i
  }

  /** Along a walk through ordered nodes, positions drop by at least one per edge. */
  lemma {:induction false} PositionsDrop(g: Graph, order: seq<Name>, p: seq<Name>, k: nat)
    requires TopologicalOrder(g, order) && Walk(g, p) && k < |p|
    requires forall x :: x in p ==> x in order
    ensures Position(order, p[k]) + k <= Position(order, p[0])
  {
    if k > 0 {
      PositionsDrop(g, order, p, k - 1);
      var at := Position(order, p[k - 1]);
      assert Edge(g, order[at], p[k]);
      assert p[k] in order[..at];
    }
  }

  /** A graph with a complete topological order has no cycle, self-dependencies included. */
  lemma OrderableIsAcyclic(g: Graph)
    requires Orderable(g)
    ensures !Cyclic(g)
  {
    var order :| TopologicalOrder(g, order);
    forall c | Cycle(g, c)
      ensures false
    {
      forall x | x in c
        ensures x in order
      {
        var i :| 0 <= i < |c| && c[i] == x;
        assert Edge(g, x, if i + 1 < |c| then c[i + 1] else c[0]);
        assert x in Nodes(g);
        assert x in ToSet(order);
      }
      PositionsDrop(g, order, c, |c| - 1);
    }
  }

  lemma CyclicIsUnorderable(g: Graph)
    ensures Cyclic(g) ==> !Orderable(g)
    ensures Orderable(g) ==> !Cyclic(g)
  {
    if Orderable(g) {
      OrderableIsAcyclic(g);
    }
  }

  /** An edge back to a node of the current path closes a cycle. */
  lemma BackEdgeClosesCycle(g: Graph, path: seq<Name>, target: Name)
    requires |path| > 0 && Walk(g, path)
    requires target in path && Edge(g, path[|path| - 1], target)
    ensures Cyclic(g)
  {
    var i :| 0 <= i < |path| && path[i] == target;
    var c := path[i..];
    assert forall j :: 0 <= j < |c| ==> c[j] == path[i + j];
    assert Cycle(g, c);
  }

  lemma EdgeStaysInside(g: Graph, a: Name, b: Name)
    requires Edge(g, a, b)
    ensures a in Nodes(g) && b in Nodes(g)
  {
  }

  /** Acyclicity and orderability depend on which edges there are, not on how they are listed. */
  ghost predicate SameEdges(g: Graph, h: Graph) {
    g.Keys == h.Keys && forall a, b :: Edge(g, a, b) <==> Edge(h, a, b)
  }

  lemma NodesFromEdges(g: Graph, h: Graph)
    requires SameEdges(g, h)
    ensures Nodes(g) == Nodes(h)
  {
    forall x
      ensures x in Nodes(g) <==> x in Nodes(h)
    {
      if x in Nodes(g) && x !in g {
        var n, t :| n in g && t in g[n] && t == x;
        assert Edge(h, n, x);
      }
      if x in Nodes(h) && x !in h {
        var n, t :| n in h && t in h[n] && t == x;
        assert Edge(g, n, x);
      }
    }
  }

  lemma SameEdgesSameVerdict(g: Graph, h: Graph)
    requires SameEdges(g, h)
    ensures Orderable(g) <==> Orderable(h)
  {
    NodesFromEdges(g, h);
    forall order | TopologicalOrder(g, order)
      ensures TopologicalOrder(h, order)
    {
    }
    forall order | TopologicalOrder(h, order)
      ensures TopologicalOrder(g, order)
    {
    }
  }
}
