/** The recursive three-colour search that rejects circular step dependencies. */
module DepthFirst {
  import opened Sequences
  import opened StepGraphs

  /**
   * A record of one run of the search: the chain of recursive calls in progress, the order in
   * which nodes were entered and finished, every list entry looked at, and the deepest recursion.
   */
  datatype Trail = Trail(
    path: seq<Name>,
    entered: seq<Name>,
    finished: seq<Name>,
    examined: seq<(Name, nat)>,
    deepest: nat)
  {
    function Enter(node: Name): Trail {
      this.(path := path + [node],
            entered := entered + [node],
            deepest := if |path| + 1 > deepest then |path| + 1 else deepest)
    }

    function Examine(node: Name, i: nat): Trail {
      this.(examined := examined + [(node, i)])
    }

    function Finish(): Trail
      requires path != []
    {
      this.(path := path[..|path| - 1], finished := finished + [path[|path| - 1]])
    }
  }

  const START := Trail([], [], [], [], 0)

  /** The nodes being explored form a walk from the current root; what is finished leads only to finished nodes. */
  ghost predicate Coloured(g: Graph, t: Trail) {
    && Distinct(t.path) && Walk(g, t.path)
    && Distinct(t.finished) && DependenciesFirst(g, t.finished)
    && ToSet(t.path) !! ToSet(t.finished)
    && ToSet(t.entered) == ToSet(t.path) + ToSet(t.finished)
  }

  /** What it has cost: no node entered twice, no list entry looked at twice, no call chain longer than the node count. */
  ghost predicate Affordable(g: Graph, t: Trail) {
    && Distinct(t.entered) && ToSet(t.entered) <= Nodes(g)
    && Distinct(t.examined) && ToSet(t.examined) <= Slots(g)
    && t.deepest <= |Nodes(g)|
  }

  /** Every entry listed for a finished node was looked at; only entered nodes had entries looked at. */
  ghost predicate Thorough(g: Graph, t: Trail) {
    && (forall n, i: nat :: n in t.finished && i < |Targets(g, n)| ==> (n, i) in t.examined)
    && (forall e :: e in t.examined ==> e.0 in t.entered)
  }

  ghost predicate Sound(g: Graph, t: Trail) {
    Coloured(g, t) && Affordable(g, t) && Thorough(g, t)
  }

  /** The run continued: nodes stay entered, and only nodes new since then had entries looked at. */
  ghost predicate Continues(before: Trail, after: Trail) {
    && before.entered <= after.entered && before.finished <= after.finished && before.examined <= after.examined
    && (forall e :: e in after.examined && e !in before.examined ==> e.0 !in before.entered)
  }

  lemma ContinuesOn(a: Trail, b: Trail, c: Trail)
    requires Continues(a, b) && Continues(b, c)
    ensures Continues(a, c)
  {
  }

  ghost predicate CanEnter(g: Graph, t: Trail, node: Name) {
    && node in Nodes(g) && node !in t.entered
    && (t.path != [] ==> Edge(g, t.path[|t.path| - 1], node))
  }

  lemma EnterKeepsColours(g: Graph, t: Trail, node: Name)
    requires Coloured(g, t) && CanEnter(g, t, node)
    ensures Coloured(g, t.Enter(node))
    ensures ToSet(t.Enter(node).path) == ToSet(t.path) + {node}
  {
    assert node !in ToSet(t.entered);
    assert node !in t.path by {
      assert node in t.path ==> node in ToSet(t.path);
    }
    DistinctAppend(t.path, node);
    ToSetAppend(t.path, node);
    ToSetAppend(t.entered, node);
  }

  lemma EnterKeepsCost(g: Graph, t: Trail, node: Name)
    requires Coloured(g, t) && Affordable(g, t) && CanEnter(g, t, node)
    ensures Affordable(g, t.Enter(node))
    ensures ToSet(t.Enter(node).entered) == ToSet(t.entered) + {node}
  {
    EnterKeepsColours(g, t, node);
    DistinctAppend(t.entered, node);
    ToSetAppend(t.entered, node);
    var path := t.path + [node];
    ToSetSize(path);
    assert ToSet(path) <= ToSet(t.entered) + {node};
    SubsetSize(ToSet(path), Nodes(g));
  }

  lemma EnterKeeps(g: Graph, t: Trail, node: Name)
    requires Sound(g, t) && CanEnter(g, t, node)
    ensures Sound(g, t.Enter(node))
    ensures ToSet(t.Enter(node).path) == ToSet(t.path) + {node}
    ensures ToSet(t.Enter(node).entered) == ToSet(t.entered) + {node}
  {
    EnterKeepsColours(g, t, node);
    EnterKeepsCost(g, t, node);
    assert Thorough(g, t.Enter(node)) by {
      assert forall e :: e in t.examined ==> e.0 in t.entered;
    }
  }

  lemma ExamineKeeps(g: Graph, t: Trail, node: Name, i: nat)
    requires Sound(g, t)
    requires node in t.entered && i < |Targets(g, node)| && (node, i) !in t.examined
    ensures Sound(g, t.Examine(node, i))
  {
    DistinctAppend(t.examined, (node, i));
    ToSetAppend(t.examined, (node, i));
  }

  /** The first `k` entries listed for `node` were looked at, and no others, and lead to finished nodes. */
  ghost predicate Explored(g: Graph, t: Trail, node: Name, k: nat) {
    && node in t.entered && k <= |Targets(g, node)|
    && (forall j: nat :: j < k ==> Targets(g, node)[j] in t.finished && (node, j) in t.examined)
    && (forall j: nat :: (node, j) in t.examined ==> j < k)
  }

  lemma EnteredUnexplored(g: Graph, t: Trail, node: Name)
    requires Sound(g, t) && CanEnter(g, t, node)
    ensures Explored(g, t.Enter(node), node, 0)
    ensures Continues(t, t.Enter(node))
  {
    assert forall j: nat :: (node, j) in t.examined ==> (node, j).0 in t.entered;
  }

  lemma ExploredOneMore(g: Graph, t: Trail, t': Trail, node: Name, k: nat)
    requires Explored(g, t, node, k) && k < |Targets(g, node)|
    requires Continues(t.Examine(node, k), t')
    requires Targets(g, node)[k] in t'.finished
    ensures Explored(g, t', node, k + 1)
  {
    var mid := t.Examine(node, k);
    PrefixMember(mid.entered, t'.entered, node);
    forall j: nat | j <= k
      ensures Targets(g, node)[j] in t'.finished && (node, j) in t'.examined
    {
      PrefixMember(mid.examined, t'.examined, (node, j));
      if j < k {
        PrefixMember(mid.finished, t'.finished, Targets(g, node)[j]);
      }
    }
    forall j: nat | (node, j) in t'.examined
      ensures j <= k
    {
      assert (node, j) in mid.examined by {
        assert (node, j).0 in mid.entered;
      }
    }
  }

  /** Looking at an entry of a node entered after `start` and then going on is still going on from `start`. */
  lemma ContinuesPast(start: Trail, t: Trail, t': Trail, node: Name, k: nat)
    requires Continues(start, t) && node !in start.entered
    requires Continues(t.Examine(node, k), t')
    ensures Continues(start, t')
  {
    assert Continues(start, t.Examine(node, k));
    ContinuesOn(start, t.Examine(node, k), t');
  }

  lemma FinishedOrder(g: Graph, order: seq<Name>, node: Name)
    requires DependenciesFirst(g, order)
    requires forall n :: Edge(g, node, n) ==> n in order
    ensures DependenciesFirst(g, order + [node])
  {
    var longer := order + [node];
    forall i, t | 0 <= i < |longer| && Edge(g, longer[i], t)
      ensures t in longer[..i]
    {
      if i < |order| {
        assert longer[..i] == order[..i];
      } else {
        assert longer[..i] == order;
      }
    }
  }

  lemma LastOut<T>(s: seq<T>)
    requires Distinct(s) && s != []
    ensures Distinct(s[..|s| - 1])
    ensures ToSet(s[..|s| - 1]) == ToSet(s) - {s[|s| - 1]}
  {
    assert s == s[..|s| - 1] + [s[|s| - 1]];
  }

  lemma FinishKeeps(g: Graph, t: Trail)
    requires Sound(g, t) && t.path != []
    requires var node := t.path[|t.path| - 1]; Explored(g, t, node, |Targets(g, node)|)
    ensures Sound(g, t.Finish())
    ensures ToSet(t.Finish().path) == ToSet(t.path) - {t.path[|t.path| - 1]}
  {
    var t' := t.Finish();
    var node := t.path[|t.path| - 1];
    assert node in ToSet(t.path);
    assert node !in t.finished by {
      assert node in t.finished ==> node in ToSet(t.finished);
    }
    DistinctAppend(t.finished, node);
    ToSetAppend(t.finished, node);
    assert forall n :: Edge(g, node, n) ==> n in t.finished;
    FinishedOrder(g, t.finished, node);
    LastOut(t.path);
    assert ToSet(t'.path) == ToSet(t.path) - {node};
  }

  lemma TargetFinished(g: Graph, t: Trail, n: Name, d: Name)
    requires DependenciesFirst(g, t.finished)
    requires n in ToSet(t.finished) && Edge(g, n, d)
    ensures d in t.finished
  {
    var i :| 0 <= i < |t.finished| && t.finished[i] == n;
    assert Edge(g, t.finished[i], d);
    PrefixMember(t.finished[..i], t.finished, d);
  }

  /** Once every key has been entered and no call is in progress, the whole graph is finished. */
  lemma EverythingFinished(g: Graph, t: Trail)
    requires Sound(g, t) && t.path == []
    requires g.Keys <= ToSet(t.entered)
    ensures TopologicalOrder(g, t.finished)
    ensures ToSet(t.entered) == Nodes(g)
    ensures ToSet(t.examined) == Slots(g)
  {
    assert ToSet(t.path) == {};
    assert ToSet(t.entered) == ToSet(t.finished);
    forall n, d | n in g && d in g[n]
      ensures d in t.finished
    {
      TargetFinished(g, t, n, d);
    }
    assert Nodes(g) <= ToSet(t.finished);
    forall n, i: nat | n in g && 0 <= i < |g[n]|
      ensures (n, i) in t.examined
    {
      assert n in ToSet(t.finished) && i < |Targets(g, n)|;
    }
    assert Slots(g) <= ToSet(t.examined);
  }

  /** The sets the search mutates; `trail` is the ghost record they are an image of. */
  class DepthFirstSearch {
    const graph: Graph
    var visited: set<Name>
    var recStack: set<Name>
    ghost var trail: Trail

    constructor (graph: Graph)
      ensures Valid() && this.graph == graph && trail == START
    {
      this.graph := graph;
      visited, recStack, trail := {}, {}, START;
    }

    ghost predicate Valid()
      reads this
    {
      && Sound(graph, trail)
      && visited == ToSet(trail.entered)
      && recStack == ToSet(trail.path)
    }

    method Dfs(node: Name) returns (found: bool)
      requires Valid()
      requires CanEnter(graph, trail, node)
      modifies this
      ensures Affordable(graph, trail)
      ensures found ==> Cyclic(graph)
      ensures !found ==> Valid() && trail.path == old(trail.path)
      ensures !found ==> node in visited && Continues(old(trail), trail)
      decreases Nodes(graph) - visited
    {
      EnterKeeps(graph, trail, node);
      EnteredUnexplored(graph, trail, node);
      visited := visited + {node};
      recStack := recStack + {node};
      trail := trail.Enter(node);

      var neighbors := Targets(graph, node);
      for i := 0 to |neighbors|
        invariant Valid() && Explored(graph, trail, node, i)
        invariant trail.path == old(trail.path) + [node]
        invariant Continues(old(trail), trail) && old(visited) + {node} <= visited
      {
        var neighbor := neighbors[i];
        EdgeStaysInside(graph, node, neighbor);
        ghost var before := trail;
        ExamineKeeps(graph, trail, node, i);
        trail := trail.Examine(node, i);
        if neighbor !in visited {
          var deeper := Dfs(neighbor);
          if deeper {
            return true;
          }
          assert neighbor in visited - recStack;
        } else if neighbor in recStack {
          BackEdgeClosesCycle(graph, trail.path, neighbor);
          return true;
        }
        assert neighbor in ToSet(trail.finished);
        ExploredOneMore(graph, before, trail, node, i);
        ContinuesPast(old(trail), before, trail, node, i);
      }
      FinishKeeps(graph, trail);
      recStack := recStack - {node};
      trail := trail.Finish();
      return false;
    }
  }
}
