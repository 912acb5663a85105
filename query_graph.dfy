/**
 * The graph of solvers started for a query and its subqueries. Before each
 * new edge it compares the vertex and edge counts; when they do not fit a
 * tree, it looks for the cycle the new edge would close and hands it to the
 * cycle-resolution strategy, which in the only strategy there is gives up by
 * throwing.
 */
module QueryGraphs {
  import opened Wrappers
  import opened Graphs

  /** `QueryEdge`: equality is by the two endpoints. */
  datatype QueryEdge<S> = QueryEdge(startVertex: S, endVertex: S)

  /**
   * How the search for the cycle ends: it finds the start of the new edge,
   * it runs out of vertices (`CycleConstructionFailedException`, caught), or
   * the graph rejects the end vertex as unknown.
   */
  datatype CycleSearch = CycleFound | ConstructionFailed | UnknownVertex

  /** The outcome of the search from the end of the new edge `(from, to)` back to its start. */
  ghost predicate IsCycleSearchOutcome<S>(nodes: set<S>, edges: set<(S, S)>, from: S, to: S, search: CycleSearch) {
    match search
    case CycleFound => to == from || (to in nodes && Reachable(edges, to, from))
    case UnknownVertex => to != from && to !in nodes
    case ConstructionFailed => to != from && to in nodes && !Reachable(edges, to, from)
  }

  /** Every pair of vertices and every new edge has exactly one search outcome. */
  lemma CycleSearchOutcomeExists<S>(nodes: set<S>, edges: set<(S, S)>, from: S, to: S)
    ensures exists search :: IsCycleSearchOutcome(nodes, edges, from, to, search)
  {
    if to == from || (to in nodes && Reachable(edges, to, from)) {
      assert IsCycleSearchOutcome(nodes, edges, from, to, CycleFound);
    } else if to !in nodes {
      assert IsCycleSearchOutcome(nodes, edges, from, to, UnknownVertex);
    } else {
      assert IsCycleSearchOutcome(nodes, edges, from, to, ConstructionFailed);
    }
  }

  class QueryGraph<S(==)> {
    var root: Option<S>
    /** The nodes of `backingGraph`. */
    var nodes: set<S>
    /** The edges of `backingGraph`, self-loops included. */
    var edges: set<(S, S)>

    ghost predicate Valid()
      reads this
    {
      forall e :: e in edges ==> e.0 in nodes && e.1 in nodes
    }

    constructor()
      ensures Valid() && root.None? && nodes == {} && edges == {}
    {
      root := None;
      nodes := {};
      edges := {};
    }

    /** `doesGraphHaveCycle`: the node count is not one more than the edge count. */
    function DoesGraphHaveCycle(): (b: bool)
      reads this
      ensures !b <==> |nodes| == |edges| + 1
    {
      |nodes| != |edges| + 1
    }

    /** `setRoot`: records the root and makes it a node. */
    method SetRoot(r: S)
      requires Valid()
      modifies this
      ensures Valid()
      ensures root == Some(r) && nodes == old(nodes) + {r} && edges == old(edges)
    {
      root := Some(r);
      nodes := nodes + {r};
    }

    /**
     * `addEdge`: when the counts do not fit a tree, the cycle search runs
     * first; a found cycle makes the strategy throw and an unknown vertex
     * makes the graph throw, and in both cases nothing is added. Otherwise
     * `putEdge` adds both ends and the edge. The result is whether an
     * exception left the method.
     */
    method AddEdge(from: S, to: S, search: CycleSearch) returns (thrown: bool)
      requires Valid()
      requires DoesGraphHaveCycle() ==> IsCycleSearchOutcome(nodes, edges, from, to, search)
      modifies this
      ensures Valid()
      ensures thrown <==> old(DoesGraphHaveCycle()) && search != ConstructionFailed
      ensures thrown ==> nodes == old(nodes) && edges == old(edges)
      ensures !thrown ==> nodes == old(nodes) + {from, to} && edges == old(edges) + {(from, to)}
      ensures root == old(root)
    {
      var edge := QueryEdge(from, to);
      if DoesGraphHaveCycle() {
        if search != ConstructionFailed {
          return true;
        }
      }
      nodes := nodes + {from, to};
      edges := edges + {(from, to)};
      return false;
    }
  }

  /**
   * The check looks at the graph before the new edge: on a tree-shaped
   * graph, an edge into a node that is already there, which closes a cycle
   * when that node reaches the edge's start, is accepted, and only the next
   * `addEdge` sees the counts disagree.
   */
  method EdgeClosingCycleIsAccepted<S(==)>(qg: QueryGraph<S>, from: S, to: S) returns (thrown: bool)
    requires qg.Valid() && from in qg.nodes && to in qg.nodes
    requires |qg.nodes| == |qg.edges| + 1 && (from, to) !in qg.edges
    modifies qg
    ensures !thrown && (from, to) in qg.edges
    ensures qg.DoesGraphHaveCycle()
  {
    thrown := qg.AddEdge(from, to, ConstructionFailed);
    assert qg.nodes == old(qg.nodes);
    assert |qg.edges| == |old(qg.edges)| + 1;
  }

  /** The singleton holder: `getInstance` creates a graph after `reset` dropped the old one. */
  class QueryGraphInstance<S(==)> {
    var instance: Option<QueryGraph<S>>

    constructor()
      ensures instance.Some? && fresh(instance.value)
      ensures instance.value.Valid() && instance.value.root.None?
      ensures instance.value.nodes == {} && instance.value.edges == {}
    {
      var g := new QueryGraph();
      instance := Some(g);
    }

    /** `getInstance`. */
    method GetInstance() returns (g: QueryGraph<S>)
      modifies this
      ensures instance == Some(g)
      ensures old(instance).Some? ==> g == old(instance).value
      ensures old(instance).None? ==> fresh(g) && g.Valid() && g.root.None? && g.nodes == {} && g.edges == {}
    {
      if instance.None? {
        var created := new QueryGraph();
        instance := Some(created);
      }
      g := instance.value;
    }

    /** `reset`. */
    method Reset()
      modifies this
      ensures instance.None?
    {
      instance := None;
    }
  }

  /** After `reset`, `getInstance` returns a new, empty graph. */
  method ResetThenGetInstance<S(==)>(holder: QueryGraphInstance<S>) returns (g: QueryGraph<S>)
    modifies holder
    ensures fresh(g) && g.Valid() && g.root.None? && g.nodes == {} && g.edges == {}
  {
    holder.Reset();
    g := holder.GetInstance();
  }
}
