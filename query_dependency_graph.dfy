/**
 * Bookkeeping of which queries depend on which, so that the errors raised
 * while answering any query a given query depends on, directly or
 * transitively, can be reported with it.
 */
module QueryDependencies {
  import opened Wrappers
  import opened Graphs
  import opened Ir

  /**
   * An error raised while a query was answered. Java compares exceptions by
   * reference, so `id` stands for the object's identity: two exceptions with
   * the same message but different ids are different elements of a set.
   */
  datatype Exception = Exception(id: nat, message: string)

  /** `QueryNode`: a query and the errors raised while answering it; nodes are compared by identity. */
  class QueryNode {
    const query: Query
    var errors: set<Exception>

    constructor(query: Query)
      ensures this.query == query && errors == {}
    {
      this.query := query;
      errors := {};
    }

    /** `registerError`. */
    method RegisterError(error: Exception)
      modifies this
      ensures errors == old(errors) + {error}
      ensures error in errors
    {
      errors := errors + {error};
    }

    /** `getQuery`: the query given to the constructor. */
    function GetQuery(): (q: Query)
      ensures q == query
    {
      query
    }
  }

  /** Two distinct exceptions with the same message are both kept: errors are a set by identity. */
  method RegisterSameMessageTwice(node: QueryNode, message: string)
    requires node.errors == {}
    modifies node
    ensures |node.errors| == 2
  {
    node.RegisterError(Exception(0, message));
    node.RegisterError(Exception(1, message));
    assert node.errors == {Exception(0, message), Exception(1, message)};
  }

  /** Registering the same error twice leaves the errors as after the first time. */
  method RegisterErrorTwice(node: QueryNode, error: Exception)
    modifies node
    ensures node.errors == old(node.errors) + {error}
  {
    node.RegisterError(error);
    ghost var once := node.errors;
    node.RegisterError(error);
    assert node.errors == once;
  }

  /** The result of `errorsImpactingQuery`: for each query of a node in `nodes` that has errors, that node's errors. */
  ghost predicate IsErrorMap(r: map<Query, set<Exception>>, nodes: set<QueryNode>)
    reads nodes
  {
    (forall m :: m in nodes && m.errors != {} ==> m.query in r)
    && (forall q :: q in r ==> exists m :: m in nodes && m.errors != {} && m.query == q && r[q] == m.errors)
  }

  /** Recording the errors of one more visited node keeps the error map exact. */
  lemma ErrorMapStep(r: map<Query, set<Exception>>, done: set<QueryNode>, m: QueryNode)
    requires IsErrorMap(r, done) && forall q :: q in r ==> r[q] != {}
    ensures var r' := if m.errors != {} then r[m.query := m.errors] else r;
      IsErrorMap(r', done + {m}) && forall q :: q in r' ==> r'[q] != {}
  {
  }

  class QueryDependencyGraph {
    /** The vertices of `theGraph`. */
    var vertices: set<QueryNode>
    /** The edges of `theGraph`: a query and a query it depends on. */
    var edges: set<(QueryNode, QueryNode)>

    ghost predicate Valid()
      reads this
    {
      forall e :: e in edges ==> e.0 in vertices && e.1 in vertices
    }

    constructor()
      ensures Valid() && vertices == {} && edges == {}
    {
      vertices := {};
      edges := {};
    }

    /** `ensureVertexInGraph`: adds the node if missing and returns it. */
    method EnsureVertexInGraph(node: QueryNode) returns (r: QueryNode)
      requires Valid()
      modifies this
      ensures Valid()
      ensures r == node
      ensures vertices == old(vertices) + {node} && edges == old(edges)
    {
      if node !in vertices {
        vertices := vertices + {node};
      }
      r := node;
    }

    /** `addDependency`: both ends become vertices and the edge is present once. */
    method AddDependency(from: QueryNode, to: QueryNode)
      requires Valid()
      modifies this
      ensures Valid()
      ensures vertices == old(vertices) + {from, to}
      ensures edges == old(edges) + {(from, to)}
    {
      var source := EnsureVertexInGraph(from);
      var dest := EnsureVertexInGraph(to);
      if (source, dest) !in edges {
        edges := edges + {(source, dest)};
      }
    }

    /** The vertices the breadth-first iteration from `start` visits: those reachable from it, itself included. */
    ghost function ReachableFrom(start: QueryNode): set<QueryNode>
      reads this
    {
      set m | m in vertices && Reachable(edges, start, m)
    }

    /**
     * `errorsImpactingQuery`: breadth-first from the node, records the
     * errors of every visited node that has some, keyed by its query. The
     * iteration rejects a start node that is not in the graph.
     */
    method ErrorsImpactingQuery(node: QueryNode) returns (r: Option<map<Query, set<Exception>>>)
      requires Valid()
      ensures node !in vertices <==> r.None?
      ensures r.Some? ==> IsErrorMap(r.value, ReachableFrom(node))
      ensures r.Some? ==> forall q :: q in r.value ==> r.value[q] != {}
    {
      if node !in vertices {
        return None;
      }
      var exceptions: map<Query, set<Exception>> := map[];
      var seen := {node};
      var queue := [node];
      ghost var done: set<QueryNode> := {};
      ReachableRefl(edges, node);
      while queue != []
        invariant SearchState(node, exceptions, seen, queue, done)
        decreases |vertices - seen|, |queue|
      {
        exceptions, seen, queue, done := VisitNext(node, exceptions, seen, queue, done);
      }
      assert ClosedUnder(edges, seen);
      forall m | m in vertices && Reachable(edges, node, m)
        ensures m in done
      {
        ClosedSetContainsReachable(edges, seen, node, m);
      }
      assert done == ReachableFrom(node);
      r := Some(exceptions);
    }

    /**
     * What holds between steps of the breadth-first iteration from `start`:
     * every node seen is reachable and either visited (`done`) or queued,
     * the successors of visited nodes are seen, and `exceptions` is the
     * error map of the visited nodes.
     */
    ghost predicate SearchState(start: QueryNode, exceptions: map<Query, set<Exception>>,
                                seen: set<QueryNode>, queue: seq<QueryNode>, done: set<QueryNode>)
      reads this, done
    {
      start in seen && seen <= vertices
      && (forall k :: 0 <= k < |queue| ==> queue[k] in seen)
      && (forall x :: x in seen ==> x in done || x in queue)
      && done <= seen
      && (forall m :: m in seen ==> Reachable(edges, start, m))
      && (forall e :: e in edges && e.0 in done ==> e.1 in seen)
      && IsErrorMap(exceptions, done)
      && (forall q :: q in exceptions ==> exceptions[q] != {})
    }

    /** One turn of `errorsImpactingQuery`'s loop: take the head of the queue, record its errors, queue its new successors. */
    method VisitNext(ghost start: QueryNode, exceptions: map<Query, set<Exception>>, seen: set<QueryNode>,
                     queue: seq<QueryNode>, ghost done: set<QueryNode>)
      returns (exceptions': map<Query, set<Exception>>, seen': set<QueryNode>, queue': seq<QueryNode>,
               ghost done': set<QueryNode>)
      requires Valid() && queue != [] && SearchState(start, exceptions, seen, queue, done)
      ensures SearchState(start, exceptions', seen', queue', done')
      ensures (seen' == seen && |queue'| < |queue|) || |vertices - seen'| < |vertices - seen|
    {
      var m := queue[0];
      assert queue == [m] + queue[1..];
      var rest := queue[1..];
      ErrorMapStep(exceptions, done, m);
      exceptions' := exceptions;
      if m.errors != {} {
        exceptions' := exceptions[m.query := m.errors];
      }
      done' := done + {m};
      seen', queue' := EnqueueUnseenSuccessors(start, m, seen, rest);
    }

    /** One step of the breadth-first iteration: the successors of `m` not seen yet join the queue. */
    method EnqueueUnseenSuccessors(ghost start: QueryNode, m: QueryNode, seen: set<QueryNode>, queue: seq<QueryNode>)
      returns (seen': set<QueryNode>, queue': seq<QueryNode>)
      requires Valid() && m in vertices && seen <= vertices
      requires forall x :: x in seen ==> Reachable(edges, start, x)
      requires Reachable(edges, start, m)
      requires forall k :: 0 <= k < |queue| ==> queue[k] in seen
      ensures seen <= seen' <= vertices
      ensures forall x :: x in queue ==> x in queue'
      ensures forall k :: 0 <= k < |queue'| ==> queue'[k] in seen'
      ensures forall x :: x in seen' ==> x in seen || x in queue'
      ensures forall x :: x in seen' ==> Reachable(edges, start, x)
      ensures forall e :: e in edges && e.0 == m ==> e.1 in seen'
      ensures seen' == seen ==> queue' == queue
      ensures seen' == seen || |vertices - seen'| < |vertices - seen|
    {
      var successors := set e | e in edges && e.0 == m :: e.1;
      seen', queue' := seen, queue;
      while successors != {}
        invariant seen <= seen' <= vertices
        invariant forall x :: x in queue ==> x in queue'
        invariant forall k :: 0 <= k < |queue'| ==> queue'[k] in seen'
        invariant forall x :: x in seen' ==> x in seen || x in queue'
        invariant forall x :: x in seen' ==> Reachable(edges, start, x)
        invariant forall e :: e in edges && e.0 == m ==> e.1 in seen' || e.1 in successors
        invariant forall x :: x in successors ==> (m, x) in edges
        invariant seen' == seen ==> queue' == queue
        invariant seen' == seen || |vertices - seen'| < |vertices - seen|
        decreases successors
      {
        var x :| x in successors;
        successors := successors - {x};
        if x !in seen' {
          ReachableStep(edges, start, m, x);
          CardinalityDrops(vertices, seen', x);
          SubsetCardinality(vertices, seen, seen');
          seen' := seen' + {x};
          queue' := queue' + [x];
        }
      }
    }

    /** `directDependenciesOf`: the queries of the direct successors; the graph rejects an unknown vertex. */
    function DirectDependenciesOf(node: QueryNode): (r: Option<set<Query>>)
      reads this
      ensures node !in vertices <==> r.None?
      ensures r.Some? ==> forall q :: q in r.value <==> exists e :: e in edges && e.0 == node && e.1.query == q
    {
      if node !in vertices then None
      else Some(set e | e in edges && e.0 == node :: e.1.query)
    }
  }
}
