/**
 * Queries on the flow graph: the two tests on call nodes, and the search
 * for the reads of a named function's name, which explores the nodes
 * reachable from the entry of the function that declares it, descending
 * into nested functions that do not rebind the name as a parameter.
 */
module FlowgraphUtils {
  import opened Wrappers
  import opened Graphs
  import opened FunctionTree

  /** `isMethodCallWithStaticProperty`: no function register (-1) and a property name. */
  predicate IsMethodCallWithStaticProperty(callNode: Node)
    requires callNode.Call?
  {
    callNode.functionRegister == -1 && callNode.propertyString.Some?
  }

  /** `isTAJSInternal`: a synthetic source location or a TAJS function name. */
  predicate IsTAJSInternal(callNode: Node)
    requires callNode.Call?
  {
    callNode.synthetic || callNode.tajsFunctionName.Some?
  }

  /** Every node of the flow graph. */
  function AllNodes(g: FlowGraph): (r: set<NodeRef>)
    ensures forall n :: n in r <==> ValidNode(g, n)
  {
    set f, i | 0 <= f < |g.functions| && 0 <= i < |g.functions[f].nodes| :: NodeRef(f, i)
  }

  /** A read of the variable `name`. */
  predicate IsReadOf(g: FlowGraph, n: NodeRef, name: string) {
    ValidNode(g, n) && NodeAt(g, n).ReadVariable? && NodeAt(g, n).varName == name
  }

  /**
   * The search moves from `m` to `s` when `s` is a successor of `m`, or when
   * `m` declares a function that has no parameter `name` and `s` is that
   * function's entry.
   */
  predicate Explores(g: FlowGraph, name: string, m: NodeRef, s: NodeRef)
    requires WellFormed(g)
  {
    ValidNode(g, m) && ValidNode(g, s)
    && (s in Successors(g, m)
        || (NodeAt(g, m).DeclareFunction?
            && NodeAt(g, m).declared < |g.functions|
            && name !in g.functions[NodeAt(g, m).declared].parameterNames
            && s == EntryOf(g, NodeAt(g, m).declared)))
  }

  ghost function ExplorationEdges(g: FlowGraph, name: string): set<(NodeRef, NodeRef)>
    requires WellFormed(g)
  {
    set m, s | m in AllNodes(g) && s in AllNodes(g) && Explores(g, name, m, s) :: (m, s)
  }

  /** Appends the elements of a set to a work queue, in some order. */
  method EnqueueAll(queue: seq<NodeRef>, nodes: set<NodeRef>) returns (queue': seq<NodeRef>)
    ensures forall x :: x in queue' <==> x in queue || x in nodes
  {
    queue' := queue;
    var rest := nodes;
    while rest != {}
      invariant rest <= nodes
      invariant forall x :: x in queue' <==> x in queue || x in nodes - rest
      decreases rest
    {
      var x :| x in rest;
      queue' := queue' + [x];
      rest := rest - {x};
    }
  }

  /** Where the search for the reads of a named function's name starts: the entry of the function that declares it. */
  function SearchStart(g: FlowGraph, f: FunctionId): (r: NodeRef)
    requires WellFormed(g) && ValidFunction(g, f) && g.functions[f].name.Some?
    ensures ValidNode(g, r) && g.functions[f].outer == Some(r.func) && r.index == 0
  {
    assert FunctionWellFormed(g, f);
    EntryOf(g, g.functions[f].outer.value)
  }

  /**
   * One step of the search at a node not visited before: the entry of a
   * declared function that does not rebind the name, and then the
   * successors, join the queue.
   */
  method ExploreFrom(g: FlowGraph, functionName: string, ghost start: NodeRef, nextElem: NodeRef, queue: seq<NodeRef>)
    returns (queue': seq<NodeRef>)
    requires WellFormed(g) && ValidNode(g, nextElem)
    requires Reachable(ExplorationEdges(g, functionName), start, nextElem)
    requires forall x :: x in queue ==> ValidNode(g, x) && Reachable(ExplorationEdges(g, functionName), start, x)
    ensures forall x :: x in queue' ==> ValidNode(g, x) && Reachable(ExplorationEdges(g, functionName), start, x)
    ensures forall e :: e in ExplorationEdges(g, functionName) && e.0 == nextElem ==> e.1 in queue'
    ensures forall x :: x in queue ==> x in queue'
  {
    ghost var E := ExplorationEdges(g, functionName);
    queue' := queue;
    var node := NodeAt(g, nextElem);
    if !(node.ReadVariable? && node.varName == functionName) && node.DeclareFunction? {
      assert FunctionWellFormed(g, nextElem.func);
      if functionName !in g.functions[node.declared].parameterNames {
        var entry := EntryOf(g, node.declared);
        assert Explores(g, functionName, nextElem, entry);
        ReachableStep(E, start, nextElem, entry);
        queue' := queue' + [entry];
      }
    }
    var successors := Successors(g, nextElem);
    forall s | s in successors
      ensures Reachable(E, start, s)
    {
      assert Explores(g, functionName, nextElem, s);
      ReachableStep(E, start, nextElem, s);
    }
    queue' := EnqueueAll(queue', successors);
    forall e | e in E && e.0 == nextElem
      ensures e.1 in queue'
    {
      assert Explores(g, functionName, e.0, e.1);
    }
  }

  /**
   * What holds between steps of the search from `start`: everything visited
   * or queued is reachable, the start has been reached, the edges out of
   * visited nodes lead to visited or queued nodes, and the references are
   * the visited reads of the name.
   */
  ghost predicate SearchState(g: FlowGraph, functionName: string, start: NodeRef, queue: seq<NodeRef>,
                              visited: set<NodeRef>, references: set<NodeRef>)
    requires WellFormed(g)
  {
    var E := ExplorationEdges(g, functionName);
    visited <= AllNodes(g)
    && (start in visited || start in queue)
    && (forall x :: x in visited ==> Reachable(E, start, x))
    && (forall x :: x in queue ==> ValidNode(g, x) && Reachable(E, start, x))
    && (forall e :: e in E && e.0 in visited ==> e.1 in visited || e.1 in queue)
    && (forall n :: n in references <==> n in visited && IsReadOf(g, n, functionName))
  }

  /** One turn of the search loop: take the head of the queue and, unless it was visited, visit it. */
  method VisitNext(g: FlowGraph, functionName: string, ghost start: NodeRef, queue: seq<NodeRef>,
                   visited: set<NodeRef>, references: set<NodeRef>)
    returns (queue': seq<NodeRef>, visited': set<NodeRef>, references': set<NodeRef>)
    requires WellFormed(g) && queue != [] && SearchState(g, functionName, start, queue, visited, references)
    ensures SearchState(g, functionName, start, queue', visited', references')
    ensures (visited' == visited && |queue'| < |queue|) || |AllNodes(g) - visited'| < |AllNodes(g) - visited|
  {
    ghost var E := ExplorationEdges(g, functionName);
    var nextElem := queue[0];
    var rest := queue[1..];
    assert queue == [nextElem] + rest;
    if nextElem in visited {
      forall e | e in E && e.0 in visited
        ensures e.1 in visited || e.1 in rest
      {
        assert e.1 in visited || e.1 in queue;
      }
      return rest, visited, references;
    }
    queue', visited', references' := Visit(g, functionName, start, nextElem, rest, visited, references);
  }

  /** Visiting a node not visited before: it is recorded when it reads the name, and the nodes it leads to join the queue. */
  method Visit(g: FlowGraph, functionName: string, ghost start: NodeRef, nextElem: NodeRef, rest: seq<NodeRef>,
               visited: set<NodeRef>, references: set<NodeRef>)
    returns (queue': seq<NodeRef>, visited': set<NodeRef>, references': set<NodeRef>)
    requires WellFormed(g) && nextElem !in visited
    requires SearchState(g, functionName, start, [nextElem] + rest, visited, references)
    ensures SearchState(g, functionName, start, queue', visited', references')
    ensures |AllNodes(g) - visited'| < |AllNodes(g) - visited|
  {
    ghost var E := ExplorationEdges(g, functionName);
    var queue := [nextElem] + rest;
    assert nextElem in queue;
    CardinalityDrops(AllNodes(g), visited, nextElem);
    visited' := visited + {nextElem};
    var node := NodeAt(g, nextElem);
    references' := references;
    if node.ReadVariable? && node.varName == functionName {
      references' := references + {nextElem};
    }
    assert forall x :: x in rest ==> x in queue;
    queue' := ExploreFrom(g, functionName, start, nextElem, rest);
    forall e | e in E && e.0 in visited'
      ensures e.1 in visited' || e.1 in queue'
    {
      if e.0 != nextElem {
        assert e.1 in visited || e.1 in queue;
      }
    }
    assert start in visited' || start in queue';
    assert forall x :: x in visited' ==> Reachable(E, start, x);
    assert forall n :: n in references' <==> n in visited' && IsReadOf(g, n, functionName);
  }

  /**
   * `findReferencesToFunctionName`: no references for an unnamed function;
   * otherwise exactly the reads of the function's name among the nodes the
   * search reaches from the entry of the declaring function. Each node is
   * processed once.
   */
  method FindReferencesToFunctionName(g: FlowGraph, f: FunctionId) returns (references: set<NodeRef>)
    requires WellFormed(g) && ValidFunction(g, f)
    ensures g.functions[f].name.None? ==> references == {}
    ensures g.functions[f].name.Some? ==>
      forall n :: n in references <==>
        IsReadOf(g, n, g.functions[f].name.value)
        && Reachable(ExplorationEdges(g, g.functions[f].name.value), SearchStart(g, f), n)
  {
    if g.functions[f].name.None? {
      return {};
    }
    var functionName := g.functions[f].name.value;
    ghost var E := ExplorationEdges(g, functionName);
    var start := SearchStart(g, f);
    references := {};
    var queue := [start];
    var visited: set<NodeRef> := {};
    ReachableRefl(E, start);
    while queue != []
      invariant SearchState(g, functionName, start, queue, visited, references)
      decreases |AllNodes(g) - visited|, |queue|
    {
      queue, visited, references := VisitNext(g, functionName, start, queue, visited, references);
    }
    forall n | IsReadOf(g, n, functionName) && Reachable(E, start, n)
      ensures n in references
    {
      assert ClosedUnder(E, visited);
      ClosedSetContainsReachable(E, visited, start, n);
    }
  }
}
