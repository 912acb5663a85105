/**
 * The shared state of the solvers: one points-to graph, one call graph, and
 * the stack of solvers currently running, innermost on top.
 */
module SolverFactory {
  import opened Wrappers
  import opened CallGraphs
  import opened PointsToGraphs

  class MerlinSolverFactory<S> {
    var pointsToGraph: PointsToGraph
    var callGraph: CallGraph
    /** `activeSolverStack`, top first. */
    var activeSolverStack: seq<S>

    constructor()
      ensures fresh(pointsToGraph) && fresh(callGraph) && activeSolverStack == []
      ensures pointsToGraph.Valid() && pointsToGraph.pointsTo == map[] && pointsToGraph.table == map[]
      ensures callGraph.Valid() && callGraph.edgeSet == {}
    {
      pointsToGraph := new PointsToGraph();
      callGraph := new CallGraph();
      activeSolverStack := [];
    }

    /** `addNewActiveSolver`: pushes the solver. */
    method AddNewActiveSolver(solver: S)
      modifies this
      ensures activeSolverStack == [solver] + old(activeSolverStack)
      ensures PeekCurrentActiveSolver() == Some(solver)
      ensures pointsToGraph == old(pointsToGraph) && callGraph == old(callGraph)
    {
      activeSolverStack := [solver] + activeSolverStack;
    }

    /** `removeCurrentActiveSolver`: pops the top solver; an empty stack throws, modelled as `None`. */
    method RemoveCurrentActiveSolver() returns (r: Option<S>)
      modifies this
      ensures old(activeSolverStack) == [] ==> r.None? && activeSolverStack == []
      ensures old(activeSolverStack) != [] ==>
        r == Some(old(activeSolverStack)[0]) && activeSolverStack == old(activeSolverStack)[1..]
      ensures pointsToGraph == old(pointsToGraph) && callGraph == old(callGraph)
    {
      if activeSolverStack == [] {
        return None;
      }
      r := Some(activeSolverStack[0]);
      activeSolverStack := activeSolverStack[1..];
    }

    /** `peekCurrentActiveSolver`: the top solver, `null` (here `None`) when there is none. */
    function PeekCurrentActiveSolver(): (r: Option<S>)
      reads this
      ensures r.None? <==> activeSolverStack == []
      ensures r.Some? ==> r.value == activeSolverStack[0] && r.value in activeSolverStack
    {
      if activeSolverStack == [] then None else Some(activeSolverStack[0])
    }

    /** `reset`: new, empty graphs and an empty stack. */
    method Reset()
      modifies this
      ensures fresh(pointsToGraph) && fresh(callGraph) && activeSolverStack == []
      ensures pointsToGraph.Valid() && pointsToGraph.pointsTo == map[] && pointsToGraph.table == map[]
      ensures callGraph.Valid() && callGraph.edgeSet == {}
    {
      pointsToGraph := new PointsToGraph();
      callGraph := new CallGraph();
      activeSolverStack := [];
    }
  }

  /** The stack is last-in, first-out: a pushed solver is the one popped next, and the stack is as before. */
  method PushThenPop<S>(factory: MerlinSolverFactory<S>, solver: S) returns (popped: Option<S>)
    modifies factory
    ensures popped == Some(solver)
    ensures factory.activeSolverStack == old(factory.activeSolverStack)
  {
    factory.AddNewActiveSolver(solver);
    popped := factory.RemoveCurrentActiveSolver();
  }
}
