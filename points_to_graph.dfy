/**
 * The points-to store: which allocation sites a (node, value) location may
 * point to, kept in two multimaps for lookup in both directions, plus a table
 * from (node, value) to the location object last created for it, whose flag
 * says whether the information at that location is complete.
 */
module PointsToGraphs {
  import opened FunctionTree
  import opened Multimaps
  import opened Ir

  /** A node and a value; equality ignores the completeness flag, which is kept in the table. */
  datatype PointsToLocation = PointsToLocation(location: NodeRef, value: Value)

  /** The two multimaps describe the same facts and hold only allocation sites. */
  ghost predicate IndexesAgree(pointsTo: map<PointsToLocation, set<Value>>, allocations: map<Value, set<PointsToLocation>>) {
    (forall ptl, a :: a in Get(pointsTo, ptl) <==> ptl in Get(allocations, a))
    && (forall a :: a in allocations ==> IsAllocation(a))
    && NoEmptyValues(pointsTo) && NoEmptyValues(allocations)
  }

  /** Recording a fact in both multimaps keeps them in agreement. */
  lemma AddKeepsIndexesAgreeing(pointsTo: map<PointsToLocation, set<Value>>, allocations: map<Value, set<PointsToLocation>>,
                                ptl: PointsToLocation, a: Value)
    requires IndexesAgree(pointsTo, allocations) && IsAllocation(a)
    ensures IndexesAgree(Put(pointsTo, ptl, a), Put(allocations, a, ptl))
  {
    forall ptl', a'
      ensures a' in Get(Put(pointsTo, ptl, a), ptl') <==> ptl' in Get(Put(allocations, a, ptl), a')
    {
      PutGet(pointsTo, ptl, a, ptl', a');
      PutGet(allocations, a, ptl, a', ptl');
    }
    PutKeepsValuesNonEmpty(pointsTo, ptl, a);
    PutKeepsValuesNonEmpty(allocations, a, ptl);
  }

  /** The location is a call node and its value is that call's own function register. */
  predicate IsCallOnOwnFunctionRegister(g: FlowGraph, ptl: PointsToLocation) {
    ValidNode(g, ptl.location) && NodeAt(g, ptl.location).Call? && ptl.value.Register?
    && NodeAt(g, ptl.location).functionRegister != -1
    && NodeAt(g, ptl.location).functionRegister == ptl.value.id
    && ptl.location.func == ptl.value.func
  }

  class PointsToGraph {
    /** `pointsToBackingMap`. */
    var pointsTo: map<PointsToLocation, set<Value>>
    /** `allocationBackingMap`. */
    var allocations: map<Value, set<PointsToLocation>>
    /** `ptlTable`: the completeness flag of the location object stored for each (node, value). */
    var table: map<PointsToLocation, bool>

    ghost predicate Valid()
      reads this
    {
      IndexesAgree(pointsTo, allocations)
    }

    constructor()
      ensures Valid()
      ensures pointsTo == map[] && allocations == map[] && table == map[]
    {
      pointsTo := map[];
      allocations := map[];
      table := map[];
    }

    /** `getPointsToSet(PointsToLocation)`. */
    function PointsToSet(ptl: PointsToLocation): (r: set<Value>)
      requires Valid()
      reads this
      ensures forall a :: a in r <==> ptl in Get(allocations, a)
    {
      Get(pointsTo, ptl)
    }

    /** `addPointsToFact(PointsToLocation, Allocation)`: the fact goes into both multimaps. */
    method AddPointsToFact(ptl: PointsToLocation, allocation: Value)
      requires Valid() && IsAllocation(allocation)
      modifies this
      ensures Valid()
      ensures pointsTo == Put(old(pointsTo), ptl, allocation)
      ensures allocations == Put(old(allocations), allocation, ptl)
      ensures table == old(table)
      ensures allocation in PointsToSet(ptl) && ptl in Get(allocations, allocation)
    {
      AddKeepsIndexesAgreeing(pointsTo, allocations, ptl, allocation);
      pointsTo := Put(pointsTo, ptl, allocation);
      allocations := Put(allocations, allocation, ptl);
    }

    /**
     * `addPointsToFact(Node, Value, Allocation)`: stores a fresh location
     * object in the table, replacing any earlier one and with it a completeness
     * mark, then adds the fact.
     */
    method AddPointsToFactAt(location: NodeRef, value: Value, allocation: Value)
      requires Valid() && IsAllocation(allocation)
      modifies this
      ensures Valid()
      ensures table == old(table)[PointsToLocation(location, value) := false]
      ensures pointsTo == Put(old(pointsTo), PointsToLocation(location, value), allocation)
      ensures allocations == Put(old(allocations), allocation, PointsToLocation(location, value))
      ensures PointsToLocation(location, value) in table && !IsLocationComplete(location, value)
    {
      var ptl := PointsToLocation(location, value);
      table := table[ptl := false];
      AddPointsToFact(ptl, allocation);
    }

    /** `markLocationComplete`: creates the table entry when absent, then sets its flag. */
    method MarkLocationComplete(location: NodeRef, value: Value)
      modifies this
      ensures table == old(table)[PointsToLocation(location, value) := true]
      ensures pointsTo == old(pointsTo) && allocations == old(allocations)
      ensures IsLocationComplete(location, value)
    {
      var ptl := PointsToLocation(location, value);
      if ptl !in table {
        table := table[ptl := false];
      }
      table := table[ptl := true];
    }

    /** `isLocationComplete`: false for a location the table does not know. */
    function IsLocationComplete(location: NodeRef, value: Value): (b: bool)
      reads this
      ensures PointsToLocation(location, value) !in table ==> !b
      ensures b ==> table[PointsToLocation(location, value)]
    {
      var ptl := PointsToLocation(location, value);
      ptl in table && table[ptl]
    }

    /**
     * `getKnownFunctionInvocations`: the call nodes whose own function
     * register may point to the function allocation.
     */
    function KnownFunctionInvocations(g: FlowGraph, functionAlloc: Value): (r: set<NodeRef>)
      requires Valid()
      reads this
      ensures forall n :: n in r <==>
        ValidNode(g, n) && NodeAt(g, n).Call? && NodeAt(g, n).functionRegister != -1
        && functionAlloc in PointsToSet(PointsToLocation(n, Register(NodeAt(g, n).functionRegister, n.func)))
    {
      set ptl | ptl in Get(allocations, functionAlloc) && IsCallOnOwnFunctionRegister(g, ptl) :: ptl.location
    }
  }
}
