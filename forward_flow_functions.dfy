/**
 * The intraprocedural rules of the forward flow functions: at a node, the
 * tracked value either flows on to every successor, is killed, or also
 * produces a new value at the successors. Also the inversion of a
 * node-to-nodes multimap.
 */
module ForwardFlowFunctions {
  import opened Wrappers
  import opened FunctionTree
  import opened Scopes
  import opened Ir
  import opened AbstractFlowFunctions

  /** The node kinds whose forward rule is modelled. */
  predicate ForwardModelled(node: Node) {
    node.BinaryOperator? || node.UnaryOperator? || node.ReadVariable? || node.WriteVariable?
  }

  /** The variable a read or write of `name` in function `f` refers to. */
  function AccessedVariable(g: FlowGraph, name: string, f: FunctionId): Value
    requires WellFormed(g) && ValidFunction(g, f)
  {
    Var(VariableOf(g, name, DeclaringScope(g, name, f)))
  }

  /** Whether the value stored by a write of register `valueRegister` is `q`: the register itself, or an object allocation with that result register id. */
  predicate WritesQueryValue(q: Value, valueRegister: int, f: FunctionId) {
    q == Register(valueRegister, f) || (q.ObjectAllocation? && q.resultRegister == valueRegister)
  }

  /** The states the forward rule at `n` produces for the tracked value `q`. */
  function ForwardNormalFlow(g: FlowGraph, n: NodeRef, q: Value): (r: set<State>)
    requires WellFormed(g) && ValidNode(g, n) && ForwardModelled(NodeAt(g, n))
    ensures forall s :: s in r ==> s.node in Successors(g, n)
  {
    var succ := Successors(g, n);
    match NodeAt(g, n)
    case BinaryOperator(_, arg1, arg2) =>
      if q == Register(arg1, n.func) || q == Register(arg2, n.func) then {} else StatesAt(succ, q)
    case UnaryOperator(_, arg) =>
      if q == Register(arg, n.func) then {} else StatesAt(succ, q)
    case ReadVariable(name, result) =>
      (if q != Register(result, n.func) then StatesAt(succ, q) else {})
      + (if q == AccessedVariable(g, name, n.func) then StatesAt(succ, Register(result, n.func)) else {})
    case WriteVariable(name, valueRegister) =>
      var write := AccessedVariable(g, name, n.func);
      (if q != write then StatesAt(succ, q) else {})
      + (if WritesQueryValue(q, valueRegister, n.func) then StatesAt(succ, write) else {})
  }

  /** Binary operator: a value equal to either argument register is killed; any other value reaches every successor unchanged. */
  lemma BinaryOperatorForward(g: FlowGraph, n: NodeRef, q: Value)
    requires WellFormed(g) && ValidNode(g, n) && NodeAt(g, n).BinaryOperator?
    ensures forall s :: s in ForwardNormalFlow(g, n, q) <==>
      s.node in Successors(g, n) && s.value == q
      && q != Register(NodeAt(g, n).arg1Register, n.func) && q != Register(NodeAt(g, n).arg2Register, n.func)
  {
  }

  /** Unary operator: the argument register is killed, every other value reaches every successor unchanged. */
  lemma UnaryOperatorForward(g: FlowGraph, n: NodeRef, q: Value)
    requires WellFormed(g) && ValidNode(g, n) && NodeAt(g, n).UnaryOperator?
    ensures forall s :: s in ForwardNormalFlow(g, n, q) <==>
      s.node in Successors(g, n) && s.value == q && q != Register(NodeAt(g, n).argRegister, n.func)
  {
  }

  /**
   * Read of a variable: the result register is killed; every other value
   * reaches every successor unchanged; when the tracked value is the
   * variable read, the result register is produced at every successor
   * besides the variable itself. Nothing else is produced.
   */
  lemma ReadVariableForward(g: FlowGraph, n: NodeRef, q: Value)
    requires WellFormed(g) && ValidNode(g, n) && NodeAt(g, n).ReadVariable?
    ensures var result, read := Register(NodeAt(g, n).resultRegister, n.func), AccessedVariable(g, NodeAt(g, n).varName, n.func);
      forall s :: s in ForwardNormalFlow(g, n, q) <==>
        s.node in Successors(g, n) && ((s.value == q && q != result) || (q == read && s.value == result))
    ensures q == Register(NodeAt(g, n).resultRegister, n.func) ==> ForwardNormalFlow(g, n, q) == {}
    ensures q == AccessedVariable(g, NodeAt(g, n).varName, n.func) ==>
      forall s :: s in Successors(g, n) ==>
        State(s, q) in ForwardNormalFlow(g, n, q)
        && State(s, Register(NodeAt(g, n).resultRegister, n.func)) in ForwardNormalFlow(g, n, q)
    ensures forall s :: s in ForwardNormalFlow(g, n, q) ==>
      s.value == q || (q == AccessedVariable(g, NodeAt(g, n).varName, n.func) && s.value == Register(NodeAt(g, n).resultRegister, n.func))
  {
  }

  /**
   * Write of a variable: the written variable is killed; every other value
   * reaches every successor unchanged; when the tracked value is the stored
   * register (or an allocation whose result register has its id), the
   * variable is produced at every successor. Nothing else is produced.
   */
  lemma WriteVariableForward(g: FlowGraph, n: NodeRef, q: Value)
    requires WellFormed(g) && ValidNode(g, n) && NodeAt(g, n).WriteVariable?
    ensures var write := AccessedVariable(g, NodeAt(g, n).varName, n.func);
      forall s :: s in ForwardNormalFlow(g, n, q) <==>
        s.node in Successors(g, n)
        && ((s.value == q && q != write) || (WritesQueryValue(q, NodeAt(g, n).valueRegister, n.func) && s.value == write))
    ensures q == AccessedVariable(g, NodeAt(g, n).varName, n.func) ==> ForwardNormalFlow(g, n, q) == {}
    ensures WritesQueryValue(q, NodeAt(g, n).valueRegister, n.func) ==>
      forall s :: s in Successors(g, n) ==>
        State(s, q) in ForwardNormalFlow(g, n, q)
        && State(s, AccessedVariable(g, NodeAt(g, n).varName, n.func)) in ForwardNormalFlow(g, n, q)
  {
  }

  /** A forward flow-function instance: one transfer at one node for one tracked value. */
  class ForwardFlowFunctions {
    const g: FlowGraph
    /** `context.queryValue()`. */
    const queryValue: Value
    const nextStates: StateSet
    var transferApplied: bool

    ghost predicate Valid()
      reads this, nextStates
    {
      WellFormed(g) && (!transferApplied ==> nextStates.elements == {})
    }

    constructor(g: FlowGraph, queryValue: Value)
      requires WellFormed(g)
      ensures Valid() && !transferApplied && fresh(nextStates)
      ensures this.g == g && this.queryValue == queryValue
    {
      this.g := g;
      this.queryValue := queryValue;
      nextStates := new StateSet();
      transferApplied := false;
    }

    /** `computeNextStates`: applies the rule of the node once and returns the states it produced. */
    method ComputeNextStates(n: NodeRef) returns (r: set<State>)
      requires Valid() && !transferApplied && ValidNode(g, n) && ForwardModelled(NodeAt(g, n))
      modifies this, nextStates
      ensures Valid() && transferApplied
      ensures r == nextStates.elements && r == ForwardNormalFlow(g, n, queryValue)
    {
      transferApplied := true;
      match NodeAt(g, n) {
        case BinaryOperator(_, _, _) => VisitBinaryOperator(n);
        case UnaryOperator(_, _) => VisitUnaryOperator(n);
        case ReadVariable(_, _) => VisitReadVariable(n);
        case WriteVariable(_, _) => VisitWriteVariable(n);
      }
      r := nextStates.elements;
    }

    /** `addStandardNormalFlowToNext`: the tracked value at every successor. */
    method AddStandardNormalFlowToNext(n: NodeRef)
      requires WellFormed(g) && ValidNode(g, n)
      modifies nextStates
      ensures nextStates.elements == old(nextStates.elements) + StatesAt(Successors(g, n), queryValue)
    {
      nextStates.AddAtEach(Successors(g, n), queryValue);
    }

    /** `genSingleNormalFlow`: the value `v` at every successor. */
    method GenSingleNormalFlow(n: NodeRef, v: Value)
      requires WellFormed(g) && ValidNode(g, n)
      modifies nextStates
      ensures nextStates.elements == old(nextStates.elements) + StatesAt(Successors(g, n), v)
    {
      nextStates.AddAtEach(Successors(g, n), v);
    }

    /** `treatAsNop`: the tracked value at every successor and nothing else. */
    method TreatAsNop(n: NodeRef)
      requires WellFormed(g) && ValidNode(g, n)
      modifies nextStates
      ensures nextStates.elements == old(nextStates.elements) + StatesAt(Successors(g, n), queryValue)
    {
      AddStandardNormalFlowToNext(n);
    }

    method VisitBinaryOperator(n: NodeRef)
      requires WellFormed(g) && ValidNode(g, n) && NodeAt(g, n).BinaryOperator?
      modifies nextStates
      ensures nextStates.elements == old(nextStates.elements) + ForwardNormalFlow(g, n, queryValue)
    {
      var node := NodeAt(g, n);
      var killed := {Register(node.arg1Register, n.func), Register(node.arg2Register, n.func)};
      if queryValue !in killed {
        AddStandardNormalFlowToNext(n);
      }
    }

    method VisitUnaryOperator(n: NodeRef)
      requires WellFormed(g) && ValidNode(g, n) && NodeAt(g, n).UnaryOperator?
      modifies nextStates
      ensures nextStates.elements == old(nextStates.elements) + ForwardNormalFlow(g, n, queryValue)
    {
      var argRegister := Register(NodeAt(g, n).argRegister, n.func);
      if queryValue != argRegister {
        AddStandardNormalFlowToNext(n);
      }
    }

    method VisitReadVariable(n: NodeRef)
      requires WellFormed(g) && ValidNode(g, n) && NodeAt(g, n).ReadVariable?
      modifies nextStates
      ensures nextStates.elements == old(nextStates.elements) + ForwardNormalFlow(g, n, queryValue)
    {
      var node := NodeAt(g, n);
      var result := Register(node.resultRegister, n.func);
      var scope := GetDeclaringScope(g, node.varName, n.func);
      var read := Var(VariableOf(g, node.varName, scope));
      if queryValue != result {
        AddStandardNormalFlowToNext(n);
      }
      if queryValue == read {
        GenSingleNormalFlow(n, result);
      }
    }

    /** The flow into closures that capture the written variable is not part of this model. */
    method VisitWriteVariable(n: NodeRef)
      requires WellFormed(g) && ValidNode(g, n) && NodeAt(g, n).WriteVariable?
      modifies nextStates
      ensures nextStates.elements == old(nextStates.elements) + ForwardNormalFlow(g, n, queryValue)
    {
      var node := NodeAt(g, n);
      var argRegister := Register(node.valueRegister, n.func);
      var scope := GetDeclaringScope(g, node.varName, n.func);
      var write := Var(VariableOf(g, node.varName, scope));
      if queryValue != write {
        AddStandardNormalFlowToNext(n);
      }
      if queryValue == argRegister || (queryValue.ObjectAllocation? && queryValue.resultRegister == node.valueRegister) {
        GenSingleNormalFlow(n, write);
      }
    }
  }

  /**
   * `invertMapping`: `k` is in the inverse set of `v` exactly when `v` is in
   * the set of `k`, and the keys of the inverse are exactly the nodes that
   * occur in some set.
   */
  method InvertMapping(multimap: map<NodeRef, set<NodeRef>>) returns (inverse: map<NodeRef, set<NodeRef>>)
    ensures forall v, k :: v in inverse && k in inverse[v] <==> k in multimap && v in multimap[k]
    ensures forall v :: v in inverse <==> exists k :: k in multimap && v in multimap[k]
  {
    inverse := map[];
    ghost var pairs: set<(NodeRef, NodeRef)> := {};
    var keys := multimap.Keys;
    while keys != {}
      invariant keys <= multimap.Keys
      invariant forall k, v :: (k, v) in pairs <==> k in multimap && k !in keys && v in multimap[k]
      invariant forall k, v :: (k, v) in pairs <==> v in inverse && k in inverse[v]
      invariant forall v :: v in inverse ==> inverse[v] != {}
      decreases keys
    {
      var key :| key in keys;
      var values := multimap[key];
      while values != {}
        invariant values <= multimap[key]
        invariant forall k, v :: (k, v) in pairs <==>
          k in multimap && ((k !in keys && v in multimap[k]) || (k == key && v in multimap[key] && v !in values))
        invariant forall k, v :: (k, v) in pairs <==> v in inverse && k in inverse[v]
        invariant forall v :: v in inverse ==> inverse[v] != {}
        decreases values
      {
        var value :| value in values;
        if value in inverse {
          inverse := inverse[value := inverse[value] + {key}];
        } else {
          inverse := inverse[value := {key}];
        }
        pairs := pairs + {(key, value)};
        values := values - {value};
      }
      keys := keys - {key};
    }
    forall v | v in inverse
      ensures exists k :: k in multimap && v in multimap[k]
    {
      var k :| k in inverse[v];
      assert (k, v) in pairs;
    }
  }
}
