/**
 * The intraprocedural rules of the backward flow functions: at a node, the
 * tracked value either flows back to every predecessor, is killed, or is
 * replaced by the values it was computed from.
 */
module BackwardFlowFunctions {
  import opened Wrappers
  import opened FunctionTree
  import opened Scopes
  import opened Ir
  import opened AbstractFlowFunctions

  /** The node kinds whose backward rule is modelled. */
  predicate BackwardModelled(node: Node) {
    node.BinaryOperator? || node.UnaryOperator? || node.NewObject? || node.DeclareFunction? || node.WriteVariable?
  }

  /** The variable a write of `name` in function `f` refers to. */
  function WrittenVariable(g: FlowGraph, name: string, f: FunctionId): Value
    requires WellFormed(g) && ValidFunction(g, f)
  {
    Var(VariableOf(g, name, DeclaringScope(g, name, f)))
  }

  /**
   * The value a function declaration defines: its result register, or,
   * when the declaration has none (result register -1), the variable named
   * after the declared function.
   */
  function DeclaredValue(g: FlowGraph, n: NodeRef): (r: Value)
    requires WellFormed(g) && ValidNode(g, n) && NodeAt(g, n).DeclareFunction?
    ensures NodeAt(g, n).resultRegister == -1 ==>
      r.Var? && NodeAt(g, n).declared < |g.functions| && g.functions[NodeAt(g, n).declared].name == Some(r.variable.varName)
    ensures NodeAt(g, n).resultRegister != -1 ==> r == Register(NodeAt(g, n).resultRegister, n.func)
  {
    assert FunctionWellFormed(g, n.func);
    var node := NodeAt(g, n);
    if node.resultRegister == -1 then WrittenVariable(g, g.functions[node.declared].name.value, n.func)
    else Register(node.resultRegister, n.func)
  }

  /** The states the backward rule at `n` produces for the tracked value `q`. */
  function BackwardNormalFlow(g: FlowGraph, n: NodeRef, q: Value): (r: set<State>)
    requires WellFormed(g) && ValidNode(g, n) && BackwardModelled(NodeAt(g, n))
    ensures forall s :: s in r ==> s.node in Predecessors(g, n)
  {
    var preds := Predecessors(g, n);
    match NodeAt(g, n)
    case BinaryOperator(result, arg1, arg2) =>
      if q != Register(result, n.func) then StatesAt(preds, q)
      else StatesAt(preds, Register(arg1, n.func)) + StatesAt(preds, Register(arg2, n.func))
    case UnaryOperator(result, arg) =>
      if q != Register(result, n.func) then StatesAt(preds, q) else StatesAt(preds, Register(arg, n.func))
    case NewObject(result) =>
      if q != Register(result, n.func) then StatesAt(preds, q) else {}
    case DeclareFunction(_, _) =>
      if q != DeclaredValue(g, n) then StatesAt(preds, q) else {}
    case WriteVariable(name, valueRegister) =>
      var write := WrittenVariable(g, name, n.func);
      (if q != write then StatesAt(preds, q) else {})
      + (if q == write then StatesAt(preds, Register(valueRegister, n.func)) else {})
  }

  /**
   * Binary operator: a tracked result register is replaced by both argument
   * registers at every predecessor; any other value flows back unchanged.
   */
  lemma BinaryOperatorBackward(g: FlowGraph, n: NodeRef, q: Value)
    requires WellFormed(g) && ValidNode(g, n) && NodeAt(g, n).BinaryOperator?
    ensures forall s :: s in BackwardNormalFlow(g, n, q) <==>
      s.node in Predecessors(g, n)
      && if q == Register(NodeAt(g, n).resultRegister, n.func)
         then s.value == Register(NodeAt(g, n).arg1Register, n.func) || s.value == Register(NodeAt(g, n).arg2Register, n.func)
         else s.value == q
  {
  }

  /** Unary operator: a tracked result register is replaced by the argument register and does not itself flow back. */
  lemma UnaryOperatorBackward(g: FlowGraph, n: NodeRef, q: Value)
    requires WellFormed(g) && ValidNode(g, n) && NodeAt(g, n).UnaryOperator?
    ensures forall s :: s in BackwardNormalFlow(g, n, q) <==>
      s.node in Predecessors(g, n)
      && s.value == (if q == Register(NodeAt(g, n).resultRegister, n.func) then Register(NodeAt(g, n).argRegister, n.func) else q)
    ensures q == Register(NodeAt(g, n).resultRegister, n.func) && NodeAt(g, n).argRegister != NodeAt(g, n).resultRegister ==>
      forall s :: s in BackwardNormalFlow(g, n, q) ==> s.value != q
  {
  }

  /** New object: the result register is killed, every other value flows back unchanged. */
  lemma NewObjectBackward(g: FlowGraph, n: NodeRef, q: Value)
    requires WellFormed(g) && ValidNode(g, n) && NodeAt(g, n).NewObject?
    ensures BackwardNormalFlow(g, n, q) == {} <==> q == Register(NodeAt(g, n).resultRegister, n.func) || Predecessors(g, n) == {}
    ensures q != Register(NodeAt(g, n).resultRegister, n.func) ==> BackwardNormalFlow(g, n, q) == StatesAt(Predecessors(g, n), q)
  {
    if q != Register(NodeAt(g, n).resultRegister, n.func) && Predecessors(g, n) != {} {
      var p :| p in Predecessors(g, n);
      assert State(p, q) in BackwardNormalFlow(g, n, q);
    }
  }

  /**
   * Function declaration: without a result register the variable named
   * after the function is killed, otherwise the result register is.
   */
  lemma DeclareFunctionBackward(g: FlowGraph, n: NodeRef, q: Value)
    requires WellFormed(g) && ValidNode(g, n) && NodeAt(g, n).DeclareFunction?
    ensures q == DeclaredValue(g, n) ==> BackwardNormalFlow(g, n, q) == {}
    ensures q != DeclaredValue(g, n) ==> BackwardNormalFlow(g, n, q) == StatesAt(Predecessors(g, n), q)
  {
  }

  /** Write of a variable: a tracked written variable is replaced by the stored register at every predecessor. */
  lemma WriteVariableBackward(g: FlowGraph, n: NodeRef, q: Value)
    requires WellFormed(g) && ValidNode(g, n) && NodeAt(g, n).WriteVariable?
    ensures forall s :: s in BackwardNormalFlow(g, n, q) <==>
      s.node in Predecessors(g, n)
      && s.value == (if q == WrittenVariable(g, NodeAt(g, n).varName, n.func) then Register(NodeAt(g, n).valueRegister, n.func) else q)
  {
  }

  /** A backward flow-function instance: one transfer at one node for one tracked value. */
  class BackwardFlowFunctions {
    const g: FlowGraph
    /** `context.queryValue()`. */
    const queryValue: Value
    const nextStates: StateSet
    var transferApplied: bool

    ghost predicate Valid()
      reads this, nextStates
    {
      WellFormed(g) && (!transferApplied ==> nextStates.elements == {})
    }

    constructor(g: FlowGraph, queryValue: Value)
      requires WellFormed(g)
      ensures Valid() && !transferApplied && fresh(nextStates)
      ensures this.g == g && this.queryValue == queryValue
    {
      this.g := g;
      this.queryValue := queryValue;
      nextStates := new StateSet();
      transferApplied := false;
    }

    /** `computeNextStates`: applies the rule of the node once and returns the states it produced. */
    method ComputeNextStates(n: NodeRef) returns (r: set<State>)
      requires Valid() && !transferApplied && ValidNode(g, n) && BackwardModelled(NodeAt(g, n))
      modifies this, nextStates
      ensures Valid() && transferApplied
      ensures r == nextStates.elements && r == BackwardNormalFlow(g, n, queryValue)
    {
      transferApplied := true;
      match NodeAt(g, n) {
        case BinaryOperator(_, _, _) => VisitBinaryOperator(n);
        case UnaryOperator(_, _) => VisitUnaryOperator(n);
        case NewObject(_) => VisitNewObject(n);
        case DeclareFunction(_, _) => VisitDeclareFunction(n);
        case WriteVariable(_, _) => VisitWriteVariable(n);
      }
      r := nextStates.elements;
    }

    /** `addNormalFlowToPreds`: the tracked value at every predecessor. */
    method AddNormalFlowToPreds(n: NodeRef)
      requires WellFormed(g) && ValidNode(g, n)
      modifies nextStates
      ensures nextStates.elements == old(nextStates.elements) + StatesAt(Predecessors(g, n), queryValue)
    {
      nextStates.AddAtEach(Predecessors(g, n), queryValue);
    }

    /** `genSingleNormalFlow`: the value `v` at every predecessor. */
    method GenSingleNormalFlow(n: NodeRef, v: Value)
      requires WellFormed(g) && ValidNode(g, n)
      modifies nextStates
      ensures nextStates.elements == old(nextStates.elements) + StatesAt(Predecessors(g, n), v)
    {
      nextStates.AddAtEach(Predecessors(g, n), v);
    }

    /** `treatAsNop`: the tracked value at every predecessor and nothing else. */
    method TreatAsNop(n: NodeRef)
      requires WellFormed(g) && ValidNode(g, n)
      modifies nextStates
      ensures nextStates.elements == old(nextStates.elements) + StatesAt(Predecessors(g, n), queryValue)
    {
      AddNormalFlowToPreds(n);
    }

    method VisitBinaryOperator(n: NodeRef)
      requires WellFormed(g) && ValidNode(g, n) && NodeAt(g, n).BinaryOperator?
      modifies nextStates
      ensures nextStates.elements == old(nextStates.elements) + BackwardNormalFlow(g, n, queryValue)
    {
      var node := NodeAt(g, n);
      var resultReg := Register(node.resultRegister, n.func);
      if queryValue != resultReg {
        AddNormalFlowToPreds(n);
      } else {
        GenSingleNormalFlow(n, Register(node.arg1Register, n.func));
        GenSingleNormalFlow(n, Register(node.arg2Register, n.func));
      }
    }

    method VisitUnaryOperator(n: NodeRef)
      requires WellFormed(g) && ValidNode(g, n) && NodeAt(g, n).UnaryOperator?
      modifies nextStates
      ensures nextStates.elements == old(nextStates.elements) + BackwardNormalFlow(g, n, queryValue)
    {
      var node := NodeAt(g, n);
      var resultReg := Register(node.resultRegister, n.func);
      if queryValue != resultReg {
        AddNormalFlowToPreds(n);
      } else {
        GenSingleNormalFlow(n, Register(node.argRegister, n.func));
      }
    }

    method VisitNewObject(n: NodeRef)
      requires WellFormed(g) && ValidNode(g, n) && NodeAt(g, n).NewObject?
      modifies nextStates
      ensures nextStates.elements == old(nextStates.elements) + BackwardNormalFlow(g, n, queryValue)
    {
      var resultReg := Register(NodeAt(g, n).resultRegister, n.func);
      if queryValue != resultReg {
        AddNormalFlowToPreds(n);
      }
    }

    method VisitDeclareFunction(n: NodeRef)
      requires WellFormed(g) && ValidNode(g, n) && NodeAt(g, n).DeclareFunction?
      modifies nextStates
      ensures nextStates.elements == old(nextStates.elements) + BackwardNormalFlow(g, n, queryValue)
    {
      assert FunctionWellFormed(g, n.func);
      var node := NodeAt(g, n);
      if node.resultRegister == -1 {
        var name := g.functions[node.declared].name.value;
        var scope := GetDeclaringScope(g, name, n.func);
        var newVar := Var(VariableOf(g, name, scope));
        if queryValue != newVar {
          AddNormalFlowToPreds(n);
        }
      } else {
        var resultReg := Register(node.resultRegister, n.func);
        if queryValue != resultReg {
          AddNormalFlowToPreds(n);
        }
      }
    }

    method VisitWriteVariable(n: NodeRef)
      requires WellFormed(g) && ValidNode(g, n) && NodeAt(g, n).WriteVariable?
      modifies nextStates
      ensures nextStates.elements == old(nextStates.elements) + BackwardNormalFlow(g, n, queryValue)
    {
      var node := NodeAt(g, n);
      var argRegister := Register(node.valueRegister, n.func);
      var scope := GetDeclaringScope(g, node.varName, n.func);
      var write := Var(VariableOf(g, node.varName, scope));
      if queryValue != write {
        AddNormalFlowToPreds(n);
      }
      if queryValue == write {
        GenSingleNormalFlow(n, argRegister);
      }
    }
  }
}
