/**
 * The data-flow facts of the analysis. A value is a register of a function,
 * an allocation site, a source variable, or the callee of a method call; a
 * state pairs a node with the value tracked there.
 */
module Ir {
  import opened FunctionTree
  import opened Scopes

  /**
   * `Register` is equal to another register with the same id in the same
   * function. `ObjectAllocation` and `FunctionAllocation` are registers too
   * (the allocation statement's result register), but of another class, so
   * they never equal a plain register; they are equal when their
   * statements are. `MethodCall` names the callee of a call node.
   */
  datatype Value =
    | Register(id: int, func: FunctionId)
    | ObjectAllocation(site: NodeRef, resultRegister: int)
    | FunctionAllocation(decl: NodeRef, resultRegister: int)
    | Var(variable: Variable)
    | MethodCall(call: NodeRef)

  /** Allocation sites, the values a points-to set holds. */
  predicate IsAllocation(v: Value) {
    v.ObjectAllocation? || v.FunctionAllocation?
  }

  /** An SPDS node: a flow-graph node and the value tracked at it. */
  datatype State = State(node: NodeRef, value: Value)

  /** A query: the state it starts from and its direction (a record, so equality is by both). */
  datatype Query = Query(queryValue: State, isForward: bool)
}
