/**
 * The helpers both directions of the flow functions share: finding the
 * function that declares a name used in some function, the synthetic
 * register that stands for the callee of a method call, and the queries
 * that resolve the callee of a call node.
 */
module AbstractFlowFunctions {
  import opened Wrappers
  import opened FunctionTree
  import opened Scopes
  import opened Ir
  import FlowgraphUtils

  /** `scopeDeclaresFunctionWithName`: some node of `f` declares a function of that name (an unnamed one never matches). */
  predicate ScopeDeclaresFunctionWithName(g: FlowGraph, f: FunctionId, functionName: string)
    requires ValidFunction(g, f)
  {
    var fn := g.functions[f];
    exists i :: 0 <= i < |fn.nodes| && fn.nodes[i].DeclareFunction?
      && fn.nodes[i].declared < |g.functions| && g.functions[fn.nodes[i].declared].name == Some(functionName)
  }

  /**
   * A function declares a function of a name exactly when one of the
   * functions declared directly in it carries that name; unnamed functions
   * never match.
   */
  lemma ScopeDeclaresFunctionIff(g: FlowGraph, f: FunctionId, functionName: string)
    requires WellFormed(g) && ValidFunction(g, f)
    ensures ScopeDeclaresFunctionWithName(g, f, functionName)
        <==> exists c :: c in DeclaredFunctions(g, f) && g.functions[c].name == Some(functionName)
  {
    var fn := g.functions[f];
    if ScopeDeclaresFunctionWithName(g, f, functionName) {
      var i :| 0 <= i < |fn.nodes| && fn.nodes[i].DeclareFunction?
        && fn.nodes[i].declared < |g.functions| && g.functions[fn.nodes[i].declared].name == Some(functionName);
      assert fn.nodes[i].declared in DeclaredFunctions(g, f);
    }
  }

  /** The test of `getDeclaringScope`'s loop: `f` declares the name as a variable, a parameter or a function. */
  predicate DeclaresName(g: FlowGraph, f: FunctionId, varName: string) {
    ValidFunction(g, f)
    && (varName in g.functions[f].variableNames
        || varName in g.functions[f].parameterNames
        || ScopeDeclaresFunctionWithName(g, f, varName))
  }

  /** Position `k` of chain `c` declares the name and no function before it does. */
  predicate InnermostDeclaring(g: FlowGraph, c: seq<FunctionId>, varName: string, k: int) {
    0 <= k < |c| && DeclaresName(g, c[k], varName) && forall j :: 0 <= j < k ==> !DeclaresName(g, c[j], varName)
  }

  /** The first function of `c` that declares the name, or `fallback` when none does. */
  function FirstDeclaring(g: FlowGraph, c: seq<FunctionId>, varName: string, fallback: FunctionId): (r: FunctionId)
    ensures r in c || r == fallback
  {
    if |c| == 0 then fallback
    else if DeclaresName(g, c[0], varName) then c[0]
    else FirstDeclaring(g, c[1..], varName, fallback)
  }

  /** `FirstDeclaring` picks the innermost declaring position, and falls back only when no position declares the name. */
  lemma {:induction false} FirstDeclaringIsInnermost(g: FlowGraph, c: seq<FunctionId>, varName: string, fallback: FunctionId)
    ensures (exists k :: InnermostDeclaring(g, c, varName, k) && FirstDeclaring(g, c, varName, fallback) == c[k])
      || ((forall k :: 0 <= k < |c| ==> !DeclaresName(g, c[k], varName)) && FirstDeclaring(g, c, varName, fallback) == fallback)
  {
    if |c| == 0 {
    } else if DeclaresName(g, c[0], varName) {
      assert InnermostDeclaring(g, c, varName, 0);
    } else {
      var rest := c[1..];
      FirstDeclaringIsInnermost(g, rest, varName, fallback);
      if k :| InnermostDeclaring(g, rest, varName, k) && FirstDeclaring(g, rest, varName, fallback) == rest[k] {
        forall j | 0 <= j < k + 1
          ensures !DeclaresName(g, c[j], varName)
        {
          if j > 0 {
            assert c[j] == rest[j - 1];
          }
        }
        assert InnermostDeclaring(g, c, varName, k + 1);
      } else {
        forall k | 0 <= k < |c|
          ensures !DeclaresName(g, c[k], varName)
        {
          if k > 0 {
            assert c[k] == rest[k - 1];
          }
        }
      }
    }
  }

  /**
   * The declaring scope of a name used in `usageScope`: the main function
   * for `process`, otherwise the first function of the scope chain that
   * declares the name, falling back to the usage scope itself.
   */
  function DeclaringScope(g: FlowGraph, varName: string, usageScope: FunctionId): (r: FunctionId)
    requires WellFormed(g) && ValidFunction(g, usageScope)
    ensures ValidFunction(g, r)
  {
    var c := ScopeChainOf(g, usageScope);
    if varName == "process" then c[|c| - 1]
    else FirstDeclaring(g, c, varName, usageScope)
  }

  /**
   * `process` is declared by the main function among the usage scope's
   * ancestors; any other name by the innermost function of the chain that
   * declares it, and when none does the usage scope itself is returned.
   */
  lemma DeclaringScopeIsInnermost(g: FlowGraph, varName: string, usageScope: FunctionId)
    requires WellFormed(g) && ValidFunction(g, usageScope)
    ensures varName == "process" ==>
      DeclaringScope(g, varName, usageScope) == ScopeChainOf(g, usageScope)[|ScopeChainOf(g, usageScope)| - 1]
      && IsMain(g, DeclaringScope(g, varName, usageScope))
    ensures varName != "process" ==>
      (exists k :: InnermostDeclaring(g, ScopeChainOf(g, usageScope), varName, k)
                   && DeclaringScope(g, varName, usageScope) == ScopeChainOf(g, usageScope)[k])
      || ((forall k :: 0 <= k < |ScopeChainOf(g, usageScope)| ==> !DeclaresName(g, ScopeChainOf(g, usageScope)[k], varName))
          && DeclaringScope(g, varName, usageScope) == usageScope)
  {
    var c := ScopeChainOf(g, usageScope);
    if varName == "process" {
      assert DeclaringScope(g, varName, usageScope) == c[|c| - 1];
      assert g.functions[c[|c| - 1]].outer.None? by {
        assert IsScopeChain(g, usageScope, c);
      }
    } else {
      assert DeclaringScope(g, varName, usageScope) == FirstDeclaring(g, c, varName, usageScope);
      FirstDeclaringIsInnermost(g, c, varName, usageScope);
    }
  }

  /** `getDeclaringScope`: walks outwards from the usage scope. */
  method GetDeclaringScope(g: FlowGraph, varName: string, usageScope: FunctionId) returns (r: FunctionId)
    requires WellFormed(g) && ValidFunction(g, usageScope)
    ensures r == DeclaringScope(g, varName, usageScope)
  {
    ghost var c := ScopeChainOf(g, usageScope);
    var currentScope := usageScope;
    if varName == "process" {
      ghost var k := 0;
      while !IsMain(g, currentScope)
        invariant 0 <= k < |c| && c[k] == currentScope
        invariant k < |c| - 1 ==> g.functions[c[k]].outer == Some(c[k + 1])
        decreases |c| - k
      {
        currentScope := g.functions[currentScope].outer.value;
        k := k + 1;
      }
      return currentScope;
    }
    var current: Option<FunctionId> := Some(usageScope);
    ghost var k := 0;
    while current.Some?
      invariant 0 <= k <= |c|
      invariant current.Some? ==> k < |c| && c[k] == current.value
      invariant current.None? ==> k == |c|
      invariant FirstDeclaring(g, c[k..], varName, usageScope) == FirstDeclaring(g, c, varName, usageScope)
      decreases |c| - k
    {
      var fn := g.functions[current.value];
      if varName in fn.variableNames || varName in fn.parameterNames || ScopeDeclaresFunctionWithName(g, current.value, varName) {
        return current.value;
      }
      assert k < |c| - 1 ==> fn.outer == Some(c[k + 1]);
      assert c[k..][1..] == c[k + 1..];
      current := fn.outer;
      k := k + 1;
    }
    return usageScope;
  }

  /**
   * When some function of the chain declares a name other than `process`,
   * the variable of that name in the declaring scope found is visible in
   * the usage scope: no function before it in the chain redeclares the name.
   */
  lemma DeclaringScopeIsVisible(g: FlowGraph, varName: string, usageScope: FunctionId, i: int)
    requires WellFormed(g) && ValidFunction(g, usageScope) && varName != "process"
    requires 0 <= i < |ScopeChainOf(g, usageScope)| && DeclaresName(g, ScopeChainOf(g, usageScope)[i], varName)
    ensures VisibleFrom(g, DeclaringScope(g, varName, usageScope), varName, usageScope)
  {
    var c := ScopeChainOf(g, usageScope);
    DeclaringScopeIsInnermost(g, varName, usageScope);
    var k :| InnermostDeclaring(g, c, varName, k) && DeclaringScope(g, varName, usageScope) == c[k];
    forall j | 0 <= j < k
      ensures !Shadows(g, c[j], varName)
    {
      assert !DeclaresName(g, c[j], varName);
    }
    assert ReachedBeforeShadow(g, c, c[k], varName, k);
    VisibleFromIffChain(g, c[k], varName, usageScope);
  }

  /** The states that carry `v` at each of `nodes`. */
  function StatesAt(nodes: set<NodeRef>, v: Value): (r: set<State>)
    ensures forall s :: s in r <==> s.node in nodes && s.value == v
  {
    set n | n in nodes :: State(n, v)
  }

  /** `nextStates`: the set the visit methods add to (never reassigned). */
  class StateSet {
    var elements: set<State>

    constructor()
      ensures elements == {}
    {
      elements := {};
    }

    /** `addNextState`. */
    method Add(s: State)
      modifies this
      ensures elements == old(elements) + {s}
    {
      elements := elements + {s};
    }

    /** `forEach(node -> addSingleState(node, v))` over a set of nodes. */
    method AddAtEach(nodes: set<NodeRef>, v: Value)
      modifies this
      ensures elements == old(elements) + StatesAt(nodes, v)
    {
      var rest := nodes;
      while rest != {}
        invariant rest <= nodes
        invariant elements == old(elements) + StatesAt(nodes - rest, v)
        decreases rest
      {
        var n :| n in rest;
        Add(State(n, v));
        rest := rest - {n};
      }
    }
  }

  /**
   * `syntheticRegisterForMethodCall`: the register `-100 - index` of the
   * call's function. Such ids lie below every id TAJS allocates and below
   * the marker -1. Only method calls on a static property may ask for one.
   */
  function SyntheticRegisterForMethodCall(g: FlowGraph, callNode: NodeRef): (r: Value)
    requires ValidNode(g, callNode) && NodeAt(g, callNode).Call?
    requires FlowgraphUtils.IsMethodCallWithStaticProperty(NodeAt(g, callNode))
    ensures r.Register? && r.func == callNode.func && r.id <= -100
  {
    Register(-100 + -1 * callNode.index, callNode.func)
  }

  /** Distinct call nodes get distinct synthetic registers. */
  lemma SyntheticRegisterInjective(g: FlowGraph, n1: NodeRef, n2: NodeRef)
    requires ValidNode(g, n1) && NodeAt(g, n1).Call? && FlowgraphUtils.IsMethodCallWithStaticProperty(NodeAt(g, n1))
    requires ValidNode(g, n2) && NodeAt(g, n2).Call? && FlowgraphUtils.IsMethodCallWithStaticProperty(NodeAt(g, n2))
    ensures SyntheticRegisterForMethodCall(g, n1) == SyntheticRegisterForMethodCall(g, n2) <==> n1 == n2
  {
    if SyntheticRegisterForMethodCall(g, n1) == SyntheticRegisterForMethodCall(g, n2) {
      assert -100 - n1.index == -100 - n2.index;
    }
  }

  /**
   * The queries that resolve the callee of a call node: none for a callee
   * TAJS names, a backward query for the function register at each
   * predecessor, a backward query for the method callee of a method call on
   * a static property, and none for any other call.
   */
  function CalleeQueries(g: FlowGraph, n: NodeRef): (r: seq<Query>)
    requires WellFormed(g) && ValidNode(g, n) && NodeAt(g, n).Call?
    ensures forall q :: q in r ==> !q.isForward
  {
    var call := NodeAt(g, n);
    var predecessors := PredecessorList(g, n);
    if call.tajsFunctionName.Some? then []
    else if call.functionRegister != -1 then
      seq(|predecessors|, k requires 0 <= k < |predecessors| =>
        Query(State(predecessors[k], Register(call.functionRegister, n.func)), false))
    else if FlowgraphUtils.IsMethodCallWithStaticProperty(call) then [Query(State(n, MethodCall(n)), false)]
    else []
  }

  /**
   * The method callee is queried exactly for a method call on a static
   * property whose callee TAJS does not name.
   */
  lemma MethodCalleeQueriedIff(g: FlowGraph, n: NodeRef)
    requires WellFormed(g) && ValidNode(g, n) && NodeAt(g, n).Call?
    ensures Query(State(n, MethodCall(n)), false) in CalleeQueries(g, n)
        <==> NodeAt(g, n).tajsFunctionName.None? && FlowgraphUtils.IsMethodCallWithStaticProperty(NodeAt(g, n))
  {
    var call := NodeAt(g, n);
    if call.tajsFunctionName.None? && call.functionRegister != -1 {
      var qs := CalleeQueries(g, n);
      forall q | q in qs
        ensures !q.queryValue.value.MethodCall?
      {
        var k :| 0 <= k < |qs| && qs[k] == q;
      }
    }
  }

  /**
   * A call whose callee TAJS names is internal to TAJS, and its callee is
   * never queried.
   */
  lemma TAJSNamedCallIsInternal(g: FlowGraph, n: NodeRef)
    requires WellFormed(g) && ValidNode(g, n) && NodeAt(g, n).Call?
    ensures NodeAt(g, n).tajsFunctionName.Some? ==> FlowgraphUtils.IsTAJSInternal(NodeAt(g, n)) && CalleeQueries(g, n) == []
    ensures CalleeQueries(g, n) != [] ==> !FlowgraphUtils.IsTAJSInternal(NodeAt(g, n)) || NodeAt(g, n).synthetic
  {
  }

  /**
   * `queriesToResolveFunctionCall`: none for a call into TAJS internals; a
   * backward query for the function register at every predecessor when
   * there is a function register; a single backward query for the method
   * callee when there is only a property name; none otherwise.
   */
  method QueriesToResolveFunctionCall(g: FlowGraph, n: NodeRef) returns (querySet: seq<Query>)
    requires WellFormed(g) && ValidNode(g, n) && NodeAt(g, n).Call?
    ensures NodeAt(g, n).tajsFunctionName.Some? ==> querySet == []
    ensures NodeAt(g, n).tajsFunctionName.None? && NodeAt(g, n).functionRegister != -1 ==>
      |querySet| == |PredecessorList(g, n)|
      && forall k :: 0 <= k < |querySet| ==>
           querySet[k] == Query(State(PredecessorList(g, n)[k], Register(NodeAt(g, n).functionRegister, n.func)), false)
    ensures NodeAt(g, n).tajsFunctionName.None? && NodeAt(g, n).functionRegister == -1 ==>
      querySet == if NodeAt(g, n).propertyString.Some? then [Query(State(n, MethodCall(n)), false)] else []
    ensures forall q :: q in querySet ==> !q.isForward
    ensures querySet == CalleeQueries(g, n)
  {
    var call := NodeAt(g, n);
    querySet := [];
    if call.tajsFunctionName.Some? {
      return;
    }
    if call.functionRegister != -1 {
      var funcReg := Register(call.functionRegister, n.func);
      var predecessors := PredecessorList(g, n);
      for i := 0 to |predecessors|
        invariant |querySet| == i
        invariant forall k :: 0 <= k < i ==> querySet[k] == Query(State(predecessors[k], funcReg), false)
      {
        querySet := querySet + [Query(State(predecessors[i], funcReg), false)];
      }
      return;
    } else if FlowgraphUtils.IsMethodCallWithStaticProperty(call) {
      querySet := querySet + [Query(State(n, MethodCall(n)), false)];
      return;
    }
  }
}
