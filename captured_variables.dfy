/**
 * The syntactic analysis of captured variables: the names a function
 * binds, the names used free in it or in any function declared inside it,
 * and the function declarations of a function that capture a given name.
 */
module CapturedVariables {
  import opened Wrappers
  import opened FunctionTree

  /** `boundVariablesIn`: the function's own name, if it has one, and its declared variables; parameters are not included. */
  function BoundVariablesIn(g: FlowGraph, f: FunctionId): (r: set<string>)
    requires ValidFunction(g, f)
    ensures forall x :: x in r <==> g.functions[f].name == Some(x) || x in g.functions[f].variableNames
  {
    var fn := g.functions[f];
    (if fn.name.Some? then {fn.name.value} else {}) + fn.variableNames
  }

  /** The names read by the function's own ReadVariable nodes or bound by its Catch nodes. */
  function DirectlyUsedIn(g: FlowGraph, f: FunctionId): (r: set<string>)
    requires ValidFunction(g, f)
    ensures forall x :: x in r <==>
      exists i :: 0 <= i < |g.functions[f].nodes| && (g.functions[f].nodes[i].ReadVariable? || g.functions[f].nodes[i].Catch?)
                  && g.functions[f].nodes[i].varName == x
  {
    var fn := g.functions[f];
    set i | 0 <= i < |fn.nodes| && (fn.nodes[i].ReadVariable? || fn.nodes[i].Catch?) :: fn.nodes[i].varName
  }

  /**
   * `freeVariablesIn`: the directly used names that the function does not
   * bind, together with the free names of every function it declares,
   * which are not filtered by this function's bound names.
   */
  function FreeVariablesIn(g: FlowGraph, f: FunctionId): (r: set<string>)
    requires WellFormed(g) && ValidFunction(g, f)
    ensures DirectlyUsedIn(g, f) - BoundVariablesIn(g, f) <= r
    decreases |g.functions| - f, |g.functions[f].nodes| + 1
  {
    (DirectlyUsedIn(g, f) - BoundVariablesIn(g, f)) + FreeInDeclaredFrom(g, f, 0)
  }

  /** The free names of the functions declared by the nodes of `f` from position `i` on. */
  function FreeInDeclaredFrom(g: FlowGraph, f: FunctionId, i: nat): set<string>
    requires WellFormed(g) && ValidFunction(g, f) && i <= |g.functions[f].nodes|
    decreases |g.functions| - f, |g.functions[f].nodes| - i
  {
    assert FunctionWellFormed(g, f);
    var fn := g.functions[f];
    if i == |fn.nodes| then {}
    else if fn.nodes[i].DeclareFunction? then FreeVariablesIn(g, fn.nodes[i].declared) + FreeInDeclaredFrom(g, f, i + 1)
    else FreeInDeclaredFrom(g, f, i + 1)
  }

  /**
   * `variableUsedInFunction`: the name is free in `f`, that is, some function
   * declared within `f`, `f` included, uses it without binding it.
   */
  predicate VariableUsedInFunction(g: FlowGraph, variableName: string, f: FunctionId): (r: bool)
    requires WellFormed(g) && ValidFunction(g, f)
    ensures r <==> exists h :: DeclaredWithin(g, f, h) && UsesUnbound(g, h, variableName)
  {
    FreeVariableIffUnboundUse(g, f, variableName);
    variableName in FreeVariablesIn(g, f)
  }

  /** `h` is `f` or is declared, directly or through nested declarations, inside `f`. */
  ghost predicate DeclaredWithin(g: FlowGraph, f: FunctionId, h: FunctionId)
    requires WellFormed(g) && ValidFunction(g, f)
    decreases |g.functions| - f
  {
    h == f || exists c :: c in DeclaredFunctions(g, f) && DeclaredWithin(g, c, h)
  }

  /** `h` uses `x` directly and does not bind it. */
  predicate UsesUnbound(g: FlowGraph, h: FunctionId, x: string) {
    ValidFunction(g, h) && x in DirectlyUsedIn(g, h) && x !in BoundVariablesIn(g, h)
  }

  /** The names the declarations from position `i` on contribute are the free names of those declared functions. */
  lemma {:induction false} FreeInDeclaredFromIff(g: FlowGraph, f: FunctionId, i: nat, x: string)
    requires WellFormed(g) && ValidFunction(g, f) && i <= |g.functions[f].nodes|
    ensures FunctionWellFormed(g, f)
    ensures x in FreeInDeclaredFrom(g, f, i) <==>
      exists j :: i <= j < |g.functions[f].nodes| && g.functions[f].nodes[j].DeclareFunction?
                  && x in FreeVariablesIn(g, g.functions[f].nodes[j].declared)
    decreases |g.functions[f].nodes| - i
  {
    assert FunctionWellFormed(g, f);
    var fn := g.functions[f];
    if i < |fn.nodes| {
      FreeInDeclaredFromIff(g, f, i + 1, x);
    }
  }

  /**
   * A name is free in `f` exactly when some function declared within `f`
   * (`f` included) uses it without binding it, whatever the functions in
   * between bind.
   */
  lemma {:induction false} FreeVariableIffUnboundUse(g: FlowGraph, f: FunctionId, x: string)
    requires WellFormed(g) && ValidFunction(g, f)
    ensures x in FreeVariablesIn(g, f) <==> exists h :: DeclaredWithin(g, f, h) && UsesUnbound(g, h, x)
    decreases |g.functions| - f
  {
    assert FunctionWellFormed(g, f);
    var fn := g.functions[f];
    FreeInDeclaredFromIff(g, f, 0, x);
    if x in FreeVariablesIn(g, f) {
      if x in DirectlyUsedIn(g, f) - BoundVariablesIn(g, f) {
        assert DeclaredWithin(g, f, f) && UsesUnbound(g, f, x);
      } else {
        var j :| 0 <= j < |fn.nodes| && fn.nodes[j].DeclareFunction? && x in FreeVariablesIn(g, fn.nodes[j].declared);
        var c := fn.nodes[j].declared;
        FreeVariableIffUnboundUse(g, c, x);
        var h :| DeclaredWithin(g, c, h) && UsesUnbound(g, h, x);
        assert c in DeclaredFunctions(g, f);
        assert DeclaredWithin(g, f, h);
      }
    }
    if h :| DeclaredWithin(g, f, h) && UsesUnbound(g, h, x) {
      if h != f {
        var c :| c in DeclaredFunctions(g, f) && DeclaredWithin(g, c, h);
        var j :| 0 <= j < |fn.nodes| && fn.nodes[j].DeclareFunction? && fn.nodes[j].declared == c;
        FreeVariableIffUnboundUse(g, c, x);
        assert x in FreeInDeclaredFrom(g, f, 0);
      }
    }
  }

  /**
   * `functionsCapturingVarIn`: the DeclareFunction nodes directly in
   * `context` whose declared function has the name free; declarations
   * nested deeper are not listed.
   */
  function FunctionsCapturingVarIn(g: FlowGraph, context: FunctionId, variable: string): (r: set<NodeRef>)
    requires WellFormed(g) && ValidFunction(g, context)
    ensures forall n :: n in r <==>
      ValidNode(g, n) && n.func == context && NodeAt(g, n).DeclareFunction?
      && VariableUsedInFunction(g, variable, NodeAt(g, n).declared)
  {
    assert FunctionWellFormed(g, context);
    var fn := g.functions[context];
    set i | 0 <= i < |fn.nodes| && fn.nodes[i].DeclareFunction? && VariableUsedInFunction(g, variable, fn.nodes[i].declared)
      :: NodeRef(context, i)
  }
}
