/**
 * Whether a variable is read or written in a function or in the functions
 * nested in it, searched with a first-in, first-out worklist of functions
 * that skips (with everything nested in them) the functions where the
 * variable is not visible.
 */
module SyntacticReferenceResolvers {
  import opened Wrappers
  import opened FunctionTree
  import opened Scopes
  import opened CapturedVariables

  /** The functions declared by the first `i` nodes of `f`, in node order. */
  function ChildrenUpTo(g: FlowGraph, f: FunctionId, i: nat): (r: seq<FunctionId>)
    requires WellFormed(g) && ValidFunction(g, f) && i <= |g.functions[f].nodes|
    ensures forall k :: 0 <= k < |r| ==> f < r[k] < |g.functions|
    ensures forall c :: c in r <==>
      exists j :: 0 <= j < i && g.functions[f].nodes[j].DeclareFunction? && g.functions[f].nodes[j].declared == c
  {
    assert FunctionWellFormed(g, f);
    var fn := g.functions[f];
    if i == 0 then []
    else ChildrenUpTo(g, f, i - 1) + (if fn.nodes[i - 1].DeclareFunction? then [fn.nodes[i - 1].declared] else [])
  }

  /** The number of functions declared within `f`, `f` included, counted once per declaration. */
  function Weight(g: FlowGraph, f: FunctionId): (r: nat)
    requires WellFormed(g) && ValidFunction(g, f)
    ensures r >= 1
    decreases |g.functions| - f, |g.functions[f].nodes| + 1
  {
    1 + WeightUpTo(g, f, |g.functions[f].nodes|)
  }

  function WeightUpTo(g: FlowGraph, f: FunctionId, i: nat): nat
    requires WellFormed(g) && ValidFunction(g, f) && i <= |g.functions[f].nodes|
    decreases |g.functions| - f, i
  {
    assert FunctionWellFormed(g, f);
    var fn := g.functions[f];
    if i == 0 then 0
    else WeightUpTo(g, f, i - 1) + (if fn.nodes[i - 1].DeclareFunction? then Weight(g, fn.nodes[i - 1].declared) else 0)
  }

  function SumWeights(g: FlowGraph, s: seq<FunctionId>): nat
    requires WellFormed(g) && forall k :: 0 <= k < |s| ==> ValidFunction(g, s[k])
  {
    if |s| == 0 then 0 else SumWeights(g, s[..|s| - 1]) + Weight(g, s[|s| - 1])
  }

  lemma {:induction false} SumWeightsAppend(g: FlowGraph, a: seq<FunctionId>, b: seq<FunctionId>)
    requires WellFormed(g) && forall k :: 0 <= k < |a| ==> ValidFunction(g, a[k])
    requires forall k :: 0 <= k < |b| ==> ValidFunction(g, b[k])
    ensures SumWeights(g, a + b) == SumWeights(g, a) + SumWeights(g, b)
    decreases |b|
  {
    if |b| > 0 {
      assert (a + b)[..|a + b| - 1] == a + b[..|b| - 1];
      SumWeightsAppend(g, a, b[..|b| - 1]);
    } else {
      assert a + b == a;
    }
  }

  lemma {:induction false} SumWeightsFirst(g: FlowGraph, s: seq<FunctionId>)
    requires WellFormed(g) && |s| > 0 && forall k :: 0 <= k < |s| ==> ValidFunction(g, s[k])
    ensures SumWeights(g, s) == Weight(g, s[0]) + SumWeights(g, s[1..])
  {
    assert s == [s[0]] + s[1..];
    SumWeightsAppend(g, [s[0]], s[1..]);
    assert [s[0]][..0] == [];
  }

  /** The weight of a function is one more than the weights of the functions it declares. */
  lemma {:induction false} WeightUpToIsSum(g: FlowGraph, f: FunctionId, i: nat)
    requires WellFormed(g) && ValidFunction(g, f) && i <= |g.functions[f].nodes|
    ensures WeightUpTo(g, f, i) == SumWeights(g, ChildrenUpTo(g, f, i))
  {
    if i > 0 {
      assert FunctionWellFormed(g, f);
      var node := g.functions[f].nodes[i - 1];
      var prev := ChildrenUpTo(g, f, i - 1);
      WeightUpToIsSum(g, f, i - 1);
      if node.DeclareFunction? {
        assert ChildrenUpTo(g, f, i) == prev + [node.declared];
        SumWeightsAppend(g, prev, [node.declared]);
        assert SumWeights(g, [node.declared]) == Weight(g, node.declared) by {
          assert [node.declared][..0] == [];
        }
      } else {
        assert ChildrenUpTo(g, f, i) == prev + [];
        assert prev + [] == prev;
      }
    }
  }

  /** `f` reads or writes a variable of the given name. */
  predicate UsesName(g: FlowGraph, f: FunctionId, name: string)
    requires ValidFunction(g, f)
  {
    var fn := g.functions[f];
    exists i :: 0 <= i < |fn.nodes| && (fn.nodes[i].ReadVariable? || fn.nodes[i].WriteVariable?) && fn.nodes[i].varName == name
  }

  /**
   * The search from `f` finds the variable: it is visible in `f`, and `f`
   * reads or writes its name or one of the functions `f` declares leads to
   * a finding.
   */
  predicate ReferencedIn(g: FlowGraph, v: Variable, f: FunctionId)
    requires WellFormed(g) && ValidFunction(g, f) && |v.scope.scopeChain| > 0
    decreases |g.functions| - f
  {
    VisibleFrom(g, GetDeclaringFunction(v), v.varName, f)
    && (UsesName(g, f, v.varName) || exists c :: c in DeclaredFunctions(g, f) && ReferencedIn(g, v, c))
  }

  /**
   * A finding is a read or write of the name in a function declared within
   * the start, in which the variable is visible.
   */
  lemma {:induction false} ReferencedInHasWitness(g: FlowGraph, v: Variable, f: FunctionId)
    requires WellFormed(g) && ValidFunction(g, f) && |v.scope.scopeChain| > 0
    requires ReferencedIn(g, v, f)
    ensures exists h :: DeclaredWithin(g, f, h) && ValidFunction(g, h) && UsesName(g, h, v.varName)
                        && VisibleFrom(g, GetDeclaringFunction(v), v.varName, h)
    decreases |g.functions| - f
  {
    if UsesName(g, f, v.varName) {
      assert DeclaredWithin(g, f, f);
    } else {
      var c :| c in DeclaredFunctions(g, f) && ReferencedIn(g, v, c);
      ReferencedInHasWitness(g, v, c);
      var h :| DeclaredWithin(g, c, h) && ValidFunction(g, h) && UsesName(g, h, v.varName)
               && VisibleFrom(g, GetDeclaringFunction(v), v.varName, h);
      assert DeclaredWithin(g, f, h);
    }
  }

  /**
   * Replacing a visible function that does not use the name by the
   * functions it declares keeps whether some function of the worklist
   * leads to a finding.
   */
  lemma WorklistStep(g: FlowGraph, v: Variable, current: FunctionId, rest: seq<FunctionId>)
    requires WellFormed(g) && ValidFunction(g, current) && |v.scope.scopeChain| > 0
    requires forall k :: 0 <= k < |rest| ==> ValidFunction(g, rest[k])
    requires VisibleFrom(g, GetDeclaringFunction(v), v.varName, current) && !UsesName(g, current, v.varName)
    ensures (exists q :: q in [current] + rest && ReferencedIn(g, v, q))
        <==> (exists q :: q in rest + ChildrenUpTo(g, current, |g.functions[current].nodes|) && ReferencedIn(g, v, q))
  {
    var children := ChildrenUpTo(g, current, |g.functions[current].nodes|);
    assert forall c :: c in children <==> c in DeclaredFunctions(g, current);
    if q :| q in [current] + rest && ReferencedIn(g, v, q) {
      if q == current {
        var c :| c in DeclaredFunctions(g, current) && ReferencedIn(g, v, c);
        assert c in rest + children;
      } else {
        assert q in rest + children;
      }
    }
    if q :| q in rest + children && ReferencedIn(g, v, q) {
      if q in rest {
        assert q in [current] + rest;
      } else {
        assert q in DeclaredFunctions(g, current);
        assert ReferencedIn(g, v, current);
        assert current in [current] + rest;
      }
    }
  }

  class SyntacticReferenceResolver {
    const g: FlowGraph
    const outerFunction: FunctionId
    const variable: Variable

    constructor(g: FlowGraph, outerFunction: FunctionId, variable: Variable)
      ensures this.g == g && this.outerFunction == outerFunction && this.variable == variable
    {
      this.g := g;
      this.outerFunction := outerFunction;
      this.variable := variable;
    }

    /**
     * `isVarReferencedInNestedScopes`: true exactly when the search from
     * the outer function finds the variable; it ends because every step
     * replaces a function by the functions it declares.
     */
    method IsVarReferencedInNestedScopes() returns (b: bool)
      requires WellFormed(g) && ValidFunction(g, outerFunction) && |variable.scope.scopeChain| > 0
      ensures b == ReferencedIn(g, variable, outerFunction)
    {
      var worklist := [outerFunction];
      while worklist != []
        invariant forall k :: 0 <= k < |worklist| ==> ValidFunction(g, worklist[k])
        invariant ReferencedIn(g, variable, outerFunction) <==> exists q :: q in worklist && ReferencedIn(g, variable, q)
        decreases SumWeights(g, worklist)
      {
        var current := worklist[0];
        SumWeightsFirst(g, worklist);
        ghost var before := worklist;
        assert worklist == [current] + worklist[1..];
        worklist := worklist[1..];
        var visible := IsVisibleIn(g, variable, current);
        if !visible {
          assert !ReferencedIn(g, variable, current);
          assert forall q :: q in before ==> q == current || q in worklist;
          continue;
        }
        var found := ReadsOrWritesName(current);
        if found {
          assert ReferencedIn(g, variable, current) && current in before;
          return true;
        }
        ghost var rest := worklist;
        worklist := EnqueueDeclaredFunctions(current, worklist);
        WorklistStep(g, variable, current, rest);
        WeightUpToIsSum(g, current, |g.functions[current].nodes|);
        SumWeightsAppend(g, rest, ChildrenUpTo(g, current, |g.functions[current].nodes|));
      }
      return false;
    }

    /** Appends the functions declared by the nodes of `current`, in node order. */
    method EnqueueDeclaredFunctions(current: FunctionId, worklist: seq<FunctionId>) returns (worklist': seq<FunctionId>)
      requires WellFormed(g) && ValidFunction(g, current)
      requires forall k :: 0 <= k < |worklist| ==> ValidFunction(g, worklist[k])
      ensures worklist' == worklist + ChildrenUpTo(g, current, |g.functions[current].nodes|)
      ensures forall k :: 0 <= k < |worklist'| ==> ValidFunction(g, worklist'[k])
    {
      var fn := g.functions[current];
      worklist' := worklist;
      for i := 0 to |fn.nodes|
        invariant worklist' == worklist + ChildrenUpTo(g, current, i)
      {
        if fn.nodes[i].DeclareFunction? {
          worklist' := worklist' + [fn.nodes[i].declared];
        }
      }
    }

    /** The two scans of `current` for a read and for a write of the variable's name. */
    method ReadsOrWritesName(current: FunctionId) returns (found: bool)
      requires ValidFunction(g, current)
      ensures found == UsesName(g, current, variable.varName)
    {
      var fn := g.functions[current];
      for i := 0 to |fn.nodes|
        invariant forall j :: 0 <= j < i ==> !(fn.nodes[j].ReadVariable? && fn.nodes[j].varName == variable.varName)
      {
        if fn.nodes[i].ReadVariable? && fn.nodes[i].varName == variable.varName {
          return true;
        }
      }
      for i := 0 to |fn.nodes|
        invariant forall j :: 0 <= j < i ==> !(fn.nodes[j].WriteVariable? && fn.nodes[j].varName == variable.varName)
      {
        if fn.nodes[i].WriteVariable? && fn.nodes[i].varName == variable.varName {
          return true;
        }
      }
      return false;
    }
  }
}
