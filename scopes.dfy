/**
 * Scope chains and variables. A variable is identified by its name and the
 * chain of functions from its declaring function outwards to the main
 * function; whether a variable is visible in a function is decided by walking
 * that function's chain outwards.
 */
module Scopes {
  import opened Wrappers
  import opened FunctionTree

  /** `FunctionScope`: the chain of functions, innermost (the declaring function) first. Equality is chain equality. */
  datatype FunctionScope = FunctionScope(scopeChain: seq<FunctionId>)

  /** `Variable`: a name qualified by the scope of its declaring function. Equality is by name and scope. */
  datatype Variable = Variable(varName: string, scope: FunctionScope)

  /** `c` starts at `f`, follows `outer` links, and ends at a function with no enclosing function. */
  predicate IsScopeChain(g: FlowGraph, f: FunctionId, c: seq<FunctionId>) {
    |c| > 0 && c[0] == f
    && (forall k :: 0 <= k < |c| ==> ValidFunction(g, c[k]))
    && (forall k :: 0 <= k < |c| - 1 ==> g.functions[c[k]].outer == Some(c[k + 1]))
    && g.functions[c[|c| - 1]].outer.None?
  }

  /** The scope chain of `f`. */
  function ScopeChainOf(g: FlowGraph, f: FunctionId): (r: seq<FunctionId>)
    requires WellFormed(g) && ValidFunction(g, f)
    ensures IsScopeChain(g, f, r)
    ensures forall i, j :: 0 <= i < j < |r| ==> r[i] > r[j]
    decreases f
  {
    assert FunctionWellFormed(g, f);
    match g.functions[f].outer
    case None => [f]
    case Some(o) => [f] + ScopeChainOf(g, o)
  }

  /**
   * The `FunctionScope` constructor: starts the chain with the initial
   * function and appends enclosing functions until there is none.
   */
  method NewFunctionScope(g: FlowGraph, initialFunction: FunctionId) returns (s: FunctionScope)
    requires WellFormed(g) && ValidFunction(g, initialFunction)
    ensures IsScopeChain(g, initialFunction, s.scopeChain)
    ensures s.scopeChain == ScopeChainOf(g, initialFunction)
  {
    var chain := [initialFunction];
    var next := g.functions[initialFunction].outer;
    assert FunctionWellFormed(g, initialFunction);
    while next.Some?
      invariant |chain| > 0
      invariant ValidFunction(g, chain[|chain| - 1])
      invariant next == g.functions[chain[|chain| - 1]].outer
      invariant next.Some? ==> ValidFunction(g, next.value) && next.value < chain[|chain| - 1]
      invariant next.Some? ==> chain + ScopeChainOf(g, next.value) == ScopeChainOf(g, initialFunction)
      invariant next.None? ==> chain == ScopeChainOf(g, initialFunction)
      decreases if next.Some? then next.value + 1 else 0
    {
      var current := next.value;
      assert FunctionWellFormed(g, current);
      ghost var before := chain;
      chain := chain + [current];
      next := g.functions[current].outer;
      if next.Some? {
        assert ScopeChainOf(g, current) == [current] + ScopeChainOf(g, next.value);
        assert chain + ScopeChainOf(g, next.value) == before + ScopeChainOf(g, current);
      } else {
        assert ScopeChainOf(g, current) == [current];
      }
    }
    s := FunctionScope(chain);
  }

  /** The variable `name` declared in `f`, as the `Variable` constructor builds it. */
  function VariableOf(g: FlowGraph, name: string, f: FunctionId): Variable
    requires WellFormed(g) && ValidFunction(g, f)
  {
    Variable(name, FunctionScope(ScopeChainOf(g, f)))
  }

  /** The `Variable` constructor. */
  method NewVariable(g: FlowGraph, varName: string, declaringFunction: FunctionId) returns (v: Variable)
    requires WellFormed(g) && ValidFunction(g, declaringFunction)
    ensures v == VariableOf(g, varName, declaringFunction)
  {
    var scope := NewFunctionScope(g, declaringFunction);
    v := Variable(varName, scope);
  }

  /** `getDeclaringFunction`: the head of the scope chain. */
  function GetDeclaringFunction(v: Variable): (r: FunctionId)
    requires |v.scope.scopeChain| > 0
    ensures r in v.scope.scopeChain
  {
    v.scope.scopeChain[0]
  }

  /** A variable constructed in `f` is declared by `f`. */
  lemma DeclaringFunctionOfVariable(g: FlowGraph, name: string, f: FunctionId)
    requires WellFormed(g) && ValidFunction(g, f)
    ensures GetDeclaringFunction(VariableOf(g, name, f)) == f
  {
  }

  /** Two constructed variables are equal exactly when their names and declaring functions are. */
  lemma VariableEquality(g: FlowGraph, n1: string, f1: FunctionId, n2: string, f2: FunctionId)
    requires WellFormed(g) && ValidFunction(g, f1) && ValidFunction(g, f2)
    ensures VariableOf(g, n1, f1) == VariableOf(g, n2, f2) <==> n1 == n2 && f1 == f2
  {
    if VariableOf(g, n1, f1) == VariableOf(g, n2, f2) {
      assert ScopeChainOf(g, f1)[0] == ScopeChainOf(g, f2)[0];
    }
  }

  /** `f` declares `name` as a parameter or a variable, hiding any outer declaration. */
  predicate Shadows(g: FlowGraph, f: FunctionId, name: string) {
    ValidFunction(g, f)
    && (name in g.functions[f].parameterNames || name in g.functions[f].variableNames)
  }

  /** The walk of `isVisibleIn`: from `f` outwards, reaching `decl` before any function that shadows `name`. */
  function VisibleFrom(g: FlowGraph, decl: FunctionId, name: string, f: FunctionId): bool
    requires WellFormed(g) && ValidFunction(g, f)
    decreases f
  {
    assert FunctionWellFormed(g, f);
    if f == decl then true
    else if Shadows(g, f, name) then false
    else match g.functions[f].outer
      case None => false
      case Some(o) => VisibleFrom(g, decl, name, o)
  }

  /** Position `k` of chain `c` holds `decl` and no function before it declares `name`. */
  predicate ReachedBeforeShadow(g: FlowGraph, c: seq<FunctionId>, decl: FunctionId, name: string, k: int) {
    0 <= k < |c| && c[k] == decl && forall j :: 0 <= j < k ==> !Shadows(g, c[j], name)
  }

  /**
   * Visibility, stated on the scope chain: `decl` occurs in the chain of `f`
   * and no function before it in the chain declares the name.
   */
  lemma {:induction false} VisibleFromIffChain(g: FlowGraph, decl: FunctionId, name: string, f: FunctionId)
    requires WellFormed(g) && ValidFunction(g, f)
    ensures VisibleFrom(g, decl, name, f) <==> exists k :: ReachedBeforeShadow(g, ScopeChainOf(g, f), decl, name, k)
    decreases f
  {
    assert FunctionWellFormed(g, f);
    var c := ScopeChainOf(g, f);
    if f == decl {
      assert VisibleFrom(g, decl, name, f);
      assert ReachedBeforeShadow(g, c, decl, name, 0);
      assert exists k :: ReachedBeforeShadow(g, ScopeChainOf(g, f), decl, name, k);
    } else if Shadows(g, f, name) {
      forall k | ReachedBeforeShadow(g, c, decl, name, k)
        ensures k > 0 && Shadows(g, c[0], name)
      {
      }
    } else {
      match g.functions[f].outer
      case None =>
        assert c == [f];
      case Some(o) =>
        VisibleFromIffChain(g, decl, name, o);
        var rest := ScopeChainOf(g, o);
        assert c == [f] + rest;
        if VisibleFrom(g, decl, name, f) {
          var k :| ReachedBeforeShadow(g, rest, decl, name, k);
          ReachedShift(g, f, rest, decl, name, k);
        } else if exists k :: ReachedBeforeShadow(g, c, decl, name, k) {
          var k :| ReachedBeforeShadow(g, c, decl, name, k);
          ReachedUnshift(g, f, rest, decl, name, k);
          assert false;
        }
    }
  }

  /** Prepending a non-shadowing function moves a reached position one step further. */
  lemma ReachedShift(g: FlowGraph, f: FunctionId, rest: seq<FunctionId>, decl: FunctionId, name: string, k: int)
    requires !Shadows(g, f, name) && ReachedBeforeShadow(g, rest, decl, name, k)
    ensures ReachedBeforeShadow(g, [f] + rest, decl, name, k + 1)
  {
    var c := [f] + rest;
    forall j | 0 <= j < k + 1
      ensures !Shadows(g, c[j], name)
    {
      if j > 0 {
        assert c[j] == rest[j - 1];
      }
    }
  }

  /** A position reached past a head other than `decl` is reached one step earlier in the tail. */
  lemma ReachedUnshift(g: FlowGraph, f: FunctionId, rest: seq<FunctionId>, decl: FunctionId, name: string, k: int)
    requires f != decl && ReachedBeforeShadow(g, [f] + rest, decl, name, k)
    ensures k > 0 && ReachedBeforeShadow(g, rest, decl, name, k - 1)
  {
    var c := [f] + rest;
    assert c[k] == rest[k - 1];
    forall j | 0 <= j < k - 1
      ensures !Shadows(g, rest[j], name)
    {
      assert c[j + 1] == rest[j];
    }
  }

  /** A declaration is invisible from `f` when a function between `f` and it in the chain redeclares the name. */
  lemma ShadowedBetweenIsInvisible(g: FlowGraph, decl: FunctionId, name: string, f: FunctionId, i: nat, j: nat)
    requires WellFormed(g) && ValidFunction(g, f)
    requires j < i < |ScopeChainOf(g, f)| && ScopeChainOf(g, f)[i] == decl
    requires Shadows(g, ScopeChainOf(g, f)[j], name)
    ensures !VisibleFrom(g, decl, name, f)
  {
    VisibleFromIffChain(g, decl, name, f);
    var c := ScopeChainOf(g, f);
    forall k | 0 <= k < |c| && c[k] == decl
      ensures !ReachedBeforeShadow(g, c, decl, name, k)
    {
      assert k == i;
    }
  }

  /** A variable is not visible in a function whose chain does not contain its declaring function. */
  lemma NotAncestorIsInvisible(g: FlowGraph, decl: FunctionId, name: string, f: FunctionId)
    requires WellFormed(g) && ValidFunction(g, f)
    requires decl !in ScopeChainOf(g, f)
    ensures !VisibleFrom(g, decl, name, f)
  {
    VisibleFromIffChain(g, decl, name, f);
  }

  /** `isVisibleIn`: walks outwards from `function` until the declaring function or a shadowing declaration. */
  method IsVisibleIn(g: FlowGraph, v: Variable, fun: FunctionId) returns (r: bool)
    requires WellFormed(g) && ValidFunction(g, fun) && |v.scope.scopeChain| > 0
    ensures r == VisibleFrom(g, GetDeclaringFunction(v), v.varName, fun)
  {
    var varDeclaringFunction := GetDeclaringFunction(v);
    var current: Option<FunctionId> := Some(fun);
    while current.Some? && current.value != varDeclaringFunction
      invariant current.Some? ==> ValidFunction(g, current.value)
      invariant VisibleFrom(g, varDeclaringFunction, v.varName, fun)
                == (current.Some? && VisibleFrom(g, varDeclaringFunction, v.varName, current.value))
      decreases if current.Some? then current.value + 1 else 0
    {
      var fn := g.functions[current.value];
      if v.varName in fn.parameterNames || v.varName in fn.variableNames {
        return false;
      }
      assert FunctionWellFormed(g, current.value);
      current := fn.outer;
    }
    return current.Some?;
  }

  /** `capturedIn`: currently the same test as `isVisibleIn`. */
  method CapturedIn(g: FlowGraph, v: Variable, fun: FunctionId) returns (r: bool)
    requires WellFormed(g) && ValidFunction(g, fun) && |v.scope.scopeChain| > 0
    ensures r == VisibleFrom(g, GetDeclaringFunction(v), v.varName, fun)
  {
    r := IsVisibleIn(g, v, fun);
  }

  /** `String.replace(' ', '-')`. */
  function ReplaceSpaces(s: string): (r: string)
    ensures |r| == |s|
    ensures forall i :: 0 <= i < |s| ==> r[i] == (if s[i] == ' ' then '-' else s[i])
  {
    if s == [] then [] else [if s[0] == ' ' then '-' else s[0]] + ReplaceSpaces(s[1..])
  }

  /** `Collectors.joining(".")`. */
  function JoinWithDots(parts: seq<string>): string {
    if parts == [] then ""
    else if |parts| == 1 then parts[0]
    else parts[0] + "." + JoinWithDots(parts[1..])
  }

  /**
   * `FunctionScope.toString`: the printed functions of the chain, spaces made
   * dashes, joined by dots. When no function's printed form contains a dot,
   * the string splits back into the printed functions, one per scope.
   */
  function ScopeToString(g: FlowGraph, scope: FunctionScope): (r: string)
    requires forall k :: 0 <= k < |scope.scopeChain| ==> scope.scopeChain[k] < |g.functions|
    ensures |scope.scopeChain| > 0 && (forall k :: 0 <= k < |scope.scopeChain| ==> '.' !in g.functions[scope.scopeChain[k]].display)
      ==> SplitOnDots(r) == PrintedFunctions(g, scope.scopeChain)
  {
    PrintedChainSplits(g, scope.scopeChain);
    JoinWithDots(PrintedFunctions(g, scope.scopeChain))
  }

  /** A chain of functions whose printed forms contain no dot is recovered by splitting its joined form. */
  lemma PrintedChainSplits(g: FlowGraph, chain: seq<FunctionId>)
    requires forall k :: 0 <= k < |chain| ==> chain[k] < |g.functions|
    ensures |chain| > 0 && (forall k :: 0 <= k < |chain| ==> '.' !in g.functions[chain[k]].display)
      ==> SplitOnDots(JoinWithDots(PrintedFunctions(g, chain))) == PrintedFunctions(g, chain)
  {
    if |chain| > 0 && (forall k :: 0 <= k < |chain| ==> '.' !in g.functions[chain[k]].display) {
      var parts := PrintedFunctions(g, chain);
      forall k | 0 <= k < |parts|
        ensures '.' !in parts[k]
      {
        var d := g.functions[chain[k]].display;
        forall i | 0 <= i < |parts[k]|
          ensures parts[k][i] != '.'
        {
          assert parts[k][i] == (if d[i] == ' ' then '-' else d[i]);
        }
      }
      SplitJoinRoundTrip(parts);
    }
  }

  /** The printed form of each function of a chain, spaces made dashes. */
  function PrintedFunctions(g: FlowGraph, chain: seq<FunctionId>): (r: seq<string>)
    requires forall k :: 0 <= k < |chain| ==> chain[k] < |g.functions|
    ensures |r| == |chain|
    ensures forall k :: 0 <= k < |chain| ==> r[k] == ReplaceSpaces(g.functions[chain[k]].display)
  {
    if chain == [] then [] else [ReplaceSpaces(g.functions[chain[0]].display)] + PrintedFunctions(g, chain[1..])
  }

  /** Splits a string at every '.', the inverse of `JoinWithDots` on dot-free parts. */
  function SplitOnDots(s: string): (r: seq<string>)
    ensures |r| > 0
  {
    if s == [] then [""]
    else
      var rest := SplitOnDots(s[1..]);
      if s[0] == '.' then [""] + rest else [[s[0]] + rest[0]] + rest[1..]
  }

  /** A dot-free string splits into itself. */
  lemma {:induction false} SplitDotFree(p: string)
    requires '.' !in p
    ensures SplitOnDots(p) == [p]
  {
    if p != [] {
      assert '.' !in p[1..] by {
        forall i | 0 <= i < |p[1..]|
          ensures p[1..][i] != '.'
        {
          assert p[1..][i] == p[i + 1];
        }
      }
      SplitDotFree(p[1..]);
      assert [p[0]] + p[1..] == p;
    }
  }

  /** Splitting `p.rest` with a dot-free `p` yields `p` followed by the parts of `rest`. */
  lemma {:induction false} SplitAtFirstDot(p: string, rest: string)
    requires '.' !in p
    ensures SplitOnDots(p + "." + rest) == [p] + SplitOnDots(rest)
  {
    if p == [] {
      assert p + "." + rest == "." + rest;
      assert ("." + rest)[1..] == rest;
    } else {
      assert '.' !in p[1..] by {
        forall i | 0 <= i < |p[1..]|
          ensures p[1..][i] != '.'
        {
          assert p[1..][i] == p[i + 1];
        }
      }
      SplitAtFirstDot(p[1..], rest);
      assert (p + "." + rest)[1..] == p[1..] + "." + rest;
      assert [p[0]] + p[1..] == p;
    }
  }

  /** The printed chain can be split back into the printed functions when those contain no '.'. */
  lemma {:induction false} SplitJoinRoundTrip(parts: seq<string>)
    requires |parts| > 0
    requires forall k :: 0 <= k < |parts| ==> '.' !in parts[k]
    ensures SplitOnDots(JoinWithDots(parts)) == parts
  {
    if |parts| == 1 {
      SplitDotFree(parts[0]);
    } else {
      SplitJoinRoundTrip(parts[1..]);
      SplitAtFirstDot(parts[0], JoinWithDots(parts[1..]));
      assert [parts[0]] + parts[1..] == parts;
    }
  }

  /** The printed scope contains no spaces. */
  lemma {:induction false} JoinKeepsNoSpaces(parts: seq<string>)
    requires forall k :: 0 <= k < |parts| ==> ' ' !in parts[k]
    ensures ' ' !in JoinWithDots(parts)
  {
    if |parts| > 1 {
      JoinKeepsNoSpaces(parts[1..]);
      assert parts[0] in parts;
      var s := JoinWithDots(parts);
      assert s == parts[0] + "." + JoinWithDots(parts[1..]);
    }
  }

  /** `FunctionScope.toString` never contains a space. */
  lemma ScopeToStringHasNoSpaces(g: FlowGraph, scope: FunctionScope)
    requires forall k :: 0 <= k < |scope.scopeChain| ==> scope.scopeChain[k] < |g.functions|
    ensures ' ' !in ScopeToString(g, scope)
  {
    var parts := PrintedFunctions(g, scope.scopeChain);
    forall k | 0 <= k < |parts|
      ensures ' ' !in parts[k]
    {
      var p := parts[k];
      forall i | 0 <= i < |p|
        ensures p[i] != ' '
      {
      }
    }
    JoinKeepsNoSpaces(parts);
  }
}
