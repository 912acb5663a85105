/**
 * The abstraction of the TAJS flow graph that the analysis works on: a tree of
 * nested functions, each with a sequence of nodes and, per node, the list of
 * its intraprocedural predecessors. Functions are numbered so that an outer
 * function comes before the functions nested in it; a node is named by its
 * function and its position in that function.
 */
module FunctionTree {
  import opened Wrappers

  /** A function of the flow graph, by its position in `FlowGraph.functions`. */
  type FunctionId = nat

  /** The kinds of TAJS node the modelled rules distinguish; every other kind is `Other`. */
  datatype Node =
    | ReadVariable(varName: string, resultRegister: int)
    | WriteVariable(varName: string, valueRegister: int)
    | DeclareFunction(declared: FunctionId, resultRegister: int)
    | BinaryOperator(resultRegister: int, arg1Register: int, arg2Register: int)
    | UnaryOperator(resultRegister: int, argRegister: int)
    | NewObject(resultRegister: int)
    | Catch(varName: string)
    | Call(functionRegister: int, propertyString: Option<string>, tajsFunctionName: Option<string>,
           synthetic: bool, resultRegister: int)
    | Other

  /**
   * A TAJS function: its name (absent for anonymous functions and the main
   * function), its printed form, its enclosing function (absent for main),
   * its parameters and declared variables, its nodes, and for each node the
   * positions of its predecessors. Node 0 is the entry node.
   */
  datatype Function = Function(
    name: Option<string>,
    display: string,
    outer: Option<FunctionId>,
    parameterNames: seq<string>,
    variableNames: set<string>,
    nodes: seq<Node>,
    predecessors: seq<seq<nat>>)

  datatype FlowGraph = FlowGraph(functions: seq<Function>)

  /** A node, by its function and its position in that function. */
  datatype NodeRef = NodeRef(func: FunctionId, index: nat)

  predicate ValidFunction(g: FlowGraph, f: FunctionId) {
    f < |g.functions|
  }

  /** The shape TAJS guarantees for one function of a flow graph. */
  predicate FunctionWellFormed(g: FlowGraph, f: FunctionId)
    requires ValidFunction(g, f)
  {
    var fn := g.functions[f];
    (fn.outer.Some? ==> fn.outer.value < f)
    && (fn.outer.None? ==> fn.name.None?)
    && |fn.nodes| > 0
    && |fn.predecessors| == |fn.nodes|
    && (forall i, k :: 0 <= i < |fn.predecessors| && 0 <= k < |fn.predecessors[i]| ==> fn.predecessors[i][k] < |fn.nodes|)
    && (forall i :: 0 <= i < |fn.nodes| && fn.nodes[i].DeclareFunction? ==>
          var child := fn.nodes[i].declared;
          f < child < |g.functions| && g.functions[child].outer == Some(f)
          && (fn.nodes[i].resultRegister == -1 ==> g.functions[child].name.Some?))
  }

  /** Every function is well formed: nesting ids decrease outwards, predecessors and declarations are in range. */
  predicate WellFormed(g: FlowGraph) {
    forall f :: 0 <= f < |g.functions| ==> FunctionWellFormed(g, f)
  }

  /** TAJS's `isMain`: the outermost function, the only one without an enclosing function. */
  predicate IsMain(g: FlowGraph, f: FunctionId)
    requires ValidFunction(g, f)
  {
    g.functions[f].outer.None?
  }

  predicate ValidNode(g: FlowGraph, n: NodeRef) {
    n.func < |g.functions| && n.index < |g.functions[n.func].nodes|
  }

  function NodeAt(g: FlowGraph, n: NodeRef): Node
    requires ValidNode(g, n)
  {
    g.functions[n.func].nodes[n.index]
  }

  /** The entry node of a function (`getEntry().getFirstNode()`). */
  function EntryOf(g: FlowGraph, f: FunctionId): (r: NodeRef)
    requires WellFormed(g) && ValidFunction(g, f)
    ensures ValidNode(g, r) && r.func == f
  {
    assert FunctionWellFormed(g, f);
    NodeRef(f, 0)
  }

  /** The predecessors of a node, in TAJS's order. */
  function PredecessorList(g: FlowGraph, n: NodeRef): (r: seq<NodeRef>)
    requires WellFormed(g) && ValidNode(g, n)
    ensures forall k :: 0 <= k < |r| ==> ValidNode(g, r[k]) && r[k].func == n.func
  {
    var fn := g.functions[n.func];
    assert FunctionWellFormed(g, n.func);
    seq(|fn.predecessors[n.index]|, k requires 0 <= k < |fn.predecessors[n.index]| => NodeRef(n.func, fn.predecessors[n.index][k]))
  }

  /** The predecessors of a node, as a set. */
  function Predecessors(g: FlowGraph, n: NodeRef): (r: set<NodeRef>)
    requires WellFormed(g) && ValidNode(g, n)
    ensures forall p :: p in r <==> p in PredecessorList(g, n)
  {
    set k | 0 <= k < |PredecessorList(g, n)| :: PredecessorList(g, n)[k]
  }

  /** The successors of a node: the nodes of its function that list it as a predecessor. */
  function Successors(g: FlowGraph, n: NodeRef): (r: set<NodeRef>)
    requires WellFormed(g) && ValidNode(g, n)
    ensures forall s :: s in r ==> ValidNode(g, s) && s.func == n.func
  {
    var fn := g.functions[n.func];
    assert FunctionWellFormed(g, n.func);
    set i | 0 <= i < |fn.nodes| && n.index in fn.predecessors[i] :: NodeRef(n.func, i)
  }

  /** Successor and predecessor are converse relations. */
  lemma SuccessorIffPredecessor(g: FlowGraph, n: NodeRef, m: NodeRef)
    requires WellFormed(g) && ValidNode(g, n) && ValidNode(g, m)
    ensures m in Successors(g, n) <==> n in Predecessors(g, m)
  {
    assert FunctionWellFormed(g, n.func) && FunctionWellFormed(g, m.func);
    var fn := g.functions[m.func];
    if m in Successors(g, n) {
      var k :| 0 <= k < |fn.predecessors[m.index]| && fn.predecessors[m.index][k] == n.index;
      assert PredecessorList(g, m)[k] == n;
    }
    if n in Predecessors(g, m) {
      var k :| 0 <= k < |PredecessorList(g, m)| && PredecessorList(g, m)[k] == n;
      assert fn.predecessors[m.index][k] == n.index;
    }
  }

  /** The functions declared directly in `f`, one per DeclareFunction node, in node order. */
  function DeclaredFunctions(g: FlowGraph, f: FunctionId): (r: set<FunctionId>)
    requires WellFormed(g) && ValidFunction(g, f)
    ensures forall c :: c in r ==> f < c < |g.functions| && g.functions[c].outer == Some(f)
  {
    assert FunctionWellFormed(g, f);
    var fn := g.functions[f];
    set i | 0 <= i < |fn.nodes| && fn.nodes[i].DeclareFunction? :: fn.nodes[i].declared
  }
}
