/**
 * The Jam call-graph exporter (eval-jam): walks Jam's in-memory call graph and
 * emits caller/callee edges in the canonical JSON shape, with 1-based columns.
 */
module JamExport {
  import opened Coordinates
  import NodeProfTransformer

  /** A start/end pair as Jam records it (1-based lines, 0-based columns). */
  datatype SourceLocation = SourceLocation(start: Position, end: Position)

  /** A node of Jam's call graph: a function creation site, or anything else. */
  datatype CallGraphNode =
    | FunctionCreation(file: string, sourceLocation: SourceLocation)
    | OtherNode

  /** A call target: successfully resolved to a node, or approximated. */
  datatype Target =
    | ResolvedCallGraphNode(node: CallGraphNode)
    | UnresolvedCallGraphNode

  /**
   * An abstract call edge. `id` stands for the edge object's identity, which is
   * what Jam's `edgeToTargets` map is keyed on.
   */
  datatype Edge = Edge(id: nat, source: CallGraphNode, callSourceLocation: SourceLocation)

  /** Jam's `SimpleCallGraph`: the edges in order and the side table of their targets. */
  datatype SimpleCallGraph = SimpleCallGraph(edges: seq<Edge>, edgeToTargets: map<Edge, seq<Target>>)

  datatype JsonCallGraphNode = JsonCallGraphNode(start: Position, end: Position, file: string)
  datatype JsonCallGraphEdge = JsonCallGraphEdge(callee: JsonCallGraphNode, caller: JsonCallGraphNode)
  datatype JsonCallGraph = JsonCallGraph(edges: seq<JsonCallGraphEdge>)

  /** Jam positions have 1-based lines and 0-based columns; make both 1-based. */
  function SanitizePosition(pos: Position): (r: Position)
    ensures r == Normalize(pos, 1, 0)
  {
    Position(pos.line, pos.column + 1)
  }

  /**
   * Jam and NodeProf agree on the interchange format: a Jam position and a
   * 0-based NodeProf position are converted to the same position exactly
   * when they name the same place, the Jam line being one more than the
   * NodeProf line.
   */
  lemma SanitizeAgreesWithNodeProf(jam: Position, nodeProf: Position)
    ensures SanitizePosition(jam) == NodeProfTransformer.TransformLocationToOneBased(nodeProf)
        <==> jam == Position(nodeProf.line + 1, nodeProf.column)
  {
  }

  /** The only targets that yield an edge: resolved nodes that are function creations. */
  predicate IsResolvedFunction(t: Target) {
    t.ResolvedCallGraphNode? && t.node.FunctionCreation?
  }

  /** The JSON span of a function creation: its sanitised location and resolved file. */
  function CalleeSpan(node: CallGraphNode, resolve: string -> string): JsonCallGraphNode
    requires node.FunctionCreation?
  {
    JsonCallGraphNode(SanitizePosition(node.sourceLocation.start),
                      SanitizePosition(node.sourceLocation.end),
                      resolve(node.file))
  }

  /** The caller record of an edge: the call-site location and the resolved file of the source function. */
  function CallerSpan(e: Edge, resolve: string -> string): JsonCallGraphNode
    requires e.source.FunctionCreation?
  {
    JsonCallGraphNode(SanitizePosition(e.callSourceLocation.start),
                      SanitizePosition(e.callSourceLocation.end),
                      resolve(e.source.file))
  }

  /** The targets that survive the filter, in iteration order. */
  function FunctionTargets(targets: seq<Target>): (r: seq<Target>)
    ensures |r| <= |targets|
    ensures forall k :: 0 <= k < |r| ==> IsResolvedFunction(r[k]) && r[k] in targets
  {
    if targets == [] then []
    else
      var init := targets[..|targets| - 1];
      var last := targets[|targets| - 1];
      assert forall t :: t in init ==> t in targets;
      FunctionTargets(init) + (if IsResolvedFunction(last) then [last] else [])
  }

  /** The edges emitted for the targets of one call edge, all sharing `caller`. */
  function TargetEdges(caller: JsonCallGraphNode, targets: seq<Target>, resolve: string -> string): (r: seq<JsonCallGraphEdge>)
    ensures |r| <= |targets|
    ensures forall k :: 0 <= k < |r| ==> r[k].caller == caller
  {
    if targets == [] then []
    else
      var last := targets[|targets| - 1];
      TargetEdges(caller, targets[..|targets| - 1], resolve)
        + (if IsResolvedFunction(last) then [JsonCallGraphEdge(CalleeSpan(last.node, resolve), caller)] else [])
  }

  /** The edges emitted for one abstract edge of the call graph. */
  function EdgeJson(cg: SimpleCallGraph, e: Edge, resolve: string -> string): seq<JsonCallGraphEdge> {
    if !e.source.FunctionCreation? || e !in cg.edgeToTargets then []
    else TargetEdges(CallerSpan(e, resolve), cg.edgeToTargets[e], resolve)
  }

  /** The edges emitted for a sequence of abstract edges, in order. */
  function EdgesJson(cg: SimpleCallGraph, es: seq<Edge>, resolve: string -> string): (r: seq<JsonCallGraphEdge>)
    ensures forall k :: 0 <= k < |r| ==> exists i :: 0 <= i < |es| && r[k] in EdgeJson(cg, es[i], resolve)
  {
    if es == [] then []
    else
      var init := es[..|es| - 1];
      assert forall i :: 0 <= i < |init| ==> init[i] == es[i];
      EdgesJson(cg, init, resolve) + EdgeJson(cg, es[|es| - 1], resolve)
  }

  /** The edges that draw a warning: a function-creation source whose target lookup yields nothing. */
  function MissingTargets(cg: SimpleCallGraph, es: seq<Edge>): seq<Edge> {
    if es == [] then []
    else
      var e := es[|es| - 1];
      MissingTargets(cg, es[..|es| - 1]) + (if e.source.FunctionCreation? && e !in cg.edgeToTargets then [e] else [])
  }

  /** The inner loop of callGraphToJSON: one pushed edge per target that is a resolved function creation, in order. */
  method PushTargetEdges(edges: seq<JsonCallGraphEdge>, edgeSource: JsonCallGraphNode, targets: seq<Target>, resolve: string -> string)
    returns (edges': seq<JsonCallGraphEdge>)
    ensures edges' == edges + TargetEdges(edgeSource, targets, resolve)
  {
    edges' := edges;
    var j := 0;
    while j < |targets|
      invariant 0 <= j <= |targets|
      invariant edges' == edges + TargetEdges(edgeSource, targets[..j], resolve)
    {
      var target := targets[j];
      assert targets[..j + 1][..j] == targets[..j];
      if target.ResolvedCallGraphNode? && target.node.FunctionCreation? {
        var edgeTarget := CalleeSpan(target.node, resolve);
        edges' := edges' + [JsonCallGraphEdge(edgeTarget, edgeSource)];
      }
      j := j + 1;
    }
    assert targets[..j] == targets;
  }

  /** One more edge of the pass: its export and its warning are appended to those of the edges before it. */
  lemma ExportStep(cg: SimpleCallGraph, es: seq<Edge>, i: nat, resolve: string -> string)
    requires i < |es|
    ensures EdgesJson(cg, es[..i + 1], resolve) == EdgesJson(cg, es[..i], resolve) + EdgeJson(cg, es[i], resolve)
    ensures MissingTargets(cg, es[..i + 1]) == MissingTargets(cg, es[..i])
      + (if es[i].source.FunctionCreation? && es[i] !in cg.edgeToTargets then [es[i]] else [])
  {
    var prefix := es[..i + 1];
    assert prefix[..i] == es[..i] && prefix[i] == es[i];
  }

  /**
   * callGraphToJSON: one pass over the edges, skipping non-function sources,
   * warning about edges without a target set, and pushing one edge per
   * surviving target. The warnings are returned instead of logged.
   */
  method CallGraphToJson(cg: SimpleCallGraph, resolve: string -> string)
    returns (result: JsonCallGraph, warnings: seq<Edge>)
    ensures result.edges == EdgesJson(cg, cg.edges, resolve)
    ensures warnings == MissingTargets(cg, cg.edges)
  {
    result := JsonCallGraph([]);
    warnings := [];
    var i := 0;
    while i < |cg.edges|
      invariant 0 <= i <= |cg.edges|
      invariant result.edges == EdgesJson(cg, cg.edges[..i], resolve)
      invariant warnings == MissingTargets(cg, cg.edges[..i])
    {
      var edge := cg.edges[i];
      ExportStep(cg, cg.edges, i, resolve);
      if !edge.source.FunctionCreation? {
        assert result.edges + [] == result.edges && warnings + [] == warnings;
        i := i + 1;
        continue;
      }
      if edge !in cg.edgeToTargets {
        assert result.edges + [] == result.edges;
        warnings := warnings + [edge];
      } else {
        assert warnings + [] == warnings;
        var edges := PushTargetEdges(result.edges, CallerSpan(edge, resolve), cg.edgeToTargets[edge], resolve);
        result := result.(edges := edges);
      }
      i := i + 1;
    }
    assert cg.edges[..i] == cg.edges;
  }

  /**
   * Fan-out: a call edge with k surviving targets yields exactly k edges, each
   * with the same caller record and the callee span of the corresponding target.
   */
  lemma {:induction false} TargetEdgesFanOut(caller: JsonCallGraphNode, targets: seq<Target>, resolve: string -> string)
    ensures |TargetEdges(caller, targets, resolve)| == |FunctionTargets(targets)|
    ensures forall k :: 0 <= k < |FunctionTargets(targets)| ==>
      TargetEdges(caller, targets, resolve)[k] == JsonCallGraphEdge(CalleeSpan(FunctionTargets(targets)[k].node, resolve), caller)
  {
    if targets != [] {
      TargetEdgesFanOut(caller, targets[..|targets| - 1], resolve);
    }
  }

  /** No surviving target, no edge: unresolved or non-function targets are dropped silently. */
  lemma NoSurvivorNoEdge(cg: SimpleCallGraph, e: Edge, resolve: string -> string)
    requires e in cg.edgeToTargets
    requires forall t :: t in cg.edgeToTargets[e] ==> !IsResolvedFunction(t)
    ensures EdgeJson(cg, e, resolve) == []
  {
    if e.source.FunctionCreation? {
      var ts := cg.edgeToTargets[e];
      NoSurvivingTarget(ts);
      TargetEdgesFanOut(CallerSpan(e, resolve), ts, resolve);
    }
  }

  /** The filter keeps nothing when no target is a resolved function creation. */
  lemma {:induction false} NoSurvivingTarget(targets: seq<Target>)
    requires forall t :: t in targets ==> !IsResolvedFunction(t)
    ensures FunctionTargets(targets) == []
  {
    if targets != [] {
      var init := targets[..|targets| - 1];
      assert forall t :: t in init ==> t in targets;
      NoSurvivingTarget(init);
      assert targets[|targets| - 1] in targets;
    }
  }

  /** Output order follows the order of `cg.edges`: the export of a concatenation is the concatenation of the exports. */
  lemma {:induction false} EdgesJsonAppend(cg: SimpleCallGraph, a: seq<Edge>, b: seq<Edge>, resolve: string -> string)
    ensures EdgesJson(cg, a + b, resolve) == EdgesJson(cg, a, resolve) + EdgesJson(cg, b, resolve)
    decreases |b|
  {
    if b != [] {
      assert (a + b)[..|a + b| - 1] == a + b[..|b| - 1];
      EdgesJsonAppend(cg, a, b[..|b| - 1], resolve);
    } else {
      assert a + b == a;
    }
  }

  /**
   * Every emitted edge has, as its caller, the call-site record of some input
   * edge whose source is a function creation and whose targets were found.
   */
  lemma {:induction false} CallerComesFromFunctionCreation(cg: SimpleCallGraph, es: seq<Edge>, resolve: string -> string, k: nat)
    requires k < |EdgesJson(cg, es, resolve)|
    ensures exists i :: 0 <= i < |es| && es[i].source.FunctionCreation? && es[i] in cg.edgeToTargets
                        && EdgesJson(cg, es, resolve)[k].caller == CallerSpan(es[i], resolve)
  {
    var init := es[..|es| - 1];
    var e := es[|es| - 1];
    var prefix := EdgesJson(cg, init, resolve);
    if k < |prefix| {
      CallerComesFromFunctionCreation(cg, init, resolve, k);
      var i :| 0 <= i < |init| && init[i].source.FunctionCreation? && init[i] in cg.edgeToTargets
                && prefix[k].caller == CallerSpan(init[i], resolve);
      assert es[i] == init[i];
    } else {
      var ts := cg.edgeToTargets[e];
      TargetEdgesFanOut(CallerSpan(e, resolve), ts, resolve);
      assert EdgesJson(cg, es, resolve)[k] == TargetEdges(CallerSpan(e, resolve), ts, resolve)[k - |prefix|];
      assert es[|es| - 1] == e;
    }
  }
}
