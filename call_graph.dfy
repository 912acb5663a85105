/**
 * The call graph the solvers build: a set of (call site, callee) edges kept
 * together with two multimaps, from each call site to its callees and from
 * each callee to its call sites, which always describe the same edges.
 */
module CallGraphs {
  import opened FunctionTree
  import opened Multimaps

  /** An edge from a call node to a function it may invoke; equality is by both ends. */
  datatype Edge = Edge(callSite: NodeRef, callTarget: FunctionId)

  /** A TAJS source location: start and end positions and the file. */
  datatype SourceLocation = SourceLocation(
    lineNumber: int, columnNumber: int, endLineNumber: int, endColumnNumber: int, path: string)

  datatype Location = Location(line: int, column: int)

  datatype Span = Span(start: Location, end: Location, file: string)

  /** The serialized edge: the callee's span first, then the call site's span. */
  datatype SerializableCallGraphEdge = SerializableCallGraphEdge(callee: Span, caller: Span)

  /** `Edge.toSpan`: start and end positions and the file of a source location. */
  function ToSpan(loc: SourceLocation): Span {
    Span(Location(loc.lineNumber, loc.columnNumber), Location(loc.endLineNumber, loc.endColumnNumber), loc.path)
  }

  /**
   * `Edge.toSerializable`, given the source locations TAJS records for call
   * nodes and for functions: the callee's span comes first, the call site's
   * second, each with both positions and the file.
   */
  function SerializeEdge(e: Edge, siteLocation: NodeRef -> SourceLocation, functionLocation: FunctionId -> SourceLocation)
    : (r: SerializableCallGraphEdge)
    ensures var callee, site := functionLocation(e.callTarget), siteLocation(e.callSite);
      r.callee.start == Location(callee.lineNumber, callee.columnNumber)
      && r.callee.end == Location(callee.endLineNumber, callee.endColumnNumber)
      && r.callee.file == callee.path
      && r.caller.start == Location(site.lineNumber, site.columnNumber)
      && r.caller.end == Location(site.endLineNumber, site.endColumnNumber)
      && r.caller.file == site.path
  {
    SerializableCallGraphEdge(ToSpan(functionLocation(e.callTarget)), ToSpan(siteLocation(e.callSite)))
  }

  /**
   * Serialising loses nothing about the locations: two edges serialise alike
   * exactly when their callees and their call sites have the same locations.
   */
  lemma SerializeEdgeInjective(e1: Edge, e2: Edge, siteLocation: NodeRef -> SourceLocation,
                               functionLocation: FunctionId -> SourceLocation)
    ensures SerializeEdge(e1, siteLocation, functionLocation) == SerializeEdge(e2, siteLocation, functionLocation)
        <==> functionLocation(e1.callTarget) == functionLocation(e2.callTarget)
             && siteLocation(e1.callSite) == siteLocation(e2.callSite)
  {
  }

  /** The edge set and the two multimaps describe the same edges. */
  ghost predicate IndexesAgree(edges: set<Edge>, callees: map<NodeRef, set<FunctionId>>, callers: map<FunctionId, set<NodeRef>>) {
    (forall cs, f :: Edge(cs, f) in edges <==> f in Get(callees, cs))
    && (forall cs, f :: Edge(cs, f) in edges <==> cs in Get(callers, f))
    && NoEmptyValues(callees) && NoEmptyValues(callers)
  }

  /** Recording a new edge in both multimaps keeps the three structures in agreement. */
  lemma AddKeepsIndexesAgreeing(edges: set<Edge>, callees: map<NodeRef, set<FunctionId>>,
                                callers: map<FunctionId, set<NodeRef>>, e: Edge)
    requires IndexesAgree(edges, callees, callers)
    ensures IndexesAgree(edges + {e}, Put(callees, e.callSite, e.callTarget), Put(callers, e.callTarget, e.callSite))
  {
    var callees', callers' := Put(callees, e.callSite, e.callTarget), Put(callers, e.callTarget, e.callSite);
    forall cs, f
      ensures Edge(cs, f) in edges + {e} <==> f in Get(callees', cs)
      ensures Edge(cs, f) in edges + {e} <==> cs in Get(callers', f)
    {
      PutGet(callees, e.callSite, e.callTarget, cs, f);
      PutGet(callers, e.callTarget, e.callSite, f, cs);
    }
    PutKeepsValuesNonEmpty(callees, e.callSite, e.callTarget);
    PutKeepsValuesNonEmpty(callers, e.callTarget, e.callSite);
  }

  /** `edgeSet.add`: the set grows by one exactly when the edge was not yet in it. */
  lemma AddEdgeSize(edges: set<Edge>, e: Edge)
    ensures |edges + {e}| == |edges| + (if e in edges then 0 else 1)
  {
    if e in edges {
      assert edges + {e} == edges;
    }
  }

  class CallGraph {
    /** `edgeSet`. */
    var edgeSet: set<Edge>
    /** `calleeBackingMultimap`: call site to the functions it invokes. */
    var callees: map<NodeRef, set<FunctionId>>
    /** `callerBackingMultimap`: function to the call sites invoking it. */
    var callers: map<FunctionId, set<NodeRef>>

    /** The three structures describe the same edges. */
    ghost predicate Valid()
      reads this
    {
      IndexesAgree(edgeSet, callees, callers)
    }

    constructor()
      ensures Valid()
      ensures edgeSet == {} && callees == map[] && callers == map[]
    {
      edgeSet := {};
      callees := map[];
      callers := map[];
    }

    /**
     * `addEdge(Edge)`: adds the edge and, only when it was new, records it in
     * both multimaps; answers whether it was new.
     */
    method AddEdge(newEdge: Edge) returns (added: bool)
      requires Valid()
      modifies this
      ensures Valid()
      ensures added <==> newEdge !in old(edgeSet)
      ensures edgeSet == old(edgeSet) + {newEdge}
      ensures callees == (if added then Put(old(callees), newEdge.callSite, newEdge.callTarget) else old(callees))
      ensures callers == (if added then Put(old(callers), newEdge.callTarget, newEdge.callSite) else old(callers))
    {
      added := newEdge !in edgeSet;
      if !added {
        assert edgeSet + {newEdge} == edgeSet;
      } else {
        var edgeSet', callees', callers' :=
          edgeSet + {newEdge}, Put(callees, newEdge.callSite, newEdge.callTarget), Put(callers, newEdge.callTarget, newEdge.callSite);
        AddKeepsIndexesAgreeing(edgeSet, callees, callers, newEdge);
        edgeSet, callees, callers := edgeSet', callees', callers';
      }
    }

    /** `addEdge(CallNode, Function)`: the same for the edge of the two ends. */
    method AddCallEdge(callsite: NodeRef, target: FunctionId) returns (added: bool)
      requires Valid()
      modifies this
      ensures Valid()
      ensures added <==> Edge(callsite, target) !in old(edgeSet)
      ensures edgeSet == old(edgeSet) + {Edge(callsite, target)}
      ensures Contains(Edge(callsite, target))
      ensures Size() <= old(Size()) + 1
    {
      added := AddEdge(Edge(callsite, target));
    }

    /** `size`. */
    function Size(): (n: nat)
      reads this
      ensures n == |edgeSet|
    {
      |edgeSet|
    }

    /** `contains`: an edge is present exactly when each multimap records it. */
    function Contains(e: Edge): (b: bool)
      requires Valid()
      reads this
      ensures b <==> e.callTarget in Get(callees, e.callSite)
      ensures b <==> e.callSite in Get(callers, e.callTarget)
    {
      e in edgeSet
    }

    /** `toSerializableCallGraph`: the set of serialized edges. */
    function ToSerializableCallGraph(siteLocation: NodeRef -> SourceLocation, functionLocation: FunctionId -> SourceLocation)
      : (r: set<SerializableCallGraphEdge>)
      reads this
      ensures forall e :: e in edgeSet ==> SerializeEdge(e, siteLocation, functionLocation) in r
      ensures forall s :: s in r ==> exists e :: e in edgeSet && s == SerializeEdge(e, siteLocation, functionLocation)
    {
      set e | e in edgeSet :: SerializeEdge(e, siteLocation, functionLocation)
    }
  }

  /** Adding an edge that is already present leaves the whole call graph as it was. */
  method AddDuplicateEdge(cg: CallGraph, e: Edge) returns (added: bool)
    requires cg.Valid() && e in cg.edgeSet
    modifies cg
    ensures !added
    ensures cg.edgeSet == old(cg.edgeSet) && cg.callees == old(cg.callees) && cg.callers == old(cg.callers)
  {
    added := cg.AddEdge(e);
  }
}
