# Merlin call-graph analysis, evaluation scripts and program generator — a Dafny model

This project models the core of a demand-driven call-graph analysis for
JavaScript, together with the scripts that evaluate it and the helpers of
its random program generator:

- **The analysis (Java).** It has four parts:
  - the call graph it builds (`CallGraph`);
  - the points-to facts it records (`PointsToGraph`);
  - the bookkeeping of its solvers: the query dependency graph with per-query errors, the query graph with its cycle check, and the stack of active solvers;
  - the intraprocedural flow functions of its forward and backward solvers.

  It also models the scope machinery these rely on: scope chains, variable visibility, the declaring scope of a name, free and captured variables, the nested-function reference search, and the search for references to a function's name.
- **The evaluation scripts (TypeScript).** The Jam exporter turns Jam's call graph into the canonical JSON form. The NodeProf transformer drops module loads from a dynamic trace. The benchmark registry and path getters, and the orchestrator that runs both tools over the benchmarks, are modelled too.
- **The random program generator (Python).** The `prettify` layout pass, and the scope stack that the JavaScript grammar uses to track declared identifiers and pending calls.

TAJS's flow graph is abstracted as a tree of functions (`FunctionTree`). Each function has nodes, an optional name, parameter and variable names, and its enclosing function. Node references are (function, index) pairs, and successors and predecessors are given by an explicit edge list. Java objects whose fields change become classes; value objects become datatypes, and an exception, which Java compares by reference, carries an identity number. The external runs of the evaluation scripts (the NodeProf and Jam processes) become function parameters, and their observable effects are returned as a list of steps. Python's `set.pop()` and set iteration become Dafny's `:|` choice.

## Model

| member | source | states |
|---|---|---|
| Coordinates.NormalizeIsOneBased | scripts/evaluation/src/nodeprof-transformer.ts:28-31 | non-negative coordinates counted from 0 or 1 become coordinates of at least 1 |
| JamExport.SanitizePosition | eval-jam/src/index.ts:31-36 | the line is kept and the 0-based column becomes 1-based |
| JamExport.SanitizeAgreesWithNodeProf | eval-jam/src/index.ts:31-36 | a Jam position and a 0-based NodeProf position become the same 1-based position exactly when they name the same place, so both tools meet in one format |
| JamExport.FunctionTargets | eval-jam/src/index.ts:54-56 | the kept targets are input targets that are resolved function creations, never more than the input |
| JamExport.NoSurvivingTarget | eval-jam/src/index.ts:56 | when no target is a resolved function creation, nothing survives the filter |
| JamExport.TargetEdges | eval-jam/src/index.ts:54-66 | at most one edge per target, each carrying the caller record of the call edge |
| JamExport.TargetEdgesFanOut | eval-jam/src/index.ts:48-66 | k surviving targets give exactly k edges; each has the same caller record and the callee span of its target, in target order, with no deduplication |
| JamExport.NoSurvivorNoEdge | eval-jam/src/index.ts:54-67 | an edge whose targets are all unresolved or not function creations contributes no output edge |
| JamExport.PushTargetEdges | eval-jam/src/index.ts:54-66 | the `forEach` over the targets appends exactly the edges of the targets that are resolved function creations, in order, each from the caller span to the callee span |
| JamExport.CallGraphToJson | eval-jam/src/index.ts:38-71 | the output is the concatenation, in `cg.edges` order, of the edges of each abstract edge; the warnings are exactly the function-creation edges with no target entry |
| JamExport.EdgesJsonAppend | eval-jam/src/index.ts:40-69 | the export of a concatenation of edge lists is the concatenation of their exports, so output order follows input order |
| JamExport.EdgesJson | eval-jam/src/index.ts:40-69 | every output edge is one of the edges exported for some input edge |
| JamExport.CallerComesFromFunctionCreation | eval-jam/src/index.ts:42-53 | every emitted edge's caller is the call-site record of an input edge whose source is a function creation and whose targets were found |
| NodeProfTransformer.TransformLocationToOneBased | scripts/evaluation/src/nodeprof-transformer.ts:28-31 | line and column both grow by one |
| NodeProfTransformer.TransformSLToOneBased | scripts/evaluation/src/nodeprof-transformer.ts:33-37 | start and end are converted and the source file is kept |
| NodeProfTransformer.TransformCGEntryToOneBased | scripts/evaluation/src/nodeprof-transformer.ts:39-43 | both endpoints are converted and `isLoad` is kept |
| NodeProfTransformer.TransformCGEntryInjective | scripts/evaluation/nodeprof-transformer/cli.ts:42-46 | the entry conversion loses nothing: distinct entries stay distinct |
| NodeProfTransformer.FilterCalls | scripts/evaluation/nodeprof-transformer/cli.ts:56 | an entry is kept exactly when it is in the input and is not a load |
| NodeProfTransformer.NodeProfTransform | scripts/evaluation/src/nodeprof-transformer.ts:53 | the output holds exactly the input's non-load entries, unconverted |
| NodeProfTransformer.FilterCallsKeepsOrder | scripts/evaluation/src/nodeprof-transformer.ts:53 | the kept entries are a subsequence of the input: the relative order is preserved |
| NodeProfTransformer.FilterCallsAppend | scripts/evaluation/nodeprof-transformer/cli.ts:56 | filtering a concatenation filters each part |
| NodeProfTransformer.FilterCallsLength | scripts/evaluation/src/nodeprof-transformer.ts:53 | exactly the load entries are removed: the output is shorter by the number of loads |
| NodeProfTransformer.MapToOneBased | scripts/evaluation/nodeprof-transformer/cli.ts:56 | the disabled `.map(transformCGEntryToOneBased)` keeps the length and converts each entry in place |
| NodeProfTransformer.FilterCommutesWithOneBased | scripts/evaluation/src/nodeprof-transformer.ts:53 | the disabled conversion would give the same entries whether applied before or after the filter |
| NodeProfTransformer.ExampleTrace | scripts/evaluation/src/nodeprof-transformer.ts:53 | in a concrete trace the module load is dropped and the two calls pass through unconverted |
| BenchmarkUtils.Resolve | scripts/evaluation/src/benchmark-utils.ts:6-8 | a joined path is the directory, a '/', then the segment |
| BenchmarkUtils.DirnameOfResolve | scripts/evaluation/src/full-evaluation.ts:13 | taking the directory of a joined path gives the directory back when the segment has no '/' |
| BenchmarkUtils.Keys | scripts/evaluation/src/benchmark-utils.ts:25 | the keys of a record, one per entry, in declaration order |
| BenchmarkUtils.GetDynCgsDir | scripts/evaluation/src/benchmark-utils.ts:6 | the NodeProf call graphs go to a directory directly inside the root |
| BenchmarkUtils.GetJamCgsDir | scripts/evaluation/src/benchmark-utils.ts:6-7 | the Jam call graphs go to a directory directly inside the root, never the NodeProf one |
| BenchmarkUtils.GetBenchmarkModulesDir | scripts/evaluation/src/benchmark-utils.ts:8 | the modules directory lies two levels below the root |
| BenchmarkUtils.ModulesToBenchmark | scripts/evaluation/src/benchmark-utils.ts:25 | one name per registry entry, each the entry's key, in declaration order |
| BenchmarkUtils.GetBenchmarkModulePath | scripts/evaluation/src/benchmark-utils.ts:27 | a benchmark whose name has no '/' gets a directory directly inside the modules directory |
| BenchmarkUtils.LookupSpec | scripts/evaluation/src/benchmark-utils.ts:29-31 | a lookup succeeds exactly for the listed keys and returns that key's entry |
| BenchmarkUtils.IsBenchmarkIffListed | scripts/evaluation/src/benchmark-utils.ts:11-25 | a name is registered exactly when `modulesToBenchmark` lists it |
| BenchmarkUtils.ModulesToBenchmarkListed | scripts/evaluation/src/benchmark-utils.ts:11-25 | `modulesToBenchmark` is the eleven benchmark names in declaration order |
| BenchmarkUtils.RegistryDistinct | scripts/evaluation/src/benchmark-utils.ts:11-23 | the registry has 11 entries and no name twice |
| BenchmarkUtils.ListedNamesAreSegments | scripts/evaluation/src/benchmark-utils.ts:12-22 | no listed benchmark name contains '/' |
| BenchmarkUtils.BenchmarkNamesAreSegments | scripts/evaluation/src/benchmark-utils.ts:11-23 | every registered name is a single path segment |
| BenchmarkUtils.GetBenchmarkMainFile | scripts/evaluation/src/benchmark-utils.ts:29-31 | the main file exists exactly for registered benchmarks; for any other name the resolve throws |
| BenchmarkUtils.MainFileIsRegisteredEntry | scripts/evaluation/src/benchmark-utils.ts:27-31 | the main file is the benchmark's registered entry resolved against `<root>/eval-targets/node_modules/<benchmark>` |
| FullEvaluation.Successes | scripts/evaluation/src/full-evaluation.ts:27-41 | the results are exactly the benchmarks whose run succeeded, each written to `<dir>/<name><ext>` |
| FullEvaluation.SuccessesAppend | scripts/evaluation/src/full-evaluation.ts:27-41 | results follow input order: the results of a concatenation are the concatenated results |
| FullEvaluation.DynRuns | scripts/evaluation/src/full-evaluation.ts:27-33 | one dynamic run is attempted per benchmark, in order |
| FullEvaluation.DynRunsSnoc | scripts/evaluation/src/full-evaluation.ts:27-41 | one more benchmark adds exactly its own run at the end |
| FullEvaluation.JamRuns | scripts/evaluation/src/full-evaluation.ts:52-55 | a Jam run writing `<jam_cgs>/<benchmark>.dot` is attempted for every registered benchmark and for nothing else |
| FullEvaluation.GenerateNodeProfCallGraphs | scripts/evaluation/src/full-evaluation.ts:21-44 | with all benchmarks registered, the results are the successful runs' `.raw` traces and a failing run is skipped; an unregistered benchmark throws outside the try, after the runs of the benchmarks before it |
| FullEvaluation.GenerateJamCallGraphs | scripts/evaluation/src/full-evaluation.ts:46-65 | the results are the benchmarks that are registered and whose Jam run succeeded; an unregistered or failing benchmark is caught and skipped |
| FullEvaluation.NormalizeNodeProfOutput | scripts/evaluation/src/full-evaluation.ts:12-19 | the name is kept |
| FullEvaluation.NormalizeRawOutput | scripts/evaluation/src/full-evaluation.ts:12-19 | a raw trace `<dir>/<b>.raw` is normalised into `<dir>/<b>.json` |
| FullEvaluation.Transforms | scripts/evaluation/src/full-evaluation.ts:12-19 | one transformation per result, in order, from the result's file to its normalised file |
| FullEvaluation.NormalizeAll | scripts/evaluation/src/full-evaluation.ts:70 | each result is normalised in order, and each normalisation is one transformation step |
| FullEvaluation.RunFullEvaluation | scripts/evaluation/src/full-evaluation.ts:67-72 | the dynamic phase, then the transformation of its successful results only, then the Jam phase; an unregistered benchmark aborts the run during the dynamic phase |
| FullEvaluation.TransformsReadSuccessfulTraces | scripts/evaluation/src/full-evaluation.ts:70 | every transformation reads the raw trace of a benchmark whose dynamic run succeeded and writes its `.json` |
| FullEvaluation.PhasesInOrder | scripts/evaluation/src/full-evaluation.ts:67-72 | in the sequence of the three phases, every dynamic run comes before every Jam run, with the transformations between them |
| FullEvaluation.DynamicPhaseBeforeJamPhase | scripts/evaluation/src/full-evaluation.ts:67-72 | in a full run every dynamic run precedes every Jam run |
| CallGraphs.SerializeEdge | src/main/java/com/amazon/pvar/tspoc/merlin/solver/CallGraph.java:91-104 | the callee's span comes first and the call site's second, each with its start, its end and its file |
| CallGraphs.SerializeEdgeInjective | src/main/java/com/amazon/pvar/tspoc/merlin/solver/CallGraph.java:91-104 | two edges serialize alike exactly when their callees and their call sites have the same locations: serializing loses nothing |
| CallGraphs.AddKeepsIndexesAgreeing | src/main/java/com/amazon/pvar/tspoc/merlin/solver/CallGraph.java:119-126 | recording a new edge in both multimaps keeps the edge set, callee map and caller map describing the same edges |
| CallGraphs.CallGraph.constructor | src/main/java/com/amazon/pvar/tspoc/merlin/solver/CallGraph.java:107-109 | a new call graph is empty and consistent |
| CallGraphs.CallGraph.AddEdge | src/main/java/com/amazon/pvar/tspoc/merlin/solver/CallGraph.java:119-126 | true exactly when the edge was new; only a new edge is recorded in both multimaps; the three structures keep agreeing |
| CallGraphs.AddEdgeSize | src/main/java/com/amazon/pvar/tspoc/merlin/solver/CallGraph.java:119-126 | adding an edge grows the edge set by one exactly when the edge was new |
| CallGraphs.CallGraph.AddCallEdge | src/main/java/com/amazon/pvar/tspoc/merlin/solver/CallGraph.java:128-130 | afterwards the edge is contained and the size grew by at most one |
| CallGraphs.CallGraph.Size | src/main/java/com/amazon/pvar/tspoc/merlin/solver/CallGraph.java:136-138 | the number of distinct edges |
| CallGraphs.CallGraph.Contains | src/main/java/com/amazon/pvar/tspoc/merlin/solver/CallGraph.java:144-146 | an edge is contained exactly when each multimap records it |
| CallGraphs.CallGraph.ToSerializableCallGraph | src/main/java/com/amazon/pvar/tspoc/merlin/solver/CallGraph.java:190-196 | exactly the serializations of the graph's edges |
| CallGraphs.AddDuplicateEdge | src/main/java/com/amazon/pvar/tspoc/merlin/solver/CallGraph.java:120-125 | adding an edge already present answers false and changes neither the edge set nor the multimaps |
| PointsToGraphs.AddKeepsIndexesAgreeing | src/main/java/com/amazon/pvar/tspoc/merlin/solver/PointsToGraph.java:150-153 | recording a fact in both multimaps keeps them inverse to each other |
| PointsToGraphs.PointsToGraph.constructor | src/main/java/com/amazon/pvar/tspoc/merlin/solver/PointsToGraph.java:91-93 | a new graph has no facts and no locations |
| PointsToGraphs.PointsToGraph.PointsToSet | src/main/java/com/amazon/pvar/tspoc/merlin/solver/PointsToGraph.java:100-108 | an allocation is in the points-to set exactly when the allocation map records the location for it |
| PointsToGraphs.PointsToGraph.AddPointsToFact | src/main/java/com/amazon/pvar/tspoc/merlin/solver/PointsToGraph.java:150-153 | the fact is put into both multimaps and is then visible from both sides; the table is untouched |
| PointsToGraphs.PointsToGraph.AddPointsToFactAt | src/main/java/com/amazon/pvar/tspoc/merlin/solver/PointsToGraph.java:161-165 | a new location object replaces any table entry, so the location is then incomplete, and the fact is added |
| PointsToGraphs.PointsToGraph.MarkLocationComplete | src/main/java/com/amazon/pvar/tspoc/merlin/solver/PointsToGraph.java:167-172 | the location is created when absent and then reported complete; the facts are unchanged |
| PointsToGraphs.PointsToGraph.IsLocationComplete | src/main/java/com/amazon/pvar/tspoc/merlin/solver/PointsToGraph.java:174-179 | false for an unknown location, otherwise the stored flag |
| PointsToGraphs.PointsToGraph.KnownFunctionInvocations | src/main/java/com/amazon/pvar/tspoc/merlin/solver/PointsToGraph.java:128-143 | exactly the call nodes with a function register whose own register may point to the function allocation |
| QueryDependencies.QueryNode.constructor | src/main/java/com/amazon/pvar/merlin/solver/QueryNode.java:24-28 | the node holds the given query and no errors |
| QueryDependencies.QueryNode.RegisterError | src/main/java/com/amazon/pvar/merlin/solver/QueryNode.java:30-32 | the error joins the error set |
| QueryDependencies.QueryNode.GetQuery | src/main/java/com/amazon/pvar/merlin/solver/QueryNode.java:38-40 | always the constructor's query |
| QueryDependencies.RegisterSameMessageTwice | src/main/java/com/amazon/pvar/merlin/solver/QueryNode.java:23-32 | two distinct exceptions with the same message are both kept, since the error set holds exceptions by identity |
| QueryDependencies.RegisterErrorTwice | src/main/java/com/amazon/pvar/merlin/solver/QueryNode.java:24-32 | registering the same error twice leaves the errors as after once |
| QueryDependencies.ErrorMapStep | src/main/java/com/amazon/pvar/merlin/solver/QueryDependencyGraph.java:58-63 | recording one more visited node's errors, only when it has some, keeps the map exact and free of empty sets |
| QueryDependencies.QueryDependencyGraph.constructor | src/main/java/com/amazon/pvar/merlin/solver/QueryDependencyGraph.java:34 | a new graph has no vertices and no edges |
| QueryDependencies.QueryDependencyGraph.EnsureVertexInGraph | src/main/java/com/amazon/pvar/merlin/solver/QueryDependencyGraph.java:36-41 | returns its argument, which is then a vertex; adding an existing vertex changes nothing |
| QueryDependencies.QueryDependencyGraph.AddDependency | src/main/java/com/amazon/pvar/merlin/solver/QueryDependencyGraph.java:43-49 | both ends become vertices and the edge is present exactly once |
| QueryDependencies.QueryDependencyGraph.ErrorsImpactingQuery | src/main/java/com/amazon/pvar/merlin/solver/QueryDependencyGraph.java:51-65 | for a known node, the map holds the errors of exactly the nodes reachable from it, itself included, that have errors, keyed by their query; an unknown node is rejected |
| QueryDependencies.QueryDependencyGraph.EnqueueUnseenSuccessors | src/main/java/com/amazon/pvar/merlin/solver/QueryDependencyGraph.java:51-58 | one breadth-first step: every successor of the node becomes seen, everything seen stays reachable, and the unseen count drops whenever something new is seen |
| QueryDependencies.QueryDependencyGraph.DirectDependenciesOf | src/main/java/com/amazon/pvar/merlin/solver/QueryDependencyGraph.java:67-74 | the queries of the direct successors exactly; an unknown node is rejected |
| QueryGraphs.CycleSearchOutcomeExists | src/main/java/com/amazon/pvar/tspoc/merlin/solver/querygraph/QueryGraph.java:163-178 | every new edge has one of the outcomes of the cycle search: a cycle found, construction failed, or an unknown vertex |
| QueryGraphs.QueryGraph.constructor | src/main/java/com/amazon/pvar/tspoc/merlin/solver/querygraph/QueryGraph.java:41-50 | a new graph has no root, no nodes and no edges |
| QueryGraphs.QueryGraph.DoesGraphHaveCycle | src/main/java/com/amazon/pvar/tspoc/merlin/solver/querygraph/QueryGraph.java:107-109 | no cycle is reported exactly when the node count is the edge count plus one |
| QueryGraphs.QueryGraph.SetRoot | src/main/java/com/amazon/pvar/tspoc/merlin/solver/querygraph/QueryGraph.java:82-85 | the root is recorded and becomes a node |
| QueryGraphs.QueryGraph.AddEdge | src/main/java/com/amazon/pvar/tspoc/merlin/solver/querygraph/QueryGraph.java:66-76 | the edge is refused by an exception exactly when a cycle was reported and the search did not fail; otherwise both ends and the edge, self-loops included, are added |
| QueryGraphs.EdgeClosingCycleIsAccepted | src/main/java/com/amazon/pvar/tspoc/merlin/solver/querygraph/QueryGraph.java:66-76 | on a tree, the edge that closes a cycle is accepted, and only then does the graph report a cycle |
| QueryGraphs.QueryGraphInstance.constructor | src/main/java/com/amazon/pvar/tspoc/merlin/solver/querygraph/QueryGraph.java:33 | the holder starts with a new, empty graph |
| QueryGraphs.QueryGraphInstance.GetInstance | src/main/java/com/amazon/pvar/tspoc/merlin/solver/querygraph/QueryGraph.java:54-59 | returns the held graph, or creates, holds and returns a new empty one when there is none |
| QueryGraphs.QueryGraphInstance.Reset | src/main/java/com/amazon/pvar/tspoc/merlin/solver/querygraph/QueryGraph.java:97-99 | the held graph is dropped |
| QueryGraphs.ResetThenGetInstance | src/main/java/com/amazon/pvar/tspoc/merlin/solver/querygraph/QueryGraph.java:54-59 | after `reset`, `getInstance` returns a new, empty graph |
| SolverFactory.MerlinSolverFactory.constructor | src/main/java/com/amazon/pvar/tspoc/merlin/solver/MerlinSolverFactory.java:31-33 | new graphs and an empty stack |
| SolverFactory.MerlinSolverFactory.AddNewActiveSolver | src/main/java/com/amazon/pvar/tspoc/merlin/solver/MerlinSolverFactory.java:43-45 | the solver is pushed on top and is the one peeked next; the graphs are unchanged |
| SolverFactory.MerlinSolverFactory.RemoveCurrentActiveSolver | src/main/java/com/amazon/pvar/tspoc/merlin/solver/MerlinSolverFactory.java:47-49 | the top solver is popped and returned; an empty stack throws |
| SolverFactory.MerlinSolverFactory.PeekCurrentActiveSolver | src/main/java/com/amazon/pvar/tspoc/merlin/solver/MerlinSolverFactory.java:51-53 | the top solver without changing the stack, or none exactly when the stack is empty |
| SolverFactory.MerlinSolverFactory.Reset | src/main/java/com/amazon/pvar/tspoc/merlin/solver/MerlinSolverFactory.java:55-59 | new, empty graphs and an empty stack |
| SolverFactory.PushThenPop | src/main/java/com/amazon/pvar/tspoc/merlin/solver/MerlinSolverFactory.java:43-49 | last in, first out: a pushed solver is popped next and the stack is restored |
| Scopes.ScopeChainOf | src/main/java/com/amazon/pvar/tspoc/merlin/ir/FunctionScope.java:31-38 | the chain starts at the function, follows enclosing functions and ends at one without an enclosing function, strictly outwards |
| Scopes.NewFunctionScope | src/main/java/com/amazon/pvar/tspoc/merlin/ir/FunctionScope.java:31-38 | the constructor's loop builds exactly that scope chain |
| Scopes.NewVariable | src/main/java/com/amazon/pvar/tspoc/merlin/ir/Variable.java:31-34 | the variable of the name with the scope of its declaring function |
| Scopes.GetDeclaringFunction | src/main/java/com/amazon/pvar/tspoc/merlin/ir/Variable.java:44-46 | the declaring function belongs to the variable's own scope chain |
| Scopes.DeclaringFunctionOfVariable | src/main/java/com/amazon/pvar/tspoc/merlin/ir/Variable.java:44-46 | the declaring function is the head of the scope chain: the function the variable was built in |
| Scopes.VariableEquality | src/main/java/com/amazon/pvar/tspoc/merlin/ir/Variable.java:82-88 | two variables are equal exactly when their names and declaring functions are |
| Scopes.VisibleFromIffChain | src/main/java/com/amazon/pvar/tspoc/merlin/ir/Variable.java:55-69 | a variable is visible in a function exactly when its declaring function is in that function's chain and no function before it redeclares the name |
| Scopes.ShadowedBetweenIsInvisible | src/main/java/com/amazon/pvar/tspoc/merlin/ir/Variable.java:58-63 | a redeclaration between the function and the declaring function hides the variable |
| Scopes.NotAncestorIsInvisible | src/main/java/com/amazon/pvar/tspoc/merlin/ir/Variable.java:66-68 | a variable is invisible in a function whose chain does not contain its declaring function |
| Scopes.IsVisibleIn | src/main/java/com/amazon/pvar/tspoc/merlin/ir/Variable.java:55-69 | the outward walk answers the chain visibility test |
| Scopes.CapturedIn | src/main/java/com/amazon/pvar/tspoc/merlin/ir/Variable.java:71-75 | the same answer as `isVisibleIn` |
| Scopes.ReplaceSpaces | src/main/java/com/amazon/pvar/tspoc/merlin/ir/FunctionScope.java:60 | every space becomes '-' and every other character is kept |
| Scopes.PrintedFunctions | src/main/java/com/amazon/pvar/tspoc/merlin/ir/FunctionScope.java:58-61 | one printed name per function of the chain, spaces made dashes |
| Scopes.SplitJoinRoundTrip | src/main/java/com/amazon/pvar/tspoc/merlin/ir/FunctionScope.java:57-63 | the dot-joined string splits back into its parts when the parts contain no '.' |
| Scopes.JoinKeepsNoSpaces | src/main/java/com/amazon/pvar/tspoc/merlin/ir/FunctionScope.java:61-62 | joining space-free parts with '.' gives a space-free string |
| Scopes.ScopeToString | src/main/java/com/amazon/pvar/tspoc/merlin/ir/FunctionScope.java:57-63 | when no printed function contains a '.', the string splits back into the printed functions, one per scope of the chain |
| Scopes.ScopeToStringHasNoSpaces | src/main/java/com/amazon/pvar/tspoc/merlin/ir/FunctionScope.java:57-63 | the printed scope never contains a space |
| AbstractFlowFunctions.FirstDeclaringIsInnermost | src/main/java/com/amazon/pvar/merlin/solver/flowfunctions/AbstractFlowFunctions.java:223-237 | the search picks the innermost declaring function, and falls back only when none declares the name |
| AbstractFlowFunctions.ScopeDeclaresFunctionIff | src/main/java/com/amazon/pvar/merlin/solver/flowfunctions/AbstractFlowFunctions.java:245-256 | a function declares a function of the name exactly when one of the functions declared directly in it has that name; an unnamed one never matches |
| AbstractFlowFunctions.DeclaringScope | src/main/java/com/amazon/pvar/merlin/solver/flowfunctions/AbstractFlowFunctions.java:214-238 | the declaring scope is always a function of the program |
| AbstractFlowFunctions.DeclaringScopeIsInnermost | src/main/java/com/amazon/pvar/merlin/solver/flowfunctions/AbstractFlowFunctions.java:214-238 | `process` resolves to the main function at the end of the chain; any other name resolves to the innermost function declaring it as a variable, parameter or named function, or else to the usage scope, without throwing |
| AbstractFlowFunctions.GetDeclaringScope | src/main/java/com/amazon/pvar/merlin/solver/flowfunctions/AbstractFlowFunctions.java:214-238 | the outward walk returns that declaring scope |
| AbstractFlowFunctions.DeclaringScopeIsVisible | src/main/java/com/amazon/pvar/merlin/solver/flowfunctions/AbstractFlowFunctions.java:223-232 | when some function of the chain declares the name, the variable found is visible in the usage scope |
| AbstractFlowFunctions.StatesAt | src/main/java/com/amazon/pvar/merlin/solver/flowfunctions/AbstractFlowFunctions.java:172-178 | exactly the states of the value at the given nodes |
| AbstractFlowFunctions.StateSet.constructor | src/main/java/com/amazon/pvar/merlin/solver/flowfunctions/AbstractFlowFunctions.java:69 | the next states start empty |
| AbstractFlowFunctions.StateSet.Add | src/main/java/com/amazon/pvar/merlin/solver/flowfunctions/AbstractFlowFunctions.java:95-97 | the state joins the next states |
| AbstractFlowFunctions.StateSet.AddAtEach | src/main/java/com/amazon/pvar/merlin/solver/flowfunctions/AbstractFlowFunctions.java:172-178 | the value at each of the nodes joins the next states |
| AbstractFlowFunctions.SyntheticRegisterForMethodCall | src/main/java/com/amazon/pvar/merlin/solver/flowfunctions/AbstractFlowFunctions.java:381-386 | only for a method call on a static property; a register of the call's function whose id is at most -100 |
| AbstractFlowFunctions.SyntheticRegisterInjective | src/main/java/com/amazon/pvar/merlin/solver/flowfunctions/AbstractFlowFunctions.java:381-386 | distinct call nodes get distinct synthetic registers |
| AbstractFlowFunctions.QueriesToResolveFunctionCall | src/main/java/com/amazon/pvar/merlin/solver/flowfunctions/AbstractFlowFunctions.java:299-329 | the loop builds exactly `CalleeQueries`: no query for a callee TAJS names; one backward query for the function register per predecessor; else one method-call query for a static property, and none otherwise |
| AbstractFlowFunctions.CalleeQueries | src/main/java/com/amazon/pvar/merlin/solver/flowfunctions/AbstractFlowFunctions.java:299-329 | every query that resolves a callee is a backward query |
| AbstractFlowFunctions.MethodCalleeQueriedIff | src/main/java/com/amazon/pvar/merlin/ir/FlowgraphUtils.java:68-70 | the method callee is queried exactly for a call with no function register and a static property name, unless TAJS names the callee |
| AbstractFlowFunctions.TAJSNamedCallIsInternal | src/main/java/com/amazon/pvar/merlin/ir/FlowgraphUtils.java:152-155 | a call whose callee TAJS names is TAJS-internal and gets no callee query; a call that gets one is internal only through a synthetic location |
| ForwardFlowFunctions.ForwardNormalFlow | src/main/java/com/amazon/pvar/merlin/solver/flowfunctions/ForwardFlowFunctions.java:80-83 | every produced state is at a successor of the node |
| ForwardFlowFunctions.BinaryOperatorForward | src/main/java/com/amazon/pvar/merlin/solver/flowfunctions/ForwardFlowFunctions.java:69-78 | a value equal to either argument register is killed; any other value reaches every successor unchanged |
| ForwardFlowFunctions.UnaryOperatorForward | src/main/java/com/amazon/pvar/merlin/solver/flowfunctions/ForwardFlowFunctions.java:534-539 | the argument register is killed; every other value reaches every successor |
| ForwardFlowFunctions.ReadVariableForward | src/main/java/com/amazon/pvar/merlin/solver/flowfunctions/ForwardFlowFunctions.java:421-432 | a state is produced exactly when it lies at a successor and either carries the tracked value, which is not the result register, or carries the result register while the tracked value is the variable read: the result register is killed, every other value passes through, and the read variable also produces the result register |
| ForwardFlowFunctions.WriteVariableForward | src/main/java/com/amazon/pvar/merlin/solver/flowfunctions/ForwardFlowFunctions.java:592-613 | a state is produced exactly when it lies at a successor and either carries the tracked value, which is not the written variable, or carries the written variable while the tracked value is the stored register or an allocation with its result register: the variable is killed, every other value passes through, and the stored value also produces the variable |
| ForwardFlowFunctions.ForwardFlowFunctions.constructor | src/main/java/com/amazon/pvar/merlin/solver/flowfunctions/ForwardFlowFunctions.java:54-56 | a fresh, empty set of next states for the flow graph and tracked value |
| ForwardFlowFunctions.ForwardFlowFunctions.ComputeNextStates | src/main/java/com/amazon/pvar/merlin/solver/flowfunctions/AbstractFlowFunctions.java:155-170 | the returned states are exactly the node's forward rule for the tracked value |
| ForwardFlowFunctions.ForwardFlowFunctions.AddStandardNormalFlowToNext | src/main/java/com/amazon/pvar/merlin/solver/flowfunctions/ForwardFlowFunctions.java:80-83 | the tracked value is added at every successor |
| ForwardFlowFunctions.ForwardFlowFunctions.GenSingleNormalFlow | src/main/java/com/amazon/pvar/merlin/solver/flowfunctions/ForwardFlowFunctions.java:666-669 | the given value is added at every successor |
| ForwardFlowFunctions.ForwardFlowFunctions.TreatAsNop | src/main/java/com/amazon/pvar/merlin/solver/flowfunctions/ForwardFlowFunctions.java:660-663 | the tracked value at every successor and nothing else is added |
| ForwardFlowFunctions.ForwardFlowFunctions.VisitBinaryOperator | src/main/java/com/amazon/pvar/merlin/solver/flowfunctions/ForwardFlowFunctions.java:69-78 | adds exactly the forward binary-operator rule's states |
| ForwardFlowFunctions.ForwardFlowFunctions.VisitUnaryOperator | src/main/java/com/amazon/pvar/merlin/solver/flowfunctions/ForwardFlowFunctions.java:534-539 | adds exactly the forward unary-operator rule's states |
| ForwardFlowFunctions.ForwardFlowFunctions.VisitReadVariable | src/main/java/com/amazon/pvar/merlin/solver/flowfunctions/ForwardFlowFunctions.java:421-432 | adds exactly the forward read-variable rule's states |
| ForwardFlowFunctions.ForwardFlowFunctions.VisitWriteVariable | src/main/java/com/amazon/pvar/merlin/solver/flowfunctions/ForwardFlowFunctions.java:592-613 | adds exactly the forward write-variable rule's states |
| ForwardFlowFunctions.InvertMapping | src/main/java/com/amazon/pvar/merlin/solver/flowfunctions/ForwardFlowFunctions.java:671-685 | k is in the inverse's set for v exactly when v is in the multimap's set for k; the keys are exactly the values that occur |
| BackwardFlowFunctions.DeclaredValue | src/main/java/com/amazon/pvar/merlin/solver/flowfunctions/BackwardFlowFunctions.java:226-242 | the result register when there is one, otherwise the variable named after the declared function |
| BackwardFlowFunctions.BackwardNormalFlow | src/main/java/com/amazon/pvar/merlin/solver/flowfunctions/BackwardFlowFunctions.java:572-575 | every produced state is at a predecessor of the node |
| BackwardFlowFunctions.BinaryOperatorBackward | src/main/java/com/amazon/pvar/merlin/solver/flowfunctions/BackwardFlowFunctions.java:58-71 | a tracked result register is replaced by both argument registers at every predecessor; any other value flows back unchanged |
| BackwardFlowFunctions.UnaryOperatorBackward | src/main/java/com/amazon/pvar/merlin/solver/flowfunctions/BackwardFlowFunctions.java:443-451 | a tracked result register is replaced by the argument register and does not itself flow back |
| BackwardFlowFunctions.NewObjectBackward | src/main/java/com/amazon/pvar/merlin/solver/flowfunctions/BackwardFlowFunctions.java:283-288 | nothing flows back exactly when the value is the result register or there is no predecessor; any other value flows back unchanged |
| BackwardFlowFunctions.DeclareFunctionBackward | src/main/java/com/amazon/pvar/merlin/solver/flowfunctions/BackwardFlowFunctions.java:226-242 | the declared value is killed and every other value flows back unchanged |
| BackwardFlowFunctions.WriteVariableBackward | src/main/java/com/amazon/pvar/merlin/solver/flowfunctions/BackwardFlowFunctions.java:510-522 | a tracked written variable is replaced by the stored register at every predecessor; any other value flows back |
| BackwardFlowFunctions.BackwardFlowFunctions.constructor | src/main/java/com/amazon/pvar/merlin/solver/flowfunctions/BackwardFlowFunctions.java:43-45 | a fresh, empty set of next states for the flow graph and tracked value |
| BackwardFlowFunctions.BackwardFlowFunctions.ComputeNextStates | src/main/java/com/amazon/pvar/merlin/solver/flowfunctions/AbstractFlowFunctions.java:155-170 | the returned states are exactly the node's backward rule for the tracked value |
| BackwardFlowFunctions.BackwardFlowFunctions.AddNormalFlowToPreds | src/main/java/com/amazon/pvar/merlin/solver/flowfunctions/BackwardFlowFunctions.java:572-575 | the tracked value is added at every predecessor |
| BackwardFlowFunctions.BackwardFlowFunctions.GenSingleNormalFlow | src/main/java/com/amazon/pvar/merlin/solver/flowfunctions/BackwardFlowFunctions.java:578-581 | the given value is added at every predecessor |
| BackwardFlowFunctions.BackwardFlowFunctions.TreatAsNop | src/main/java/com/amazon/pvar/merlin/solver/flowfunctions/BackwardFlowFunctions.java:567-570 | the tracked value at every predecessor and nothing else is added |
| BackwardFlowFunctions.BackwardFlowFunctions.VisitBinaryOperator | src/main/java/com/amazon/pvar/merlin/solver/flowfunctions/BackwardFlowFunctions.java:58-71 | adds exactly the backward binary-operator rule's states |
| BackwardFlowFunctions.BackwardFlowFunctions.VisitUnaryOperator | src/main/java/com/amazon/pvar/merlin/solver/flowfunctions/BackwardFlowFunctions.java:443-451 | adds exactly the backward unary-operator rule's states |
| BackwardFlowFunctions.BackwardFlowFunctions.VisitNewObject | src/main/java/com/amazon/pvar/merlin/solver/flowfunctions/BackwardFlowFunctions.java:283-288 | adds exactly the backward new-object rule's states |
| BackwardFlowFunctions.BackwardFlowFunctions.VisitDeclareFunction | src/main/java/com/amazon/pvar/merlin/solver/flowfunctions/BackwardFlowFunctions.java:226-242 | adds exactly the backward function-declaration rule's states |
| BackwardFlowFunctions.BackwardFlowFunctions.VisitWriteVariable | src/main/java/com/amazon/pvar/merlin/solver/flowfunctions/BackwardFlowFunctions.java:510-522 | adds exactly the backward write-variable rule's states |
| CapturedVariables.BoundVariablesIn | src/main/java/com/amazon/pvar/tspoc/merlin/solver/CapturedVariableAnalysis.java:51-58 | the function's own name, if any, and its variable names; parameters are not bound |
| CapturedVariables.DirectlyUsedIn | src/main/java/com/amazon/pvar/tspoc/merlin/solver/CapturedVariableAnalysis.java:68-77 | exactly the names of the function's own read-variable and catch nodes |
| CapturedVariables.FreeVariablesIn | src/main/java/com/amazon/pvar/tspoc/merlin/solver/CapturedVariableAnalysis.java:60-89 | every name the function uses without binding it is free in it |
| CapturedVariables.VariableUsedInFunction | src/main/java/com/amazon/pvar/tspoc/merlin/solver/CapturedVariableAnalysis.java:47-49 | true exactly when some function declared within the function, itself included, uses the name without binding it |
| CapturedVariables.FreeInDeclaredFromIff | src/main/java/com/amazon/pvar/tspoc/merlin/solver/CapturedVariableAnalysis.java:79-88 | the names the declarations contribute are the free names of the declared functions, unfiltered by the outer bound names |
| CapturedVariables.FreeVariableIffUnboundUse | src/main/java/com/amazon/pvar/tspoc/merlin/solver/CapturedVariableAnalysis.java:60-89 | a name is free in a function exactly when some function declared within it, itself included, uses the name without binding it |
| CapturedVariables.FunctionsCapturingVarIn | src/main/java/com/amazon/pvar/tspoc/merlin/solver/CapturedVariableAnalysis.java:24-29 | exactly the declarations directly in the context whose declared function has the name free |
| SyntacticReferenceResolvers.ChildrenUpTo | src/main/java/com/amazon/pvar/tspoc/merlin/solver/flowfunctions/SyntacticReferenceResolver.java:80-83 | exactly the functions declared by the first nodes, all nested deeper than the function |
| SyntacticReferenceResolvers.WeightUpToIsSum | src/main/java/com/amazon/pvar/tspoc/merlin/solver/flowfunctions/SyntacticReferenceResolver.java:49-83 | the weight of a function is one more than the summed weights of the functions it declares, which bounds the worklist |
| SyntacticReferenceResolvers.ReferencedInHasWitness | src/main/java/com/amazon/pvar/tspoc/merlin/solver/flowfunctions/SyntacticReferenceResolver.java:53-77 | a finding is a read or write of the name in a function within the start where the variable is visible |
| SyntacticReferenceResolvers.WorklistStep | src/main/java/com/amazon/pvar/tspoc/merlin/solver/flowfunctions/SyntacticReferenceResolver.java:49-83 | replacing a visible function without a use by the functions it declares keeps whether the worklist leads to a finding |
| SyntacticReferenceResolvers.SyntacticReferenceResolver.constructor | src/main/java/com/amazon/pvar/tspoc/merlin/solver/flowfunctions/SyntacticReferenceResolver.java:37-40 | holds the outer function and the variable |
| SyntacticReferenceResolvers.SyntacticReferenceResolver.IsVarReferencedInNestedScopes | src/main/java/com/amazon/pvar/tspoc/merlin/solver/flowfunctions/SyntacticReferenceResolver.java:45-86 | true exactly when the search from the outer function, skipping invisible functions with what they contain, finds a read or write of the name; it terminates |
| SyntacticReferenceResolvers.SyntacticReferenceResolver.EnqueueDeclaredFunctions | src/main/java/com/amazon/pvar/tspoc/merlin/solver/flowfunctions/SyntacticReferenceResolver.java:80-83 | the declared functions are appended in node order |
| SyntacticReferenceResolvers.SyntacticReferenceResolver.ReadsOrWritesName | src/main/java/com/amazon/pvar/tspoc/merlin/solver/flowfunctions/SyntacticReferenceResolver.java:58-77 | true exactly when the function reads or writes a variable of the name |
| FlowgraphUtils.AllNodes | src/main/java/com/amazon/pvar/merlin/ir/FlowgraphUtils.java:32-34 | exactly the nodes of the flow graph |
| FlowgraphUtils.EnqueueAll | src/main/java/com/amazon/pvar/merlin/ir/FlowgraphUtils.java:132-135 | the queue afterwards holds exactly the old queue and the new nodes |
| FlowgraphUtils.SearchStart | src/main/java/com/amazon/pvar/merlin/ir/FlowgraphUtils.java:112-116 | the entry node of the function that declares the named function |
| FlowgraphUtils.ExploreFrom | src/main/java/com/amazon/pvar/merlin/ir/FlowgraphUtils.java:118-135 | one step: every exploration successor of the node joins the queue, and the queue holds only nodes reachable from the start |
| FlowgraphUtils.FindReferencesToFunctionName | src/main/java/com/amazon/pvar/merlin/ir/FlowgraphUtils.java:105-139 | empty for an unnamed function; otherwise exactly the reads of the name reachable from the declaring function's entry, descending only into nested functions without a parameter of that name |
| Prettify.PrettyFromAppend | scripts/random_program_generation/fuzz.py:29-48 | one more character appends exactly its piece, laid out at the current depth |
| Prettify.DepthOfAppend | scripts/random_program_generation/fuzz.py:30-44 | the depth grows by one at '{', shrinks by one at '}', and is otherwise unchanged |
| Prettify.IndentIsSpaces | scripts/random_program_generation/fuzz.py:33-34 | the indentation of a level is two spaces per level and nothing else |
| Prettify.PrettyFromSplit | scripts/random_program_generation/fuzz.py:26-49 | laying out a concatenation lays out the second part at the depth the first part ends at |
| Prettify.CharacterLayout | scripts/random_program_generation/fuzz.py:26-49 | each input character is laid out as its piece at the brace depth of what precedes it |
| Prettify.PieceShapes | scripts/random_program_generation/fuzz.py:29-48 | ';' is followed by a newline and the current indentation; '{' by a newline and one level more; '}' is preceded by a newline and one level less and followed by a newline and that indentation; any other character is copied alone |
| Prettify.DepthIsBraceBalance | scripts/random_program_generation/fuzz.py:28-44 | the indent level is the number of '{' minus the number of '}' read so far |
| Prettify.Prettify | scripts/random_program_generation/fuzz.py:26-49 | the loop produces exactly the character-by-character layout of the input |
| Prettify.PrintCharacter | scripts/random_program_generation/fuzz.py:30-48 | one character is written as its piece at the current level (line breaks and indentation before `}` and after `;`, `{`, `}`), and the level moves by its brace delta |
| Prettify.AppendIndent | scripts/random_program_generation/fuzz.py:33-34 | the loop appends exactly the indentation of the level |
| Prettify.PrettyKeepsInput | scripts/random_program_generation/fuzz.py:26-49 | the input characters occur in the output in the same order |
| Prettify.PlainTextUnchanged | scripts/random_program_generation/fuzz.py:35 | text without ';', '{' or '}' is copied unchanged |
| Prettify.PrettyOnlyAddsLayout | scripts/random_program_generation/fuzz.py:26-49 | with spaces and newlines removed, the output equals the input with spaces and newlines removed |
| ScopeStacks.ScopeStack.Top | scripts/random_program_generation/JSGrammars.py:56 | the innermost scope |
| ScopeStacks.ScopeStack.GlobalFunctions | scripts/random_program_generation/JSGrammars.py:102-104 | exactly the identifiers of the global scope typed `FUNC` |
| ScopeStacks.ScopeStack.constructor | scripts/random_program_generation/JSGrammars.py:20-24 | one empty global scope, no types, no pending calls, not initialised |
| ScopeStacks.ScopeStack.Reset | scripts/random_program_generation/JSGrammars.py:116-121 | the initial state is restored |
| ScopeStacks.ScopeStack.AddScope | scripts/random_program_generation/JSGrammars.py:39-40 | an empty scope is pushed; nothing else changes |
| ScopeStacks.ScopeStack.RemoveScope | scripts/random_program_generation/JSGrammars.py:42-47 | the innermost scope is popped unless it is the only one, and the name is then declared in the new innermost scope; the stack never empties |
| ScopeStacks.ScopeStack.RemoveAnonymousScope | scripts/random_program_generation/JSGrammars.py:49-53 | the innermost scope is popped unless it is the only one; the answer is always true |
| ScopeStacks.ScopeStack.AddIdentifier | scripts/random_program_generation/JSGrammars.py:55-57 | the name joins the innermost scope with the given type; the outer scopes are unchanged |
| ScopeStacks.ScopeStack.AddFunctionIdentifier | scripts/random_program_generation/JSGrammars.py:59-61 | the name joins the innermost scope typed `FUNC` |
| ScopeStacks.ScopeStack.AddConstIdentifier | scripts/random_program_generation/JSGrammars.py:63-65 | the name joins the innermost scope typed `CONST` |
| ScopeStacks.ScopeStack.RemoveIdentifier | scripts/random_program_generation/JSGrammars.py:67-71 | the name leaves the innermost scope; removing an absent name changes nothing; types are kept |
| ScopeStacks.ScopeStack.AddGlobalFunctions | scripts/random_program_generation/JSGrammars.py:101-103 | the global identifiers are all typed exactly when the loop completes, and then exactly the global functions have joined the pending calls; otherwise it stops at a global identifier without a type, having added only global functions |
| ScopeStacks.ScopeStack.CallsLeftToAdd | scripts/random_program_generation/JSGrammars.py:99-107 | on first use the global functions become pending calls, once; a global identifier without a type raises and leaves initialisation undone; the answer is "no calls left" exactly when none is pending |
| ScopeStacks.ScopeStack.GetNextCall | scripts/random_program_generation/JSGrammars.py:109-114 | no call exactly when none is pending; otherwise one pending call is taken from the pending set and from the global scope, and it raises when the name is no longer global |
| ScopeStacks.ScopeRoundTrip | scripts/random_program_generation/JSGrammars.py:39-47 | opening and closing a function's scope declares the function in the enclosing scope and restores the rest |
| ScopeStacks.AnonymousScopeRoundTrip | scripts/random_program_generation/JSGrammars.py:39-53 | opening and closing an anonymous scope leaves the stack as it was |
| ScopeStacks.AddAllCalls | scripts/random_program_generation/JSGrammars.py:99-114 | with every global typed, initialising and then draining the pending calls yields each global function exactly once and removes exactly those from the global scope |

## Left out

- Console output, file reads and writes, directory creation and JSON serialisation in the TypeScript scripts are not modelled. The warning of the Jam exporter is returned as a list instead of being logged.
- The external processes (NodeProf, Jam, the Graal home lookup) are not modelled. Their success or failure is a function parameter, and their invocations are returned as steps.
- `path.resolve` is modelled as a plain join with '/'. The normalisation of `.`, `..` and absolute segments is not modelled, and the evaluation root directory is a parameter instead of `__dirname`.
- NodeProfTransformer.NodeProfTransform: the one-based conversion is commented out in the transformer, so the conversion functions are modelled and related to the filter without being applied to its output.
- The command-line wiring of the NodeProf transformer (`scripts/evaluation/nodeprof-transformer/cli.ts`) shares the definitions of `scripts/evaluation/src/nodeprof-transformer.ts`. Its argument parsing and file I/O are not modelled.
- QueryGraphs.QueryGraph.AddEdge: the cycle search is an input, constrained by `IsCycleSearchOutcome`, instead of the deque walk in `Cycle.computeCycleEdges`. When the start is unreachable from the end and a cycle is reachable, the source's walk (which has no visited set) does not terminate. The model treats that case as a failed construction.
- QueryGraphs: the DOT rendering of a cycle and the resolution flag of `Cycle` are not modelled. Only the empty resolution strategy exists, and it always throws.
- The interprocedural parts of the flow functions are not modelled: calls, returns, subqueries, live collections, property reads and writes, and the flow into closures that capture a written variable. Only the intraprocedural rules named in the table are modelled.
- ForwardFlowFunctions.ForwardFlowFunctions.ComputeNextStates and BackwardFlowFunctions.BackwardFlowFunctions.ComputeNextStates accept only the node kinds whose rule is modelled. Other node kinds fall under the interprocedural parts above.
- The solvers themselves, the pushdown-system machinery, the solver visualisation, and the flow functions of the older package generation are not modelled. The merlin `PointsToGraph` and the `LiveMap` wrappers are not modelled either.
- TAJS's flow graph is abstracted as a tree of functions with indexed nodes and explicit intraprocedural edges. Its construction from JavaScript is not modelled.
- Java object identity is modelled as follows:
  - `QueryNode`s and solvers are Dafny objects;
  - value objects (locations, registers, edges, queries) are datatypes compared structurally, which is the equality the source defines for them;
  - `Exception`s, which Java compares by reference, carry an `id` standing for their identity, so two exceptions with the same message stay distinct in a node's error set.
- The memo cache of `freeVariablesIn` is not modelled. The function is pure, so the cache does not change any result.
- Concurrency is not modelled: the synchronized maps and static mutable state are assumed to be used from one thread.
- The `FunctionScope` doc comment describes the chain as starting at the outermost function. The code starts at the initial (innermost) function and walks outwards, and the model follows the code.
- Randomness is not modelled: `random.choice` in `use_identifier` and `get_*_identifier`, and the random type of `add_identifier`. The type of `add_identifier` is a parameter; the other random-choice helpers and the fuzzer's generation loop are not modelled.
- ScopeStacks.ScopeStack.GetNextCall: `set.pop()` takes an arbitrary element, modelled as a nondeterministic choice. The `KeyError` when a pending call was removed from the global scope by `remove_identifier` is modelled as a result.
- ScopeStacks.ScopeStack.CallsLeftToAdd: the order in which the global scope is iterated is not fixed. When an identifier has no type, the error result says only that the pending calls lie between the old ones and all global functions.
- ScopeStacks.ScopeStack.RemoveScope adds the closed function's name without setting a type, as the source does. Such an untyped global name makes `calls_left_to_add` raise, which the model reports as `MissingType`.
- FullEvaluation.GenerateNodeProfCallGraphs: the main file of a benchmark is computed outside the `try`, so an unregistered benchmark aborts the whole run (and with it the Jam phase). The Jam phase computes it inside the `try`. This is the behaviour of the code, and the model keeps it.
