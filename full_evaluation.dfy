/**
 * The evaluation orchestrator: records a dynamic (NodeProf) call graph and a
 * Jam call graph for every benchmark, isolating failures of the external runs.
 * The external runs are abstracted to whether they throw, and the observable
 * actions (external runs and trace transformations) are returned in order as
 * a list of steps instead of being performed.
 */
module FullEvaluation {
  import opened Wrappers
  import opened BenchmarkUtils
  import Sequences

  /** A benchmark and the file its call graph was written to. */
  datatype BenchmarkResult = BenchmarkResult(name: string, outputFile: string)

  /** An observable action of the orchestrator. */
  datatype Step =
    | RunDynCg(benchmark: string, outputFile: string, mainFile: string)
    | RunJam(benchmark: string, outputFile: string)
    | TransformTrace(inputFile: string, outputFile: string)

  /** The results of the benchmarks whose run succeeded, in input order, written to `<dir>/<name><ext>`. */
  function Successes(benchmarks: seq<string>, succeeds: string -> bool, dir: string, ext: string): (r: seq<BenchmarkResult>)
    ensures |r| <= |benchmarks|
    ensures forall x :: x in r ==> x.name in benchmarks && succeeds(x.name) && x.outputFile == Resolve(dir, x.name + ext)
    ensures forall b :: b in benchmarks && succeeds(b) ==> BenchmarkResult(b, Resolve(dir, b + ext)) in r
  {
    if benchmarks == [] then []
    else
      var init := benchmarks[..|benchmarks| - 1];
      var b := benchmarks[|benchmarks| - 1];
      assert forall x :: x in benchmarks ==> x in init || x == b;
      Successes(init, succeeds, dir, ext) + (if succeeds(b) then [BenchmarkResult(b, Resolve(dir, b + ext))] else [])
  }

  /** Results keep the order of the benchmark list: the results of a concatenation are concatenated. */
  lemma {:induction false} SuccessesAppend(a: seq<string>, b: seq<string>, succeeds: string -> bool, dir: string, ext: string)
    ensures Successes(a + b, succeeds, dir, ext) == Successes(a, succeeds, dir, ext) + Successes(b, succeeds, dir, ext)
    decreases |b|
  {
    if b == [] {
      assert a + b == a;
    } else {
      var ab, init, last := a + b, b[..|b| - 1], b[|b| - 1];
      var tail := if succeeds(last) then [BenchmarkResult(last, Resolve(dir, last + ext))] else [];
      assert ab[..|ab| - 1] == a + init && ab[|ab| - 1] == last;
      SuccessesAppend(a, init, succeeds, dir, ext);
      calc {
        Successes(ab, succeeds, dir, ext);
        Successes(a + init, succeeds, dir, ext) + tail;
        Successes(a, succeeds, dir, ext) + Successes(init, succeeds, dir, ext) + tail;
        Successes(a, succeeds, dir, ext) + (Successes(init, succeeds, dir, ext) + tail);
      }
    }
  }

  /** Every benchmark of the list is registered. */
  predicate AllRegistered(benchmarks: seq<string>) {
    forall k :: 0 <= k < |benchmarks| ==> IsBenchmark(benchmarks[k])
  }

  /** The dynamic run of one registered benchmark: its main file traced into `<dyn_cgs>/<benchmark>.raw`. */
  function DynRun(rootDir: string, benchmark: string): Step
    requires IsBenchmark(benchmark)
  {
    RunDynCg(benchmark, Resolve(GetDynCgsDir(rootDir), benchmark + ".raw"), GetBenchmarkMainFile(rootDir, benchmark).value)
  }

  /** The dynamic runs attempted for registered benchmarks, one per benchmark, in order. */
  function DynRuns(rootDir: string, benchmarks: seq<string>): (r: seq<Step>)
    requires AllRegistered(benchmarks)
    ensures |r| == |benchmarks|
    ensures forall k :: 0 <= k < |r| ==> r[k].RunDynCg? && r[k].benchmark == benchmarks[k]
  {
    seq(|benchmarks|, k requires 0 <= k < |benchmarks| => DynRun(rootDir, benchmarks[k]))
  }

  /** Extending the benchmark list by one extends the dynamic runs by that benchmark's run. */
  lemma DynRunsSnoc(rootDir: string, benchmarks: seq<string>, benchmark: string)
    requires AllRegistered(benchmarks) && IsBenchmark(benchmark)
    ensures AllRegistered(benchmarks + [benchmark])
    ensures DynRuns(rootDir, benchmarks + [benchmark]) == DynRuns(rootDir, benchmarks) + [DynRun(rootDir, benchmark)]
  {
    var extended := benchmarks + [benchmark];
    assert forall k :: 0 <= k < |benchmarks| ==> extended[k] == benchmarks[k];
  }

  /** The Jam runs attempted: one per registered benchmark, in order. */
  function JamRuns(rootDir: string, benchmarks: seq<string>): (r: seq<Step>)
    ensures forall k :: 0 <= k < |r| ==> r[k].RunJam? && IsBenchmark(r[k].benchmark) && r[k].benchmark in benchmarks
    ensures forall b :: b in benchmarks && IsBenchmark(b) ==> RunJam(b, Resolve(GetJamCgsDir(rootDir), b + ".dot")) in r
  {
    if benchmarks == [] then []
    else
      var init := benchmarks[..|benchmarks| - 1];
      var b := benchmarks[|benchmarks| - 1];
      assert forall x :: x in benchmarks ==> x in init || x == b;
      JamRuns(rootDir, init) + (if IsBenchmark(b) then [RunJam(b, Resolve(GetJamCgsDir(rootDir), b + ".dot"))] else [])
  }

  /** A Jam run succeeds when the main file can be computed and the external run does not throw. */
  function JamOutcome(jamSucceeds: string -> bool): string -> bool {
    b => IsBenchmark(b) && jamSucceeds(b)
  }

  /**
   * generateNodeProfCallGraphs. The main file is looked up outside the
   * try/catch, so an unregistered benchmark aborts the whole phase (and the
   * results collected so far are lost); a failing run is caught and skipped.
   */
  method GenerateNodeProfCallGraphs(rootDir: string, benchmarks: seq<string>, dynSucceeds: string -> bool)
    returns (outcome: Result<seq<BenchmarkResult>, string>, steps: seq<Step>)
    ensures outcome.Ok? <==> AllRegistered(benchmarks)
    ensures outcome.Ok? ==> outcome.value == Successes(benchmarks, dynSucceeds, GetDynCgsDir(rootDir), ".raw")
                            && steps == DynRuns(rootDir, benchmarks)
    ensures outcome.Err? ==> (exists i :: 0 <= i < |benchmarks| && !IsBenchmark(benchmarks[i])
                                && AllRegistered(benchmarks[..i])
                                && steps == DynRuns(rootDir, benchmarks[..i]))
  {
    var dynCallgraphOutDir := GetDynCgsDir(rootDir);
    var generatedCallGraphs: seq<BenchmarkResult> := [];
    steps := [];
    var i := 0;
    while i < |benchmarks|
      invariant 0 <= i <= |benchmarks|
      invariant AllRegistered(benchmarks[..i])
      invariant generatedCallGraphs == Successes(benchmarks[..i], dynSucceeds, dynCallgraphOutDir, ".raw")
      invariant steps == DynRuns(rootDir, benchmarks[..i])
    {
      var benchmark := benchmarks[i];
      assert benchmarks[..i + 1][..i] == benchmarks[..i];
      var startFile := GetBenchmarkMainFile(rootDir, benchmark);
      if startFile.Err? {
        assert !IsBenchmark(benchmarks[i]) && steps == DynRuns(rootDir, benchmarks[..i]);
        return Err(startFile.error), steps;
      }
      var rawOutputFilePath := Resolve(dynCallgraphOutDir, benchmark + ".raw");
      DynRunsSnoc(rootDir, benchmarks[..i], benchmark);
      Sequences.TakeSnoc(benchmarks, i);
      steps := steps + [RunDynCg(benchmark, rawOutputFilePath, startFile.value)];
      if dynSucceeds(benchmark) {
        generatedCallGraphs := generatedCallGraphs + [BenchmarkResult(benchmark, rawOutputFilePath)];
      }
      i := i + 1;
    }
    assert benchmarks[..i] == benchmarks;
    outcome := Ok(generatedCallGraphs);
  }

  /**
   * generateJamCallGraphs. Everything, including the default main-file
   * argument of the Jam run, happens inside the try/catch: an unregistered
   * benchmark is skipped like a failing run.
   */
  method GenerateJamCallGraphs(rootDir: string, benchmarks: seq<string>, jamSucceeds: string -> bool)
    returns (results: seq<BenchmarkResult>, steps: seq<Step>)
    ensures results == Successes(benchmarks, JamOutcome(jamSucceeds), GetJamCgsDir(rootDir), ".dot")
    ensures steps == JamRuns(rootDir, benchmarks)
  {
    var jamCallgraphOutDir := GetJamCgsDir(rootDir);
    results := [];
    steps := [];
    for i := 0 to |benchmarks|
      invariant results == Successes(benchmarks[..i], JamOutcome(jamSucceeds), jamCallgraphOutDir, ".dot")
      invariant steps == JamRuns(rootDir, benchmarks[..i])
    {
      var benchmark := benchmarks[i];
      assert benchmarks[..i + 1][..i] == benchmarks[..i];
      var outputFile := Resolve(jamCallgraphOutDir, benchmark + ".dot");
      var mainFile := GetBenchmarkMainFile(rootDir, benchmark);
      if mainFile.Ok? {
        steps := steps + [RunJam(benchmark, outputFile)];
        if jamSucceeds(benchmark) {
          results := results + [BenchmarkResult(benchmark, outputFile)];
        }
      }
    }
    assert benchmarks[..|benchmarks|] == benchmarks;
  }

  /** normalizeNodeProfOutput: the JSON output goes next to the raw trace, named after the benchmark. */
  function NormalizeNodeProfOutput(benchmark: BenchmarkResult): (r: BenchmarkResult)
    ensures r.name == benchmark.name
  {
    benchmark.(outputFile := Resolve(Dirname(benchmark.outputFile), benchmark.name + ".json"))
  }

  /** The transformations performed by mapping normalisation over results, in order. */
  function Transforms(results: seq<BenchmarkResult>): (r: seq<Step>)
    ensures |r| == |results|
    ensures forall k :: 0 <= k < |r| ==>
      r[k] == TransformTrace(results[k].outputFile, NormalizeNodeProfOutput(results[k]).outputFile)
  {
    seq(|results|, k requires 0 <= k < |results| => TransformTrace(results[k].outputFile, NormalizeNodeProfOutput(results[k]).outputFile))
  }

  /**
   * `results.map(normalizeNodeProfOutput)`: each result is transformed in
   * order, and each transformation is one step.
   */
  method NormalizeAll(results: seq<BenchmarkResult>) returns (normalized: seq<BenchmarkResult>, steps: seq<Step>)
    ensures |normalized| == |results|
    ensures forall k :: 0 <= k < |results| ==> normalized[k] == NormalizeNodeProfOutput(results[k])
    ensures steps == Transforms(results)
  {
    normalized := [];
    steps := [];
    for k := 0 to |results|
      invariant |normalized| == k
      invariant forall j :: 0 <= j < k ==> normalized[j] == NormalizeNodeProfOutput(results[j])
      invariant steps == Transforms(results[..k])
    {
      var result := results[k];
      var next := NormalizeNodeProfOutput(result);
      assert Transforms(results[..k + 1]) == Transforms(results[..k]) + [TransformTrace(result.outputFile, next.outputFile)];
      steps := steps + [TransformTrace(result.outputFile, next.outputFile)];
      normalized := normalized + [next];
    }
    assert results[..|results|] == results;
  }

  /** A raw trace `<dir>/<b>.raw` is normalised into `<dir>/<b>.json`. */
  lemma NormalizeRawOutput(dir: string, benchmark: string)
    requires '/' !in benchmark
    ensures NormalizeNodeProfOutput(BenchmarkResult(benchmark, Resolve(dir, benchmark + ".raw")))
         == BenchmarkResult(benchmark, Resolve(dir, benchmark + ".json"))
  {
    assert '/' !in benchmark + ".raw" by {
      forall i | 0 <= i < |benchmark + ".raw"|
        ensures (benchmark + ".raw")[i] != '/'
      {
        if i < |benchmark| {
          assert (benchmark + ".raw")[i] == benchmark[i];
          assert benchmark[i] in benchmark;
        }
      }
    }
    DirnameOfResolve(dir, benchmark + ".raw");
  }

  /**
   * runFullEvaluation: the dynamic phase, then the normalisation of its
   * successful results, then the Jam phase. An unregistered benchmark makes
   * the dynamic phase throw, and nothing after it happens.
   */
  method RunFullEvaluation(rootDir: string, benchmarks: seq<string>, dynSucceeds: string -> bool, jamSucceeds: string -> bool)
    returns (outcome: Result<(), string>, steps: seq<Step>)
    ensures outcome.Ok? <==> AllRegistered(benchmarks)
    ensures outcome.Ok? ==> steps == DynRuns(rootDir, benchmarks)
                                     + Transforms(Successes(benchmarks, dynSucceeds, GetDynCgsDir(rootDir), ".raw"))
                                     + JamRuns(rootDir, benchmarks)
    ensures outcome.Err? ==> (exists i :: 0 <= i < |benchmarks| && !IsBenchmark(benchmarks[i])
                                && AllRegistered(benchmarks[..i])
                                && steps == DynRuns(rootDir, benchmarks[..i]))
  {
    var dynamic, dynSteps := GenerateNodeProfCallGraphs(rootDir, benchmarks, dynSucceeds);
    if dynamic.Err? {
      return Err(dynamic.error), dynSteps;
    }
    var normalized, transformSteps := NormalizeAll(dynamic.value);
    steps := dynSteps + transformSteps;
    var jam, jamSteps := GenerateJamCallGraphs(rootDir, benchmarks, jamSucceeds);
    steps := steps + jamSteps;
    outcome := Ok(());
  }

  /**
   * Every transformation of a full run reads the raw trace of a benchmark
   * whose dynamic run succeeded and writes `<dyn_cgs>/<benchmark>.json`.
   */
  lemma TransformsReadSuccessfulTraces(rootDir: string, benchmarks: seq<string>, dynSucceeds: string -> bool, step: Step)
    requires step in Transforms(Successes(benchmarks, dynSucceeds, GetDynCgsDir(rootDir), ".raw"))
    requires AllRegistered(benchmarks)
    ensures exists b :: (b in benchmarks && dynSucceeds(b)
      && step == TransformTrace(Resolve(GetDynCgsDir(rootDir), b + ".raw"), Resolve(GetDynCgsDir(rootDir), b + ".json")))
  {
    var results := Successes(benchmarks, dynSucceeds, GetDynCgsDir(rootDir), ".raw");
    var k :| 0 <= k < |results| && Transforms(results)[k] == step;
    var x := results[k];
    assert x in results;
    BenchmarkNamesAreSegments(x.name);
    NormalizeRawOutput(GetDynCgsDir(rootDir), x.name);
  }

  /** In a concatenation of a dynamic phase, a transformation phase and a Jam phase, dynamic runs come before Jam runs. */
  lemma PhasesInOrder(d: seq<Step>, t: seq<Step>, m: seq<Step>, i: nat, j: nat)
    requires forall k :: 0 <= k < |d| ==> d[k].RunDynCg?
    requires forall k :: 0 <= k < |t| ==> t[k].TransformTrace?
    requires forall k :: 0 <= k < |m| ==> m[k].RunJam?
    requires i < |d + t + m| && j < |d + t + m| && (d + t + m)[i].RunDynCg? && (d + t + m)[j].RunJam?
    ensures i < |d| <= |d| + |t| <= j
  {
    var steps := d + t + m;
    forall k | |d| <= k < |steps|
      ensures !steps[k].RunDynCg?
    {
      if k < |d| + |t| {
        assert steps[k] == t[k - |d|];
      } else {
        assert steps[k] == m[k - |d| - |t|];
      }
    }
    forall k | 0 <= k < |d| + |t|
      ensures !steps[k].RunJam?
    {
      if k < |d| {
        assert steps[k] == d[k];
      } else {
        assert steps[k] == t[k - |d|];
      }
    }
  }

  /** In a full run every dynamic run comes before every transformation and every Jam run. */
  lemma DynamicPhaseBeforeJamPhase(rootDir: string, benchmarks: seq<string>, dynSucceeds: string -> bool, i: nat, j: nat)
    requires AllRegistered(benchmarks)
    requires
      var steps := DynRuns(rootDir, benchmarks)
                   + Transforms(Successes(benchmarks, dynSucceeds, GetDynCgsDir(rootDir), ".raw"))
                   + JamRuns(rootDir, benchmarks);
      i < |steps| && j < |steps| && steps[i].RunDynCg? && steps[j].RunJam?
    ensures i < j
  {
    PhasesInOrder(DynRuns(rootDir, benchmarks),
                  Transforms(Successes(benchmarks, dynSucceeds, GetDynCgsDir(rootDir), ".raw")),
                  JamRuns(rootDir, benchmarks), i, j);
  }
}
