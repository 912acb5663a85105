/**
 * The benchmark registry of the evaluation scripts: which npm modules are
 * benchmarked, the main file of each, and where outputs are written.
 * Paths are built by a plain join; `path.resolve`'s normalisation of `.`,
 * `..` and absolute segments is not modelled.
 */
module BenchmarkUtils {
  import opened Wrappers

  /** `path.resolve(dir, rel)` for a relative segment without `.` or `..`. */
  function Resolve(dir: string, rel: string): (r: string)
    ensures |r| == |dir| + 1 + |rel|
    ensures r[..|dir|] == dir && r[|dir|] == '/' && r[|dir| + 1..] == rel
  {
    dir + "/" + rel
  }

  /** `path.dirname`: everything before the last '/', or "." when there is none. */
  function Dirname(p: string): string {
    if p == [] then "."
    else if p[|p| - 1] == '/' then p[..|p| - 1]
    else Dirname(p[..|p| - 1])
  }

  /** Taking the directory of a joined path gives back the directory, when the last segment has no '/'. */
  lemma {:induction false} DirnameOfResolve(dir: string, name: string)
    requires '/' !in name
    ensures Dirname(Resolve(dir, name)) == dir
    decreases |name|
  {
    var p := Resolve(dir, name);
    if name == [] {
      assert p[..|p| - 1] == dir;
    } else {
      assert p[|p| - 1] == name[|name| - 1];
      assert p[..|p| - 1] == Resolve(dir, name[..|name| - 1]);
      DirnameOfResolve(dir, name[..|name| - 1]);
    }
  }

  /** Directory of the recorded dynamic (NodeProf) call graphs: a directory directly inside the root. */
  function GetDynCgsDir(rootDir: string): (r: string)
    ensures Dirname(r) == rootDir
  {
    DirnameOfResolve(rootDir, "dyn_cgs");
    Resolve(rootDir, "dyn_cgs")
  }

  /**
   * Directory of the Jam call graphs: a directory directly inside the root,
   * never the one the NodeProf call graphs go to.
   */
  function GetJamCgsDir(rootDir: string): (r: string)
    ensures Dirname(r) == rootDir
    ensures r != GetDynCgsDir(rootDir)
  {
    DirnameOfResolve(rootDir, "jam_cgs");
    var r := Resolve(rootDir, "jam_cgs");
    assert r[|rootDir| + 1] != GetDynCgsDir(rootDir)[|rootDir| + 1];
    r
  }

  /** Directory the benchmark modules are installed into: two levels below the root. */
  function GetBenchmarkModulesDir(rootDir: string): (r: string)
    ensures Dirname(Dirname(r)) == rootDir
  {
    DirnameOfResolve(rootDir, "eval-targets");
    DirnameOfResolve(Resolve(rootDir, "eval-targets"), "node_modules");
    Resolve(Resolve(rootDir, "eval-targets"), "node_modules")
  }

  /** The registry: each benchmark module and its main file, relative to the module root, in declaration order. */
  const MainFilesForBenchmarks: seq<(string, string)> := [
    ("makeappicon", "bin/index.js"),
    ("toucht", "bin/toucht"),
    ("spotify-terminal", "bin/music"),
    ("ragan-module", "bin/greeter.js"),
    ("npm-git-snapshot", "bin/npm-git-snapshot"),
    ("nodetree", "index.js"),
    ("jwtnoneify", "index.js"),
    ("foxx-framework", "bin/foxxy"),
    ("npmgenerate", "bin/ngen.js"),
    ("smrti", "app.js"),
    ("openbadges-issuer", "cli.js")
  ]

  /** The keys of a list of entries, in order (`Object.keys`). */
  function Keys(entries: seq<(string, string)>): (r: seq<string>)
    ensures |r| == |entries|
    ensures forall k :: 0 <= k < |entries| ==> r[k] == entries[k].0
  {
    seq(|entries|, k requires 0 <= k < |entries| => entries[k].0)
  }

  /** `modulesToBenchmark`: the registry's keys, one per entry, in declaration order. */
  function ModulesToBenchmark(): (r: seq<string>)
    ensures |r| == |MainFilesForBenchmarks|
    ensures forall k :: 0 <= k < |r| ==> r[k] == MainFilesForBenchmarks[k].0
  {
    Keys(MainFilesForBenchmarks)
  }

  /** Property lookup in a record given as a list of entries: the first entry with the key. */
  function Lookup(entries: seq<(string, string)>, key: string): Option<string> {
    if entries == [] then None
    else if entries[0].0 == key then Some(entries[0].1)
    else Lookup(entries[1..], key)
  }

  /** A lookup finds a value exactly for the listed keys, and the value is that key's entry. */
  lemma {:induction false} LookupSpec(entries: seq<(string, string)>, key: string)
    ensures Lookup(entries, key).Some? <==> key in Keys(entries)
    ensures Lookup(entries, key).Some? ==> (key, Lookup(entries, key).value) in entries
  {
    if entries != [] {
      LookupSpec(entries[1..], key);
      assert Keys(entries) == [entries[0].0] + Keys(entries[1..]);
    }
  }

  /** A registered benchmark: one the registry has an entry for. */
  predicate IsBenchmark(benchmark: string) {
    Lookup(MainFilesForBenchmarks, benchmark).Some?
  }

  /** The registered benchmarks are exactly the names `modulesToBenchmark` lists. */
  lemma IsBenchmarkIffListed(benchmark: string)
    ensures IsBenchmark(benchmark) <==> benchmark in ModulesToBenchmark()
  {
    LookupSpec(MainFilesForBenchmarks, benchmark);
  }

  /** The benchmark names, as declared. */
  lemma {:induction false} ModulesToBenchmarkListed()
    ensures ModulesToBenchmark() == ["makeappicon", "toucht", "spotify-terminal", "ragan-module",
      "npm-git-snapshot", "nodetree", "jwtnoneify", "foxx-framework", "npmgenerate", "smrti", "openbadges-issuer"]
  {
  }

  /** The registry has 11 benchmarks and no name twice. */
  lemma RegistryDistinct()
    ensures |ModulesToBenchmark()| == 11
    ensures forall i, j :: 0 <= i < j < |ModulesToBenchmark()| ==> ModulesToBenchmark()[i] != ModulesToBenchmark()[j]
  {
    ModulesToBenchmarkListed();
    var m := ModulesToBenchmark();
    assert m[0][0] != m[8][0];
    assert m[2][0] != m[4][0];
  }

  /** The benchmark names, one literal at a time, contain no '/'. */
  lemma ListedNamesAreSegments(name: string)
    requires name in ["makeappicon", "toucht", "spotify-terminal", "ragan-module", "npm-git-snapshot",
      "nodetree", "jwtnoneify", "foxx-framework", "npmgenerate", "smrti", "openbadges-issuer"]
    ensures forall i :: 0 <= i < |name| ==> name[i] != '/'
  {
    if name in ["makeappicon", "toucht", "spotify-terminal", "ragan-module", "npm-git-snapshot"] {
      FirstNamesAreSegments(name);
    } else {
      LastNamesAreSegments(name);
    }
  }

  /** The first five benchmark names contain no '/'. */
  lemma FirstNamesAreSegments(name: string)
    requires name in ["makeappicon", "toucht", "spotify-terminal", "ragan-module", "npm-git-snapshot"]
    ensures forall i :: 0 <= i < |name| ==> name[i] != '/'
  {
    if name == "makeappicon" {} else if name == "toucht" {} else if name == "spotify-terminal" {}
    else if name == "ragan-module" {} else {}
  }

  /** The last six benchmark names contain no '/'. */
  lemma LastNamesAreSegments(name: string)
    requires name in ["nodetree", "jwtnoneify", "foxx-framework", "npmgenerate", "smrti", "openbadges-issuer"]
    ensures forall i :: 0 <= i < |name| ==> name[i] != '/'
  {
    if name == "nodetree" {} else if name == "jwtnoneify" {} else if name == "foxx-framework" {}
    else if name == "npmgenerate" {} else if name == "smrti" {} else {}
  }

  /** Every registered benchmark name is a single path segment: it contains no '/'. */
  lemma BenchmarkNamesAreSegments(benchmark: string)
    requires IsBenchmark(benchmark)
    ensures '/' !in benchmark
  {
    IsBenchmarkIffListed(benchmark);
    ModulesToBenchmarkListed();
    ListedNamesAreSegments(benchmark);
  }

  /** `getBenchmarkModulePath`: the benchmark's directory under the modules directory. */
  function GetBenchmarkModulePath(rootDir: string, benchmark: string): (r: string)
    ensures '/' !in benchmark ==> Dirname(r) == GetBenchmarkModulesDir(rootDir)
  {
    var modulesDir := GetBenchmarkModulesDir(rootDir);
    if '/' in benchmark then Resolve(modulesDir, benchmark)
    else
      DirnameOfResolve(modulesDir, benchmark);
      Resolve(modulesDir, benchmark)
  }

  /**
   * `getBenchmarkMainFile`: the module path joined with the registry entry. For a
   * name that is not registered the entry is `undefined` and `path.resolve` throws.
   */
  function GetBenchmarkMainFile(rootDir: string, benchmark: string): (r: Result<string, string>)
    ensures r.Ok? <==> IsBenchmark(benchmark)
  {
    match Lookup(MainFilesForBenchmarks, benchmark)
    case None => Err("The \"paths[1]\" argument must be of type string. Received undefined")
    case Some(rel) => Ok(Resolve(GetBenchmarkModulePath(rootDir, benchmark), rel))
  }

  /** A main file is the registered entry of the benchmark, resolved against the benchmark's module path. */
  lemma MainFileIsRegisteredEntry(rootDir: string, benchmark: string)
    requires IsBenchmark(benchmark)
    ensures exists rel :: (benchmark, rel) in MainFilesForBenchmarks
                          && GetBenchmarkMainFile(rootDir, benchmark) == Ok(Resolve(GetBenchmarkModulePath(rootDir, benchmark), rel))
  {
    LookupSpec(MainFilesForBenchmarks, benchmark);
  }
}
