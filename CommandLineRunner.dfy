/**
 * The deterministic core of wattle's command-line entry point: which globs
 * are searched, which of them are ignore patterns, which files the runner is
 * given, which middleware it is built with, and the process exit code.
 *
 * Argument parsing (yargs), pattern matching (glob.sync), path resolution,
 * module loading (require) and running the tests are not modelled: their
 * results are inputs here.
 */
module CommandLineRunner {
  import opened Wrappers
  import opened ArrayOps

  type Glob = string
  type Path = string

  /** The three values yargs accepts for `-v/--verbosity`, passed through as the log level. */
  datatype Verbosity = Quiet | Default | Full

  /** The parsed command line, after yargs has applied aliases and defaults. */
  datatype Options = Options(
    testFiles: Option<seq<Glob>>,  // `-t/--test-files`: no default, so absent unless given
    positional: seq<Glob>,         // `argv._`
    middleware: seq<string>,       // `-m/--middleware`, default []
    showStacks: bool,              // `-s/--show-stacks`, default false
    verbosity: Verbosity,          // `-v/--verbosity`, default 'default'
    buildServer: bool)             // `-b/--build-server`, default false

  /** All JavaScript and TypeScript files, outside node_modules. */
  const DefaultGlobs: seq<Glob> := ["**/*.@(ts|tsx|js|jsx)", "!node_modules/**"]

  /** Always appended: declaration files are never test files. */
  const DeclarationFilesExclusion: Glob := "!./**/*.d.ts"

  // ---------------------------------------------------------------------------
  // Glob selection
  // ---------------------------------------------------------------------------

  /**
   * The globs to search, by precedence: the `--test-files` list, then the
   * positional arguments, then the defaults. The choice is made by JavaScript
   * truthiness: an array is truthy even when empty, so a given `--test-files`
   * list wins whatever its length, while the positional arguments are tested
   * by their length and so are used only when there is at least one.
   */
  function ChooseGlobs(opts: Options): (globs: seq<Glob>)
    ensures opts.testFiles.Some? ==> globs == opts.testFiles.value
    ensures opts.testFiles.None? && |opts.positional| != 0 ==> globs == opts.positional
    ensures opts.testFiles.None? && |opts.positional| == 0 ==> globs == DefaultGlobs
    ensures globs == [] <==> opts.testFiles == Some([])
  {
    match opts.testFiles
    case Some(files) => files
    case None => if |opts.positional| != 0 then opts.positional else DefaultGlobs
  }

  /** The chosen glob array, grown in place by `push`. */
  class GlobArray {
    var elements: seq<Glob>

    constructor (init: seq<Glob>)
      ensures elements == init
    {
      elements := init;
    }

    /** Appends in place and returns the new length, as an array's `push` does. */
    method Push(g: Glob) returns (length: nat)
      modifies this
      ensures elements == old(elements) + [g]
      ensures length == |elements|
    {
      elements := elements + [g];
      length := |elements|;
    }
  }

  /** The glob list after the `.d.ts` exclusion is appended, as a value. */
  function FileGlobs(opts: Options): seq<Glob>
  {
    ChooseGlobs(opts) + [DeclarationFilesExclusion]
  }

  /**
   * Chooses the glob array and pushes the `.d.ts` exclusion onto it: the
   * chosen globs are kept as they were and the exclusion comes last.
   */
  method SelectFileGlobs(opts: Options) returns (fileGlobs: seq<Glob>)
    ensures |fileGlobs| == |ChooseGlobs(opts)| + 1
    ensures fileGlobs[..|fileGlobs| - 1] == ChooseGlobs(opts)
    ensures fileGlobs[|fileGlobs| - 1] == DeclarationFilesExclusion
    ensures fileGlobs == FileGlobs(opts)
  {
    var globs := new GlobArray(ChooseGlobs(opts));
    var _ := globs.Push(DeclarationFilesExclusion);
    fileGlobs := globs.elements;
  }

  // ---------------------------------------------------------------------------
  // Include / ignore partition
  // ---------------------------------------------------------------------------

  /** The first character of a string, `undefined` (None) for the empty string. */
  function FirstChar(s: string): Option<char>
  {
    if |s| == 0 then None else Some(s[0])
  }

  /** Not starting with `!`; the empty string has no first character, so it is a test glob. */
  predicate IsTestGlob(g: Glob)
  {
    FirstChar(g) != Some('!')
  }

  /** Starting with `!`. */
  predicate IsIgnoreGlob(g: Glob)
  {
    FirstChar(g) == Some('!')
  }

  /** Drops the first character (`substring(1)`, which gives "" on the empty string). */
  function StripBang(g: Glob): Glob
  {
    if |g| >= 1 then g[1..] else ""
  }

  /** The inverse of `StripBang` on ignore globs. */
  function AddBang(g: Glob): Glob
  {
    "!" + g
  }

  /** The include globs: the entries that are not ignore patterns, in order. */
  function TestGlobs(fileGlobs: seq<Glob>): (r: seq<Glob>)
    ensures forall g :: g in r ==> g in fileGlobs && !(|g| > 0 && g[0] == '!')
  {
    Filter(fileGlobs, IsTestGlob)
  }

  /** The ignore globs: the entries starting with `!`, in order, with the `!` dropped. */
  function IgnoreGlobs(fileGlobs: seq<Glob>): seq<Glob>
  {
    Map(Filter(fileGlobs, IsIgnoreGlob), StripBang)
  }

  /** Every glob lands on exactly one side: the two sides add up to the whole list. */
  lemma {:induction false} PartitionSizes(fileGlobs: seq<Glob>)
    ensures |TestGlobs(fileGlobs)| + |IgnoreGlobs(fileGlobs)| == |fileGlobs|
  {
    if fileGlobs != [] {
      PartitionSizes(fileGlobs[1..]);
    }
  }

  /** Putting the `!` back on the ignore globs gives exactly the `!` entries of the input, in order. */
  lemma {:induction false} IgnoreGlobsRoundTrip(fileGlobs: seq<Glob>)
    ensures Map(IgnoreGlobs(fileGlobs), AddBang) == Filter(fileGlobs, IsIgnoreGlob)
  {
    var bangs := Filter(fileGlobs, IsIgnoreGlob);
    forall i | 0 <= i < |bangs|
      ensures Map(IgnoreGlobs(fileGlobs), AddBang)[i] == bangs[i]
    {
      assert bangs[i] in bangs;
      assert IsIgnoreGlob(bangs[i]);
      assert bangs[i] == [bangs[i][0]] + bangs[i][1..];
    }
  }

  lemma {:induction false} SidesMultiset(fileGlobs: seq<Glob>)
    ensures multiset(Filter(fileGlobs, IsTestGlob)) + multiset(Filter(fileGlobs, IsIgnoreGlob)) == multiset(fileGlobs)
  {
    if fileGlobs != [] {
      var head, tail := fileGlobs[0], fileGlobs[1..];
      SidesMultiset(tail);
      assert Filter(fileGlobs, IsTestGlob) == (if IsTestGlob(head) then [head] else []) + Filter(tail, IsTestGlob);
      assert Filter(fileGlobs, IsIgnoreGlob) == (if IsIgnoreGlob(head) then [head] else []) + Filter(tail, IsIgnoreGlob);
      assert fileGlobs == [head] + tail;
    }
  }

  /** No glob is lost or duplicated: the test globs and the re-prefixed ignore globs make up the input. */
  lemma PartitionIsExact(fileGlobs: seq<Glob>)
    ensures multiset(TestGlobs(fileGlobs)) + multiset(Map(IgnoreGlobs(fileGlobs), AddBang)) == multiset(fileGlobs)
  {
    IgnoreGlobsRoundTrip(fileGlobs);
    SidesMultiset(fileGlobs);
  }

  /** Membership on each side, both directions; the empty string is always a test glob. */
  lemma PartitionMembership(fileGlobs: seq<Glob>)
    ensures forall g :: g in TestGlobs(fileGlobs) <==> g in fileGlobs && !(|g| > 0 && g[0] == '!')
    ensures forall x :: x in IgnoreGlobs(fileGlobs) <==> AddBang(x) in fileGlobs
    ensures "" in fileGlobs ==> "" in TestGlobs(fileGlobs)
  {
    forall g
      ensures g in TestGlobs(fileGlobs) <==> g in fileGlobs && IsTestGlob(g)
    {
      FilterMembership(fileGlobs, IsTestGlob, g);
    }
    var bangs := Filter(fileGlobs, IsIgnoreGlob);
    forall x
      ensures x in IgnoreGlobs(fileGlobs) <==> AddBang(x) in fileGlobs
    {
      FilterMembership(fileGlobs, IsIgnoreGlob, AddBang(x));
      if x in IgnoreGlobs(fileGlobs) {
        var i :| 0 <= i < |bangs| && IgnoreGlobs(fileGlobs)[i] == x;
        assert bangs[i] in bangs;
        assert bangs[i] == [bangs[i][0]] + bangs[i][1..];
      }
      if AddBang(x) in fileGlobs {
        var i :| 0 <= i < |bangs| && bangs[i] == AddBang(x);
        assert StripBang(AddBang(x)) == x;
        assert IgnoreGlobs(fileGlobs)[i] == x;
      }
    }
  }

  /** The partition works glob by glob: each side keeps the input's relative order. */
  lemma PartitionAppend(a: seq<Glob>, b: seq<Glob>)
    ensures TestGlobs(a + b) == TestGlobs(a) + TestGlobs(b)
    ensures IgnoreGlobs(a + b) == IgnoreGlobs(a) + IgnoreGlobs(b)
  {
    FilterAppend(a, b, IsTestGlob);
    FilterAppend(a, b, IsIgnoreGlob);
    MapAppend(Filter(a, IsIgnoreGlob), Filter(b, IsIgnoreGlob), StripBang);
  }

  /**
   * The appended exclusion leaves the test globs as chosen and makes the
   * declaration-file pattern the last ignore glob.
   */
  lemma DeclarationFilesAlwaysIgnored(opts: Options)
    ensures TestGlobs(FileGlobs(opts)) == TestGlobs(ChooseGlobs(opts))
    ensures IgnoreGlobs(FileGlobs(opts)) == IgnoreGlobs(ChooseGlobs(opts)) + ["./**/*.d.ts"]
  {
    PartitionAppend(ChooseGlobs(opts), [DeclarationFilesExclusion]);
    assert Filter([DeclarationFilesExclusion], IsIgnoreGlob) == [DeclarationFilesExclusion];
  }

  /** One glob goes to exactly the side its first character says. */
  lemma PartitionSingleton(g: Glob)
    ensures TestGlobs([g]) == if IsTestGlob(g) then [g] else []
    ensures IgnoreGlobs([g]) == if IsIgnoreGlob(g) then [StripBang(g)] else []
  {
    assert [g][1..] == [];
  }

  /** With no globs on the command line: the default include glob, then `node_modules` and `.d.ts` ignored. */
  lemma DefaultSearch(opts: Options)
    requires opts.testFiles.None? && opts.positional == []
    ensures TestGlobs(FileGlobs(opts)) == ["**/*.@(ts|tsx|js|jsx)"]
    ensures IgnoreGlobs(FileGlobs(opts)) == ["node_modules/**", "./**/*.d.ts"]
  {
    var sources, nodeModules := "**/*.@(ts|tsx|js|jsx)", "!node_modules/**";
    assert ChooseGlobs(opts) == [sources, nodeModules];
    DeclarationFilesAlwaysIgnored(opts);
    assert IsTestGlob(sources);
    assert IsIgnoreGlob(nodeModules);
    assert StripBang(nodeModules) == "node_modules/**";
    TwoGlobs(sources, nodeModules);
  }

  lemma TwoGlobs(sources: Glob, excluded: Glob)
    requires IsTestGlob(sources) && IsIgnoreGlob(excluded)
    ensures TestGlobs([sources, excluded]) == [sources]
    ensures IgnoreGlobs([sources, excluded]) == [StripBang(excluded)]
  {
    assert [sources, excluded] == [sources] + [excluded];
    PartitionAppend([sources], [excluded]);
    PartitionSingleton(sources);
    PartitionSingleton(excluded);
  }

  // ---------------------------------------------------------------------------
  // File list
  // ---------------------------------------------------------------------------

  /** The files matching one pattern, minus the ignore patterns, directories excluded: left uninterpreted. */
  type GlobSync = (Glob, seq<Glob>) -> seq<Path>

  /** `path.resolve`, left uninterpreted. */
  type Resolve = Path -> Path

  /** Searches one include glob with the whole ignore list. */
  function Matcher(sync: GlobSync, ignoreGlobs: seq<Glob>): Glob -> seq<Path>
  {
    g => sync(g, ignoreGlobs)
  }

  /**
   * The files handed to the runner: each include glob searched, the match
   * lists joined by a `concat` reduce, then every path resolved.
   */
  function ResolveFiles(fileGlobs: seq<Glob>, sync: GlobSync, resolve: Resolve): seq<Path>
  {
    var matches := Map(TestGlobs(fileGlobs), Matcher(sync, IgnoreGlobs(fileGlobs)));
    Map(Reduce(matches, Concat, []), resolve)
  }

  /** Reference definition: each include glob's resolved matches, one glob after the other. */
  function MatchesInOrder(testGlobs: seq<Glob>, ignoreGlobs: seq<Glob>, sync: GlobSync, resolve: Resolve): seq<Path>
  {
    if testGlobs == [] then []
    else Map(sync(testGlobs[0], ignoreGlobs), resolve) + MatchesInOrder(testGlobs[1..], ignoreGlobs, sync, resolve)
  }

  lemma {:induction false} FlattenMatches(testGlobs: seq<Glob>, ignoreGlobs: seq<Glob>, sync: GlobSync, resolve: Resolve)
    ensures Map(Flatten(Map(testGlobs, Matcher(sync, ignoreGlobs))), resolve)
         == MatchesInOrder(testGlobs, ignoreGlobs, sync, resolve)
  {
    if testGlobs != [] {
      var m := Matcher(sync, ignoreGlobs);
      assert Map(testGlobs, m)[1..] == Map(testGlobs[1..], m);
      MapAppend(sync(testGlobs[0], ignoreGlobs), Flatten(Map(testGlobs[1..], m)), resolve);
      FlattenMatches(testGlobs[1..], ignoreGlobs, sync, resolve);
    }
  }

  /**
   * The file list is the in-order concatenation of every include glob's
   * matches, each searched with the full ignore list.
   */
  lemma ResolveFilesInOrder(fileGlobs: seq<Glob>, sync: GlobSync, resolve: Resolve)
    ensures ResolveFiles(fileGlobs, sync, resolve)
         == MatchesInOrder(TestGlobs(fileGlobs), IgnoreGlobs(fileGlobs), sync, resolve)
  {
    var matches := Map(TestGlobs(fileGlobs), Matcher(sync, IgnoreGlobs(fileGlobs)));
    ReduceConcat(matches, []);
    assert [] + Flatten(matches) == Flatten(matches);
    FlattenMatches(TestGlobs(fileGlobs), IgnoreGlobs(fileGlobs), sync, resolve);
  }

  /** Concatenation is glob by glob, so repeated globs or overlapping matches repeat files: nothing is de-duplicated. */
  lemma {:induction false} MatchesAppend(a: seq<Glob>, b: seq<Glob>, ignoreGlobs: seq<Glob>, sync: GlobSync, resolve: Resolve)
    ensures MatchesInOrder(a + b, ignoreGlobs, sync, resolve)
         == MatchesInOrder(a, ignoreGlobs, sync, resolve) + MatchesInOrder(b, ignoreGlobs, sync, resolve)
  {
    if a == [] {
      assert a + b == b;
    } else {
      assert (a + b)[1..] == a[1..] + b;
      MatchesAppend(a[1..], b, ignoreGlobs, sync, resolve);
    }
  }

  /** A file is listed exactly when it is the resolution of some match of some include glob. */
  lemma {:induction false} MatchesMembership(testGlobs: seq<Glob>, ignoreGlobs: seq<Glob>, sync: GlobSync, resolve: Resolve, f: Path)
    ensures f in MatchesInOrder(testGlobs, ignoreGlobs, sync, resolve)
        <==> exists g, p :: g in testGlobs && p in sync(g, ignoreGlobs) && f == resolve(p)
  {
    if testGlobs != [] {
      MatchesMembership(testGlobs[1..], ignoreGlobs, sync, resolve, f);
      var head := Map(sync(testGlobs[0], ignoreGlobs), resolve);
      if f in head {
        var j :| 0 <= j < |head| && head[j] == f;
        assert sync(testGlobs[0], ignoreGlobs)[j] in sync(testGlobs[0], ignoreGlobs);
      }
      if exists p :: p in sync(testGlobs[0], ignoreGlobs) && f == resolve(p) {
        var p :| p in sync(testGlobs[0], ignoreGlobs) && f == resolve(p);
        var j :| 0 <= j < |sync(testGlobs[0], ignoreGlobs)| && sync(testGlobs[0], ignoreGlobs)[j] == p;
        assert head[j] == f;
      }
      assert forall g :: g in testGlobs <==> g == testGlobs[0] || g in testGlobs[1..];
    }
  }

  /** With no include globs no search is run and the file list is empty. */
  lemma NoTestGlobsNoFiles(fileGlobs: seq<Glob>, sync: GlobSync, resolve: Resolve)
    requires forall g :: g in fileGlobs ==> |g| > 0 && g[0] == '!'
    ensures ResolveFiles(fileGlobs, sync, resolve) == []
  {
    ResolveFilesInOrder(fileGlobs, sync, resolve);
  }

  // ---------------------------------------------------------------------------
  // Middleware
  // ---------------------------------------------------------------------------

  /**
   * The middleware the runner is built with. `Module(name)` stands for
   * `require(name).default`, whose behaviour is not part of this model.
   */
  datatype Middleware =
    | Module(name: string)
    | ConsoleLogger(logLevel: Verbosity, showStacks: bool, files: seq<Path>)
    | BuildServerLogger
    | Counter

  /** A build-server logger when asked for, otherwise a console logger over the options and the file list. */
  function ChooseLogger(opts: Options, files: seq<Path>): (logger: Middleware)
    ensures logger.BuildServerLogger? <==> opts.buildServer
    ensures logger.ConsoleLogger? <==> !opts.buildServer
    ensures logger.ConsoleLogger? ==>
              logger.logLevel == opts.verbosity && logger.showStacks == opts.showStacks && logger.files == files
  {
    if opts.buildServer then BuildServerLogger else ConsoleLogger(opts.verbosity, opts.showStacks, files)
  }

  /** The loaded user modules, then the logger and the counter appended by `concat`. */
  function MiddlewareChain(modules: seq<string>, logger: Middleware): seq<Middleware>
  {
    Map(modules, m => Module(m)) + [logger, Counter]
  }

  /** The names of the user-supplied modules, in chain order. */
  function ModuleNames(chain: seq<Middleware>): seq<string>
  {
    if chain == [] then []
    else (if chain[0].Module? then [chain[0].name] else []) + ModuleNames(chain[1..])
  }

  /**
   * The chain is the user modules in command-line order, then the logger,
   * then the counter: two more entries than modules, and when the logger is
   * a logger the counter is the only counter and the last entry.
   */
  lemma {:induction false} ChainLayout(modules: seq<string>, logger: Middleware)
    ensures |MiddlewareChain(modules, logger)| == |modules| + 2
    ensures !logger.Module? ==> ModuleNames(MiddlewareChain(modules, logger)) == modules
    ensures MiddlewareChain(modules, logger)[|modules|] == logger
    ensures MiddlewareChain(modules, logger)[|modules| + 1] == Counter
    ensures !logger.Counter? ==>
              forall i :: 0 <= i < |modules| + 2 ==> (MiddlewareChain(modules, logger)[i].Counter? <==> i == |modules| + 1)
  {
    if modules != [] {
      ChainLayout(modules[1..], logger);
      assert MiddlewareChain(modules, logger)[1..] == MiddlewareChain(modules[1..], logger);
    } else {
      assert MiddlewareChain(modules, logger)[1..] == [Counter];
      assert [Counter][1..] == [];
    }
  }

  // ---------------------------------------------------------------------------
  // Exit code
  // ---------------------------------------------------------------------------

  /** A per-file result as the runner returns it; only `hasPassed` is read here. */
  datatype TestResult = TestResult(hasPassed: bool)

  /** What the promise from `runTests` settles to. */
  datatype RunOutcome = Resolved(results: seq<TestResult>) | Rejected

  function HasPassed(r: TestResult): bool
  {
    r.hasPassed
  }

  /** 0 when every result has passed (an `every`), otherwise 1; a rejected run also exits with 1. */
  function ExitCode(outcome: RunOutcome): (code: int)
    ensures code == 0 || code == 1
    ensures code == 0 <==>
              outcome.Resolved? && forall i :: 0 <= i < |outcome.results| ==> outcome.results[i].hasPassed
  {
    match outcome
    case Resolved(results) =>
      EveryIff(results, HasPassed);
      if Every(results, HasPassed) then 0 else 1
    case Rejected => 1
  }

  /** Exit codes compose over result lists: one failing file anywhere makes the run fail. */
  lemma ExitCodeAppend(a: seq<TestResult>, b: seq<TestResult>)
    ensures ExitCode(Resolved(a + b)) == (if ExitCode(Resolved(a)) == 0 then ExitCode(Resolved(b)) else 1)
  {
    if ExitCode(Resolved(a)) == 0 && ExitCode(Resolved(b)) == 0 {
      assert forall i :: 0 <= i < |a + b| ==> (a + b)[i] == if i < |a| then a[i] else b[i - |a|];
    } else if ExitCode(Resolved(a)) != 0 {
      var i :| 0 <= i < |a| && !a[i].hasPassed;
      assert (a + b)[i] == a[i];
    } else {
      var i :| 0 <= i < |b| && !b[i].hasPassed;
      assert (a + b)[|a| + i] == b[i];
    }
  }

  // ---------------------------------------------------------------------------
  // The script as a whole
  // ---------------------------------------------------------------------------

  /** What `runTests` is called with: the middleware it is constructed with and the files. */
  datatype Plan = Plan(middleware: seq<Middleware>, files: seq<Path>)

  /** From the parsed options to what the runner is given. */
  function Prepare(opts: Options, sync: GlobSync, resolve: Resolve): (plan: Plan)
    ensures plan.files == MatchesInOrder(TestGlobs(FileGlobs(opts)), IgnoreGlobs(FileGlobs(opts)), sync, resolve)
    ensures |plan.middleware| == |opts.middleware| + 2
    ensures plan.middleware[|opts.middleware| + 1] == Counter
    ensures plan.middleware[|opts.middleware|] == ChooseLogger(opts, plan.files)
    ensures ModuleNames(plan.middleware) == opts.middleware
  {
    var files := ResolveFiles(FileGlobs(opts), sync, resolve);
    ResolveFilesInOrder(FileGlobs(opts), sync, resolve);
    var logger := ChooseLogger(opts, files);
    ChainLayout(opts.middleware, logger);
    Plan(MiddlewareChain(opts.middleware, logger), files)
  }

  /** An explicitly empty `--test-files` list searches nothing: only the `.d.ts` exclusion remains. */
  lemma EmptyTestFilesRunsNothing(opts: Options, sync: GlobSync, resolve: Resolve)
    requires opts.testFiles == Some([])
    ensures Prepare(opts, sync, resolve).files == []
  {
    assert FileGlobs(opts) == [DeclarationFilesExclusion];
    NoTestGlobsNoFiles(FileGlobs(opts), sync, resolve);
    ResolveFilesInOrder(FileGlobs(opts), sync, resolve);
  }

  /** The whole script: prepare, run (the runner is a parameter), and map the outcome to the exit code. */
  function Run(opts: Options, sync: GlobSync, resolve: Resolve, runTests: Plan -> RunOutcome): (code: int)
    ensures code == 0 || code == 1
    ensures code == 0 <==>
              var outcome := runTests(Prepare(opts, sync, resolve));
              outcome.Resolved? && forall i :: 0 <= i < |outcome.results| ==> outcome.results[i].hasPassed
  {
    ExitCode(runTests(Prepare(opts, sync, resolve)))
  }
}
