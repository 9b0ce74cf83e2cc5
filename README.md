# wattle command-line runner, modelled in Dafny

wattle is a test framework for TypeScript and JavaScript. Its command-line
entry point turns parsed options into a call to the test runner and maps the
result to a process exit code. This project models the deterministic part of
that entry point:

- which globs are searched: the `--test-files` list, else the positional
  arguments, else the built-in defaults, always followed by an exclusion of
  `.d.ts` declaration files;
- how the globs split into include globs and ignore globs (a leading `!`);
- how the file list is assembled from each include glob's matches;
- which middleware the runner is built with: user modules, then a logger,
  then a counter;
- the exit code: 0 when every result has passed, 1 otherwise or when the run
  rejects.

`ArrayOps.dfy` holds an `Option` type and the JavaScript array methods the
script composes (`filter`, `map`, `reduce` with `concat`, `every`) as
functions on sequences, with lemmas about them. `CommandLineRunner.dfy` holds
the script itself: a record of parsed options, the glob selection (with the
in-place `push` modelled by a small class), the partition, the file list, the
middleware list, the exit code, and `Prepare`/`Run`, which compose them.

Library calls are parameters. `glob.sync` is an uninterpreted function from a
pattern and the ignore list to a list of paths; `path.resolve` is an
uninterpreted function on paths; the test runner is a function from what it
is given to "results or rejection". A module loaded with `require` is the
opaque value `Module(name)`.

Two behaviours of the code are kept as written:

- Duplicates are not removed from the file list: a file matched by two include globs, or a glob given
  twice, is listed twice (`MatchesAppend`, `MatchesInOrder`).
- The exit code is computed with `every`, which holds of an empty result
  list, so a run with no results exits with 0 (`ExitCode`).

## Model

| member | source | states |
|---|---|---|
| `CommandLineRunner.ChooseGlobs` | src/CommandLineRunner.ts:54-56 | a given `--test-files` list wins (even an empty one); otherwise the positional arguments when there is at least one; otherwise the two default globs; the result is empty exactly when an empty `--test-files` list was given |
| `CommandLineRunner.GlobArray.Push` | src/CommandLineRunner.ts:57 | push appends in place: the old elements are kept and the new one is last; it returns the new length |
| `CommandLineRunner.SelectFileGlobs` | src/CommandLineRunner.ts:54-57 | the glob list is the chosen globs unchanged, one longer, with `!./**/*.d.ts` as its last element |
| `CommandLineRunner.TestGlobs` | src/CommandLineRunner.ts:58 | every include glob comes from the glob list and does not start with `!` |
| `CommandLineRunner.PartitionSizes` | src/CommandLineRunner.ts:58-59 | the number of include globs plus the number of ignore globs is the number of globs |
| `CommandLineRunner.PartitionIsExact` | src/CommandLineRunner.ts:58-59 | each glob goes to exactly one side: the include globs and the ignore globs with `!` restored make up the glob list as a multiset |
| `CommandLineRunner.IgnoreGlobsRoundTrip` | src/CommandLineRunner.ts:59 | putting `!` back on the ignore globs gives exactly the `!`-prefixed globs of the input, in their order |
| `CommandLineRunner.PartitionMembership` | src/CommandLineRunner.ts:58-59 | a glob is an include glob iff it is in the list and does not start with `!`; `x` is an ignore glob iff `!x` is in the list; the empty string is always an include glob |
| `CommandLineRunner.PartitionSingleton` | src/CommandLineRunner.ts:58-59 | a single glob goes to the include side unless its first character is `!`, and then to the ignore side without the `!` |
| `CommandLineRunner.PartitionAppend` | src/CommandLineRunner.ts:58-59 | the partition of a concatenation is the concatenation of the partitions, so each side keeps the input's relative order |
| `CommandLineRunner.DeclarationFilesAlwaysIgnored` | src/CommandLineRunner.ts:57-59 | the appended exclusion leaves the include globs as chosen and makes `./**/*.d.ts` the last ignore glob |
| `CommandLineRunner.DefaultSearch` | src/CommandLineRunner.ts:54-59 | with no `--test-files` and no positional arguments, the one include glob is the default pattern for `.ts`, `.tsx`, `.js` and `.jsx` files, and the ignore globs are `node_modules/**` then `./**/*.d.ts` |
| `ArrayOps.FilterAppend` | src/CommandLineRunner.ts:58-59 | `filter` distributes over concatenation |
| `ArrayOps.FilterMembership` | src/CommandLineRunner.ts:58-59 | `filter` keeps an element iff it occurs in the input and satisfies the predicate |
| `ArrayOps.MapAppend` | src/CommandLineRunner.ts:59 | `map` distributes over concatenation |
| `ArrayOps.ReduceConcat` | src/CommandLineRunner.ts:64 | a left `reduce` with `concat` from an accumulator appends all lists, in order, to it |
| `CommandLineRunner.ResolveFilesInOrder` | src/CommandLineRunner.ts:62-65 | the file list is the in-order concatenation of each include glob's resolved matches, each search given the whole ignore list |
| `CommandLineRunner.MatchesAppend` | src/CommandLineRunner.ts:62-65 | the file list of a concatenation of include globs is the concatenation of their file lists, so nothing is de-duplicated |
| `CommandLineRunner.MatchesMembership` | src/CommandLineRunner.ts:62-65 | a path is in the file list iff it is the resolution of some match of some include glob |
| `CommandLineRunner.NoTestGlobsNoFiles` | src/CommandLineRunner.ts:58-65 | when every glob starts with `!` there are no include globs and the file list is empty |
| `CommandLineRunner.ChooseLogger` | src/CommandLineRunner.ts:71-73 | the logger is a build-server logger iff the build-server flag is set, and otherwise a console logger given the log level, the show-stacks flag and the file list |
| `CommandLineRunner.ChainLayout` | src/CommandLineRunner.ts:75-77 | the middleware list is two longer than the module list; its module names are the modules in command-line order; the logger comes right after them and the counter is last and the only counter |
| `ArrayOps.EveryIff` | src/CommandLineRunner.ts:81 | `every` holds iff the predicate holds at every index, so it holds of the empty list |
| `CommandLineRunner.ExitCode` | src/CommandLineRunner.ts:80-86 | the exit code is 0 or 1, and 0 iff the run resolved and every result has passed; a rejected run exits with 1 |
| `CommandLineRunner.ExitCodeAppend` | src/CommandLineRunner.ts:81 | one failing result anywhere in the list makes the exit code 1 |
| `CommandLineRunner.Prepare` | src/CommandLineRunner.ts:54-77 | the runner is given the in-order file list of the selected globs and a middleware list of the user modules in order, then the chosen logger over those same files, then the counter |
| `CommandLineRunner.EmptyTestFilesRunsNothing` | src/CommandLineRunner.ts:54-65 | an explicitly empty `--test-files` list leaves only the `.d.ts` exclusion, so no file is searched |
| `CommandLineRunner.Run` | src/CommandLineRunner.ts:79-86 | the script exits with 0 iff the runner, given the prepared middleware and files, resolves with results that have all passed, and with 1 otherwise |

## Left out

- Argument parsing by yargs (lines 14-52): aliases, defaults, the `choices`
  check and type coercion. Its output is the `Options` record; the verbosity is
  one of its three allowed values.
- Positional arguments are modelled as strings. yargs can parse a numeric
  positional argument as a number, which the script would then pass to
  `glob.sync`; that case is not modelled.
- Pattern matching by `glob.sync` and `path.resolve`: uninterpreted function
  parameters. The `nodir: true` option is part of what `GlobSync` stands for.
- The `LogLevel` enum lookup: the enum is not part of this model, so the
  verbosity value is passed to the console logger as it is.
- Module loading with `require(m).default` and the `ts-node/register` side
  effect: a loaded module is the opaque value `Module(name)`. A module that
  fails to load would crash the script before the run; that is not modelled.
- Aliasing: `push` appends to the array yargs returned (`--test-files` or the
  positional arguments). The model appends to a copy held by `GlobArray`; the
  script does not read those arrays again, so nothing observable is lost.
- `process.exit` and `console.error`: only the exit code is modelled; the
  printed error is not.
- The promise plumbing around `runTests`: the outcome is an input, either the
  results or a rejection.
- The test runner, the middleware hooks, the counter, the tests and the
  loggers: their source is not part of this model, so no middleware chain,
  counting or test execution is modelled. A result is reduced to its
  `hasPassed` flag.
