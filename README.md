# Bazel Central Registry presubmit script, modelled in Dafny

`buildkite/bcr_presubmit.py` drives presubmit testing of the Bazel Central
Registry on Buildkite. It has two modes:

- `bcr_presubmit` decides which module versions a commit touches. It loads each
  one's `presubmit.yml` and prints a pipeline with one step per task.
- `runner` runs one such step. It writes a scratch workspace that depends on the
  module under test, then hands over to the `bazelci` runner.

This project models that logic and proves what it promises:

- **Module selection.** `MODULE_VERSION` beats `MODULE_VERSIONS`, which is split
  on commas. With neither, the script falls back to
  `re.findall(r"modules\/[^\/]+\/[^\/]+\/", …)` on the output of
  `git show --name-only`, deduplicated through a set. The regex is modelled
  position by position, as Python's `findall` scans, and proved to find exactly
  the strings the pattern accepts (`MatchAtIff`). Because `[^/]` also matches a
  newline, one match can span two lines of git output. `MatchSpansLines` and
  `FallbackSpansLines` prove this for git output that lists a top-level file
  of one module followed by a versioned file of another. Git prints changed
  paths in sorted order, so a commit touching `modules/abc/metadata.json` and
  `modules/abd/1.0/MODULE.bazel` produces such output. `AdjacentModulesMissed`
  proves that the result is then the single pair
  `("abc", "metadata.json\nmodules")`, and `abd@1.0` is not selected.
- **Pipeline steps.** Each task adds one step, in task order, to a
  caller-owned list (the class `StepList`). Steps already in the list are kept.
  A step has a label `<emoji-name>Test <name>@<version>` and exactly three
  commands.
- **The scratch repository.** The file system is a map from path to contents
  (the class `FileSystem`). Each `scratch_file` call truncates and rewrites one
  file. `create_test_repo` writes exactly four files.
- **Dispatch and exit codes.** Start-up fails on an unknown Buildkite
  organization. `bcr_presubmit` exits 0. `runner` returns the runner's code, or
  1 when the runner reports a failed subprocess. No subcommand, or an unknown
  one, exits 2.

The external `bazelci` library is the datatype `Bazelci.Library`, whose fields
are uninterpreted functions: `load_config`, `get_platform_for_task`, `PLATFORMS`,
`downstream_projects_root`, `fetch_bazelcipy_command` and `main`.
`create_step(label, commands, platform)` is kept as the record `Bazelci.Step`
of its three arguments. Inputs that are inputs in the model:

- the environment, as a map;
- the working directory and its `file:` URI, as strings;
- the decoded output of `git show`.

Python's `"".split(",")` is `[""]`, so an empty `MODULE_VERSIONS` selects the
one pair `(MODULE_NAME, "")`, and the git fallback is not reached.

## Model

| member | source | states |
|---|---|---|
| `Text.Split` | buildkite/bcr_presubmit.py:60 | `str.split` on one character returns at least one piece, and no piece contains the separator |
| `Text.JoinSplit` | buildkite/bcr_presubmit.py:60 | joining the pieces of a split with the separator gives back the original string |
| `Text.SplitJoin` | buildkite/bcr_presubmit.py:72 | splitting a join gives back the pieces, when no piece contains the separator |
| `ModuleSelection.RunEnd` | buildkite/bcr_presubmit.py:71 | a greedy `[^/]` run stops at the first `/` at or after its start, or at the end of the text |
| `ModuleSelection.MatchAt` | buildkite/bcr_presubmit.py:71 | a match found at a position starts with `modules/`, ends with `/`, is at least twelve characters long and lies inside the text |
| `ModuleSelection.FindAllFrom` | buildkite/bcr_presubmit.py:71 | `findall` from a position returns at most one match per twelve remaining characters, each starting with `modules/` and ending with `/` |
| `ModuleSelection.MatchAtIff` | buildkite/bcr_presubmit.py:71 | the match found at a position ends at `e` exactly when the text from the position to `e` is accepted by `modules/[^/]+/[^/]+/`; this holds in both directions, so a match is unique and the greedy scan loses none |
| `ModuleSelection.MatchAtSound` | buildkite/bcr_presubmit.py:71 | a match found at a position is accepted by the pattern |
| `ModuleSelection.MatchAtComplete` | buildkite/bcr_presubmit.py:71 | a prefix accepted by the pattern is the match found at that position |
| `ModuleSelection.FindAllFromSound` | buildkite/bcr_presubmit.py:71 | every string `findall` returns is `modules/<name>/<version>/` with both parts non-empty and free of `/` |
| `ModuleSelection.NoMatchWithoutPrefix` | buildkite/bcr_presubmit.py:71 | text with no `m` from a position on has no match from there |
| `ModuleSelection.ModulePathMatches` | buildkite/bcr_presubmit.py:71 | a changed path under `modules/<name>/<version>/` gives that prefix as the first match, and the scan resumes right after it |
| `ModuleSelection.MatchSpansLines` | buildkite/bcr_presubmit.py:71 | a top-level file `modules/<a>/<meta>` followed by a versioned file `modules/<b>/<v>/<file>` of another module gives one match spanning the newline; its name is `<a>` and its "version" is `<meta>\nmodules` |
| `ModuleSelection.SplitMatch` | buildkite/bcr_presubmit.py:72-73 | `split("/")` on a match gives `["modules", name, version, ""]`, so `parts[1]` and `parts[2]` are the name and version |
| `ModuleSelection.MatchOfInjective` | buildkite/bcr_presubmit.py:71-73 | two matches are equal only when their names and versions are equal |
| `ModuleSelection.EnvModules` | buildkite/bcr_presubmit.py:55-61 | the environment branch yields nothing exactly when `MODULE_NAME` is absent, or when both `MODULE_VERSION` and `MODULE_VERSIONS` are absent |
| `ModuleSelection.GetTargetModules` | buildkite/bcr_presubmit.py:53-75 | returns the environment branch's list when that list is non-empty; otherwise returns one pair per distinct `findall` match, each once, in any order |
| `ModuleSelection.MatchedModules` | buildkite/bcr_presubmit.py:67-73 | each returned pair has non-empty, `/`-free parts and comes from a match; every match is represented; no pair appears twice |
| `ModuleSelection.ExplicitVersionWins` | buildkite/bcr_presubmit.py:55-58 | with `MODULE_NAME` and `MODULE_VERSION` set, the result is exactly that one pair, whatever git prints and whether or not `MODULE_VERSIONS` is set |
| `ModuleSelection.VersionListRoundTrip` | buildkite/bcr_presubmit.py:59-64 | with `MODULE_VERSIONS` alone, every pair carries `MODULE_NAME` and a comma-free version; the list is never empty; the versions joined with commas give back `MODULE_VERSIONS` |
| `ModuleSelection.TwoVersions` | buildkite/bcr_presubmit.py:59-61 | `MODULE_VERSIONS="1.0,2.0"` gives `[(name, "1.0"), (name, "2.0")]` |
| `ModuleSelection.EmptyVersionList` | buildkite/bcr_presubmit.py:59-64 | an empty `MODULE_VERSIONS` gives `[(name, "")]`, so git is not consulted |
| `ModuleSelection.FallbackExact` | buildkite/bcr_presubmit.py:71-73 | in the fallback, a pair is returned exactly when its `modules/<name>/<version>/` is a match, and it is returned at most once |
| `ModuleSelection.FallbackSingle` | buildkite/bcr_presubmit.py:71-75 | git output with one match gives exactly that match's pair |
| `ModuleSelection.FallbackNeedsMatch` | buildkite/bcr_presubmit.py:71-75 | the fallback selects some module only when `findall` found a match |
| `ModuleSelection.FallbackSpansLines` | buildkite/bcr_presubmit.py:67-75 | for such output, the fallback returns only the pair whose version contains a newline, and misses the second module's real version |
| `ModuleSelection.AdjacentModulesMissed` | buildkite/bcr_presubmit.py:67-75 | a commit touching `modules/abc/metadata.json` and `modules/abd/1.0/MODULE.bazel`, listed by git in that order, selects only `("abc", "metadata.json\nmodules")`; `abd@1.0` is not tested |
| `Config.Startup` | buildkite/bcr_presubmit.py:30-38 | start-up fails with `KeyError` when `BUILDKITE_ORGANIZATION_SLUG` is missing or is not one of the three known organizations; `bazel-testing` gets the test-branch URL; the other two get the master URL |
| `Config.ScriptUrlsFetchThisScript` | buildkite/bcr_presubmit.py:34-38 | every pinned URL ends in `/buildkite/bcr_presubmit.py` |
| `Config.FetchBcrPresubmitPyCommand` | buildkite/bcr_presubmit.py:41-42 | the command is `curl -s `, then the script URL, then ` -o bcr_presubmit.py` |
| `Config.FetchCommandNamesUrl` | buildkite/bcr_presubmit.py:41-42 | the download command determines the URL it downloads |
| `Config.GetPresubmitYml` | buildkite/bcr_presubmit.py:78-79 | the configuration path lies under the repository directory, ends in `/presubmit.yml`, and is as long as the directory, `/modules/`, the name, `/`, the version and `/presubmit.yml` together |
| `Config.TaskConfigReadsOwnFile` | buildkite/bcr_presubmit.py:82-83 | `get_task_config` depends only on what `load_config` does with the module's own `presubmit.yml`, loaded without an HTTP URL and without imports |
| `Config.PresubmitYmlParts` | buildkite/bcr_presubmit.py:78-79 | the relative configuration path splits on `/` into `modules`, the name, the version and `presubmit.yml` |
| `Config.PresubmitYmlInjective` | buildkite/bcr_presubmit.py:78-79 | modules whose names and versions are path parts (non-empty, free of `/`, not `.`) have distinct configuration paths |
| `Pipeline.RunnerCommandStart` | buildkite/bcr_presubmit.py:92-100 | the runner command begins with the platform's Python, then ` bcr_presubmit.py runner --module_name="` |
| `Pipeline.RunnerCommandNamesModule` | buildkite/bcr_presubmit.py:92-100 | the runner command determines the module name, the version and the task, when neither name nor version contains `"` |
| `Pipeline.RunnerCommandsDiffer` | buildkite/bcr_presubmit.py:92-100 | different tasks give different runner commands |
| `Pipeline.PresubmitStep` | buildkite/bcr_presubmit.py:88-102 | a step runs on the platform `get_platform_for_task` picks for its task and has three commands |
| `Pipeline.PresubmitJobs` | buildkite/bcr_presubmit.py:87-102 | one step per task name, in the same order |
| `Pipeline.StepShape` | buildkite/bcr_presubmit.py:88-101 | a step runs on the task's platform and has exactly three commands: the `bazelci` fetch command, `curl -s <SCRIPT_URL> -o bcr_presubmit.py`, and the runner call `<python> bcr_presubmit.py runner --module_name="<name>" --module_version="<version>" --task=<task>` with the platform's Python, which begins with `<python> bcr_presubmit.py runner --module_name="` and ends in `--task=<task>`; its label is the platform's emoji name followed by `Test <name>@<version>` |
| `Pipeline.DistinctTasksDistinctSteps` | buildkite/bcr_presubmit.py:87-102 | a configuration whose task names are distinct, as the keys of a YAML mapping are, gives pairwise distinct steps |
| `Pipeline.PresubmitJobsAppend` | buildkite/bcr_presubmit.py:87-102 | the steps for two task lists in a row are the steps of the first list followed by those of the second |
| `Pipeline.AddPresubmitJobs` | buildkite/bcr_presubmit.py:86-102 | the list afterwards is the old list unchanged, followed by one step per task in iteration order |
| `Pipeline.ModuleJobs` | buildkite/bcr_presubmit.py:168-169 | a module's jobs fail exactly when its configuration fails to load or has no `tasks`; otherwise there is one step per task |
| `Pipeline.PipelineOkIff` | buildkite/bcr_presubmit.py:165-169 | the run over all selected modules (`PipelineFor`) succeeds exactly when every module's configuration yields its jobs |
| `Pipeline.PipelineFirstError` | buildkite/bcr_presubmit.py:167-169 | a failed run (`PipelineFor`) reports the error of the first failing module: that module's jobs fail with exactly this error, and the jobs of every module before it succeed |
| `Pipeline.PipelineErrorPersists` | buildkite/bcr_presubmit.py:167-169 | once a module's configuration fails to load, or has no `tasks`, the whole run fails with that error |
| `Pipeline.PipelineLabels` | buildkite/bcr_presubmit.py:165-169 | every step of a successful pipeline has a label ending in `Test <name>@<version>` for one of the selected modules |
| `Pipeline.EmptyPipeline` | buildkite/bcr_presubmit.py:165-170 | with no `MODULE_NAME` selection and no `findall` match, no module is selected and the pipeline has no step |
| `Pipeline.BuildPipeline` | buildkite/bcr_presubmit.py:165-169 | starts a fresh step list and adds each module's jobs in turn; the result is the step list for all modules, or the first module's error |
| `ScratchRepo.RenderedLines` | buildkite/bcr_presubmit.py:111-114 | a file written line by line reads back as its lines plus a final empty piece, when no line contains a newline |
| `ScratchRepo.RenderedIsJoin` | buildkite/bcr_presubmit.py:111-114 | writing each line followed by `\n` equals joining the lines and one empty piece with `\n` |
| `ScratchRepo.ScratchFile` | buildkite/bcr_presubmit.py:105-115 | an empty relative path writes nothing and returns `None`; otherwise exactly the file `root/relative_path` is overwritten with its lines, each followed by `\n` (empty for `None` or `[]`), and its path is returned |
| `ScratchRepo.TestRepoPaths` | buildkite/bcr_presubmit.py:123-129 | the scratch repository consists of exactly four distinct files: `WORKSPACE`, `BUILD`, `MODULE.bazel` and `.bazelrc` under the root |
| `ScratchRepo.TestRepoContents` | buildkite/bcr_presubmit.py:123-129 | `WORKSPACE` and `BUILD` are empty; `MODULE.bazel` is `bazel_dep(name = '<n>', version = '<v>')\n`; `.bazelrc` is `build --registry=<uri>\nbuild --experimental_enable_bzlmod\n` |
| `ScratchRepo.TestRepoReadsBack` | buildkite/bcr_presubmit.py:125-129 | read back line by line, `MODULE.bazel` is its one dependency line and `.bazelrc` its two `build` lines |
| `ScratchRepo.TestRepoRoot` | buildkite/bcr_presubmit.py:119-122 | the scratch root is the downstream root of the platform chosen for the task from the module's `tasks` (or from `None`); a failed configuration load is that load's error for the module's `presubmit.yml` |
| `ScratchRepo.CreateTestRepo` | buildkite/bcr_presubmit.py:118-130 | returns the downstream root of the task's platform, and the file system gains exactly the four files (other files unchanged); a failed configuration load writes nothing |
| `Cli.RunTest` | buildkite/bcr_presubmit.py:133-145 | passes `runner`, `--task=`, `--file_config=` and `--git_repo_location=` to the runner; returns its code; a `CalledProcessError` gives 1 and one error-stream line with its text; any other exception propagates |
| `Cli.RunTestReportsFailures` | buildkite/bcr_presubmit.py:133-145 | there is an error-stream line exactly when the runner reported a failed subprocess; the run raises exactly when the runner raised something else; exit code 0 means the runner returned 0 |
| `Cli.RunnerArgvNamesModule` | buildkite/bcr_presubmit.py:135-142 | the runner's arguments determine the module name and version, when both are path parts (non-empty, free of `/`, not `.`) |
| `Cli.Execute` | buildkite/bcr_presubmit.py:148-178 | a start-up failure raises before any subcommand and writes nothing; `bcr_presubmit` prints the step list and exits 0, or raises the first module's error; `runner` writes the scratch repository and ends as `run_test`; a missing or unknown subcommand exits 2 |

## Left out

- Running `git` (lines 67-69) and reading `os.environ` and `os.getcwd()`: their results are inputs. A non-UTF-8 git output, which would make `decode("utf-8")` raise, is not modelled.
- The `bazelci` library: it is the set of uninterpreted functions in `Bazelci.Library`, because it is external code. A `PLATFORMS` lookup that would raise `KeyError` is not modelled; `platforms` is total.
- `create_step`'s rendering of a step into a Buildkite dictionary: a step is the record of the three arguments the script passes.
- `yaml.dump` (line 170): the printed document is the step list itself.
- YAML parsing inside `load_config`: a load either yields a configuration whose `tasks` entry may be absent, or fails, and a failure is an exception that propagates.
- `argparse` (lines 152-163): the model takes an already parsed `Invocation`. Help and usage text are one value `Usage`. An unknown subcommand, which `argparse` rejects by exiting with status 2, is modelled like a missing one. `runner` flags left unset, which would be `None`, are not modelled; the three flags are strings.
- `Path.joinpath` normalisation and `Path.as_uri()`: a join is `root + "/" + relative`, and the URI is an opaque string.
- `Config.PresubmitYmlInjective`: holds only for names and versions that are non-empty, free of `/` and not `.`. pathlib collapses empty and `.` parts, so the program gives `("a", "")` and `("", "a")` the same `presubmit.yml`. `MODULE_VERSIONS="1.0,"` reaches the empty version.
- `Cli.RunnerArgvNamesModule`: requires the same path parts, for the same reason. The argument `--file_config=` is built from that collapsed path.
- `Bazelci.TaskConfig`: a YAML mapping cannot repeat a task name, but the model admits repeats, each of which then yields its own step. `DistinctNames` states the mapping's property; `Pipeline.DistinctTasksDistinctSteps` assumes it.
- Writing to real files and what the runner does to the file system afterwards: the file system is a map that only this script's writes change. `open` failures (a missing or read-only root) are not modelled.
- The `curl` downloads inside the command strings: they are text.
- `BcrPresubmitException` (lines 45-50) is defined but never raised, so nothing models it.
- `Cli.Execute`: its `bcr_presubmit` case says the printed steps are those for some list allowed by `TargetModules`. It does not fix which order of the deduplicated matches is used, because the source iterates over a Python set.
