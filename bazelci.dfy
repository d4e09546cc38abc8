/**
 * The part of the external `bazelci` library that the presubmit script calls.
 * The library itself is not part of this model: each entry point is a field of
 * `Library`, an uninterpreted function supplied by the caller.
 */
module Bazelci {
  import opened Wrappers

  /** The definition of one task in a presubmit configuration; only the library reads it. */
  type TaskDefinition = map<string, string>

  /**
   * The `tasks` mapping of a presubmit configuration, in insertion order. A
   * YAML mapping has distinct keys (`DistinctNames`); the model also admits
   * repeated names, each of which then yields its own step.
   */
  datatype TaskConfig = TaskConfig(entries: seq<(string, TaskDefinition)>) {
    /** No task name occurs twice, as in a dictionary. */
    predicate DistinctNames()
    {
      forall j, k | 0 <= j < k < |entries| :: entries[j].0 != entries[k].0
    }

    /** The task names, in the order `for task_name in task_config` visits them. */
    function Names(): seq<string>
    {
      seq(|entries|, k requires 0 <= k < |entries| => entries[k].0)
    }
  }

  /** A loaded presubmit configuration; `tasks` is what `configs.get("tasks", None)` yields. */
  datatype ConfigFile = ConfigFile(tasks: Option<TaskConfig>)

  /** The outcome of `load_config`: a parsed file, or the exception it raised (missing or malformed file). */
  datatype LoadResult = Loaded(config: ConfigFile) | LoadFailed(detail: string)

  /** An entry of `PLATFORMS`: its `emoji-name` and `python` fields. */
  datatype Platform = Platform(emojiName: string, python: string)

  /** The arguments of one `create_step(label, commands, platform)` call. */
  datatype Step = Step(labelText: string, commands: seq<string>, platform: string)

  /** The outcome of `bazelci.main(argv)`: a return code or an exception. */
  datatype RunnerResult =
    | Returned(code: int)
    | CalledProcessError(detail: string)
    | OtherException(detail: string)

  datatype Library = Library(
    /** `load_config(http_url, file_config, allow_imports)`. */
    loadConfig: (Option<string>, string, bool) -> LoadResult,
    /** `get_platform_for_task(task, tasks)`. */
    platformForTask: (string, Option<TaskConfig>) -> string,
    /** `PLATFORMS[name]`. */
    platforms: string -> Platform,
    /** `downstream_projects_root(platform)`. */
    downstreamProjectsRoot: string -> string,
    /** `fetch_bazelcipy_command()`. */
    fetchBazelciCommand: string,
    /** `main(argv)`. */
    main: seq<string> -> RunnerResult)
}
