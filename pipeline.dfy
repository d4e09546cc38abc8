/**
 * Building the Buildkite pipeline: one step per task of each module's
 * presubmit configuration (`add_presubmit_jobs` and the loop of `main`'s
 * `bcr_presubmit` subcommand).
 */
module Pipeline {
  import opened Wrappers
  import opened Bazelci
  import Text
  import Config
  import ModuleSelection

  /** The label names the module under test: it ends in `Test <name>@<version>`. */
  predicate LabelNames(step: Step, target: ModuleSelection.ModuleRef)
  {
    Text.EndsWith(step.labelText, "Test " + target.0 + "@" + target.1)
  }

  /** The step label: the platform's emoji name, then `Test <name>@<version>`. */
  function StepLabel(emojiName: string, moduleName: string, moduleVersion: string): string
  {
    emojiName + "Test " + moduleName + "@" + moduleVersion
  }

  /** The third command of a step: run this script's `runner` subcommand for one task. */
  function RunnerCommand(python: string, moduleName: string, moduleVersion: string, taskName: string): string
  {
    python + (" bcr_presubmit.py runner --module_name=\"" + (moduleName
      + ("\" --module_version=\"" + (moduleVersion + ("\" --task=" + taskName)))))
  }

  /** The runner command starts with the interpreter and `bcr_presubmit.py runner --module_name="`. */
  lemma RunnerCommandStart(python: string, moduleName: string, moduleVersion: string, taskName: string)
    ensures var start := python + " bcr_presubmit.py runner --module_name=\"";
      var command := RunnerCommand(python, moduleName, moduleVersion, taskName);
      |start| <= |command| && command[..|start|] == start
  {
    var start := python + " bcr_presubmit.py runner --module_name=\"";
    var rest := moduleName + ("\" --module_version=\"" + (moduleVersion + ("\" --task=" + taskName)));
    assert RunnerCommand(python, moduleName, moduleVersion, taskName) == start + rest;
  }

  /**
   * The runner command names the module and the task it runs: when the name
   * and the version hold no `"`, two commands for the same interpreter are
   * equal only for the same name, version and task.
   */
  lemma RunnerCommandNamesModule(python: string, moduleName: string, moduleVersion: string, taskName: string,
                                 moduleName': string, moduleVersion': string, taskName': string)
    requires '"' !in moduleName && '"' !in moduleVersion && '"' !in moduleName' && '"' !in moduleVersion'
    requires RunnerCommand(python, moduleName, moduleVersion, taskName)
          == RunnerCommand(python, moduleName', moduleVersion', taskName')
    ensures moduleName == moduleName' && moduleVersion == moduleVersion' && taskName == taskName'
  {
    var head := " bcr_presubmit.py runner --module_name=\"";
    var middle := "\" --module_version=\"";
    var tail := "\" --task=";
    Text.CancelPrefix(python, head + (moduleName + (middle + (moduleVersion + (tail + taskName)))),
                      head + (moduleName' + (middle + (moduleVersion' + (tail + taskName')))));
    Text.CancelPrefix(head, moduleName + (middle + (moduleVersion + (tail + taskName))),
                      moduleName' + (middle + (moduleVersion' + (tail + taskName'))));
    Text.UpToFirst(moduleName, middle + (moduleVersion + (tail + taskName)),
                   moduleName', middle + (moduleVersion' + (tail + taskName')), '"');
    Text.CancelPrefix(middle, moduleVersion + (tail + taskName), moduleVersion' + (tail + taskName'));
    Text.UpToFirst(moduleVersion, tail + taskName, moduleVersion', tail + taskName', '"');
    Text.CancelPrefix(tail, taskName, taskName');
  }

  /**
   * The step generated for one task: it runs on the task's platform and has
   * three commands.
   */
  function PresubmitStep(lib: Library, scriptUrl: string, moduleName: string, moduleVersion: string,
                         tasks: TaskConfig, taskName: string): (step: Step)
    ensures step.platform == lib.platformForTask(taskName, Some(tasks))
    ensures |step.commands| == 3
  {
    var platform := lib.platformForTask(taskName, Some(tasks));
    var info := lib.platforms(platform);
    Step(StepLabel(info.emojiName, moduleName, moduleVersion),
         [lib.fetchBazelciCommand,
          Config.FetchBcrPresubmitPyCommand(scriptUrl),
          RunnerCommand(info.python, moduleName, moduleVersion, taskName)],
         platform)
  }

  /** The steps for the given task names, one each and in the same order. */
  function PresubmitJobs(lib: Library, scriptUrl: string, moduleName: string, moduleVersion: string,
                         tasks: TaskConfig, taskNames: seq<string>): (steps: seq<Step>)
    ensures |steps| == |taskNames|
    ensures forall k | 0 <= k < |taskNames| ::
      steps[k] == PresubmitStep(lib, scriptUrl, moduleName, moduleVersion, tasks, taskNames[k])
  {
    if taskNames == [] then []
    else
      PresubmitJobs(lib, scriptUrl, moduleName, moduleVersion, tasks, taskNames[..|taskNames| - 1])
        + [PresubmitStep(lib, scriptUrl, moduleName, moduleVersion, tasks, taskNames[|taskNames| - 1])]
  }

  /**
   * Every step has three commands (fetch the CI helper, fetch this script from
   * the pinned URL, run the task), runs on the task's platform, and its label
   * is the platform's emoji name followed by `Test <name>@<version>`.
   */
  lemma StepShape(lib: Library, scriptUrl: string, moduleName: string, moduleVersion: string,
                  tasks: TaskConfig, taskName: string)
    ensures var step := PresubmitStep(lib, scriptUrl, moduleName, moduleVersion, tasks, taskName);
      var platform := lib.platformForTask(taskName, Some(tasks));
      var suffix := "Test " + moduleName + "@" + moduleVersion;
      var task := "--task=" + taskName;
      var start := lib.platforms(platform).python + " bcr_presubmit.py runner --module_name=\"";
      && step.platform == platform
      && |step.commands| == 3
      && step.commands[0] == lib.fetchBazelciCommand
      && step.commands[1] == "curl -s " + scriptUrl + " -o bcr_presubmit.py"
      && step.commands[2] == RunnerCommand(lib.platforms(platform).python, moduleName, moduleVersion, taskName)
      && |start| <= |step.commands[2]| && step.commands[2][..|start|] == start
      && Text.EndsWith(step.commands[2], task)
      && LabelNames(step, (moduleName, moduleVersion))
      && step.labelText[..|step.labelText| - |suffix|] == lib.platforms(platform).emojiName
  {
    var step := PresubmitStep(lib, scriptUrl, moduleName, moduleVersion, tasks, taskName);
    var info := lib.platforms(lib.platformForTask(taskName, Some(tasks)));
    var suffix := "Test " + moduleName + "@" + moduleVersion;
    assert step.labelText == info.emojiName + suffix;
    var command := RunnerCommand(info.python, moduleName, moduleVersion, taskName);
    var head := info.python + (" bcr_presubmit.py runner --module_name=\"" + (moduleName
      + ("\" --module_version=\"" + (moduleVersion + "\" "))));
    assert "\" --task=" + taskName == "\" " + ("--task=" + taskName);
    assert command == head + ("--task=" + taskName);
    RunnerCommandStart(info.python, moduleName, moduleVersion, taskName);
  }

  /** Runner commands for different tasks differ: the task is the command's last part. */
  lemma RunnerCommandsDiffer(python: string, moduleName: string, moduleVersion: string,
                             taskName: string, taskName': string)
    requires taskName != taskName'
    ensures RunnerCommand(python, moduleName, moduleVersion, taskName)
         != RunnerCommand(python, moduleName, moduleVersion, taskName')
  {
    var p := python + (" bcr_presubmit.py runner --module_name=\"" + (moduleName
      + ("\" --module_version=\"" + (moduleVersion + "\" --task="))));
    assert RunnerCommand(python, moduleName, moduleVersion, taskName) == p + taskName;
    assert RunnerCommand(python, moduleName, moduleVersion, taskName') == p + taskName';
    assert (p + taskName)[|p|..] == taskName && (p + taskName')[|p|..] == taskName';
  }

  /** A configuration whose task names are distinct, as a mapping's keys are, yields distinct steps. */
  lemma DistinctTasksDistinctSteps(lib: Library, scriptUrl: string, moduleName: string, moduleVersion: string,
                                   tasks: TaskConfig)
    requires tasks.DistinctNames()
    ensures var steps := PresubmitJobs(lib, scriptUrl, moduleName, moduleVersion, tasks, tasks.Names());
      forall j, k | 0 <= j < k < |steps| :: steps[j] != steps[k]
  {
    var names := tasks.Names();
    var steps := PresubmitJobs(lib, scriptUrl, moduleName, moduleVersion, tasks, names);
    forall j, k | 0 <= j < k < |steps| ensures steps[j] != steps[k] {
      assert names[j] == tasks.entries[j].0 && names[k] == tasks.entries[k].0;
      var platform := lib.platformForTask(names[j], Some(tasks));
      if platform == lib.platformForTask(names[k], Some(tasks)) {
        RunnerCommandsDiffer(lib.platforms(platform).python, moduleName, moduleVersion, names[j], names[k]);
        assert steps[j].commands[2] != steps[k].commands[2];
      }
    }
  }

  /** The jobs of a concatenation of task lists are the concatenation of their jobs. */
  lemma {:induction false} PresubmitJobsAppend(lib: Library, scriptUrl: string, moduleName: string,
                                               moduleVersion: string, tasks: TaskConfig,
                                               first: seq<string>, second: seq<string>)
    ensures PresubmitJobs(lib, scriptUrl, moduleName, moduleVersion, tasks, first + second)
         == PresubmitJobs(lib, scriptUrl, moduleName, moduleVersion, tasks, first)
          + PresubmitJobs(lib, scriptUrl, moduleName, moduleVersion, tasks, second)
  {
    var all := PresubmitJobs(lib, scriptUrl, moduleName, moduleVersion, tasks, first + second);
    var joined := PresubmitJobs(lib, scriptUrl, moduleName, moduleVersion, tasks, first)
                + PresubmitJobs(lib, scriptUrl, moduleName, moduleVersion, tasks, second);
    assert |all| == |joined|;
    forall k | 0 <= k < |all| ensures all[k] == joined[k] {
      if k < |first| {
        assert (first + second)[k] == first[k];
      } else {
        assert (first + second)[k] == second[k - |first|];
      }
    }
  }

  /** The caller-owned `pipeline_steps` list. */
  class StepList {
    var steps: seq<Step>

    constructor ()
      ensures steps == []
    {
      steps := [];
    }
  }

  /**
   * `add_presubmit_jobs`: append one step per task of `tasks`, in iteration
   * order, leaving the steps already in the list as they were.
   */
  method AddPresubmitJobs(lib: Library, scriptUrl: string, moduleName: string, moduleVersion: string,
                          tasks: TaskConfig, pipeline: StepList)
    modifies pipeline
    ensures pipeline.steps
         == old(pipeline.steps) + PresubmitJobs(lib, scriptUrl, moduleName, moduleVersion, tasks, tasks.Names())
  {
    var taskNames := tasks.Names();
    for i := 0 to |taskNames|
      invariant pipeline.steps
             == old(pipeline.steps) + PresubmitJobs(lib, scriptUrl, moduleName, moduleVersion, tasks, taskNames[..i])
    {
      var taskName := taskNames[i];
      var platform := lib.platformForTask(taskName, Some(tasks));
      var labelText := lib.platforms(platform).emojiName + "Test " + moduleName + "@" + moduleVersion;
      var command := RunnerCommand(lib.platforms(platform).python, moduleName, moduleVersion, taskName);
      var commands := [lib.fetchBazelciCommand, Config.FetchBcrPresubmitPyCommand(scriptUrl), command];
      pipeline.steps := pipeline.steps + [Step(labelText, commands, platform)];
      assert taskNames[..i + 1][..i] == taskNames[..i];
    }
    assert taskNames[..|taskNames|] == taskNames;
  }

  // ---------------------------------------------------------------------------
  // The `bcr_presubmit` subcommand's loop over modules
  // ---------------------------------------------------------------------------

  /**
   * The steps of one module: load its presubmit file and take its `tasks`.
   * A load failure, or a file without `tasks` (iterating over `None`), is an
   * exception that ends the run.
   */
  function ModuleJobs(lib: Library, settings: Config.Settings, target: ModuleSelection.ModuleRef)
    : (r: Result<seq<Step>, Config.Error>)
    ensures var loaded := Config.GetTaskConfig(lib, settings.repoDir, target.0, target.1);
      && (r.Err? <==> loaded.LoadFailed? || loaded.config.tasks.None?)
      && (r.Ok? ==> |r.value| == |loaded.config.tasks.value.Names()|)
  {
    match Config.GetTaskConfig(lib, settings.repoDir, target.0, target.1)
    case LoadFailed(detail) =>
      Err(Config.ConfigLoadFailed(Config.GetPresubmitYml(settings.repoDir, target.0, target.1), detail))
    case Loaded(config) =>
      match config.tasks
      case None => Err(Config.NoTasks(target.0, target.1))
      case Some(tasks) => Ok(PresubmitJobs(lib, settings.scriptUrl, target.0, target.1, tasks, tasks.Names()))
  }

  /** The whole step list for `modules`, or the first module's exception. */
  function PipelineFor(lib: Library, settings: Config.Settings, modules: seq<ModuleSelection.ModuleRef>)
    : Result<seq<Step>, Config.Error>
  {
    if modules == [] then Ok([])
    else
      match PipelineFor(lib, settings, modules[..|modules| - 1])
      case Err(e) => Err(e)
      case Ok(steps) =>
        match ModuleJobs(lib, settings, modules[|modules| - 1])
        case Err(e) => Err(e)
        case Ok(jobs) => Ok(steps + jobs)
  }

  /** The run succeeds exactly when every module's configuration yields its jobs. */
  lemma {:induction false} PipelineOkIff(lib: Library, settings: Config.Settings,
                                         modules: seq<ModuleSelection.ModuleRef>)
    ensures PipelineFor(lib, settings, modules).Ok?
        <==> forall k | 0 <= k < |modules| :: ModuleJobs(lib, settings, modules[k]).Ok?
    decreases |modules|
  {
    if modules != [] {
      var init := modules[..|modules| - 1];
      PipelineOkIff(lib, settings, init);
      assert forall k | 0 <= k < |init| :: modules[k] == init[k];
    }
  }

  /** A failed run reports the error of the first module whose jobs fail. */
  lemma {:induction false} PipelineFirstError(lib: Library, settings: Config.Settings,
                                              modules: seq<ModuleSelection.ModuleRef>)
    requires PipelineFor(lib, settings, modules).Err?
    ensures exists k | 0 <= k < |modules| ::
      && ModuleJobs(lib, settings, modules[k]) == Err(PipelineFor(lib, settings, modules).error)
      && forall j | 0 <= j < k :: ModuleJobs(lib, settings, modules[j]).Ok?
    decreases |modules|
  {
    var init := modules[..|modules| - 1];
    var last := |modules| - 1;
    var e := PipelineFor(lib, settings, modules).error;
    PipelineOkIff(lib, settings, init);
    if PipelineFor(lib, settings, init).Err? {
      PipelineFirstError(lib, settings, init);
      var k :| 0 <= k < |init| && ModuleJobs(lib, settings, init[k]) == Err(e)
        && forall j | 0 <= j < k :: ModuleJobs(lib, settings, init[j]).Ok?;
      assert modules[k] == init[k];
      assert forall j | 0 <= j < k :: modules[j] == init[j];
    } else {
      assert ModuleJobs(lib, settings, modules[last]) == Err(e);
      assert forall j | 0 <= j < last :: modules[j] == init[j];
    }
  }

  /** Once a prefix of the modules fails, the whole list fails the same way. */
  lemma {:induction false} PipelineErrorPersists(lib: Library, settings: Config.Settings,
                                                 modules: seq<ModuleSelection.ModuleRef>, i: nat)
    requires i <= |modules|
    requires PipelineFor(lib, settings, modules[..i]).Err?
    ensures PipelineFor(lib, settings, modules) == PipelineFor(lib, settings, modules[..i])
    decreases |modules| - i
  {
    if i < |modules| {
      var longer := modules[..i + 1];
      assert longer[..|longer| - 1] == modules[..i];
      PipelineErrorPersists(lib, settings, modules, i + 1);
    } else {
      assert modules[..i] == modules;
    }
  }

  /**
   * A successful pipeline is made of each module's steps, module after module:
   * every step's label ends in `Test <name>@<version>` of a module in the list.
   */
  lemma {:induction false} PipelineLabels(lib: Library, settings: Config.Settings,
                                          modules: seq<ModuleSelection.ModuleRef>)
    requires PipelineFor(lib, settings, modules).Ok?
    ensures var steps := PipelineFor(lib, settings, modules).value;
      forall s | s in steps :: exists k | 0 <= k < |modules| :: LabelNames(s, modules[k])
    decreases |modules|
  {
    if modules != [] {
      var init := modules[..|modules| - 1];
      var last := modules[|modules| - 1];
      PipelineLabels(lib, settings, init);
      var steps := PipelineFor(lib, settings, init).value;
      var jobs := ModuleJobs(lib, settings, last).value;
      assert PipelineFor(lib, settings, modules).value == steps + jobs;
      forall s | s in steps + jobs
        ensures exists k | 0 <= k < |modules| :: LabelNames(s, modules[k])
      {
        if s in steps {
          var k :| 0 <= k < |init| && LabelNames(s, init[k]);
          assert modules[k] == init[k];
        } else {
          var tasks := Config.GetTaskConfig(lib, settings.repoDir, last.0, last.1).config.tasks.value;
          var j :| 0 <= j < |jobs| && jobs[j] == s;
          StepShape(lib, settings.scriptUrl, last.0, last.1, tasks, tasks.Names()[j]);
          assert modules[|modules| - 1] == last;
        }
      }
    }
  }

  /**
   * No module, no step: without module variables in the environment, git
   * output that holds no module path selects no module and yields a pipeline
   * with no step.
   */
  lemma EmptyPipeline(lib: Library, settings: Config.Settings, env: map<string, string>,
                      gitOutput: string, modules: seq<ModuleSelection.ModuleRef>)
    requires ModuleSelection.EnvModules(env) == [] && ModuleSelection.FindAll(gitOutput) == []
    requires ModuleSelection.TargetModules(env, gitOutput, modules)
    ensures modules == [] && PipelineFor(lib, settings, modules) == Ok([])
  {
    ModuleSelection.FallbackNeedsMatch(gitOutput, modules);
  }

  /**
   * The `bcr_presubmit` subcommand: a fresh step list, filled module by module. The
   * first module whose configuration cannot be used ends the run.
   */
  method BuildPipeline(lib: Library, settings: Config.Settings, modules: seq<ModuleSelection.ModuleRef>)
    returns (r: Result<seq<Step>, Config.Error>)
    ensures r == PipelineFor(lib, settings, modules)
  {
    var pipeline := new StepList();
    for i := 0 to |modules|
      invariant PipelineFor(lib, settings, modules[..i]) == Ok(pipeline.steps)
    {
      var (moduleName, moduleVersion) := modules[i];
      assert modules[..i + 1][..i] == modules[..i];
      var configs := Config.GetTaskConfig(lib, settings.repoDir, moduleName, moduleVersion);
      if configs.LoadFailed? {
        r := Err(Config.ConfigLoadFailed(Config.GetPresubmitYml(settings.repoDir, moduleName, moduleVersion),
                                         configs.detail));
        PipelineErrorPersists(lib, settings, modules, i + 1);
        return;
      }
      if configs.config.tasks.None? {
        r := Err(Config.NoTasks(moduleName, moduleVersion));
        PipelineErrorPersists(lib, settings, modules, i + 1);
        return;
      }
      AddPresubmitJobs(lib, settings.scriptUrl, moduleName, moduleVersion, configs.config.tasks.value, pipeline);
    }
    assert modules[..|modules|] == modules;
    r := Ok(pipeline.steps);
  }
}
