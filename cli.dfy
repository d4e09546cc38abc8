/**
 * The command line: `run_test` and `main`'s choice between the
 * `bcr_presubmit` and `runner` subcommands.
 */
module Cli {
  import opened Wrappers
  import Bazelci
  import Config
  import ModuleSelection
  import Pipeline
  import ScratchRepo

  /** The parsed command line: the subcommand and, for `runner`, its three flags. */
  datatype Invocation =
    | BcrPresubmit
    | Runner(moduleName: string, moduleVersion: string, task: string)
    | NoSubcommand
    | UnknownSubcommand(name: string)

  /** How the process ends: an exit code, or an exception that propagates out of `main`. */
  datatype Exit = Exited(code: int) | Raised(error: Config.Error)

  /** What the process prints on standard output. */
  datatype Printed =
    | NothingPrinted
    | StepsDocument(steps: seq<Bazelci.Step>)   // a YAML document whose `steps` key holds the step list
    | Usage                                     // argparse's help or usage text

  /** The observable result of one invocation; `stderr` holds the lines `eprint` writes. */
  datatype Outcome = Outcome(exit: Exit, printed: Printed, stderr: seq<string>)

  /** The argument list `run_test` hands to the runner. */
  function RunnerArgv(settings: Config.Settings, repoLocation: string, moduleName: string,
                      moduleVersion: string, task: string): seq<string>
  {
    ["runner",
     "--task=" + task,
     "--file_config=" + Config.GetPresubmitYml(settings.repoDir, moduleName, moduleVersion),
     "--git_repo_location=" + repoLocation]
  }

  /**
   * `run_test`: the runner's own return code, or 1 with the error on the error
   * stream when it reports a failed subprocess. Any other exception propagates.
   */
  function RunTest(lib: Bazelci.Library, settings: Config.Settings, repoLocation: string,
                   moduleName: string, moduleVersion: string, task: string): (o: Outcome)
    ensures o.printed == NothingPrinted
    ensures var result := lib.main(RunnerArgv(settings, repoLocation, moduleName, moduleVersion, task));
      && (result.Returned? ==> o.exit == Exited(result.code) && o.stderr == [])
      && (result.CalledProcessError? ==> o.exit == Exited(1) && o.stderr == [result.detail])
      && (result.OtherException? ==> o.exit == Raised(Config.RunnerRaised(result.detail)) && o.stderr == [])
  {
    match lib.main(RunnerArgv(settings, repoLocation, moduleName, moduleVersion, task))
    case Returned(code) => Outcome(Exited(code), NothingPrinted, [])
    case CalledProcessError(detail) => Outcome(Exited(1), NothingPrinted, [detail])
    case OtherException(detail) => Outcome(Raised(Config.RunnerRaised(detail)), NothingPrinted, [])
  }

  /**
   * A runner exception is never swallowed: exit code 1 comes with an error
   * line, and any other ending is the runner's own code or its exception.
   */
  lemma RunTestReportsFailures(lib: Bazelci.Library, settings: Config.Settings, repoLocation: string,
                               moduleName: string, moduleVersion: string, task: string)
    ensures var o := RunTest(lib, settings, repoLocation, moduleName, moduleVersion, task);
      var result := lib.main(RunnerArgv(settings, repoLocation, moduleName, moduleVersion, task));
      (o.stderr != [] <==> result.CalledProcessError?)
      && (o.exit.Raised? <==> result.OtherException?)
      && (o.exit == Exited(0) ==> result == Bazelci.Returned(0))
  {
  }

  /**
   * The runner is told the task, the module's configuration file and the
   * scratch repository; the configuration path determines the module when its
   * name and version are path components of their own.
   */
  lemma RunnerArgvNamesModule(settings: Config.Settings, repoLocation: string,
                              moduleName: string, moduleVersion: string, task: string,
                              moduleName': string, moduleVersion': string)
    requires Config.PathPart(moduleName) && Config.PathPart(moduleVersion)
    requires Config.PathPart(moduleName') && Config.PathPart(moduleVersion')
    requires RunnerArgv(settings, repoLocation, moduleName, moduleVersion, task)
          == RunnerArgv(settings, repoLocation, moduleName', moduleVersion', task)
    ensures moduleName == moduleName' && moduleVersion == moduleVersion'
  {
    var prefix := "--file_config=";
    var argv := RunnerArgv(settings, repoLocation, moduleName, moduleVersion, task);
    var argv' := RunnerArgv(settings, repoLocation, moduleName', moduleVersion', task);
    assert argv[2] == argv'[2];
    assert argv[2][|prefix|..] == Config.GetPresubmitYml(settings.repoDir, moduleName, moduleVersion);
    assert argv'[2][|prefix|..] == Config.GetPresubmitYml(settings.repoDir, moduleName', moduleVersion');
    Config.PresubmitYmlInjective(settings.repoDir, moduleName, moduleVersion, moduleName', moduleVersion');
  }

  /**
   * The whole process: module start-up, then `main`. Start-up failures stop it
   * before any subcommand; `bcr_presubmit` prints the step list and exits 0;
   * `runner` builds the scratch repository and exits with `run_test`'s code;
   * anything else prints usage and exits 2.
   */
  method Execute(lib: Bazelci.Library, env: map<string, string>, cwd: string, cwdUri: string,
               gitOutput: string, invocation: Invocation, fs: ScratchRepo.FileSystem)
    returns (o: Outcome)
    modifies fs
    ensures Config.Startup(env, cwd, cwdUri).Err? ==>
      o == Outcome(Raised(Config.Startup(env, cwd, cwdUri).error), NothingPrinted, [])
      && fs.files == old(fs.files)
    ensures Config.Startup(env, cwd, cwdUri).Ok? ==>
      var settings := Config.Startup(env, cwd, cwdUri).value;
      match invocation
      case BcrPresubmit =>
        && fs.files == old(fs.files)
        && exists modules ::
             && ModuleSelection.TargetModules(env, gitOutput, modules)
             && o == (match Pipeline.PipelineFor(lib, settings, modules)
                      case Ok(steps) => Outcome(Exited(0), StepsDocument(steps), [])
                      case Err(e) => Outcome(Raised(e), NothingPrinted, []))
      case Runner(moduleName, moduleVersion, task) =>
        (match ScratchRepo.TestRepoRoot(lib, settings, moduleName, moduleVersion, task)
         case Err(e) => o == Outcome(Raised(e), NothingPrinted, []) && fs.files == old(fs.files)
         case Ok(root) =>
           && fs.files == old(fs.files) + ScratchRepo.TestRepoFiles(root, moduleName, moduleVersion, settings.repoUri)
           && o == RunTest(lib, settings, root, moduleName, moduleVersion, task))
      case NoSubcommand => o == Outcome(Exited(2), Usage, []) && fs.files == old(fs.files)
      case UnknownSubcommand(_) => o == Outcome(Exited(2), Usage, []) && fs.files == old(fs.files)
  {
    var startup := Config.Startup(env, cwd, cwdUri);
    if startup.Err? {
      return Outcome(Raised(startup.error), NothingPrinted, []);
    }
    var settings := startup.value;
    match invocation
    case BcrPresubmit =>
      var modules := ModuleSelection.GetTargetModules(env, gitOutput);
      var steps := Pipeline.BuildPipeline(lib, settings, modules);
      if steps.Err? {
        return Outcome(Raised(steps.error), NothingPrinted, []);
      }
      return Outcome(Exited(0), StepsDocument(steps.value), []);
    case Runner(moduleName, moduleVersion, task) =>
      var repoLocation := ScratchRepo.CreateTestRepo(lib, settings, moduleName, moduleVersion, task, fs);
      if repoLocation.Err? {
        return Outcome(Raised(repoLocation.error), NothingPrinted, []);
      }
      return RunTest(lib, settings, repoLocation.value, moduleName, moduleVersion, task);
    case NoSubcommand =>
      return Outcome(Exited(2), Usage, []);
    case UnknownSubcommand(_) =>
      return Outcome(Exited(2), Usage, []);
  }
}
