/**
 * What the script computes once at start-up (the repository root and the
 * pinned URL of its own source), and where a module's presubmit configuration
 * lives and how it is loaded.
 */
module Config {
  import opened Wrappers
  import Text
  import Bazelci

  /** The exceptions the script lets propagate, by cause. */
  datatype Error =
    | MissingVariable(variable: string)
    | UnknownOrganization(slug: string)
    | ConfigLoadFailed(path: string, detail: string)
    | NoTasks(moduleName: string, moduleVersion: string)
    | RunnerRaised(detail: string)

  /**
   * The process-wide constants: `BCR_REPO_DIR` (the working directory),
   * its `file:` URI, and `SCRIPT_URL`.
   */
  datatype Settings = Settings(repoDir: string, repoUri: string, scriptUrl: string)

  const TESTING_SCRIPT_URL: string :=
    "https://raw.githubusercontent.com/bazelbuild/continuous-integration/pcloudy-bcr-test/buildkite/bcr_presubmit.py"
  const MASTER_SCRIPT_URL: string :=
    "https://raw.githubusercontent.com/bazelbuild/continuous-integration/master/buildkite/bcr_presubmit.py"

  /** The `SCRIPT_URL` table, keyed by Buildkite organization. */
  const SCRIPT_URLS: map<string, string> := map[
    "bazel-testing" := TESTING_SCRIPT_URL,
    "bazel-trusted" := MASTER_SCRIPT_URL,
    "bazel" := MASTER_SCRIPT_URL
  ]

  /**
   * Module initialisation: read `BUILDKITE_ORGANIZATION_SLUG` and look it up in
   * the URL table. A missing variable or an organization outside the table is
   * the `KeyError` that stops the script before any subcommand runs.
   */
  function Startup(env: map<string, string>, cwd: string, cwdUri: string): (r: Result<Settings, Error>)
    ensures "BUILDKITE_ORGANIZATION_SLUG" !in env ==> r == Err(MissingVariable("BUILDKITE_ORGANIZATION_SLUG"))
    ensures "BUILDKITE_ORGANIZATION_SLUG" in env ==>
      var org := env["BUILDKITE_ORGANIZATION_SLUG"];
      && (r.Ok? <==> org == "bazel-testing" || org == "bazel-trusted" || org == "bazel")
      && (r.Err? ==> r.error == UnknownOrganization(org))
      && (r.Ok? ==> r.value.repoDir == cwd && r.value.repoUri == cwdUri)
      && (org == "bazel-testing" ==> r.Ok? && r.value.scriptUrl == TESTING_SCRIPT_URL)
      && (org != "bazel-testing" && r.Ok? ==> r.value.scriptUrl == MASTER_SCRIPT_URL)
  {
    if "BUILDKITE_ORGANIZATION_SLUG" !in env then Err(MissingVariable("BUILDKITE_ORGANIZATION_SLUG"))
    else
      var org := env["BUILDKITE_ORGANIZATION_SLUG"];
      if org in SCRIPT_URLS then Ok(Settings(cwd, cwdUri, SCRIPT_URLS[org]))
      else Err(UnknownOrganization(org))
  }

  /** Every organization fetches the same file, `buildkite/bcr_presubmit.py`, from some branch. */
  lemma ScriptUrlsFetchThisScript(org: string)
    requires org in SCRIPT_URLS
    ensures var url := SCRIPT_URLS[org];
      var suffix := "/buildkite/bcr_presubmit.py";
      |url| > |suffix| && url[|url| - |suffix|..] == suffix
  {
  }

  /**
   * `fetch_bcr_presubmit_py_command`: a silent `curl` of `scriptUrl` into
   * `bcr_presubmit.py` in the step's working directory.
   */
  function FetchBcrPresubmitPyCommand(scriptUrl: string): (command: string)
    ensures var n := |"curl -s "|;
      && |command| == n + |scriptUrl| + |" -o bcr_presubmit.py"|
      && command[..n] == "curl -s "
      && command[n..n + |scriptUrl|] == scriptUrl
      && command[n + |scriptUrl|..] == " -o bcr_presubmit.py"
  {
    "curl -s " + scriptUrl + " -o bcr_presubmit.py"
  }

  /** The command downloads from the given URL and nowhere else: different URLs give different commands. */
  lemma FetchCommandNamesUrl(url: string, url': string)
    requires FetchBcrPresubmitPyCommand(url) == FetchBcrPresubmitPyCommand(url')
    ensures url == url'
  {
    assert |url| == |url'|;
  }

  /** The path of a module's presubmit configuration, relative to the repository root. */
  function PresubmitYmlRelative(moduleName: string, moduleVersion: string): string
  {
    "modules/" + moduleName + "/" + moduleVersion + "/presubmit.yml"
  }

  /**
   * `get_presubmit_yml`: `BCR_REPO_DIR/modules/<name>/<version>/presubmit.yml`,
   * a file named `presubmit.yml` below the repository root.
   */
  function GetPresubmitYml(repoDir: string, moduleName: string, moduleVersion: string): (path: string)
    ensures |path| == |repoDir| + |"/modules/"| + |moduleName| + 1 + |moduleVersion| + |"/presubmit.yml"|
    ensures path[..|repoDir| + 1] == repoDir + "/"
    ensures Text.EndsWith(path, "/presubmit.yml")
  {
    Text.JoinPath(repoDir, PresubmitYmlRelative(moduleName, moduleVersion))
  }

  /** The relative path splits into `modules`, the name, the version and `presubmit.yml`. */
  lemma PresubmitYmlParts(moduleName: string, moduleVersion: string)
    requires '/' !in moduleName && '/' !in moduleVersion
    ensures Text.Split(PresubmitYmlRelative(moduleName, moduleVersion), '/')
         == ["modules", moduleName, moduleVersion, "presubmit.yml"]
  {
    var pieces := ["modules", moduleName, moduleVersion, "presubmit.yml"];
    calc {
      Text.Join(pieces, '/');
      "modules" + "/" + Text.Join(pieces[1..], '/');
      { assert pieces[1..][1..] == [moduleVersion, "presubmit.yml"]; }
      "modules" + "/" + (moduleName + "/" + Text.Join([moduleVersion, "presubmit.yml"], '/'));
      { assert [moduleVersion, "presubmit.yml"][1..] == ["presubmit.yml"]; }
      "modules" + "/" + (moduleName + "/" + (moduleVersion + "/" + "presubmit.yml"));
      PresubmitYmlRelative(moduleName, moduleVersion);
    }
    assert '/' !in "modules" && '/' !in "presubmit.yml";
    Text.SplitJoin(pieces, '/');
  }

  /**
   * A name or version that stays its own path component: non-empty, without
   * '/' and not `.`, so that path normalisation leaves it as it is.
   */
  predicate PathPart(t: string)
  {
    |t| > 0 && '/' !in t && t != "."
  }

  /** Distinct modules read distinct configuration files. */
  lemma PresubmitYmlInjective(repoDir: string, name: string, version: string, name': string, version': string)
    requires PathPart(name) && PathPart(version) && PathPart(name') && PathPart(version')
    requires GetPresubmitYml(repoDir, name, version) == GetPresubmitYml(repoDir, name', version')
    ensures name == name' && version == version'
  {
    var prefix := repoDir + "/";
    var p := GetPresubmitYml(repoDir, name, version);
    assert p == prefix + PresubmitYmlRelative(name, version);
    assert p == prefix + PresubmitYmlRelative(name', version');
    assert p[|prefix|..] == PresubmitYmlRelative(name, version);
    assert p[|prefix|..] == PresubmitYmlRelative(name', version');
    PresubmitYmlParts(name, version);
    PresubmitYmlParts(name', version');
  }

  /**
   * `get_task_config`: load the module's presubmit file with no remote URL
   * and with imports disallowed, so only the local file is consulted.
   */
  function GetTaskConfig(lib: Bazelci.Library, repoDir: string, moduleName: string, moduleVersion: string)
    : Bazelci.LoadResult
  {
    lib.loadConfig(None, GetPresubmitYml(repoDir, moduleName, moduleVersion), false)
  }

  /**
   * The configuration depends only on what `load_config` yields for the
   * module's own file, read with no remote URL and with imports off: two
   * libraries that agree on that one call give the same configuration.
   */
  lemma TaskConfigReadsOwnFile(lib: Bazelci.Library, lib': Bazelci.Library, repoDir: string,
                               moduleName: string, moduleVersion: string)
    requires var path := GetPresubmitYml(repoDir, moduleName, moduleVersion);
      lib.loadConfig(None, path, false) == lib'.loadConfig(None, path, false)
    ensures GetTaskConfig(lib, repoDir, moduleName, moduleVersion)
         == GetTaskConfig(lib', repoDir, moduleName, moduleVersion)
  {
  }
}
