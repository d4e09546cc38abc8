/**
 * The scratch repository a `runner` invocation builds before handing over to
 * the test runner (`scratch_file` and `create_test_repo`). The file system is a
 * map from absolute path to file contents.
 */
module ScratchRepo {
  import opened Wrappers
  import Text
  import Bazelci
  import Config

  /** The file system the script writes into. */
  class FileSystem {
    var files: map<string, string>

    constructor (files: map<string, string>)
      ensures this.files == files
    {
      this.files := files;
    }
  }

  /** The text of a file written line by line: each line followed by a newline. */
  function Rendered(lines: seq<string>): string
  {
    if lines == [] then "" else Rendered(lines[..|lines| - 1]) + lines[|lines| - 1] + "\n"
  }

  /** What `scratch_file` writes for its `lines` argument: nothing for `None` or an empty list. */
  function FileText(lines: Option<seq<string>>): string
  {
    match lines
    case None => ""
    case Some(ls) => Rendered(ls)
  }

  /**
   * Reading a written file back line by line gives the lines, followed by the
   * empty piece after the final newline, when no line itself holds a newline.
   */
  lemma {:induction false} RenderedLines(lines: seq<string>)
    requires forall k | 0 <= k < |lines| :: '\n' !in lines[k]
    ensures Text.Split(Rendered(lines), '\n') == lines + [""]
  {
    RenderedIsJoin(lines);
    assert '\n' !in "";
    Text.SplitJoin(lines + [""], '\n');
  }

  lemma {:induction false} RenderedIsJoin(lines: seq<string>)
    ensures Rendered(lines) == Text.Join(lines + [""], '\n')
    decreases |lines|
  {
    if lines != [] {
      var init := lines[..|lines| - 1];
      var last := lines[|lines| - 1];
      RenderedIsJoin(init);
      assert lines == init + [last];
      Text.JoinSnoc(init + [last], "", '\n');
      Text.JoinLast(init, last, '\n');
      assert Rendered(lines) == Rendered(init) + last + "\n";
    }
  }

  /**
   * `scratch_file(root, relative_path, lines)`: with an empty relative path it
   * writes nothing and returns `None`; otherwise it truncates `root/relative_path`,
   * writes each line and a newline, and returns that path.
   */
  method ScratchFile(fs: FileSystem, root: string, relativePath: string, lines: Option<seq<string>>)
    returns (abspath: Option<string>)
    modifies fs
    ensures relativePath == "" ==> abspath == None && fs.files == old(fs.files)
    ensures relativePath != "" ==>
      && abspath == Some(Text.JoinPath(root, relativePath))
      && fs.files == old(fs.files)[abspath.value := FileText(lines)]
  {
    if relativePath == "" {
      return None;
    }
    var path := Text.JoinPath(root, relativePath);
    fs.files := fs.files[path := ""];
    if lines.Some? && lines.value != [] {
      var ls := lines.value;
      for i := 0 to |ls|
        invariant fs.files == old(fs.files)[path := Rendered(ls[..i])]
      {
        fs.files := fs.files[path := fs.files[path] + ls[i]];
        fs.files := fs.files[path := fs.files[path] + "\n"];
        assert ls[..i + 1][..i] == ls[..i];
      }
      assert ls[..|ls|] == ls;
    }
    return Some(path);
  }

  const WORKSPACE_FILE: string := "WORKSPACE"
  const BUILD_FILE: string := "BUILD"
  const MODULE_FILE: string := "MODULE.bazel"
  const BAZELRC_FILE: string := ".bazelrc"

  /** The single line of `MODULE.bazel`: a dependency on the module under test. */
  function BazelDep(moduleName: string, moduleVersion: string): string
  {
    "bazel_dep(name = '" + moduleName + "', version = '" + moduleVersion + "')"
  }

  /** The two lines of `.bazelrc`: use this checkout as the registry, and enable Bzlmod. */
  function BazelrcLines(repoUri: string): seq<string>
  {
    ["build --registry=" + repoUri, "build --experimental_enable_bzlmod"]
  }

  /** The four files `create_test_repo` writes under `root`. */
  function TestRepoFiles(root: string, moduleName: string, moduleVersion: string, repoUri: string)
    : map<string, string>
  {
    map[
      Text.JoinPath(root, WORKSPACE_FILE) := FileText(None),
      Text.JoinPath(root, BUILD_FILE) := FileText(None),
      Text.JoinPath(root, MODULE_FILE) := FileText(Some([BazelDep(moduleName, moduleVersion)])),
      Text.JoinPath(root, BAZELRC_FILE) := FileText(Some(BazelrcLines(repoUri)))
    ]
  }

  /** The four paths differ: the names have lengths 9, 5, 12 and 8. */
  lemma TestRepoPathsDistinct(root: string)
    ensures var w, b, m, r := Text.JoinPath(root, WORKSPACE_FILE), Text.JoinPath(root, BUILD_FILE),
                              Text.JoinPath(root, MODULE_FILE), Text.JoinPath(root, BAZELRC_FILE);
      |w| == |root| + 10 && |b| == |root| + 6 && |m| == |root| + 13 && |r| == |root| + 9
  {
  }

  /** The scratch repository holds exactly four distinct files, at fixed names under `root`. */
  lemma TestRepoPaths(root: string, moduleName: string, moduleVersion: string, repoUri: string)
    ensures var files := TestRepoFiles(root, moduleName, moduleVersion, repoUri);
      && files.Keys == {Text.JoinPath(root, WORKSPACE_FILE), Text.JoinPath(root, BUILD_FILE),
                        Text.JoinPath(root, MODULE_FILE), Text.JoinPath(root, BAZELRC_FILE)}
      && |files| == 4
  {
    var w, b, m, r := Text.JoinPath(root, WORKSPACE_FILE), Text.JoinPath(root, BUILD_FILE),
                      Text.JoinPath(root, MODULE_FILE), Text.JoinPath(root, BAZELRC_FILE);
    TestRepoPathsDistinct(root);
    var files := TestRepoFiles(root, moduleName, moduleVersion, repoUri);
    assert files.Keys == {w, b, m, r};
    assert |{w, b}| == 2;
    assert |{w, b, m}| == 3;
    assert |{w, b, m, r}| == 4;
  }

  /** A one-line file is that line and a newline. */
  lemma RenderedOne(x: string)
    ensures Rendered([x]) == x + "\n"
  {
    assert [x][..0] == [];
  }

  /** A two-line file is each line followed by a newline. */
  lemma RenderedTwo(x: string, y: string)
    ensures Rendered([x, y]) == x + "\n" + y + "\n"
  {
    assert [x, y][..1] == [x];
    RenderedOne(x);
  }

  /**
   * `WORKSPACE` and `BUILD` are empty, `MODULE.bazel` depends on the module under
   * test, and `.bazelrc` points the registry at this checkout and enables Bzlmod.
   */
  lemma TestRepoContents(root: string, moduleName: string, moduleVersion: string, repoUri: string)
    ensures var files := TestRepoFiles(root, moduleName, moduleVersion, repoUri);
      && files[Text.JoinPath(root, WORKSPACE_FILE)] == ""
      && files[Text.JoinPath(root, BUILD_FILE)] == ""
      && files[Text.JoinPath(root, MODULE_FILE)]
         == "bazel_dep(name = '" + moduleName + "', version = '" + moduleVersion + "')" + "\n"
      && files[Text.JoinPath(root, BAZELRC_FILE)]
         == "build --registry=" + repoUri + "\n" + "build --experimental_enable_bzlmod" + "\n"
  {
    TestRepoLookup(root, moduleName, moduleVersion, repoUri);
    var dep := BazelDep(moduleName, moduleVersion);
    RenderedOne(dep);
    var rc := BazelrcLines(repoUri);
    RenderedTwo(rc[0], rc[1]);
    assert rc == [rc[0], rc[1]];
  }

  /** Each of the four paths holds the text written for it. */
  lemma TestRepoLookup(root: string, moduleName: string, moduleVersion: string, repoUri: string)
    ensures var files := TestRepoFiles(root, moduleName, moduleVersion, repoUri);
      && files[Text.JoinPath(root, WORKSPACE_FILE)] == FileText(None)
      && files[Text.JoinPath(root, BUILD_FILE)] == FileText(None)
      && files[Text.JoinPath(root, MODULE_FILE)] == FileText(Some([BazelDep(moduleName, moduleVersion)]))
      && files[Text.JoinPath(root, BAZELRC_FILE)] == FileText(Some(BazelrcLines(repoUri)))
  {
    var w, b, m, r := Text.JoinPath(root, WORKSPACE_FILE), Text.JoinPath(root, BUILD_FILE),
                      Text.JoinPath(root, MODULE_FILE), Text.JoinPath(root, BAZELRC_FILE);
    TestRepoPathsDistinct(root);
    FourLookup(w, b, m, r, FileText(None), FileText(None),
               FileText(Some([BazelDep(moduleName, moduleVersion)])), FileText(Some(BazelrcLines(repoUri))));
  }

  /** Lookups in a map of four distinct keys. */
  lemma FourLookup(k1: string, k2: string, k3: string, k4: string, v1: string, v2: string, v3: string, v4: string)
    requires k1 != k2 && k1 != k3 && k1 != k4 && k2 != k3 && k2 != k4 && k3 != k4
    ensures var f := map[k1 := v1, k2 := v2, k3 := v3, k4 := v4];
      f[k1] == v1 && f[k2] == v2 && f[k3] == v3 && f[k4] == v4
  {
  }

  /**
   * Read back line by line, `MODULE.bazel` is its one `bazel_dep` line and
   * `.bazelrc` its two `build` lines, each closed by a newline.
   */
  lemma TestRepoReadsBack(root: string, moduleName: string, moduleVersion: string, repoUri: string)
    requires '\n' !in moduleName && '\n' !in moduleVersion && '\n' !in repoUri
    ensures var files := TestRepoFiles(root, moduleName, moduleVersion, repoUri);
      && Text.Split(files[Text.JoinPath(root, MODULE_FILE)], '\n') == [BazelDep(moduleName, moduleVersion), ""]
      && Text.Split(files[Text.JoinPath(root, BAZELRC_FILE)], '\n') == BazelrcLines(repoUri) + [""]
  {
    TestRepoLookup(root, moduleName, moduleVersion, repoUri);
    DepReadsBack(moduleName, moduleVersion);
    BazelrcReadsBack(repoUri);
  }

  /** The `bazel_dep` line holds no newline of its own, so it reads back as one line. */
  lemma DepReadsBack(moduleName: string, moduleVersion: string)
    requires '\n' !in moduleName && '\n' !in moduleVersion
    ensures Text.Split(Rendered([BazelDep(moduleName, moduleVersion)]), '\n') == [BazelDep(moduleName, moduleVersion), ""]
  {
    var dep := BazelDep(moduleName, moduleVersion);
    assert '\n' !in "bazel_dep(name = '" && '\n' !in "', version = '" && '\n' !in "')";
    assert '\n' !in dep;
    RenderedLines([dep]);
    assert [dep] + [""] == [dep, ""];
  }

  /** The two `.bazelrc` lines read back as they were written. */
  lemma BazelrcReadsBack(repoUri: string)
    requires '\n' !in repoUri
    ensures Text.Split(Rendered(BazelrcLines(repoUri)), '\n') == BazelrcLines(repoUri) + [""]
  {
    assert '\n' !in "build --registry=" && '\n' !in "build --experimental_enable_bzlmod";
    var rc := BazelrcLines(repoUri);
    assert '\n' !in rc[0] && '\n' !in rc[1];
    RenderedLines(rc);
  }

  /**
   * `create_test_repo`: load the module's configuration, find the task's
   * platform and its downstream root, write the four files there and return
   * the root. A failed load raises before anything is written.
   */
  method CreateTestRepo(lib: Bazelci.Library, settings: Config.Settings, moduleName: string,
                        moduleVersion: string, task: string, fs: FileSystem)
    returns (r: Result<string, Config.Error>)
    modifies fs
    ensures r == TestRepoRoot(lib, settings, moduleName, moduleVersion, task)
    ensures r.Err? ==> fs.files == old(fs.files)
    ensures r.Ok? ==>
      fs.files == old(fs.files) + TestRepoFiles(r.value, moduleName, moduleVersion, settings.repoUri)
  {
    var configs := Config.GetTaskConfig(lib, settings.repoDir, moduleName, moduleVersion);
    if configs.LoadFailed? {
      return Err(Config.ConfigLoadFailed(Config.GetPresubmitYml(settings.repoDir, moduleName, moduleVersion),
                                         configs.detail));
    }
    var platform := lib.platformForTask(task, configs.config.tasks);
    var root := lib.downstreamProjectsRoot(platform);
    var dep, rc := Some([BazelDep(moduleName, moduleVersion)]), Some(BazelrcLines(settings.repoUri));
    ghost var before := fs.files;
    var w := ScratchFile(fs, root, WORKSPACE_FILE, None);
    var b := ScratchFile(fs, root, BUILD_FILE, None);
    var m := ScratchFile(fs, root, MODULE_FILE, dep);
    var c := ScratchFile(fs, root, BAZELRC_FILE, rc);
    assert fs.files == before[w.value := FileText(None)][b.value := FileText(None)]
                             [m.value := FileText(dep)][c.value := FileText(rc)];
    UpdatesAsUnion(before, w.value, b.value, m.value, c.value,
                   FileText(None), FileText(None), FileText(dep), FileText(rc));
    return Ok(root);
  }

  /** Four updates in a row are the union with the map of the four entries. */
  lemma UpdatesAsUnion(f: map<string, string>, k1: string, k2: string, k3: string, k4: string,
                       v1: string, v2: string, v3: string, v4: string)
    ensures f[k1 := v1][k2 := v2][k3 := v3][k4 := v4] == f + map[k1 := v1, k2 := v2, k3 := v3, k4 := v4]
  {
  }

  /**
   * The root `create_test_repo` returns: the downstream root of the task's
   * platform, or the load failure of the module's configuration.
   */
  function TestRepoRoot(lib: Bazelci.Library, settings: Config.Settings, moduleName: string,
                        moduleVersion: string, task: string): (r: Result<string, Config.Error>)
    ensures var loaded := Config.GetTaskConfig(lib, settings.repoDir, moduleName, moduleVersion);
      && (r.Err? <==> loaded.LoadFailed?)
      && (r.Err? ==> r.error == Config.ConfigLoadFailed(Config.GetPresubmitYml(settings.repoDir, moduleName, moduleVersion),
                                                          loaded.detail))
      && (r.Ok? ==> r.value == lib.downstreamProjectsRoot(lib.platformForTask(task, loaded.config.tasks)))
  {
    match Config.GetTaskConfig(lib, settings.repoDir, moduleName, moduleVersion)
    case LoadFailed(detail) =>
      Err(Config.ConfigLoadFailed(Config.GetPresubmitYml(settings.repoDir, moduleName, moduleVersion), detail))
    case Loaded(config) =>
      Ok(lib.downstreamProjectsRoot(lib.platformForTask(task, config.tasks)))
  }
}
