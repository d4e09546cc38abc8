/**
 * Which (name, version) pairs a presubmit run tests: `get_target_modules`.
 * The environment is a map and the output of `git show --name-only --pretty=format:`
 * is a decoded string.
 */
module ModuleSelection {
  import opened Wrappers
  import Text

  /** A module under test: (name, version). */
  type ModuleRef = (string, string)

  const MODULE_PREFIX: string := "modules/"

  /** What `[^/]+` accepts: a non-empty run of characters other than '/', newlines included. */
  predicate IsSegment(t: string)
  {
    |t| > 0 && '/' !in t
  }

  /** The path prefix `modules/<name>/<version>/`. */
  function MatchOf(name: string, version: string): string
  {
    MODULE_PREFIX + name + "/" + version + "/"
  }

  /** The language of the pattern `modules/[^/]+/[^/]+/`. */
  ghost predicate MatchesPattern(t: string)
  {
    exists name, version :: IsSegment(name) && IsSegment(version) && t == MatchOf(name, version)
  }

  // ---------------------------------------------------------------------------
  // re.findall(r"modules\/[^\/]+\/[^\/]+\/", output)
  // ---------------------------------------------------------------------------

  /** Where a greedy `[^/]` run starting at `i` stops: the first '/' at or after `i`, or `|s|`. */
  function RunEnd(s: string, i: nat): (j: nat)
    requires i <= |s|
    ensures i <= j <= |s|
    ensures forall k | i <= k < j :: s[k] != '/'
    ensures j == |s| || s[j] == '/'
    decreases |s| - i
  {
    if i == |s| || s[i] == '/' then i else RunEnd(s, i + 1)
  }

  /**
   * The end of the match of the pattern that starts at position `i`, if any.
   * A `[^/]+` cannot consume a '/', so each one takes the whole run up to
   * the next '/' and backtracking never yields another match.
   */
  function MatchAt(s: string, i: nat): (e: Option<nat>)
    requires i <= |s|
    ensures e.Some? ==>
      && i + |MODULE_PREFIX| + 4 <= e.value <= |s|
      && s[i..i + |MODULE_PREFIX|] == MODULE_PREFIX
      && s[e.value - 1] == '/'
  {
    if i + |MODULE_PREFIX| <= |s| && s[i..i + |MODULE_PREFIX|] == MODULE_PREFIX then
      var j := RunEnd(s, i + |MODULE_PREFIX|);
      if j == i + |MODULE_PREFIX| || j == |s| then None
      else
        var k := RunEnd(s, j + 1);
        if k == j + 1 || k == |s| then None
        else Some(k + 1)
    else None
  }

  /**
   * The non-overlapping matches from position `i` on, scanning left to right.
   * Each starts with `modules/`, ends with '/' and is at least 12 characters
   * long, so there are at most a twelfth as many as there are characters left.
   */
  function FindAllFrom(s: string, i: nat): (ms: seq<string>)
    requires i <= |s|
    ensures 12 * |ms| <= |s| - i
    ensures forall k | 0 <= k < |ms| ::
      |ms[k]| >= |MODULE_PREFIX| + 4 && ms[k][..|MODULE_PREFIX|] == MODULE_PREFIX && ms[k][|ms[k]| - 1] == '/'
    decreases |s| - i
  {
    if i == |s| then []
    else
      match MatchAt(s, i)
      case Some(e) => [s[i..e]] + FindAllFrom(s, e)
      case None => FindAllFrom(s, i + 1)
  }

  function FindAll(s: string): seq<string>
  {
    FindAllFrom(s, 0)
  }

  /** The first '/' at or after `i` is at `j`: the run from `i` ends there. */
  lemma RunEndIs(s: string, i: nat, j: nat)
    requires i <= j < |s|
    requires forall k | i <= k < j :: s[k] != '/'
    requires s[j] == '/'
    ensures RunEnd(s, i) == j
  {
  }

  /** A match found by `MatchAt` is accepted by the pattern. */
  lemma MatchAtSound(s: string, i: nat)
    requires i <= |s|
    requires MatchAt(s, i).Some?
    ensures MatchesPattern(s[i..MatchAt(s, i).value])
  {
    var p := |MODULE_PREFIX|;
    var j := RunEnd(s, i + p);
    var k := RunEnd(s, j + 1);
    var e := MatchAt(s, i).value;
    assert k + 1 == e;
    var name, version := s[i + p..j], s[j + 1..k];
    assert s[i..e] == s[i..i + p] + name + "/" + version + "/";
    assert IsSegment(name) && IsSegment(version) && s[i..e] == MatchOf(name, version);
  }

  /** A `/`-free stretch `seg` at `start`, followed by a '/', is the whole run from `start`. */
  lemma SegmentRun(s: string, start: nat, seg: string)
    requires start + |seg| < |s|
    requires s[start..start + |seg|] == seg && '/' !in seg
    requires s[start + |seg|] == '/'
    ensures RunEnd(s, start) == start + |seg|
  {
    forall m | start <= m < start + |seg| ensures s[m] != '/' {
      assert s[m] == seg[m - start];
    }
    RunEndIs(s, start, start + |seg|);
  }

  /** Where the prefix, the name, the version and the two slashes sit in `modules/<name>/<version>/`. */
  lemma MatchOfLayout(name: string, version: string)
    ensures var t := MatchOf(name, version);
      var j := |MODULE_PREFIX| + |name|;
      var k := j + 1 + |version|;
      && |t| == k + 1
      && t[..|MODULE_PREFIX|] == MODULE_PREFIX
      && t[|MODULE_PREFIX|..j] == name
      && t[j] == '/'
      && t[j + 1..k] == version
      && t[k] == '/'
  {
  }

  /** A slice of a slice is a slice of the whole. */
  lemma SliceOfSlice(s: string, i: nat, e: nat, a: nat, b: nat)
    requires i <= e <= |s| && a <= b <= e - i
    ensures s[i..e][a..b] == s[i + a..i + b]
  {
    forall m | 0 <= m < b - a ensures s[i..e][a..b][m] == s[i + a..i + b][m] {
      assert s[i..e][a..b][m] == s[i..e][a + m] == s[i + a + m];
    }
  }

  /** A prefix of a slice starting at `i` sits at `i` in the whole. */
  lemma PrefixOfSlice(s: string, i: nat, e: nat, x: string)
    requires i <= e <= |s| && |x| <= e - i && s[i..e][..|x|] == x
    ensures s[i..i + |x|] == x
  {
    assert s[i..e][..|x|] == s[i..i + |x|];
  }

  /** A prefix of `s[i..]` accepted by the pattern is the one `MatchAt` finds. */
  lemma MatchAtComplete(s: string, i: nat, e: nat)
    requires i <= e <= |s|
    requires MatchesPattern(s[i..e])
    ensures MatchAt(s, i) == Some(e)
  {
    var name, version :| IsSegment(name) && IsSegment(version) && s[i..e] == MatchOf(name, version);
    MatchOfAt(s, i, e, name, version);
  }

  /** `modules/<name>/<version>/` at `i..e` of `s` is the match `MatchAt` finds at `i`. */
  lemma MatchOfAt(s: string, i: nat, e: nat, name: string, version: string)
    requires i <= e <= |s|
    requires IsSegment(name) && IsSegment(version) && s[i..e] == MatchOf(name, version)
    ensures MatchAt(s, i) == Some(e)
  {
    var p := |MODULE_PREFIX|;
    var j := p + |name|;
    var k := j + 1 + |version|;
    MatchOfLayout(name, version);
    PrefixOfSlice(s, i, e, MODULE_PREFIX);
    SliceOfSlice(s, i, e, p, j);
    SliceOfSlice(s, i, e, j + 1, k);
    assert s[i + j] == s[i..e][j] && s[i + k] == s[i..e][k];
    RunsAt(s, i, name, version);
  }

  /** The prefix, a segment, a '/', a segment and a '/' at `i` make the match at `i`. */
  lemma RunsAt(s: string, i: nat, name: string, version: string)
    requires IsSegment(name) && IsSegment(version)
    requires i + |MODULE_PREFIX| + |name| + 1 + |version| < |s|
    requires s[i..i + |MODULE_PREFIX|] == MODULE_PREFIX
    requires s[i + |MODULE_PREFIX|..i + |MODULE_PREFIX| + |name|] == name
    requires s[i + |MODULE_PREFIX| + |name|] == '/'
    requires s[i + |MODULE_PREFIX| + |name| + 1..i + |MODULE_PREFIX| + |name| + 1 + |version|] == version
    requires s[i + |MODULE_PREFIX| + |name| + 1 + |version|] == '/'
    ensures MatchAt(s, i) == Some(i + |MODULE_PREFIX| + |name| + 1 + |version| + 1)
  {
    var p := |MODULE_PREFIX|;
    var j := i + p + |name|;
    var k := j + 1 + |version|;
    SegmentRun(s, i + p, name);
    SegmentRun(s, j + 1, version);
    MatchAtFromRuns(s, i, j, k);
  }

  /** The match at `i` when both `[^/]+` runs after the prefix are non-empty and end in a '/'. */
  lemma MatchAtFromRuns(s: string, i: nat, j: nat, k: nat)
    requires i + |MODULE_PREFIX| < j < k < |s|
    requires s[i..i + |MODULE_PREFIX|] == MODULE_PREFIX
    requires RunEnd(s, i + |MODULE_PREFIX|) == j && RunEnd(s, j + 1) == k && j + 1 < k
    ensures MatchAt(s, i) == Some(k + 1)
  {
  }

  /** `MatchAt` finds exactly the prefixes of `s[i..]` that the pattern accepts. */
  lemma MatchAtIff(s: string, i: nat, e: nat)
    requires i <= e <= |s|
    ensures MatchAt(s, i) == Some(e) <==> MatchesPattern(s[i..e])
  {
    if MatchAt(s, i) == Some(e) {
      MatchAtSound(s, i);
    }
    if MatchesPattern(s[i..e]) {
      MatchAtComplete(s, i, e);
    }
  }

  /** Every string `findall` returns matches the pattern. */
  lemma {:induction false} FindAllFromSound(s: string, i: nat)
    requires i <= |s|
    ensures forall m | m in FindAllFrom(s, i) :: MatchesPattern(m)
    decreases |s| - i
  {
    if i < |s| {
      match MatchAt(s, i)
      case Some(e) =>
        MatchAtIff(s, i, e);
        FindAllFromSound(s, e);
      case None =>
        FindAllFromSound(s, i + 1);
    }
  }

  /** No lower-case 'm' from `i` on means no match from `i` on. */
  lemma {:induction false} NoMatchWithoutPrefix(s: string, i: nat)
    requires i <= |s|
    requires forall k | i <= k < |s| :: s[k] != 'm'
    ensures FindAllFrom(s, i) == []
    decreases |s| - i
  {
    if i < |s| {
      if i + |MODULE_PREFIX| <= |s| {
        assert s[i..i + |MODULE_PREFIX|][0] == s[i];
      }
      assert MatchAt(s, i) == None;
      NoMatchWithoutPrefix(s, i + 1);
    }
  }

  /** A changed path under `modules/<name>/<version>/` yields that prefix as the first match. */
  lemma ModulePathMatches(name: string, version: string, rest: string)
    requires IsSegment(name) && IsSegment(version)
    ensures var s := MatchOf(name, version) + rest;
      FindAll(s) == [MatchOf(name, version)] + FindAllFrom(s, |MatchOf(name, version)|)
  {
    var m := MatchOf(name, version);
    var s := m + rest;
    assert s[0..|m|] == m;
    MatchAtIff(s, 0, |m|);
    assert s != [];
  }

  /**
   * Two lines of git output: a top-level file `modules/<first>/<meta>` of one
   * module, then a versioned file `modules/<second>/<version>/<file>` of
   * another. Git lists changed paths in sorted order, so a commit touching
   * `modules/abc/metadata.json` and `modules/abd/1.0/MODULE.bazel` prints them
   * in this order.
   */
  function TwoChangedFiles(first: string, meta: string, second: string, version: string, file: string): string
  {
    MODULE_PREFIX + first + "/" + meta + "\n" + MODULE_PREFIX + second + "/" + version + "/" + file
  }

  /**
   * `[^/]` also matches a newline, so a match may run across two lines of the
   * git output. A top-level file of one module followed by a versioned file
   * of another gives one match whose "version" is `<meta>\nmodules`, and the
   * versioned file's own prefix is swallowed by it.
   */
  lemma MatchSpansLines(first: string, meta: string, second: string, version: string, file: string)
    requires IsSegment(first) && '/' !in meta && IsSegment(second) && IsSegment(version)
    requires 'm' !in second && 'm' !in version && 'm' !in file
    ensures FindAll(TwoChangedFiles(first, meta, second, version, file)) == [MatchOf(first, meta + "\nmodules")]
  {
    var s := TwoChangedFiles(first, meta, second, version, file);
    var spanned := meta + "\nmodules";
    assert '/' !in "\nmodules";
    assert IsSegment(spanned);
    var m := MatchOf(first, spanned);
    var rest := second + "/" + version + "/" + file;
    assert s == m + rest;
    ModulePathMatches(first, spanned, rest);
    assert 'm' !in "/";
    assert 'm' !in rest;
    forall k | |m| <= k < |s| ensures s[k] != 'm' {
      assert s[k] == rest[k - |m|];
    }
    NoMatchWithoutPrefix(s, |m|);
  }

  /** `s.split("/")` on a match gives `["modules", name, version, ""]`. */
  lemma SplitMatch(name: string, version: string)
    requires IsSegment(name) && IsSegment(version)
    ensures Text.Split(MatchOf(name, version), '/') == ["modules", name, version, ""]
  {
    var pieces := ["modules", name, version, ""];
    calc {
      Text.Join(pieces, '/');
      "modules" + "/" + Text.Join(pieces[1..], '/');
      { assert pieces[1..][1..] == [version, ""]; }
      "modules" + "/" + (name + "/" + Text.Join([version, ""], '/'));
      { assert [version, ""][1..] == [""]; }
      "modules" + "/" + (name + "/" + (version + "/" + ""));
      MatchOf(name, version);
    }
    Text.SplitJoin(pieces, '/');
  }

  // ---------------------------------------------------------------------------
  // get_target_modules
  // ---------------------------------------------------------------------------

  /** The list the environment branch builds. */
  function EnvModules(env: map<string, string>): (modules: seq<ModuleRef>)
    ensures modules == [] <==>
      "MODULE_NAME" !in env || ("MODULE_VERSION" !in env && "MODULE_VERSIONS" !in env)
  {
    if "MODULE_NAME" !in env then []
    else if "MODULE_VERSION" in env then [(env["MODULE_NAME"], env["MODULE_VERSION"])]
    else if "MODULE_VERSIONS" in env then WithName(env["MODULE_NAME"], Text.Split(env["MODULE_VERSIONS"], ','))
    else []
  }

  /** One pair per version, each carrying `name`. */
  function WithName(name: string, versions: seq<string>): seq<ModuleRef>
  {
    seq(|versions|, k requires 0 <= k < |versions| => (name, versions[k]))
  }

  /** The versions of a module list, in order. */
  function Versions(modules: seq<ModuleRef>): seq<string>
  {
    seq(|modules|, k requires 0 <= k < |modules| => modules[k].1)
  }

  /**
   * What the git fallback may return: each pair comes from a match, every
   * match is represented, and no pair appears twice. The order is left open
   * because the matches pass through a set.
   */
  ghost predicate FallbackModules(gitOutput: string, modules: seq<ModuleRef>)
  {
    && (forall k | 0 <= k < |modules| ::
          IsSegment(modules[k].0) && IsSegment(modules[k].1)
          && MatchOf(modules[k].0, modules[k].1) in FindAll(gitOutput))
    && (forall m | m in FindAll(gitOutput) ::
          exists k | 0 <= k < |modules| :: MatchOf(modules[k].0, modules[k].1) == m)
    && (forall j, k | 0 <= j < k < |modules| :: modules[j] != modules[k])
  }

  /** The lists `get_target_modules` may return. */
  ghost predicate TargetModules(env: map<string, string>, gitOutput: string, modules: seq<ModuleRef>)
  {
    if EnvModules(env) != [] then modules == EnvModules(env)
    else FallbackModules(gitOutput, modules)
  }

  method GetTargetModules(env: map<string, string>, gitOutput: string) returns (modules: seq<ModuleRef>)
    ensures TargetModules(env, gitOutput, modules)
  {
    modules := [];
    if "MODULE_NAME" in env {
      var name := env["MODULE_NAME"];
      if "MODULE_VERSION" in env {
        modules := modules + [(name, env["MODULE_VERSION"])];
      } else if "MODULE_VERSIONS" in env {
        var versions := Text.Split(env["MODULE_VERSIONS"], ',');
        for i := 0 to |versions|
          invariant |modules| == i
          invariant forall k | 0 <= k < i :: modules[k] == (name, versions[k])
        {
          modules := modules + [(name, versions[i])];
        }
      }
    }
    assert modules == EnvModules(env);
    if modules == [] {
      modules := MatchedModules(gitOutput);
    }
  }

  /**
   * The fallback: one pair per distinct match of the git output, taken from a
   * set of the matches and read off with `s.split("/")`.
   */
  method MatchedModules(gitOutput: string) returns (modules: seq<ModuleRef>)
    ensures FallbackModules(gitOutput, modules)
  {
    modules := [];
    ghost var found := FindAll(gitOutput);
    FindAllFromSound(gitOutput, 0);
    var pending := set m | m in FindAll(gitOutput);
    while pending != {}
      invariant forall m | m in found :: MatchesPattern(m)
      invariant Progress(found, pending, modules)
      decreases pending
    {
      var s :| s in pending;
      ghost var name, version :| IsSegment(name) && IsSegment(version) && s == MatchOf(name, version);
      SplitMatch(name, version);
      var parts := Text.Split(s, '/');
      assert (parts[1], parts[2]) == (name, version);
      ProgressStep(found, pending, modules, s, name, version);
      modules := modules + [(parts[1], parts[2])];
      pending := pending - {s};
    }
  }

  /**
   * The loop state of `MatchedModules`: the pairs so far are distinct, each comes
   * from a match already taken out of `pending`, and each match taken out is
   * represented.
   */
  ghost predicate Progress(found: seq<string>, pending: set<string>, modules: seq<ModuleRef>)
  {
    && (forall m | m in pending :: m in found)
    && (forall k | 0 <= k < |modules| ::
          IsSegment(modules[k].0) && IsSegment(modules[k].1)
          && MatchOf(modules[k].0, modules[k].1) in found
          && MatchOf(modules[k].0, modules[k].1) !in pending)
    && (forall m | m in found && m !in pending ::
          exists k | 0 <= k < |modules| :: MatchOf(modules[k].0, modules[k].1) == m)
    && (forall j, k | 0 <= j < k < |modules| :: modules[j] != modules[k])
  }

  /** Taking one pending match and appending its pair keeps the loop state. */
  lemma ProgressStep(found: seq<string>, pending: set<string>, modules: seq<ModuleRef>,
                     s: string, name: string, version: string)
    requires Progress(found, pending, modules)
    requires s in pending && IsSegment(name) && IsSegment(version) && s == MatchOf(name, version)
    ensures Progress(found, pending - {s}, modules + [(name, version)])
  {
    var modules' := modules + [(name, version)];
    var pending' := pending - {s};
    forall j | 0 <= j < |modules| ensures modules[j] != (name, version) {
      assert MatchOf(modules[j].0, modules[j].1) !in pending;
    }
    forall k | 0 <= k < |modules'|
      ensures IsSegment(modules'[k].0) && IsSegment(modules'[k].1)
      ensures MatchOf(modules'[k].0, modules'[k].1) in found
      ensures MatchOf(modules'[k].0, modules'[k].1) !in pending'
    {
      if k < |modules| {
        assert modules'[k] == modules[k];
      }
    }
    forall m | m in found && m !in pending'
      ensures exists k | 0 <= k < |modules'| :: MatchOf(modules'[k].0, modules'[k].1) == m
    {
      if m == s {
        assert MatchOf(modules'[|modules|].0, modules'[|modules|].1) == m;
      } else {
        var k :| 0 <= k < |modules| && MatchOf(modules[k].0, modules[k].1) == m;
        assert modules'[k] == modules[k];
      }
    }
  }

  // ---------------------------------------------------------------------------
  // Properties of the selection
  // ---------------------------------------------------------------------------

  /** The fallback selects a module only when git's output holds a module path. */
  lemma FallbackNeedsMatch(gitOutput: string, modules: seq<ModuleRef>)
    requires FallbackModules(gitOutput, modules)
    ensures modules == [] || FindAll(gitOutput) != []
  {
    assert |modules| == 0 || MatchOf(modules[0].0, modules[0].1) in FindAll(gitOutput);
  }

  /** `MODULE_VERSION` wins: git and `MODULE_VERSIONS` are ignored. */
  lemma ExplicitVersionWins(env: map<string, string>, gitOutput: string, modules: seq<ModuleRef>)
    requires "MODULE_NAME" in env && "MODULE_VERSION" in env
    requires TargetModules(env, gitOutput, modules)
    ensures modules == [(env["MODULE_NAME"], env["MODULE_VERSION"])]
  {
  }

  /**
   * With `MODULE_VERSIONS` alone, there is one pair per comma-separated piece,
   * in order, all named `MODULE_NAME`; joining the versions with commas gives
   * `MODULE_VERSIONS` back. The list is never empty, so git is never read.
   */
  lemma VersionListRoundTrip(env: map<string, string>, gitOutput: string, modules: seq<ModuleRef>)
    requires "MODULE_NAME" in env && "MODULE_VERSION" !in env && "MODULE_VERSIONS" in env
    requires TargetModules(env, gitOutput, modules)
    ensures |modules| >= 1
    ensures forall k | 0 <= k < |modules| :: modules[k].0 == env["MODULE_NAME"] && ',' !in modules[k].1
    ensures Text.Join(Versions(modules), ',') == env["MODULE_VERSIONS"]
  {
    var versions := Text.Split(env["MODULE_VERSIONS"], ',');
    assert modules == WithName(env["MODULE_NAME"], versions);
    assert Versions(modules) == versions;
    Text.JoinSplit(env["MODULE_VERSIONS"], ',');
  }

  /** `MODULE_VERSIONS="1.0,2.0"` gives two pairs in that order. */
  lemma TwoVersions(env: map<string, string>, gitOutput: string, modules: seq<ModuleRef>)
    requires "MODULE_NAME" in env && "MODULE_VERSION" !in env
    requires "MODULE_VERSIONS" in env && env["MODULE_VERSIONS"] == "1.0,2.0"
    requires TargetModules(env, gitOutput, modules)
    ensures modules == [(env["MODULE_NAME"], "1.0"), (env["MODULE_NAME"], "2.0")]
  {
    assert Text.Join(["1.0", "2.0"], ',') == "1.0,2.0";
    Text.SplitJoin(["1.0", "2.0"], ',');
  }

  /** An empty `MODULE_VERSIONS` gives one pair with an empty version. */
  lemma EmptyVersionList(env: map<string, string>, gitOutput: string, modules: seq<ModuleRef>)
    requires "MODULE_NAME" in env && "MODULE_VERSION" !in env
    requires "MODULE_VERSIONS" in env && env["MODULE_VERSIONS"] == ""
    requires TargetModules(env, gitOutput, modules)
    ensures modules == [(env["MODULE_NAME"], "")]
  {
  }

  /**
   * In the fallback, a pair is returned exactly when its path prefix is one of
   * the matches, and it is returned once.
   */
  lemma FallbackExact(gitOutput: string, modules: seq<ModuleRef>, name: string, version: string)
    requires FallbackModules(gitOutput, modules)
    ensures (name, version) in modules <==>
      IsSegment(name) && IsSegment(version) && MatchOf(name, version) in FindAll(gitOutput)
    ensures (name, version) in modules ==>
      forall j, k | 0 <= j < |modules| && 0 <= k < |modules| && modules[j] == modules[k] == (name, version) :: j == k
  {
    if IsSegment(name) && IsSegment(version) && MatchOf(name, version) in FindAll(gitOutput) {
      var k :| 0 <= k < |modules| && MatchOf(modules[k].0, modules[k].1) == MatchOf(name, version);
      SplitMatch(name, version);
      SplitMatch(modules[k].0, modules[k].1);
      assert modules[k] == (name, version);
    }
    if (name, version) in modules {
      var k :| 0 <= k < |modules| && modules[k] == (name, version);
      assert IsSegment(modules[k].0);
    }
  }

  /** Two match prefixes are equal only for equal pairs. */
  lemma MatchOfInjective(name: string, version: string, name': string, version': string)
    requires IsSegment(name) && IsSegment(version) && IsSegment(name') && IsSegment(version')
    requires MatchOf(name, version) == MatchOf(name', version')
    ensures name == name' && version == version'
  {
    SplitMatch(name, version);
    SplitMatch(name', version');
  }

  /** When git's output holds a single match, the fallback returns its pair alone. */
  lemma FallbackSingle(gitOutput: string, modules: seq<ModuleRef>, name: string, version: string)
    requires FallbackModules(gitOutput, modules)
    requires IsSegment(name) && IsSegment(version)
    requires FindAll(gitOutput) == [MatchOf(name, version)]
    ensures modules == [(name, version)]
  {
    forall j | 0 <= j < |modules| ensures modules[j] == (name, version) {
      assert MatchOf(modules[j].0, modules[j].1) in FindAll(gitOutput);
      MatchOfInjective(modules[j].0, modules[j].1, name, version);
    }
    assert MatchOf(name, version) in FindAll(gitOutput);
    assert modules[0] == modules[|modules| - 1];
  }

  /** The line-spanning match of `MatchSpansLines` in the fallback: `<second>@<version>` is missed. */
  lemma FallbackSpansLines(env: map<string, string>, first: string, meta: string, second: string, version: string,
                           file: string, modules: seq<ModuleRef>)
    requires "MODULE_NAME" !in env
    requires IsSegment(first) && '/' !in meta && IsSegment(second) && IsSegment(version)
    requires 'm' !in second && 'm' !in version && 'm' !in file
    requires TargetModules(env, TwoChangedFiles(first, meta, second, version, file), modules)
    ensures modules == [(first, meta + "\nmodules")]
    ensures (second, version) !in modules
  {
    MatchSpansLines(first, meta, second, version, file);
    assert '/' !in "\nmodules";
    FallbackSingle(TwoChangedFiles(first, meta, second, version, file), modules, first, meta + "\nmodules");
    assert 'm' in meta + "\nmodules";
  }

  /**
   * A commit touching `modules/abc/metadata.json` and
   * `modules/abd/1.0/MODULE.bazel` selects only `abc` with the version
   * `metadata.json\nmodules`; `abd@1.0` is not tested.
   */
  lemma AdjacentModulesMissed(env: map<string, string>, modules: seq<ModuleRef>)
    requires "MODULE_NAME" !in env
    requires TargetModules(env, TwoChangedFiles("abc", "metadata.json", "abd", "1.0", "MODULE.bazel"), modules)
    ensures modules == [("abc", "metadata.json" + "\nmodules")]
    ensures ("abd", "1.0") !in modules
  {
    assert IsSegment("abc") && IsSegment("abd") && IsSegment("1.0") && '/' !in "metadata.json";
    assert 'm' !in "abd" && 'm' !in "1.0" && 'm' !in "MODULE.bazel";
    FallbackSpansLines(env, "abc", "metadata.json", "abd", "1.0", "MODULE.bazel", modules);
  }
}
