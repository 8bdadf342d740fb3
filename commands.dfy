/** src/commands.ts and src/commands.rs: splitting a repository locator,
    cloning it, and the `add` command, which records the clone in the local
    manifest and then copies the requested path out of it. */
module Commands {
  import opened Common
  import opened Text
  import M = Manifest
  import ConfigTs
  import ConfigRs
  import BlockComment

  type FileSystem = ConfigTs.FileSystem

  // ---------------------------------------------------------------- locators

  /** A repository locator `<url>#<branch>` taken apart. */
  datatype Locator = Locator(url: string, branch: string)

  /** `const [repoUrl, branch = ''] = repo.split('#')`, and in Rust the first
      two `next()` results of `repo.split("#")`: the URL is the text before the
      first `#`, the branch the text up to the second `#` or the end, or empty
      when there is no `#`. Later segments are dropped. */
  function SplitLocator(repo: string): (r: Locator)
    ensures '#' !in r.url && '#' !in r.branch
    ensures |r.url| <= |repo| && repo[..|r.url|] == r.url
    ensures r.url == repo <==> '#' !in repo
    ensures r.url == repo ==> r.branch == ""
    ensures r.url != repo ==>
              var after := repo[|r.url| + 1..];
              && repo[|r.url|] == '#'
              && |r.branch| <= |after| && after[..|r.branch|] == r.branch
              && (|r.branch| < |after| ==> after[|r.branch|] == '#')
  {
    var parts := Split(repo, '#');
    if |parts| == 1 then
      Locator(parts[0], "")
    else
      var rest := JoinWith(parts[1..], '#');
      assert repo == parts[0] + "#" + rest;
      assert rest == parts[1] || rest == parts[1] + "#" + JoinWith(parts[2..], '#') by {
        assert parts[1..][1..] == parts[2..];
      }
      assert '#' in repo by {
        assert repo[|parts[0]|] == '#';
      }
      assert repo[|parts[0]| + 1..] == rest;
      Locator(parts[0], parts[1])
  }

  /** A locator with a `#` keeps everything before it as the URL, so the URL
      never carries a branch, and a locator without one is all URL. */
  lemma SplitLocatorOfParts(url: string, branch: string, more: string)
    requires '#' !in url && '#' !in branch
    ensures SplitLocator(url) == Locator(url, "")
    ensures SplitLocator(url + "#" + branch) == Locator(url, branch)
    ensures SplitLocator(url + "#" + branch + "#" + more) == Locator(url, branch)
  {
    SplitLocatorIs(url, url, "");
    var a := url + "#" + branch;
    assert a[..|url|] == url && a[|url|] == '#' && a[|url| + 1..] == branch;
    SplitLocatorIs(a, url, branch);
    var b := a + "#" + more;
    assert b[..|url|] == url && b[|url|] == '#' && b[|url| + 1..] == branch + "#" + more;
    assert (branch + "#" + more)[..|branch|] == branch;
    SplitLocatorIs(b, url, branch);
  }

  /** The split is the only one with the properties SplitLocator promises. */
  lemma SplitLocatorIs(repo: string, url: string, branch: string)
    requires '#' !in url && '#' !in branch
    requires |url| <= |repo| && repo[..|url|] == url && (|url| < |repo| ==> repo[|url|] == '#')
    requires |url| == |repo| ==> branch == ""
    requires |url| < |repo| ==>
               var after := repo[|url| + 1..];
               |branch| <= |after| && after[..|branch|] == branch && (|branch| < |after| ==> after[|branch|] == '#')
    ensures SplitLocator(repo) == Locator(url, branch)
  {
    var r := SplitLocator(repo);
    PrefixWithoutMark(repo, url, r.url);
    if |url| < |repo| {
      PrefixWithoutMark(repo[|url| + 1..], branch, r.branch);
    }
  }

  /** Two '#'-free prefixes of `s`, each ended by a '#' or the end of `s`, are the same. */
  lemma PrefixWithoutMark(s: string, u: string, v: string)
    requires '#' !in u && '#' !in v
    requires |u| <= |s| && s[..|u|] == u && (|u| < |s| ==> s[|u|] == '#')
    requires |v| <= |s| && s[..|v|] == v && (|v| < |s| ==> s[|v|] == '#')
    ensures u == v
  {
  }

  // ---------------------------------------------------------------- git

  /** A git command the program runs. */
  datatype GitCall = Clone(url: string, destination: string) | Checkout(directory: string, branch: string)

  /** The git commands of `cloneRepoAndCheckout(repo, destinationPath)`: a
      clone of the URL alone, then a checkout inside the clone when the
      locator names a branch. */
  function ClonePlan(repo: string, destination: string): (calls: seq<GitCall>)
    ensures 1 <= |calls| <= 2 && calls[0] == Clone(SplitLocator(repo).url, destination)
    ensures '#' !in calls[0].url
    ensures |calls| == 2 <==> SplitLocator(repo).branch != ""
    ensures |calls| == 2 ==> calls[1] == Checkout(destination, SplitLocator(repo).branch)
  {
    var loc := SplitLocator(repo);
    [Clone(loc.url, destination)] + if loc.branch != "" then [Checkout(destination, loc.branch)] else []
  }

  /** `clone_repo(repo, path)`. `git::checkout` ignores its repository
      argument, so the checkout runs in the process's working directory
      `cwd`, not in the clone. */
  method CloneRepo(repo: string, path: string, cwd: string) returns (calls: seq<GitCall>)
    ensures calls == [Clone(SplitLocator(repo).url, path)] +
                     if SplitLocator(repo).branch != "" then [Checkout(cwd, SplitLocator(repo).branch)] else []
  {
    var repoParts := Split(repo, '#');
    var repoUrl := repoParts[0];
    var branch := if |repoParts| > 1 then repoParts[1] else "";
    calls := [Clone(repoUrl, path)];
    if branch != "" {
      calls := calls + [Checkout(cwd, branch)];
    }
  }

  /** Both versions clone the same URL to the same place; they differ only in
      where a branch is checked out. */
  lemma CloneRepoMatchesClonePlan(repo: string, path: string, cwd: string)
    ensures var ts, rs := ClonePlan(repo, path), [Clone(SplitLocator(repo).url, path)] +
              if SplitLocator(repo).branch != "" then [Checkout(cwd, SplitLocator(repo).branch)] else [];
            && |ts| == |rs| && ts[0] == rs[0]
            && (|ts| == 2 ==> ts[1].branch == rs[1].branch && rs[1].directory == cwd)
            && (ts == rs <==> |ts| == 1 || cwd == path)
  {
  }

  /** What the external tools do to the file system; the program cannot see
      inside them. */
  datatype Tools = Tools(
    clone: (FileSystem, string, string) -> FileSystem,     // `git clone <url> <path>`
    checkout: (FileSystem, string, string) -> FileSystem,  // `git checkout <branch>` in a directory
    latestHash: (FileSystem, string) -> string,            // `git rev-parse HEAD` in a directory, trimmed
    copy: (FileSystem, string, string) -> Result<FileSystem, string>)
                                         // `fs.promises.cp(source, destination, { recursive: true })`,
                                         // which rejects with a message, e.g. when the source is missing

  /** The file system after running the git commands `calls` in order. */
  function RunGitCalls(fs: FileSystem, calls: seq<GitCall>, tools: Tools): FileSystem
    decreases |calls|
  {
    if calls == [] then fs
    else
      var next := match calls[0]
        case Clone(url, destination) => tools.clone(fs, url, destination)
        case Checkout(directory, branch) => tools.checkout(fs, directory, branch);
      RunGitCalls(next, calls[1..], tools)
  }

  /** The file system after `cloneRepoAndCheckout(repo, destination)`: what
      the git commands of its plan produce, run in order. */
  function Cloned(fs: FileSystem, repo: string, destination: string, tools: Tools): (r: FileSystem)
    ensures r == RunGitCalls(fs, ClonePlan(repo, destination), tools)
  {
    var loc := SplitLocator(repo);
    var cloned := tools.clone(fs, loc.url, destination);
    var plan := ClonePlan(repo, destination);
    assert RunGitCalls(fs, plan, tools) == RunGitCalls(cloned, plan[1..], tools);
    if loc.branch != "" then
      var checkedOut := tools.checkout(cloned, destination, loc.branch);
      assert plan[1..] == [Checkout(destination, loc.branch)];
      assert RunGitCalls(cloned, plan[1..], tools) == RunGitCalls(checkedOut, [], tools);
      checkedOut
    else
      assert plan[1..] == [];
      cloned
  }

  // ---------------------------------------------------------------- the local manifest

  /** Where `add` keeps the manifest: blend.yml in the working directory. */
  function ManifestPath(cwd: string): string {
    ConfigTs.JoinPath(cwd, ConfigTs.ManifestName)
  }

  /** The manifest `add` starts from: what `getConfig` yields for the working
      directory, or the empty manifest when that is falsy; a thrown error
      rejects `add`. */
  function LoadLocalConfig(fs: FileSystem, cwd: string, yaml: ConfigTs.Yaml): (r: Result<M.Config, ConfigTs.ConfigError>)
    ensures ConfigTs.GetConfig(fs, cwd, yaml).Err? <==> r.Err?
    ensures r.Err? ==> r.error == ConfigTs.GetConfig(fs, cwd, yaml).error
  {
    match ConfigTs.GetConfig(fs, cwd, yaml)
    case Err(e) => Err(e)
    case Ok(loaded) => Ok(loaded.GetOr(M.EmptyConfig))
  }

  /** The load as src/commands.ts:25-26 writes it: `getConfig` is given the
      path of blend.yml itself, which it treats as a source file holding a
      block comment. */
  function LoadLocalConfigAsWritten(fs: FileSystem, cwd: string, yaml: ConfigTs.Yaml): (r: Result<M.Config, ConfigTs.ConfigError>)
    ensures r.Err? <==> ConfigTs.GetConfig(fs, ManifestPath(cwd), yaml).Err?
    ensures var p := ManifestPath(cwd);
            r.Ok? ==> p in fs && (fs[p].File? ==> ConfigTs.ExtractFirstBlockComment(fs[p].content).Some?)
  {
    match ConfigTs.GetConfig(fs, ManifestPath(cwd), yaml)
    case Err(e) => Err(e)
    case Ok(loaded) => Ok(loaded.GetOr(M.EmptyConfig))
  }

  /** The text that `yaml.dump` and `serde_yaml::to_string` write: lines,
      each with its line feed, and no block comment. */
  predicate PlainYaml(lines: seq<string>) {
    forall l :: 0 <= l < |lines| ==> ConfigRs.PlainLine(lines[l]) && !Contains(lines[l], "/*")
  }

  /** As written, a manifest in YAML cannot be loaded: it holds no block
      comment, so `add` is rejected with "No YAML found"; and without a
      manifest, `stat` rejects it. */
  lemma AddAsWrittenRejectsManifest(fs: FileSystem, cwd: string, lines: seq<string>, yaml: ConfigTs.Yaml)
    requires PlainYaml(lines)
    ensures var p := ManifestPath(cwd);
            && LoadLocalConfigAsWritten(fs[p := ConfigTs.File(JoinLines(lines))], cwd, yaml) ==
                 Err(ConfigTs.NoYamlFound(p))
            && (p !in fs ==> LoadLocalConfigAsWritten(fs, cwd, yaml) == Err(ConfigTs.StatFailed(p)))
  {
    var p := ManifestPath(cwd);
    JoinLinesAbsent(lines, "/*");
    ConfigTs.GetConfigNeedsComment(fs[p := ConfigTs.File(JoinLines(lines))], p, yaml);
  }

  /** Loading through the working directory reads blend.yml as YAML, and
      malformed YAML rejects `add` with the parser's message. */
  lemma LoadLocalConfigReadsManifest(fs: FileSystem, cwd: string, yaml: ConfigTs.Yaml)
    requires cwd in fs && fs[cwd].Directory?
    ensures var p := ManifestPath(cwd);
            && (p in fs && fs[p].File? && yaml.load(fs[p].content).Ok? ==>
                  LoadLocalConfig(fs, cwd, yaml) == Ok(yaml.load(fs[p].content).value.GetOr(M.EmptyConfig)))
            && (p in fs && fs[p].File? && yaml.load(fs[p].content).Err? ==>
                  LoadLocalConfig(fs, cwd, yaml) == Err(ConfigTs.ParseFailed(yaml.load(fs[p].content).error)))
            && (p !in fs ==> LoadLocalConfig(fs, cwd, yaml) == Err(ConfigTs.FileNotFound(p)))
  {
  }

  /** The destination of the copy: the local path inside the working
      directory, or the working directory itself when it is empty. */
  function LocalDir(cwd: string, localPath: string): (d: string)
    ensures localPath == "" ==> d == cwd
    ensures localPath != "" ==> d == cwd + "/" + localPath
  {
    if localPath != "" then ConfigTs.JoinPath(cwd, localPath) else cwd
  }

  /** The middle of `add` (src/commands.ts:26-38): the loaded or default
      manifest becomes an object, `addDependencyIfNotExists` merges the record
      into it, and `push()` without arguments adds nothing. */
  method MergeRecord(base: M.Config, record: M.Dependency) returns (merged: M.Config, notice: Option<string>)
    ensures merged == M.AddDependencyIfAbsent(base, record)
    ensures notice.Some? <==> M.HasLocalPath(M.Dependencies(base), record.localPath)
    ensures notice.Some? ==> notice.value == M.AlreadyExistsNotice(record.localPath)
  {
    var config := ConfigTs.FromValue(base);
    var localConfig;
    localConfig, notice := ConfigTs.AddDependencyIfNotExists(config, record);
    // `localConfig.dependencies || []` is the array itself: it is never undefined here.
    localConfig.dependencies.PushNothing();
    merged := localConfig.Value();
  }

  /** The file system once `add` has written the merged manifest to blend.yml. */
  function WithManifest(fs: FileSystem, cwd: string, yaml: ConfigTs.Yaml, base: M.Config, record: M.Dependency): FileSystem {
    fs[ManifestPath(cwd) := ConfigTs.File(yaml.dump(M.AddDependencyIfAbsent(base, record)))]
  }

  /** Why `add` is rejected: the local manifest cannot be loaded, or the
      copy out of the clone fails after blend.yml has been written. */
  datatype AddError = LoadFailed(cause: ConfigTs.ConfigError) | CopyFailed(message: string)
  {
    /** The message `start` prints. */
    function Message(): string {
      match this
      case LoadFailed(e) => e.Message()
      case CopyFailed(m) => m
    }
  }

  /** How `add` ends on the cloned file system: `None` when it resolves,
      otherwise the error that rejects it. */
  function AddFailure(cloned: FileSystem, cwd: string, repo: string, remotePath: string, localPath: string,
                      tempDir: string, yaml: ConfigTs.Yaml, tools: Tools): (f: Option<AddError>)
    ensures LoadLocalConfig(cloned, cwd, yaml).Err? ==> f == Some(LoadFailed(LoadLocalConfig(cloned, cwd, yaml).error))
    ensures f.Some? && f.value.CopyFailed? ==> LoadLocalConfig(cloned, cwd, yaml).Ok?
  {
    match LoadLocalConfig(cloned, cwd, yaml)
    case Err(e) => Some(LoadFailed(e))
    case Ok(base) =>
      var record := M.Dependency(repo, tools.latestHash(cloned, tempDir), remotePath, localPath);
      match tools.copy(WithManifest(cloned, cwd, yaml, base, record), ConfigTs.JoinPath(tempDir, remotePath),
                       LocalDir(cwd, localPath))
      case Err(m) => Some(CopyFailed(m))
      case Ok(_) => None
  }

  // ---------------------------------------------------------------- the workspace

  /** The machine the TypeScript commands act on: its file system, the git
      commands run so far, and the lines printed so far. */
  class Workspace {
    var fs: FileSystem
    var gitCalls: seq<GitCall>
    var output: seq<string>
    const cwd: string

    constructor (fs: FileSystem, cwd: string)
      ensures this.fs == fs && this.cwd == cwd && gitCalls == [] && output == []
    {
      this.fs := fs;
      this.cwd := cwd;
      gitCalls := [];
      output := [];
    }

    /** `cloneRepoAndCheckout(repo, destinationPath)` */
    method CloneRepoAndCheckout(repo: string, destinationPath: string, tools: Tools)
      modifies this
      ensures fs == Cloned(old(fs), repo, destinationPath, tools)
      ensures gitCalls == old(gitCalls) + ClonePlan(repo, destinationPath)
      ensures output == old(output)
    {
      var loc := SplitLocator(repo);
      fs := tools.clone(fs, loc.url, destinationPath);
      gitCalls := gitCalls + [Clone(loc.url, destinationPath)];
      if loc.branch != "" {
        fs := tools.checkout(fs, destinationPath, loc.branch);
        gitCalls := gitCalls + [Checkout(destinationPath, loc.branch)];
      }
    }

    /** `add(repo, remotePath, localPath)` with the clone in `tempDir`: clone,
        read the tip hash, load the local manifest, merge the new record into it,
        write it back, and only then copy `remotePath` out of the clone. An
        error loading the manifest rejects the command after the clone; a
        failed copy rejects it after blend.yml has been written. */
    method Add(repo: string, remotePath: string, localPath: string, tempDir: string,
               yaml: ConfigTs.Yaml, tools: Tools)
      returns (r: Result<(), AddError>)
      modifies this
      ensures gitCalls == old(gitCalls) + ClonePlan(repo, tempDir)
      ensures var f := AddFailure(Cloned(old(fs), repo, tempDir, tools), cwd, repo, remotePath, localPath, tempDir, yaml, tools);
              r == if f.Some? then Err(f.value) else Ok(())
      ensures var cloned := Cloned(old(fs), repo, tempDir, tools);
              match LoadLocalConfig(cloned, cwd, yaml)
              case Err(e) => fs == cloned && output == old(output)
              case Ok(base) =>
                var record := M.Dependency(repo, tools.latestHash(cloned, tempDir), remotePath, localPath);
                var written := WithManifest(cloned, cwd, yaml, base, record);
                var copied := tools.copy(written, ConfigTs.JoinPath(tempDir, remotePath), LocalDir(cwd, localPath));
                && fs == (if copied.Ok? then copied.value else written)
                && output == old(output) +
                     if M.HasLocalPath(M.Dependencies(base), localPath) then [M.AlreadyExistsNotice(localPath)] else []
    {
      CloneRepoAndCheckout(repo, tempDir, tools);
      var fullRemotePath := ConfigTs.JoinPath(tempDir, remotePath);
      var commitHash := tools.latestHash(fs, tempDir);
      var localConfigPath := ManifestPath(cwd);
      var loaded := LoadLocalConfig(fs, cwd, yaml);
      if loaded.Err? {
        return Err(LoadFailed(loaded.error));
      }
      var localConfig, notice := MergeRecord(loaded.value, M.Dependency(repo, commitHash, remotePath, localPath));
      if notice.Some? {
        output := output + [notice.value];
      }
      fs := fs[localConfigPath := ConfigTs.File(yaml.dump(localConfig))];
      var localDir := LocalDir(cwd, localPath);
      var copied := tools.copy(fs, fullRemotePath, localDir);
      if copied.Err? {
        return Err(CopyFailed(copied.error));
      }
      fs := copied.value;
      r := Ok(());
    }

    /** `update()`: only prints. */
    method Update()
      modifies this
      ensures fs == old(fs) && gitCalls == old(gitCalls)
      ensures output == old(output) + ["Updating..."]
    {
      output := output + ["Updating..."];
    }

    /** `remove(path)`: only prints. */
    method Remove(path: string)
      modifies this
      ensures fs == old(fs) && gitCalls == old(gitCalls)
      ensures output == old(output) + ["Removing: " + path]
    {
      output := output + ["Removing: " + path];
    }
  }

  /** The manifest `add` writes for a working directory that holds one in
      YAML: the loaded records with the new one last, unless its local path
      is taken; local paths stay unique. */
  lemma AddWritesMergedManifest(fs: FileSystem, cwd: string, yaml: ConfigTs.Yaml, c: M.Config, d: M.Dependency)
    requires cwd in fs && fs[cwd].Directory?
    requires ManifestPath(cwd) in fs && fs[ManifestPath(cwd)].File?
    requires yaml.load(fs[ManifestPath(cwd)].content) == Ok(Some(c))
    requires M.UniqueLocalPaths(M.Dependencies(c))
    ensures LoadLocalConfig(fs, cwd, yaml) == Ok(c)
    ensures var r := M.Dependencies(M.AddDependencyIfAbsent(c, d));
            && M.UniqueLocalPaths(r)
            && (M.HasLocalPath(M.Dependencies(c), d.localPath) ==> r == M.Dependencies(c))
            && (!M.HasLocalPath(M.Dependencies(c), d.localPath) ==> r == M.Dependencies(c) + [d])
  {
    M.AddKeepsLocalPathsUnique(c, d);
  }

  // ---------------------------------------------------------------- add_repo

  /** The local path `add_repo` intends: the given one, or the working
      directory when there is none. */
  function LocalDirRs(cwd: string, localPath: Option<string>): (d: string)
    ensures localPath.None? ==> d == cwd
    ensures localPath.Some? && localPath.value != "" ==> d == LocalDir(cwd, localPath.value)
  {
    match localPath
    case None => cwd
    case Some(lp) => ConfigTs.JoinPath(cwd, lp)
  }

  /** What `add_repo` writes, or `None` when `get_config` panics. */
  datatype ManifestWrite = ManifestWrite(path: string, text: string, printed: Option<string>)

  /** The record `add_repo` adds: the locator as given, the tip hash of the
      clone in `tempDir`, and both paths, an absent local path as `""`. */
  function RepoRecord(fs: FileSystem, repo: string, remotePath: string, localPath: Option<string>,
                      tempDir: string, tools: Tools): (d: M.Dependency)
    ensures d.repo == repo && d.remotePath == remotePath && d.hash == tools.latestHash(fs, tempDir)
    ensures localPath.Some? ==> d.localPath == localPath.value
    ensures localPath.None? ==> d.localPath == ""
  {
    M.Dependency(repo, tools.latestHash(fs, tempDir), remotePath, localPath.GetOr(""))
  }

  /** The manifest step of `add_repo` on the cloned file system: read the tip
      hash of the clone, load the manifest of the working directory or fall
      back to the empty one, merge the record in place, and serialise the
      result to blend.yml. */
  method AddRepoConfig(fs: FileSystem, cwd: string, repo: string, remotePath: string, localPath: Option<string>,
                       tempDir: string, serde: ConfigRs.Serde, tools: Tools)
    returns (w: Option<ManifestWrite>)
    ensures var lookup := ConfigRs.GetConfig(fs, cwd, serde);
            var record := RepoRecord(fs, repo, remotePath, localPath, tempDir, tools);
            && (w.None? <==> lookup.Panicked?)
            && (w.Some? ==>
                  var base := lookup.Config().GetOr(M.EmptyConfig);
                  && w.value.path == ManifestPath(cwd)
                  && w.value.text == serde.toString(M.AddDependencyIfAbsent(base, record))
                  && (w.value.printed.Some? <==> M.HasLocalPath(M.Dependencies(base), record.localPath)))
  {
    var commitHash := tools.latestHash(fs, tempDir);
    var lookup := ConfigRs.GetConfig(fs, cwd, serde);
    if lookup.Panicked? {
      return None;
    }
    var localConfig := new ConfigRs.Config(lookup.Config().GetOr(M.EmptyConfig));
    var printed := localConfig.AddDependencyIfNotExists(
      M.Dependency(repo, commitHash, remotePath, localPath.GetOr("")));
    w := Some(ManifestWrite(ManifestPath(cwd), serde.toString(localConfig.Value()), printed));
  }

  /** The load as src/commands.rs:57 writes it, through the path of blend.yml. */
  function LoadLocalConfigRsAsWritten(fs: FileSystem, cwd: string, serde: ConfigRs.Serde): (r: ConfigRs.Lookup)
    ensures var p := ManifestPath(cwd);
            r.Found? ==> p in fs && (fs[p].File? ==> BlockComment.ExtractFromLines(ConfigRs.ReaderLines(fs[p].content)).Some?)
  {
    ConfigRs.GetConfig(fs, ManifestPath(cwd), serde)
  }

  /** As written, `add_repo` finds no block comment in a YAML manifest, falls
      back to the empty manifest and so writes the new record alone, dropping
      the recorded ones. */
  lemma AddRepoAsWrittenDropsRecords(fs: FileSystem, cwd: string, lines: seq<string>, serde: ConfigRs.Serde,
                                     d: M.Dependency)
    requires PlainYaml(lines)
    requires ManifestPath(cwd) in fs && fs[ManifestPath(cwd)] == ConfigTs.File(JoinLines(lines))
    ensures var lookup := LoadLocalConfigRsAsWritten(fs, cwd, serde);
            && lookup == ConfigRs.NotFound("No yaml found in file at " + ManifestPath(cwd))
            && M.Dependencies(M.AddDependencyIfAbsent(lookup.Config().GetOr(M.EmptyConfig), d)) == [d]
  {
    ConfigRs.ReaderLinesOfJoined(lines);
    BlockComment.FirstLineWithNone(lines, "/*", 0);
    BlockComment.ExtractFromLinesNone(lines);
  }

  /** Through the working directory, `add_repo` keeps the recorded ones. */
  lemma AddRepoKeepsRecords(fs: FileSystem, cwd: string, serde: ConfigRs.Serde, c: M.Config, d: M.Dependency)
    requires cwd in fs && fs[cwd].Directory?
    requires ManifestPath(cwd) in fs && fs[ManifestPath(cwd)].File?
    requires serde.fromStr(fs[ManifestPath(cwd)].content) == Some(c)
    ensures ConfigRs.GetConfig(fs, cwd, serde) == ConfigRs.Found(c)
    ensures var r := M.Dependencies(M.AddDependencyIfAbsent(c, d));
            |r| >= |M.Dependencies(c)| && r[..|M.Dependencies(c)|] == M.Dependencies(c)
  {
  }

  /** How `copy_file_or_directory` copies a source. */
  datatype CopyKind = CopyDirectory(source: string, destination: string)  // fs_extra::dir::copy, overwriting
                    | CopyFile(source: string, destination: string)       // fs::copy
                    | NoCopy(diagnostic: string)                          // metadata unreadable

  /** `copy_file_or_directory(source, destination)`: the kind of the source
      decides the copy; a source without metadata copies nothing. */
  function CopyFileOrDirectory(fs: FileSystem, source: string, destination: string): (r: CopyKind)
    ensures r.NoCopy? <==> source !in fs
    ensures r.NoCopy? ==> r.diagnostic == "Failed to read metadata for path " + source
    ensures r.CopyDirectory? <==> source in fs && fs[source].Directory?
    ensures !r.NoCopy? ==> r.source == source && r.destination == destination
  {
    if source !in fs then NoCopy("Failed to read metadata for path " + source)
    else if fs[source].Directory? then CopyDirectory(source, destination)
    else CopyFile(source, destination)
  }
}
