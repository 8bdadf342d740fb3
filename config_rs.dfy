/** src/config.rs: the manifest as a Rust struct that `add` mutates through
    `&mut self`, the line-by-line block-comment extractor, and `get_config`
    over an abstract file system. */
module ConfigRs {
  import opened Common
  import opened Text
  import M = Manifest
  import BlockComment
  import ConfigTs

  /** A `Config` value owned by its variable and updated in place. */
  class Config {
    var name: Option<string>
    var description: Option<string>
    var hooks: Option<M.Hooks>
    var dependencies: Option<seq<M.Dependency>>

    constructor (c: M.Config)
      ensures Value() == c
    {
      name, description, hooks, dependencies := c.name, c.description, c.hooks, c.dependencies;
    }

    /** The manifest value the struct holds. */
    function Value(): M.Config
      reads this
    {
      M.Config(name, description, hooks, dependencies)
    }

    /** `add_dependency_if_not_exists(&mut self, dependency)`: pushes onto an
        existing list unless a record there has the same local path (then it
        prints a notice), and creates the list `[dependency]` when there is none. */
    method AddDependencyIfNotExists(dependency: M.Dependency) returns (printed: Option<string>)
      modifies this
      ensures Value() == M.AddDependencyIfAbsent(old(Value()), dependency)
      ensures printed == if old(dependencies).Some? && M.HasLocalPath(old(dependencies).value, dependency.localPath)
                         then Some(M.AlreadyExistsNotice(dependency.localPath)) else None
    {
      printed := None;
      match dependencies
      case Some(deps) =>
        if !M.HasLocalPath(deps, dependency.localPath) {
          dependencies := Some(deps + [dependency]);
        } else {
          printed := Some(M.AlreadyExistsNotice(dependency.localPath));
        }
      case None =>
        assert M.Dependencies(Value()) + [dependency] == [dependency];
        dependencies := Some([dependency]);
    }
  }

  /** `extract_first_block_comment` over the lines a file's reader yields:
      until a line holds an opening delimiter, nothing is collected; that
      line's remainder starts the buffer and may already close it; after it,
      each line either closes the block with its text before the delimiter or
      is collected whole with a line feed. */
  method ExtractFirstBlockComment(lines: seq<string>) returns (r: Option<string>)
    ensures r == BlockComment.ExtractFromLines(lines)
  {
    var inBlockComment := false;
    var content := "";
    var i := 0;
    while i < |lines|
      invariant 0 <= i <= |lines|
      invariant !inBlockComment ==> BlockComment.Scanned(lines, i) == BlockComment.Outside && content == ""
      invariant inBlockComment ==> BlockComment.Scanned(lines, i) == BlockComment.Inside(content)
    {
      var line := lines[i];
      if inBlockComment {
        match IndexOf(line, "*/", 0)
        case Some(endIndex) =>
          ClosesInside(lines, i, content, endIndex);
          content := content + line[..endIndex];
          r := Some(Trim(Rust, content));
          return;
        case None =>
          StaysInside(lines, i, content);
          content := content + line + "\n";
      } else {
        match IndexOf(line, "/*", 0)
        case Some(startIndex) => {
          inBlockComment := true;
          content := content + line[startIndex + 2..];
          assert content == line[startIndex + 2..];
          match IndexOf(content, "*/", 0)
          case Some(endIndex) =>
            ClosesWhereOpened(lines, i, startIndex, endIndex);
            content := content[..endIndex];
            r := Some(Trim(Rust, content));
            return;
          case None =>
            Opens(lines, i, startIndex);
        }
        case None =>
          StaysOutside(lines, i);
      }
      i := i + 1;
    }
    NeverCloses(lines);
    r := None;
  }

  /** A line of an open block that closes it ends the extraction. */
  lemma ClosesInside(lines: seq<string>, i: nat, text: string, e: nat)
    requires i < |lines| && BlockComment.Scanned(lines, i) == BlockComment.Inside(text)
    requires IndexOf(lines[i], "*/", 0) == Some(e)
    ensures BlockComment.ExtractFromLines(lines) == Some(Trim(Rust, text + lines[i][..e]))
  {
    Closes(lines, i + 1);
  }

  /** A line of an open block without a closing delimiter is collected. */
  lemma StaysInside(lines: seq<string>, i: nat, text: string)
    requires i < |lines| && BlockComment.Scanned(lines, i) == BlockComment.Inside(text)
    requires IndexOf(lines[i], "*/", 0).None?
    ensures BlockComment.Scanned(lines, i + 1) == BlockComment.Inside(text + lines[i] + "\n")
  {
  }

  /** The line that opens the block also closes it. */
  lemma ClosesWhereOpened(lines: seq<string>, i: nat, s: nat, e: nat)
    requires i < |lines| && BlockComment.Scanned(lines, i) == BlockComment.Outside
    requires IndexOf(lines[i], "/*", 0) == Some(s) && IndexOf(lines[i][s + 2..], "*/", 0) == Some(e)
    ensures BlockComment.ExtractFromLines(lines) == Some(Trim(Rust, lines[i][s + 2..][..e]))
  {
    OpensAndCloses(lines, i, s, e);
    Closes(lines, i + 1);
  }

  lemma OpensAndCloses(lines: seq<string>, i: nat, s: nat, e: nat)
    requires i < |lines| && BlockComment.Scanned(lines, i) == BlockComment.Outside
    requires IndexOf(lines[i], "/*", 0) == Some(s) && IndexOf(lines[i][s + 2..], "*/", 0) == Some(e)
    ensures BlockComment.Scanned(lines, i + 1) == BlockComment.Closed(lines[i][s + 2..][..e])
  {
  }

  /** The line that opens the block leaves it open. */
  lemma Opens(lines: seq<string>, i: nat, s: nat)
    requires i < |lines| && BlockComment.Scanned(lines, i) == BlockComment.Outside
    requires IndexOf(lines[i], "/*", 0) == Some(s) && IndexOf(lines[i][s + 2..], "*/", 0).None?
    ensures BlockComment.Scanned(lines, i + 1) == BlockComment.Inside(lines[i][s + 2..])
  {
  }

  /** A line before the block is skipped. */
  lemma StaysOutside(lines: seq<string>, i: nat)
    requires i < |lines| && BlockComment.Scanned(lines, i) == BlockComment.Outside
    requires IndexOf(lines[i], "/*", 0).None?
    ensures BlockComment.Scanned(lines, i + 1) == BlockComment.Outside
  {
  }

  /** A block closed within the first `n` lines is the block of all of them. */
  lemma Closes(lines: seq<string>, n: nat)
    requires n <= |lines| && BlockComment.Scanned(lines, n).Closed?
    ensures BlockComment.ExtractFromLines(lines) == Some(Trim(Rust, BlockComment.Scanned(lines, n).text))
  {
    BlockComment.ScannedStaysClosed(lines, n, |lines|);
    BlockComment.ScannedIsScanOf(lines, |lines|);
    assert lines[..|lines|] == lines;
  }

  /** A block not closed after the last line gives nothing. */
  lemma NeverCloses(lines: seq<string>)
    requires !BlockComment.Scanned(lines, |lines|).Closed?
    ensures BlockComment.ExtractFromLines(lines) == None
  {
    BlockComment.ScannedIsScanOf(lines, |lines|);
    assert lines[..|lines|] == lines;
  }

  // ---------------------------------------------------------------- reading lines

  /** A line ended by a line feed without its carriage return, as
      `BufRead::lines` turns a `\r\n` ending into nothing: exactly one
      trailing `\r` goes, and a line without one is kept. */
  function DropCarriageReturn(line: string): (r: string)
    ensures line == r + "\r" <==> line != [] && line[|line| - 1] == '\r'
    ensures line != r + "\r" ==> r == line
  {
    if line != [] && line[|line| - 1] == '\r' then line[..|line| - 1] else line
  }

  /** The lines `reader.lines()` yields for a file's text: the pieces between
      line feeds, without the line feed and a carriage return before it; a
      final line feed ends the last line and starts no new one, and a last
      line without one is kept whole. */
  function ReaderLines(content: string): (lines: seq<string>)
    ensures content == [] <==> lines == []
    decreases |content|
  {
    if content == [] then []
    else match IndexOf(content, "\n", 0)
      case None => [content]
      case Some(i) => [DropCarriageReturn(content[..i])] + ReaderLines(content[i + 1..])
  }

  /** A line the reader gives back unchanged: no line feed in it, and no
      carriage return at its end. */
  predicate PlainLine(line: string) {
    '\n' !in line && (line == [] || line[|line| - 1] != '\r')
  }

  /** Reading the text that the lines make, one line feed after each, gives
      the lines back. */
  lemma {:induction false} ReaderLinesOfJoined(lines: seq<string>)
    requires forall l :: 0 <= l < |lines| ==> PlainLine(lines[l])
    ensures ReaderLines(JoinLines(lines)) == lines
    decreases |lines|
  {
    if lines != [] {
      JoinLinesCons(lines);
      ReaderLinesCons(lines[0], JoinLines(lines[1..]));
      ReaderLinesOfJoined(lines[1..]);
    }
  }

  /** A plain line and its line feed are read as that line. */
  lemma ReaderLinesCons(line: string, tail: string)
    requires PlainLine(line)
    ensures ReaderLines(line + "\n" + tail) == [line] + ReaderLines(tail)
  {
    var content := line + "\n" + tail;
    forall k | 0 <= k < |line| ensures !At(content, k, "\n") {
      assert content[k] == line[k];
    }
    assert content[|line|..|line| + 1] == "\n";
    IndexOfIs(content, "\n", 0, |line|);
    assert content[..|line|] == line;
    assert content[|line| + 1..] == tail;
  }

  /** A line ended by `\r\n` is read without both. */
  lemma ReaderLinesCrlf(line: string, tail: string)
    requires PlainLine(line)
    ensures ReaderLines(line + "\r\n" + tail) == [line] + ReaderLines(tail)
  {
    var content := line + "\r\n" + tail;
    forall k | 0 <= k <= |line| ensures !At(content, k, "\n") {
      assert content[k] == (line + "\r")[k];
    }
    assert content[|line| + 1..|line| + 2] == "\n";
    IndexOfIs(content, "\n", 0, |line| + 1);
    assert content[..|line| + 1] == line + "\r";
    assert content[|line| + 2..] == tail;
  }

  /** A last line without a line feed is read whole, a final carriage return
      included. */
  lemma ReaderLinesUnended(line: string)
    requires line != [] && '\n' !in line
    ensures ReaderLines(line) == [line]
  {
    forall k | 0 <= k ensures !At(line, k, "\n") {
      if k + 1 <= |line| {
        assert line[k..k + 1][0] == line[k];
      }
    }
    IndexOfNone(line, "\n", 0);
  }

  // ---------------------------------------------------------------- get_config

  /** serde_yaml as far as the program uses it: `from_str`/`from_reader`,
      which fail (`None`) on text that is not a manifest, and `to_string`. */
  datatype Serde = Serde(fromStr: string -> Option<M.Config>, toString: M.Config -> string)

  /** How `get_config` ends: with a manifest, with `None` after a diagnostic
      on standard error, or in a panic of `parse_config`. */
  datatype Lookup = Found(config: M.Config) | NotFound(diagnostic: string) | Panicked(message: string)
  {
    /** `get_config(path)` as the caller sees it, when it returns. */
    function Config(): Option<M.Config> {
      if Found? then Some(config) else None
    }
  }

  /** A path as `{:?}` prints it: in double quotes. */
  function Quoted(p: string): string {
    "\"" + p + "\""
  }

  /** `get_config(path)`: a directory is read through its blend.yml; any
      other entry through the first block comment of its lines, which
      `parse_config` must accept. */
  function GetConfig(fs: ConfigTs.FileSystem, path: string, serde: Serde): (r: Lookup)
    ensures path !in fs ==> r == NotFound("Failed to read metadata for path " + path)
    ensures path in fs && fs[path].Directory? ==>
              var p := ConfigTs.JoinPath(path, ConfigTs.ManifestName);
              && (p !in fs ==> r == NotFound("Failed to open file " + Quoted(p)))
              && (p in fs && fs[p].File? && serde.fromStr(fs[p].content).Some? ==>
                    r == Found(serde.fromStr(fs[p].content).value))
              && (p in fs && (fs[p].Directory? || serde.fromStr(fs[p].content).None?) ==>
                    r == NotFound("Failed to parse config from " + Quoted(p)))
    ensures path in fs && fs[path].File? ==>
              var comment := BlockComment.ExtractFromLines(ReaderLines(fs[path].content));
              && (comment.None? ==> r == NotFound("No yaml found in file at " + path))
              && (comment.Some? && serde.fromStr(comment.value).Some? ==>
                    r == Found(serde.fromStr(comment.value).value))
              && (comment.Some? && serde.fromStr(comment.value).None? ==>
                    r == Panicked("Failed to parse config"))
  {
    if path !in fs then NotFound("Failed to read metadata for path " + path)
    else match fs[path]
      case Directory =>
        var p := ConfigTs.JoinPath(path, ConfigTs.ManifestName);
        if p !in fs then NotFound("Failed to open file " + Quoted(p))
        else (match fs[p]
              case File(text) =>
                (match serde.fromStr(text)
                 case Some(c) => Found(c)
                 case None => NotFound("Failed to parse config from " + Quoted(p)))
              case Directory => NotFound("Failed to parse config from " + Quoted(p)))
      case File(content) =>
        match BlockComment.ExtractFromLines(ReaderLines(content))
        case None => NotFound("No yaml found in file at " + path)
        case Some(comment) =>
          match serde.fromStr(comment)
          case Some(c) => Found(c)
          case None => Panicked("Failed to parse config")
  }

  /** Only a block comment that the parser rejects makes `get_config` panic;
      every other failure is reported and answered with `None`. */
  lemma GetConfigPanicsOnlyOnBadComment(fs: ConfigTs.FileSystem, path: string, serde: Serde)
    ensures GetConfig(fs, path, serde).Panicked? <==>
              && path in fs && fs[path].File?
              && BlockComment.ExtractFromLines(ReaderLines(fs[path].content)).Some?
              && serde.fromStr(BlockComment.ExtractFromLines(ReaderLines(fs[path].content)).value).None?
  {
  }

  /** The two YAML libraries agree: serde_yaml yields a manifest exactly where
      js-yaml yields a truthy one, and fails where js-yaml throws. */
  ghost predicate LibrariesAgree(yaml: ConfigTs.Yaml, serde: Serde) {
    forall text :: serde.fromStr(text) == if yaml.load(text).Ok? then yaml.load(text).value else None
  }

  /** For a directory, both versions read the same blend.yml. When the two
      YAML libraries agree on it, they find the same manifest; where the
      TypeScript version fails because blend.yml is missing or is a
      directory, the Rust version returns `None`. */
  lemma GetConfigDirectoryAgrees(fs: ConfigTs.FileSystem, path: string, yaml: ConfigTs.Yaml, serde: Serde)
    requires path in fs && fs[path].Directory?
    requires LibrariesAgree(yaml, serde)
    ensures var ts, rs := ConfigTs.GetConfig(fs, path, yaml), GetConfig(fs, path, serde);
            && (ts.Ok? && ts.value.Some? <==> rs.Found?)
            && (rs.Found? ==> ts.value == rs.Config())
            && (ts.Err? ==> rs.NotFound?)
  {
  }

  /** For a file written as lines, a block comment that closes on the line
      that opens it is read alike by both versions, and both parse it the
      same way when the libraries agree, except that TypeScript rejects an
      empty comment before parsing it. */
  lemma GetConfigSameLineAgrees(fs: ConfigTs.FileSystem, path: string, lines: seq<string>, k: nat,
                                yaml: ConfigTs.Yaml, serde: Serde)
    requires path in fs && fs[path] == ConfigTs.File(JoinLines(lines))
    requires forall l :: 0 <= l < |lines| ==> PlainLine(lines[l])
    requires BlockComment.FirstLineWith(lines, "/*", 0) == Some(k)
    requires Contains(BlockComment.AfterOpening(lines[k]), "*/")
    requires var raw := BlockComment.BeforeClosing(BlockComment.AfterOpening(lines[k]));
             '\U{0085}' !in raw && '\U{FEFF}' !in raw
    requires LibrariesAgree(yaml, serde)
    ensures var ts, rs := ConfigTs.GetConfig(fs, path, yaml), GetConfig(fs, path, serde);
            && (ts.Ok? && ts.value.Some? ==> rs == Found(ts.value.value))
            && (rs.Found? ==> ts.Err? || ts.value == rs.Config())
            && (ts.Err? && ts.error.ParseFailed? ==> rs.Panicked?)
  {
    ReaderLinesOfJoined(lines);
    BlockComment.SameLineComment(lines, k);
    var comment := BlockComment.ExtractFromLines(lines).value;
    GetConfigOfComment(fs, path, serde, comment);
    ConfigTs.GetConfigOfComment(fs, path, yaml, comment);
    assert serde.fromStr(comment) == if yaml.load(comment).Ok? then yaml.load(comment).value else None;
  }

  /** A file whose lines hold a block comment is parsed through it. */
  lemma GetConfigOfComment(fs: ConfigTs.FileSystem, path: string, serde: Serde, comment: string)
    requires path in fs && fs[path].File?
    requires BlockComment.ExtractFromLines(ReaderLines(fs[path].content)) == Some(comment)
    ensures GetConfig(fs, path, serde) ==
              if serde.fromStr(comment).Some? then Found(serde.fromStr(comment).value)
              else Panicked("Failed to parse config")
  {
  }
}
