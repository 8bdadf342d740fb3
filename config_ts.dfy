/** src/config.ts: the manifest as JavaScript objects, the dependency merge
    that extends a possibly shared array in place, the block-comment
    extractor (one regular expression), and `getConfig` over an abstract file
    system. */
module ConfigTs {
  import opened Common
  import opened Text
  import M = Manifest

  // ---------------------------------------------------------------- objects

  /** A JavaScript array of dependency records. It is an object: several
      config objects may refer to the same one. */
  class DependencyArray {
    var elements: seq<M.Dependency>

    constructor (elements: seq<M.Dependency>)
      ensures this.elements == elements
    {
      this.elements := elements;
    }

    /** `array.push(d)` */
    method Push(d: M.Dependency)
      modifies this
      ensures elements == old(elements) + [d]
    {
      elements := elements + [d];
    }

    /** `array.push()` with no arguments: appends nothing. */
    method PushNothing()
      modifies this
      ensures elements == old(elements)
    {
    }
  }

  /** A JavaScript `Config` object. Its fields are values except
      `dependencies`, which refers to an array object (or is undefined). */
  class ConfigObject {
    var name: Option<string>
    var description: Option<string>
    var hooks: Option<M.Hooks>
    var dependencies: DependencyArray?

    /** An object literal, or a spread copy `{ ...config }` when given the fields of another. */
    constructor (name: Option<string>, description: Option<string>, hooks: Option<M.Hooks>,
                 dependencies: DependencyArray?)
      ensures this.name == name && this.description == description && this.hooks == hooks
      ensures this.dependencies == dependencies
    {
      this.name := name;
      this.description := description;
      this.hooks := hooks;
      this.dependencies := dependencies;
    }

    /** The manifest value the object currently denotes. */
    function Value(): M.Config
      reads this, dependencies
    {
      M.Config(name, description, hooks,
               if dependencies == null then None else Some(dependencies.elements))
    }
  }

  /** A fresh object graph denoting `c`, as `yaml.load` or an object literal builds one. */
  method FromValue(c: M.Config) returns (o: ConfigObject)
    ensures fresh(o) && o.Value() == c
    ensures o.dependencies != null ==> fresh(o.dependencies)
  {
    var deps: DependencyArray? := null;
    if c.dependencies.Some? {
      deps := new DependencyArray(c.dependencies.value);
    }
    o := new ConfigObject(c.name, c.description, c.hooks, deps);
  }

  /** `addDependencyIfNotExists(config, dependency)`. The spread copy is
      shallow: when `config` already has a dependency array, the result shares
      it, so the push is seen through the caller's object as well. When it has
      none, the fresh array belongs to the result alone. */
  method AddDependencyIfNotExists(config: ConfigObject, dependency: M.Dependency)
    returns (newConfig: ConfigObject, notice: Option<string>)
    modifies config.dependencies
    ensures fresh(newConfig) && newConfig.dependencies != null
    ensures newConfig.Value() == M.AddDependencyIfAbsent(old(config.Value()), dependency)
    ensures unchanged(config)
    ensures old(config.dependencies) != null ==>
              newConfig.dependencies == config.dependencies && config.Value() == newConfig.Value()
    ensures old(config.dependencies) == null ==>
              fresh(newConfig.dependencies) && config.Value() == old(config.Value())
    ensures notice == if M.HasLocalPath(M.Dependencies(old(config.Value())), dependency.localPath)
                      then Some(M.AlreadyExistsNotice(dependency.localPath)) else None
  {
    newConfig := new ConfigObject(config.name, config.description, config.hooks, config.dependencies);
    if newConfig.dependencies == null {
      var empty := new DependencyArray([]);
      newConfig.dependencies := empty;
    }
    if !M.HasLocalPath(newConfig.dependencies.elements, dependency.localPath) {
      newConfig.dependencies.Push(dependency);
      notice := None;
    } else {
      notice := Some(M.AlreadyExistsNotice(dependency.localPath));
    }
  }

  // ---------------------------------------------------------------- block comment

  /** The capture group of `content.match(/\/\*(.*?)\*\//s)`: the text
      between the first opening delimiter and the next closing delimiter that
      does not overlap it; nothing when there is no such pair. */
  function MatchBlockComment(content: string): (r: Option<string>)
    ensures r.Some? ==> exists i :: Encloses(content, i, r.value)
    ensures r.Some? ==> !Contains(r.value, "*/")
  {
    match IndexOf(content, "/*", 0)
    case None => None
    case Some(i) =>
      match IndexOf(content, "*/", i + 2)
      case None => None
      case Some(j) =>
        var raw := content[i + 2..j];
        assert Encloses(content, i, raw);
        assert !Contains(raw, "*/") by {
          forall k | At(raw, k, "*/") ensures false {
            AtSlice(content, i + 2, j, k, "*/");
          }
        }
        Some(raw)
  }

  /** The matched text, trimmed (`match[1].trim()`): it holds no closing
      delimiter and neither starts nor ends with white space. */
  function ExtractFirstBlockComment(content: string): (r: Option<string>)
    ensures r.Some? <==> MatchBlockComment(content).Some?
    ensures r.Some? ==> !Contains(r.value, "*/")
    ensures r.Some? && r.value != [] ==> !IsSpace(JavaScript, r.value[0]) && !IsSpace(JavaScript, r.value[|r.value| - 1])
  {
    match MatchBlockComment(content)
    case None => None
    case Some(raw) =>
      TrimKeepsAbsent(JavaScript, raw, "*/");
      Some(Trim(JavaScript, raw))
  }

  /** The regular expression can match from `i` to `j`: an opening delimiter
      at `i` and a closing one at `j`, at least two characters later. */
  ghost predicate Delimits(content: string, i: int, j: int) {
    At(content, i, "/*") && i + 2 <= j && At(content, j, "*/")
  }

  /** `text` lies between an opening delimiter at `i` and a closing one
      right after it. */
  ghost predicate Encloses(content: string, i: int, text: string) {
    Delimits(content, i, i + 2 + |text|) && content[i + 2..i + 2 + |text|] == text
  }

  /** The match a leftmost, lazy regular expression selects: no match starts
      before `i`, and from `i` no closing delimiter comes before `j`. */
  ghost predicate FirstMatch(content: string, i: int, j: int) {
    && Delimits(content, i, j)
    && (forall i', j' :: 0 <= i' < i ==> !Delimits(content, i', j'))
    && (forall j' :: i + 2 <= j' < j ==> !At(content, j', "*/"))
  }

  /** There is a result exactly when the regular expression matches at all. */
  lemma ExtractFindsAnyMatch(content: string)
    ensures ExtractFirstBlockComment(content).Some? <==> exists i, j :: Delimits(content, i, j)
  {
    if ExtractFirstBlockComment(content).Some? {
      var i := IndexOf(content, "/*", 0).value;
      assert Delimits(content, i, IndexOf(content, "*/", i + 2).value);
    }
    if i, j :| Delimits(content, i, j) {
      var i0 := IndexOf(content, "/*", 0).value;
      assert i0 <= i;
      assert IndexOf(content, "*/", i0 + 2).Some? by {
        assert At(content, j, "*/") && i0 + 2 <= j;
      }
    }
  }

  /** A result is the trimmed text of the leftmost lazy match; it never
      contains a closing delimiter (it may span lines). */
  lemma ExtractIsFirstMatch(content: string)
    requires ExtractFirstBlockComment(content).Some?
    ensures exists i, j :: FirstMatch(content, i, j)
                           && ExtractFirstBlockComment(content) == Some(Trim(JavaScript, content[i + 2..j]))
    ensures !Contains(ExtractFirstBlockComment(content).value, "*/")
  {
    var i := IndexOf(content, "/*", 0).value;
    var j := IndexOf(content, "*/", i + 2).value;
    forall i', j' | 0 <= i' < i ensures !Delimits(content, i', j') {
      assert !At(content, i', "/*");
    }
    assert FirstMatch(content, i, j);
    var raw := content[i + 2..j];
    assert !Contains(raw, "*/") by {
      forall k | At(raw, k, "*/") ensures false {
        AtSlice(content, i + 2, j, k, "*/");
      }
    }
    TrimKeepsAbsent(JavaScript, raw, "*/");
  }

  // ---------------------------------------------------------------- getConfig

  /** An entry of the file system. */
  datatype Node = File(content: string) | Directory

  /** Absolute paths to entries. */
  type FileSystem = map<string, Node>

  /** The YAML library as far as the program uses it: `yaml.load`, which
      throws on malformed text (`Err` with the exception's message) and may
      yield a falsy value (`Ok(None)`), and `yaml.dump`. */
  datatype Yaml = Yaml(load: string -> Result<Option<M.Config>, string>, dump: M.Config -> string)

  /** What `getConfig` throws. */
  datatype ConfigError =
    | StatFailed(path: string)      // `fs.promises.stat` rejects: nothing at the path
    | FileNotFound(path: string)    // a directory without blend.yml
    | ReadFailed(path: string)      // blend.yml is not a readable file
    | NoYamlFound(path: string)     // a file without a non-empty first block comment
    | ParseFailed(message: string)  // `yaml.load` throws on malformed YAML
  {
    function Message(): string {
      match this
      case StatFailed(p) => "ENOENT: no such file or directory, stat '" + p + "'"
      case FileNotFound(p) => "File not found: " + p
      case ReadFailed(p) => "EISDIR: illegal operation on a directory, read"
      case NoYamlFound(p) => "No YAML found in file at: " + p
      case ParseFailed(m) => m
    }
  }

  /** The name of the manifest inside a directory. */
  const ManifestName := "blend.yml"

  function JoinPath(dir: string, name: string): string {
    dir + "/" + name
  }

  /** `parseConfig(yamlString)`: what `yaml.load` gives, its exception
      becoming the error that rejects the caller. */
  function ParseConfig(yaml: Yaml, text: string): (r: Result<Option<M.Config>, ConfigError>)
    ensures r.Ok? <==> yaml.load(text).Ok?
    ensures r.Ok? ==> r.value == yaml.load(text).value
    ensures r.Err? ==> r.error == ParseFailed(yaml.load(text).error)
  {
    match yaml.load(text)
    case Ok(c) => Ok(c)
    case Err(m) => Err(ParseFailed(m))
  }

  /** `getConfig(filePath)`: a directory is read through its blend.yml, any
      other entry through its first block comment. */
  function GetConfig(fs: FileSystem, filePath: string, yaml: Yaml): (r: Result<Option<M.Config>, ConfigError>)
    ensures filePath !in fs ==> r == Err(StatFailed(filePath))
    ensures filePath in fs && fs[filePath].Directory? ==>
              var p := JoinPath(filePath, ManifestName);
              && (p !in fs ==> r == Err(FileNotFound(p)))
              && (p in fs && fs[p].File? ==> r == ParseConfig(yaml, fs[p].content))
              && (p in fs && fs[p].Directory? ==> r == Err(ReadFailed(p)))
    ensures filePath in fs && fs[filePath].File? ==>
              var comment := ExtractFirstBlockComment(fs[filePath].content);
              && (comment.Some? && comment.value != "" ==> r == ParseConfig(yaml, comment.value))
              && (comment.None? || comment.value == "" ==> r == Err(NoYamlFound(filePath)))
  {
    if filePath !in fs then Err(StatFailed(filePath))
    else match fs[filePath]
      case Directory =>
        var p := JoinPath(filePath, ManifestName);
        if p !in fs then Err(FileNotFound(p))
        else (match fs[p]
              case File(text) => ParseConfig(yaml, text)
              case Directory => Err(ReadFailed(p)))
      case File(content) =>
        match ExtractFirstBlockComment(content)
        case Some(comment) =>
          if comment != "" then ParseConfig(yaml, comment) else Err(NoYamlFound(filePath))
        case None => Err(NoYamlFound(filePath))
  }

  /** A file with a block comment is parsed through it, unless it is empty;
      malformed YAML in it rejects the call with the parser's message. */
  lemma GetConfigOfComment(fs: FileSystem, filePath: string, yaml: Yaml, comment: string)
    requires filePath in fs && fs[filePath].File?
    requires ExtractFirstBlockComment(fs[filePath].content) == Some(comment)
    ensures GetConfig(fs, filePath, yaml) ==
              if comment == "" then Err(NoYamlFound(filePath))
              else match yaml.load(comment)
                case Ok(c) => Ok(c)
                case Err(m) => Err(ParseFailed(m))
  {
  }

  /** A file whose text has no opening delimiter is never a config source. */
  lemma GetConfigNeedsComment(fs: FileSystem, filePath: string, yaml: Yaml)
    requires filePath in fs && fs[filePath].File? && !Contains(fs[filePath].content, "/*")
    ensures GetConfig(fs, filePath, yaml) == Err(NoYamlFound(filePath))
  {
    ContainsIff(fs[filePath].content, "/*");
  }
}
