/** src/index.ts: classifying the command line into the parameters of one
    command, and running that command. */
module Cli {
  import opened Common
  import ConfigTs
  import C = Commands

  /** The parameters of one command (`ScriptParameters`). */
  datatype Parameters =
    | AddParameters(repo: string, remotePath: string, localPath: Option<string>)
    | UpdateParameters
    | CommitParameters(commitPath: string, message: string)
    | RemoveParameters(path: string)

  /** How `getParameters` ends: with parameters, with `null` after printing
      the usage text, or by throwing an arity error. */
  datatype Classified = Run(parameters: Parameters) | ShowUsage(printed: seq<string>) | Reject(message: string)

  const UsageText := ["Usage: blend add <repo> <remotePath> <localPath>",
                      "       blend update",
                      "       blend commit <localPath> <message>",
                      "       blend remove <path>"]

  /** The command words `getParameters` knows. */
  predicate IsCommandWord(w: string) {
    w == "add" || w == "update" || w == "commit" || w == "remove"
  }

  /** The words that ask for the usage text without a complaint. */
  predicate IsHelpWord(w: string) {
    w == "help" || w == "--help" || w == "-h"
  }

  /** The error a command word throws when it is given the wrong number of
      arguments. */
  function ArityMessage(command: string): string {
    if command == "add" then "add requires at least 2 arguments: repo, path, (localPath)"
    else if command == "update" then "update requires 0 arguments"
    else if command == "commit" then "commit requires 2 arguments: path, message"
    else "remove requires 1 argument: path"
  }

  /** The command line that denotes `p`: the inverse of `GetParameters`. */
  function Render(p: Parameters): (argv: seq<string>)
    ensures argv != [] && IsCommandWord(argv[0])
  {
    match p
    case AddParameters(repo, remotePath, localPath) =>
      ["add", repo, remotePath] + (if localPath.Some? then [localPath.value] else [])
    case UpdateParameters => ["update"]
    case CommitParameters(commitPath, message) => ["commit", commitPath, message]
    case RemoveParameters(path) => ["remove", path]
  }

  /** `getParameters()` over `process.argv.slice(2)`. */
  function GetParameters(argv: seq<string>): (r: Classified)
    ensures r.Run? ==> |Render(r.parameters)| <= |argv| && argv[..|Render(r.parameters)|] == Render(r.parameters)
    ensures r.Run? && |Render(r.parameters)| < |argv| ==> r.parameters.AddParameters? && |argv| > 4
    ensures r.Reject? <==>
              && argv != [] && IsCommandWord(argv[0])
              && (argv[0] == "add" ==> |argv| < 3)
              && (argv[0] == "update" ==> |argv| != 1)
              && (argv[0] == "commit" ==> |argv| != 3)
              && (argv[0] == "remove" ==> |argv| != 2)
    ensures r.Reject? ==> r.message == ArityMessage(argv[0])
    ensures r.ShowUsage? <==> argv == [] || !IsCommandWord(argv[0])
  {
    if argv == [] then ShowUsage(UsageText)
    else
      var command, args := argv[0], argv[1..];
      if command == "add" then
        if |args| < 2 then Reject(ArityMessage(command))
        else Run(AddParameters(args[0], args[1], if |args| > 2 then Some(args[2]) else None))
      else if command == "update" then
        if |args| != 0 then Reject(ArityMessage(command)) else Run(UpdateParameters)
      else if command == "commit" then
        if |args| != 2 then Reject(ArityMessage(command))
        else Run(CommitParameters(args[0], args[1]))
      else if command == "remove" then
        if |args| != 1 then Reject(ArityMessage(command)) else Run(RemoveParameters(args[0]))
      else
        var complaint := if !IsHelpWord(command) then ["Unknown command: " + command + "\n"] else [];
        ShowUsage(complaint + UsageText)
  }

  /** The usage text is printed on every path that yields `null`, after a
      complaint exactly when a word is given that is not a help word. */
  lemma GetParametersUsage(argv: seq<string>)
    requires argv == [] || !IsCommandWord(argv[0])
    ensures GetParameters(argv).ShowUsage?
    ensures var printed := GetParameters(argv).printed;
            && (argv == [] || IsHelpWord(argv[0]) ==> printed == UsageText)
            && (argv != [] && !IsHelpWord(argv[0]) ==> printed == ["Unknown command: " + argv[0] + "\n"] + UsageText)
  {
  }

  /** Every parameter set is read back from the command line that denotes it. */
  lemma GetParametersRender(p: Parameters)
    ensures GetParameters(Render(p)) == Run(p)
  {
    var argv := Render(p);
    assert argv[0] == "add" <==> p.AddParameters?;
  }

  /** The arity errors, exactly: `add` takes two or three words after it (more
      are ignored), `update` none, `commit` two, `remove` one. */
  lemma GetParametersArity(command: string, args: seq<string>)
    requires IsCommandWord(command)
    ensures var r := GetParameters([command] + args);
            && (command == "add" ==> (r.Run? <==> |args| >= 2))
            && (command == "update" ==> (r.Run? <==> |args| == 0))
            && (command == "commit" ==> (r.Run? <==> |args| == 2))
            && (command == "remove" ==> (r.Run? <==> |args| == 1))
            && (r.Reject? <==> !r.Run?)
  {
    assert ([command] + args)[1..] == args;
  }

  /** `add` with extra words takes the first three and ignores the rest. */
  lemma GetParametersIgnoresExtra(repo: string, remotePath: string, localPath: string, extra: seq<string>)
    ensures GetParameters(["add", repo, remotePath, localPath] + extra) ==
            Run(AddParameters(repo, remotePath, Some(localPath)))
  {
    var argv := ["add", repo, remotePath, localPath] + extra;
    assert argv[1..][0] == repo && argv[1..][1] == remotePath && argv[1..][2] == localPath;
  }

  /** The message `commands.commit(...)` throws: the module exports no `commit`. */
  const CommitMissing := "commands.commit is not a function"

  /** `start()` with its `catch`: classify the command line, print the usage
      text or run the one command named, and exit with status 1 and the
      error's message when anything throws. */
  method Start(w: C.Workspace, argv: seq<string>, tempDir: string, yaml: ConfigTs.Yaml, tools: C.Tools)
    returns (status: nat, error: Option<string>)
    modifies w
    ensures status == 0 <==> error.None?
    ensures error.Some? ==> status == 1
    ensures match GetParameters(argv)
            case ShowUsage(printed) =>
              && w.fs == old(w.fs) && w.gitCalls == old(w.gitCalls) && w.output == old(w.output) + printed
              && status == 0
            case Reject(message) =>
              && w.fs == old(w.fs) && w.gitCalls == old(w.gitCalls) && w.output == old(w.output)
              && error == Some(message)
            case Run(UpdateParameters) =>
              w.fs == old(w.fs) && w.gitCalls == old(w.gitCalls) && w.output == old(w.output) + ["Updating..."]
              && status == 0
            case Run(RemoveParameters(path)) =>
              w.fs == old(w.fs) && w.gitCalls == old(w.gitCalls) && w.output == old(w.output) + ["Removing: " + path]
              && status == 0
            case Run(CommitParameters(_, _)) =>
              && w.fs == old(w.fs) && w.gitCalls == old(w.gitCalls) && w.output == old(w.output)
              && error == Some(CommitMissing)
            case Run(AddParameters(repo, remotePath, localPath)) =>
              var f := C.AddFailure(C.Cloned(old(w.fs), repo, tempDir, tools), w.cwd, repo, remotePath,
                                    localPath.GetOr(""), tempDir, yaml, tools);
              && w.gitCalls == old(w.gitCalls) + C.ClonePlan(repo, tempDir)
              && error == if f.Some? then Some(f.value.Message()) else None
  {
    var parameters := GetParameters(argv);
    match parameters
    case ShowUsage(printed) =>
      w.output := w.output + printed;
      return 0, None;
    case Reject(message) =>
      return 1, Some(message);
    case Run(p) =>
      match p
      case AddParameters(repo, remotePath, localPath) =>
        var r := w.Add(repo, remotePath, localPath.GetOr(""), tempDir, yaml, tools);
        if r.Err? {
          return 1, Some(r.error.Message());
        }
        return 0, None;
      case UpdateParameters =>
        w.Update();
        return 0, None;
      case CommitParameters(_, _) =>
        return 1, Some(CommitMissing);
      case RemoveParameters(path) =>
        w.Remove(path);
        return 0, None;
  }
}
