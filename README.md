# blend: manifest, block-comment extractor, `add` and the command line

blend vendors fragments of other git repositories into a project. It records
each fragment in a manifest, `blend.yml`. A manifest record gives the source
repository, the commit hash, the path inside that repository and the local
path. The program exists in two versions, TypeScript and Rust. This Dafny
project models the core they share:

- **The manifest** (`manifest.dfy`). These are the `Dependency`, `Hooks` and
  `Config` records. `addDependencyIfNotExists` is the rule that adds a
  record unless its local path is already taken. Its properties are proved as
  lemmas: local paths stay unique, a new record goes last and earlier records
  keep their order, and the other fields carry over unchanged. A duplicate
  changes nothing, and adding twice is the same as adding once.
- **The TypeScript configuration** (`config_ts.dfy`). The JavaScript objects
  are classes, so the shallow spread copy is modelled. It shares the
  caller's dependency array, which the push extends in place. The regular
  expression `/\/\*(.*?)\*\//s` becomes a search for the first opening
  delimiter and the next closing delimiter. Lemmas prove that this is the
  leftmost lazy match. `getConfig` works over an abstract file system.
- **The Rust configuration** (`config_rs.dfy`). `Config` is a class, and
  `add_dependency_if_not_exists` mutates it in place. The line loop of
  `extract_first_block_comment` is a `while` loop. It is proved equal to a
  closed-form specification (`block_comment.dfy`). `BufRead::lines` is
  modelled too, and so is `get_config`, with its exact diagnostics and its
  panic.
- **Comparing the extractors** (`block_comment.dfy`). The two versions
  agree when the comment closes on its opening line. On a multi-line
  comment the texts they collect before trimming differ by exactly the line
  feed after the opening line's remainder. After trimming the results may
  still agree (for the lines `/*`, `b*/` both give `b`), and a concrete input
  shows that they can differ.
- **Commands** (`commands.dfy`):
  - the locator split `<url>#<branch>`;
  - the git commands a clone issues;
  - TypeScript `add` as a transition of a `Workspace` object (file system,
    git calls, printed lines) proved against the manifest rule;
  - `update` and `remove`;
  - the manifest step of Rust `add_repo`;
  - the copy dispatch.
- **The command line** (`cli.dfy`). `getParameters` classifies argv. Its
  inverse is `Render`, with a proved round trip. `start` dispatches the
  command and exits with status 1 and the message on error.

The git commands, the YAML libraries and the recursive copy are function-valued
parameters (`Tools`, `Yaml`, `Serde`). The model says when each is called and
what with, but not what it does inside. Paths join as `dir + "/" + name`.

The test at __tests__/cli.spec.ts:69-86 calls `add` without a local path
and expects the record to carry `localPath: 'test.txt'`, the remote path. The
code does not default it: an absent local path stays absent, and the copy goes
to the working directory. The model follows the code and records an absent
local path as `""`.

## Model

| member | source | states |
|---|---|---|
| Manifest.HasLocalPath | src/config.ts:54 | true exactly when some record of the list has the given local path; no other field is compared |
| Manifest.AddDependencyIfAbsent | src/config.ts:49-60 | name, description and hooks are carried over unchanged and the result always has a dependency list |
| Manifest.AddToAbsentList | src/config.rs:42-44 | a manifest without a dependency list ends with exactly `[dependency]` |
| Manifest.AddDuplicateIsNoOp | src/config.rs:37-41 | a record with the same local path, whatever its other fields, leaves the manifest exactly as it was |
| Manifest.AddAppendsLast | src/config.ts:54-55 | a record with a new local path goes last and the earlier records keep their order |
| Manifest.AddContents | src/config.ts:49-60 | afterwards some record has the local path, and every record was there before or is the new one |
| Manifest.AddKeepsLocalPathsUnique | src/config.rs:35-45 | pairwise-distinct local paths stay pairwise distinct |
| Manifest.AddIdempotent | src/config.ts:49-60 | adding the same record twice equals adding it once |
| ConfigTs.DependencyArray.Push | src/config.ts:55 | `push` appends the record to the array's elements |
| ConfigTs.DependencyArray.PushNothing | src/commands.ts:38 | `push()` with no arguments leaves the array as it was |
| ConfigTs.FromValue | src/commands.ts:26-31 | builds a fresh object graph that denotes the given manifest |
| ConfigTs.AddDependencyIfNotExists | src/config.ts:49-60 | the result denotes the merged manifest; a shared array is extended in place, so the caller's object gains the record too; a missing array is created fresh for the result alone; the notice is printed exactly for a taken local path |
| ConfigTs.MatchBlockComment | src/config.ts:29-30 | a match is text lying between an opening delimiter and a closing one, and holds no closing delimiter |
| ConfigTs.ExtractFirstBlockComment | src/config.ts:26-31 | there is a result exactly when the regular expression matches; it holds no closing delimiter and neither starts nor ends with white space |
| ConfigTs.ExtractFindsAnyMatch | src/config.ts:29-31 | there is a result exactly when some opening delimiter has a closing one at least two characters later |
| ConfigTs.ExtractIsFirstMatch | src/config.ts:29-31 | the result is the trimmed text of the leftmost lazy match, and it never contains a closing delimiter |
| ConfigTs.ParseConfig | src/config.ts:41-43 | the manifest `yaml.load` yields, or an error carrying the parser's message when it throws on malformed YAML |
| ConfigTs.GetConfig | src/config.ts:61-75 | a missing path is rejected by `stat`; a directory is read through its blend.yml ("File not found" when that is absent); a file needs a non-empty first block comment ("No YAML found"); malformed YAML in either rejects the call with the parser's message |
| ConfigTs.GetConfigOfComment | src/config.ts:72-74 | a file with a block comment is parsed through that comment, or rejected when the comment is empty or its YAML is malformed |
| ConfigTs.GetConfigNeedsComment | src/config.ts:72-74 | a file whose text has no opening delimiter is always rejected with "No YAML found" |
| Text.IndexOf | src/config.rs:67-77 | the first index at or after the start where the pattern occurs, and nothing when it occurs nowhere from there (`find`, and the search behind the regular expression) |
| Text.Trim | src/config.ts:31 | the result is no longer than the input and neither starts nor ends with white space of the runtime (`trim()` in both versions) |
| Text.TrimIsSlice | src/config.rs:69 | the result is a slice of the input that neither starts nor ends with white space, and everything cut off on either side is white space |
| Text.Split | src/commands.ts:10 | the segments hold no separator, and joining them with it gives the input back |
| Text.TrimAgrees | src/config.rs:69 | the JavaScript and the Rust `trim` agree on text without U+0085 and U+FEFF |
| BlockComment.FirstLineWithSpec | src/config.rs:64-74 | the line found holds the pattern, no earlier line does, and when no line is found none holds it |
| BlockComment.ExtractFromLinesNone | src/config.rs:64-84 | nothing comes back exactly when no line opens a block, or when the block is never closed |
| BlockComment.Step | src/config.rs:66-81 | one pass of the loop body: a closed block absorbs every line, an open block never goes back to outside, the collected text is kept as a prefix, and the state stays outside only on a line without an opening delimiter |
| BlockComment.ScanStep | src/config.rs:64-82 | the closed-form state after one more line is one loop step from the state before it |
| BlockComment.ScannedIsScanOf | src/config.rs:64-82 | the loop's state after `n` lines is the closed-form state of those lines |
| BlockComment.ScannedStaysClosed | src/config.rs:69 | once the block is closed, later lines change nothing |
| BlockComment.ExtractIgnoresLaterLines | src/config.rs:79 | lines after the closing delimiter do not change the result |
| BlockComment.SameLineComment | src/config.rs:74-80 | a comment closed on its opening line yields the text strictly between the delimiters in both versions; the two results are equal without U+0085 and U+FEFF |
| BlockComment.MultiLineComment | src/config.rs:66-76 | before trimming, a multi-line comment is the opening line's remainder, each middle line with its line feed, and the closing line's prefix; the regular expression's text also keeps the line feed after the remainder |
| BlockComment.MultiLineWitness | src/config.rs:76 | on the lines `/*a`, `b*/` the Rust version returns `ab` and the TypeScript version returns `a\nb` |
| ConfigRs.Config.AddDependencyIfNotExists | src/config.rs:35-45 | the struct afterwards holds the merged manifest, and the notice is printed exactly for a taken local path in an existing list |
| ConfigRs.ExtractFirstBlockComment | src/config.rs:57-85 | the loop returns exactly the specified comment of the lines |
| ConfigRs.DropCarriageReturn | src/config.rs:64 | a line ended by a line feed loses exactly one trailing carriage return when it has one, and is kept otherwise |
| ConfigRs.ReaderLines | src/config.rs:64 | an empty file has no lines, and any other file has at least one |
| ConfigRs.ReaderLinesCrlf | src/config.rs:64 | a line ended by `\r\n` is read without both, and the rest is read after it |
| ConfigRs.ReaderLinesUnended | src/config.rs:64 | a last line without a line feed is read whole, a trailing carriage return included |
| ConfigRs.ReaderLinesOfJoined | src/config.rs:64 | reading lines back from the text they make, each ended by a line feed, yields those lines |
| ConfigRs.ReaderLinesCons | src/config.rs:64 | the first line, up to its line feed, is read whole and the rest is read after it |
| ConfigRs.GetConfig | src/config.rs:87-114 | each failure prints its own diagnostic and returns `None`; a directory is read through blend.yml; a file is read through its first block comment; a comment that the parser rejects panics |
| ConfigRs.GetConfigPanicsOnlyOnBadComment | src/config.rs:104-105 | it panics exactly when a file's block comment is found and the parser rejects it |
| ConfigRs.GetConfigDirectoryAgrees | src/config.rs:90-101 | for a directory, when the YAML libraries agree, the Rust result is found exactly where TypeScript loads a manifest, and it is the same one; a TypeScript error, malformed YAML included, becomes `None` |
| ConfigRs.GetConfigSameLineAgrees | src/config.rs:103-108 | for a file whose comment closes on its opening line, both versions load the same manifest, except that TypeScript rejects an empty comment; where TypeScript rejects malformed YAML, Rust panics |
| ConfigRs.GetConfigOfComment | src/config.rs:104-105 | a file with a block comment yields the parsed manifest, or the panic when the parser rejects it |
| Commands.SplitLocator | src/commands.ts:10 | the URL is the text before the first `#`; the branch is the text between the first and the second `#`, or empty; neither holds a `#` |
| Commands.SplitLocatorOfParts | src/commands.ts:10 | `url`, `url#branch` and `url#branch#more` split into `url` and `branch` (or `""`) |
| Commands.SplitLocatorIs | src/commands.rs:37-39 | only one split has the properties that SplitLocator promises |
| Commands.ClonePlan | src/commands.ts:9-15 | the clone gets the URL without the branch; a checkout inside the clone follows exactly when the branch is non-empty |
| Commands.Cloned | src/commands.ts:9-15 | the file system after the clone is what the planned git commands produce when run in order |
| Commands.CloneRepo | src/commands.rs:36-44 | clones the URL, then checks out a non-empty branch in the process's working directory |
| Commands.CloneRepoMatchesClonePlan | src/commands.rs:40-43 | both versions clone alike; the checkouts differ unless the working directory is the clone |
| Commands.LoadLocalConfig | src/commands.ts:26-31 | the load through the working directory (see Findings) fails exactly when `getConfig` throws, with the same error |
| Commands.LoadLocalConfigReadsManifest | src/commands.ts:25-31 | through the working directory, blend.yml is parsed as YAML, with the empty manifest when the parse is falsy; malformed YAML rejects the load with the parser's message; a missing blend.yml is "File not found" |
| Commands.LoadLocalConfigAsWritten | src/commands.ts:25-26 | the load as written fails exactly when `getConfig` on the path of blend.yml fails, and succeeds only when blend.yml holds a block comment |
| Commands.AddAsWrittenRejectsManifest | src/commands.ts:25-26 | as written, a manifest in plain YAML is rejected with "No YAML found", and a missing one is rejected by `stat` |
| Commands.LocalDir | src/commands.ts:47 | the destination is `cwd/localPath`, or `cwd` when the local path is empty |
| Commands.MergeRecord | src/commands.ts:26-38 | the object steps amount to the manifest rule; the notice comes exactly for a taken local path |
| Commands.AddFailure | src/commands.ts:17-51 | a failed load ends `add` with that error, and a failed copy can end it only after a successful load |
| Commands.Workspace.CloneRepoAndCheckout | src/commands.ts:9-15 | the file system is the clone followed by the checkout of a non-empty branch, and the git calls are the plan |
| Commands.Workspace.Add | src/commands.ts:17-51 | after the clone, a load error (malformed YAML included) rejects the command and leaves the clone; otherwise the record (verbatim locator, tip hash of the clone, both paths) is merged into the manifest loaded through the working directory (see Findings) or the default one, and that manifest is written before the copy to the destination; a failed copy rejects the command with blend.yml already written |
| Commands.Workspace.Update | src/commands.ts:53-55 | only prints; files and git calls are unchanged |
| Commands.Workspace.Remove | src/commands.ts:57-59 | only prints the path; files and git calls are unchanged |
| Commands.AddWritesMergedManifest | src/commands.ts:26-40 | with a YAML manifest in the working directory, add writes its records plus the new one last, or the records unchanged when the local path is taken; local paths stay unique |
| Commands.LocalDirRs | src/commands.rs:76-79 | the destination is the working directory without a local path, and agrees with the TypeScript one for a non-empty local path |
| Commands.RepoRecord | src/commands.rs:52-68 | the record holds the locator as given, the tip hash of the clone, the remote path and the local path, `""` when absent |
| Commands.AddRepoConfig | src/commands.rs:52-70 | with the load through the working directory (see Findings), a panic of `get_config` stops the step; otherwise blend.yml gets the serialised merge of the record of the clone into the found or default manifest |
| Commands.LoadLocalConfigRsAsWritten | src/commands.rs:57 | the load as written finds a manifest only when blend.yml holds a block comment |
| Commands.AddRepoAsWrittenDropsRecords | src/commands.rs:55-62 | as written, a YAML manifest yields "No yaml found", so only the new record is written |
| Commands.AddRepoKeepsRecords | src/commands.rs:57-68 | through the working directory, the recorded records stay first and in their order |
| Commands.CopyFileOrDirectory | src/commands.rs:11-34 | a directory is copied as a directory and any other entry as a file; a source without metadata copies nothing and prints the diagnostic |
| Cli.GetParameters | src/index.ts:27-63 | parameters are the leading words of argv; extra words occur only after `add`; arity errors come exactly for a known word with the wrong count, each with its command's message; usage comes exactly for no word or an unknown one |
| Cli.GetParametersUsage | src/index.ts:55-62 | the usage text is printed on every null path, after "Unknown command" exactly when a word other than a help word is given |
| Cli.GetParametersRender | src/index.ts:30-53 | every parameter set is read back from the command line that denotes it |
| Cli.GetParametersArity | src/index.ts:30-53 | `add` needs at least two more words, `update` none, `commit` two and `remove` one; any other count is rejected |
| Cli.GetParametersIgnoresExtra | src/index.ts:34-35 | `add` takes repo, remote path and local path from the next three words and ignores the rest |
| Cli.Start | src/index.ts:65-84 | usage paths run nothing; otherwise exactly the named command runs with the fields unchanged; every error exits with status 1 and its message, for `add` the load or copy error; `commit` fails because the function is missing |

## Left out

- Process spawning and the git commands are not modelled: `clone`, `checkout` and `rev-parse` are the uninterpreted functions of `Tools`. Whether git succeeds is not modelled. The recursive copy is uninterpreted too, but it may fail with a message.
- `Tools.latestHash` stands for both `latestHash` (src/utils/git/latestHash.ts) and `git::latest_hash` (src/git.rs:29, the first whitespace-separated word of the output, which panics when there is none). The difference between the two and that panic are not modelled.
- YAML is not modelled beyond its outcomes. `js-yaml` and `serde_yaml` are the function parameters `Yaml` and `Serde`: the first may throw or yield a falsy value, the second may fail. The model proves no serialisation round trip.
- Commands.Workspace.Add: `parseConfig` (src/config.ts:41-43) casts whatever `yaml.load` yields without a check, but the model's `Yaml.load` yields only a manifest or nothing. So a truthy document that is not a manifest is not modelled: a scalar, a list, or `dependencies: 3`. In the source it is spread into an unusable manifest, or makes `.some` (src/config.ts:54) throw a TypeError that rejects `add`.
- Commands.Workspace.Add: a rejected `fs.promises.writeFile` (src/commands.ts:40) is not modelled. The write of blend.yml always succeeds in the model, so `add` fails only on the load or the copy.
- File reading is only partly modelled. Unreadable files, invalid UTF-8 and the read errors inside both extractors are left out. So is the TypeScript extractor's `console.error`.
- Temporary directories are left out. The directory is a parameter (`tempDir`), and its creation, cleanup and the listing of its entries (src/commands.ts:43-45, src/commands.rs:72-75) are not modelled.
- Path normalisation is left out. `path.join` and `PathBuf::push` are plain `dir + "/" + name`, and `{:?}` only adds double quotes, without escapes.
- The unused `packageConfig` load (src/commands.rs:54) and the commented-out one (src/commands.ts:24) are left out.
- Rust `add_repo` does not type-check, so only its intended manifest step is modelled. The record's `local_path` is written as `""` when absent (Commands.RepoRecord), and `if Some(local_path)` is read as `if let Some(local_path)`. Its panics on write and copy failures are not modelled.
- Commands.CopyFileOrDirectory: the printed listing of a source directory's entries and the "Copying directory" and "Copying file" lines (src/commands.rs:14-18,28) are not modelled, nor are the `expect` panics on a failed listing or copy.
- Rust `update` and `remove` (src/commands.rs:84-90) and `main.rs` (clap) are not part of this model.
- ConfigRs.GetConfig: the panic message is only the `expect` text, without the parser's error appended.
- Cli.Start: for `add` it states only the git calls, the exit status and the error message. The files and printed lines are as Commands.Workspace.Add states them.
- Cli.Start: an absent local path is passed to `add` as `""`, where src/index.ts:70 passes `undefined`. This leaves three effects of the source unmodelled:
  - the duplicate notice prints "local path undefined" (src/config.ts:57), not an empty path;
  - `dep.localPath === dependency.localPath` (src/config.ts:54) does not treat `undefined` as equal to a recorded `localPath: ''`, so the source appends where the model reports a duplicate;
  - `yaml.dump` leaves the undefined key out of the manifest.
- Commands.Workspace.Add: what the copy writes is the uninterpreted `Tools.copy`. So the result says only that the copy comes after the manifest write and gets the source and destination.
- Commands.CopyFileOrDirectory: it states which copy is chosen, not what the copy writes.
- The defaulting of `localPath` to `remotePath` and the "already exists" rejections that the tests expect are not modelled: the code shown does neither.

## Findings

| source | as written | input that shows it | evidently intended | confidence | as-written member | corrected member |
|---|---|---|---|---|---|---|
| src/commands.ts:25-26 | `getConfig` is given the path of blend.yml itself, so it looks for a block comment in the YAML | a working directory whose blend.yml is `dependencies: []` and a line feed: add is rejected with "No YAML found in file at: …/blend.yml" | `getConfig(process.cwd())`, which reads blend.yml as YAML (the add tests expect success) | not executed | Commands.AddAsWrittenRejectsManifest | Commands.LoadLocalConfigReadsManifest |
| src/commands.rs:57 | `get_config` is given the path of blend.yml itself; it finds no block comment and falls back to the empty manifest | a YAML manifest with records whose text holds no `/*` (no local path such as `src/*`): the manifest written holds only the new record | `get_config` of the working directory, keeping the recorded records | not executed | Commands.AddRepoAsWrittenDropsRecords | Commands.AddRepoKeepsRecords |
