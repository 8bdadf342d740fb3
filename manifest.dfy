/** The manifest (`blend.yml`) as a value: its records, and the rule by which
    `add` merges a new dependency record into it. Both the TypeScript and the
    Rust versions of the program share this data model; they differ only in
    how they mutate it (config_ts.dfy, config_rs.dfy). */
module Manifest {
  import opened Common

  /** One vendored fragment: where it comes from, at which revision, and where it lives locally.
      `localPath` is the record's identity key in a manifest. */
  datatype Dependency = Dependency(repo: string, hash: string, remotePath: string, localPath: string)

  /** Lifecycle hook commands; the program stores them and never runs them. */
  datatype Hooks = Hooks(preinstall: Option<string>, postinstall: Option<string>,
                         preuninstall: Option<string>, postuninstall: Option<string>)

  /** The manifest. Every field is optional, the dependency list included. */
  datatype Config = Config(name: Option<string>, description: Option<string>,
                           hooks: Option<Hooks>, dependencies: Option<seq<Dependency>>)

  /** The manifest `add` starts from when there is no usable one. */
  const EmptyConfig := Config(None, None, None, Some([]))

  /** The records of a manifest; an absent list has none. */
  function Dependencies(c: Config): seq<Dependency> {
    c.dependencies.GetOr([])
  }

  /** Some record already uses local path `lp` (`deps.some(dep => dep.localPath === lp)`,
      `deps.iter().any(|dep| dep.local_path == lp)`). */
  function HasLocalPath(deps: seq<Dependency>, lp: string): (b: bool)
    ensures b <==> exists i :: 0 <= i < |deps| && deps[i].localPath == lp
  {
    if deps == [] then false else deps[0].localPath == lp || HasLocalPath(deps[1..], lp)
  }

  /** No two records share a local path. */
  predicate UniqueLocalPaths(deps: seq<Dependency>) {
    forall i, j :: 0 <= i < j < |deps| ==> deps[i].localPath != deps[j].localPath
  }

  /** The notice both versions print when a record is not added. */
  function AlreadyExistsNotice(lp: string): string {
    "Dependency with local path " + lp + " already exists. Dependency not added."
  }

  /** The manifest after adding `d`: an absent list becomes `[d]`; otherwise `d` is
      appended unless some record already has its local path. */
  function AddDependencyIfAbsent(c: Config, d: Dependency): (r: Config)
    ensures r.name == c.name && r.description == c.description && r.hooks == c.hooks
    ensures r.dependencies.Some?
  {
    var deps := Dependencies(c);
    if HasLocalPath(deps, d.localPath) then c else c.(dependencies := Some(deps + [d]))
  }

  /** A manifest without a dependency list gets exactly the new record. */
  lemma AddToAbsentList(c: Config, d: Dependency)
    requires c.dependencies.None?
    ensures AddDependencyIfAbsent(c, d).dependencies == Some([d])
  {
    assert Dependencies(c) + [d] == [d];
  }

  /** A record with the same local path, whatever its other fields, blocks the
      addition: the manifest comes back as it was. */
  lemma AddDuplicateIsNoOp(c: Config, d: Dependency, i: nat)
    requires i < |Dependencies(c)| && Dependencies(c)[i].localPath == d.localPath
    ensures AddDependencyIfAbsent(c, d) == c
  {
  }

  /** Otherwise the record goes last and the earlier records keep their order. */
  lemma AddAppendsLast(c: Config, d: Dependency)
    requires forall i :: 0 <= i < |Dependencies(c)| ==> Dependencies(c)[i].localPath != d.localPath
    ensures var r := Dependencies(AddDependencyIfAbsent(c, d));
            |r| == |Dependencies(c)| + 1 && r[|r| - 1] == d && r[..|r| - 1] == Dependencies(c)
  {
  }

  /** After the call the manifest always has a record with d's local path, and
      every record it has was already there or is `d`. */
  lemma AddContents(c: Config, d: Dependency)
    ensures var r := Dependencies(AddDependencyIfAbsent(c, d));
            && (exists i :: 0 <= i < |r| && r[i].localPath == d.localPath)
            && (forall i :: 0 <= i < |r| ==> r[i] == d || r[i] in Dependencies(c))
  {
    var deps := Dependencies(c);
    if !HasLocalPath(deps, d.localPath) {
      var r := deps + [d];
      assert r[|deps|] == d;
    }
  }

  /** Local-path uniqueness is an invariant of adding. */
  lemma AddKeepsLocalPathsUnique(c: Config, d: Dependency)
    requires UniqueLocalPaths(Dependencies(c))
    ensures UniqueLocalPaths(Dependencies(AddDependencyIfAbsent(c, d)))
  {
    var deps := Dependencies(c);
    if !HasLocalPath(deps, d.localPath) {
      var r := deps + [d];
      forall i, j | 0 <= i < j < |r| ensures r[i].localPath != r[j].localPath {
        if j == |deps| {
          assert r[i] == deps[i];
        }
      }
    }
  }

  /** Adding the same record twice is adding it once. */
  lemma AddIdempotent(c: Config, d: Dependency)
    ensures AddDependencyIfAbsent(AddDependencyIfAbsent(c, d), d) == AddDependencyIfAbsent(c, d)
  {
    var deps := Dependencies(c);
    if !HasLocalPath(deps, d.localPath) {
      var r := deps + [d];
      assert r[|deps|].localPath == d.localPath;
    }
  }
}
