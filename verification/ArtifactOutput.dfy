/** Publishing JSON artifacts: stage all, rename all, roll back on failure, over an abstract file map. */
module ArtifactOutput {
  import opened Machine

  /** A file by its target name, or inside a staging directory. */
  datatype Path = Plain(name: string) | Inside(directory: nat, name: string)

  type Files = map<Path, string>

  function Get(files: Files, path: Path): (content: Option<string>) {
    if path in files then Some(files[path]) else None
  }

  /** An operation on the file system, as far as a failed one is reported. */
  datatype Operation =
    | MakingDirectory
    | Writing(path: Path)
    | Linking(source: Path, target: Path)
    | Renaming(source: Path, target: Path)
    | Removing(path: Path)
    | RemovingDirectory(directory: nat)

  /** A single-owner file system. Every operation may fail, and then it has changed nothing but staging content. */
  class FileSystem {
    var files: Files
    var directories: set<nat>
    var next: nat
    /** Every operation that failed so far, oldest first. */
    ghost var failures: seq<Operation>

    ghost predicate Valid()
      reads this
    {
      && (forall path :: path in files && path.Inside? ==> path.directory in directories)
      && forall d :: d in directories ==> d < next
    }

    constructor (files: Files, directories: set<nat>, next: nat)
      requires forall path :: path in files && path.Inside? ==> path.directory in directories
      requires forall d :: d in directories ==> d < next
      ensures Valid() && this.files == files && this.directories == directories && failures == []
    {
      this.files, this.directories, this.next := files, directories, next;
      failures := [];
    }

    /** `mkdtemp`: a new empty directory. */
    method MakeDirectory() returns (directory: Option<nat>)
      requires Valid()
      modifies this
      ensures Valid() && files == old(files)
      ensures failures == old(failures) + if directory.Some? then [] else [MakingDirectory]
      ensures directory.None? ==> directories == old(directories)
      ensures directory.Some? ==>
                directory.value !in old(directories) && directories == old(directories) + {directory.value}
    {
      var ok: bool := *;
      if !ok {
        failures := failures + [MakingDirectory];
        return None;
      }
      directory := Some(next);
      directories, next := directories + {next}, next + 1;
    }

    /** Write a staged file; a failure may leave part of it. */
    method Write(path: Path, content: string) returns (ok: bool)
      requires Valid() && path.Inside? && path.directory in directories
      modifies this`files, this`failures
      ensures failures == old(failures) + if ok then [] else [Writing(path)]
      ensures Valid() && (forall other :: other != path ==> Get(files, other) == Get(old(files), other))
      ensures ok ==> Get(files, path) == Some(content)
    {
      ok := *;
      var written: nat :| written <= |content|;
      files := files[path := if ok then content else content[..written]];
      if !ok {
        failures := failures + [Writing(path)];
      }
    }

    /** A second name for the same content. */
    method Link(source: Path, target: Path) returns (ok: bool)
      requires Valid() && source in files && target.Inside? && target.directory in directories
      modifies this`files, this`failures
      ensures failures == old(failures) + if ok then [] else [Linking(source, target)]
      ensures Valid() && files == if ok then old(files)[target := old(files)[source]] else old(files)
    {
      ok := *;
      if ok {
        files := files[target := files[source]];
      } else {
        failures := failures + [Linking(source, target)];
      }
    }

    method Rename(source: Path, target: Path) returns (ok: bool)
      requires Valid() && source in files && target.Plain? && source != target
      modifies this`files, this`failures
      ensures failures == old(failures) + if ok then [] else [Renaming(source, target)]
      ensures Valid() && files == if ok then (old(files) - {source})[target := old(files)[source]] else old(files)
    {
      ok := *;
      if ok {
        files := (files - {source})[target := files[source]];
      } else {
        failures := failures + [Renaming(source, target)];
      }
    }

    method Remove(path: Path) returns (ok: bool)
      requires Valid()
      modifies this`files, this`failures
      ensures failures == old(failures) + if ok then [] else [Removing(path)]
      ensures Valid() && files == if ok then old(files) - {path} else old(files)
    {
      ok := *;
      if ok {
        files := files - {path};
      } else {
        failures := failures + [Removing(path)];
      }
    }

    /** Remove a staging directory with its content, or report that it is still there with some of it. */
    method RemoveDirectory(directory: nat) returns (ok: bool)
      requires Valid()
      modifies this`files, this`directories, this`failures
      ensures Valid()
      ensures failures == old(failures) + if ok then [] else [RemovingDirectory(directory)]
      ensures directories == if ok then old(directories) - {directory} else old(directories)
      ensures Outside(files, directory) == Outside(old(files), directory)
    {
      ok := *;
      if ok {
        files, directories := Outside(files, directory), directories - {directory};
      } else {
        var lost: set<Path> := *;
        files := Outside(files, directory) + (files - lost);
        failures := failures + [RemovingDirectory(directory)];
      }
    }
  }

  /** The files that are not in a directory. */
  function Outside(files: Files, directory: nat): (r: Files) {
    map path | path in files && !(path.Inside? && path.directory == directory) :: files[path]
  }

  // ----- the protocol's records

  datatype JsonArtifact = JsonArtifact(path: string, document: string)

  datatype StagedArtifact = StagedArtifact(target: string, directory: Option<nat>, hasPrevious: bool, published: bool,
                                           preserveBackup: bool)

  const DOCUMENT: string := "document"
  const PREVIOUS: string := "previous"

  datatype PathError = InvalidPath | NotRegular | AliasesInput | DuplicateOutput

  /** What the file system says about names: their canonical form, existing pairs of one file, and special files. */
  datatype Naming = Naming(canonical: string -> string, equivalent: (string, string) -> bool, special: string -> bool)

  predicate Aliases(naming: Naming, left: string, right: string) {
    naming.canonical(left) == naming.canonical(right) || naming.equivalent(left, right)
  }

  predicate ValidPath(path: string) {
    path != "" && path != "-" && forall i :: 0 <= i < |path| ==> path[i] as int != 0
  }

  /** Usable targets that are no special file, alias no input and do not alias one another. */
  predicate PathsValid(naming: Naming, inputs: seq<string>, artifacts: seq<JsonArtifact>) {
    && (forall i :: 0 <= i < |artifacts| ==>
          && ValidPath(artifacts[i].path) && !naming.special(artifacts[i].path)
          && forall k :: 0 <= k < |inputs| ==> !Aliases(naming, artifacts[i].path, inputs[k]))
    && forall i, j :: 0 <= j < i < |artifacts| ==> !Aliases(naming, artifacts[i].path, artifacts[j].path)
  }

  lemma PathsExactly(naming: Naming, inputs: seq<string>, artifacts: seq<JsonArtifact>)
    ensures PathsValid(naming, inputs, artifacts)
            <==> && (forall i :: 0 <= i < |artifacts| ==>
                       && artifacts[i].path !in {"", "-"} && (0 as char) !in artifacts[i].path
                       && !naming.special(artifacts[i].path)
                       && forall k :: 0 <= k < |inputs| ==>
                            && naming.canonical(artifacts[i].path) != naming.canonical(inputs[k])
                            && !naming.equivalent(artifacts[i].path, inputs[k]))
                 && forall i, j :: 0 <= j < i < |artifacts| ==>
                      && naming.canonical(artifacts[i].path) != naming.canonical(artifacts[j].path)
                      && !naming.equivalent(artifacts[i].path, artifacts[j].path)
  {
    forall i | 0 <= i < |artifacts|
      ensures ValidPath(artifacts[i].path) <==> artifacts[i].path !in {"", "-"} && (0 as char) !in artifacts[i].path
    {
    }
  }

  /** Reject unusable, special, aliasing and duplicate paths. */
  method ValidatePaths(naming: Naming, inputs: seq<string>, artifacts: seq<JsonArtifact>)
    returns (error: Option<PathError>)
    ensures error.None? <==> PathsValid(naming, inputs, artifacts)
    ensures error.None?
            <==> && (forall i :: 0 <= i < |artifacts| ==>
                       && artifacts[i].path !in {"", "-"} && (0 as char) !in artifacts[i].path
                       && !naming.special(artifacts[i].path)
                       && forall k :: 0 <= k < |inputs| ==>
                            && naming.canonical(artifacts[i].path) != naming.canonical(inputs[k])
                            && !naming.equivalent(artifacts[i].path, inputs[k]))
                 && forall i, j :: 0 <= j < i < |artifacts| ==>
                      && naming.canonical(artifacts[i].path) != naming.canonical(artifacts[j].path)
                      && !naming.equivalent(artifacts[i].path, artifacts[j].path)
    ensures match error
            case None => true
            case Some(InvalidPath) => exists i :: 0 <= i < |artifacts| && !ValidPath(artifacts[i].path)
            case Some(NotRegular) => exists i :: 0 <= i < |artifacts| && naming.special(artifacts[i].path)
            case Some(AliasesInput) =>
              exists i, k :: 0 <= i < |artifacts| && 0 <= k < |inputs| && Aliases(naming, artifacts[i].path, inputs[k])
            case Some(DuplicateOutput) =>
              exists i, j :: 0 <= j < i < |artifacts| && Aliases(naming, artifacts[i].path, artifacts[j].path)
  {
    PathsExactly(naming, inputs, artifacts);
    hide ValidPath, Aliases;
    for index := 0 to |artifacts|
      invariant PathsValid(naming, inputs, artifacts[..index])
    {
      var path := artifacts[index].path;
      assert artifacts[..index + 1] == artifacts[..index] + [artifacts[index]];
      if !ValidPath(path) {
        return Some(InvalidPath);
      }
      if naming.special(path) {
        return Some(NotRegular);
      }
      for input := 0 to |inputs|
        invariant forall k :: 0 <= k < input ==> !Aliases(naming, path, inputs[k])
      {
        if Aliases(naming, path, inputs[input]) {
          return Some(AliasesInput);
        }
      }
      for earlier := 0 to index
        invariant forall k :: 0 <= k < earlier ==> !Aliases(naming, path, artifacts[k].path)
      {
        if Aliases(naming, path, artifacts[earlier].path) {
          return Some(DuplicateOutput);
        }
      }
    }
    assert artifacts[..|artifacts|] == artifacts;
    error := None;
  }

  // ----- the state in between

  /** What existed before: its files and staging directories. */
  datatype Before = Before(files: Files, directories: set<nat>)

  /** Records are for the artifacts in order, with distinct new directories. */
  ghost predicate Records(staged: seq<StagedArtifact>, artifacts: seq<JsonArtifact>, before: Before) {
    && |staged| <= |artifacts|
    && (forall k :: 0 <= k < |staged| ==>
          staged[k].target == artifacts[k].path
          && (staged[k].directory.Some? ==> staged[k].directory.value !in before.directories))
    && forall j, k :: 0 <= j < k < |staged| && staged[j].directory.Some? ==> staged[j].directory != staged[k].directory
  }

  /** A published target holds its document and LF; an unpublished one is as before. */
  ghost predicate TargetState(item: StagedArtifact, artifact: JsonArtifact, before: Before, files: Files) {
    Get(files, Plain(item.target))
    == if item.published then Some(artifact.document + "\n") else Get(before.files, Plain(item.target))
  }

  /** The backup of an existing target is kept from the moment it is recorded. */
  ghost predicate BackupState(item: StagedArtifact, before: Before, files: Files) {
    && (item.published ==> item.directory.Some? && (item.hasPrevious <==> Plain(item.target) in before.files))
    && (item.hasPrevious ==> item.directory.Some? && Plain(item.target) in before.files
                             && Get(files, Inside(item.directory.value, PREVIOUS))
                                == Get(before.files, Plain(item.target)))
  }

  /** Whatever is neither a target nor new staging is untouched. */
  ghost predicate OthersUntouched(staged: seq<StagedArtifact>, before: Before, files: Files) {
    forall path: Path ::
      ((path.Plain? && !Targets(staged, path.name)) || (path.Inside? && path.directory in before.directories)) ==>
      Get(files, path) == Get(before.files, path)
  }

  predicate Targets(staged: seq<StagedArtifact>, name: string) {
    exists k :: 0 <= k < |staged| && staged[k].target == name
  }

  /** Staging directories are those of the records, on top of what existed. */
  ghost predicate StagingIs(staged: seq<StagedArtifact>, before: Before, directories: set<nat>) {
    forall d: nat :: d in directories <==> d in before.directories || Stages(staged, d)
  }

  predicate Stages(staged: seq<StagedArtifact>, d: nat) {
    exists k :: 0 <= k < |staged| && staged[k].directory == Some(d)
  }

  /** The invariant of staging, publishing and rollback. */
  ghost predicate Midway(staged: seq<StagedArtifact>, artifacts: seq<JsonArtifact>, before: Before, files: Files,
                         directories: set<nat>)
  {
    && Records(staged, artifacts, before) && OthersUntouched(staged, before, files)
    && StagingIs(staged, before, directories)
    && forall k :: 0 <= k < |staged| ==>
         TargetState(staged[k], artifacts[k], before, files) && BackupState(staged[k], before, files)
  }

  /** The operations that stage a document or publish it. */
  predicate Forward(op: Operation) {
    op.MakingDirectory? || op.Writing? || op.Linking?
    || (op.Renaming? && op.source.Inside? && op.source.name == DOCUMENT)
  }

  /** A step forward fails with its one operation. */
  ghost predicate StopsForward(ok: bool, failed: seq<Operation>) {
    if ok then failed == [] else |failed| == 1 && Forward(failed[0])
  }

  /** A staged document is complete and its backup decided. */
  ghost predicate DocumentReady(item: StagedArtifact, artifact: JsonArtifact, before: Before, files: Files) {
    && item.directory.Some? && Get(files, Inside(item.directory.value, DOCUMENT)) == Some(artifact.document + "\n")
    && (item.hasPrevious <==> Plain(item.target) in before.files)
  }

  // ----- staging

  method StageArtifact(fs: FileSystem, artifact: JsonArtifact)
    returns (item: StagedArtifact, ok: bool, ghost failed: seq<Operation>)
    requires fs.Valid()
    modifies fs
    ensures fs.failures == old(fs.failures) + failed && StopsForward(ok, failed)
    ensures fs.Valid() && item.target == artifact.path && !item.published && !item.preserveBackup
    ensures item.directory.None? ==>
              !ok && !item.hasPrevious && fs.files == old(fs.files) && fs.directories == old(fs.directories)
    ensures item.directory.Some? ==>
              var d := item.directory.value;
              && d !in old(fs.directories) && fs.directories == old(fs.directories) + {d}
              && (forall path: Path :: !(path.Inside? && path.directory == d) ==>
                  Get(fs.files, path) == Get(old(fs.files), path))
    ensures item.hasPrevious ==>
              && item.directory.Some? && Plain(item.target) in old(fs.files)
              && Get(fs.files, Inside(item.directory.value, PREVIOUS)) == Get(old(fs.files), Plain(item.target))
    ensures ok ==> DocumentReady(item, artifact, Before(old(fs.files), old(fs.directories)), fs.files)
  {
    item, ok, failed := StagedArtifact(artifact.path, None, false, false, false), false, [];
    var directory := fs.MakeDirectory();
    if directory.None? {
      failed := [MakingDirectory];
      return;
    }
    item := item.(directory := directory);
    var written := fs.Write(Inside(directory.value, DOCUMENT), artifact.document + "\n");
    if !written {
      failed := [Writing(Inside(directory.value, DOCUMENT))];
      return;
    }
    assert Get(fs.files, Plain(item.target)) == Get(old(fs.files), Plain(item.target));
    if Plain(item.target) in fs.files {
      var linked := fs.Link(Plain(item.target), Inside(directory.value, PREVIOUS));
      if !linked {
        failed := [Linking(Plain(item.target), Inside(directory.value, PREVIOUS))];
        return;
      }
      item := item.(hasPrevious := true);
    }
    ok := true;
  }

  lemma NothingStaged(artifacts: seq<JsonArtifact>, files: Files, directories: set<nat>)
    ensures Midway([], artifacts, Before(files, directories), files, directories)
  {
  }

  /** What one staging step leaves behind, whether or not it completed. */
  ghost predicate StagedOne(item: StagedArtifact, files: Files, directories: set<nat>, nextFiles: Files,
                            nextDirectories: set<nat>) {
    && !item.published
    && (item.directory.None? ==> !item.hasPrevious && nextFiles == files && nextDirectories == directories)
    && (item.directory.Some? ==>
          var d := item.directory.value;
          && d !in directories && nextDirectories == directories + {d}
          && (forall path: Path :: !(path.Inside? && path.directory == d) ==> Get(nextFiles, path) == Get(files, path)))
    && (item.hasPrevious ==>
          && item.directory.Some? && Plain(item.target) in files
          && Get(nextFiles, Inside(item.directory.value, PREVIOUS)) == Get(files, Plain(item.target)))
  }

  predicate Unpublished(staged: seq<StagedArtifact>, from: nat) {
    forall k :: from <= k < |staged| ==> !staged[k].published
  }

  /** Staging one more artifact keeps the invariant. */
  lemma StageStep(staged: seq<StagedArtifact>, item: StagedArtifact, artifacts: seq<JsonArtifact>, before: Before,
                  files: Files, directories: set<nat>, nextFiles: Files, nextDirectories: set<nat>)
    requires Midway(staged, artifacts, before, files, directories) && |staged| < |artifacts|
    requires item.target == artifacts[|staged|].path && Unpublished(staged, 0)
    requires forall j, k :: 0 <= j < k < |artifacts| ==> artifacts[j].path != artifacts[k].path
    requires StagedOne(item, files, directories, nextFiles, nextDirectories)
    ensures Midway(staged + [item], artifacts, before, nextFiles, nextDirectories)
    ensures Plain(item.target) in before.files <==> Plain(item.target) in files
  {
    var more := staged + [item];
    StageRecords(staged, item, artifacts, before, directories, nextDirectories);
    UntargetedBefore(staged, item.target, artifacts, before, files);
    StageOthers(staged, item, before, files, directories, nextFiles);
    forall k | 0 <= k < |more|
      ensures TargetState(more[k], artifacts[k], before, nextFiles) && BackupState(more[k], before, nextFiles)
    {
      if k < |staged| {
        OldBackup(staged, k, directories, before);
      }
    }
  }

  /** A target that is not staged yet is as before. */
  lemma UntargetedBefore(staged: seq<StagedArtifact>, target: string, artifacts: seq<JsonArtifact>, before: Before,
                         files: Files)
    requires Records(staged, artifacts, before) && OthersUntouched(staged, before, files)
    requires |staged| < |artifacts| && target == artifacts[|staged|].path
    requires forall j, k :: 0 <= j < k < |artifacts| ==> artifacts[j].path != artifacts[k].path
    ensures Get(files, Plain(target)) == Get(before.files, Plain(target)) && !Targets(staged, target)
  {
  }

  lemma OldBackup(staged: seq<StagedArtifact>, k: nat, directories: set<nat>, before: Before)
    requires k < |staged| && StagingIs(staged, before, directories)
    ensures staged[k].directory.Some? ==> staged[k].directory.value in directories
  {
    if staged[k].directory.Some? {
      assert Stages(staged, staged[k].directory.value);
    }
  }

  lemma StageRecords(staged: seq<StagedArtifact>, item: StagedArtifact, artifacts: seq<JsonArtifact>, before: Before,
                     directories: set<nat>, nextDirectories: set<nat>)
    requires Records(staged, artifacts, before) && StagingIs(staged, before, directories)
    requires |staged| < |artifacts| && item.target == artifacts[|staged|].path
    requires item.directory.None? ==> nextDirectories == directories
    requires item.directory.Some? ==>
               item.directory.value !in directories && nextDirectories == directories + {item.directory.value}
    ensures Records(staged + [item], artifacts, before) && StagingIs(staged + [item], before, nextDirectories)
  {
    var more := staged + [item];
    forall d: nat
      ensures Stages(more, d) <==> Stages(staged, d) || item.directory == Some(d)
    {
      if item.directory == Some(d) {
        assert more[|staged|].directory == Some(d);
      }
      if Stages(staged, d) {
        var k :| 0 <= k < |staged| && staged[k].directory == Some(d);
        assert more[k].directory == Some(d);
      }
    }
    forall j | 0 <= j < |staged|
      ensures staged[j].directory.Some? ==> staged[j].directory != item.directory
    {
      OldBackup(staged, j, directories, before);
    }
  }

  lemma StageOthers(staged: seq<StagedArtifact>, item: StagedArtifact, before: Before, files: Files,
                    directories: set<nat>, nextFiles: Files)
    requires OthersUntouched(staged, before, files) && before.directories <= directories
    requires item.directory.None? ==> nextFiles == files
    requires item.directory.Some? ==>
               && item.directory.value !in directories
               && (forall path: Path :: !(path.Inside? && path.directory == item.directory.value) ==>
                     Get(nextFiles, path) == Get(files, path))
    ensures OthersUntouched(staged + [item], before, nextFiles)
  {
    var more := staged + [item];
    forall path: Path | (path.Plain? && !Targets(more, path.name))
        || (path.Inside? && path.directory in before.directories)
      ensures Get(nextFiles, path) == Get(before.files, path)
    {
      if path.Plain? {
        TargetsKept(staged, item, path.name);
      }
    }
  }

  lemma TargetsKept(staged: seq<StagedArtifact>, item: StagedArtifact, name: string)
    ensures Targets(staged, name) ==> Targets(staged + [item], name)
  {
    if Targets(staged, name) {
      var k :| 0 <= k < |staged| && staged[k].target == name;
      assert (staged + [item])[k].target == name;
    }
  }

  // ----- publishing

  ghost predicate AllReady(staged: seq<StagedArtifact>, artifacts: seq<JsonArtifact>, before: Before, files: Files,
                           from: nat) {
    |staged| <= |artifacts|
    && forall k :: from <= k < |staged| ==> DocumentReady(staged[k], artifacts[k], before, files)
  }

  predicate DistinctPaths(artifacts: seq<JsonArtifact>) {
    forall j, k :: 0 <= j < k < |artifacts| ==> artifacts[j].path != artifacts[k].path
  }

  /** Renaming a staged document over its target publishes exactly that target. */
  lemma PublishStep(staged: seq<StagedArtifact>, artifacts: seq<JsonArtifact>, before: Before, files: Files,
                    directories: set<nat>, i: nat)
    requires Midway(staged, artifacts, before, files, directories) && DistinctPaths(artifacts) && i < |staged|
    requires AllReady(staged, artifacts, before, files, i)
    ensures var document := Inside(staged[i].directory.value, DOCUMENT);
            && document in files
            && var next := (files - {document})[Plain(staged[i].target) := files[document]];
               var more := staged[i := staged[i].(published := true)];
               Midway(more, artifacts, before, next, directories) && AllReady(more, artifacts, before, next, i + 1)
  {
    var item := staged[i];
    var document := Inside(item.directory.value, DOCUMENT);
    var next := (files - {document})[Plain(item.target) := files[document]];
    var more := staged[i := item.(published := true)];
    SameRecords(staged, more, artifacts, before, directories);
    assert DOCUMENT != PREVIOUS;
    forall path: Path | (path.Plain? && !Targets(more, path.name))
        || (path.Inside? && path.directory in before.directories)
      ensures Get(next, path) == Get(before.files, path)
    {
      SameTargets(staged, more, path);
      assert more[i].target == item.target;
    }
    forall k | 0 <= k < |more|
      ensures TargetState(more[k], artifacts[k], before, next) && BackupState(more[k], before, next)
      ensures k > i ==> DocumentReady(more[k], artifacts[k], before, next)
    {
      if k != i {
        DistinctRecords(staged, artifacts, before, i, k);
      }
    }
  }

  lemma DistinctRecords(staged: seq<StagedArtifact>, artifacts: seq<JsonArtifact>, before: Before, i: nat, k: nat)
    requires Records(staged, artifacts, before) && DistinctPaths(artifacts) && i < |staged| && k < |staged| && i != k
    ensures staged[i].target != staged[k].target
    ensures staged[i].directory.Some? ==> staged[i].directory != staged[k].directory
  {
  }

  /** Records that differ only in their flags. */
  predicate SameItems(staged: seq<StagedArtifact>, more: seq<StagedArtifact>) {
    |staged| == |more|
    && forall k :: 0 <= k < |staged| ==> staged[k].target == more[k].target && staged[k].directory == more[k].directory
  }

  lemma SameRecords(staged: seq<StagedArtifact>, more: seq<StagedArtifact>, artifacts: seq<JsonArtifact>,
                    before: Before,
                    directories: set<nat>)
    requires Records(staged, artifacts, before) && StagingIs(staged, before, directories) && SameItems(staged, more)
    ensures Records(more, artifacts, before) && StagingIs(more, before, directories)
  {
    forall d: nat
      ensures Stages(more, d) <==> Stages(staged, d)
    {
      SameStages(staged, more, d);
    }
  }

  lemma SameStages(staged: seq<StagedArtifact>, more: seq<StagedArtifact>, d: nat)
    requires SameItems(staged, more)
    ensures Stages(more, d) <==> Stages(staged, d)
  {
    if Stages(staged, d) {
      var k :| 0 <= k < |staged| && staged[k].directory == Some(d);
      assert more[k].directory == Some(d);
    }
    if Stages(more, d) {
      var k :| 0 <= k < |more| && more[k].directory == Some(d);
      assert staged[k].directory == Some(d);
    }
  }

  lemma SameTargets(staged: seq<StagedArtifact>, more: seq<StagedArtifact>, path: Path)
    requires SameItems(staged, more)
    ensures path.Plain? ==> (Targets(more, path.name) <==> Targets(staged, path.name))
  {
    if path.Plain? && Targets(staged, path.name) {
      var k :| 0 <= k < |staged| && staged[k].target == path.name;
      assert more[k].target == path.name;
    }
    if path.Plain? && Targets(more, path.name) {
      var k :| 0 <= k < |more| && more[k].target == path.name;
      assert staged[k].target == path.name;
    }
  }

  /** The first `n` documents are published and the others are not. */
  predicate PublishedUpTo(staged: seq<StagedArtifact>, n: nat) {
    forall k :: 0 <= k < |staged| ==> (staged[k].published <==> k < n)
  }

  lemma PublishedNext(staged: seq<StagedArtifact>, more: seq<StagedArtifact>, i: nat)
    requires SameItems(staged, more) && PublishedUpTo(more, i) && i < |more|
    requires NotPreserved(staged) ==> NotPreserved(more)
    ensures var next := more[i := more[i].(published := true)];
            SameItems(staged, next) && PublishedUpTo(next, i + 1) && (NotPreserved(staged) ==> NotPreserved(next))
  {
  }

  lemma PublishedNone(staged: seq<StagedArtifact>)
    requires Unpublished(staged, 0)
    ensures SameItems(staged, staged) && PublishedUpTo(staged, 0)
  {
  }

  /** Rename every staged document over its target, in order; stop at the first rename that fails. */
  method PublishAll(fs: FileSystem, staged: seq<StagedArtifact>, ghost artifacts: seq<JsonArtifact>,
                    ghost before: Before)
    returns (more: seq<StagedArtifact>, ok: bool, ghost n: nat, ghost failed: seq<Operation>)
    requires fs.Valid() && Midway(staged, artifacts, before, fs.files, fs.directories) && DistinctPaths(artifacts)
    requires AllReady(staged, artifacts, before, fs.files, 0) && Unpublished(staged, 0)
    modifies fs`files, fs`failures
    ensures fs.Valid() && Midway(more, artifacts, before, fs.files, fs.directories) && SameItems(staged, more)
    ensures NotPreserved(staged) ==> NotPreserved(more)
    ensures n <= |more| && PublishedUpTo(more, n) && (ok <==> n == |more|)
    ensures fs.failures == old(fs.failures) + failed
    ensures failed == if ok then [] else [Publication(more[n])]
  {
    more, ok, n, failed := staged, true, 0, [];
    PublishedNone(staged);
    for i := 0 to |staged|
      invariant fs.Valid() && |more| == |staged| && SameItems(staged, more) && ok && n == i && failed == []
      invariant Midway(more, artifacts, before, fs.files, fs.directories)
      invariant AllReady(more, artifacts, before, fs.files, i) && (NotPreserved(staged) ==> NotPreserved(more))
      invariant PublishedUpTo(more, i) && fs.failures == old(fs.failures)
    {
      hide Midway, Records, TargetState, BackupState, OthersUntouched, StagingIs, SameItems, PublishedUpTo,
          NotPreserved;
      PublishedNext(staged, more, i);
      PublishStep(more, artifacts, before, fs.files, fs.directories, i);
      ok := fs.Rename(Inside(more[i].directory.value, DOCUMENT), Plain(more[i].target));
      if !ok {
        failed := [Publication(more[i])];
        return;
      }
      more := more[i := more[i].(published := true)];
      n := i + 1;
    }
  }

  /** The rename that publishes a document. */
  function Publication(item: StagedArtifact): (op: Operation) {
    Renaming(Inside(if item.directory.Some? then item.directory.value else 0, DOCUMENT), Plain(item.target))
  }

  predicate NotPreserved(staged: seq<StagedArtifact>) {
    forall k :: 0 <= k < |staged| ==> !staged[k].preserveBackup
  }

  // ----- rollback

  /** After its turn in the rollback a target is as before, or its staging is kept with the backup. */
  ghost predicate Restored(item: StagedArtifact, before: Before, files: Files) {
    if item.preserveBackup
    then
      && item.published && item.directory.Some?
      && (Plain(item.target) in before.files ==>
            Get(files, Inside(item.directory.value, PREVIOUS)) == Get(before.files, Plain(item.target)))
    else Get(files, Plain(item.target)) == Get(before.files, Plain(item.target))
  }

  /** The records from `i` on have been rolled back. */
  ghost predicate RollingBack(staged: seq<StagedArtifact>, artifacts: seq<JsonArtifact>, before: Before, files: Files,
                              directories: set<nat>, i: nat)
  {
    && Records(staged, artifacts, before) && OthersUntouched(staged, before, files)
    && StagingIs(staged, before, directories) && i <= |staged|
    && (forall k :: 0 <= k < i ==>
          TargetState(staged[k], artifacts[k], before, files) && BackupState(staged[k], before, files)
          && !staged[k].preserveBackup)
    && forall k :: i <= k < |staged| ==> Restored(staged[k], before, files)
  }

  /** Nothing changes but an item's target and its staging directory. */
  ghost predicate OnlyItem(item: StagedArtifact, files: Files, next: Files) {
    forall path: Path ::
      (path != Plain(item.target) && !(path.Inside? && item.directory == Some(path.directory))) ==>
        Get(next, path) == Get(files, path)
  }

  /** Only one target and one staging directory change when an item is restored. */
  lemma RestoreStep(staged: seq<StagedArtifact>, artifacts: seq<JsonArtifact>, before: Before, files: Files,
                    directories: set<nat>, i: nat, next: Files, restored: StagedArtifact)
    requires DistinctPaths(artifacts) && i < |staged|
    requires RollingBack(staged, artifacts, before, files, directories, i + 1)
    requires restored.target == staged[i].target && restored.directory == staged[i].directory
    requires Restored(restored, before, next)
    requires OnlyItem(staged[i], files, next)
    ensures RollingBack(staged[i := restored], artifacts, before, next, directories, i)
  {
    var more := staged[i := restored];
    SameRecords(staged, more, artifacts, before, directories);
    forall path: Path | (path.Plain? && !Targets(more, path.name))
        || (path.Inside? && path.directory in before.directories)
      ensures Get(next, path) == Get(before.files, path)
    {
      SameTargets(staged, more, path);
      assert more[i].target == staged[i].target;
    }
    forall k | 0 <= k < |more| && k != i
      ensures k < i ==> TargetState(more[k], artifacts[k], before, next) && BackupState(more[k], before, next)
      ensures k > i ==> Restored(more[k], before, next)
    {
      DistinctRecords(staged, artifacts, before, i, k);
      DistinctRecords(staged, artifacts, before, k, i);
    }
  }

  /** The operation that puts a published target back. */
  function Restoration(item: StagedArtifact): (op: Operation) {
    if item.hasPrevious
    then Renaming(Inside(if item.directory.Some? then item.directory.value else 0, PREVIOUS), Plain(item.target))
    else Removing(Plain(item.target))
  }

  /** From `i` on, exactly the records whose restoration failed are preserved. */
  ghost predicate PreservedFrom(staged: seq<StagedArtifact>, i: nat, failed: seq<Operation>) {
    && (forall op :: op in failed ==> Preserves(staged, i, op))
    && forall k :: i <= k < |staged| && staged[k].preserveBackup ==> Restoration(staged[k]) in failed
  }

  predicate Preserves(staged: seq<StagedArtifact>, i: nat, op: Operation) {
    exists k :: i <= k < |staged| && staged[k].preserveBackup && op == Restoration(staged[k])
  }

  lemma PreservedStep(staged: seq<StagedArtifact>, i: nat, restored: StagedArtifact, failed: seq<Operation>)
    requires i < |staged| && PreservedFrom(staged, i + 1, failed)
    ensures PreservedFrom(staged[i := restored], i,
                          failed + if restored.preserveBackup then [Restoration(restored)] else [])
  {
    var more := staged[i := restored];
    var next := failed + if restored.preserveBackup then [Restoration(restored)] else [];
    forall op | op in next
      ensures Preserves(more, i, op)
    {
      if op in failed {
        var k :| i + 1 <= k < |staged| && staged[k].preserveBackup && op == Restoration(staged[k]);
        assert more[k] == staged[k];
      } else {
        assert more[i] == restored;
      }
    }
  }

  /** Put one target back; if that fails its staging is kept. */
  method RestoreOne(fs: FileSystem, item: StagedArtifact, ghost artifact: JsonArtifact, ghost before: Before)
    returns (restored: StagedArtifact)
    requires fs.Valid() && TargetState(item, artifact, before, fs.files) && BackupState(item, before, fs.files)
    requires !item.preserveBackup
    modifies fs`files, fs`failures
    ensures fs.failures == old(fs.failures) + if restored.preserveBackup then [Restoration(restored)] else []
    ensures fs.Valid() && restored.target == item.target && restored.directory == item.directory
    ensures Restored(restored, before, fs.files) && OnlyItem(item, old(fs.files), fs.files)
  {
    restored := item;
    if !item.published {
      return;
    }
    var ok;
    if item.hasPrevious {
      ok := fs.Rename(Inside(item.directory.value, PREVIOUS), Plain(item.target));
    } else {
      ok := fs.Remove(Plain(item.target));
    }
    if !ok {
      restored := item.(preserveBackup := true);
    }
  }

  /** Undo the published renames, last first. */
  method Rollback(fs: FileSystem, staged: seq<StagedArtifact>, ghost artifacts: seq<JsonArtifact>, ghost before: Before)
    returns (more: seq<StagedArtifact>, ghost failed: seq<Operation>)
    requires fs.Valid() && Midway(staged, artifacts, before, fs.files, fs.directories) && DistinctPaths(artifacts)
    requires NotPreserved(staged)
    modifies fs`files, fs`failures
    ensures fs.Valid() && RollingBack(more, artifacts, before, fs.files, fs.directories, 0)
    ensures fs.failures == old(fs.failures) + failed && PreservedFrom(more, 0, failed)
  {
    more, failed := staged, [];
    for i := |staged| downto 0
      invariant fs.Valid() && |more| == |staged| && RollingBack(more, artifacts, before, fs.files, fs.directories, i)
      invariant fs.failures == old(fs.failures) + failed && PreservedFrom(more, i, failed)
    {
      ghost var files := fs.files;
      var restored := RestoreOne(fs, more[i], artifacts[i], before);
      RestoreStep(more, artifacts, before, files, fs.directories, i, fs.files, restored);
      PreservedStep(more, i, restored, failed);
      failed := failed + if restored.preserveBackup then [Restoration(restored)] else [];
      more := more[i := restored];
    }
  }

  // ----- cleaning

  /** The records that keep their staging, with the directory reported for each. */
  predicate Retains(staged: seq<StagedArtifact>, d: nat) {
    exists k :: 0 <= k < |staged| && staged[k].preserveBackup && staged[k].directory == Some(d)
  }

  /** The first `k` staging directories have been removed, but for those kept or reported. */
  ghost predicate Cleaning(staged: seq<StagedArtifact>, before: Before, start: Files, files: Files,
                           directories: set<nat>,
                           uncleaned: set<nat>, k: nat)
  {
    && k <= |staged|
    && (forall path: Path :: path.Plain? || path.directory in before.directories || Retains(staged, path.directory) ==>
          Get(files, path) == Get(start, path))
    && (forall d: nat ::
          d in directories <==>
            d in before.directories || d in uncleaned || Retains(staged, d) || Stages(staged[k..], d))
    && forall d: nat :: d in uncleaned ==> Stages(staged, d)
  }

  lemma CleaningStarts(staged: seq<StagedArtifact>, before: Before, files: Files, directories: set<nat>)
    requires StagingIs(staged, before, directories)
    ensures Cleaning(staged, before, files, files, directories, {}, 0)
  {
    assert staged[0..] == staged;
    forall d: nat | Retains(staged, d)
      ensures Stages(staged, d)
    {
      var k :| 0 <= k < |staged| && staged[k].preserveBackup && staged[k].directory == Some(d);
    }
  }

  lemma StagesNext(staged: seq<StagedArtifact>, k: nat, d: nat)
    requires k < |staged|
    ensures Stages(staged[k..], d) <==> staged[k].directory == Some(d) || Stages(staged[k + 1..], d)
  {
    if Stages(staged[k..], d) {
      var j :| 0 <= j < |staged[k..]| && staged[k..][j].directory == Some(d);
      if j > 0 {
        assert staged[k + 1..][j - 1].directory == Some(d);
      }
    }
    if Stages(staged[k + 1..], d) {
      var j :| 0 <= j < |staged[k + 1..]| && staged[k + 1..][j].directory == Some(d);
      assert staged[k..][j + 1].directory == Some(d);
    }
    if staged[k].directory == Some(d) {
      assert staged[k..][0].directory == Some(d);
    }
  }

  /** Directories of different records are different. */
  ghost predicate DistinctStaging(staged: seq<StagedArtifact>, before: Before) {
    && (forall k :: 0 <= k < |staged| ==> staged[k].directory.Some? ==>
        staged[k].directory.value !in before.directories)
    && forall j, k :: 0 <= j < k < |staged| && staged[j].directory.Some? ==> staged[j].directory != staged[k].directory
  }

  lemma OwnedOnce(staged: seq<StagedArtifact>, before: Before, k: nat, d: nat)
    requires k < |staged| && DistinctStaging(staged, before) && staged[k].directory == Some(d)
    ensures d !in before.directories && !Stages(staged[k + 1..], d) && (Retains(staged, d) ==> staged[k].preserveBackup)
  {
  }

  lemma CleanStep(staged: seq<StagedArtifact>, before: Before, start: Files, files: Files, directories: set<nat>,
                  uncleaned: set<nat>, k: nat, removed: bool, next: Files)
    requires Cleaning(staged, before, start, files, directories, uncleaned, k) && k < |staged|
    requires DistinctStaging(staged, before) && staged[k].directory.Some? && !staged[k].preserveBackup
    requires staged[k].directory.value !in uncleaned
    requires Outside(next, staged[k].directory.value) == Outside(files, staged[k].directory.value)
    ensures var d := staged[k].directory.value;
            if removed
            then Cleaning(staged, before, start, next, directories - {d}, uncleaned, k + 1)
            else Cleaning(staged, before, start, next, directories, uncleaned + {d}, k + 1)
  {
    var d := staged[k].directory.value;
    forall path: Path | path.Plain? || path.directory != d
      ensures Get(next, path) == Get(files, path)
    {
      assert Get(Outside(next, d), path) == Get(next, path) && Get(Outside(files, d), path) == Get(files, path);
    }
    OwnedOnce(staged, before, k, d);
    assert Stages(staged, d);
    forall e: nat
      ensures Stages(staged[k..], e) <==> e == d || Stages(staged[k + 1..], e)
    {
      StagesNext(staged, k, e);
    }
  }

  lemma SkipStep(staged: seq<StagedArtifact>, before: Before, start: Files, files: Files, directories: set<nat>,
                 uncleaned: set<nat>, k: nat)
    requires Cleaning(staged, before, start, files, directories, uncleaned, k) && k < |staged|
    requires staged[k].directory.None? || staged[k].preserveBackup
    ensures Cleaning(staged, before, start, files, directories, uncleaned, k + 1)
  {
    forall e: nat
      ensures Stages(staged[k..], e) ==> Retains(staged, e) || Stages(staged[k + 1..], e)
      ensures Stages(staged[k + 1..], e) ==> Stages(staged[k..], e)
    {
      StagesNext(staged, k, e);
    }
  }

  /** The failed removals are those of the reported directories. */
  ghost predicate Unremoved(uncleaned: set<nat>, failed: seq<Operation>) {
    && (forall op :: op in failed ==> op.RemovingDirectory? && op.directory in uncleaned)
    && forall d :: d in uncleaned ==> RemovingDirectory(d) in failed
  }

  /** Remove every staging directory that is not kept; report those that cannot be removed. */
  method CleanStaging(fs: FileSystem, staged: seq<StagedArtifact>, ghost before: Before)
    returns (uncleaned: set<nat>, ghost failed: seq<Operation>)
    requires fs.Valid() && DistinctStaging(staged, before) && StagingIs(staged, before, fs.directories)
    modifies fs`files, fs`directories, fs`failures
    ensures fs.Valid()
    ensures Cleaning(staged, before, old(fs.files), fs.files, fs.directories, uncleaned, |staged|)
    ensures fs.failures == old(fs.failures) + failed && Unremoved(uncleaned, failed)
  {
    uncleaned, failed := {}, [];
    CleaningStarts(staged, before, fs.files, fs.directories);
    for k := 0 to |staged|
      invariant fs.Valid()
      invariant Cleaning(staged, before, old(fs.files), fs.files, fs.directories, uncleaned, k)
      invariant forall d: nat :: d in uncleaned ==> Stages(staged[..k], d)
      invariant fs.failures == old(fs.failures) + failed && Unremoved(uncleaned, failed)
    {
      hide Cleaning, DistinctStaging;
      if staged[k].directory.None? || staged[k].preserveBackup {
        SkipStep(staged, before, old(fs.files), fs.files, fs.directories, uncleaned, k);
        StagedPrefix(staged, k);
        continue;
      }
      var d := staged[k].directory.value;
      OwnedLater(staged, before, k, d);
      StagedPrefix(staged, k);
      ghost var files, directories := fs.files, fs.directories;
      var ok := fs.RemoveDirectory(d);
      CleanStep(staged, before, old(fs.files), files, directories, uncleaned, k, ok, fs.files);
      if !ok {
        uncleaned, failed := uncleaned + {d}, failed + [RemovingDirectory(d)];
      }
    }
  }

  lemma OwnedLater(staged: seq<StagedArtifact>, before: Before, k: nat, d: nat)
    requires k < |staged| && DistinctStaging(staged, before) && staged[k].directory == Some(d)
    ensures !Stages(staged[..k], d)
  {
  }

  lemma StagedPrefix(staged: seq<StagedArtifact>, k: nat)
    requires k < |staged|
    ensures forall d: nat :: Stages(staged[..k], d) ==> Stages(staged[..k + 1], d)
    ensures staged[k].directory.Some? ==> Stages(staged[..k + 1], staged[k].directory.value)
  {
    assert staged[..k + 1][k] == staged[k];
    forall d: nat | Stages(staged[..k], d)
      ensures Stages(staged[..k + 1], d)
    {
      var j :| 0 <= j < |staged[..k]| && staged[..k][j].directory == Some(d);
      assert staged[..k + 1][j].directory == Some(d);
    }
  }

  // ----- putting the stages together

  /** Stage every artifact, stopping at the first failure. */
  method StageAll(fs: FileSystem, artifacts: seq<JsonArtifact>)
    returns (staged: seq<StagedArtifact>, ok: bool, ghost failed: seq<Operation>)
    requires fs.Valid() && DistinctPaths(artifacts)
    modifies fs
    ensures fs.Valid() && fs.failures == old(fs.failures) + failed && StopsForward(ok, failed)
    ensures var before := Before(old(fs.files), old(fs.directories));
            && Midway(staged, artifacts, before, fs.files, fs.directories)
            && Unpublished(staged, 0) && NotPreserved(staged)
            && (ok ==> |staged| == |artifacts| && AllReady(staged, artifacts, before, fs.files, 0))
  {
    ghost var before := Before(fs.files, fs.directories);
    staged, ok, failed := [], true, [];
    NothingStaged(artifacts, fs.files, fs.directories);
    for i := 0 to |artifacts|
      invariant fs.Valid() && ok && |staged| == i && failed == [] && fs.failures == old(fs.failures)
      invariant Midway(staged, artifacts, before, fs.files, fs.directories)
      invariant Unpublished(staged, 0) && NotPreserved(staged) && AllReady(staged, artifacts, before, fs.files, 0)
    {
      hide Midway;
      ghost var files, directories := fs.files, fs.directories;
      var item;
      item, ok, failed := StageArtifact(fs, artifacts[i]);
      StageStep(staged, item, artifacts, before, files, directories, fs.files, fs.directories);
      if ok {
        ReadyStep(staged, item, artifacts, before, files, directories, fs.files, fs.directories);
      }
      staged := staged + [item];
      if !ok {
        return;
      }
    }
  }

  lemma ReadyStep(staged: seq<StagedArtifact>, item: StagedArtifact, artifacts: seq<JsonArtifact>, before: Before,
                  files: Files, directories: set<nat>, nextFiles: Files, nextDirectories: set<nat>)
    requires Midway(staged, artifacts, before, files, directories) && |staged| < |artifacts|
    requires AllReady(staged, artifacts, before, files, 0)
    requires StagedOne(item, files, directories, nextFiles, nextDirectories)
    requires DocumentReady(item, artifacts[|staged|], Before(files, directories), nextFiles)
    requires Plain(item.target) in before.files <==> Plain(item.target) in files
    ensures AllReady(staged + [item], artifacts, before, nextFiles, 0)
  {
    var more := staged + [item];
    forall k | 0 <= k < |more|
      ensures DocumentReady(more[k], artifacts[k], before, nextFiles)
    {
      if k < |staged| {
        OldBackup(staged, k, directories, before);
      }
    }
  }

  lemma MidwayCleans(staged: seq<StagedArtifact>, artifacts: seq<JsonArtifact>, before: Before, files: Files,
                     directories: set<nat>)
    requires Midway(staged, artifacts, before, files, directories)
    ensures DistinctStaging(staged, before) && StagingIs(staged, before, directories)
  {
  }

  lemma RollbackCleans(staged: seq<StagedArtifact>, artifacts: seq<JsonArtifact>, before: Before, files: Files,
                       directories: set<nat>)
    requires RollingBack(staged, artifacts, before, files, directories, 0)
    ensures DistinctStaging(staged, before) && StagingIs(staged, before, directories)
  {
  }

  /** The targets whose restoration failed, with the directories that keep their backups. */
  method Retained(staged: seq<StagedArtifact>) returns (retained: map<string, nat>)
    requires forall j, k :: 0 <= j < k < |staged| ==> staged[j].target != staged[k].target
    requires forall k :: 0 <= k < |staged| && staged[k].preserveBackup ==> staged[k].directory.Some?
    ensures forall k :: 0 <= k < |staged| && staged[k].preserveBackup ==>
              staged[k].target in retained && Some(retained[staged[k].target]) == staged[k].directory
    ensures forall name :: name in retained ==>
              exists k :: 0 <= k < |staged| && staged[k].preserveBackup && staged[k].target == name
  {
    retained := map[];
    for i := 0 to |staged|
      invariant forall k :: 0 <= k < i && staged[k].preserveBackup ==>
                  staged[k].target in retained && Some(retained[staged[k].target]) == staged[k].directory
      invariant forall name :: name in retained ==>
                  exists k :: 0 <= k < i && staged[k].preserveBackup && staged[k].target == name
    {
      if staged[i].preserveBackup {
        retained := retained[staged[i].target := staged[i].directory.value];
      }
    }
  }

  // ----- publication

  /** The end of an export: rejected paths, everything published, or everything rolled back but what is retained. */
  datatype Outcome =
    | Rejected(error: PathError)
    | Published(uncleaned: set<nat>)
    | RolledBack(retained: map<string, nat>, uncleaned: set<nat>)

  /** All targets hold their documents with one final LF; nothing else changed; staging is gone but for `uncleaned`. */
  ghost predicate AllPublished(artifacts: seq<JsonArtifact>, before: Before, files: Files, directories: set<nat>,
                               uncleaned: set<nat>) {
    && (forall k :: 0 <= k < |artifacts| ==> Get(files, Plain(artifacts[k].path)) == Some(artifacts[k].document + "\n"))
    && (forall name: string :: (forall k :: 0 <= k < |artifacts| ==> artifacts[k].path != name) ==>
          Get(files, Plain(name)) == Get(before.files, Plain(name)))
    && (forall path: Path :: path.Inside? && path.directory in before.directories ==>
        Get(files, path) == Get(before.files, path))
    && directories == before.directories + uncleaned
  }

  /** Every target is as before but the retained ones, whose previous content is kept in the reported directory. */
  ghost predicate AllRestored(artifacts: seq<JsonArtifact>, before: Before, files: Files, directories: set<nat>,
                              retained: map<string, nat>, uncleaned: set<nat>)
  {
    && (forall name: string :: name !in retained ==> Get(files, Plain(name)) == Get(before.files, Plain(name)))
    && (forall name :: name in retained ==>
          && (exists k :: 0 <= k < |artifacts| && artifacts[k].path == name)
          && (Plain(name) in before.files ==>
                Get(files, Inside(retained[name], PREVIOUS)) == Get(before.files, Plain(name))))
    && (forall path: Path :: path.Inside? && path.directory in before.directories ==>
        Get(files, path) == Get(before.files, path))
    && directories == before.directories + uncleaned + retained.Values
  }

  lemma MidwayFacts(staged: seq<StagedArtifact>, artifacts: seq<JsonArtifact>, before: Before, files: Files,
                    directories: set<nat>)
    requires Midway(staged, artifacts, before, files, directories)
    ensures Records(staged, artifacts, before) && OthersUntouched(staged, before, files)
    ensures forall k :: 0 <= k < |staged| ==> TargetState(staged[k], artifacts[k], before, files)
  {
  }

  lemma RollbackFacts(staged: seq<StagedArtifact>, artifacts: seq<JsonArtifact>, before: Before, files: Files,
                      directories: set<nat>)
    requires RollingBack(staged, artifacts, before, files, directories, 0)
    ensures Records(staged, artifacts, before) && OthersUntouched(staged, before, files)
    ensures forall k :: 0 <= k < |staged| ==> Restored(staged[k], before, files)
  {
  }

  /** A restored export is described by its retained records. */
  ghost predicate Describes(retained: map<string, nat>, staged: seq<StagedArtifact>) {
    && (forall k :: 0 <= k < |staged| && staged[k].preserveBackup ==>
          staged[k].target in retained && Some(retained[staged[k].target]) == staged[k].directory)
    && (forall name :: name in retained ==>
          exists k :: 0 <= k < |staged| && staged[k].preserveBackup && staged[k].target == name)
  }

  lemma PublicationDone(staged: seq<StagedArtifact>, artifacts: seq<JsonArtifact>, before: Before, start: Files,
                        files: Files, directories: set<nat>, uncleaned: set<nat>)
    requires |staged| == |artifacts| && NotPreserved(staged) && forall k :: 0 <= k < |staged| ==> staged[k].published
    requires OthersUntouched(staged, before, start) && Records(staged, artifacts, before)
    requires forall k :: 0 <= k < |staged| ==> TargetState(staged[k], artifacts[k], before, start)
    requires Cleaning(staged, before, start, files, directories, uncleaned, |staged|)
    ensures AllPublished(artifacts, before, files, directories, uncleaned)
  {
    assert staged[|staged|..] == [];
    forall k | 0 <= k < |artifacts|
      ensures Get(files, Plain(artifacts[k].path)) == Some(artifacts[k].document + "\n")
    {
      assert staged[k].published && TargetState(staged[k], artifacts[k], before, start);
    }
    forall name: string | forall k :: 0 <= k < |artifacts| ==> artifacts[k].path != name
      ensures Get(files, Plain(name)) == Get(before.files, Plain(name))
    {
      assert !Targets(staged, name);
    }
    assert directories == before.directories + uncleaned;
  }

  lemma RestorationDone(staged: seq<StagedArtifact>, artifacts: seq<JsonArtifact>, before: Before, start: Files,
                        files: Files, directories: set<nat>, retained: map<string, nat>, uncleaned: set<nat>)
    requires Records(staged, artifacts, before) && OthersUntouched(staged, before, start)
    requires forall k :: 0 <= k < |staged| ==> Restored(staged[k], before, start)
    requires Describes(retained, staged)
    requires Cleaning(staged, before, start, files, directories, uncleaned, |staged|)
    ensures AllRestored(artifacts, before, files, directories, retained, uncleaned)
  {
    assert staged[|staged|..] == [];
    forall name: string | name !in retained
      ensures Get(files, Plain(name)) == Get(before.files, Plain(name))
    {
      if Targets(staged, name) {
        var k :| 0 <= k < |staged| && staged[k].target == name;
        assert Restored(staged[k], before, start);
      }
    }
    forall name | name in retained
      ensures exists k :: 0 <= k < |artifacts| && artifacts[k].path == name
      ensures Plain(name) in before.files ==>
                Get(files, Inside(retained[name], PREVIOUS)) == Get(before.files, Plain(name))
    {
      var k :| 0 <= k < |staged| && staged[k].preserveBackup && staged[k].target == name;
      assert artifacts[k].path == name && Restored(staged[k], before, start);
      assert Retains(staged, retained[name]);
    }
    RetainedDirectories(retained, staged);
  }

  lemma RetainedDirectories(retained: map<string, nat>, staged: seq<StagedArtifact>)
    requires Describes(retained, staged)
    requires forall k :: 0 <= k < |staged| && staged[k].preserveBackup ==> staged[k].directory.Some?
    ensures forall d: nat :: d in retained.Values <==> Retains(staged, d)
  {
    forall d: nat | Retains(staged, d)
      ensures d in retained.Values
    {
      var k :| 0 <= k < |staged| && staged[k].preserveBackup && staged[k].directory == Some(d);
      assert retained[staged[k].target] == d;
    }
    forall d: nat | d in retained.Values
      ensures Retains(staged, d)
    {
      var name :| name in retained && retained[name] == d;
      var k :| 0 <= k < |staged| && staged[k].preserveBackup && staged[k].target == name;
      assert staged[k].directory == Some(d);
    }
  }

  /** With every target restored and all staging removed the file map is the original one. */
  lemma NothingLeft(artifacts: seq<JsonArtifact>, before: Before, files: Files, directories: set<nat>)
    requires AllRestored(artifacts, before, files, directories, map[], {})
    requires forall path :: path in files && path.Inside? ==> path.directory in directories
    requires forall path :: path in before.files && path.Inside? ==> path.directory in before.directories
    ensures files == before.files && directories == before.directories
  {
    var none: map<string, nat> := map[];
    assert none.Values == {};
    forall path: Path
      ensures Get(files, path) == Get(before.files, path)
    {
      match path
      case Plain(name) =>
      case Inside(d, _) =>
        if d !in before.directories {
          assert path !in files && path !in before.files;
        }
    }
    assert forall path: Path :: (path in files <==> path in before.files) by {
      assert forall path: Path :: Get(files, path) == Get(before.files, path);
    }
    forall path | path in files
      ensures files[path] == before.files[path]
    {
      assert Get(files, path) == Get(before.files, path);
    }
  }

  // ----- what failed, and what became of it

  /** An operation that puts a target back. */
  predicate Restores(op: Operation, name: string) {
    || (op.Renaming? && op.source.Inside? && op.source.name == PREVIOUS && op.target == Plain(name))
    || op == Removing(Plain(name))
  }

  /** The operation that puts a target back failed. */
  predicate RestorationFailed(failed: seq<Operation>, name: string) {
    exists i :: 0 <= i < |failed| && Restores(failed[i], name)
  }

  /** Staging or publishing failed. */
  predicate ForwardFailed(failed: seq<Operation>) {
    exists i :: 0 <= i < |failed| && Forward(failed[i])
  }

  /**
   * The outcome follows from the failed operations: an export is rolled back exactly when staging or publishing
   * failed; it retains exactly the targets whose own restoration failed, with the directory of the backup, and
   * reports exactly the staging directories whose own removal failed.
   */
  ghost predicate Explains(failed: seq<Operation>, outcome: Outcome) {
    match outcome
    case Rejected(_) => failed == []
    case Published(uncleaned) => Unremoved(uncleaned, failed)
    case RolledBack(retained, uncleaned) =>
      && ForwardFailed(failed)
      && (forall name :: name in retained <==> RestorationFailed(failed, name))
      && (forall name, d :: Renaming(Inside(d, PREVIOUS), Plain(name)) in failed ==>
            name in retained && retained[name] == d)
      && forall d :: d in uncleaned <==> RemovingDirectory(d) in failed
  }

  lemma ForwardIsNoRestoration(op: Operation, name: string)
    requires Forward(op)
    ensures !Restores(op, name) && !op.RemovingDirectory?
  {
    assert DOCUMENT != PREVIOUS;
  }

  lemma RestorationRestores(item: StagedArtifact, name: string)
    ensures Restores(Restoration(item), name) <==> item.target == name
    ensures Restoration(item).Renaming? && item.directory.Some? ==>
              Restoration(item).source == Inside(item.directory.value, PREVIOUS)
    ensures !Restoration(item).RemovingDirectory?
  {
  }

  /** The operations of an undone export, by phase. */
  ghost predicate Phases(staged: seq<StagedArtifact>, uncleaned: set<nat>, forward: seq<Operation>,
                         backward: seq<Operation>, cleaning: seq<Operation>) {
    StopsForward(false, forward) && PreservedFrom(staged, 0, backward) && Unremoved(uncleaned, cleaning)
  }

  /** Only the rollback restores. */
  lemma OnlyBackwardRestores(staged: seq<StagedArtifact>, uncleaned: set<nat>, forward: seq<Operation>,
                             backward: seq<Operation>, cleaning: seq<Operation>, op: Operation, name: string)
    requires Phases(staged, uncleaned, forward, backward, cleaning)
    requires op in forward + backward + cleaning && Restores(op, name)
    ensures Preserves(staged, 0, op)
  {
    hide Forward, Preserves;
    assert !op.RemovingDirectory?;
    if op in forward {
      ForwardIsNoRestoration(op, name);
    } else if op in cleaning {
    } else {
      assert op in backward;
    }
  }

  /** A failed restoration is one of the rollback's, of a retained target. */
  lemma RestorationIsBackward(staged: seq<StagedArtifact>, retained: map<string, nat>, uncleaned: set<nat>,
                              forward: seq<Operation>, backward: seq<Operation>, cleaning: seq<Operation>,
                              op: Operation, name: string)
    requires Phases(staged, uncleaned, forward, backward, cleaning) && Describes(retained, staged)
    requires op in forward + backward + cleaning && Restores(op, name)
    ensures name in retained
    ensures op.Renaming? ==> op.source == Inside(retained[name], PREVIOUS)
  {
    hide Phases, Restores, Restoration;
    OnlyBackwardRestores(staged, uncleaned, forward, backward, cleaning, op, name);
    var k :| 0 <= k < |staged| && staged[k].preserveBackup && op == Restoration(staged[k]);
    RestorationRestores(staged[k], name);
  }

  lemma RetainedExplained(staged: seq<StagedArtifact>, retained: map<string, nat>, uncleaned: set<nat>,
                          forward: seq<Operation>, backward: seq<Operation>, cleaning: seq<Operation>, name: string)
    requires Phases(staged, uncleaned, forward, backward, cleaning) && Describes(retained, staged)
    ensures name in retained <==> RestorationFailed(forward + backward + cleaning, name)
  {
    hide Restores, Restoration, Describes, StopsForward, Unremoved;
    var failed := forward + backward + cleaning;
    if name in retained {
      var k := RetainedRecord(retained, staged, name);
      RestorationRestores(staged[k], name);
      var i :| 0 <= i < |backward| && backward[i] == Restoration(staged[k]);
      assert failed[|forward| + i] == backward[i];
    }
    if RestorationFailed(failed, name) {
      hide Phases;
      var i :| 0 <= i < |failed| && Restores(failed[i], name);
      RestorationIsBackward(staged, retained, uncleaned, forward, backward, cleaning, failed[i], name);
    }
  }

  lemma RetainedRecord(retained: map<string, nat>, staged: seq<StagedArtifact>, name: string) returns (k: nat)
    requires Describes(retained, staged) && name in retained
    ensures k < |staged| && staged[k].preserveBackup && staged[k].target == name
  {
    k :| 0 <= k < |staged| && staged[k].preserveBackup && staged[k].target == name;
  }

  lemma UncleanedExplained(staged: seq<StagedArtifact>, uncleaned: set<nat>, forward: seq<Operation>,
                           backward: seq<Operation>, cleaning: seq<Operation>, d: nat)
    requires Phases(staged, uncleaned, forward, backward, cleaning)
    ensures d in uncleaned <==> RemovingDirectory(d) in forward + backward + cleaning
  {
    var op := RemovingDirectory(d);
    if op in backward {
      assert Preserves(staged, 0, op);
      var k :| 0 <= k < |staged| && staged[k].preserveBackup && op == Restoration(staged[k]);
      RestorationRestores(staged[k], "");
      assert false;
    }
  }

  lemma RenamingRestores(d: nat, name: string)
    ensures Restores(Renaming(Inside(d, PREVIOUS), Plain(name)), name)
  {
  }

  lemma RollbackExplained(staged: seq<StagedArtifact>, retained: map<string, nat>, uncleaned: set<nat>,
                          forward: seq<Operation>, backward: seq<Operation>, cleaning: seq<Operation>)
    requires Phases(staged, uncleaned, forward, backward, cleaning) && Describes(retained, staged)
    ensures Explains(forward + backward + cleaning, RolledBack(retained, uncleaned))
  {
    hide Describes, PreservedFrom, Unremoved, Forward, Restores;
    var failed := forward + backward + cleaning;
    assert failed[0] == forward[0] && ForwardFailed(failed);
    hide Phases, ForwardFailed, RestorationFailed;
    forall name
      ensures name in retained <==> RestorationFailed(failed, name)
    {
      RetainedExplained(staged, retained, uncleaned, forward, backward, cleaning, name);
    }
    forall name, d | Renaming(Inside(d, PREVIOUS), Plain(name)) in failed
      ensures name in retained && retained[name] == d
    {
      var op := Renaming(Inside(d, PREVIOUS), Plain(name));
      RenamingRestores(d, name);
      RestorationIsBackward(staged, retained, uncleaned, forward, backward, cleaning, op, name);
    }
    forall d
      ensures d in uncleaned <==> RemovingDirectory(d) in failed
    {
      UncleanedExplained(staged, uncleaned, forward, backward, cleaning, d);
    }
  }

  /** When only staging or publishing failed, nothing is retained and nothing is left. */
  lemma ForwardFailureOnly(failed: seq<Operation>, outcome: Outcome)
    requires Explains(failed, outcome) && failed != [] && forall op :: op in failed ==> Forward(op)
    ensures outcome == RolledBack(map[], {})
  {
    assert failed[0] in failed;
    forall i, name | 0 <= i < |failed|
      ensures !Restores(failed[i], name) && !failed[i].RemovingDirectory?
    {
      ForwardIsNoRestoration(failed[i], name);
    }
    if outcome.RolledBack? {
      assert outcome.retained == map[];
      assert outcome.uncleaned == {};
    }
  }

  /** The catch block: roll back, clean up and report. */
  method Undo(fs: FileSystem, staged: seq<StagedArtifact>, ghost artifacts: seq<JsonArtifact>, ghost before: Before,
              ghost forward: seq<Operation>)
    returns (outcome: Outcome, ghost more: seq<Operation>)
    requires fs.Valid() && Midway(staged, artifacts, before, fs.files, fs.directories) && DistinctPaths(artifacts)
    requires NotPreserved(staged) && StopsForward(false, forward)
    requires forall path :: path in before.files && path.Inside? ==> path.directory in before.directories
    modifies fs`files, fs`directories, fs`failures
    ensures fs.Valid() && fs.failures == old(fs.failures) + more
    ensures outcome.RolledBack? && Explains(forward + more, outcome)
    ensures AllRestored(artifacts, before, fs.files, fs.directories, outcome.retained, outcome.uncleaned)
    ensures outcome == RolledBack(map[], {}) ==> fs.files == before.files && fs.directories == before.directories
  {
    hide Midway, RollingBack, Cleaning, AllRestored, PreservedFrom;
    var restored, backward := Rollback(fs, staged, artifacts, before);
    RollbackFacts(restored, artifacts, before, fs.files, fs.directories);
    RollbackCleans(restored, artifacts, before, fs.files, fs.directories);
    ghost var start := fs.files;
    var uncleaned, cleaning := CleanStaging(fs, restored, before);
    var retained := Retained(restored);
    RestorationDone(restored, artifacts, before, start, fs.files, fs.directories, retained, uncleaned);
    RollbackExplained(restored, retained, uncleaned, forward, backward, cleaning);
    more := backward + cleaning;
    assert forward + more == forward + backward + cleaning;
    if retained == map[] && uncleaned == {} {
      NothingLeft(artifacts, before, fs.files, fs.directories);
    }
    outcome := RolledBack(retained, uncleaned);
  }

  /** Publication to valid paths. */
  method PublishValid(fs: FileSystem, artifacts: seq<JsonArtifact>)
    returns (outcome: Outcome, ghost failed: seq<Operation>)
    requires fs.Valid() && DistinctPaths(artifacts)
    modifies fs
    ensures fs.Valid() && fs.failures == old(fs.failures) + failed && Explains(failed, outcome)
    ensures failed == [] ==> outcome == Published({})
    ensures var before := Before(old(fs.files), old(fs.directories));
            match outcome
            case Rejected(_) => false
            case Published(uncleaned) => AllPublished(artifacts, before, fs.files, fs.directories, uncleaned)
            case RolledBack(retained, uncleaned) =>
              && AllRestored(artifacts, before, fs.files, fs.directories, retained, uncleaned)
              && (retained == map[] && uncleaned == {} ==>
                    fs.files == before.files && fs.directories == before.directories)
  {
    hide Midway, RollingBack, Cleaning, AllRestored, AllPublished, PreservedFrom, AllReady;
    ghost var before := Before(fs.files, fs.directories);
    var staged, ok;
    staged, ok, failed := StageAll(fs, artifacts);
    if ok {
      ghost var n;
      staged, ok, n, failed := PublishAll(fs, staged, artifacts, before);
    }
    if ok {
      MidwayFacts(staged, artifacts, before, fs.files, fs.directories);
      MidwayCleans(staged, artifacts, before, fs.files, fs.directories);
      ghost var start := fs.files;
      var uncleaned;
      uncleaned, failed := CleanStaging(fs, staged, before);
      PublicationDone(staged, artifacts, before, start, fs.files, fs.directories, uncleaned);
      return Published(uncleaned), failed;
    }
    ghost var more;
    outcome, more := Undo(fs, staged, artifacts, before, failed);
    failed := failed + more;
  }

  /**
   * Publication is all-or-nothing. When no operation fails every target holds its own document plus LF and no
   * staging remains. When staging or publishing fails and no restoration or cleanup does, the file map and the
   * directories are the original ones. Otherwise the failed operations say what is left: every target has its
   * original content or absence except those whose restoration itself failed, whose original content is kept in
   * the reported directory.
   */
  method PublishJsonArtifacts(fs: FileSystem, naming: Naming, inputs: seq<string>, artifacts: seq<JsonArtifact>)
    returns (outcome: Outcome, ghost failed: seq<Operation>)
    requires fs.Valid()
    modifies fs
    ensures fs.Valid() && fs.failures == old(fs.failures) + failed
    ensures outcome.Rejected? <==> !PathsValid(naming, inputs, artifacts)
    ensures Explains(failed, outcome)
    ensures PathsValid(naming, inputs, artifacts) && failed == [] ==> outcome == Published({})
    ensures failed != [] && (forall op :: op in failed ==> Forward(op)) ==>
              && outcome == RolledBack(map[], {})
              && fs.files == old(fs.files) && fs.directories == old(fs.directories)
    ensures var before := Before(old(fs.files), old(fs.directories));
            match outcome
            case Rejected(_) => fs.files == before.files && fs.directories == before.directories
            case Published(uncleaned) => AllPublished(artifacts, before, fs.files, fs.directories, uncleaned)
            case RolledBack(retained, uncleaned) =>
              && AllRestored(artifacts, before, fs.files, fs.directories, retained, uncleaned)
              && (retained == map[] && uncleaned == {} ==>
                    fs.files == before.files && fs.directories == before.directories)
  {
    failed := [];
    var error := ValidatePaths(naming, inputs, artifacts);
    if error.Some? {
      return Rejected(error.value), [];
    }
    forall j, k | 0 <= j < k < |artifacts|
      ensures artifacts[j].path != artifacts[k].path
    {
      assert !Aliases(naming, artifacts[k].path, artifacts[j].path);
    }
    hide AllPublished, AllRestored, Explains;
    outcome, failed := PublishValid(fs, artifacts);
    if failed != [] && forall op :: op in failed ==> Forward(op) {
      ForwardFailureOnly(failed, outcome);
    }
  }
}
