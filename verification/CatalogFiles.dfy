/**
 The authored catalog on disk, as `app_definition_persistence.rs` sees it: a
 file is its exact bytes and its filesystem identity, a captured directory is
 its own identity and its YAML files.
 */
module CatalogFiles {
  import opened Wrappers
  import opened DigestFraming

  datatype File = File(bytes: string, identity: nat)

  datatype Fs = Fs(files: map<CatalogPath, File>, directories: map<string, nat>)

  datatype DirectoryCapture = DirectoryCapture(directory: string, identity: nat, files: map<CatalogPath, File>)

  function FileAt(fs: Fs, p: CatalogPath): Option<File> {
    if p in fs.files then Some(fs.files[p]) else None
  }

  /** The top-level YAML files of one directory. */
  function Listing(fs: Fs, directory: string): map<CatalogPath, File> {
    map p | p in fs.files && p.directory == directory && IsYaml(p.name) :: fs.files[p]
  }

  predicate DirectoryEquals(captured: DirectoryCapture, fs: Fs) {
    && captured.directory in fs.directories
    && fs.directories[captured.directory] == captured.identity
    && Listing(fs, captured.directory) == captured.files
  }

  /** Nothing in the directory changed, except that the owned Recipe may have appeared with its prepared bytes. */
  predicate FilesUnchangedExcept(
      captured: map<CatalogPath, File>, current: map<CatalogPath, File>, recipe: CatalogPath, prepared: string)
  {
    && current - {recipe} == captured
    && (recipe in current ==> current[recipe].bytes == prepared)
  }

  predicate DirectoryUnchangedExcept(captured: DirectoryCapture, fs: Fs, recipe: CatalogPath, prepared: string) {
    && captured.directory in fs.directories
    && fs.directories[captured.directory] == captured.identity
    && FilesUnchangedExcept(captured.files, Listing(fs, captured.directory), recipe, prepared)
  }

  /** A directory as the source captures it: a vector of files, each path once. */
  datatype FileSnapshot = FileSnapshot(path: CatalogPath, file: File)

  datatype DirectorySnapshot = DirectorySnapshot(directory: string, identity: nat, files: seq<FileSnapshot>)

  ghost predicate PathsAreDistinct(files: seq<FileSnapshot>) {
    forall i, j :: 0 <= i < j < |files| ==> files[i].path != files[j].path
  }

  ghost predicate HasPath(files: seq<FileSnapshot>, p: CatalogPath) {
    exists f :: f in files && f.path == p
  }

  function AsMap(files: seq<FileSnapshot>): (m: map<CatalogPath, File>)
    ensures forall p :: p in m <==> HasPath(files, p)
    ensures PathsAreDistinct(files) ==> forall f :: f in files ==> f.path in m && m[f.path] == f.file
  {
    if files == [] then map[]
    else
      var init, last := files[..|files| - 1], files[|files| - 1];
      assert forall f :: f in files <==> f in init || f == last;
      assert PathsAreDistinct(files) ==> PathsAreDistinct(init) && forall f :: f in init ==> f.path != last.path;
      AsMap(init)[last.path := last.file]
  }

  method Position(files: seq<FileSnapshot>, path: CatalogPath) returns (index: Option<nat>)
    ensures index.Some? ==> index.value < |files| && files[index.value].path == path
    ensures index.None? ==> forall i :: 0 <= i < |files| ==> files[i].path != path
  {
    for i := 0 to |files|
      invariant forall j :: 0 <= j < i ==> files[j].path != path
    {
      if files[i].path == path {
        return Some(i);
      }
    }
    index := None;
  }

  /** A current file is one the comparison accepts. */
  ghost predicate Accepted(captured: seq<FileSnapshot>, f: FileSnapshot, recipe: CatalogPath, prepared: string) {
    if f.path == recipe then f.file.bytes == prepared else f in captured
  }

  /**
   The comparison loop with its `matched` vector: it accepts exactly when the
   current files without the owned Recipe are the captured files as a map from
   path to bytes and identity, and the Recipe, if there, has the prepared bytes.
   */
  method IsUnchangedExceptOwnedRecipe(
      captured: DirectorySnapshot, current: DirectorySnapshot, recipe: CatalogPath, prepared: string)
    returns (same: bool)
    requires PathsAreDistinct(captured.files) && PathsAreDistinct(current.files)
    ensures same <==>
              && current.directory == captured.directory
              && current.identity == captured.identity
              && FilesUnchangedExcept(AsMap(captured.files), AsMap(current.files), recipe, prepared)
  {
    if current.directory != captured.directory || current.identity != captured.identity {
      return false;
    }
    var n := |captured.files|;
    var matched := new bool[n](_ => false);
    for i := 0 to |current.files|
      invariant forall j :: 0 <= j < i ==> Accepted(captured.files, current.files[j], recipe, prepared)
      invariant forall k :: 0 <= k < n ==>
                  (matched[k] <==>
                     captured.files[k].path != recipe && HasPath(current.files[..i], captured.files[k].path))
    {
      var file := current.files[i];
      assert current.files[..i + 1] == current.files[..i] + [file];
      if file.path == recipe {
        if file.file.bytes != prepared {
          SameFilesAreAccepted(captured.files, current.files, i, recipe, prepared);
          return false;
        }
        continue;
      }
      var index := Position(captured.files, file.path);
      if index.None? {
        SameFilesAreAccepted(captured.files, current.files, i, recipe, prepared);
        return false;
      }
      if matched[index.value] || captured.files[index.value].file != file.file {
        SameFilesAreAccepted(captured.files, current.files, i, recipe, prepared);
        return false;
      }
      matched[index.value] := true;
    }
    assert current.files[..|current.files|] == current.files;
    for k := 0 to n
      invariant forall j :: 0 <= j < k ==> matched[j]
    {
      if !matched[k] {
        UnmatchedFileIsMissing(captured.files, current.files, k, recipe);
        return false;
      }
    }
    AllMatchedMeansSame(captured.files, current.files, recipe, prepared);
    same := true;
  }

  lemma MapHolds(files: seq<FileSnapshot>, f: FileSnapshot)
    requires PathsAreDistinct(files)
    ensures f in files <==> f.path in AsMap(files) && AsMap(files)[f.path] == f.file
  {
    if f.path in AsMap(files) {
      var g :| g in files && g.path == f.path;
      assert AsMap(files)[g.path] == g.file;
    }
  }

  lemma SameFilesAreAccepted(
      captured: seq<FileSnapshot>, current: seq<FileSnapshot>, i: nat, recipe: CatalogPath, prepared: string)
    requires PathsAreDistinct(captured) && PathsAreDistinct(current) && i < |current|
    ensures FilesUnchangedExcept(AsMap(captured), AsMap(current), recipe, prepared)
            ==> Accepted(captured, current[i], recipe, prepared)
  {
    var f := current[i];
    MapHolds(current, f);
    MapHolds(captured, f);
    assert f.path != recipe ==> f.path in AsMap(current) - {recipe};
  }

  lemma UnmatchedFileIsMissing(captured: seq<FileSnapshot>, current: seq<FileSnapshot>, k: nat, recipe: CatalogPath)
    requires k < |captured|
    requires captured[k].path == recipe || !HasPath(current, captured[k].path)
    ensures AsMap(current) - {recipe} != AsMap(captured)
  {
    assert captured[k] in captured;
    assert captured[k].path in AsMap(captured);
    assert captured[k].path !in AsMap(current) - {recipe};
  }

  lemma CurrentFileIsCaptured(
      captured: seq<FileSnapshot>, current: seq<FileSnapshot>, recipe: CatalogPath, prepared: string, p: CatalogPath)
    requires PathsAreDistinct(captured) && PathsAreDistinct(current)
    requires forall f :: f in current ==> Accepted(captured, f, recipe, prepared)
    requires p in AsMap(current)
    ensures if p == recipe then AsMap(current)[p].bytes == prepared
            else p in AsMap(captured) && AsMap(captured)[p] == AsMap(current)[p]
  {
    var f := FileSnapshot(p, AsMap(current)[p]);
    MapHolds(current, f);
    MapHolds(captured, f);
  }

  lemma CapturedFileIsCurrent(
      captured: seq<FileSnapshot>, current: seq<FileSnapshot>, recipe: CatalogPath, p: CatalogPath)
    requires forall f :: f in captured ==> f.path != recipe && HasPath(current, f.path)
    requires p in AsMap(captured)
    ensures p != recipe && p in AsMap(current)
  {
    var f :| f in captured && f.path == p;
  }

  lemma MapsAgree(a: map<CatalogPath, File>, b: map<CatalogPath, File>)
    requires forall p :: p in a ==> p in b && b[p] == a[p]
    requires forall p :: p in b ==> p in a
    ensures a == b
  {
  }

  lemma AllMatchedMeansSame(
      captured: seq<FileSnapshot>, current: seq<FileSnapshot>, recipe: CatalogPath, prepared: string)
    requires PathsAreDistinct(captured) && PathsAreDistinct(current)
    requires forall f :: f in current ==> Accepted(captured, f, recipe, prepared)
    requires forall f :: f in captured ==> f.path != recipe && HasPath(current, f.path)
    ensures FilesUnchangedExcept(AsMap(captured), AsMap(current), recipe, prepared)
  {
    var before, all := AsMap(captured), AsMap(current);
    var now := all - {recipe};
    forall p | p in now ensures p in before && before[p] == now[p] {
      CurrentFileIsCaptured(captured, current, recipe, prepared, p);
    }
    forall p | p in before ensures p in now {
      CapturedFileIsCurrent(captured, current, recipe, p);
    }
    MapsAgree(now, before);
    if recipe in all {
      CurrentFileIsCaptured(captured, current, recipe, prepared, recipe);
    }
  }
}
