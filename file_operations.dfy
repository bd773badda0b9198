/** Archiving the files that carry an attribute value
    (src/domain/FileOperations.ts): the target folder, the selection, and
    the renames against the file system. */
module FileOperations {
  import opened Results
  import opened Text
  import opened Seqs
  import opened Model

  /** The part of the file system `archive` touches: file contents by path
      and the set of existing directories. */
  class FileSystem {
    var files: map<string, string>
    var dirs: set<string>

    constructor(files: map<string, string>, dirs: set<string>)
      ensures this.files == files && this.dirs == dirs
    {
      this.files := files;
      this.dirs := dirs;
    }

    /** `existsSync`. */
    predicate Exists(p: string)
      reads this
    {
      p in files || p in dirs
    }

    /** `mkdirSync(p, { recursive: true })`: the folder and its ancestors. */
    method MkdirRecursive(p: string)
      modifies this
      ensures dirs == old(dirs) + DirChain(p)
      ensures files == old(files)
    {
      dirs := dirs + DirChain(p);
    }

    /** `renameSync(src, dst)`: moves the file, replacing whatever file was at
        `dst`; it throws (here: reports failure and changes nothing) when
        there is no file at `src`. */
    method Rename(src: string, dst: string) returns (ok: bool)
      modifies this
      ensures ok == (src in old(files))
      ensures files == if ok then Moved(old(files), src, dst) else old(files)
      ensures dirs == old(dirs)
    {
      ok := src in files;
      if ok {
        files := Moved(files, src, dst);
      }
    }
  }

  /** A path and every ancestor folder of it. */
  function DirChain(p: string): (r: set<string>)
    ensures p in r
    ensures forall q :: q in r ==> StartsWith(p, q)
  {
    {p} + set i | 0 < i < |p| && p[i] == '/' :: p[..i]
  }

  /** The file at `src` now lives at `dst`. */
  function Moved(files: map<string, string>, src: string, dst: string): map<string, string>
    requires src in files
  {
    (files - {src})[dst := files[src]]
  }

  /** The folder `path.join(root, archive, year, name + " - " + value)`. */
  function ArchiveFolder(root: string, archive: string, year: string, name: string, value: string): (r: string)
    ensures StartsWith(r, root + "/" + archive + "/" + year + "/")
    ensures EndsWith(r, "/" + name + " - " + value)
  {
    var r := JoinPath(JoinPath(JoinPath(root, archive), year), name + " - " + value);
    assert r == root + "/" + archive + "/" + year + "/" + (name + " - " + value);
    r
  }

  /** The archive folder is named after the attribute and its value. */
  lemma ArchiveFolderName(root: string, archive: string, year: string, name: string, value: string)
    requires '/' !in name && '/' !in value
    ensures Basename(ArchiveFolder(root, archive, year, name, value)) == name + " - " + value
  {
    var folderName := name + " - " + value;
    assert folderName[|name|..|name| + 3] == " - ";
    assert forall i :: 0 <= i < |folderName| ==>
      folderName[i] == (if i < |name| then name[i] else if i < |name| + 3 then " - "[i - |name|] else value[i - |name| - 3]);
    assert forall i :: 0 <= i < |folderName| ==> folderName[i] != '/';
    BasenameJoin(JoinPath(JoinPath(root, archive), year), folderName);
  }

  /** `file.fileProperties.attributes[name] === value`: only an object header
      has keys, and the comparison is strict, so only the string `value`
      matches. */
  predicate Carries(f: ParsedFile, name: string, value: string) {
    YGet(f.fileProperties.attributes, name) == Some(YStr(value))
  }

  function CarriesValue(name: string, value: string): ParsedFile -> bool {
    (f: ParsedFile) => Carries(f, name, value)
  }

  /** The (source, destination) pairs `archive` renames, in the order of the
      folder's files. */
  function ArchiveMoves(files: seq<ParsedFile>, name: string, value: string, folder: string): seq<(string, string)> {
    MovesTo(Filter(files, CarriesValue(name, value)), folder)
  }

  /** Each file goes to the folder under its own name. */
  function MovesTo(selected: seq<ParsedFile>, folder: string): (moves: seq<(string, string)>)
    ensures |moves| == |selected|
    ensures forall i :: 0 <= i < |selected| ==>
      moves[i] == (selected[i].fileProperties.path, JoinPath(folder, selected[i].fileProperties.name))
  {
    seq(|selected|, i requires 0 <= i < |selected| =>
      (selected[i].fileProperties.path, JoinPath(folder, selected[i].fileProperties.name)))
  }

  /** A rename is planned exactly for each file carrying the value, and sends
      it to the archive folder under its own name. */
  lemma ArchiveMovesExactly(files: seq<ParsedFile>, name: string, value: string, folder: string)
    ensures forall m :: m in ArchiveMoves(files, name, value, folder) <==>
      exists f :: f in files && Carries(f, name, value) && m == (f.fileProperties.path, JoinPath(folder, f.fileProperties.name))
  {
    var selected := Filter(files, CarriesValue(name, value));
    var moves := ArchiveMoves(files, name, value, folder);
    forall m | m in moves
      ensures exists f :: f in files && Carries(f, name, value) && m == (f.fileProperties.path, JoinPath(folder, f.fileProperties.name))
    {
      var i :| 0 <= i < |moves| && moves[i] == m;
      assert selected[i] in selected;
    }
    forall f | f in files && Carries(f, name, value)
      ensures (f.fileProperties.path, JoinPath(folder, f.fileProperties.name)) in moves
    {
      var i :| 0 <= i < |selected| && selected[i] == f;
      assert moves[i] == (f.fileProperties.path, JoinPath(folder, f.fileProperties.name));
    }
  }

  /** The files after a sequence of renames, and whether every rename
      happened (the first failing one throws and ends the `forEach`). */
  datatype MoveResult = MoveResult(files: map<string, string>, complete: bool)

  function ApplyMoves(files: map<string, string>, moves: seq<(string, string)>): MoveResult {
    if moves == [] then MoveResult(files, true)
    else
      var r := ApplyMoves(files, moves[..|moves| - 1]);
      var m := moves[|moves| - 1];
      if !r.complete then r
      else if m.0 in r.files then MoveResult(Moved(r.files, m.0, m.1), true)
      else MoveResult(r.files, false)
  }

  /** Once a rename has failed, later moves change nothing. */
  lemma {:induction false} ApplyMovesStuck(files: map<string, string>, moves: seq<(string, string)>, i: nat)
    requires i <= |moves| && !ApplyMoves(files, moves[..i]).complete
    ensures ApplyMoves(files, moves) == ApplyMoves(files, moves[..i])
  {
    if i < |moves| {
      assert moves[..|moves| - 1][..i] == moves[..i];
      ApplyMovesStuck(files, moves[..|moves| - 1], i);
    } else {
      assert moves[..i] == moves;
    }
  }

  /** A path that is neither the source nor the destination of any rename
      keeps its file, or its absence. */
  lemma {:induction false} ApplyMovesFrame(files: map<string, string>, moves: seq<(string, string)>, p: string)
    requires forall k :: 0 <= k < |moves| ==> moves[k].0 != p && moves[k].1 != p
    ensures var r := ApplyMoves(files, moves);
      (p in r.files <==> p in files) && (p in files ==> r.files[p] == files[p])
  {
    if moves != [] {
      ApplyMovesFrame(files, moves[..|moves| - 1], p);
    }
  }

  /** When the sources exist and are distinct, the destinations are distinct,
      and no destination is a source, every rename happens and each file ends
      at its destination, gone from its source. */
  lemma {:induction false} ApplyMovesLands(files: map<string, string>, moves: seq<(string, string)>)
    requires forall k :: 0 <= k < |moves| ==> moves[k].0 in files
    requires forall j, k :: 0 <= j < k < |moves| ==> moves[j].0 != moves[k].0 && moves[j].1 != moves[k].1
    requires forall j, k :: 0 <= j < |moves| && 0 <= k < |moves| ==> moves[j].1 != moves[k].0
    ensures var r := ApplyMoves(files, moves);
      && r.complete
      && forall k :: 0 <= k < |moves| ==> moves[k].0 !in r.files && moves[k].1 in r.files && r.files[moves[k].1] == files[moves[k].0]
  {
    if moves != [] {
      var init, m := moves[..|moves| - 1], moves[|moves| - 1];
      ApplyMovesLands(files, init);
      ApplyMovesFrame(files, init, m.0);
    }
  }

  /** `archive`: creates the target folder when it does not exist, then
      renames the files carrying the value into it, in order, stopping at the
      first rename that throws. */
  method Archive(fs: FileSystem, root: string, archive: string, year: string,
                 files: seq<ParsedFile>, name: string, value: string) returns (ok: bool)
    modifies fs
    ensures var folder := ArchiveFolder(root, archive, year, name, value);
      fs.dirs == if old(fs.Exists(folder)) then old(fs.dirs) else old(fs.dirs) + DirChain(folder)
    ensures var r := ApplyMoves(old(fs.files), ArchiveMoves(files, name, value, ArchiveFolder(root, archive, year, name, value)));
      fs.files == r.files && ok == r.complete
  {
    var folder := ArchiveFolder(root, archive, year, name, value);
    if !fs.Exists(folder) {
      fs.MkdirRecursive(folder);
    }
    var selected := Filter(files, CarriesValue(name, value));
    ok := MoveAll(fs, selected, folder);
  }

  /** The `forEach` of `archive`: renames each selected file into the
      folder, in order, stopping at the first rename that throws. */
  method MoveAll(fs: FileSystem, selected: seq<ParsedFile>, folder: string) returns (ok: bool)
    modifies fs
    ensures var r := ApplyMoves(old(fs.files), MovesTo(selected, folder));
      fs.files == r.files && ok == r.complete
    ensures fs.dirs == old(fs.dirs)
  {
    ghost var moves := MovesTo(selected, folder);
    ok := true;
    var i := 0;
    while i < |selected| && ok
      invariant 0 <= i <= |selected|
      invariant ApplyMoves(old(fs.files), moves[..i]) == MoveResult(fs.files, ok)
      invariant fs.dirs == old(fs.dirs)
    {
      var src, dest := selected[i].fileProperties.path, JoinPath(folder, selected[i].fileProperties.name);
      ok := fs.Rename(src, dest);
      assert moves[..i + 1][..i] == moves[..i];
      i := i + 1;
    }
    if ok {
      assert moves[..i] == moves;
    } else {
      ApplyMovesStuck(old(fs.files), moves, i);
    }
  }
}
