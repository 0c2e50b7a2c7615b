/** Custom decorations and the desktop branch of
    `processCustomDecorations`: every record is reconciled against the
    filesystem in turn (one branch per record, Add before Remove before
    Rename), then the records still marked Remove are erased.

    The filesystem is a value `Disk` (file contents by path, and the set of
    directories); `FileStore` is the mutable filesystem the reconciler
    works on. Whether a filesystem call throws is not a function of the
    disk, so every call takes a `fail` flag that makes it throw. */
module Decorations {

  // ---------------------------------------------------------------------
  // Records

  /** `CustomeDecorationOperationEnum`. */
  datatype Op = None | Add | Remove | Rename

  /** A `CustomeDecorationList` record as the reconciler sees it. */
  datatype Decoration = Decoration(name: string, path: string, operations: seq<Op>)

  /** `hasOperation`: the operation is among the record's operations. */
  predicate HasOperation(deco: Decoration, op: Op) {
    op in deco.operations
  }

  // ---------------------------------------------------------------------
  // Paths and the filesystem

  /** `std::filesystem::path::operator/` for a relative second part: a
      separator goes in between unless the base is empty or already ends
      with one. */
  function Join(base: string, name: string): (p: string)
    ensures |p| >= |base| + |name|
  {
    if base == [] || base[|base| - 1] == '/' then base + name else base + "/" + name
  }

  /** `gamePath / "decor"`. */
  function DecorDir(gamePath: string): string {
    Join(gamePath, "decor")
  }

  /** `decorDir / (name + ".png")`: where a decoration's image belongs. */
  function Target(decorDir: string, name: string): string {
    Join(decorDir, name + ".png")
  }

  type Bytes = seq<bv8>

  datatype Disk = Disk(files: map<string, Bytes>, dirs: set<string>)

  /** The result of a filesystem call that may throw. */
  datatype Result = Done(disk: Disk) | Threw

  /** `copy_file(from, to, overwrite_existing)`: throws when told to, when
      the source is not a file, or when source and target are the same
      file; otherwise the target holds the source's contents. */
  function Copy(disk: Disk, from: string, to: string, fail: bool): (r: Result)
    ensures r.Done? <==> !fail && from in disk.files && from != to
  {
    if fail || from !in disk.files || from == to then Threw
    else Done(disk.(files := disk.files[to := disk.files[from]]))
  }

  /** `remove(path)` of an existing file. */
  function Delete(disk: Disk, path: string, fail: bool): (r: Result)
    ensures r.Done? <==> !fail
  {
    if fail then Threw else Done(disk.(files := disk.files - {path}))
  }

  /** `rename(from, to)` of an existing file: the contents move, replacing
      what was at the target. */
  function Move(disk: Disk, from: string, to: string, fail: bool): (r: Result)
    requires from in disk.files
    ensures r.Done? <==> !fail
  {
    if fail then Threw else Done(disk.(files := (disk.files - {from})[to := disk.files[from]]))
  }

  /** `create_directories(decorDir)` when `decorDir` does not exist.
      `fail` makes that call throw; nothing in `processCustomDecorations`
      catches it, so the exception leaves the function. */
  function Prepared(disk: Disk, decorDir: string, fail: bool): (r: Result)
    ensures r.Done? <==> decorDir in disk.dirs || !fail
    ensures r.Done? ==> r.disk.files == disk.files && r.disk.dirs == disk.dirs + {decorDir}
  {
    if decorDir in disk.dirs then Done(disk)
    else if fail then Threw
    else Done(disk.(dirs := disk.dirs + {decorDir}))
  }

  // ---------------------------------------------------------------------
  // The reconciler as a function

  /** One iteration of the loop: the record and the disk after it. A
      throwing call leaves both as they were (the exception is caught and
      logged). */
  function Step(deco: Decoration, disk: Disk, decorDir: string, fail: bool): (Decoration, Disk)
  {
    if HasOperation(deco, Add) then
      var dest := Target(decorDir, deco.name);
      match Copy(disk, deco.path, dest, fail)
      case Threw => (deco, disk)
      case Done(d) => (deco.(path := dest, operations := [None]), d)
    else if HasOperation(deco, Remove) then
      if deco.path !in disk.files then (deco.(operations := [Remove]), disk)
      else
        match Delete(disk, deco.path, fail)
        case Threw => (deco, disk)
        case Done(d) => (deco.(operations := [Remove]), d)
    else if HasOperation(deco, Rename) then
      var newPath := Target(decorDir, deco.name);
      if deco.path !in disk.files then (deco.(operations := [None]), disk)
      else
        match Move(disk, deco.path, newPath, fail)
        case Threw => (deco, disk)
        case Done(d) => (deco.(path := newPath, operations := [None]), d)
    else (deco, disk)
  }

  /** The loop over all records, `fails[i]` deciding whether record `i`'s
      filesystem call throws. */
  function Pass(records: seq<Decoration>, disk: Disk, decorDir: string, fails: seq<bool>): (r: (seq<Decoration>, Disk))
    requires |fails| == |records|
    ensures |r.0| == |records|
  {
    if records == [] then ([], disk)
    else
      var n := |records| - 1;
      var before := Pass(records[..n], disk, decorDir, fails[..n]);
      var after := Step(records[n], before.1, decorDir, fails[n]);
      (before.0 + [after.0], after.1)
  }

  /** The `remove_if`/`erase` sweep: the records not holding Remove, in
      their order. */
  function Survivors(records: seq<Decoration>): (r: seq<Decoration>)
    ensures |r| <= |records|
  {
    if records == [] then []
    else
      var n := |records| - 1;
      Survivors(records[..n]) + (if HasOperation(records[n], Remove) then [] else [records[n]])
  }

  /** `processCustomDecorations(gamePath)`: create the decor directory,
      reconcile every record, sweep. When creating the directory throws,
      no record is handled and nothing changes. */
  function Processed(records: seq<Decoration>, disk: Disk, gamePath: string, dirFail: bool, fails: seq<bool>)
    : (r: (seq<Decoration>, Disk))
    requires |fails| == |records|
  {
    var decorDir := DecorDir(gamePath);
    match Prepared(disk, decorDir, dirFail)
    case Threw => (records, disk)
    case Done(prepared) =>
      var pass := Pass(records, prepared, decorDir, fails);
      (Survivors(pass.0), pass.1)
  }

  // ---------------------------------------------------------------------
  // One record

  /** Add, when the copy goes through: the record points at its image in
      the decor directory, holds only None, and that image has the
      source's contents. */
  lemma StepAddCopies(deco: Decoration, disk: Disk, decorDir: string, fail: bool)
    requires HasOperation(deco, Add)
    requires !fail && deco.path in disk.files && deco.path != Target(decorDir, deco.name)
    ensures var (r, d) := Step(deco, disk, decorDir, fail);
      var dest := Target(decorDir, deco.name);
      && r == Decoration(deco.name, dest, [None])
      && dest in d.files && d.files[dest] == disk.files[deco.path]
      && deco.path in d.files && d.files[deco.path] == disk.files[deco.path]
  {
  }

  /** Add, when the copy throws or has nothing to copy: nothing changes,
      and the record keeps its operations for a later run. */
  lemma StepAddFails(deco: Decoration, disk: Disk, decorDir: string, fail: bool)
    requires HasOperation(deco, Add)
    requires fail || deco.path !in disk.files || deco.path == Target(decorDir, deco.name)
    ensures Step(deco, disk, decorDir, fail) == (deco, disk)
  {
  }

  /** Remove: unless deleting the existing file throws, the file is gone
      and the record holds only Remove. */
  lemma StepRemoves(deco: Decoration, disk: Disk, decorDir: string, fail: bool)
    requires !HasOperation(deco, Add) && HasOperation(deco, Remove)
    requires !fail || deco.path !in disk.files
    ensures var (r, d) := Step(deco, disk, decorDir, fail);
      && r == deco.(operations := [Remove])
      && deco.path !in d.files
  {
  }

  /** Rename: unless moving the existing file throws, the record holds only
      None, even when there was no file to move. Its path changes exactly
      when the file moved, and then the contents are at the new path. */
  lemma StepRenames(deco: Decoration, disk: Disk, decorDir: string, fail: bool)
    requires !HasOperation(deco, Add) && !HasOperation(deco, Remove) && HasOperation(deco, Rename)
    requires !fail || deco.path !in disk.files
    ensures var (r, d) := Step(deco, disk, decorDir, fail);
      var newPath := Target(decorDir, deco.name);
      && r.name == deco.name && r.operations == [None]
      && r.path == (if deco.path in disk.files then newPath else deco.path)
      && (deco.path in disk.files ==> newPath in d.files && d.files[newPath] == disk.files[deco.path])
  {
  }

  /** A call that throws in the Remove or Rename branch leaves the record
      and the disk as they were. */
  lemma StepThrows(deco: Decoration, disk: Disk, decorDir: string)
    requires !HasOperation(deco, Add) && (HasOperation(deco, Remove) || HasOperation(deco, Rename))
    requires deco.path in disk.files
    ensures Step(deco, disk, decorDir, true) == (deco, disk)
  {
  }

  /** A record with no pending operation is left alone. */
  lemma StepIdle(deco: Decoration, disk: Disk, decorDir: string, fail: bool)
    requires !HasOperation(deco, Add) && !HasOperation(deco, Remove) && !HasOperation(deco, Rename)
    ensures Step(deco, disk, decorDir, fail) == (deco, disk)
  {
  }

  /** Whatever happens, the record keeps its name, and its operations are
      either untouched or replaced by a single None or Remove. */
  lemma StepKeepsName(deco: Decoration, disk: Disk, decorDir: string, fail: bool)
    ensures var r := Step(deco, disk, decorDir, fail).0;
      && r.name == deco.name
      && (r.operations == deco.operations || r.operations == [None] || r.operations == [Remove])
  {
  }

  /** A record marked Remove and not Add is marked Remove afterwards, so the
      sweep erases it whether or not its file could be deleted. */
  lemma StepKeepsRemoveMark(deco: Decoration, disk: Disk, decorDir: string, fail: bool)
    requires !HasOperation(deco, Add) && HasOperation(deco, Remove)
    ensures HasOperation(Step(deco, disk, decorDir, fail).0, Remove)
  {
  }

  /** Only the record's own file and its target in the decor directory can
      change; directories never do. */
  lemma StepFrame(deco: Decoration, disk: Disk, decorDir: string, fail: bool, p: string)
    requires p != deco.path && p != Target(decorDir, deco.name)
    ensures var d := Step(deco, disk, decorDir, fail).1;
      && d.dirs == disk.dirs
      && (p in d.files <==> p in disk.files)
      && (p in disk.files ==> d.files[p] == disk.files[p])
  {
  }

  /** Add wins over Remove: a record marked both whose copy throws is erased
      by the sweep while its file stays where it was. */
  lemma AddRemoveFailedCopy(deco: Decoration, disk: Disk, decorDir: string)
    requires HasOperation(deco, Add) && HasOperation(deco, Remove)
    ensures var (r, d) := Step(deco, disk, decorDir, true);
      d == disk && Survivors([r]) == []
  {
    var r := Step(deco, disk, decorDir, true).0;
    assert [r][..0] == [];
  }

  /** And when the copy of such a record goes through, it survives the
      sweep pointing at its copy. */
  lemma AddRemoveCopied(deco: Decoration, disk: Disk, decorDir: string)
    requires HasOperation(deco, Add) && HasOperation(deco, Remove)
    requires deco.path in disk.files && deco.path != Target(decorDir, deco.name)
    ensures var r := Step(deco, disk, decorDir, false).0;
      Survivors([r]) == [Decoration(deco.name, Target(decorDir, deco.name), [None])]
  {
    var r := Step(deco, disk, decorDir, false).0;
    assert [r][..0] == [];
  }

  // ---------------------------------------------------------------------
  // The loop

  /** The pass keeps every record's name, and every record marked Remove
      and not Add ends marked Remove. */
  lemma {:induction false} PassKeepsNames(records: seq<Decoration>, disk: Disk, decorDir: string, fails: seq<bool>)
    requires |fails| == |records|
    ensures var rs := Pass(records, disk, decorDir, fails).0;
      forall i :: 0 <= i < |records| ==>
        && rs[i].name == records[i].name
        && (!HasOperation(records[i], Add) && HasOperation(records[i], Remove) ==> HasOperation(rs[i], Remove))
  {
    if records != [] {
      var n := |records| - 1;
      var before := Pass(records[..n], disk, decorDir, fails[..n]);
      PassKeepsNames(records[..n], disk, decorDir, fails[..n]);
      StepKeepsName(records[n], before.1, decorDir, fails[n]);
      if !HasOperation(records[n], Add) && HasOperation(records[n], Remove) {
        StepKeepsRemoveMark(records[n], before.1, decorDir, fails[n]);
      }
    }
  }

  /** The pass never changes the set of directories. */
  lemma {:induction false} PassKeepsDirs(records: seq<Decoration>, disk: Disk, decorDir: string, fails: seq<bool>)
    requires |fails| == |records|
    ensures Pass(records, disk, decorDir, fails).1.dirs == disk.dirs
  {
    if records != [] {
      var n := |records| - 1;
      PassKeepsDirs(records[..n], disk, decorDir, fails[..n]);
    }
  }

  // ---------------------------------------------------------------------
  // The sweep

  /** A record survives exactly when it does not hold Remove. */
  lemma {:induction false} SurvivorsMembers(records: seq<Decoration>, x: Decoration)
    ensures x in Survivors(records) <==> x in records && !HasOperation(x, Remove)
  {
    if records != [] {
      var n := |records| - 1;
      SurvivorsMembers(records[..n], x);
      assert records == records[..n] + [records[n]];
    }
  }

  /** The sweep keeps order: it works piecewise on a concatenation. */
  lemma {:induction false} SurvivorsAppend(a: seq<Decoration>, b: seq<Decoration>)
    ensures Survivors(a + b) == Survivors(a) + Survivors(b)
  {
    if b == [] {
      assert a + b == a;
    } else {
      var n := |b| - 1;
      assert (a + b)[..|a| + n] == a + b[..n];
      SurvivorsAppend(a, b[..n]);
    }
  }

  /** The sweep changes nothing when no record holds Remove. */
  lemma {:induction false} SurvivorsOfUnmarked(records: seq<Decoration>)
    requires forall i :: 0 <= i < |records| ==> !HasOperation(records[i], Remove)
    ensures Survivors(records) == records
  {
    if records != [] {
      var n := |records| - 1;
      SurvivorsOfUnmarked(records[..n]);
      assert records[..n] + [records[n]] == records;
    }
  }

  /** When the decor directory is missing and cannot be created, the
      records and the disk are left as they were. */
  lemma ProcessedAborts(records: seq<Decoration>, disk: Disk, gamePath: string, fails: seq<bool>)
    requires |fails| == |records| && DecorDir(gamePath) !in disk.dirs
    ensures Prepared(disk, DecorDir(gamePath), true) == Threw
    ensures Processed(records, disk, gamePath, true, fails) == (records, disk)
  {
  }

  /** After processing, no record holds Remove, every remaining record is
      one the pass produced, and the directory for decorations exists. */
  lemma ProcessedResult(records: seq<Decoration>, disk: Disk, gamePath: string, dirFail: bool, fails: seq<bool>)
    requires |fails| == |records|
    ensures var decorDir := DecorDir(gamePath);
      var prepared := Prepared(disk, decorDir, dirFail);
      prepared.Done? ==>
        var (rs, d) := Processed(records, disk, gamePath, dirFail, fails);
        var pass := Pass(records, prepared.disk, decorDir, fails).0;
        && (forall x :: x in rs ==> x in pass && !HasOperation(x, Remove))
        && decorDir in d.dirs
  {
    var decorDir := DecorDir(gamePath);
    var prepared := Prepared(disk, decorDir, dirFail);
    if prepared.Done? {
      var pass := Pass(records, prepared.disk, decorDir, fails).0;
      forall x | x in Survivors(pass) ensures x in pass && !HasOperation(x, Remove) {
        SurvivorsMembers(pass, x);
      }
      PassKeepsDirs(records, prepared.disk, decorDir, fails);
    }
  }

  /** A record marked Remove and not Add does not survive processing: what
      the pass made of it is not among the remaining records. */
  lemma ProcessedDropsRemoved(records: seq<Decoration>, disk: Disk, gamePath: string, dirFail: bool, fails: seq<bool>, i: nat)
    requires |fails| == |records| && i < |records|
    requires !HasOperation(records[i], Add) && HasOperation(records[i], Remove)
    ensures var decorDir := DecorDir(gamePath);
      var prepared := Prepared(disk, decorDir, dirFail);
      prepared.Done? ==>
        var pass := Pass(records, prepared.disk, decorDir, fails).0;
        pass[i] !in Processed(records, disk, gamePath, dirFail, fails).0
  {
    var decorDir := DecorDir(gamePath);
    var prepared := Prepared(disk, decorDir, dirFail);
    if prepared.Done? {
      var pass := Pass(records, prepared.disk, decorDir, fails).0;
      PassKeepsNames(records, prepared.disk, decorDir, fails);
      SurvivorsMembers(pass, pass[i]);
    }
  }

  // ---------------------------------------------------------------------
  // The mutable filesystem

  /** The filesystem the reconciler changes. */
  class FileStore {
    var files: map<string, Bytes>
    var dirs: set<string>

    function State(): Disk
      reads this
    {
      Disk(files, dirs)
    }

    constructor(disk: Disk)
      ensures State() == disk
    {
      files := disk.files;
      dirs := disk.dirs;
    }

    /** `exists(path)` for a record's file. */
    method FileExists(path: string) returns (b: bool)
      ensures b <==> path in files
    {
      b := path in files;
    }

    /** `exists(path)` for a directory. */
    method DirExists(path: string) returns (b: bool)
      ensures b <==> path in dirs
    {
      b := path in dirs;
    }

    /** `create_directories(path)`; `ok` is false when it throws. */
    method CreateDirectories(path: string, fail: bool) returns (ok: bool)
      modifies this
      ensures ok <==> !fail
      ensures State() == if ok then old(State()).(dirs := old(dirs) + {path}) else old(State())
    {
      if fail {
        return false;
      }
      dirs := dirs + {path};
      return true;
    }

    /** `copy_file`; `ok` is false when it throws. */
    method CopyFile(from: string, to: string, fail: bool) returns (ok: bool)
      modifies this
      ensures ok <==> Copy(old(State()), from, to, fail).Done?
      ensures State() == if ok then Copy(old(State()), from, to, fail).disk else old(State())
    {
      if fail || from !in files || from == to {
        ok := false;
      } else {
        files := files[to := files[from]];
        ok := true;
      }
    }

    /** `remove` of an existing file; `ok` is false when it throws. */
    method RemoveFile(path: string, fail: bool) returns (ok: bool)
      modifies this
      ensures ok == !fail
      ensures State() == if ok then Delete(old(State()), path, fail).disk else old(State())
    {
      ok := !fail;
      if ok {
        files := files - {path};
      }
    }

    /** `rename` of an existing file; `ok` is false when it throws. */
    method RenameFile(from: string, to: string, fail: bool) returns (ok: bool)
      requires from in files
      modifies this
      ensures ok == !fail
      ensures State() == if ok then Move(old(State()), from, to, fail).disk else old(State())
    {
      ok := !fail;
      if ok {
        files := (files - {from})[to := files[from]];
      }
    }
  }
}
