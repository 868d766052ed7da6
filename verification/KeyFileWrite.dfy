/**
  Writing the key file back: `Scp03KeyFile::write` over a directory whose calls
  may fail, with a record of every state that a crash could leave behind.
 */
module KeyFileWrite {
  import opened Prelude
  import opened Keys
  import Hex
  import KeyFile

  /** The files of the directory by name. */
  type Disk = map<string, string>

  function Backup(path: string): string {
    path + ".bak"
  }

  function Temporary(path: string): string {
    path + ".tmp"
  }

  lemma NamesDiffer(path: string)
    ensures Backup(path) == path + ".bak" && Temporary(path) == path + ".tmp"
    ensures Backup(path) != path && Temporary(path) != path && Temporary(path) != Backup(path)
  {
    assert |Backup(path)| == |path| + 4 && Backup(path)[|path| + 1] == 'b' && Temporary(path)[|path| + 1] == 't';
  }

  /**
    The calls `write` makes on the file system. `crashPoints` records the disk
    after every change: what remains if the process dies before the next one.
   */
  class FileSystem {
    var files: Disk
    var crashPoints: seq<Disk>

    constructor (files: Disk)
      ensures this.files == files && crashPoints == []
    {
      this.files := files;
      crashPoints := [];
    }

    /** `fopen(path, "rb")`: a file that is there may still be denied. */
    method OpenRead(path: string, denied: bool) returns (ok: bool)
      ensures ok <==> path in files && !denied
    {
      ok := path in files && !denied;
    }

    method Remove(path: string, fails: bool) returns (ok: bool)
      modifies this
      ensures ok <==> path in old(files) && !fails
      ensures files == if ok then old(files) - {path} else old(files)
      ensures crashPoints == old(crashPoints) + [files]
    {
      ok := path in files && !fails;
      if ok {
        files := files - {path};
      }
      crashPoints := crashPoints + [files];
    }

    /** `rename` replaces an existing target in one step. */
    method Rename(source: string, target: string, fails: bool) returns (ok: bool)
      modifies this
      ensures ok <==> source in old(files) && !fails
      ensures files == if ok then (old(files) - {source})[target := old(files)[source]] else old(files)
      ensures crashPoints == old(crashPoints) + [files]
    {
      ok := source in files && !fails;
      if ok {
        files := (files - {source})[target := files[source]];
      }
      crashPoints := crashPoints + [files];
    }

    /** `fopen(path, "wb")`: creates the file or empties it. */
    method OpenWrite(path: string, fails: bool) returns (ok: bool)
      modifies this
      ensures ok == !fails
      ensures files == if ok then old(files)[path := ""] else old(files)
      ensures crashPoints == old(crashPoints) + [files]
    {
      ok := !fails;
      if ok {
        files := files[path := ""];
      }
      crashPoints := crashPoints + [files];
    }

    /** `fflush` and `fclose`: part of the buffered text may reach the disk
      * before the rest does or an error stops it. */
    method Flush(path: string, text: string, part: nat, fails: bool) returns (ok: bool)
      modifies this
      ensures ok == !fails
      ensures var partly := old(files)[path := Prefix(text, part)];
              && files == (if ok then old(files)[path := text] else partly)
              && crashPoints == old(crashPoints) + [partly, files]
    {
      ok := !fails;
      files := files[path := Prefix(text, part)];
      crashPoints := crashPoints + [files];
      if ok {
        files := files[path := text];
      }
      crashPoints := crashPoints + [files];
    }
  }

  function Prefix(text: string, n: nat): string {
    if n <= |text| then text[..n] else text
  }

  /** Which calls of one `write` fail, and how much text a partial flush leaves. */
  datatype Faults = Faults(openRead: bool, removeBackup: bool, renameBackup: bool, openWrite: bool,
                           flush: bool, part: nat, removeTemporary: bool, renameTemporary: bool)

  datatype WriteError = CannotBackUp | CannotOpen | CannotFlush | CannotRename

  ghost predicate SameFile(a: Disk, b: Disk, name: string) {
    (name in a <==> name in b) && (name in a ==> a[name] == b[name])
  }

  /** `name` holds exactly `text`. */
  ghost predicate Holds(d: Disk, name: string, text: string) {
    name in d && d[name] == text
  }

  /** The contents `previous` are whole at the path, or at the backup while the path is absent or new. */
  ghost predicate Survives(previous: string, now: Disk, path: string, text: string) {
    || Holds(now, path, previous)
    || (Holds(now, Backup(path), previous) && (path !in now || Holds(now, path, text)))
  }

  /**
    What is true of the disk whenever a write of `text` over the disk `before`
    stops: the path is absent or whole, old contents that could be readable
    survive at the path or at the backup, and otherwise the backup is not touched.
   */
  ghost predicate CrashSafe(before: Disk, now: Disk, path: string, text: string, readable: bool) {
    && (path !in now || SameFile(before, now, path) || Holds(now, path, text))
    && (readable ==> path in before && Survives(before[path], now, path, text))
    && (!readable ==> SameFile(before, now, Backup(path)))
    && (!readable && !Holds(now, path, text) ==> SameFile(before, now, path))
    && (forall name :: name != path && name != Backup(path) && name != Temporary(path) ==> SameFile(before, now, name))
  }

  /** The printing of one line: `fprintf` of the tag, the octets one by one, the newline. */
  method Emit(buffered: string, tag: string, key: Block) returns (r: string)
    ensures r == buffered + KeyFile.Line(tag, key)
  {
    var hex := Hex.Print(key);
    r := buffered + tag + " " + hex + "\n";
  }

  method Format(keys: KeySet) returns (text: string)
    ensures text == KeyFile.Text(keys)
  {
    text := Emit("", "ENC", keys.enc);
    text := Emit(text, "MAC", keys.mac);
    text := Emit(text, "DEK", keys.dek);
  }

  /** Every crash point since the record had length `start` satisfies CrashSafe. */
  ghost predicate CrashSafeSince(fs: FileSystem, start: nat, before: Disk, path: string, text: string, readable: bool)
    reads fs
  {
    && start <= |fs.crashPoints|
    && forall i :: start <= i < |fs.crashPoints| ==> CrashSafe(before, fs.crashPoints[i], path, text, readable)
  }

  /** The first half of `write`: any file that can be opened moves to the backup name. */
  method BackUp(fs: FileSystem, path: string, f: Faults, ghost text: string) returns (readable: bool, ok: bool)
    modifies fs
    ensures readable <==> path in old(fs.files) && !f.openRead
    ensures ok <==> (readable ==> !f.renameBackup)
    ensures old(fs.crashPoints) <= fs.crashPoints
    ensures CrashSafeSince(fs, |old(fs.crashPoints)|, old(fs.files), path, text, readable)
    ensures !readable ==> fs.files == old(fs.files)
    ensures readable && ok ==> fs.files == (old(fs.files) - {path})[Backup(path) := old(fs.files)[path]]
    ensures !ok ==> fs.files == if f.removeBackup then old(fs.files) else old(fs.files) - {Backup(path)}
  {
    NamesDiffer(path);
    ok := true;
    readable := fs.OpenRead(path, f.openRead);
    if readable {
      var removed := fs.Remove(Backup(path), f.removeBackup);
      ok := fs.Rename(path, Backup(path), f.renameBackup);
    }
  }

  ghost predicate AllCrashSafe(before: Disk, disks: seq<Disk>, path: string, text: string, readable: bool) {
    forall k :: 0 <= k < |disks| ==> CrashSafe(before, disks[k], path, text, readable)
  }

  /** What the second half of `write` may have done to the disk it started from. */
  ghost predicate Replacing(mid: Disk, now: Disk, path: string, text: string) {
    && (SameFile(mid, now, path) || Holds(now, path, text))
    && forall name :: name != path && name != Temporary(path) ==> SameFile(mid, now, name)
  }

  /** The second half: the new text goes to the temporary file, which then takes the path's name. */
  method Replace(fs: FileSystem, path: string, text: string, f: Faults) returns (r: Result<(), WriteError>)
    modifies fs
    ensures old(fs.crashPoints) <= fs.crashPoints
    ensures forall i :: |old(fs.crashPoints)| <= i < |fs.crashPoints|
                        ==> Replacing(old(fs.files), fs.crashPoints[i], path, text)
    ensures Replacing(old(fs.files), fs.files, path, text)
    ensures r == if f.openWrite then Err(CannotOpen)
                 else if f.flush then Err(CannotFlush)
                 else if f.renameTemporary then Err(CannotRename)
                 else Ok(())
    ensures if r.Ok? then Holds(fs.files, path, text) && Temporary(path) !in fs.files
            else SameFile(old(fs.files), fs.files, path)
  {
    NamesDiffer(path);
    ghost var mid := fs.files;
    var ok := fs.OpenWrite(Temporary(path), f.openWrite);
    assert Replacing(mid, fs.files, path, text);
    if !ok {
      return Err(CannotOpen);
    }
    ok := fs.Flush(Temporary(path), text, f.part, f.flush);
    assert Replacing(mid, fs.files, path, text);
    if !ok {
      ok := fs.Remove(Temporary(path), f.removeTemporary);
      return Err(CannotFlush);
    }
    ok := fs.Rename(Temporary(path), path, f.renameTemporary);
    assert Replacing(mid, fs.files, path, text);
    if !ok {
      ok := fs.Remove(Temporary(path), f.removeTemporary);
      return Err(CannotRename);
    }
    return Ok(());
  }

  /** A replacement over a backed-up disk, or over one whose path could not be opened, is crash-safe. */
  lemma ReplacingIsCrashSafe(before: Disk, mid: Disk, now: Disk, path: string, text: string, readable: bool)
    requires readable ==> path in before && mid == (before - {path})[Backup(path) := before[path]]
    requires !readable ==> mid == before
    requires Replacing(mid, now, path, text)
    ensures CrashSafe(before, now, path, text, readable)
  {
    NamesDiffer(path);
    assert SameFile(mid, now, Backup(path));
    forall name | name != path && name != Backup(path) && name != Temporary(path)
      ensures SameFile(before, now, name)
    {
      assert SameFile(mid, now, name);
    }
  }

  /** None of the calls that a write of this path depends on fails. */
  predicate CanSave(files: Disk, path: string, f: Faults) {
    && (path in files && !f.openRead ==> !f.renameBackup)
    && !f.openWrite && !f.flush && !f.renameTemporary
  }

  /**
    `write`: when it succeeds, what it leaves, and the safety of every crash
    point on the way and of its end. A failure leaves both the path and its
    backup as they were if and only if the path could not be opened, or the
    backup rename failed with no old backup lost before it.
   */
  method Write(fs: FileSystem, path: string, keys: KeySet, f: Faults) returns (r: Result<(), WriteError>)
    modifies fs
    ensures old(fs.crashPoints) <= fs.crashPoints
    ensures var readable := path in old(fs.files) && !f.openRead;
            && (r.Ok? <==> CanSave(old(fs.files), path, f))
            && (r.Err? ==> r.error == if readable && f.renameBackup then CannotBackUp
                                      else if f.openWrite then CannotOpen
                                      else if f.flush then CannotFlush
                                      else CannotRename)
            && (readable && r != Err(CannotBackUp) ==> Holds(fs.files, Backup(path), old(fs.files)[path]))
            && (readable && r.Err? && r != Err(CannotBackUp) ==> path !in fs.files)
            && (r.Err? ==> (SameFile(old(fs.files), fs.files, path) && SameFile(old(fs.files), fs.files, Backup(path))
                            <==> !readable
                                 || (r == Err(CannotBackUp) && (Backup(path) !in old(fs.files) || f.removeBackup))))
            && AllCrashSafe(old(fs.files), fs.crashPoints[|old(fs.crashPoints)|..] + [fs.files],
                            path, KeyFile.Text(keys), readable)
    ensures r.Ok? ==> Holds(fs.files, path, KeyFile.Text(keys)) && Temporary(path) !in fs.files
  {
    NamesDiffer(path);
    ghost var before, start := fs.files, |fs.crashPoints|;
    var text := Format(keys);
    var readable, ok := BackUp(fs, path, f, text);
    if !ok {
      assert CrashSafe(before, fs.files, path, text, readable);
      return Err(CannotBackUp);
    }
    ghost var mid, points := fs.files, fs.crashPoints;
    r := Replace(fs, path, text, f);
    assert SameFile(mid, fs.files, Backup(path));
    forall d: Disk | Replacing(mid, d, path, text)
      ensures CrashSafe(before, d, path, text, readable)
    {
      ReplacingIsCrashSafe(before, mid, d, path, text, readable);
    }
    assert forall i :: 0 <= i < |points| ==> fs.crashPoints[i] == points[i];
    assert CrashSafeSince(fs, start, before, path, text, readable);
  }

  /**
    A write that fails on its last rename, over a file with an older backup:
    there is no file under the path any more, and the older backup is lost.
   */
  method FailureMovesFile(path: string, keys: KeySet) returns (r: Result<(), WriteError>, files: Disk)
    ensures r == Err(CannotRename)
    ensures path !in files && Holds(files, Backup(path), "current")
  {
    NamesDiffer(path);
    var fs := new FileSystem(map[path := "current", Backup(path) := "older"]);
    r := Write(fs, path, keys, Faults(false, false, false, false, false, 0, false, true));
    files := fs.files;
  }
}
