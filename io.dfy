/**
 * The effects the verifiers have on the machine they run on: the caller's
 * local copy of the artifact (a byte stream with a read cursor), the scratch
 * directories the verifiers create and delete, and the fetcher that copies a
 * remote object into a local file. Whether an operation fails is fixed by
 * the object's own fields, so every run is determined by the state it
 * starts from.
 */
module LocalIo {
  import opened Types
  import opened Urls

  /** What the verifiers did to the local copy, in order. */
  datatype FileOp = ReadFrom(offset: nat) | Rewind

  /** A snapshot of a local file. */
  datatype FileState = FileState(name: string, content: Bytes, cursor: nat, readFails: bool, seekFails: bool)
  {
    predicate Valid() {
      cursor <= |content|
    }

    /** The bytes a read from the cursor to the end of the file yields. */
    function Rest(): Bytes
      requires Valid()
    {
      content[cursor..]
    }
  }

  /**
   * An open `*os.File`. Its bytes never change (the verifiers only read it);
   * `readFails` and `seekFails` say whether the operating system refuses
   * reads and seeks on it.
   */
  class LocalFile {
    const name: string
    const content: Bytes
    const readFails: bool
    const seekFails: bool
    var cursor: nat
    ghost var ops: seq<FileOp>

    ghost predicate Valid()
      reads this
    {
      cursor <= |content|
    }

    function State(): FileState
      reads this
    {
      FileState(name, content, cursor, readFails, seekFails)
    }

    constructor (name: string, content: Bytes, readFails: bool, seekFails: bool)
      ensures Valid() && State() == FileState(name, content, 0, readFails, seekFails) && ops == []
    {
      this.name, this.content := name, content;
      this.readFails, this.seekFails := readFails, seekFails;
      cursor, ops := 0, [];
    }

    /** `ioutil.ReadAll`: everything from the cursor to the end; the cursor ends at the end. */
    method ReadAll() returns (r: Option<Bytes>)
      requires Valid()
      modifies this`cursor, this`ops
      ensures Valid()
      ensures ops == old(ops) + [ReadFrom(old(cursor))]
      ensures readFails ==> r == None && cursor == old(cursor)
      ensures !readFails ==> r == Some(content[old(cursor)..]) && cursor == |content|
    {
      ops := ops + [ReadFrom(cursor)];
      if readFails {
        r := None;
      } else {
        r := Some(content[cursor..]);
        cursor := |content|;
      }
    }

    /** `Seek(0, os.SEEK_SET)`: back to the first byte, unless the file cannot seek. */
    method SeekStart() returns (ok: bool)
      requires Valid()
      modifies this`cursor, this`ops
      ensures Valid()
      ensures ops == old(ops) + [Rewind]
      ensures ok == !seekFails
      ensures cursor == if ok then 0 else old(cursor)
    {
      ops := ops + [Rewind];
      ok := !seekFails;
      if ok {
        cursor := 0;
      }
    }
  }

  /**
   * The scratch directories of the local file system. `dirs` maps each
   * directory that currently exists to the files in it; `next` names the
   * directory `TempDir` creates next.
   */
  class Disk {
    const tempDirFails: bool
    const unreadable: set<string>   // names of files the system fails to read back
    var dirs: map<nat, map<string, Bytes>>
    var next: nat

    ghost predicate Valid()
      reads this
    {
      forall d :: d in dirs ==> d < next
    }

    constructor (tempDirFails: bool, unreadable: set<string>)
      ensures Valid() && dirs == map[] && next == 0
      ensures this.tempDirFails == tempDirFails && this.unreadable == unreadable
    {
      this.tempDirFails, this.unreadable := tempDirFails, unreadable;
      dirs, next := map[], 0;
    }

    /** `ioutil.TempDir`: a new, empty directory whose name was never used before. */
    method TempDir() returns (d: Option<nat>)
      requires Valid()
      modifies this
      ensures Valid()
      ensures tempDirFails ==> d == None && dirs == old(dirs) && next == old(next)
      ensures !tempDirFails ==>
                d == Some(old(next)) && old(next) !in old(dirs) &&
                dirs == old(dirs)[old(next) := map[]] && next == old(next) + 1
    {
      if tempDirFails {
        d := None;
      } else {
        d := Some(next);
        dirs := dirs[next := map[]];
        next := next + 1;
      }
    }

    /** `ioutil.ReadFile` on a file in a scratch directory. */
    method ReadFile(dir: nat, name: string) returns (r: Option<Bytes>)
      ensures r == if name !in unreadable && dir in dirs && name in dirs[dir] then Some(dirs[dir][name]) else None
    {
      if name !in unreadable && dir in dirs && name in dirs[dir] {
        r := Some(dirs[dir][name]);
      } else {
        r := None;
      }
    }

    /** `os.RemoveAll`: the directory and everything in it are gone. */
    method RemoveAll(dir: nat)
      requires Valid()
      modifies this`dirs
      ensures Valid()
      ensures dirs == old(dirs) - {dir}
    {
      dirs := dirs - {dir};
    }
  }

  /**
   * A `uri.Fetcher`. `remote` holds the objects that can be downloaded; a
   * location that is not in it cannot be fetched. `log` records every
   * location asked for, in order.
   */
  class Fetcher {
    const remote: map<UrlParts, Bytes>
    ghost var log: seq<UrlParts>

    constructor (remote: map<UrlParts, Bytes>)
      ensures this.remote == remote && log == []
    {
      this.remote := remote;
      log := [];
    }

    /** `CopyLocal(src, dst)`: downloads `src` into file `name` of scratch directory `dir`. */
    method CopyLocal(src: Url, disk: Disk, dir: nat, name: string) returns (ok: bool)
      requires disk.Valid() && dir in disk.dirs
      modifies this`log, disk`dirs
      ensures disk.Valid()
      ensures log == old(log) + [src.Value()]
      ensures ok == (src.Value() in remote)
      ensures disk.dirs == if ok then old(disk.dirs)[dir := old(disk.dirs)[dir][name := remote[src.Value()]]]
                           else old(disk.dirs)
    {
      log := log + [src.Value()];
      ok := src.Value() in remote;
      if ok {
        disk.dirs := disk.dirs[dir := disk.dirs[dir][name := remote[src.Value()]]];
      }
    }
  }
}
