/** The local filesystem as the download manager sees it: directories, files
    with their bytes, and the modification time a photo would be given. The
    operating system's refusals (permissions, a full disk, a name that is
    already a directory) are not interpreted: an oracle says which operation
    on which path fails, and with what `std::io::Error` message. */
module FileSystem {
  import opened Wrappers
  import opened Numbers
  import opened Text

  type Path = string

  /** `Path::join` on Unix: an absolute name replaces the directory, and
      otherwise exactly one separator stands between the two. */
  function JoinPath(dir: Path, name: string): (p: Path)
    ensures name != [] && name[0] == '/' ==> p == name
    ensures (name == [] || name[0] != '/') ==> StartsWith(p, dir) && |p| >= |dir| + |name|
    ensures p[|p| - |name|..] == name
  {
    if name != [] && name[0] == '/' then name
    else if dir == [] || dir[|dir| - 1] == '/' then dir + name
    else dir + "/" + name
  }

  /** Two relative names joined onto the same directory give the same path
      only when they are the same name. */
  lemma JoinPathInjective(dir: Path, a: string, b: string)
    requires a != [] && a[0] != '/' && b != [] && b[0] != '/'
    requires JoinPath(dir, a) == JoinPath(dir, b)
    ensures a == b
  {
    var sep := if dir == [] || dir[|dir| - 1] == '/' then "" else "/";
    assert JoinPath(dir, a) == (dir + sep) + a;
    assert JoinPath(dir, b) == (dir + sep) + b;
    assert a == JoinPath(dir, a)[|dir + sep|..];
  }

  datatype Store = Store(
    dirs: set<Path>,
    files: map<Path, seq<byte>>,
    /** The modification time `touch -mt` gave a photo, as the wall-clock
        reading passed to it: whole seconds from 1970-01-01 00:00 to that
        reading, counted as if it were UTC. `touch` reads it in the machine's
        time zone. */
    stamps: map<Path, nat>)

  /** `Path::exists`: a directory or a file is there. */
  predicate Exists(s: Store, p: Path) {
    p in s.dirs || p in s.files
  }

  /** The filesystem calls the download manager and the cache make. */
  datatype IoOp = CreateDirAll | CreateFile | WriteAll | Metadata | Open | Touch

  /** The error the operating system reports for an operation on a path, if
      it refuses it. */
  type IoFaults = (IoOp, Path) -> Option<string>

  /** What `fs::metadata` reports for a path that is not there. */
  const NOT_FOUND: string := "No such file or directory (os error 2)"

  /** The result of one or more filesystem calls and the store after them. */
  datatype Call = Call(result: Result<(), string>, after: Store)

  /** `fs::create_dir_all(dir)`. */
  function OnCreateDirAll(s: Store, faults: IoFaults, dir: Path): (x: Call)
    ensures x.result.Ok? <==> faults(CreateDirAll, dir).None?
    ensures x.result.Ok? ==> Exists(x.after, dir) && x.after.files == s.files
    ensures x.result.Err? ==> x.after == s
  {
    match faults(CreateDirAll, dir)
    case Some(e) => Call(Err(e), s)
    case None => Call(Ok(()), s.(dirs := s.dirs + {dir}))
  }

  /** `if !dir.exists() { fs::create_dir_all(dir) }`: the directory is
      created, with its parents, unless something is already there. */
  function EnsureDir(s: Store, faults: IoFaults, dir: Path): (x: Call)
    ensures x.result.Ok? ==> Exists(x.after, dir)
    ensures x.after.files == s.files && x.after.stamps == s.stamps
  {
    if Exists(s, dir) then Call(Ok(()), s) else OnCreateDirAll(s, faults, dir)
  }

  /** `File::create(path)` followed by `write_all(bytes)` on the new handle:
      the file is created empty (or emptied), then receives the bytes. A
      failed write leaves the empty file behind. */
  function OnWriteNew(s: Store, faults: IoFaults, path: Path, bytes: seq<byte>): (x: Call)
    ensures x.result.Ok? <==> faults(CreateFile, path).None? && faults(WriteAll, path).None?
    ensures x.result.Ok? ==> x.after.files == s.files[path := bytes]
    ensures x.after.dirs == s.dirs && x.after.stamps == s.stamps
  {
    match faults(CreateFile, path)
    case Some(e) => Call(Err(e), s)
    case None =>
      var created := s.(files := s.files[path := []]);
      match faults(WriteAll, path)
      case Some(e) => Call(Err(e), created)
      case None => Call(Ok(()), s.(files := s.files[path := bytes]))
  }

  /** `fs::metadata(path)`: fails when nothing is there or the system
      refuses; changes nothing. */
  function OnMetadata(s: Store, faults: IoFaults, path: Path): (r: Result<(), string>)
    ensures r.Ok? <==> Exists(s, path) && faults(Metadata, path).None?
    ensures !Exists(s, path) ==> r == Err(NOT_FOUND)
  {
    if !Exists(s, path) then Err(NOT_FOUND)
    else
      match faults(Metadata, path)
      case Some(e) => Err(e)
      case None => Ok(())
  }

  /** `touch -mt <reading> <path>` run as a subprocess: the path's
      modification time becomes `reading`, unless the command cannot be
      spawned or exits with a failure, which nobody sees. */
  function OnTouch(s: Store, faults: IoFaults, path: Path, reading: nat): Store {
    if faults(Touch, path).Some? then s else s.(stamps := s.stamps[path := reading])
  }

  /** The filesystem, changed in place by the calls the program makes. */
  class Disk {
    const faults: IoFaults
    var dirs: set<Path>
    var files: map<Path, seq<byte>>
    var stamps: map<Path, nat>

    function State(): Store
      reads this
    {
      Store(dirs, files, stamps)
    }

    constructor (dirs: set<Path>, files: map<Path, seq<byte>>, faults: IoFaults)
      ensures State() == Store(dirs, files, map[]) && this.faults == faults
    {
      this.dirs := dirs;
      this.files := files;
      stamps := map[];
      this.faults := faults;
    }

    method PathExists(p: Path) returns (b: bool)
      ensures b == Exists(State(), p)
    {
      b := p in dirs || p in files;
    }

    method CreateDirAll(dir: Path) returns (r: Result<(), string>)
      modifies this
      ensures Call(r, State()) == OnCreateDirAll(old(State()), faults, dir)
    {
      match faults(IoOp.CreateDirAll, dir)
      case Some(e) =>
        r := Err(e);
      case None =>
        dirs := dirs + {dir};
        r := Ok(());
    }

    method WriteNew(path: Path, bytes: seq<byte>) returns (r: Result<(), string>)
      modifies this
      ensures Call(r, State()) == OnWriteNew(old(State()), faults, path, bytes)
    {
      if faults(CreateFile, path).Some? {
        return Err(faults(CreateFile, path).value);
      }
      files := files[path := []];
      if faults(WriteAll, path).Some? {
        return Err(faults(WriteAll, path).value);
      }
      files := files[path := bytes];
      r := Ok(());
    }

    method Metadata(path: Path) returns (r: Result<(), string>)
      ensures r == OnMetadata(State(), faults, path)
    {
      if !(path in dirs || path in files) {
        return Err(NOT_FOUND);
      }
      if faults(IoOp.Metadata, path).Some? {
        return Err(faults(IoOp.Metadata, path).value);
      }
      r := Ok(());
    }

    method Touch(path: Path, reading: nat)
      modifies this
      ensures State() == OnTouch(old(State()), faults, path, reading)
    {
      if faults(IoOp.Touch, path).None? {
        stamps := stamps[path := reading];
      }
    }
  }
}
