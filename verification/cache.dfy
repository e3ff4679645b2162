/** The response cache: entries on disk, each holding the payload and the
    instant it was stored, read back only while younger than a maximum age.
    Instants are nanoseconds since the Unix epoch (negative before it); the
    current time is a parameter. The JSON text of an entry is not
    interpreted: a file holds either a serialized entry or content that does
    not parse, with the parser's message. */
module Cache {
  import opened Wrappers
  import opened Numbers
  import opened Errors
  import opened FileSystem

  const NANOS_PER_SECOND: int := 1_000_000_000

  datatype CacheConfig = CacheConfig(maxAgeSecs: u64, createDirs: bool)

  /** `CacheConfig::default()`: one hour, creating directories. */
  const DEFAULT_CONFIG: CacheConfig := CacheConfig(60 * 60, true)

  datatype CacheData<T> = CacheData(timestamp: int, payload: T)

  datatype Content<T> = Serialized(data: CacheData<T>) | Unparsable(error: string)

  datatype CacheState<T> = CacheState(dirs: set<Path>, files: map<Path, Content<T>>)

  /** What reading a directory as a file reports. */
  const IS_A_DIRECTORY: string := "Is a directory (os error 21)"

  /** What parsing a file whose write was cut short reports. */
  const EMPTY_INPUT: string := "EOF while parsing a value at line 1 column 0"

  /** The entry is neither from the future nor older than the maximum age;
      an entry exactly the maximum age old is still fresh. */
  predicate Fresh(timestamp: int, now: int, maxAgeSecs: nat) {
    timestamp <= now <= timestamp + maxAgeSecs * NANOS_PER_SECOND
  }

  /** `read_cache(path, config)` at the instant `now`. */
  function ReadCache<T>(s: CacheState<T>, faults: IoFaults, path: Path, config: CacheConfig, now: int)
    : Result<Option<CacheData<T>>, AppError>
  {
    if path !in s.dirs && path !in s.files then Ok(None)
    else if faults(Open, path).Some? then Err(AppError.Io(faults(Open, path).value))
    else
      var content := if path in s.files then s.files[path] else Unparsable(IS_A_DIRECTORY);
      match content
      case Unparsable(e) => Err(Generic("Failed to parse cache: " + e))
      case Serialized(data) =>
        if now < data.timestamp then Ok(None)
        else if now - data.timestamp > config.maxAgeSecs * NANOS_PER_SECOND then Ok(None)
        else Ok(Some(data))
  }

  /** A missing entry is a miss, not an error; an entry that does not parse
      is an error; a parsed entry is returned unchanged exactly when it is
      fresh, and is otherwise a miss. */
  lemma ReadCacheOutcomes<T>(s: CacheState<T>, faults: IoFaults, path: Path, config: CacheConfig, now: int)
    ensures var r := ReadCache(s, faults, path, config, now);
            && (path !in s.dirs && path !in s.files ==> r == Ok(None))
            && (path in s.files && faults(Open, path).None? ==>
                  match s.files[path]
                  case Unparsable(_) => r.Err? && r.error.Generic?
                  case Serialized(data) =>
                    r == if Fresh(data.timestamp, now, config.maxAgeSecs) then Ok(Some(data)) else Ok(None))
  {
  }

  /** The freshness boundary: the last instant an entry is served and the
      first at which it is not, on either side. */
  lemma FreshnessBoundary<T>(s: CacheState<T>, faults: IoFaults, path: Path, config: CacheConfig, data: CacheData<T>)
    requires path in s.files && s.files[path] == Serialized(data) && faults(Open, path).None?
    ensures var oldest := data.timestamp + config.maxAgeSecs * NANOS_PER_SECOND;
            && ReadCache(s, faults, path, config, oldest) == Ok(Some(data))
            && ReadCache(s, faults, path, config, oldest + 1) == Ok(None)
            && ReadCache(s, faults, path, config, data.timestamp) == Ok(Some(data))
            && ReadCache(s, faults, path, config, data.timestamp - 1) == Ok(None)
  {
  }

  /** The position of the last '/' in `p`. */
  function LastSlash(p: string): (r: Option<nat>)
    ensures r.Some? ==> r.value < |p| && p[r.value] == '/'
    ensures r.Some? ==> forall j :: r.value < j < |p| ==> p[j] != '/'
    ensures r.None? ==> forall j :: 0 <= j < |p| ==> p[j] != '/'
  {
    if p == [] then None else if p[|p| - 1] == '/' then Some(|p| - 1) else LastSlash(p[..|p| - 1])
  }

  /** `p` without the separators it ends with. */
  function TrimSlashes(p: string): (r: string)
    ensures |r| <= |p| && r == p[..|r|]
    ensures r == [] || r[|r| - 1] != '/'
    ensures forall j :: |r| <= j < |p| ==> p[j] == '/'
  {
    if p != [] && p[|p| - 1] == '/' then TrimSlashes(p[..|p| - 1]) else p
  }

  /** `Path::parent` on Unix: the path without its last component and the
      separators around it, "/" for an entry at the root, "" for a bare file
      name, none for the empty path and the root itself. Separators are
      components' boundaries only, so a run of them counts as one and
      trailing ones are ignored. */
  function Parent(path: Path): (r: Option<Path>)
    ensures r.Some? ==> |r.value| < |path|
    ensures r.Some? && r.value != "/" ==> r.value == [] || r.value[|r.value| - 1] != '/'
    ensures r.None? <==> forall j :: 0 <= j < |path| ==> path[j] == '/'
  {
    var name := TrimSlashes(path);
    if name == "" then None
    else
      match LastSlash(name)
      case None => Some("")
      case Some(k) =>
        var dir := TrimSlashes(name[..k]);
        if dir == "" then Some("/") else Some(dir)
  }

  /** Repeated and trailing separators do not change the parent. */
  lemma ParentIgnoresExtraSeparators()
    ensures Parent("a//b") == Some("a")
    ensures Parent("a/b/") == Some("a")
    ensures Parent("/a") == Some("/")
    ensures Parent("//") == None
  {
    assert TrimSlashes("a//b") == "a//b" && LastSlash("a//b") == Some(2);
    assert "a//b"[..2] == "a/" && "a/"[..1] == "a" && TrimSlashes("a/") == "a";
    assert "a/b/"[..3] == "a/b" && TrimSlashes("a/b/") == "a/b" && LastSlash("a/b") == Some(1);
    assert "a/b"[..1] == "a" && TrimSlashes("a") == "a";
    assert LastSlash("/a") == Some(0);
  }

  datatype CacheWrite<T> = CacheWrite(result: Result<(), AppError>, after: CacheState<T>)

  /** The parent directory is created, unless it is already there (an empty
      parent is the current directory). */
  function MakeParent<T>(s: CacheState<T>, faults: IoFaults, path: Path): (x: CacheWrite<T>)
    ensures x.after.files == s.files
  {
    match Parent(path)
    case None => CacheWrite(Ok(()), s)
    case Some(p) =>
      if p == "" || p in s.dirs || p in s.files then CacheWrite(Ok(()), s)
      else
        match faults(CreateDirAll, p)
        case Some(e) => CacheWrite(Err(AppError.Io(e)), s)
        case None => CacheWrite(Ok(()), s.(dirs := s.dirs + {p}))
  }

  /** The capacity of a `BufWriter` made with `BufWriter::new`. */
  const BUFFER_CAPACITY: nat := 8192

  /** Creating the parent, creating the file, then writing the entry's text;
      a failed write leaves the file empty. `reportsWriteError` says whether
      a refused write reaches the caller. */
  function WriteEntry<T>(s: CacheState<T>, faults: IoFaults, path: Path, payload: T, config: CacheConfig, now: int,
                         reportsWriteError: bool): CacheWrite<T>
  {
    var made := if config.createDirs then MakeParent(s, faults, path) else CacheWrite(Ok(()), s);
    if made.result.Err? then made
    else
      var t := made.after;
      match faults(CreateFile, path)
      case Some(e) => CacheWrite(Err(AppError.Io(e)), t)
      case None =>
        match faults(WriteAll, path)
        case Some(e) =>
          var emptied := t.(files := t.files[path := Unparsable(EMPTY_INPUT)]);
          CacheWrite(if reportsWriteError then Err(Generic("Failed to write cache: " + e)) else Ok(()), emptied)
        case None => CacheWrite(Ok(()), t.(files := t.files[path := Serialized(CacheData(now, payload))]))
  }

  /** `write_cache(path, payload, config)` at the instant `now`, for an entry
      whose pretty-printed text is `textLen` bytes long. The text goes through
      a `BufWriter` that is never flushed: a text that fits the buffer reaches
      the file only when the writer is dropped, and the drop discards a write
      error; a longer text is written while it is serialised, and an error
      then is returned. */
  function WriteCache<T>(s: CacheState<T>, faults: IoFaults, path: Path, payload: T, config: CacheConfig, now: int,
                         textLen: nat): CacheWrite<T>
  {
    WriteEntry(s, faults, path, payload, config, now, textLen > BUFFER_CAPACITY)
  }

  /** `write_cache` with the writer flushed before it returns, so that every
      refused write is reported. */
  function WriteCacheFlushed<T>(s: CacheState<T>, faults: IoFaults, path: Path, payload: T, config: CacheConfig, now: int)
    : CacheWrite<T>
  {
    WriteEntry(s, faults, path, payload, config, now, true)
  }

  /** Writing stamps the entry with the current instant: after a write the
      system did not refuse, a read at that instant, under any maximum age,
      gives the written payload; after a refused write that still returned
      Ok, the entry does not parse. No other entry changes. */
  lemma WriteThenRead<T>(s: CacheState<T>, faults: IoFaults, path: Path, payload: T, config: CacheConfig, now: int,
                         textLen: nat, readConfig: CacheConfig)
    requires faults(Open, path).None?
    ensures var x := WriteCache(s, faults, path, payload, config, now, textLen);
            && (x.result.Ok? && faults(WriteAll, path).None? ==>
                  ReadCache(x.after, faults, path, readConfig, now) == Ok(Some(CacheData(now, payload))))
            && (x.result.Ok? && faults(WriteAll, path).Some? ==>
                  ReadCache(x.after, faults, path, readConfig, now).Err?)
            && (forall q :: q != path ==> (q in x.after.files <==> q in s.files))
            && (forall q :: q != path && q in s.files ==> x.after.files[q] == s.files[q])
  {
  }

  /** As written, a refused write of an entry that fits the buffer is
      reported as a success, and leaves a file that reads back as an error. */
  lemma LostWriteErrorLooksOk<T>(s: CacheState<T>, faults: IoFaults, path: Path, payload: T, config: CacheConfig, now: int,
                                 textLen: nat, readConfig: CacheConfig)
    requires textLen <= BUFFER_CAPACITY
    requires !config.createDirs
    requires faults(CreateFile, path).None? && faults(WriteAll, path).Some? && faults(Open, path).None?
    ensures var x := WriteCache(s, faults, path, payload, config, now, textLen);
            x.result == Ok(()) && ReadCache(x.after, faults, path, readConfig, now).Err?
            && WriteCacheFlushed(s, faults, path, payload, config, now).result.Err?
  {
  }

  /** With the writer flushed, a success always means the entry reads back
      at once, and no other entry changes. */
  lemma FlushedWriteThenRead<T>(s: CacheState<T>, faults: IoFaults, path: Path, payload: T, config: CacheConfig, now: int,
                                readConfig: CacheConfig)
    requires faults(Open, path).None?
    ensures var x := WriteCacheFlushed(s, faults, path, payload, config, now);
            && (x.result.Ok? ==> ReadCache(x.after, faults, path, readConfig, now) == Ok(Some(CacheData(now, payload))))
            && (forall q :: q != path ==> (q in x.after.files <==> q in s.files))
  {
  }

  /** With `create_dirs`, a successful write leaves the entry's parent
      directory in place. */
  lemma WriteCreatesParent<T>(s: CacheState<T>, faults: IoFaults, path: Path, payload: T, config: CacheConfig, now: int,
                              textLen: nat)
    requires config.createDirs
    ensures var x := WriteCache(s, faults, path, payload, config, now, textLen);
            x.result.Ok? && Parent(path).Some? && Parent(path).value != "" ==>
              Parent(path).value in x.after.dirs || Parent(path).value in x.after.files
  {
  }

  /** The cache directory: the methods read and write entries in place. */
  class Store<T> {
    const faults: IoFaults
    var dirs: set<Path>
    var files: map<Path, Content<T>>

    function State(): CacheState<T>
      reads this
    {
      CacheState(dirs, files)
    }

    constructor (dirs: set<Path>, files: map<Path, Content<T>>, faults: IoFaults)
      ensures State() == CacheState(dirs, files) && this.faults == faults
    {
      this.dirs := dirs;
      this.files := files;
      this.faults := faults;
    }

    /** `read_cache`: changes nothing, expired entries included. */
    method Read(path: Path, config: CacheConfig, now: int) returns (r: Result<Option<CacheData<T>>, AppError>)
      ensures r == ReadCache(State(), faults, path, config, now)
    {
      if !(path in dirs || path in files) {
        return Ok(None);
      }
      if faults(Open, path).Some? {
        return Err(AppError.Io(faults(Open, path).value));
      }
      var content := if path in files then files[path] else Unparsable(IS_A_DIRECTORY);
      if content.Unparsable? {
        return Err(Generic("Failed to parse cache: " + content.error));
      }
      var age := now - content.data.timestamp;
      if age < 0 {
        r := Ok(None);
      } else if age > config.maxAgeSecs * NANOS_PER_SECOND {
        r := Ok(None);
      } else {
        r := Ok(Some(content.data));
      }
    }

    /** `write_cache`, for an entry whose text is `textLen` bytes long. */
    method Write(path: Path, payload: T, config: CacheConfig, now: int, textLen: nat) returns (r: Result<(), AppError>)
      modifies this
      ensures CacheWrite(r, State()) == WriteCache(old(State()), faults, path, payload, config, now, textLen)
    {
      if config.createDirs {
        var parent := Parent(path);
        if parent.Some? && parent.value != "" && !(parent.value in dirs || parent.value in files) {
          var failure := faults(CreateDirAll, parent.value);
          if failure.Some? {
            return Err(AppError.Io(failure.value));
          }
          dirs := dirs + {parent.value};
        }
      }
      if faults(CreateFile, path).Some? {
        return Err(AppError.Io(faults(CreateFile, path).value));
      }
      if faults(WriteAll, path).Some? {
        files := files[path := Unparsable(EMPTY_INPUT)];
        if textLen > BUFFER_CAPACITY {
          return Err(Generic("Failed to write cache: " + faults(WriteAll, path).value));
        }
        return Ok(());
      }
      files := files[path := Serialized(CacheData(now, payload))];
      r := Ok(());
    }
  }
}
