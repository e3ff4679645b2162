/** The download manager: saving a post's photos under deterministic names,
    skipping the ones already on disk, stamping them with the post's date and
    writing a text sidecar beside each, and collecting the downloads of a
    whole post while tolerating individual failures. */
module Download {
  import opened Wrappers
  import opened Numbers
  import opened Text
  import opened Errors
  import opened Http
  import opened Posts
  import opened Configuration
  import opened FileSystem
  import Dates

  /** What a download step returns, the requests it sent and the store after
      it. */
  datatype Outcome<T> = Outcome(result: T, sent: seq<Request>, after: Store)

  // ---------------------------------------------------------------------------
  // Names
  // ---------------------------------------------------------------------------

  /** The file name without its extension: `{id}_{index}_max` when the post
      has more than one photo, `{id}_max` otherwise. */
  function PhotoStem(id: string, index: nat, count: nat): string {
    if count > 1 then id + "_" + Decimal(index) + "_max" else id + "_max"
  }

  function PhotoFileName(id: string, index: nat, count: nat): (name: string)
    ensures EndsWithJpg(name)
  {
    PhotoStem(id, index, count) + ".jpg"
  }

  predicate EndsWithJpg(name: string) {
    |name| >= 4 && name[|name| - 4..] == ".jpg"
  }

  /** Where photo `index` of `post` is saved under `dir`. */
  function PhotoPath(post: Post, index: nat, dir: Path): Path {
    JoinPath(dir, PhotoFileName(post.id, index, |post.photoUrls|))
  }

  /** `photo_path.with_extension("metadata.txt")`: the photo's file name
      always ends in ".jpg", which the new extension replaces. */
  function MetadataPath(post: Post, index: nat, dir: Path): Path {
    JoinPath(dir, PhotoStem(post.id, index, |post.photoUrls|) + ".metadata.txt")
  }

  /** Distinct photos of one post are saved under distinct names. */
  lemma PhotoNamesDistinct(id: string, i: nat, j: nat, count: nat)
    requires count > 1 && i != j
    ensures PhotoFileName(id, i, count) != PhotoFileName(id, j, count)
  {
    var a, b := PhotoFileName(id, i, count), PhotoFileName(id, j, count);
    if a == b {
      var k := |id| + 1;
      assert a == (id + "_") + (Decimal(i) + "_max.jpg");
      assert b == (id + "_") + (Decimal(j) + "_max.jpg");
      assert Decimal(i) + "_max.jpg" == a[k..] == Decimal(j) + "_max.jpg";
      SuffixCancel(Decimal(i), Decimal(j), "_max.jpg");
      DecimalInjective(i, j);
      assert false;
    }
  }

  lemma SuffixCancel(a: string, b: string, c: string)
    requires a + c == b + c
    ensures a == b
  {
    assert |a| == |b|;
    assert a == (a + c)[..|a|];
  }

  /** The sidecar never overwrites the photo it describes. */
  lemma MetadataPathIsNotPhotoPath(post: Post, index: nat, dir: Path)
    ensures MetadataPath(post, index, dir) != PhotoPath(post, index, dir)
  {
    var stem := PhotoStem(post.id, index, |post.photoUrls|);
    var m, p := stem + ".metadata.txt", stem + ".jpg";
    assert m[|stem|] == '.' && m[|stem| + 1] == 'm';
    assert p[|stem| + 1] == 'j';
    if stem[0] == '/' {
      assert m[0] == '/' && p[0] == '/';
      assert m != p;
    } else {
      assert m[0] != '/' && p[0] != '/';
      if JoinPath(dir, m) == JoinPath(dir, p) {
        JoinPathInjective(dir, m, p);
        assert false;
      }
    }
  }

  // ---------------------------------------------------------------------------
  // The photo's bytes
  // ---------------------------------------------------------------------------

  /** The photo's bytes from the answer to its GET, or the error
      `download_photo` reports. */
  function PhotoBytes(resp: Response): (r: Result<seq<byte>, AppError>)
    ensures r.Ok? <==> Succeeded(resp) && resp.body.Received?
    ensures r.Ok? ==> r.value == resp.body.bytes
    ensures r.Err? ==> r.error.Generic?
  {
    match resp
    case TransportFailure(e) => Err(Generic("Failed to download photo: " + e))
    case Reply(status, _, body) =>
      if !IsSuccess(status) then Err(Generic("Failed to download photo. Status: " + StatusText(status)))
      else
        match body
        case ReadFailed(e) => Err(Generic("Failed to read photo bytes: " + e))
        case Received(bytes) => Ok(bytes)
  }

  // ---------------------------------------------------------------------------
  // `embed_metadata`
  // ---------------------------------------------------------------------------

  /** The sidecar's text: title, author, date, URL and id of the post, then
      the school's coordinates and keywords. */
  function MetadataText(post: Post, config: Config, rt: Runtime): string {
    "Title: " + post.title + "\nAuthor: " + post.author + "\nDate: " + post.date
    + "\nURL: " + post.url + "\nPost ID: " + post.id
    + "\nSchool Location: " + rt.showFloat(config.schoolLat) + ", " + rt.showFloat(config.schoolLng)
    + " (" + config.schoolKeywords + ")\n"
  }

  /** `set_file_timestamps`: an instant before the epoch is ignored; otherwise
      the file must be there, and `touch -mt` is given the instant's UTC
      date-time to the whole second. A failing `touch` is not reported. */
  function SetFileTimestamps(s: Store, faults: IoFaults, photo: Path, nanos: int): (x: Call)
    ensures nanos < 0 ==> x == Call(Ok(()), s)
    ensures nanos >= 0 ==> (x.result.Ok? <==> Exists(s, photo) && faults(Metadata, photo).None?)
    ensures nanos >= 0 && x.result.Ok? && faults(Touch, photo).None? ==>
              x.after.stamps == s.stamps[photo := nanos / Dates.NANOS_PER_SECOND]
    ensures x.result.Err? || faults(Touch, photo).Some? ==> x.after == s
    ensures x.after.files == s.files && x.after.dirs == s.dirs
  {
    if nanos < 0 then Call(Ok(()), s)
    else
      match OnMetadata(s, faults, photo)
      case Err(e) => Call(Err(e), s)
      case Ok(_) => Call(Ok(()), OnTouch(s, faults, photo, nanos / Dates.NANOS_PER_SECOND))
  }

  /** `embed_metadata`: stamps the photo when the post's date applies, then
      writes the sidecar. */
  function EmbedMetadata(post: Post, index: nat, dir: Path, s: Store, faults: IoFaults, config: Config, rt: Runtime): (x: Call)
  {
    var photo := PhotoPath(post, index, dir);
    var stamped :=
      if Dates.TimestampApplies(post.date) then
        SetFileTimestamps(s, faults, photo, Dates.ParseDateToTimestamp(post.date).value)
      else Call(Ok(()), s);
    if stamped.result.Err? then stamped
    else OnWriteNew(stamped.after, faults, MetadataPath(post, index, dir), Utf8Encode(MetadataText(post, config, rt)))
  }

  /** A post's date is given to its photo exactly when it is a date other
      than "Unknown Date" that parses to an instant not before 1970 and
      `touch` runs, and then it is given whole. The sidecar is written with
      the post's details in either case. */
  lemma EmbedMetadataStamps(post: Post, index: nat, dir: Path, s: Store, faults: IoFaults, config: Config, rt: Runtime)
    ensures var x := EmbedMetadata(post, index, dir, s, faults, config, rt);
            var photo := PhotoPath(post, index, dir);
            var meta := MetadataPath(post, index, dir);
            Exists(s, photo) && faults(Metadata, photo).None?
            && faults(CreateFile, meta).None? && faults(WriteAll, meta).None? ==>
            x.result.Ok?
            && x.after.files == s.files[meta := Utf8Encode(MetadataText(post, config, rt))]
            && (photo in x.after.stamps && photo !in s.stamps ==> Dates.TimestampApplies(post.date))
            && (Dates.TimestampApplies(post.date) && faults(Touch, photo).None? ==>
                  x.after.stamps == s.stamps[photo := Dates.ParseDateToTimestamp(post.date).value / Dates.NANOS_PER_SECOND])
            && (!Dates.TimestampApplies(post.date) || faults(Touch, photo).Some? ==> x.after.stamps == s.stamps)
  {
  }

  // ---------------------------------------------------------------------------
  // `download_photo`
  // ---------------------------------------------------------------------------

  /** `download_photo(post, index, dir)` against the store `s`, the server
      and the requests sent before in the session. */
  function DownloadPhoto(post: Post, index: nat, dir: Path, s: Store, faults: IoFaults,
                         server: Server, history: seq<Request>, config: Config, rt: Runtime)
    : (x: Outcome<Result<Path, AppError>>)
    ensures |x.sent| <= 1
    ensures x.result.Ok? ==> x.result.value == PhotoPath(post, index, dir)
  {
    var n := |post.photoUrls|;
    if n == 0 then
      Outcome(Err(Generic("Post " + post.id + " has no photos to download")), [], s)
    else if index >= n then
      Outcome(Err(Generic("Photo index " + Decimal(index) + " out of range for post with "
                          + Decimal(n) + " photos")), [], s)
    else
      var made := EnsureDir(s, faults, dir);
      if made.result.Err? then Outcome(Err(AppError.Io(made.result.error)), [], made.after)
      else FetchUnlessPresent(post, index, dir, made.after, faults, server, history, config, rt)
  }

  /** The rest of `download_photo` once the index is valid and the directory
      is there: the existing file is kept, or the photo is fetched and
      saved. */
  function FetchUnlessPresent(post: Post, index: nat, dir: Path, s: Store, faults: IoFaults,
                              server: Server, history: seq<Request>, config: Config, rt: Runtime)
    : (x: Outcome<Result<Path, AppError>>)
    requires index < |post.photoUrls|
    ensures |x.sent| <= 1
    ensures x.result.Ok? ==> x.result.value == PhotoPath(post, index, dir)
  {
    var path := PhotoPath(post, index, dir);
    if Exists(s, path) then Outcome(Ok(path), [], s)
    else
      var req := Get(post.photoUrls[index]);
      var bytes := PhotoBytes(server(history, req));
      if bytes.Err? then Outcome(Err(bytes.error), [req], s)
      else
        var saved := SavePhoto(post, index, dir, s, faults, bytes.value, config, rt);
        Outcome(if saved.result.Err? then Err(AppError.Io(saved.result.error)) else Ok(path), [req], saved.after)
  }

  /** The fetched bytes are written to the photo's file, then the metadata
      is embedded. */
  function SavePhoto(post: Post, index: nat, dir: Path, s: Store, faults: IoFaults, bytes: seq<byte>,
                     config: Config, rt: Runtime): (x: Call)
  {
    var written := OnWriteNew(s, faults, PhotoPath(post, index, dir), bytes);
    if written.result.Err? then written
    else EmbedMetadata(post, index, dir, written.after, faults, config, rt)
  }

  /** When nothing refuses the writes, the photo holds exactly the fetched
      bytes and the sidecar the post's details. */
  lemma SavePhotoWritesBoth(post: Post, index: nat, dir: Path, s: Store, faults: IoFaults, bytes: seq<byte>,
                            config: Config, rt: Runtime)
    ensures var x := SavePhoto(post, index, dir, s, faults, bytes, config, rt);
            x.result.Ok? ==>
              && PhotoPath(post, index, dir) in x.after.files
              && x.after.files[PhotoPath(post, index, dir)] == bytes
              && MetadataPath(post, index, dir) in x.after.files
              && x.after.files[MetadataPath(post, index, dir)] == Utf8Encode(MetadataText(post, config, rt))
  {
    var written := OnWriteNew(s, faults, PhotoPath(post, index, dir), bytes);
    if written.result.Ok? {
      MetadataPathIsNotPhotoPath(post, index, dir);
      EmbedMetadataWritesSidecar(post, index, dir, written.after, faults, config, rt);
    }
  }

  /** A successful `embed_metadata` changes exactly one file: the sidecar. */
  lemma EmbedMetadataWritesSidecar(post: Post, index: nat, dir: Path, s: Store, faults: IoFaults, config: Config, rt: Runtime)
    ensures var x := EmbedMetadata(post, index, dir, s, faults, config, rt);
            x.result.Ok? ==> x.after.files == s.files[MetadataPath(post, index, dir) := Utf8Encode(MetadataText(post, config, rt))]
  {
    var stamped :=
      if Dates.TimestampApplies(post.date) then
        SetFileTimestamps(s, faults, PhotoPath(post, index, dir), Dates.ParseDateToTimestamp(post.date).value)
      else Call(Ok(()), s);
    assert stamped.after.files == s.files;
  }

  /** A post without photos, or an index past its last photo, is refused
      before anything is requested or written. */
  lemma DownloadPhotoChecksIndex(post: Post, index: nat, dir: Path, s: Store, faults: IoFaults,
                                 server: Server, history: seq<Request>, config: Config, rt: Runtime)
    requires index >= |post.photoUrls|
    ensures var x := DownloadPhoto(post, index, dir, s, faults, server, history, config, rt);
            x.sent == [] && x.after == s && x.result.Err? && x.result.error.Generic?
            && (post.photoUrls == [] ==> x.result.error.message == "Post " + post.id + " has no photos to download")
            && (post.photoUrls != [] ==> StartsWith(x.result.error.message, "Photo index " + Decimal(index)))
  {
    var x := DownloadPhoto(post, index, dir, s, faults, server, history, config, rt);
    if post.photoUrls != [] {
      var msg := "Photo index " + Decimal(index);
      var rest := " out of range for post with " + Decimal(|post.photoUrls|) + " photos";
      assert x.result.error.message == msg + rest;
    }
  }

  /** A photo whose file is already there is not requested again, and its
      path is returned with the files left as they were. */
  lemma DownloadPhotoSkipsExisting(post: Post, index: nat, dir: Path, s: Store, faults: IoFaults,
                                   server: Server, history: seq<Request>, config: Config, rt: Runtime)
    requires index < |post.photoUrls|
    requires Exists(s, dir) && Exists(s, PhotoPath(post, index, dir))
    ensures DownloadPhoto(post, index, dir, s, faults, server, history, config, rt)
              == Outcome(Ok(PhotoPath(post, index, dir)), [], s)
  {
    assert EnsureDir(s, faults, dir) == Call(Ok(()), s);
  }

  /** A new photo is fetched with one GET of its URL; unless the server fails
      to deliver it, exactly its bytes are saved under its name and the
      sidecar is written beside it. */
  lemma DownloadPhotoSavesBytes(post: Post, index: nat, dir: Path, s: Store, faults: IoFaults,
                                server: Server, history: seq<Request>, config: Config, rt: Runtime)
    requires index < |post.photoUrls| && !Exists(s, PhotoPath(post, index, dir))
    requires Exists(s, dir)
    ensures var x := DownloadPhoto(post, index, dir, s, faults, server, history, config, rt);
            var resp := server(history, Get(post.photoUrls[index]));
            var path := PhotoPath(post, index, dir);
            x.sent == [Get(post.photoUrls[index])]
            && (!Succeeded(resp) ==> x.result.Err? && x.after == s)
            && (x.result.Ok? ==> Succeeded(resp) && resp.body.Received?
                                 && path in x.after.files && x.after.files[path] == resp.body.bytes
                                 && MetadataPath(post, index, dir) in x.after.files
                                 && x.after.files[MetadataPath(post, index, dir)]
                                      == Utf8Encode(MetadataText(post, config, rt)))
  {
    assert EnsureDir(s, faults, dir) == Call(Ok(()), s);
    var x := FetchUnlessPresent(post, index, dir, s, faults, server, history, config, rt);
    var resp := server(history, Get(post.photoUrls[index]));
    if PhotoBytes(resp).Ok? {
      SavePhotoWritesBoth(post, index, dir, s, faults, resp.body.bytes, config, rt);
    }
  }

  // ---------------------------------------------------------------------------
  // `download_all_photos`
  // ---------------------------------------------------------------------------

  /** One photo's download, by index, against the store and the requests
      sent before it. */
  type PhotoStep = (nat, Store, seq<Request>) -> Outcome<Result<Path, AppError>>

  /** `download_photo` for the photos of `post`, saved under `dir`. */
  function DownloadStep(post: Post, dir: Path, faults: IoFaults, server: Server, config: Config, rt: Runtime): PhotoStep {
    (i: nat, s: Store, history: seq<Request>) => DownloadPhoto(post, i, dir, s, faults, server, history, config, rt)
  }

  /** Photos `from`, `from + 1`, …, `count - 1`, one after another, each
      against the store and session its predecessors left: the paths of
      those that succeeded, in index order. */
  function DownloadFrom(count: nat, from: nat, s: Store, history: seq<Request>, step: PhotoStep)
    : (x: Outcome<seq<Path>>)
    decreases count - from
  {
    if from >= count then Outcome([], [], s)
    else
      var one := step(from, s, history);
      var rest := DownloadFrom(count, from + 1, one.after, history + one.sent, step);
      Outcome((if one.result.Ok? then [one.result.value] else []) + rest.result, one.sent + rest.sent, rest.after)
  }

  /** `download_all_photos`: never an error; a post without photos gives no
      paths. */
  function DownloadAll(post: Post, dir: Path, s: Store, faults: IoFaults,
                       server: Server, history: seq<Request>, config: Config, rt: Runtime)
    : (x: Outcome<Result<seq<Path>, AppError>>)
  {
    if post.photoUrls == [] then Outcome(Ok([]), [], s)
    else
      var all := DownloadFrom(|post.photoUrls|, 0, s, history, DownloadStep(post, dir, faults, server, config, rt));
      Outcome(Ok(all.result), all.sent, all.after)
  }

  /** The paths collected and the requests sent so far, ahead of what the
      remaining downloads give. */
  function Gathered(paths: seq<Path>, done: seq<Request>, x: Outcome<seq<Path>>): Outcome<seq<Path>> {
    Outcome(paths + x.result, done + x.sent, x.after)
  }

  lemma GatheredFromStart(x: Outcome<seq<Path>>)
    ensures Gathered([], [], x) == x
  {
    assert [] + x.result == x.result && [] + x.sent == x.sent;
  }

  /** One more download moves its path, if it succeeded, and its requests
      from the remaining work to what is gathered. */
  lemma GatherStep(count: nat, from: nat, s: Store, history: seq<Request>, step: PhotoStep,
                   paths: seq<Path>, done: seq<Request>)
    requires from < count
    ensures var one := step(from, s, history);
            Gathered(paths, done, DownloadFrom(count, from, s, history, step))
              == Gathered(paths + (if one.result.Ok? then [one.result.value] else []), done + one.sent,
                          DownloadFrom(count, from + 1, one.after, history + one.sent, step))
  {
    var one := step(from, s, history);
    var kept: seq<Path> := if one.result.Ok? then [one.result.value] else [];
    var rest := DownloadFrom(count, from + 1, one.after, history + one.sent, step);
    assert paths + (kept + rest.result) == (paths + kept) + rest.result;
    assert done + (one.sent + rest.sent) == (done + one.sent) + rest.sent;
  }

  /** The paths of all photos of the post, in index order. */
  function PhotoPaths(post: Post, dir: Path): (r: seq<Path>)
    ensures |r| == |post.photoUrls|
  {
    seq(|post.photoUrls|, i requires 0 <= i < |post.photoUrls| => PhotoPath(post, i, dir))
  }

  /** `a` is `b` with some elements left out, the rest kept in order. */
  predicate Subsequence<T(==)>(a: seq<T>, b: seq<T>)
    decreases |b|
  {
    a == [] || (b != [] && ((a[0] == b[0] && Subsequence(a[1..], b[1..])) || Subsequence(a, b[1..])))
  }

  lemma SubsequenceKeep<T>(x: T, a: seq<T>, b: seq<T>)
    requires Subsequence(a, b)
    ensures Subsequence([x] + a, [x] + b)
  {
    assert ([x] + a)[1..] == a && ([x] + b)[1..] == b;
  }

  lemma SubsequenceSkip<T>(x: T, a: seq<T>, b: seq<T>)
    requires Subsequence(a, b)
    ensures Subsequence(a, [x] + b)
  {
    assert ([x] + b)[1..] == b;
  }

  /** When the step for index `i` can only succeed with `target[i]`, the
      collected paths are a selection of `target[from..]`, in order. */
  lemma {:induction false} DownloadFromInOrder(count: nat, from: nat, s: Store, history: seq<Request>,
                                               step: PhotoStep, target: seq<Path>)
    requires |target| == count && from <= count
    requires forall i: nat, s': Store, h: seq<Request> :: from <= i < count && step(i, s', h).result.Ok?
               ==> step(i, s', h).result.value == target[i]
    ensures Subsequence(DownloadFrom(count, from, s, history, step).result, target[from..])
    decreases count - from
  {
    if from < count {
      var one := step(from, s, history);
      DownloadFromInOrder(count, from + 1, one.after, history + one.sent, step, target);
      var rest := DownloadFrom(count, from + 1, one.after, history + one.sent, step);
      assert target[from..] == [target[from]] + target[from + 1..];
      if one.result.Ok? {
        SubsequenceKeep(target[from], rest.result, target[from + 1..]);
      } else {
        assert [] + rest.result == rest.result;
        SubsequenceSkip(target[from], rest.result, target[from + 1..]);
      }
    }
  }

  /** When every step from `from` on returns its target path without sending
      or writing anything, every one of those paths is collected. */
  lemma {:induction false} DownloadFromAllPresent(count: nat, from: nat, s: Store, history: seq<Request>,
                                                  step: PhotoStep, target: seq<Path>)
    requires |target| == count && from <= count
    requires forall i: nat :: from <= i < count ==> step(i, s, history) == Outcome(Ok(target[i]), [], s)
    ensures DownloadFrom(count, from, s, history, step) == Outcome(target[from..], [], s)
    decreases count - from
  {
    if from < count {
      assert history + [] == history;
      DownloadFromAllPresent(count, from + 1, s, history, step, target);
      assert target[from..] == [target[from]] + target[from + 1..];
    }
  }

  /** Whether each download from `from` on succeeded, in index order, each
      against the store and session its predecessors left. */
  function Successes(count: nat, from: nat, s: Store, history: seq<Request>, step: PhotoStep): (ok: seq<bool>)
    ensures |ok| == if from <= count then count - from else 0
    decreases count - from
  {
    if from >= count then []
    else
      var one := step(from, s, history);
      [one.result.Ok?] + Successes(count, from + 1, one.after, history + one.sent, step)
  }

  /** The elements of `xs` whose flag in `keep` is set, in order. */
  function Kept<T>(xs: seq<T>, keep: seq<bool>): seq<T>
    requires |xs| == |keep|
  {
    if xs == [] then [] else (if keep[0] then [xs[0]] else []) + Kept(xs[1..], keep[1..])
  }

  /** The number of flags set. */
  function CountSet(keep: seq<bool>): nat {
    if keep == [] then 0 else (if keep[0] then 1 else 0) + CountSet(keep[1..])
  }

  /** One element is kept per flag set; with every flag set, all are kept. */
  lemma {:induction false} KeptCount<T>(xs: seq<T>, keep: seq<bool>)
    requires |xs| == |keep|
    ensures |Kept(xs, keep)| == CountSet(keep)
    ensures (forall i :: 0 <= i < |keep| ==> keep[i]) ==> Kept(xs, keep) == xs
  {
    if xs != [] {
      KeptCount(xs[1..], keep[1..]);
      assert xs == [xs[0]] + xs[1..];
    }
  }

  /** When the step for index `i` can only succeed with `target[i]`, the
      collected paths are exactly the targets of the steps that succeeded:
      every success contributes its path and every failure contributes
      nothing. */
  lemma {:induction false} DownloadFromKeepsSuccesses(count: nat, from: nat, s: Store, history: seq<Request>,
                                                      step: PhotoStep, target: seq<Path>)
    requires |target| == count && from <= count
    requires forall i: nat, s': Store, h: seq<Request> :: from <= i < count && step(i, s', h).result.Ok?
               ==> step(i, s', h).result.value == target[i]
    ensures DownloadFrom(count, from, s, history, step).result
              == Kept(target[from..], Successes(count, from, s, history, step))
    decreases count - from
  {
    if from < count {
      var one := step(from, s, history);
      DownloadFromKeepsSuccesses(count, from + 1, one.after, history + one.sent, step, target);
      assert target[from..][1..] == target[from + 1..];
      assert target[from..][0] == target[from];
    }
  }

  /** `download_all_photos` returns exactly the paths of the photos whose
      download succeeded along the run, in index order: one per success,
      and all of them when none failed. */
  lemma DownloadAllKeepsDownloaded(post: Post, dir: Path, s: Store, faults: IoFaults,
                                   server: Server, history: seq<Request>, config: Config, rt: Runtime)
    ensures var x := DownloadAll(post, dir, s, faults, server, history, config, rt);
            var ok := Successes(|post.photoUrls|, 0, s, history, DownloadStep(post, dir, faults, server, config, rt));
            && x.result == Ok(Kept(PhotoPaths(post, dir), ok))
            && |x.result.value| == CountSet(ok)
            && ((forall i :: 0 <= i < |ok| ==> ok[i]) ==> x.result == Ok(PhotoPaths(post, dir)))
  {
    var step := DownloadStep(post, dir, faults, server, config, rt);
    var target := PhotoPaths(post, dir);
    var ok := Successes(|post.photoUrls|, 0, s, history, step);
    if post.photoUrls != [] {
      forall i: nat, s': Store, h: seq<Request> | 0 <= i < |post.photoUrls| && step(i, s', h).result.Ok?
        ensures step(i, s', h).result.value == target[i]
      {
        assert step(i, s', h) == DownloadPhoto(post, i, dir, s', faults, server, h, config, rt);
      }
      DownloadFromKeepsSuccesses(|post.photoUrls|, 0, s, history, step, target);
      assert target[0..] == target;
    }
    KeptCount(target, ok);
  }

  /** `download_all_photos` always succeeds; the paths it returns are those
      of the photos that downloaded, in index order. */
  lemma DownloadAllInOrder(post: Post, dir: Path, s: Store, faults: IoFaults,
                           server: Server, history: seq<Request>, config: Config, rt: Runtime)
    ensures var x := DownloadAll(post, dir, s, faults, server, history, config, rt);
            x.result.Ok? && Subsequence(x.result.value, PhotoPaths(post, dir))
  {
    if post.photoUrls != [] {
      var step := DownloadStep(post, dir, faults, server, config, rt);
      var target := PhotoPaths(post, dir);
      forall i: nat, s': Store, h: seq<Request> | 0 <= i < |post.photoUrls| && step(i, s', h).result.Ok?
        ensures step(i, s', h).result.value == target[i]
      {
        assert step(i, s', h) == DownloadPhoto(post, i, dir, s', faults, server, h, config, rt);
      }
      DownloadFromInOrder(|post.photoUrls|, 0, s, history, step, target);
      assert target[0..] == target;
    }
  }

  /** When every photo of the post is already on disk, `download_all_photos`
      sends nothing, changes nothing and returns every path. */
  lemma DownloadAllSkipsPresent(post: Post, dir: Path, s: Store, faults: IoFaults,
                                server: Server, history: seq<Request>, config: Config, rt: Runtime)
    requires Exists(s, dir)
    requires forall i :: 0 <= i < |post.photoUrls| ==> Exists(s, PhotoPath(post, i, dir))
    ensures DownloadAll(post, dir, s, faults, server, history, config, rt) == Outcome(Ok(PhotoPaths(post, dir)), [], s)
  {
    if post.photoUrls != [] {
      var step := DownloadStep(post, dir, faults, server, config, rt);
      var target := PhotoPaths(post, dir);
      forall i: nat | 0 <= i < |post.photoUrls|
        ensures step(i, s, history) == Outcome(Ok(target[i]), [], s)
      {
        DownloadPhotoSkipsExisting(post, i, dir, s, faults, server, history, config, rt);
      }
      DownloadFromAllPresent(|post.photoUrls|, 0, s, history, step, target);
      assert target[0..] == target;
    }
  }
}
