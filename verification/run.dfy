/** The program's main run: load the settings, create the client, log in,
    crawl every post, then download each post's photos into the output
    directory and report how many were saved. The client is abstract here:
    the results of the start-up calls and of each post's download are given,
    in the order `run` makes them. */
module Run {
  import opened Wrappers
  import opened Errors
  import opened Posts
  import opened FileSystem

  /** The results of `Config::from_env`, `Client::new`, `login` and
      `crawl_all_posts`, in the order `run` calls them. */
  datatype Startup = Startup(
    config: Result<(), AppError>,
    client: Result<(), AppError>,
    login: Result<(), AppError>,
    crawl: Result<seq<Post>, AppError>)

  /** What `download_all_photos` returns for a post. */
  type PostDownload = Post -> Result<seq<Path>, AppError>

  /** The client's downloads, each recorded as it is made. */
  class Downloads {
    const answer: PostDownload
    var calls: seq<Post>

    constructor (answer: PostDownload)
      ensures this.answer == answer && calls == []
    {
      this.answer := answer;
      calls := [];
    }

    method DownloadAllPhotos(post: Post) returns (r: Result<seq<Path>, AppError>)
      modifies this
      ensures calls == old(calls) + [post]
      ensures r == answer(post)
    {
      r := answer(post);
      calls := calls + [post];
    }
  }

  /** The posts that have photos, in order. */
  function WithPhotos(posts: seq<Post>): (r: seq<Post>)
    ensures |r| <= |posts|
    ensures forall p :: p in r <==> p in posts && p.photoUrls != []
  {
    if posts == [] then []
    else
      var last := posts[|posts| - 1];
      assert forall p :: p in posts <==> p in posts[..|posts| - 1] || p == last;
      WithPhotos(posts[..|posts| - 1]) + (if last.photoUrls != [] then [last] else [])
  }

  /** The photos reported for `posts`: the number of paths of every
      successful download, a post without photos counting nothing. */
  function TotalPhotos(posts: seq<Post>, answer: PostDownload): nat {
    if posts == [] then 0
    else
      var last := posts[|posts| - 1];
      TotalPhotos(posts[..|posts| - 1], answer)
      + (if last.photoUrls != [] && answer(last).Ok? then |answer(last).value| else 0)
  }

  /** The sum of the path counts of the successful downloads among `posts`. */
  function Downloaded(posts: seq<Post>, answer: PostDownload): nat {
    if posts == [] then 0
    else (if answer(posts[0]).Ok? then |answer(posts[0]).value| else 0) + Downloaded(posts[1..], answer)
  }

  lemma {:induction false} DownloadedAppend(a: seq<Post>, b: seq<Post>, answer: PostDownload)
    ensures Downloaded(a + b, answer) == Downloaded(a, answer) + Downloaded(b, answer)
  {
    if a == [] {
      assert a + b == b;
    } else {
      assert (a + b)[0] == a[0] && (a + b)[1..] == a[1..] + b;
      DownloadedAppend(a[1..], b, answer);
    }
  }

  /** The reported total is the sum of the lengths of the successful
      `download_all_photos` results over the posts that have photos; failed
      downloads add nothing and posts without photos are not downloaded. */
  lemma {:induction false} TotalIsSumOfDownloads(posts: seq<Post>, answer: PostDownload)
    ensures TotalPhotos(posts, answer) == Downloaded(WithPhotos(posts), answer)
  {
    if posts != [] {
      var init, last := posts[..|posts| - 1], posts[|posts| - 1];
      TotalIsSumOfDownloads(init, answer);
      var tail := if last.photoUrls != [] then [last] else [];
      DownloadedAppend(WithPhotos(init), tail, answer);
      if tail != [] {
        assert tail[1..] == [];
      }
    }
  }

  /** What `run` returns, the photo count its closing message reports (zero
      when it ends before the downloads), the filesystem after it and the
      posts it downloaded, in order. */
  datatype RunOutcome = RunOutcome(result: Result<(), AppError>, reported: nat, after: Store, downloaded: seq<Post>)

  /** `run(output_dir)` */
  function RunSpec(startup: Startup, outputDir: Path, s: Store, faults: IoFaults, answer: PostDownload): RunOutcome {
    if startup.config.Err? then RunOutcome(Err(startup.config.error), 0, s, [])
    else if startup.client.Err? then RunOutcome(Err(startup.client.error), 0, s, [])
    else if startup.login.Err? then RunOutcome(Err(startup.login.error), 0, s, [])
    else if startup.crawl.Err? then RunOutcome(Err(startup.crawl.error), 0, s, [])
    else
      var posts := startup.crawl.value;
      if posts == [] then RunOutcome(Ok(()), 0, s, [])
      else
        var made := EnsureDir(s, faults, outputDir);
        if made.result.Err? then RunOutcome(Err(AppError.Io(made.result.error)), 0, made.after, [])
        else RunOutcome(Ok(()), TotalPhotos(posts, answer), made.after, WithPhotos(posts))
  }

  /** The first failing start-up call ends the run with its error, before
      anything is created or downloaded; an empty crawl ends it successfully,
      also before. */
  lemma RunStopsEarly(startup: Startup, outputDir: Path, s: Store, faults: IoFaults, answer: PostDownload)
    ensures var x := RunSpec(startup, outputDir, s, faults, answer);
            var failed := [startup.config, startup.client, startup.login,
                           if startup.crawl.Err? then Err(startup.crawl.error) else Ok(())];
            && (forall i :: 0 <= i < 4 && failed[i].Err? && (forall j :: 0 <= j < i ==> failed[j].Ok?) ==>
                  x == RunOutcome(Err(failed[i].error), 0, s, []))
            && (startup.crawl == Ok([]) && (forall i :: 0 <= i < 3 ==> failed[i].Ok?) ==>
                  x == RunOutcome(Ok(()), 0, s, []))
  {
    var x := RunSpec(startup, outputDir, s, faults, answer);
    var failed := [startup.config, startup.client, startup.login,
                   if startup.crawl.Err? then Err(startup.crawl.error) else Ok(())];
    assert failed[0] == startup.config && failed[1] == startup.client && failed[2] == startup.login;
  }

  /** Once posts are found and the output directory is there or can be
      created, every post with photos is downloaded, in order, whatever
      earlier downloads returned, and the run succeeds, reporting the photos
      counted; the directory is the only change to the filesystem. */
  lemma RunDownloadsEveryPostWithPhotos(startup: Startup, outputDir: Path, s: Store, faults: IoFaults, answer: PostDownload)
    requires startup.config.Ok? && startup.client.Ok? && startup.login.Ok?
    requires startup.crawl.Ok? && startup.crawl.value != []
    requires EnsureDir(s, faults, outputDir).result.Ok?
    ensures var x := RunSpec(startup, outputDir, s, faults, answer);
            x.result == Ok(()) && x.reported == Downloaded(WithPhotos(startup.crawl.value), answer)
            && x.downloaded == WithPhotos(startup.crawl.value)
            && x.after == EnsureDir(s, faults, outputDir).after
            && (Exists(s, outputDir) ==> x.after == s)
  {
    TotalIsSumOfDownloads(startup.crawl.value, answer);
  }

  /** `run`, with the output directory on `disk` and the downloads made
      through `client`. */
  method RunMain(startup: Startup, outputDir: Path, disk: Disk, client: Downloads)
    returns (r: Result<(), AppError>, reported: nat)
    modifies disk, client
    ensures var x := RunSpec(startup, outputDir, old(disk.State()), disk.faults, client.answer);
            r == x.result && reported == x.reported && disk.State() == x.after && client.calls == old(client.calls) + x.downloaded
  {
    if startup.config.Err? {
      return Err(startup.config.error), 0;
    }
    if startup.client.Err? {
      return Err(startup.client.error), 0;
    }
    if startup.login.Err? {
      return Err(startup.login.error), 0;
    }
    if startup.crawl.Err? {
      return Err(startup.crawl.error), 0;
    }
    var posts := startup.crawl.value;
    if posts == [] {
      assert client.calls == old(client.calls) + [];
      return Ok(()), 0;
    }
    var present := disk.PathExists(outputDir);
    if !present {
      var made := disk.CreateDirAll(outputDir);
      if made.Err? {
        assert client.calls == old(client.calls) + [];
        return Err(AppError.Io(made.error)), 0;
      }
    }
    reported := DownloadPosts(posts, client);
    r := Ok(());
  }

  /** Extending the posts seen by one: both running summaries grow by that
      post's contribution alone. */
  lemma SummariesStep(posts: seq<Post>, i: nat, answer: PostDownload)
    requires i < |posts|
    ensures TotalPhotos(posts[..i + 1], answer) == TotalPhotos(posts[..i], answer)
              + (if posts[i].photoUrls != [] && answer(posts[i]).Ok? then |answer(posts[i]).value| else 0)
    ensures WithPhotos(posts[..i + 1]) == WithPhotos(posts[..i]) + (if posts[i].photoUrls != [] then [posts[i]] else [])
  {
    assert posts[..i + 1][..i] == posts[..i];
  }

  /** The loop of `run` over the posts: skip those without photos, add up
      the paths of each successful download and go on after a failure. */
  method DownloadPosts(posts: seq<Post>, client: Downloads) returns (total: nat)
    modifies client
    ensures total == TotalPhotos(posts, client.answer)
    ensures client.calls == old(client.calls) + WithPhotos(posts)
  {
    total := 0;
    for i := 0 to |posts|
      invariant total == TotalPhotos(posts[..i], client.answer)
      invariant client.calls == old(client.calls) + WithPhotos(posts[..i])
    {
      SummariesStep(posts, i, client.answer);
      var post := posts[i];
      if post.photoUrls == [] {
        assert WithPhotos(posts[..i + 1]) == WithPhotos(posts[..i]) + [];
        continue;
      }
      var paths := client.DownloadAllPhotos(post);
      if paths.Ok? {
        total := total + |paths.value|;
      }
    }
    assert posts[..|posts|] == posts;
  }
}
