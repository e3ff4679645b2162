/** The `Client`: its configuration, base URL, session connection and the
    mock-mode flag, with the operations that talk to the server written as
    the sequences of requests and loops they are, each proved to send what
    the matching function of `Auth` or `Endpoints` says and to return what it
    returns. */
module ApiClient {
  import opened Wrappers
  import opened Numbers
  import opened Text
  import opened Errors
  import opened Http
  import opened Html
  import opened Posts
  import opened Configuration
  import Auth
  import opened Endpoints
  import opened FileSystem
  import Download
  import Dates

  class Client {
    const config: Config
    const baseUrl: string
    /** The HTTP session (reqwest client and its cookie jar). */
    const web: Web
    /** The foreign code the client calls. */
    const rt: Runtime
    /** `mock_mode`, the `RefCell<bool>` only `login` sets. */
    var mockMode: bool

    /** `Client::new`: the school's page on the public site. */
    constructor New(config: Config, web: Web, rt: Runtime)
      ensures this.config == config && this.web == web && this.rt == rt
      ensures baseUrl == SITE + "/schools/" + Decimal(config.schoolId)
      ensures !mockMode
    {
      this.config := config;
      this.baseUrl := SITE + "/schools/" + Decimal(config.schoolId);
      this.web := web;
      this.rt := rt;
      mockMode := false;
    }

    /** `Client::new_with_base_url`. */
    constructor NewWithBaseUrl(config: Config, baseUrl: string, web: Web, rt: Runtime)
      ensures this.config == config && this.baseUrl == baseUrl && this.web == web && this.rt == rt
      ensures !mockMode
    {
      this.config := config;
      this.baseUrl := baseUrl;
      this.web := web;
      this.rt := rt;
      mockMode := false;
    }

    // -------------------------------------------------------------------------
    // Authentication
    // -------------------------------------------------------------------------

    /** `login_api_basic_auth`. */
    method LoginApiBasicAuth() returns (r: Result<(), AppError>)
      modifies web
      ensures var x := Auth.ApiProbe(baseUrl, config, web.answer, old(web.log));
              web.log == old(web.log) + x.sent && r == x.result
    {
      var req := Auth.ApiProbeRequest(baseUrl, config);
      var resp := web.Send(req);
      match resp
      case TransportFailure(reason) =>
        r := Err(Generic("Failed to access API: " + reason));
      case Reply(status, _, _) =>
        if IsSuccess(status) {
          r := Ok(());
        } else {
          r := Err(Generic("API authentication failed with status: " + StatusText(status)));
        }
    }

    /** `login_web_form`: the sign-in page, its token, the form post, and the
        GET of the redirect target when the answer names one. */
    method LoginWebForm() returns (r: Result<(), AppError>)
      modifies web
      ensures var x := Auth.WebLogin(baseUrl, config, web.answer, old(web.log), rt);
              web.log == old(web.log) + x.sent && r == x.result
    {
      var page := Get(Auth.SignInPageUrl(baseUrl));
      var resp := web.Send(page);
      match resp
      case TransportFailure(reason) =>
        r := Err(Generic("Failed to fetch sign-in page: " + reason));
      case Reply(status, _, body) =>
        if !IsSuccess(status) {
          r := Err(Generic("Failed to fetch sign-in page. Status: " + StatusText(status)));
          return;
        }
        match body
        case ReadFailed(reason) =>
          r := Err(Generic("Failed to read sign-in page content: " + reason));
        case Received(bytes) =>
          var token := Auth.ExtractCsrfToken(rt.parseHtml(rt.decodeText(bytes)));
          if token.Err? {
            r := Err(token.error);
            return;
          }
          ghost var h1 := web.log;
          r := SubmitLoginForm(token.value);
          AppendAssoc(old(web.log), [page], Auth.SubmitLogin(baseUrl, config, web.answer, h1, token.value, rt).sent);
    }

    /** The rest of `login_web_form` once the sign-in page gave `token`. */
    method SubmitLoginForm(token: string) returns (r: Result<(), AppError>)
      modifies web
      ensures var x := Auth.SubmitLogin(baseUrl, config, web.answer, old(web.log), token, rt);
              web.log == old(web.log) + x.sent && r == x.result
    {
      var post := PostForm(Auth.SignInPostUrl(baseUrl), Auth.LoginForm(token, config));
      var answer := web.Send(post);
      match answer
      case TransportFailure(reason) =>
        r := Err(Generic("Failed to submit login form: " + reason));
      case Reply(status, location, _) =>
        ghost var follow: seq<Request> := [];
        if IsRedirection(status) && location.Some? && VisibleAscii(location.value) {
          var _ := web.Send(Get(location.value));
          follow := [Get(location.value)];
        }
        AppendAssoc(old(web.log), [post], follow);
        r := Auth.LoginReplyOutcome(answer, rt);
    }

    /** `login`: the probe, then the web form, then the guarded fallback,
        which alone sets the mock flag. */
    method Login() returns (r: Result<(), AppError>)
      modifies this, web
      ensures var x := Auth.Login(baseUrl, config, web.answer, old(web.log), rt);
              web.log == old(web.log) + x.sent && r == x.result.result
              && mockMode == (old(mockMode) || x.result.mockFallback)
    {
      ghost var h0 := web.log;
      var api := LoginApiBasicAuth();
      if api.Ok? {
        return Ok(());
      }
      ghost var h1 := web.log;
      var webResult := LoginWebForm();
      AppendAssoc(h0, Auth.ApiProbe(baseUrl, config, web.answer, h0).sent, Auth.WebLogin(baseUrl, config, web.answer, h1, rt).sent);
      var fallback := webResult.Err? && Auth.ShouldUseMockMode(baseUrl, api, webResult);
      if fallback {
        mockMode := true;
      }
      r := if webResult.Ok? || fallback then Ok(()) else api;
    }

    // -------------------------------------------------------------------------
    // Fetching posts
    // -------------------------------------------------------------------------

    /** `discover_endpoints`: the relevant links of the school page pushed in
        document order, then sorted and deduplicated (the library's `sort`
        and `dedup`, which `StrictlySortedUnique` shows can only give
        `SortDedup`'s list). */
    method DiscoverEndpoints() returns (r: Result<seq<string>, AppError>)
      modifies web
      ensures var x := Discovery(baseUrl, web.answer, old(web.log), rt);
              web.log == old(web.log) + x.sent && r == x.result
    {
      var resp := web.Send(Get(baseUrl));
      match resp
      case TransportFailure(reason) =>
        r := Err(Generic("Failed to fetch school page: " + reason));
      case Reply(status, _, body) =>
        if !IsSuccess(status) {
          r := Err(Generic("Failed to fetch school page. Status: " + StatusText(status)));
          return;
        }
        match body
        case ReadFailed(reason) =>
          r := Err(Generic("Failed to read school page content: " + reason));
        case Received(bytes) =>
          var hrefs := rt.parseHtml(rt.decodeText(bytes)).hrefs;
          var discovered: seq<string> := [];
          var i := 0;
          while i < |hrefs|
            invariant 0 <= i <= |hrefs|
            invariant discovered == Candidates(hrefs[..i], baseUrl)
          {
            assert hrefs[..i + 1][..i] == hrefs[..i];
            if ContainsAny(hrefs[i], KEYWORDS) {
              discovered := discovered + [Normalise(hrefs[i], baseUrl)];
            }
            i := i + 1;
          }
          assert hrefs[..i] == hrefs;
          r := Ok(SortDedup(discovered));
    }

    /** Tries `urls[k]`, `urls[k + 1]`, … in order and stops at the first
        2xx reply; the loops over the fallbacks and over the discovered URLs
        in `get_posts`. */
    method TryUrls(urls: seq<string>, k: nat) returns (found: Option<Response>)
      requires k <= |urls|
      modifies web
      ensures var x := TryFrom(urls, k, web.answer, old(web.log));
              web.log == old(web.log) + x.sent && found == x.result
    {
      ghost var h0 := web.log;
      ghost var whole := TryFrom(urls, k, web.answer, h0);
      assert urls[k..k] == [];
      var i := k;
      found := None;
      while i < |urls|
        invariant k <= i <= |urls|
        invariant web.log == h0 + Gets(urls[k..i])
        invariant whole.result == TryFrom(urls, i, web.answer, web.log).result
        invariant whole.sent == Gets(urls[k..i]) + TryFrom(urls, i, web.answer, web.log).sent
        decreases |urls| - i
      {
        var resp := web.Send(Get(urls[i]));
        if Succeeded(resp) {
          found := Some(resp);
          HitStep(urls, k, i, web.answer, h0);
          return;
        }
        MissStep(urls, k, i, web.answer, h0);
        i := i + 1;
      }
    }

    /** The fetching part of `get_posts`: the first of `fixed` (the primary
        URL), the others in order when it did not answer with a 2xx, then
        discovery and the discovered URLs when none did. Returns the primary
        URL's answer and the first 2xx answer. */
    method FetchFrom(fixed: seq<string>) returns (first: Response, found: Option<Response>)
      requires |fixed| > 0
      modifies web
      ensures var x := Endpoints.FetchFrom(fixed, baseUrl, web.answer, old(web.log), rt);
              web.log == old(web.log) + x.sent && found == x.result
      ensures first == web.answer(old(web.log), Get(fixed[0]))
    {
      ghost var h0 := web.log;
      first := web.Send(Get(fixed[0]));
      if Succeeded(first) {
        found := Some(first);
        return;
      }
      ghost var h1 := web.log;
      found := TryUrls(fixed, 1);
      ghost var rest := TryFrom(fixed, 1, web.answer, h1);
      ghost var tried := TryFrom(fixed, 0, web.answer, h0);
      assert tried.result == found && tried.sent == [Get(fixed[0])] + rest.sent;
      AppendAssoc(h0, [Get(fixed[0])], rest.sent);
      if found.Some? {
        return;
      }
      ghost var h2 := web.log;
      found := SearchDiscovered();
      AppendAssoc(h0, tried.sent, AfterFallbacks(baseUrl, web.answer, h2, rt).sent);
    }

    /** Discovery, whose failure is ignored, then the discovered URLs in
        order until one answers with a 2xx. */
    method SearchDiscovered() returns (found: Option<Response>)
      modifies web
      ensures var x := AfterFallbacks(baseUrl, web.answer, old(web.log), rt);
              web.log == old(web.log) + x.sent && found == x.result
    {
      ghost var h0 := web.log;
      var disc := DiscoverEndpoints();
      ghost var discovery := Discovery(baseUrl, web.answer, h0, rt);
      found := None;
      if disc.Ok? {
        ghost var h1 := web.log;
        found := TryUrls(disc.value, 0);
        AppendAssoc(h0, discovery.sent, TryFrom(disc.value, 0, web.answer, h1).sent);
      }
    }

    /** `get_posts(page)`: the answer found is read with the parser the
        primary URL selects; without one, the error speaks of the primary
        request. */
    method GetPosts(page: u32) returns (r: Result<seq<Post>, AppError>)
      modifies web
      ensures var x := Endpoints.GetPosts(baseUrl, config, page, web.answer, old(web.log), rt);
              web.log == old(web.log) + x.sent && r == x.result
    {
      var primary := PrimaryUrl(baseUrl, config, page);
      var first, found := FetchFrom(FixedUrls(baseUrl, config, page));
      if found.Some? {
        r := ReadPosts(found.value, primary, baseUrl, rt);
      } else {
        r := Err(AllFailed(first));
      }
    }

    /** `crawl_all_posts`: pages 1, 2, … until the first empty one or the
        first error. */
    method CrawlAllPosts() returns (r: CrawlOutcome)
      modifies web
      ensures var x := Endpoints.CrawlAllPosts(baseUrl, config, web.answer, old(web.log), rt);
              web.log == old(web.log) + x.sent && r == x.result
    {
      r := CrawlPages(PostsPage(baseUrl, config, web.answer, rt));
    }

    /** `get_posts(page)` as a call of `fetch`. */
    method FetchPage(ghost fetch: PageFetch, page: u32) returns (r: Result<seq<Post>, AppError>)
      requires forall page: u32, h: seq<Request> {:trigger Endpoints.GetPosts(baseUrl, config, page, web.answer, h, rt)} ::
                 fetch(page, h) == Endpoints.GetPosts(baseUrl, config, page, web.answer, h, rt)
      modifies web
      ensures web.log == old(web.log) + fetch(page, old(web.log)).sent
      ensures r == fetch(page, old(web.log)).result
    {
      r := GetPosts(page);
    }

    /** The loop of `crawl_all_posts`, proved against the crawl over any
        `fetch` that agrees with `get_posts` (the agreement is only looked
        up for the pages the loop fetches). */
    method CrawlPages(ghost fetch: PageFetch) returns (r: CrawlOutcome)
      requires forall page: u32, h: seq<Request> {:trigger Endpoints.GetPosts(baseUrl, config, page, web.answer, h, rt)} ::
                 fetch(page, h) == Endpoints.GetPosts(baseUrl, config, page, web.answer, h, rt)
      modifies web
      ensures var x := CrawlFrom(fetch, 1, old(web.log));
              web.log == old(web.log) + x.sent && r == x.result
    {
      ghost var whole := CrawlFrom(fetch, 1, web.log);
      ResumedFromStart(whole);
      ghost var done: seq<Request> := [];
      var allPosts: seq<Post> := [];
      var page: u32 := 1;
      while true
        invariant web.log == old(web.log) + done
        invariant whole == Resumed(allPosts, done, CrawlFrom(fetch, page, web.log))
        decreases U32_MAX - page
      {
        ghost var h := web.log;
        var posts := FetchPage(fetch, page);
        ghost var g := fetch(page, h);
        ResumeStep(fetch, page, h, allPosts, done);
        AppendAssoc(old(web.log), done, g.sent);
        if posts.Err? {
          return Crawled(Err(posts.error));
        }
        if posts.value == [] {
          return Crawled(Ok(allPosts));
        }
        if page == U32_MAX {
          return PageCounterOverflow;
        }
        allPosts := allPosts + posts.value;
        done := done + g.sent;
        page := page + 1;
      }
    }

    /** `download_photo(post, index, dir)`: validates the index, makes the
        directory, keeps an existing file, else fetches the photo, saves it
        and embeds its metadata. */
    method DownloadPhoto(post: Post, index: nat, dir: Path, disk: Disk) returns (r: Result<Path, AppError>)
      modifies web, disk
      ensures var x := Download.DownloadPhoto(post, index, dir, old(disk.State()), disk.faults, web.answer, old(web.log), config, rt);
              r == x.result && web.log == old(web.log) + x.sent && disk.State() == x.after
    {
      var n := |post.photoUrls|;
      if n == 0 {
        return Err(Generic("Post " + post.id + " has no photos to download"));
      }
      if index >= n {
        return Err(Generic("Photo index " + Decimal(index) + " out of range for post with " + Decimal(n) + " photos"));
      }
      var present := disk.PathExists(dir);
      if !present {
        var made := disk.CreateDirAll(dir);
        if made.Err? {
          return Err(AppError.Io(made.error));
        }
      }
      var path := Download.PhotoPath(post, index, dir);
      var existing := disk.PathExists(path);
      if existing {
        return Ok(path);
      }
      var resp := web.Send(Get(post.photoUrls[index]));
      var bytes := Download.PhotoBytes(resp);
      if bytes.Err? {
        return Err(bytes.error);
      }
      var written := disk.WriteNew(path, bytes.value);
      if written.Err? {
        return Err(AppError.Io(written.error));
      }
      var embedded := EmbedMetadata(post, index, dir, disk);
      if embedded.Err? {
        return Err(AppError.Io(embedded.error));
      }
      r := Ok(path);
    }

    /** `embed_metadata`: the photo gets the post's date when it parses, then
        the sidecar is written. */
    method EmbedMetadata(post: Post, index: nat, dir: Path, disk: Disk) returns (r: Result<(), string>)
      modifies disk
      ensures Call(r, disk.State()) == Download.EmbedMetadata(post, index, dir, old(disk.State()), disk.faults, config, rt)
    {
      if post.date != "" && post.date != "Unknown Date" {
        var instant := Dates.ParseDateToTimestamp(post.date);
        if instant.Some? {
          var stamped := SetFileTimestamps(Download.PhotoPath(post, index, dir), instant.value, disk);
          if stamped.Err? {
            return stamped;
          }
        }
      }
      r := disk.WriteNew(Download.MetadataPath(post, index, dir), Utf8Encode(Download.MetadataText(post, config, rt)));
    }

    /** `set_file_timestamps`: only an instant since the epoch is applied,
        through `touch`, whose failure is not reported. */
    method SetFileTimestamps(photo: Path, nanos: int, disk: Disk) returns (r: Result<(), string>)
      modifies disk
      ensures Call(r, disk.State()) == Download.SetFileTimestamps(old(disk.State()), disk.faults, photo, nanos)
    {
      if nanos >= 0 {
        r := disk.Metadata(photo);
        if r.Ok? {
          disk.Touch(photo, nanos / Dates.NANOS_PER_SECOND);
        }
      } else {
        r := Ok(());
      }
    }

    /** `download_all_photos`: every photo in turn, keeping the paths of those
        that downloaded and going on after a failure. */
    method DownloadAllPhotos(post: Post, dir: Path, disk: Disk) returns (r: Result<seq<Path>, AppError>)
      modifies web, disk
      ensures var x := Download.DownloadAll(post, dir, old(disk.State()), disk.faults, web.answer, old(web.log), config, rt);
              r == x.result && web.log == old(web.log) + x.sent && disk.State() == x.after
    {
      var n := |post.photoUrls|;
      if n == 0 {
        return Ok([]);
      }
      ghost var step := Download.DownloadStep(post, dir, disk.faults, web.answer, config, rt);
      ghost var whole := Download.DownloadFrom(n, 0, disk.State(), web.log, step);
      Download.GatheredFromStart(whole);
      ghost var done: seq<Request> := [];
      var paths: seq<Path> := [];
      for i := 0 to n
        invariant web.log == old(web.log) + done
        invariant whole == Download.Gathered(paths, done, Download.DownloadFrom(n, i, disk.State(), web.log, step))
      {
        ghost var s := disk.State();
        ghost var h := web.log;
        var one := DownloadPhoto(post, i, dir, disk);
        ghost var x := step(i, s, h);
        assert x == Download.DownloadPhoto(post, i, dir, s, disk.faults, web.answer, h, config, rt);
        Download.GatherStep(n, i, s, h, step, paths, done);
        AppendAssoc(old(web.log), done, x.sent);
        if one.Ok? {
          paths := paths + [one.value];
        } else {
          assert paths + [] == paths;
        }
        done := done + x.sent;
      }
      assert paths + [] == paths && done + [] == done;
      r := Ok(paths);
    }
  }

  /** A miss at `urls[i]` after the GETs of `urls[k..i]`: the search goes on
      from `i + 1` after one more GET. */
  lemma MissStep(urls: seq<string>, k: nat, i: nat, server: Server, h0: seq<Request>)
    requires k <= i < |urls|
    requires !Succeeded(server(h0 + Gets(urls[k..i]), Get(urls[i])))
    ensures h0 + Gets(urls[k..i]) + [Get(urls[i])] == h0 + Gets(urls[k..i + 1])
    ensures TryFrom(urls, i, server, h0 + Gets(urls[k..i])).result
              == TryFrom(urls, i + 1, server, h0 + Gets(urls[k..i + 1])).result
    ensures Gets(urls[k..i]) + TryFrom(urls, i, server, h0 + Gets(urls[k..i])).sent
              == Gets(urls[k..i + 1]) + TryFrom(urls, i + 1, server, h0 + Gets(urls[k..i + 1])).sent
  {
    GetsAppend(urls[k..i], [urls[i]]);
    assert urls[k..i] + [urls[i]] == urls[k..i + 1];
  }

  /** A 2xx at `urls[i]` after the GETs of `urls[k..i]` ends the search. */
  lemma HitStep(urls: seq<string>, k: nat, i: nat, server: Server, h0: seq<Request>)
    requires k <= i < |urls|
    requires Succeeded(server(h0 + Gets(urls[k..i]), Get(urls[i])))
    ensures TryFrom(urls, i, server, h0 + Gets(urls[k..i]))
              == Exchange(Some(server(h0 + Gets(urls[k..i]), Get(urls[i]))), [Get(urls[i])])
    ensures Gets(urls[k..i]) + [Get(urls[i])] == Gets(urls[k..i + 1])
  {
    GetsAppend(urls[k..i], [urls[i]]);
    assert urls[k..i] + [urls[i]] == urls[k..i + 1];
  }

  lemma AppendAssoc(a: seq<Request>, b: seq<Request>, c: seq<Request>)
    ensures (a + b) + c == a + (b + c)
  {
  }
}
