/** Fetching one page of posts: the primary URL, seven fixed fallbacks, then
    the links discovered on the school page, each tried in order until one
    answers with a 2xx status. */
module Endpoints {
  import opened Wrappers
  import opened Numbers
  import opened Text
  import opened Errors
  import opened Http
  import opened Html
  import opened Posts
  import opened Configuration
  import JsonPosts
  import HtmlPosts

  // ---------------------------------------------------------------------------
  // Trying URLs in order
  // ---------------------------------------------------------------------------

  /** Sends `Get(urls[k])`, `Get(urls[k + 1])`, … after the requests `h`,
      stopping at the first 2xx reply, which is the result. */
  function TryFrom(urls: seq<string>, k: nat, server: Server, h: seq<Request>): (x: Exchange<Option<Response>>)
    requires k <= |urls|
    ensures |x.sent| <= |urls| - k
    ensures x.result.None? ==> |x.sent| == |urls| - k
    ensures x.result.Some? ==> |x.sent| > 0 && Succeeded(x.result.value)
    decreases |urls| - k
  {
    if k == |urls| then Exchange(None, [])
    else
      var resp := server(h, Get(urls[k]));
      if Succeeded(resp) then Exchange(Some(resp), [Get(urls[k])])
      else
        var rest := TryFrom(urls, k + 1, server, h + [Get(urls[k])]);
        Exchange(rest.result, [Get(urls[k])] + rest.sent)
  }

  /** The requests sent are GETs of the URLs from `k` on, in order. */
  lemma {:induction false} TryFromSent(urls: seq<string>, k: nat, server: Server, h: seq<Request>)
    requires k <= |urls|
    ensures TryFrom(urls, k, server, h).sent == Gets(urls[k..k + |TryFrom(urls, k, server, h).sent|])
    decreases |urls| - k
  {
    if k < |urls| {
      var resp := server(h, Get(urls[k]));
      if Succeeded(resp) {
        assert TryFrom(urls, k, server, h) == Exchange(Some(resp), [Get(urls[k])]);
        assert urls[k..k + 1] == [urls[k]];
      } else {
        var h1 := h + [Get(urls[k])];
        var rest := TryFrom(urls, k + 1, server, h1);
        var n := k + 1 + |rest.sent|;
        assert TryFrom(urls, k, server, h) == Exchange(rest.result, [Get(urls[k])] + rest.sent);
        TryFromSent(urls, k + 1, server, h1);
        GetsShift(urls, k, n);
        assert [Get(urls[k])] + rest.sent == Gets(urls[k..n]);
      }
    } else {
      assert urls[k..k] == [];
    }
  }

  /** The answer to `urls[j]` when it is sent after `h` and the URLs before
      it from index `k`. */
  function AnswerAt(urls: seq<string>, k: nat, j: nat, server: Server, h: seq<Request>): Response
    requires k <= j < |urls|
  {
    server(h + Gets(urls[k..j]), Get(urls[j]))
  }

  /** Nothing is found exactly when every URL from `k` on failed. */
  lemma {:induction false} TryFromNone(urls: seq<string>, k: nat, server: Server, h: seq<Request>)
    requires k <= |urls|
    ensures TryFrom(urls, k, server, h).result.None? <==>
              forall j :: k <= j < |urls| ==> !Succeeded(AnswerAt(urls, k, j, server, h))
    decreases |urls| - k
  {
    if k < |urls| {
      assert urls[k..k] == [] && h + [] == h;
      assert AnswerAt(urls, k, k, server, h) == server(h, Get(urls[k]));
      if !Succeeded(server(h, Get(urls[k]))) {
        var h1 := h + [Get(urls[k])];
        assert TryFrom(urls, k, server, h).result == TryFrom(urls, k + 1, server, h1).result;
        TryFromNone(urls, k + 1, server, h1);
        forall j | k + 1 <= j < |urls|
          ensures AnswerAt(urls, k + 1, j, server, h1) == AnswerAt(urls, k, j, server, h)
        {
          AnswerShift(urls, k, j, server, h);
        }
        if TryFrom(urls, k, server, h).result.None? {
          forall j | k <= j < |urls|
            ensures !Succeeded(AnswerAt(urls, k, j, server, h))
          {
            if j > k {
              assert !Succeeded(AnswerAt(urls, k + 1, j, server, h1));
            }
          }
        } else {
          var j :| k + 1 <= j < |urls| && Succeeded(AnswerAt(urls, k + 1, j, server, h1));
          assert Succeeded(AnswerAt(urls, k, j, server, h));
        }
      }
    }
  }

  /** What is found is the answer to the last URL sent. */
  lemma {:induction false} TryFromFound(urls: seq<string>, k: nat, server: Server, h: seq<Request>)
    requires k <= |urls|
    ensures TryFrom(urls, k, server, h).result.Some? ==>
              TryFrom(urls, k, server, h).result.value
                == AnswerAt(urls, k, k + |TryFrom(urls, k, server, h).sent| - 1, server, h)
    decreases |urls| - k
  {
    if k < |urls| {
      var resp := server(h, Get(urls[k]));
      if Succeeded(resp) {
        assert urls[k..k] == [] && h + [] == h;
        assert TryFrom(urls, k, server, h) == Exchange(Some(resp), [Get(urls[k])]);
        assert AnswerAt(urls, k, k, server, h) == resp;
      } else {
        var h1 := h + [Get(urls[k])];
        var x, rest := TryFrom(urls, k, server, h), TryFrom(urls, k + 1, server, h1);
        assert x.result == rest.result && |x.sent| == 1 + |rest.sent|;
        if x.result.Some? {
          TryFromFound(urls, k + 1, server, h1);
          var last := k + |x.sent| - 1;
          assert rest.result.value == AnswerAt(urls, k + 1, last, server, h1);
          AnswerShift(urls, k, last, server, h);
          assert x.result.value == AnswerAt(urls, k, last, server, h);
        }
      }
    } else {
      assert TryFrom(urls, k, server, h).result.None?;
    }
  }

  /** Every URL sent before the one that answered failed. */
  lemma {:induction false} TryFromEarlierFailed(urls: seq<string>, k: nat, server: Server, h: seq<Request>, j: nat)
    requires k <= j < |urls| && j < k + |TryFrom(urls, k, server, h).sent| - 1
    ensures !Succeeded(AnswerAt(urls, k, j, server, h))
    decreases |urls| - k
  {
    var resp := server(h, Get(urls[k]));
    assert !Succeeded(resp);
    var h1 := h + [Get(urls[k])];
    var x, rest := TryFrom(urls, k, server, h), TryFrom(urls, k + 1, server, h1);
    assert |x.sent| == 1 + |rest.sent|;
    if j == k {
      assert urls[k..k] == [] && h + [] == h;
    } else {
      TryFromEarlierFailed(urls, k + 1, server, h1, j);
      AnswerShift(urls, k, j, server, h);
    }
  }

  lemma AnswerShift(urls: seq<string>, k: nat, j: nat, server: Server, h: seq<Request>)
    requires k < j < |urls|
    ensures AnswerAt(urls, k + 1, j, server, h + [Get(urls[k])]) == AnswerAt(urls, k, j, server, h)
  {
    GetsShift(urls, k, j);
    assert h + [Get(urls[k])] + Gets(urls[k + 1..j]) == h + Gets(urls[k..j]);
  }

  lemma GetsShift(urls: seq<string>, k: nat, j: nat)
    requires k < j <= |urls|
    ensures Gets(urls[k..j]) == [Get(urls[k])] + Gets(urls[k + 1..j])
  {
    assert urls[k..j][1..] == urls[k + 1..j];
  }

  // ---------------------------------------------------------------------------
  // `discover_endpoints`
  // ---------------------------------------------------------------------------

  /** Fragments that make a link worth trying. */
  const KEYWORDS: seq<string> := ["observation", "event", "photo", "post", "feed", "timeline"]

  /** An absolute link as it is, a root-relative one on the public site, any
      other one under the base URL. */
  function Normalise(href: string, base: string): (r: string)
    ensures StartsWith(href, "http") ==> r == href
  {
    if StartsWith(href, "http") then href
    else if StartsWith(href, "/") then SITE + href
    else base + "/" + href
  }

  /** The normalised relevant links, in document order. */
  function Candidates(hrefs: seq<string>, base: string): (r: seq<string>)
    ensures forall u :: u in r ==> exists i :: 0 <= i < |hrefs| && ContainsAny(hrefs[i], KEYWORDS) && u == Normalise(hrefs[i], base)
    ensures forall i :: 0 <= i < |hrefs| && ContainsAny(hrefs[i], KEYWORDS) ==> Normalise(hrefs[i], base) in r
    decreases |hrefs|
  {
    if hrefs == [] then []
    else
      var n := |hrefs| - 1;
      var init := Candidates(hrefs[..n], base);
      assert forall i :: 0 <= i < n ==> hrefs[..n][i] == hrefs[i];
      if ContainsAny(hrefs[n], KEYWORDS) then init + [Normalise(hrefs[n], base)] else init
  }

  /** Strictly increasing in the byte-wise order of strings. */
  predicate StrictlySorted(xs: seq<string>) {
    forall i :: 0 <= i < |xs| - 1 ==> Below(xs[i], xs[i + 1])
  }

  /** Strictly increasing consecutive elements make every pair strictly
      increasing, so a strictly sorted list has no duplicates. */
  lemma {:induction false} StrictlySortedPairwise(xs: seq<string>, i: nat, j: nat)
    requires StrictlySorted(xs) && i < j < |xs|
    ensures Below(xs[i], xs[j]) && xs[i] != xs[j]
    decreases j - i
  {
    if i + 1 < j {
      StrictlySortedPairwise(xs, i + 1, j);
      BelowTransitive(xs[i], xs[i + 1], xs[j]);
    }
    if xs[i] == xs[j] {
      BelowIrreflexive(xs[i]);
    }
  }

  /** Puts `x` in its place in a strictly sorted list, unless it is there. */
  function Insert(x: string, xs: seq<string>): (r: seq<string>)
    requires StrictlySorted(xs)
    ensures StrictlySorted(r)
    ensures forall y :: y in r <==> y == x || y in xs
    ensures |r| > 0 && (r[0] == x || (xs != [] && r[0] == xs[0]))
  {
    if xs == [] then [x]
    else if x == xs[0] then xs
    else if Below(x, xs[0]) then [x] + xs
    else
      BelowTotal(x, xs[0]);
      var rest := Insert(x, xs[1..]);
      assert forall y :: y in xs <==> y == xs[0] || y in xs[1..];
      [xs[0]] + rest
  }

  /** `sort()` followed by `dedup()`: the distinct elements in increasing
      order. */
  function SortDedup(xs: seq<string>): (r: seq<string>)
    ensures StrictlySorted(r)
    ensures forall y :: y in r <==> y in xs
    decreases |xs|
  {
    if xs == [] then []
    else
      var n := |xs| - 1;
      assert forall y :: y in xs <==> y == xs[n] || y in xs[..n];
      Insert(xs[n], SortDedup(xs[..n]))
  }

  /** Only one list is strictly sorted and holds a given set of strings, so
      any sort followed by dedup gives the list `SortDedup` gives. */
  lemma {:induction false} StrictlySortedUnique(a: seq<string>, b: seq<string>)
    requires StrictlySorted(a) && StrictlySorted(b)
    requires forall y :: y in a <==> y in b
    ensures a == b
    decreases |a|
  {
    assert a != [] ==> a[0] in b;
    assert b != [] ==> b[0] in a;
    if a != [] && b != [] {
      if a[0] != b[0] {
        var j :| 0 <= j < |b| && b[j] == a[0];
        var i :| 0 <= i < |a| && a[i] == b[0];
        assert 0 < i && 0 < j;
        StrictlySortedPairwise(a, 0, i);
        StrictlySortedPairwise(b, 0, j);
        BelowTransitive(a[0], b[0], a[0]);
        BelowIrreflexive(a[0]);
      }
      forall y
        ensures y in a[1..] <==> y in b[1..]
      {
        assert a == [a[0]] + a[1..] && b == [b[0]] + b[1..];
        if y in a[1..] {
          var i :| 1 <= i < |a| && a[i] == y;
          StrictlySortedPairwise(a, 0, i);
          assert y in b && y != b[0];
        }
        if y in b[1..] {
          var j :| 1 <= j < |b| && b[j] == y;
          StrictlySortedPairwise(b, 0, j);
          assert y in a && y != a[0];
        }
      }
      StrictlySortedUnique(a[1..], b[1..]);
      assert a == [a[0]] + a[1..] && b == [b[0]] + b[1..];
    }
  }

  /** `discover_endpoints`: one request for the base URL; on a readable 2xx
      page, the relevant links, normalised, sorted and without duplicates. */
  function Discovery(base: string, server: Server, h: seq<Request>, rt: Runtime): (x: Exchange<Result<seq<string>, AppError>>)
    ensures x.sent == [Get(base)]
    ensures x.result.Ok? <==> Succeeded(server(h, Get(base))) && server(h, Get(base)).body.Received?
    ensures x.result.Ok? ==>
              var hrefs := rt.parseHtml(rt.decodeText(server(h, Get(base)).body.bytes)).hrefs;
              StrictlySorted(x.result.value)
              && forall u :: u in x.result.value <==> u in Candidates(hrefs, base)
    ensures x.result.Err? ==> x.result.error.Generic?
  {
    var req := Get(base);
    var result :=
      match server(h, req)
      case TransportFailure(reason) => Err(Generic("Failed to fetch school page: " + reason))
      case Reply(status, _, body) =>
        if !IsSuccess(status) then Err(Generic("Failed to fetch school page. Status: " + StatusText(status)))
        else match body
          case ReadFailed(reason) => Err(Generic("Failed to read school page content: " + reason))
          case Received(bytes) =>
            Ok(SortDedup(Candidates(rt.parseHtml(rt.decodeText(bytes)).hrefs, base)));
    Exchange(result, [req])
  }

  // ---------------------------------------------------------------------------
  // `get_posts`
  // ---------------------------------------------------------------------------

  /** The observations page under `prefix`, with `?page=N` unless the page
      is 0. */
  function ObservationsUrl(prefix: string, page: u32): string {
    prefix + "/observations" + (if page == 0 then "" else "?page=" + Decimal(page))
  }

  /** The child's posts feed on the public site. */
  function FeedUrl(config: Config, page: u32): string {
    SITE + "/s/" + Decimal(config.schoolId) + "/children/" + Decimal(config.childId) + "/posts.json?locale=en"
    + (if page <= 1 then "" else "&page=" + Decimal(page))
  }

  /** The first URL tried: the observations page of a local test server, the
      child's JSON feed otherwise. */
  function PrimaryUrl(base: string, config: Config, page: u32): string {
    if IsMockServer(base) then ObservationsUrl(base, page) else FeedUrl(config, page)
  }

  /** The seven fallbacks, in the order they are tried; the last is the base
      URL itself. The first uses the part of the base URL before "/schools"
      (all of it when there is none). */
  function FallbackUrls(base: string, config: Config, page: u32): (r: seq<string>)
    ensures |r| == 7 && r[6] == base
  {
    var child := Decimal(config.childId);
    [ ObservationsUrl(RootDomain(base), page),
      base + "/children/" + child + "/observations",
      base + "/api/v1/children/" + child + "/events",
      base + "/api/v1/children/" + child + "/photos",
      base + "/api/v1/events",
      base + "/dashboard",
      base ]
  }

  /** The error when nothing answered with a 2xx: it speaks of the primary
      request only, a status when it got one, the connection otherwise. */
  function AllFailed(primary: Response): (e: AppError)
    ensures e.Generic?
  {
    match primary
    case Reply(status, _, _) =>
      Generic("Failed to fetch posts from Transparent Classroom. Status: " + StatusText(status)
              + ". This might indicate an authentication or permissions issue.")
    case TransportFailure(_) =>
      Generic("Failed to connect to Transparent Classroom for fetching posts. Please check your internet connection and try again.")
  }

  /** Reads the successful response and parses it as JSON when the primary
      URL names a `.json` resource, as HTML otherwise, whichever URL answered. */
  function ReadPosts(resp: Response, primary: string, base: string, rt: Runtime): (r: Result<seq<Post>, AppError>)
    requires resp.Reply?
    ensures resp.body.ReadFailed? ==> r == Err(Generic("Failed to read posts page content: " + resp.body.reason))
  {
    match resp.body
    case ReadFailed(reason) => Err(Generic("Failed to read posts page content: " + reason))
    case Received(bytes) =>
      var text := rt.decodeText(bytes);
      if Contains(primary, ".json") then JsonPosts.ParsePostsJson(text, rt)
      else HtmlPosts.ParsePostsHtml(text, base, rt)
  }

  // ---------------------------------------------------------------------------
  // Traces of requests and their answers
  // ---------------------------------------------------------------------------

  /** The answer to the `i`-th request of `sent`, sent after `h` and the
      requests before it. */
  function AnswerTo(server: Server, h: seq<Request>, sent: seq<Request>, i: nat): Response
    requires i < |sent|
  {
    server(h + sent[..i], sent[i])
  }

  /** The requests at positions `lo` to `hi - 1` were all answered without a
      2xx. */
  predicate NoneSucceeded(server: Server, h: seq<Request>, sent: seq<Request>, lo: nat, hi: nat)
    requires hi <= |sent|
  {
    forall i :: lo <= i < hi ==> !Succeeded(AnswerTo(server, h, sent, i))
  }

  /** A response that was found is the 2xx answer to the last request sent. */
  predicate FoundLast(x: Exchange<Option<Response>>, server: Server, h: seq<Request>) {
    x.result.Some? ==>
      |x.sent| > 0 && Succeeded(x.result.value) && x.result.value == AnswerTo(server, h, x.sent, |x.sent| - 1)
  }

  /** Putting `p` in front of a trace sent after `h + p` gives a trace sent
      after `h` with the same answers. */
  lemma AnswerToShift(server: Server, h: seq<Request>, p: seq<Request>, sent: seq<Request>, i: nat)
    requires i < |sent|
    ensures AnswerTo(server, h, p + sent, |p| + i) == AnswerTo(server, h + p, sent, i)
  {
    assert (p + sent)[..|p| + i] == p + sent[..i];
    assert h + (p + sent[..i]) == (h + p) + sent[..i];
    assert (p + sent)[|p| + i] == sent[i];
  }

  lemma AnswerToPrefix(server: Server, h: seq<Request>, sent: seq<Request>, s: seq<Request>, i: nat)
    requires i < |sent|
    ensures AnswerTo(server, h, sent + s, i) == AnswerTo(server, h, sent, i)
  {
    assert (sent + s)[..i] == sent[..i];
  }

  lemma NoneSucceededShift(server: Server, h: seq<Request>, p: seq<Request>, sent: seq<Request>, lo: nat, hi: nat)
    requires hi <= |sent| && NoneSucceeded(server, h + p, sent, lo, hi)
    ensures NoneSucceeded(server, h, p + sent, |p| + lo, |p| + hi)
  {
    forall i | |p| + lo <= i < |p| + hi
      ensures !Succeeded(AnswerTo(server, h, p + sent, i))
    {
      AnswerToShift(server, h, p, sent, i - |p|);
    }
  }

  lemma NoneSucceededPrefix(server: Server, h: seq<Request>, sent: seq<Request>, s: seq<Request>, lo: nat, hi: nat)
    requires hi <= |sent| && NoneSucceeded(server, h, sent, lo, hi)
    ensures NoneSucceeded(server, h, sent + s, lo, hi)
  {
    forall i | lo <= i < hi
      ensures !Succeeded(AnswerTo(server, h, sent + s, i))
    {
      AnswerToPrefix(server, h, sent, s, i);
    }
  }

  lemma FoundLastShift(x: Exchange<Option<Response>>, server: Server, h: seq<Request>, p: seq<Request>)
    requires FoundLast(x, server, h + p)
    ensures FoundLast(Exchange(x.result, p + x.sent), server, h)
  {
    if x.result.Some? {
      AnswerToShift(server, h, p, x.sent, |x.sent| - 1);
    }
  }

  /** The answers `TryFrom` saw: every request but a successful last one
      failed. */
  lemma {:induction false} TryFromTrace(urls: seq<string>, k: nat, server: Server, h: seq<Request>)
    requires k <= |urls|
    ensures var x := TryFrom(urls, k, server, h);
            FoundLast(x, server, h)
            && NoneSucceeded(server, h, x.sent, 0, if x.result.Some? then |x.sent| - 1 else |x.sent|)
    decreases |urls| - k
  {
    if k < |urls| {
      var resp := server(h, Get(urls[k]));
      var x := TryFrom(urls, k, server, h);
      if Succeeded(resp) {
        assert x == Exchange(Some(resp), [Get(urls[k])]);
        assert [Get(urls[k])][..0] == [] && h + [] == h;
      } else {
        var p := [Get(urls[k])];
        var rest := TryFrom(urls, k + 1, server, h + p);
        assert x == Exchange(rest.result, p + rest.sent);
        TryFromTrace(urls, k + 1, server, h + p);
        FoundLastShift(rest, server, h, p);
        var hi := if rest.result.Some? then |rest.sent| - 1 else |rest.sent|;
        NoneSucceededShift(server, h, p, rest.sent, 0, hi);
        assert p[..0] == [] && h + [] == h;
        assert (p + rest.sent)[..0] == [] && (p + rest.sent)[0] == Get(urls[k]);
      }
    }
  }

  /** The trace of `x` walks through `plan` in order: its requests are GETs
      of a prefix of the plan, all of it when nothing was found. */
  predicate Follows(x: Exchange<Option<Response>>, plan: seq<string>) {
    |x.sent| <= |plan| && x.sent == Gets(plan[..|x.sent|])
    && (x.result.None? ==> |x.sent| == |plan|)
  }

  /** The number of requests in a trace that did not find the result. */
  function Misses(x: Exchange<Option<Response>>): nat {
    if x.result.Some? && |x.sent| > 0 then |x.sent| - 1 else |x.sent|
  }

  function Min(a: nat, b: nat): nat {
    if a < b then a else b
  }

  lemma TryFromFollows(urls: seq<string>, server: Server, h: seq<Request>)
    ensures Follows(TryFrom(urls, 0, server, h), urls)
    ensures FoundLast(TryFrom(urls, 0, server, h), server, h)
    ensures NoneSucceeded(server, h, TryFrom(urls, 0, server, h).sent, 0, Misses(TryFrom(urls, 0, server, h)))
  {
    var x := TryFrom(urls, 0, server, h);
    TryFromSent(urls, 0, server, h);
    TryFromTrace(urls, 0, server, h);
    assert urls[0..|x.sent|] == urls[..|x.sent|];
  }

  // ---------------------------------------------------------------------------
  // `get_posts`: the fetch
  // ---------------------------------------------------------------------------

  /** The primary URL followed by the seven fallbacks. */
  function FixedUrls(base: string, config: Config, page: u32): (r: seq<string>)
    ensures |r| == 8
  {
    [PrimaryUrl(base, config, page)] + FallbackUrls(base, config, page)
  }

  /** The trace `a`, and when it found nothing, the trace `b` sent after it. */
  function Chain(a: Exchange<Option<Response>>, b: Exchange<Option<Response>>): Exchange<Option<Response>> {
    if a.result.Some? then a else Exchange(b.result, a.sent + b.sent)
  }

  /** The fetching part of `get_posts(page)` against `server` after the
      requests `h`: the primary URL, then the fallbacks, stopping at the first
      2xx; when none answered so, discovery and the discovered URLs. */
  function Fetch(base: string, config: Config, page: u32, server: Server, h: seq<Request>, rt: Runtime): Exchange<Option<Response>> {
    FetchFrom(FixedUrls(base, config, page), base, server, h, rt)
  }

  /** The fixed URLs in order, then discovery when none answered with a 2xx. */
  function FetchFrom(fixed: seq<string>, base: string, server: Server, h: seq<Request>, rt: Runtime): Exchange<Option<Response>> {
    var tried := TryFrom(fixed, 0, server, h);
    Chain(tried, AfterFallbacks(base, server, h + tried.sent, rt))
  }

  /** Discovery, whose failure is ignored, then the discovered URLs in order. */
  function AfterFallbacks(base: string, server: Server, h: seq<Request>, rt: Runtime): Exchange<Option<Response>> {
    TryDiscovered(Discovery(base, server, h, rt), server, h)
  }

  /** The discovered URLs tried in order after the discovery exchange `disc`;
      nothing when discovery failed. */
  function TryDiscovered(disc: Exchange<Result<seq<string>, AppError>>, server: Server, h: seq<Request>): Exchange<Option<Response>> {
    match disc.result
    case Err(_) => Exchange(None, disc.sent)
    case Ok(urls) =>
      var found := TryFrom(urls, 0, server, h + disc.sent);
      Exchange(found.result, disc.sent + found.sent)
  }

  /** `get_posts(page)`: the answer that was found is read with the parser
      the primary URL selects, whichever URL gave it; when nothing answered
      with a 2xx, the error speaks of the primary request only. */
  function GetPosts(base: string, config: Config, page: u32, server: Server, h: seq<Request>, rt: Runtime): (x: Exchange<Result<seq<Post>, AppError>>)
    ensures x.sent == Fetch(base, config, page, server, h, rt).sent
    ensures Fetch(base, config, page, server, h, rt).result.Some? ==>
              x.result == ReadPosts(Fetch(base, config, page, server, h, rt).result.value, PrimaryUrl(base, config, page), base, rt)
    ensures Fetch(base, config, page, server, h, rt).result.None? ==>
              x.result == Err(AllFailed(server(h, Get(PrimaryUrl(base, config, page)))))
  {
    var primary := PrimaryUrl(base, config, page);
    var x := Fetch(base, config, page, server, h, rt);
    match x.result
    case Some(resp) => Exchange(ReadPosts(resp, primary, base, rt), x.sent)
    case None => Exchange(Err(AllFailed(server(h, Get(primary)))), x.sent)
  }

  /** A 2xx answer to the primary URL ends the fetch: no other URL is
      requested. */
  lemma PrimaryWins(base: string, config: Config, page: u32, server: Server, h: seq<Request>, rt: Runtime)
    requires Succeeded(server(h, Get(PrimaryUrl(base, config, page))))
    ensures GetPosts(base, config, page, server, h, rt).sent == [Get(PrimaryUrl(base, config, page))]
    ensures GetPosts(base, config, page, server, h, rt).result
              == ReadPosts(server(h, Get(PrimaryUrl(base, config, page))), PrimaryUrl(base, config, page), base, rt)
  {
    var fixed := FixedUrls(base, config, page);
    assert fixed[0] == PrimaryUrl(base, config, page);
  }

  /** Against the real site the primary URL is the JSON feed. */
  lemma RealServerPrimaryIsJson(base: string, config: Config, page: u32)
    requires !IsMockServer(base)
    ensures Contains(PrimaryUrl(base, config, page), ".json")
  {
    var school := SITE + "/s/" + Decimal(config.schoolId) + "/children/" + Decimal(config.childId) + "/posts";
    var rest := "?locale=en" + (if page <= 1 then "" else "&page=" + Decimal(page));
    assert FeedUrl(config, page) == school + ".json" + rest;
    ContainsMiddle(school, ".json", rest);
  }

  /** So against the real site the JSON parser reads whatever answered. */
  lemma RealServerReadsJson(base: string, config: Config, page: u32, resp: Response, rt: Runtime)
    requires !IsMockServer(base) && resp.Reply? && resp.body.Received?
    ensures ReadPosts(resp, PrimaryUrl(base, config, page), base, rt)
              == JsonPosts.ParsePostsJson(rt.decodeText(resp.body.bytes), rt)
  {
    RealServerPrimaryIsJson(base, config, page);
  }

  // ---------------------------------------------------------------------------
  // `crawl_all_posts`
  // ---------------------------------------------------------------------------

  /** How a crawl ends: with the posts or the first error, or by stepping the
      `u32` page counter past its maximum (a panic in a debug build). */
  datatype CrawlOutcome = Crawled(result: Result<seq<Post>, AppError>) | PageCounterOverflow

  /** One page of posts fetched after the given requests. */
  type PageFetch = (u32, seq<Request>) -> Exchange<Result<seq<Post>, AppError>>

  /** The crawl from `page` on: pages in increasing order, concatenated, up to
      the first empty one; an error ends the crawl and drops what was read. */
  function CrawlFrom(fetch: PageFetch, page: u32, h: seq<Request>): Exchange<CrawlOutcome>
    decreases U32_MAX - page
  {
    var g := fetch(page, h);
    match g.result
    case Err(e) => Exchange(Crawled(Err(e)), g.sent)
    case Ok(posts) =>
      if posts == [] then Exchange(Crawled(Ok([])), g.sent)
      else if page == U32_MAX then Exchange(PageCounterOverflow, g.sent)
      else
        var rest := CrawlFrom(fetch, page + 1, h + g.sent);
        Exchange(Prepend(posts, rest.result), g.sent + rest.sent)
  }

  /** The crawl starts with the request of its first page; an error there
      is the crawl's error, an empty page ends it with nothing, and the
      posts of the first page lead the posts of a crawl that succeeds. */
  lemma CrawlFromFirstPage(fetch: PageFetch, page: u32, h: seq<Request>)
    ensures var g := fetch(page, h);
            var x := CrawlFrom(fetch, page, h);
            |g.sent| <= |x.sent| && x.sent[..|g.sent|] == g.sent
            && (g.result.Err? ==> x.result == Crawled(Err(g.result.error)))
            && (g.result == Ok([]) ==> x.result == Crawled(Ok([])))
            && (g.result.Ok? && x.result.Crawled? && x.result.result.Ok? ==>
                  |g.result.value| <= |x.result.result.value| && x.result.result.value[..|g.result.value|] == g.result.value)
  {
    var g := fetch(page, h);
    if g.result.Ok? && g.result.value != [] && page < U32_MAX {
      var rest := CrawlFrom(fetch, page + 1, h + g.sent);
      assert (g.sent + rest.sent)[..|g.sent|] == g.sent;
    }
  }

  /** The outcome of a crawl that had already gathered `posts`. */
  function Prepend(posts: seq<Post>, o: CrawlOutcome): (r: CrawlOutcome)
    ensures r.Crawled? && r.result.Ok? <==> o.Crawled? && o.result.Ok?
    ensures o.Crawled? && o.result.Ok? ==>
              |r.result.value| == |posts| + |o.result.value|
              && r.result.value[..|posts|] == posts && r.result.value[|posts|..] == o.result.value
    ensures !(o.Crawled? && o.result.Ok?) ==> r == o
  {
    match o
    case Crawled(Ok(more)) =>
      assert (posts + more)[|posts|..] == more;
      Crawled(Ok(posts + more))
    case other => other
  }

  lemma PrependTwice(a: seq<Post>, b: seq<Post>, o: CrawlOutcome)
    ensures Prepend(a, Prepend(b, o)) == Prepend(a + b, o)
  {
    if o.Crawled? && o.result.Ok? {
      assert a + (b + o.result.value) == (a + b) + o.result.value;
    }
  }

  lemma PrependNothing(a: seq<Post>)
    ensures Prepend(a, Crawled(Ok([]))) == Crawled(Ok(a))
  {
    assert a + [] == a;
  }

  /** The crawl `x` carried on after the requests `done` that gathered
      `posts`. */
  function Resumed(posts: seq<Post>, done: seq<Request>, x: Exchange<CrawlOutcome>): Exchange<CrawlOutcome> {
    Exchange(Prepend(posts, x.result), done + x.sent)
  }

  lemma ResumedFromStart(x: Exchange<CrawlOutcome>)
    ensures Resumed([], [], x) == x
  {
    if x.result.Crawled? && x.result.result.Ok? {
      assert [] + x.result.result.value == x.result.result.value;
    }
    assert [] + x.sent == x.sent;
  }

  /** One page of a resumed crawl: an error or an empty page ends it, a page
      at the counter's maximum overflows it, any other page is gathered and
      the crawl goes on from the next page. */
  lemma ResumeStep(fetch: PageFetch, page: u32, h: seq<Request>, posts: seq<Post>, done: seq<Request>)
    ensures var g := fetch(page, h);
            var x := Resumed(posts, done, CrawlFrom(fetch, page, h));
            (g.result.Err? ==> x == Exchange(Crawled(Err(g.result.error)), done + g.sent))
            && (g.result == Ok([]) ==> x == Exchange(Crawled(Ok(posts)), done + g.sent))
            && (g.result.Ok? && g.result.value != [] && page == U32_MAX ==>
                  x == Exchange(PageCounterOverflow, done + g.sent))
            && (g.result.Ok? && g.result.value != [] && page < U32_MAX ==>
                  x == Resumed(posts + g.result.value, done + g.sent, CrawlFrom(fetch, page + 1, h + g.sent)))
  {
    var g := fetch(page, h);
    if g.result == Ok([]) {
      PrependNothing(posts);
    } else if g.result.Ok? && page < U32_MAX {
      var rest := CrawlFrom(fetch, page + 1, h + g.sent);
      PrependTwice(posts, g.result.value, rest.result);
      assert done + (g.sent + rest.sent) == (done + g.sent) + rest.sent;
    }
  }

  /** `get_posts` of the client with the given base URL and configuration. */
  function PostsPage(base: string, config: Config, server: Server, rt: Runtime): PageFetch {
    (page: u32, h: seq<Request>) => GetPosts(base, config, page, server, h, rt)
  }

  /** `crawl_all_posts`: the crawl from page 1. */
  function CrawlAllPosts(base: string, config: Config, server: Server, h: seq<Request>, rt: Runtime): Exchange<CrawlOutcome> {
    CrawlFrom(PostsPage(base, config, server, rt), 1, h)
  }

  // ---------------------------------------------------------------------------
  // What the fetch sends and sees
  // ---------------------------------------------------------------------------

  /** The URLs discovery yields after the requests `h`; none when it fails. */
  function DiscoveredAfter(base: string, server: Server, h: seq<Request>, rt: Runtime): seq<string> {
    Found(Discovery(base, server, h, rt))
  }

  function Found(disc: Exchange<Result<seq<string>, AppError>>): seq<string> {
    match disc.result
    case Ok(urls) => urls
    case Err(_) => []
  }

  /** Every URL `get_posts` may try, in order: the primary URL, the seven
      fallbacks, the base URL for discovery, and the discovered URLs. */
  function Plan(base: string, config: Config, page: u32, discovered: seq<string>): (r: seq<string>)
    ensures |r| == 9 + |discovered|
  {
    FixedUrls(base, config, page) + [base] + discovered
  }

  lemma GetsPrefix(s: seq<string>, m: nat)
    requires m <= |s|
    ensures Gets(s[..m]) == Gets(s)[..m]
  {
    GetsAppend(s[..m], s[m..]);
    assert s[..m] + s[m..] == s;
  }

  /** Discovery's own request, then the discovered URLs until one answers
      with a 2xx. */
  lemma TryDiscoveredTrace(base: string, disc: Exchange<Result<seq<string>, AppError>>, server: Server, h: seq<Request>)
    requires disc.sent == [Get(base)]
    ensures var x := TryDiscovered(disc, server, h);
            Follows(x, [base] + Found(disc))
            && FoundLast(x, server, h)
            && NoneSucceeded(server, h, x.sent, 1, Misses(x))
  {
    var x, d := TryDiscovered(disc, server, h), Found(disc);
    assert ([base] + d)[..1] == [base];
    assert Gets([base]) == [Get(base)];
    if disc.result.Ok? {
      var found := TryFrom(d, 0, server, h + disc.sent);
      assert x == Exchange(found.result, disc.sent + found.sent);
      TryFromFollows(d, server, h + disc.sent);
      FoundLastShift(found, server, h, disc.sent);
      NoneSucceededShift(server, h, disc.sent, found.sent, 0, Misses(found));
      var m := |found.sent|;
      assert ([base] + d)[..1 + m] == [base] + d[..m];
      GetsAppend([base], d[..m]);
    }
  }

  /** `b` sent after a trace `a` that found nothing continues `a`'s plan. */
  lemma ChainTrace(a: Exchange<Option<Response>>, plan: seq<string>, b: Exchange<Option<Response>>, more: seq<string>,
                   server: Server, h: seq<Request>)
    requires Follows(a, plan) && FoundLast(a, server, h) && NoneSucceeded(server, h, a.sent, 0, Misses(a))
    requires Follows(b, more) && FoundLast(b, server, h + a.sent) && NoneSucceeded(server, h + a.sent, b.sent, 1, Misses(b))
    ensures var c := Chain(a, b);
            Follows(c, plan + more)
            && FoundLast(c, server, h)
            && NoneSucceeded(server, h, c.sent, 0, Min(Misses(c), |plan|))
            && NoneSucceeded(server, h, c.sent, |plan| + 1, Misses(c))
  {
    var c := Chain(a, b);
    if a.result.Some? {
      assert (plan + more)[..|a.sent|] == plan[..|a.sent|];
    } else {
      assert c == Exchange(b.result, a.sent + b.sent);
      assert plan[..|plan|] == plan;
      FoundLastShift(b, server, h, a.sent);
      NoneSucceededPrefix(server, h, a.sent, b.sent, 0, |plan|);
      NoneSucceededShift(server, h, a.sent, b.sent, 1, Misses(b));
      GetsAppend(plan, more[..|b.sent|]);
      assert plan + more[..|b.sent|] == (plan + more)[..|c.sent|];
    }
  }

  /** The fixed URLs, then discovery: a prefix of the plan, stopping at the
      first 2xx (the discovery request aside), the whole plan when nothing
      answered. */
  lemma FetchFromTrace(fixed: seq<string>, base: string, server: Server, h: seq<Request>, rt: Runtime)
    ensures var x := FetchFrom(fixed, base, server, h, rt);
            var n := |fixed|;
            var d := if |x.sent| > n then DiscoveredAfter(base, server, h + x.sent[..n], rt) else [];
            Follows(x, fixed + [base] + d)
            && FoundLast(x, server, h)
            && NoneSucceeded(server, h, x.sent, 0, Min(Misses(x), n))
            && NoneSucceeded(server, h, x.sent, n + 1, Misses(x))
  {
    var n := |fixed|;
    var tried := TryFrom(fixed, 0, server, h);
    var disc := Discovery(base, server, h + tried.sent, rt);
    var rest := TryDiscovered(disc, server, h + tried.sent);
    var x := Chain(tried, rest);
    assert x == FetchFrom(fixed, base, server, h, rt);
    TryFromFollows(fixed, server, h);
    TryDiscoveredTrace(base, disc, server, h + tried.sent);
    ChainTrace(tried, fixed, rest, [base] + Found(disc), server, h);
    var d := if |x.sent| > n then DiscoveredAfter(base, server, h + x.sent[..n], rt) else [];
    assert fixed + ([base] + Found(disc)) == fixed + [base] + Found(disc);
    if tried.result.None? {
      assert x.sent[..n] == tried.sent;
      assert d == Found(disc);
    } else {
      assert (fixed + [base] + Found(disc))[..|x.sent|] == (fixed + [base] + d)[..|x.sent|];
    }
  }

  /** What `get_posts` sends and sees: the primary URL, the seven fallbacks in
      order, the base URL for discovery and the discovered URLs, stopping at
      the first 2xx; discovery happens only after all eight fixed URLs failed,
      and the whole plan is tried when nothing answered. */
  lemma FetchTrace(base: string, config: Config, page: u32, server: Server, h: seq<Request>, rt: Runtime)
    ensures var x := Fetch(base, config, page, server, h, rt);
            var d := if |x.sent| > 8 then DiscoveredAfter(base, server, h + x.sent[..8], rt) else [];
            Follows(x, Plan(base, config, page, d))
            && FoundLast(x, server, h)
            && NoneSucceeded(server, h, x.sent, 0, Min(Misses(x), 8))
            && NoneSucceeded(server, h, x.sent, 9, Misses(x))
  {
    FetchFromTrace(FixedUrls(base, config, page), base, server, h, rt);
  }
}
