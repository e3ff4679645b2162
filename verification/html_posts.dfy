/** Reading posts from an HTML page: one post per element with class
    `observation`, in document order. */
module HtmlPosts {
  import opened Wrappers
  import opened Text
  import opened Errors
  import opened Html
  import opened Posts

  /** A reference as written when it already starts with "http", otherwise
      appended to `root`. */
  function Resolve(ref: string, root: string): (r: string)
    ensures StartsWith(ref, "http") ==> r == ref
    ensures !StartsWith(ref, "http") ==> StartsWith(r, root) && r[|root|..] == ref
  {
    if StartsWith(ref, "http") then ref else root + ref
  }

  /** The prefix for relative photo sources: the part of the base URL before
      "/schools" when it has one, the whole base URL otherwise. */
  function PhotoBase(base: string): string {
    if Contains(base, "/schools") then BeforeFirst(base, "/schools") else base
  }

  /** The two ways the client computes the site root agree. */
  lemma PhotoBaseIsRootDomain(base: string)
    ensures PhotoBase(base) == RootDomain(base)
  {
  }

  /** The URL of an observation's link: empty without a link or without an
      `href`. */
  function LinkUrl(link: Option<Link>, base: string): (r: string)
    ensures link.None? || link.value.href.None? ==> r == ""
    ensures link.Some? && link.value.href.Some? ==> r == Resolve(link.value.href.value, RootDomain(base))
  {
    match link
    case None => ""
    case Some(l) =>
      match l.href
      case None => ""
      case Some(href) => Resolve(href, RootDomain(base))
  }

  /** The photo URLs of an observation: one per `img` with a `src`, in order. */
  function PhotoUrls(srcs: seq<Option<string>>, base: string): seq<string>
    decreases |srcs|
  {
    if srcs == [] then []
    else
      var n := |srcs| - 1;
      var init := PhotoUrls(srcs[..n], base);
      match srcs[n]
      case None => init
      case Some(src) => init + [Resolve(src, PhotoBase(base))]
  }

  /** The number of sources that are present. */
  function CountPresent(srcs: seq<Option<string>>): nat
    decreases |srcs|
  {
    if srcs == [] then 0
    else CountPresent(srcs[..|srcs| - 1]) + (if srcs[|srcs| - 1].Some? then 1 else 0)
  }

  /** Every present source gives exactly one URL, and every URL is a present
      source resolved against the site root. The URL of the source at `j` is
      at the position counting the present sources before it, so photo
      indices follow the order of the `img` elements. */
  lemma {:induction false} PhotoUrlsSpec(srcs: seq<Option<string>>, base: string)
    ensures |PhotoUrls(srcs, base)| == CountPresent(srcs)
    ensures forall u :: u in PhotoUrls(srcs, base) ==>
              exists j :: 0 <= j < |srcs| && srcs[j].Some? && u == Resolve(srcs[j].value, RootDomain(base))
    ensures forall j :: 0 <= j < |srcs| && srcs[j].Some? ==>
              CountPresent(srcs[..j]) < |PhotoUrls(srcs, base)|
              && PhotoUrls(srcs, base)[CountPresent(srcs[..j])] == Resolve(srcs[j].value, RootDomain(base))
    decreases |srcs|
  {
    PhotoBaseIsRootDomain(base);
    if srcs != [] {
      var n := |srcs| - 1;
      PhotoUrlsSpec(srcs[..n], base);
      assert forall j :: 0 <= j < n ==> srcs[..n][j] == srcs[j];
      assert forall j :: 0 <= j <= n ==> srcs[..n][..j] == srcs[..j];
      assert srcs[..n] == srcs[..n][..n];
    }
  }

  /** The source loop of `parse_posts_html`. */
  method CollectPhotoUrls(srcs: seq<Option<string>>, base: string) returns (urls: seq<string>)
    ensures urls == PhotoUrls(srcs, base)
  {
    urls := [];
    for i := 0 to |srcs|
      invariant urls == PhotoUrls(srcs[..i], base)
    {
      assert srcs[..i + 1][..i] == srcs[..i];
      if srcs[i].Some? {
        var src := srcs[i].value;
        var root := if Contains(base, "/schools") then BeforeFirst(base, "/schools") else base;
        urls := urls + [if StartsWith(src, "http") then src else root + src];
      }
    }
    assert srcs[..|srcs|] == srcs;
  }

  /** The text of the first matching element, or the default. */
  function TextOr(nodes: Option<seq<string>>, default: string): string {
    match nodes
    case Some(n) => ElementText(n)
    case None => default
  }

  /** The post for the observation at position `k`. */
  function PostOfObservation(o: Observation, k: nat, base: string): Post {
    Post(
      o.id.GetOr("post_" + Decimal(k)),
      TextOr(o.text, "Untitled Post"),
      TextOr(o.author, "Unknown Author"),
      TextOr(o.date, "Unknown Date"),
      LinkUrl(o.link, base),
      PhotoUrls(o.photoSrcs, base))
  }

  /** The posts of the observations in order; every observation gives one,
      so the count of posts so far is the observation's position. */
  function PostsOfObservations(obs: seq<Observation>, base: string): (r: seq<Post>)
    ensures |r| == |obs|
    decreases |obs|
  {
    if obs == [] then []
    else
      var n := |obs| - 1;
      PostsOfObservations(obs[..n], base) + [PostOfObservation(obs[n], n, base)]
  }

  lemma {:induction false} PostsOfObservationsAt(obs: seq<Observation>, base: string, k: nat)
    requires k < |obs|
    ensures PostsOfObservations(obs, base)[k] == PostOfObservation(obs[k], k, base)
    decreases |obs|
  {
    var n := |obs| - 1;
    if k < n {
      PostsOfObservationsAt(obs[..n], base, k);
    }
  }

  /** Observations without an `id` are named by position, so no two of them
      share a name. */
  lemma PositionalIdsDistinct(k1: nat, k2: nat)
    requires k1 != k2
    ensures "post_" + Decimal(k1) != "post_" + Decimal(k2)
  {
    if "post_" + Decimal(k1) == "post_" + Decimal(k2) {
      assert Decimal(k1) == ("post_" + Decimal(k1))[5..];
      DecimalInjective(k1, k2);
    }
  }

  /** `parse_posts_html`: never fails; one post per observation. */
  function ParsePostsHtml(text: string, base: string, rt: Runtime): (r: Result<seq<Post>, AppError>)
    ensures r.Ok?
    ensures |r.value| == |rt.parseHtml(text).observations|
  {
    Ok(PostsOfObservations(rt.parseHtml(text).observations, base))
  }

  /** The observation loop of `parse_posts_html`. */
  method CollectPosts(obs: seq<Observation>, base: string) returns (posts: seq<Post>)
    ensures posts == PostsOfObservations(obs, base)
  {
    posts := [];
    for i := 0 to |obs|
      invariant posts == PostsOfObservations(obs[..i], base)
    {
      assert obs[..i + 1][..i] == obs[..i];
      var o := obs[i];
      var photos := CollectPhotoUrls(o.photoSrcs, base);
      var post := Post(o.id.GetOr("post_" + Decimal(|posts|)), TextOr(o.text, "Untitled Post"),
                       TextOr(o.author, "Unknown Author"), TextOr(o.date, "Unknown Date"),
                       LinkUrl(o.link, base), photos);
      posts := posts + [post];
    }
    assert obs[..|obs|] == obs;
  }

  /** Against a base URL without "/schools" (a local test server), relative
      links and photo sources are appended to the base URL itself. */
  lemma {:induction false} RelativePhotosOnPlainBase(srcs: seq<Option<string>>, base: string)
    requires !Contains(base, "/schools")
    requires forall j :: 0 <= j < |srcs| ==> srcs[j].Some? && !StartsWith(srcs[j].value, "http")
    ensures |PhotoUrls(srcs, base)| == |srcs|
    ensures forall j :: 0 <= j < |srcs| ==> PhotoUrls(srcs, base)[j] == base + srcs[j].value
    decreases |srcs|
  {
    if srcs != [] {
      var n := |srcs| - 1;
      RelativePhotosOnPlainBase(srcs[..n], base);
      assert PhotoUrls(srcs, base) == PhotoUrls(srcs[..n], base) + [base + srcs[n].value];
    }
  }

  /** A reference starting with '/' is relative. */
  predicate RootRelative(ref: string) {
    |ref| > 0 && ref[0] == '/'
  }

  lemma RootRelativeIsRelative(ref: string)
    requires RootRelative(ref)
    ensures !StartsWith(ref, "http")
  {
    assert "http"[0] == 'h';
  }

  /** An observation whose link and photo sources are root-relative, read
      against a base URL without "/schools": its URL and photo URLs are the
      base URL followed by the references. */
  lemma ObservationOnPlainBase(o: Observation, k: nat, base: string, href: string)
    requires !Contains(base, "/schools")
    requires o.link == Some(Link(Some(href))) && RootRelative(href)
    requires forall j :: 0 <= j < |o.photoSrcs| ==> o.photoSrcs[j].Some? && RootRelative(o.photoSrcs[j].value)
    ensures PostOfObservation(o, k, base).url == base + href
    ensures |PostOfObservation(o, k, base).photoUrls| == |o.photoSrcs|
    ensures forall j :: 0 <= j < |o.photoSrcs| ==> PostOfObservation(o, k, base).photoUrls[j] == base + o.photoSrcs[j].value
  {
    RootRelativeIsRelative(href);
    forall j | 0 <= j < |o.photoSrcs|
      ensures !StartsWith(o.photoSrcs[j].value, "http")
    {
      RootRelativeIsRelative(o.photoSrcs[j].value);
    }
    RelativePhotosOnPlainBase(o.photoSrcs, base);
  }

  /** The two-observation page a local test server serves (whatever the
      texts of its observations): two posts, with their ids, their links and
      their photos under the base URL. */
  lemma TwoObservationsScenario(text: string, base: string, rt: Runtime)
    requires !Contains(base, "/schools")
    requires |rt.parseHtml(text).observations| == 2
    requires rt.parseHtml(text).observations[0].id == Some("obs-123")
    requires rt.parseHtml(text).observations[0].link == Some(Link(Some("/observations/123")))
    requires rt.parseHtml(text).observations[0].photoSrcs
               == [Some("/uploads/photos/123.jpg"), Some("/uploads/photos/124.jpg")]
    requires rt.parseHtml(text).observations[1].id == Some("obs-456")
    requires rt.parseHtml(text).observations[1].link == Some(Link(Some("/observations/456")))
    requires rt.parseHtml(text).observations[1].photoSrcs == [Some("/uploads/photos/456.jpg")]
    ensures |ParsePostsHtml(text, base, rt).value| == 2
    ensures ParsePostsHtml(text, base, rt).value[0].id == "obs-123"
    ensures ParsePostsHtml(text, base, rt).value[1].id == "obs-456"
    ensures ParsePostsHtml(text, base, rt).value[0].url == base + "/observations/123"
    ensures ParsePostsHtml(text, base, rt).value[1].url == base + "/observations/456"
    ensures ParsePostsHtml(text, base, rt).value[0].photoUrls
              == [base + "/uploads/photos/123.jpg", base + "/uploads/photos/124.jpg"]
    ensures ParsePostsHtml(text, base, rt).value[1].photoUrls == [base + "/uploads/photos/456.jpg"]
  {
    var obs := rt.parseHtml(text).observations;
    var posts := ParsePostsHtml(text, base, rt).value;
    assert posts[0] == PostOfObservation(obs[0], 0, base) by {
      PostsOfObservationsAt(obs, base, 0);
    }
    assert posts[1] == PostOfObservation(obs[1], 1, base) by {
      PostsOfObservationsAt(obs, base, 1);
    }
    ObservationOnPlainBase(obs[0], 0, base, "/observations/123");
    ObservationOnPlainBase(obs[1], 1, base, "/observations/456");
    var photos := posts[0].photoUrls;
    assert photos == [photos[0], photos[1]];
  }
}
