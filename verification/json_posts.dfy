/** Reading posts from a JSON response: locating the post array, then one
    post per element with ordered field fallbacks and fixed defaults. */
module JsonPosts {
  import opened Wrappers
  import opened Numbers
  import opened Text
  import opened Errors
  import opened Json
  import opened Posts

  type Fields = map<string, Json>

  /** The value of the first key of `keys` that `obj` has. */
  function FirstPresent(obj: Fields, keys: seq<string>): Option<Json> {
    if keys == [] then None
    else if keys[0] in obj then Some(obj[keys[0]])
    else FirstPresent(obj, keys[1..])
  }

  /** Nothing is found exactly when no key is present; otherwise the value
      found belongs to a present key before which no key is present. */
  lemma {:induction false} FirstPresentSpec(obj: Fields, keys: seq<string>)
    ensures FirstPresent(obj, keys).None? <==> forall i :: 0 <= i < |keys| ==> keys[i] !in obj
    ensures FirstPresent(obj, keys).Some? ==>
              exists i :: 0 <= i < |keys| && keys[i] in obj && FirstPresent(obj, keys).value == obj[keys[i]]
                          && forall j :: 0 <= j < i ==> keys[j] !in obj
  {
    if keys != [] && keys[0] !in obj {
      var r := FirstPresent(obj, keys[1..]);
      FirstPresentSpec(obj, keys[1..]);
      assert forall i :: 1 <= i < |keys| ==> keys[i] == keys[1..][i - 1];
      if r.Some? {
        var i :| 0 <= i < |keys[1..]| && keys[1..][i] in obj && r.value == obj[keys[1..][i]]
                 && forall j :: 0 <= j < i ==> keys[1..][j] !in obj;
        assert keys[i + 1] in obj && forall j :: 0 <= j < i + 1 ==> keys[j] !in obj;
      }
    } else if keys != [] {
      assert keys[0] in obj;
    }
  }

  /** The first present key decides: its value if it is a string, otherwise
      the default; later keys are not consulted. */
  function TextField(obj: Fields, keys: seq<string>, default: string): string {
    AsStr(FirstPresent(obj, keys)).GetOr(default)
  }

  /** A present value that is not a string gives the default even when a
      later key holds a string. */
  lemma FirstPresentNonStringGivesDefault(obj: Fields, keys: seq<string>, default: string, k: nat)
    requires k < |keys| && keys[k] in obj && !obj[keys[k]].Str?
    requires forall j :: 0 <= j < k ==> keys[j] !in obj
    ensures TextField(obj, keys, default) == default
  {
    var r := FirstPresent(obj, keys);
    FirstPresentSpec(obj, keys);
    var i :| 0 <= i < |keys| && keys[i] in obj && r.value == obj[keys[i]]
             && forall j :: 0 <= j < i ==> keys[j] !in obj;
    assert i == k;
  }

  /** `id`: a string as it is, a `u64` in decimal, else `post_{i}`. */
  function PostId(obj: Fields, i: nat): (r: string)
    ensures "id" in obj && obj["id"].Str? ==> r == obj["id"].s
    ensures "id" in obj && AsU64(obj["id"]).Some? ==> r == Decimal(AsU64(obj["id"]).value)
    ensures ("id" !in obj || (!obj["id"].Str? && AsU64(obj["id"]).None?)) ==> r == "post_" + Decimal(i)
  {
    if "id" in obj && obj["id"].Str? then obj["id"].s
    else if "id" in obj && AsU64(obj["id"]).Some? then Decimal(AsU64(obj["id"]).value)
    else "post_" + Decimal(i)
  }

  /** The text an HTML fragment shows: its text nodes joined by spaces. */
  function FragmentText(html: string, rt: Runtime): string {
    Join(rt.fragmentText(html), " ")
  }

  /** `title`: the text of an `html` string member when it shows any,
      `normalized_text` when it shows none; without an `html` string the
      first present of normalized_text, title, text, content. */
  function PostTitle(obj: Fields, rt: Runtime): string {
    match AsStr(Get(Obj(obj), "html"))
    case Some(html) =>
      var text := Trim(FragmentText(html, rt));
      if text == [] then AsStr(Get(Obj(obj), "normalized_text")).GetOr("Untitled Post") else text
    case None => TextField(obj, ["normalized_text", "title", "text", "content"], "Untitled Post")
  }

  /** `author`: the text of an `author` string member (or "Unknown Author"
      when it shows none); otherwise the first present of author_name,
      user. */
  function PostAuthor(obj: Fields, rt: Runtime): string {
    match AsStr(Get(Obj(obj), "author"))
    case Some(html) =>
      var text := Trim(FragmentText(html, rt));
      if text == [] then "Unknown Author" else text
    case None => TextField(obj, ["author_name", "user"], "Unknown Author")
  }

  /** A photo entry: a string, or an object with a string `url`. */
  function EntryUrl(entry: Json): Option<string> {
    if entry.Str? then Some(entry.s) else AsStr(Get(entry, "url"))
  }

  /** The URLs of the entries that have one, in order. */
  function EntryUrls(entries: seq<Json>): (r: seq<string>)
    ensures |r| <= |entries|
    decreases |entries|
  {
    if entries == [] then []
    else
      var last := entries[|entries| - 1];
      var init := EntryUrls(entries[..|entries| - 1]);
      if EntryUrl(last).Some? then init + [EntryUrl(last).value] else init
  }

  /** Entries contribute independently: the URLs of two runs of entries are
      the URLs of each, one after the other. */
  lemma {:induction false} EntryUrlsAppend(a: seq<Json>, b: seq<Json>)
    ensures EntryUrls(a + b) == EntryUrls(a) + EntryUrls(b)
    decreases |b|
  {
    if b == [] {
      assert a + b == a;
    } else {
      var b0 := b[..|b| - 1];
      assert (a + b)[..|a + b| - 1] == a + b0;
      EntryUrlsAppend(a, b0);
    }
  }

  /** Every string entry is kept: a run of plain strings gives itself back. */
  lemma {:induction false} EntryUrlsOfStrings(entries: seq<Json>)
    requires forall i :: 0 <= i < |entries| ==> entries[i].Str?
    ensures EntryUrls(entries) == seq(|entries|, i requires 0 <= i < |entries| => entries[i].s)
    decreases |entries|
  {
    if entries != [] {
      EntryUrlsOfStrings(entries[..|entries| - 1]);
    }
  }

  /** The lead photo: a non-empty `original_photo_url` string, else (only
      when that is not a string) a non-empty `photo_url` string. */
  function LeadPhoto(obj: Fields): seq<string> {
    match AsStr(Get(Obj(obj), "original_photo_url"))
    case Some(o) => if o != [] then [o] else []
    case None =>
      match AsStr(Get(Obj(obj), "photo_url"))
      case Some(p) => if p != [] then [p] else []
      case None => []
  }

  /** The entries of a `photos` array, else of an `images` array. */
  function GalleryEntries(obj: Fields): seq<Json> {
    match AsArray(Get(Obj(obj), "photos"))
    case Some(entries) => entries
    case None => AsArray(Get(Obj(obj), "images")).GetOr([])
  }

  function GalleryPhotos(obj: Fields): seq<string> {
    EntryUrls(GalleryEntries(obj))
  }

  function PhotoUrls(obj: Fields): seq<string> {
    LeadPhoto(obj) + GalleryPhotos(obj)
  }

  /** An `original_photo_url` string, even an empty one, hides `photo_url`. */
  lemma OriginalPhotoHidesPhotoUrl(obj: Fields, other: Json)
    requires "original_photo_url" in obj && obj["original_photo_url"].Str?
    ensures PhotoUrls(obj["photo_url" := other]) == PhotoUrls(obj)
    ensures obj["original_photo_url"].s == [] ==> LeadPhoto(obj) == []
  {
    var o := obj["photo_url" := other];
    assert Get(Obj(o), "original_photo_url") == Get(Obj(obj), "original_photo_url");
    assert Get(Obj(o), "photos") == Get(Obj(obj), "photos");
    assert Get(Obj(o), "images") == Get(Obj(obj), "images");
  }

  /** A `photos` array hides `images`. */
  lemma PhotosHideImages(obj: Fields, other: Json)
    requires "photos" in obj && obj["photos"].Arr?
    ensures PhotoUrls(obj["images" := other]) == PhotoUrls(obj)
    ensures GalleryEntries(obj) == obj["photos"].items
  {
    var o := obj["images" := other];
    assert Get(Obj(o), "original_photo_url") == Get(Obj(obj), "original_photo_url");
    assert Get(Obj(o), "photo_url") == Get(Obj(obj), "photo_url");
    assert Get(Obj(o), "photos") == Get(Obj(obj), "photos");
  }

  /** The post built from the `i`-th element of the array. */
  function PostOf(obj: Fields, i: nat, rt: Runtime): Post {
    Post(
      PostId(obj, i),
      PostTitle(obj, rt),
      PostAuthor(obj, rt),
      TextField(obj, ["date", "created_at", "timestamp"], "Unknown Date"),
      TextField(obj, ["url", "link"], ""),
      PhotoUrls(obj))
  }

  /** The post array: the root when it is an array, else a `posts` member,
      else a `data` member. A member that is present but not an array is an
      error, and `data` is not looked at when `posts` is present. */
  function LocatePosts(root: Json): (r: Result<seq<Json>, AppError>)
    ensures root.Arr? ==> r == Ok(root.items)
    ensures !root.Arr? && Get(root, "posts").Some? ==>
              r == (if Get(root, "posts").value.Arr? then Ok(Get(root, "posts").value.items)
                    else Err(Parse("Posts field is not an array")))
    ensures !root.Arr? && Get(root, "posts").None? && Get(root, "data").Some? ==>
              r == (if Get(root, "data").value.Arr? then Ok(Get(root, "data").value.items)
                    else Err(Parse("Data field is not an array")))
    ensures !root.Arr? && Get(root, "posts").None? && Get(root, "data").None? ==>
              r == Err(Parse("Could not find posts array in JSON response"))
  {
    if root.Arr? then Ok(root.items)
    else match Get(root, "posts")
      case Some(p) => if p.Arr? then Ok(p.items) else Err(Parse("Posts field is not an array"))
      case None =>
        match Get(root, "data")
        case Some(d) => if d.Arr? then Ok(d.items) else Err(Parse("Data field is not an array"))
        case None => Err(Parse("Could not find posts array in JSON response"))
  }

  /** The index of the first element that is not an object, or `|items|`. */
  function FirstNonObject(items: seq<Json>): (k: nat)
    ensures k <= |items|
    ensures forall j :: 0 <= j < k ==> items[j].Obj?
    ensures k < |items| ==> !items[k].Obj?
  {
    if items == [] then 0
    else if !items[0].Obj? then 0
    else 1 + FirstNonObject(items[1..])
  }

  /** The failure for the element at index `i`. */
  function NotAnObject(i: nat): AppError {
    Parse("Post " + Decimal(i) + " is not a valid object")
  }

  /** How one post is made from an element and its index. */
  type Builder = (Fields, nat) -> Post

  function PostBuilder(rt: Runtime): Builder {
    (obj, i: nat) => PostOf(obj, i, rt)
  }

  /** The loop of `parse_posts_json` over the located array: elements are
      read in order and the first one that is not an object ends the parse. */
  function Collect(items: seq<Json>, build: Builder): Result<seq<Post>, AppError>
    decreases |items|
  {
    if items == [] then Ok([])
    else
      var n := |items| - 1;
      match Collect(items[..n], build)
      case Err(e) => Err(e)
      case Ok(posts) =>
        if items[n].Obj? then Ok(posts + [build(items[n].fields, n)])
        else Err(NotAnObject(n))
  }

  /** The parse succeeds exactly when every element is an object, and then
      the `j`-th post is built from the `j`-th element and the index `j`. */
  lemma {:induction false} CollectOk(items: seq<Json>, build: Builder)
    ensures Collect(items, build).Ok? <==> forall j :: 0 <= j < |items| ==> items[j].Obj?
    ensures Collect(items, build).Ok? ==>
              |Collect(items, build).value| == |items|
              && forall j :: 0 <= j < |items| ==> Collect(items, build).value[j] == build(items[j].fields, j)
    decreases |items|
  {
    if items != [] {
      var n := |items| - 1;
      CollectOk(items[..n], build);
      assert forall j :: 0 <= j < n ==> items[..n][j] == items[j];
    }
  }

  /** A failed parse names the first element that is not an object. */
  lemma {:induction false} CollectErr(items: seq<Json>, build: Builder)
    ensures Collect(items, build).Err? ==> Collect(items, build).error == NotAnObject(FirstNonObject(items))
    decreases |items|
  {
    if items != [] {
      var n := |items| - 1;
      var init := items[..n];
      assert forall j :: 0 <= j < n ==> init[j] == items[j];
      match Collect(init, build)
      case Err(e) =>
        CollectOk(init, build);
        CollectErr(init, build);
        FirstNonObjectAt(items, FirstNonObject(init));
      case Ok(_) =>
        if !items[n].Obj? {
          CollectOk(init, build);
          FirstNonObjectAt(items, n);
        }
    }
  }

  /** Once a prefix has failed, the rest of the array is not read. */
  lemma {:induction false} CollectErrSticks(items: seq<Json>, k: nat, build: Builder)
    requires k <= |items| && Collect(items[..k], build).Err?
    ensures Collect(items, build) == Collect(items[..k], build)
    decreases |items| - k
  {
    if k < |items| {
      assert items[..k + 1][..k] == items[..k];
      CollectErrSticks(items, k + 1, build);
    } else {
      assert items[..k] == items;
    }
  }

  /** `parse_posts_json`: a JSON syntax error, a missing or mistyped post
      array, or an element that is not an object fails the whole parse. */
  function ParsePostsJson(text: string, rt: Runtime): (r: Result<seq<Post>, AppError>)
    ensures rt.parseJson(text).Err? ==> r == Err(Parse("Failed to parse JSON response: " + rt.parseJson(text).error))
    ensures rt.parseJson(text).Ok? && LocatePosts(rt.parseJson(text).value).Err? ==>
              r == Err(LocatePosts(rt.parseJson(text).value).error)
    ensures rt.parseJson(text).Ok? && LocatePosts(rt.parseJson(text).value).Ok? ==>
              var items := LocatePosts(rt.parseJson(text).value).value;
              (r.Ok? <==> forall j :: 0 <= j < |items| ==> items[j].Obj?)
              && (r.Ok? ==> |r.value| == |items|
                            && forall j :: 0 <= j < |items| ==> r.value[j] == PostOf(items[j].fields, j, rt))
              && (r.Err? ==> r.error == NotAnObject(FirstNonObject(items)))
  {
    match rt.parseJson(text)
    case Err(e) => Err(Parse("Failed to parse JSON response: " + e))
    case Ok(root) =>
      match LocatePosts(root)
      case Err(e) => Err(e)
      case Ok(items) =>
        CollectOk(items, PostBuilder(rt));
        CollectErr(items, PostBuilder(rt));
        Collect(items, PostBuilder(rt))
  }

  /** The loop itself. */
  method CollectPosts(items: seq<Json>, rt: Runtime) returns (r: Result<seq<Post>, AppError>)
    ensures r == Collect(items, PostBuilder(rt))
  {
    var posts: seq<Post> := [];
    var i := 0;
    while i < |items|
      invariant 0 <= i <= |items|
      invariant Collect(items[..i], PostBuilder(rt)) == Ok(posts)
    {
      assert items[..i + 1][..i] == items[..i];
      if !items[i].Obj? {
        CollectErrSticks(items, i + 1, PostBuilder(rt));
        return Err(NotAnObject(i));
      }
      var post := BuildPost(items[i].fields, i, rt);
      posts := posts + [post];
      i := i + 1;
    }
    assert items[..i] == items;
    r := Ok(posts);
  }

  /** The body of the loop for one object element. */
  method BuildPost(obj: Fields, i: nat, rt: Runtime) returns (post: Post)
    ensures post == PostOf(obj, i, rt)
  {
    var photos := CollectPhotoUrls(obj);
    post := Post(PostId(obj, i), PostTitle(obj, rt), PostAuthor(obj, rt),
                 TextField(obj, ["date", "created_at", "timestamp"], "Unknown Date"),
                 TextField(obj, ["url", "link"], ""), photos);
  }

  lemma {:induction false} FirstNonObjectAt(items: seq<Json>, k: nat)
    requires k < |items| && !items[k].Obj?
    requires forall j :: 0 <= j < k ==> items[j].Obj?
    ensures FirstNonObject(items) == k
  {
    if k > 0 {
      assert forall j :: 0 <= j < k - 1 ==> items[1..][j] == items[j + 1];
      FirstNonObjectAt(items[1..], k - 1);
    }
  }

  /** The photo loops of `parse_posts_json`: the lead photo, then the
      entries of `photos` or else `images`. */
  method CollectPhotoUrls(obj: Fields) returns (urls: seq<string>)
    ensures urls == PhotoUrls(obj)
  {
    urls := LeadPhoto(obj);
    var entries := GalleryEntries(obj);
    var i := 0;
    while i < |entries|
      invariant 0 <= i <= |entries|
      invariant urls == LeadPhoto(obj) + EntryUrls(entries[..i])
    {
      assert entries[..i + 1][..i] == entries[..i];
      var url := EntryUrl(entries[i]);
      if url.Some? {
        urls := urls + [url.value];
      }
      i := i + 1;
    }
    assert entries[..i] == entries;
  }

  /** An empty object gives a post made of defaults only: a positional id,
      "Untitled Post", "Unknown Author", "Unknown Date", no URL, no photos. */
  lemma EmptyObjectPost(i: nat, rt: Runtime)
    ensures PostOf(map[], i, rt) ==
              Post("post_" + Decimal(i), "Untitled Post", "Unknown Author", "Unknown Date", "", [])
  {
    var obj: Fields := map[];
    assert FirstPresent(obj, ["normalized_text", "title", "text", "content"]) == None;
    assert FirstPresent(obj, ["author_name", "user"]) == None;
    assert FirstPresent(obj, ["date", "created_at", "timestamp"]) == None;
    assert FirstPresent(obj, ["url", "link"]) == None;
  }

  /** A response that is a bare array of empty objects gives one default
      post per element, numbered by position. */
  lemma EmptyObjectsGiveDefaultPosts(text: string, rt: Runtime)
    requires rt.parseJson(text).Ok? && rt.parseJson(text).value.Arr?
    requires forall j :: 0 <= j < |rt.parseJson(text).value.items| ==> rt.parseJson(text).value.items[j] == Obj(map[])
    ensures ParsePostsJson(text, rt).Ok?
    ensures |ParsePostsJson(text, rt).value| == |rt.parseJson(text).value.items|
    ensures forall j :: 0 <= j < |ParsePostsJson(text, rt).value| ==>
              ParsePostsJson(text, rt).value[j]
                == Post("post_" + Decimal(j), "Untitled Post", "Unknown Author", "Unknown Date", "", [])
  {
    var items := rt.parseJson(text).value.items;
    forall j | 0 <= j < |items|
      ensures PostOf(items[j].fields, j, rt)
                == Post("post_" + Decimal(j), "Untitled Post", "Unknown Author", "Unknown Date", "", [])
    {
      EmptyObjectPost(j, rt);
    }
  }
}
