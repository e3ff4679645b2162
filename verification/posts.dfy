/** The post record both parsers produce, the collaborators the client calls
    without the model interpreting them, and the URL rules shared by the
    client's operations. */
module Posts {
  import opened Wrappers
  import opened Numbers
  import opened Text
  import opened Html
  import opened Json

  datatype Post = Post(
    id: string,
    title: string,
    author: string,
    date: string,
    url: string,
    photoUrls: seq<string>)

  /** The foreign code the client relies on: `Response::text` decoding, the
      HTML parser with its selectors, `serde_json::from_str`, the text nodes
      of an HTML fragment, and `f64`'s `Display`. */
  datatype Runtime = Runtime(
    decodeText: seq<byte> -> string,
    parseHtml: string -> Document,
    parseJson: string -> Result<Json, string>,
    fragmentText: string -> seq<string>,
    showFloat: F64 -> string)

  const SITE: string := "https://www.transparentclassroom.com"

  /** `base.split("/schools").next()`: the site root in front of the school
      path, or the whole base URL when it has no "/schools". */
  function RootDomain(base: string): (r: string)
    ensures StartsWith(base, r)
    ensures !Contains(base, "/schools") ==> r == base
  {
    assert !Contains(base, "/schools") ==> BeforeFirst(base, "/schools") == base by {
      if !Contains(base, "/schools") {
        BeforeFirstAbsent(base, "/schools");
      }
    }
    BeforeFirst(base, "/schools")
  }

  /** The root domain itself holds no "/schools", so taking it again changes
      nothing. */
  lemma RootDomainHasNoSchools(base: string)
    ensures !Contains(RootDomain(base), "/schools")
    ensures RootDomain(RootDomain(base)) == RootDomain(base)
  {
    var r := RootDomain(base);
    forall i | 0 <= i <= |r|
      ensures !OccursAt(r, "/schools", i)
    {
      if i + 8 <= |r| {
        assert base[i..][..8] == r[i..i + 8];
      }
    }
  }

  /** The base URL points at a local test server. */
  predicate IsMockServer(base: string) {
    StartsWith(base, "http://127.0.0.1") || StartsWith(base, "http://localhost")
  }
}
