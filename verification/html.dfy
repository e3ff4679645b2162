/** Pre-parsed HTML documents. The HTML parser and CSS-selector matching are
    not interpreted: a page arrives as the records the client selects from
    it, each list in document order. */
module Html {
  import opened Wrappers
  import opened Text

  /** An `<input>` element: its `name` and `value` attributes. */
  datatype Input = Input(name: Option<string>, value: Option<string>)

  /** A `<form>` element with the inputs inside it. */
  datatype Form = Form(inputs: seq<Input>)

  /** A `<meta>` element: its `name` and `content` attributes. */
  datatype Meta = Meta(name: Option<string>, content: Option<string>)

  /** The first `a.observation-link` inside an observation: its `href`. */
  datatype Link = Link(href: Option<string>)

  /** An element with class `observation`: its `id` attribute, the text
      nodes of its first `.observation-text`, `.observation-author` and
      `.observation-date` descendants, its first `a.observation-link`, and the
      `src` attributes of the `img` elements under `.observation-photo`. */
  datatype Observation = Observation(
    id: Option<string>,
    text: Option<seq<string>>,
    author: Option<seq<string>>,
    date: Option<seq<string>>,
    link: Option<Link>,
    photoSrcs: seq<Option<string>>)

  datatype Document = Document(
    forms: seq<Form>,
    inputs: seq<Input>,
    metas: seq<Meta>,
    title: Option<string>,
    hrefs: seq<string>,
    observations: seq<Observation>)

  /** `el.text().collect::<Vec<_>>().join(" ").trim()` */
  function ElementText(nodes: seq<string>): string {
    Trim(Join(nodes, " "))
  }
}
