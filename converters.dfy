/** The Room type converters between `ContentType` and its stored column text. */
module Converters {
  import opened Wrappers
  import opened Model

  /** The five constant names of `ContentType`. */
  const ContentTypeNames: set<string> := {"TEXT", "IMAGE", "URL", "FILE", "OTHER"}

  /** `fromContentType`: the enum constant's name. */
  function FromContentType(t: ContentType): (s: string)
    ensures s in ContentTypeNames
  {
    match t
    case TEXT => "TEXT"
    case IMAGE => "IMAGE"
    case URL => "URL"
    case FILE => "FILE"
    case OTHER => "OTHER"
  }

  /**
   * `toContentType`: `ContentType.valueOf`, which accepts exactly the
   * constant names (case-sensitive) and throws for anything else; the
   * throw is `None` here.
   */
  function ToContentType(s: string): (r: Option<ContentType>)
    ensures r.Some? <==> s in ContentTypeNames
    ensures r.Some? ==> FromContentType(r.value) == s
  {
    if s == "TEXT" then Some(TEXT)
    else if s == "IMAGE" then Some(IMAGE)
    else if s == "URL" then Some(URL)
    else if s == "FILE" then Some(FILE)
    else if s == "OTHER" then Some(OTHER)
    else None
  }

  /** Every content type survives a write and a read of its column. */
  lemma ContentTypeRoundTrip(t: ContentType)
    ensures ToContentType(FromContentType(t)) == Some(t)
  {
  }

  /** The column text is read back only if it is one of the five names, and then as that name's type. */
  lemma ToContentTypeInverse(s: string)
    ensures ToContentType(s).Some? <==> exists t :: FromContentType(t) == s
  {
    if ToContentType(s).Some? {
      assert FromContentType(ToContentType(s).value) == s;
    }
  }

  /** Distinct content types are stored as distinct texts. */
  lemma FromContentTypeInjective(t: ContentType, u: ContentType)
    ensures FromContentType(t) == FromContentType(u) <==> t == u
  {
    ContentTypeRoundTrip(t);
    ContentTypeRoundTrip(u);
  }
}
