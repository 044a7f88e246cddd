/** The records an extractor hands back to the host framework, the ways an extraction can
    fail, and the lookups the host framework's base class performs on a page. */
module Info {
  import opened Wrappers

  /** One candidate stream: the value of a meta tag, passed on as found (it may be missing). */
  datatype Format = Format(url: Option<string>)

  /** The information dictionary of a single song. */
  datatype Item = Item(
    id: string,
    title: Option<string>,
    description: Option<string>,
    thumbnail: Option<string>,
    duration: nat,
    formats: seq<Format>)

  /** The extractor a deferred reference is bound to. */
  datatype Ie = SunoIE | UdioIE

  /** A deferred reference: a URL the host framework later resolves with the bound extractor. */
  datatype UrlResult = UrlResult(url: string, ie: Ie, videoId: string)

  /** The information dictionary of a playlist. */
  datatype Playlist = Playlist(
    id: string,
    title: Option<string>,
    description: Option<string>,
    entries: seq<UrlResult>)

  /** Why an extraction produced no record: the URL has the wrong shape (the extractor declines),
      an expected user-facing error, or a required pattern that found nothing on the page. */
  datatype Failure = NoMatch | Expected(message: string) | RegexNotFound(field: string)

  /** The base class's page lookups, which this model does not interpret: `ogSearch(prop, page)`
      reads the Open Graph property `og:<prop>`, `htmlMeta(name, page)` the meta tag `name`. */
  datatype Host = Host(
    ogSearch: (string, string) -> Option<string>,
    htmlMeta: (string, string) -> Option<string>)
}
