/** What a feed fetch hands back to its tool: the response body, or one of
    the error strings that stand in for an exception. Only a string that
    begins with "Error" is treated as a failure by the tools. */
module Fetch {

  const HTTP_ERROR_PREFIX := "HTTP Error fetching RSS: "
  const FETCH_ERROR_PREFIX := "Error fetching RSS: "

  /** How a fetch ended: a body, an HTTP failure (a non-2xx status or a
      transport error, timeouts included), or any other exception; the
      descriptions are `str(e)`, opaque. */
  datatype Outcome = Body(text: string) | HttpFailure(description: string) | OtherFailure(description: string)

  /** The string a fetch function returns for an outcome. */
  function Fetched(o: Outcome): string {
    match o
    case Body(t) => t
    case HttpFailure(d) => HTTP_ERROR_PREFIX + d
    case OtherFailure(d) => FETCH_ERROR_PREFIX + d
  }

  /** `rss_content.startswith("Error")`, the only failure test of the tools. */
  predicate IsFetchError(fetched: string) {
    "Error" <= fetched
  }

  /** The tools see a failure exactly for the catch-all exception and for a
      body that happens to begin with "Error"; an HTTP failure is not
      recognised and its string is handed to the XML parser. */
  lemma SentinelOf(o: Outcome)
    ensures IsFetchError(Fetched(o)) <==> o.OtherFailure? || (o.Body? && "Error" <= o.text)
  {
    if o.HttpFailure? {
      assert Fetched(o)[0] == 'H';
    }
    if o.OtherFailure? {
      assert Fetched(o)[..5] == "Error";
    }
  }
}
