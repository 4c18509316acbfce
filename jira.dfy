/**
 * The two calls the sync makes on the tracking service (class `JIRA`,
 * index.js:49-151): the user search behind `getUser` and the property write
 * behind `setUserProperty`. The HTTP client itself is not modelled: a
 * `Client` is the service's answer to each request it can receive.
 */
module Jira {
  import opened Wrappers

  const SEARCH_PATH: string := "rest/api/3/user/search"
  const PROPERTY_PATH: string := "rest/api/3/user/properties/"

  /** The property key `setUserProperty` writes when called without one. */
  const DEFAULT_PROPERTY_KEY: string := "metadata"

  /** A GET on the search path with `params: {query, maxResults}`. */
  datatype SearchRequest = SearchRequest(path: string, query: string, maxResults: int)

  /** One element of the search response's `data` array. */
  datatype SearchHit = SearchHit(accountId: string)

  /** The search answer: a failed request (it threw), or the `data` array. */
  datatype SearchResponse = SearchFailed | SearchOk(data: seq<SearchHit>)

  /** The body of the property write: `{slack_username, slack_id}`. */
  datatype Metadata = Metadata(slackUsername: string, slackId: string)

  /** A PUT on `PROPERTY_PATH + key` with `params: {accountId}` and a metadata body. */
  datatype PropertyWrite = PropertyWrite(path: string, accountId: string, body: Metadata)

  /**
   * The tracking service as the sync sees it: what a search returns, and
   * whether a PUT completes (true) or throws (false).
   */
  datatype Client = Client(search: SearchRequest -> SearchResponse, put: PropertyWrite -> bool) {

    /**
     * `getUser(email)`: the account id of the first hit. A failed request and
     * an empty result both give no account id.
     */
    function GetUser(email: string): (r: Option<string>)
      ensures r.Some? <==> search(SearchFor(email)).SearchOk? && |search(SearchFor(email)).data| > 0
      ensures r.Some? ==> r.value == search(SearchFor(email)).data[0].accountId
    {
      match search(SearchFor(email))
      case SearchFailed => None
      case SearchOk(data) => if |data| > 0 then Some(data[0].accountId) else None
    }

    /** `setUserProperty(accountId, slack_username, slack_id, key)`: true when the PUT completes. */
    function SetUserProperty(accountId: string, username: string, slackId: string, key: string): (ok: bool)
      ensures ok <==> put(PropertyRequest(accountId, username, slackId, key))
    {
      put(PropertyRequest(accountId, username, slackId, key))
    }
  }

  /** The request `getUser` sends: the address as query, at most one result. */
  function SearchFor(email: string): (r: SearchRequest)
    ensures r.path == SEARCH_PATH && r.query == email && r.maxResults == 1
  {
    SearchRequest(SEARCH_PATH, email, 1)
  }

  /** The request `setUserProperty` sends. */
  function PropertyRequest(accountId: string, username: string, slackId: string, key: string): (w: PropertyWrite)
    ensures |PROPERTY_PATH| <= |w.path|
    ensures w.path[..|PROPERTY_PATH|] == PROPERTY_PATH && w.path[|PROPERTY_PATH|..] == key
    ensures w.accountId == accountId && w.body == Metadata(username, slackId)
  {
    PropertyWrite(PROPERTY_PATH + key, accountId, Metadata(username, slackId))
  }

  /** A property write determines the account, the property key and both metadata fields. */
  lemma PropertyRequestInjective(
    a: string, n: string, i: string, k: string,
    a': string, n': string, i': string, k': string)
    requires PropertyRequest(a, n, i, k) == PropertyRequest(a', n', i', k')
    ensures a == a' && n == n' && i == i' && k == k'
  {
    var w := PropertyRequest(a, n, i, k);
    assert k == w.path[|PROPERTY_PATH|..] == k';
  }
}
