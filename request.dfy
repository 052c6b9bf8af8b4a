/** The HTTP client, reduced to what the crawler sees of it: for a URL, either a response
    (status code and body) or a raised exception. The web is a finite map from URL to the
    response a GET would give; a URL outside it cannot be reached. */
module Request {

  datatype Response = Response(status: int, text: string)

  datatype Outcome = Received(response: Response) | Raised(message: string)

  datatype Web = Web(pages: map<string, Response>)

  /** `request(url, is_external, retries)`: a GET for a local resource, a HEAD (same status,
      no body) for an external one, without following redirects. */
  function Fetch(web: Web, url: string, isExternal: bool): (o: Outcome)
    ensures o.Received? <==> url in web.pages
    ensures o.Received? ==> o.response.status == web.pages[url].status
    ensures o.Received? && isExternal ==> o.response.text == ""
    ensures o.Received? && !isExternal ==> o.response == web.pages[url]
  {
    if url !in web.pages then Raised("connection error")
    else if isExternal then Received(Response(web.pages[url].status, ""))
    else Received(web.pages[url])
  }

  /** Whether a fetch of `url` finds a page: a response with a 2xx status. */
  predicate PageFound(web: Web, url: string, isExternal: bool)
  {
    match Fetch(web, url, isExternal)
    case Received(resp) => resp.status / 100 == 2
    case Raised(_) => false
  }
}
