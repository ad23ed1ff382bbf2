/** The Scrapy request and response objects, reduced to what the model uses. */
module Http {
  import opened Base

  /** `scrapy.Request`: its URL and the keyword arguments that will be passed
      to its callback, a dictionary that the middleware fills in place. */
  class Request {
    const url: Url
    var cbKwargs: map<string, Value>

    constructor (url: Url, cbKwargs: map<string, Value>)
      ensures this.url == url && this.cbKwargs == cbKwargs
    {
      this.url := url;
      this.cbKwargs := cbKwargs;
    }
  }

  /** A downloaded response, or the body-less `DummyResponse` that stands in
      for one when the download is skipped. Both are linked to their request;
      `process_response` receives either kind and hands it back unchanged. */
  datatype Response =
    | Downloaded(url: Url, request: Request, body: seq<char>)
    | DummyResponse(url: Url, request: Request)
}
