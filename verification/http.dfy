/** Upstream HTTP exchanges, reduced to what the pipeline looks at: whether a
    response arrived at all, its status code and its decoded body. */
module Http {
  import opened Errors

  /** The outcome of one `requests.get`. For the JSON endpoints `body` is the
      decoded document, None when `response.json()` raises because the text is
      not JSON; a document of the wrong shape is still Some, and each caller
      deals with it as Python would. For a deck page `body` is the parsed page,
      None when `response.text` is empty. */
  datatype Response<T> = RequestFailed | Received(status: int, body: Option<T>)

  /** `Response.ok` of requests: false exactly for the client and server error
      ranges 400..599 that `raise_for_status` rejects. */
  predicate IsOk(status: int) {
    !(400 <= status < 600)
  }
}
