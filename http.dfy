/** HTTP values shared by the proxy's components. */
module Http {

  /** A raw body. */
  type Bytes = seq<bv8>

  /**
   * Header (name, value) pairs in the order the HTTP stack lists them. An
   * incoming request's list may repeat a name; the view of a backend's answer
   * lists each name once.
   */
  type Headers = seq<(string, string)>

  /**
   * An `HTTPException`: the status the caller receives, the `detail` message of
   * the JSON error body, and any extra response headers.
   */
  datatype HttpError = HttpError(status: int, detail: string, headers: Headers)
}
