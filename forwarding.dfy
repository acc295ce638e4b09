/**
 * The decisions `proxy_request` takes around the two httpx calls: whether to
 * relay the backend's answer as a stream or buffered, what JSON a buffered
 * answer carries, which headers travel each way, and which HTTP error a
 * failed dispatch becomes. What the network did is an input (`Dispatch`),
 * and what `json.loads` / `response.json()` made of a body is an input
 * (`Option<Json>`, `None` when it raised).
 */
module Forwarding {
  import opened Wrappers
  import opened OrderedDict
  import opened Http
  import opened HeaderFilter

  /** A decoded JSON value; an object's members are listed as written (a name may repeat). */
  datatype Json =
    | Null
    | Bool(b: bool)
    | Number(n: real)
    | Str(s: string)
    | Array(elems: seq<Json>)
    | Object(members: seq<(string, Json)>)

  /**
   * Python truthiness of the decoded value: the falsy values are exactly
   * `None`, `False`, `0`, `""`, `[]` and `{}`.
   */
  predicate Truthy(j: Json)
    ensures !Truthy(j) <==>
      j == Null || j == Bool(false) || j == Number(0.0) || j == Str("") || j == Array([]) || j == Object([])
  {
    match j
    case Null => false
    case Bool(b) => b
    case Number(n) => n != 0.0
    case Str(s) => s != ""
    case Array(es) => |es| > 0
    case Object(ms) => |ms| > 0
  }

  /** `obj.get(name)` on the dict `json.loads` builds: a repeated name keeps its last value. */
  function Member(j: Json, name: string): (r: Option<Json>)
    requires j.Object?
    ensures r.None? <==> forall i :: 0 <= i < |j.members| ==> j.members[i].0 != name
    ensures r.Some? ==> (name, r.value) in j.members
    ensures r.Some? ==> exists i :: LastPairAt(j.members, name, i) && j.members[i].1 == r.value
  {
    LastValueNone(j.members, name);
    LastValueMember(j.members, name);
    LastValueLastPair(j.members, name);
    LastValue(j.members, name)
  }

  /** How the backend's answer is relayed. */
  datatype Mode = Buffered | Streaming

  /**
   * The stream sniff: a non-empty body that decodes to an object whose
   * `stream` member is truthy selects streaming. Every other body stays
   * buffered: an empty one, one that does not decode, one that decodes to a
   * non-object (its `.get` raises, and the error is swallowed), and one whose
   * `stream` member is missing or falsy.
   */
  function SelectMode(body: Bytes, parsed: Option<Json>): (m: Mode)
    ensures m == Streaming ==> |body| > 0 && parsed.Some? && parsed.value.Object?
    ensures |body| > 0 && parsed.Some? && parsed.value.Object? ==>
      (m == Streaming <==> Member(parsed.value, "stream").Some? && Truthy(Member(parsed.value, "stream").value))
  {
    if |body| == 0 then Buffered
    else match parsed
      case None => Buffered
      case Some(j) =>
        if j.Object? && Truthy(Member(j, "stream").GetOr(Bool(false))) then Streaming else Buffered
  }

  /** An object whose last `stream` member is `true` selects streaming, whatever else it holds. */
  lemma StreamTrueStreams(body: Bytes, members: seq<(string, Json)>)
    requires |body| > 0
    ensures SelectMode(body, Some(Object(members + [("stream", Bool(true))]))) == Streaming
  {
    LastValueAt(members + [("stream", Bool(true))], |members|);
  }

  /** A later `"stream": false` overrides an earlier `true`. */
  lemma LaterStreamFalseBuffers(body: Bytes, members: seq<(string, Json)>)
    ensures SelectMode(body, Some(Object(members + [("stream", Bool(false))]))) == Buffered
  {
    LastValueAt(members + [("stream", Bool(false))], |members|);
  }

  /** An object without a `stream` member stays buffered. */
  lemma MissingStreamBuffers(body: Bytes, members: seq<(string, Json)>)
    requires forall i :: 0 <= i < |members| ==> members[i].0 != "stream"
    ensures SelectMode(body, Some(Object(members))) == Buffered
  {
    LastValueNone(members, "stream");
  }

  /** The key a body that is not JSON is wrapped under. */
  const RawResponseKey := "raw_response"

  /**
   * The JSON a buffered answer carries: `{}` for an empty body, the decoded
   * value when the body decodes, and otherwise the body text itself wrapped as
   * `{"raw_response": text}`, so no non-empty body is lost.
   */
  function BufferedContent(text: string, parsed: Option<Json>): (c: Json)
    ensures text == "" ==> c == Object([])
    ensures text != "" && parsed.Some? ==> c == parsed.value
    ensures text != "" && parsed.None? ==> c.Object? && Member(c, RawResponseKey) == Some(Str(text))
  {
    if text == "" then Object([])
    else match parsed
      case Some(j) => j
      case None => Object([(RawResponseKey, Str(text))])
  }

  /** The body text can be read back from any buffered answer for a body that did not decode. */
  lemma RawResponseRecoversText(text: string)
    requires text != ""
    ensures var c := BufferedContent(text, None);
      c.Object? && |c.members| == 1 && Member(c, RawResponseKey) == Some(Str(text))
  {
  }

  /**
   * What httpx raised while the request was sent or the answer read; `str(e)`
   * is `message`. The two flags are the two exception classes the handler
   * tests, in its order.
   */
  datatype DispatchError = DispatchError(isConnectError: bool, isTimeout: bool, message: string)

  const ConnectPrefix := "Cannot connect to Ollama backend: "
  const TimeoutDetail := "Ollama backend timeout"
  const ProxyPrefix := "Proxy error: "

  /**
   * The `except` chain: a connection failure is 502 (tested first, so it wins
   * over a timeout), a timeout 504, anything else 500; the 502 and 500 details
   * carry the exception's message after a fixed prefix.
   */
  function FailureToError(e: DispatchError): (r: HttpError)
    ensures r.status == 502 <==> e.isConnectError
    ensures r.status == 504 <==> !e.isConnectError && e.isTimeout
    ensures r.status == 500 <==> !e.isConnectError && !e.isTimeout
    ensures r.headers == []
    ensures r.status == 502 ==> ConnectPrefix <= r.detail && r.detail[|ConnectPrefix|..] == e.message
    ensures r.status == 500 ==> ProxyPrefix <= r.detail && r.detail[|ProxyPrefix|..] == e.message
    ensures r.status == 504 ==> r.detail == TimeoutDetail
  {
    if e.isConnectError then HttpError(502, ConnectPrefix + e.message, [])
    else if e.isTimeout then HttpError(504, TimeoutDetail, [])
    else HttpError(500, ProxyPrefix + e.message, [])
  }

  /** The three outcomes are told apart by status alone: different failure kinds never share one. */
  lemma FailureStatusDeterminesKind(e1: DispatchError, e2: DispatchError)
    requires FailureToError(e1).status == FailureToError(e2).status
    ensures e1.isConnectError == e2.isConnectError
    ensures !e1.isConnectError ==> e1.isTimeout == e2.isTimeout
  {
  }

  /** The request as it reaches the handler; `parsedBody` is what `json.loads(body)` gave. */
  datatype Inbound = Inbound(
    verb: string,
    query: seq<(string, string)>,
    headers: Headers,
    body: Bytes,
    parsedBody: Option<Json>)

  /** The request sent to the backend. */
  datatype OutboundRequest = OutboundRequest(
    verb: string,
    url: string,
    query: seq<(string, string)>,
    headers: Dict<string>,
    body: Bytes)

  /**
   * The backend's answer: its body as the chunks `aiter_bytes` yields (after
   * content decoding), as text, and as `response.json()` decoded it.
   * `headers` is the view `response.headers.items()`
   * gives: each name once, lower-cased, with the values of a repeated header
   * already joined by ", ".
   */
  datatype BackendResponse = BackendResponse(
    status: int,
    headers: Headers,
    chunks: seq<Bytes>,
    text: string,
    parsed: Option<Json>)

  /** What happened when the outbound request was dispatched. */
  datatype Dispatch = Completed(response: BackendResponse) | Raised(error: DispatchError)

  /**
   * What the client receives. A streamed reply is always status 200 with JSON
   * media type and no backend headers; `aborted` says the stream broke off
   * because dispatch raised after the reply had started.
   */
  datatype Reply =
    | StreamReply(status: int, mediaType: string, chunks: seq<Bytes>, aborted: bool)
    | JsonReply(status: int, content: Json, headers: Dict<string>)
    | ErrorReply(error: HttpError)

  /** The forwarded request: same method, query, and body; headers without host and credential. */
  function BuildOutbound(inbound: Inbound, url: string): (o: OutboundRequest)
    ensures o.verb == inbound.verb && o.url == url && o.query == inbound.query && o.body == inbound.body
    ensures forall i :: 0 <= i < |o.headers| ==> !Excluded(o.headers[i].0, RequestExcluded)
    ensures forall name :: !Excluded(name, RequestExcluded) ==> Get(o.headers, name) == LastValue(inbound.headers, name)
  {
    OutboundRequest(inbound.verb, url, inbound.query, OutboundHeaders(inbound.headers), inbound.body)
  }

  /**
   * `proxy_request` after the request was built and dispatched: a streaming
   * request relays the decoded chunks under status 200 whatever the backend
   * answered, and a failure then is not turned into an error status; a
   * buffered request relays the backend's status, its JSON body (or the
   * fallbacks), and its headers without the framing ones, and a failure
   * becomes the mapped HTTP error.
   */
  function ProxyRequest(inbound: Inbound, dispatch: Dispatch): (r: Reply)
    ensures SelectMode(inbound.body, inbound.parsedBody) == Streaming <==> r.StreamReply?
    ensures r.StreamReply? ==> r.status == 200 && r.mediaType == "application/json"
    ensures r.StreamReply? ==> (r.aborted <==> dispatch.Raised?)
    ensures r.StreamReply? && dispatch.Completed? ==> r.chunks == dispatch.response.chunks
    ensures r.JsonReply? <==> !r.StreamReply? && dispatch.Completed?
    ensures r.JsonReply? ==> r.status == dispatch.response.status
    ensures r.JsonReply? ==> r.content == BufferedContent(dispatch.response.text, dispatch.response.parsed)
    ensures r.JsonReply? ==> forall i :: 0 <= i < |r.headers| ==> !Excluded(r.headers[i].0, ResponseExcluded)
    ensures r.ErrorReply? ==> r.error == FailureToError(dispatch.error)
  {
    match SelectMode(inbound.body, inbound.parsedBody)
    case Streaming =>
      (match dispatch
       case Completed(resp) => StreamReply(200, "application/json", resp.chunks, false)
       case Raised(_) => StreamReply(200, "application/json", [], true))
    case Buffered =>
      (match dispatch
       case Completed(resp) => JsonReply(resp.status, BufferedContent(resp.text, resp.parsed), ResponseHeaders(resp.headers))
       case Raised(e) => ErrorReply(FailureToError(e)))
  }

  /** A streamed relay hides the backend's status: an error status upstream still reaches the client as 200. */
  lemma StreamingHidesBackendStatus(inbound: Inbound, resp: BackendResponse)
    requires SelectMode(inbound.body, inbound.parsedBody) == Streaming
    ensures ProxyRequest(inbound, Completed(resp)).status == 200
    ensures ProxyRequest(inbound, Completed(resp)).chunks == resp.chunks
  {
  }

  /** Dispatch failures surface as HTTP errors only in buffered mode. */
  lemma ErrorsOnlyWhenBuffered(inbound: Inbound, e: DispatchError)
    ensures ProxyRequest(inbound, Raised(e)).ErrorReply? <==> SelectMode(inbound.body, inbound.parsedBody) == Buffered
  {
  }

  /** A relayed buffered answer keeps every header except the framing ones, with its last value. */
  lemma RelayedHeaders(inbound: Inbound, resp: BackendResponse, name: string)
    requires SelectMode(inbound.body, inbound.parsedBody) == Buffered
    requires !Excluded(name, ResponseExcluded)
    ensures Get(ProxyRequest(inbound, Completed(resp)).headers, name) == LastValue(resp.headers, name)
  {
  }
}
