/**
 * The proxy as a whole: its configuration, read once at start-up, and the two
 * forwarding routes, each guarded by the token check that runs before the
 * handler body.
 */
module Proxy {
  import opened Wrappers
  import opened PyStr
  import opened OrderedDict
  import opened Http
  import opened Registry
  import opened Auth
  import opened Routing
  import opened HeaderFilter
  import opened Forwarding

  /** `API_TOKEN`, `BACKENDS` and `DEFAULT_BACKEND`. */
  datatype Config = Config(apiToken: string, backends: Dict<string>, defaultBackend: string)

  /** The backends configured when no list is given. */
  const DefaultInstances := "default:localhost:11434"

  /**
   * Start-up: the registry is parsed from the instance list, and the default
   * backend is the URL stored under its first name, or the fallback when the
   * registry is empty.
   */
  method Configure(apiToken: string, instances: string) returns (c: Config)
    ensures c.apiToken == apiToken
    ensures c.backends == Parsed(instances) && DistinctKeys(c.backends)
    ensures c.backends == [] ==> c.defaultBackend == FallbackBackend
    ensures c.backends != [] ==> Get(c.backends, c.backends[0].0) == Some(c.defaultBackend)
  {
    var backends := ParseInstances(instances);
    if backends != [] {
      GetAt(backends, 0);
    }
    c := Config(apiToken, backends, DefaultBackend(backends));
  }

  /** The header carries the credential: its name is `authorization` in any letter case. */
  predicate IsCredential(header: (string, string)) {
    Lower(header.0) == "authorization"
  }

  /** The value of the first header named `authorization`, in any letter case. */
  function Authorization(headers: Headers): (v: Option<string>)
    ensures v.None? <==> forall i :: 0 <= i < |headers| ==> !IsCredential(headers[i])
    ensures v.Some? ==> exists i :: FirstCredentialAt(headers, i) && headers[i].1 == v.value
    decreases |headers|
  {
    if |headers| == 0 then None
    else if IsCredential(headers[0]) then
      assert FirstCredentialAt(headers, 0);
      Some(headers[0].1)
    else
      var rest := Authorization(headers[1..]);
      assert forall i :: 1 <= i < |headers| ==> headers[i] == headers[1..][i - 1];
      if rest.Some? then
        var i :| FirstCredentialAt(headers[1..], i) && headers[1..][i].1 == rest.value;
        assert FirstCredentialAt(headers, i + 1);
        rest
      else rest
  }

  /** `headers[i]` is the first header that carries the credential. */
  predicate FirstCredentialAt(headers: Headers, i: int) {
    0 <= i < |headers| && IsCredential(headers[i]) && forall j :: 0 <= j < i ==> !IsCredential(headers[j])
  }

  /** What a request made the proxy send to a backend, if anything, and what the client got. */
  datatype Exchange = Exchange(sent: Option<OutboundRequest>, reply: Reply)

  /** The local answer of the unprefixed route for the empty path and `health`. */
  const LocalAnswer := JsonReply(200, Object([("status", Str("ok"))]), [])

  /**
   * `/{instance}/{path}`: after the token check passes, the request goes to
   * the backend the route resolves; a denied request sends nothing.
   */
  function ServeWithInstance(c: Config, inbound: Inbound, instance: string, path: string, dispatch: Dispatch): (x: Exchange)
    ensures x.sent.Some? <==> VerifyToken(c.apiToken, Authorization(inbound.headers)) == Allow
    ensures x.sent.Some? ==>
      x.sent.value == BuildOutbound(inbound, ProxyWithInstance(c.backends, c.defaultBackend, instance, path).url) &&
      x.reply == ProxyRequest(inbound, dispatch)
    ensures x.sent.None? ==> x.reply == ErrorReply(VerifyToken(c.apiToken, Authorization(inbound.headers)).error)
  {
    match VerifyToken(c.apiToken, Authorization(inbound.headers))
    case Deny(err) => Exchange(None, ErrorReply(err))
    case Allow =>
      var t := ProxyWithInstance(c.backends, c.defaultBackend, instance, path);
      Exchange(Some(BuildOutbound(inbound, t.url)), ProxyRequest(inbound, dispatch))
  }

  /**
   * `/{path}`: after the token check passes, the empty path and `health` are
   * answered locally and every other path goes to the default backend.
   */
  function ServeDefault(c: Config, inbound: Inbound, path: string, dispatch: Dispatch): (x: Exchange)
    ensures x.sent.Some? <==> VerifyToken(c.apiToken, Authorization(inbound.headers)) == Allow && path !in LocalPaths
    ensures x.sent.Some? ==>
      x.sent.value == BuildOutbound(inbound, c.defaultBackend + "/" + path) && x.reply == ProxyRequest(inbound, dispatch)
    ensures VerifyToken(c.apiToken, Authorization(inbound.headers)) == Allow && path in LocalPaths ==>
      x == Exchange(None, LocalAnswer)
    ensures VerifyToken(c.apiToken, Authorization(inbound.headers)).Deny? ==>
      x.reply == ErrorReply(VerifyToken(c.apiToken, Authorization(inbound.headers)).error)
  {
    match VerifyToken(c.apiToken, Authorization(inbound.headers))
    case Deny(err) => Exchange(None, ErrorReply(err))
    case Allow =>
      match ProxyDefault(c.defaultBackend, path)
      case Local => Exchange(None, LocalAnswer)
      case Forward(t) => Exchange(Some(BuildOutbound(inbound, t.url)), ProxyRequest(inbound, dispatch))
  }

  /** A request rejected by the token check is answered 401 or 403 and reaches no backend. */
  lemma DeniedNeverForwarded(c: Config, inbound: Inbound, instance: string, path: string, dispatch: Dispatch)
    requires VerifyToken(c.apiToken, Authorization(inbound.headers)).Deny?
    ensures ServeWithInstance(c, inbound, instance, path, dispatch).sent.None?
    ensures ServeDefault(c, inbound, path, dispatch).sent.None?
    ensures ServeWithInstance(c, inbound, instance, path, dispatch).reply.error.status in {401, 403}
    ensures ServeDefault(c, inbound, path, dispatch).reply.error.status in {401, 403}
  {
  }

  /** With a secret configured, a request without the credential header reaches no backend and gets 401. */
  lemma MissingHeaderNeverForwarded(c: Config, inbound: Inbound, instance: string, path: string, dispatch: Dispatch)
    requires c.apiToken != ""
    requires forall i :: 0 <= i < |inbound.headers| ==> !IsCredential(inbound.headers[i])
    ensures ServeWithInstance(c, inbound, instance, path, dispatch) == Exchange(None, ErrorReply(MissingCredential))
    ensures ServeDefault(c, inbound, path, dispatch) == Exchange(None, ErrorReply(MissingCredential))
  {
  }

  /** `health` and the empty path are never forwarded, whatever the credential. */
  lemma HealthNeverForwarded(c: Config, inbound: Inbound, dispatch: Dispatch)
    ensures ServeDefault(c, inbound, "health", dispatch).sent.None?
    ensures ServeDefault(c, inbound, "", dispatch).sent.None?
  {
  }

  /** Whatever reaches a backend carries neither the client's host header nor its credential. */
  lemma CredentialStaysAtProxy(c: Config, inbound: Inbound, instance: string, path: string, dispatch: Dispatch)
    ensures var x := ServeWithInstance(c, inbound, instance, path, dispatch);
      x.sent.Some? ==> forall i :: 0 <= i < |x.sent.value.headers| ==> !Excluded(x.sent.value.headers[i].0, RequestExcluded)
    ensures var x := ServeDefault(c, inbound, path, dispatch);
      x.sent.Some? ==> forall i :: 0 <= i < |x.sent.value.headers| ==> !Excluded(x.sent.value.headers[i].0, RequestExcluded)
  {
  }

  /**
   * A first segment that names no backend is served exactly as the
   * unprefixed route serves the whole path: same request sent, same reply.
   */
  lemma UnknownPrefixServedAsDefault(c: Config, inbound: Inbound, instance: string, path: string, dispatch: Dispatch)
    requires instance !in Keys(c.backends)
    requires FullPath(instance, path) !in LocalPaths
    ensures ServeWithInstance(c, inbound, instance, path, dispatch) == ServeDefault(c, inbound, FullPath(instance, path), dispatch)
  {
    UnknownInstanceActsAsDefaultRoute(c.backends, c.defaultBackend, instance, path);
  }

  /**
   * `/health/` is not the health check: its first segment is `health` with an
   * empty rest, so the prefixed route sends it to the default backend, while
   * `/health` is answered by the proxy itself.
   */
  lemma HealthSegmentForwarded(c: Config, inbound: Inbound, dispatch: Dispatch, segment: string)
    requires segment == "health" && segment !in Keys(c.backends)
    requires VerifyToken(c.apiToken, Authorization(inbound.headers)) == Allow
    ensures ServeWithInstance(c, inbound, segment, "", dispatch).sent == Some(BuildOutbound(inbound, c.defaultBackend + "/" + segment))
    ensures ServeDefault(c, inbound, segment, dispatch).sent.None?
  {
    assert segment in LocalPaths;
  }

  /** The root page's `authentication` field. */
  function AuthenticationStatus(apiToken: string): (s: string)
    ensures s == "enabled" <==> VerifyToken(apiToken, None).Deny?
    ensures s == "disabled" <==> VerifyToken(apiToken, None) == Allow
  {
    if apiToken != "" then "enabled" else "disabled"
  }

  // ---------------------------------------------------------------------------
  // Worked examples.
  // ---------------------------------------------------------------------------

  /** The entry the default instance list consists of. */
  function DefaultEndpoint(): Endpoint {
    Endpoint("default", Some("localhost"), "11434")
  }

  lemma DefaultEndpointWellFormed(e: Endpoint)
    requires e == DefaultEndpoint()
    ensures WellFormed(e)
  {
  }

  lemma DefaultEndpointText(e: Endpoint)
    requires e == DefaultEndpoint()
    ensures Render(e) == DefaultInstances
    ensures Url(e) == FallbackBackend
  {
  }

  /**
   * With no instance list configured there is one backend, `default`, at the
   * fallback URL, so it is also the default backend.
   */
  lemma DefaultRegistry(instances: string)
    requires instances == DefaultInstances
    ensures Parsed(instances) == [("default", FallbackBackend)]
    ensures DefaultBackend(Parsed(instances)) == FallbackBackend
  {
    var e := DefaultEndpoint();
    DefaultEndpointWellFormed(e);
    DefaultEndpointText(e);
    ParseSingleEntry(e);
  }

  /** Routing over a registry of two backends `a` and `b`, the first being the default. */
  lemma TwoBackendRoutes(a: string, ua: string, b: string, ub: string, unknown: string, path: string)
    requires a != b && unknown != a && unknown != b
    ensures var backends: Dict<string> := [(a, ua), (b, ub)];
      && DefaultBackend(backends) == ua
      && ProxyWithInstance(backends, ua, a, path) == Target(ua + "/" + path, a)
      && ProxyWithInstance(backends, ua, b, path) == Target(ub + "/" + path, b)
      && ProxyWithInstance(backends, ua, unknown, path) == Target(ua + "/" + FullPath(unknown, path), DefaultLabel)
  {
    var backends: Dict<string> := [(a, ua), (b, ub)];
    assert Keys(backends) == [a, b];
    assert backends[1..] == [(b, ub)];
    assert Get(backends[1..], b) == Some(ub);
    assert Get(backends, b) == Some(ub);
  }

  /**
   * A configuration `a:host:port,b:host:port` (for instance
   * `a:localhost:11434,b:localhost:11435`): `/a/...` and `/b/...` reach their
   * own backend without the segment, any other first segment reaches `a`'s
   * backend with the segment kept.
   */
  lemma SampleRoutes(ea: Endpoint, eb: Endpoint, unknown: string, path: string)
    requires WellFormed(ea) && WellFormed(eb) && ea.name != eb.name
    requires unknown != ea.name && unknown != eb.name
    ensures var backends := Parsed(Render(ea) + "," + Render(eb));
      var default := DefaultBackend(backends);
      && default == Url(ea)
      && ProxyWithInstance(backends, default, ea.name, path) == Target(Url(ea) + "/" + path, ea.name)
      && ProxyWithInstance(backends, default, eb.name, path) == Target(Url(eb) + "/" + path, eb.name)
      && ProxyWithInstance(backends, default, unknown, path) == Target(Url(ea) + "/" + FullPath(unknown, path), DefaultLabel)
  {
    ParseTwoEntries(ea, eb);
    TwoBackendRoutes(ea.name, Url(ea), eb.name, Url(eb), unknown, path);
  }

  lemma SampleTokensPlain(t: string)
    requires t == "wrong" || t == "secret123"
    ensures t != [] && !IsSpace(t[0]) && !IsSpace(t[|t| - 1])
    ensures forall i :: !OccursAt(t, BearerMarker, i)
  {
    MarkerFreeWithoutB(t);
  }

  /** With secret `secret123`, `Bearer wrong` is a 403 and `Bearer secret123` passes. */
  lemma SampleCredentials(secret: string, wrong: string)
    requires secret == "secret123" && wrong == "wrong"
    ensures VerifyToken(secret, Some(BearerMarker + wrong)) == Deny(InvalidCredential)
    ensures VerifyToken(secret, Some(BearerMarker + secret)) == Allow
  {
    SampleTokensPlain(wrong);
    SampleTokensPlain(secret);
    BearerPresented(wrong);
    BearerPresented(secret);
  }

  /** A refused connection on a buffered request is a 502 naming the cause. */
  lemma SampleConnectionRefused(inbound: Inbound, message: string)
    requires SelectMode(inbound.body, inbound.parsedBody) == Buffered
    ensures ProxyRequest(inbound, Raised(DispatchError(true, false, message))) ==
      ErrorReply(HttpError(502, ConnectPrefix + message, []))
  {
  }
}
