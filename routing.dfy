/**
 * Route resolution of the two forwarding handlers, from the path pieces the
 * web framework has already split off: `proxy_with_instance` gets the first
 * segment and the rest, `proxy_default` the whole path.
 */
module Routing {
  import opened Wrappers
  import opened OrderedDict
  import opened Registry

  /** Where a request is forwarded and the instance name it is logged under. */
  datatype Target = Target(url: string, instanceName: string)

  /** A handler either answers by itself or forwards. */
  datatype Route = Local | Forward(target: Target)

  /** Label of requests that go to the default backend. */
  const DefaultLabel := "default"

  /** Paths the unprefixed handler answers by itself. */
  const LocalPaths: seq<string> := ["", "health"]

  /**
   * The path an unknown first segment is put back in front of: the segment
   * alone when nothing follows it.
   */
  function FullPath(instance: string, path: string): (p: string)
    ensures instance <= p
    ensures path == "" ==> p == instance
    ensures path != "" ==> |p| == |instance| + 1 + |path| && p[|instance|] == '/' && p[|instance| + 1..] == path
  {
    if path == "" then instance else instance + "/" + path
  }

  /**
   * `proxy_with_instance`: a known first segment selects its backend and is
   * consumed; an unknown one stays in the path, which goes to the default
   * backend.
   */
  function ProxyWithInstance(backends: Dict<string>, defaultBackend: string, instance: string, path: string): (t: Target)
    ensures instance in Keys(backends) ==>
      t.instanceName == instance && t.url == Get(backends, instance).value + "/" + path
    ensures instance !in Keys(backends) ==>
      t.instanceName == DefaultLabel && defaultBackend + "/" + instance <= t.url
    ensures instance !in Keys(backends) ==>
      (path == "" <==> t.url == defaultBackend + "/" + instance)
  {
    if instance in Keys(backends) then
      Target(Get(backends, instance).value + "/" + path, instance)
    else
      Target(defaultBackend + "/" + FullPath(instance, path), DefaultLabel)
  }

  /**
   * `proxy_default`: the empty path and `health` are answered locally, every
   * other path goes unchanged to the default backend.
   */
  function ProxyDefault(defaultBackend: string, path: string): (r: Route)
    ensures r.Local? <==> path in LocalPaths
    ensures r.Forward? ==> r.target.instanceName == DefaultLabel
    ensures r.Forward? ==> defaultBackend + "/" <= r.target.url && r.target.url[|defaultBackend| + 1..] == path
  {
    if path in LocalPaths then Local
    else Forward(Target(defaultBackend + "/" + path, DefaultLabel))
  }

  /**
   * A request whose first segment is not a backend name reaches the same
   * target, under the same instance name, as the unprefixed route would send the
   * whole path to.
   */
  lemma UnknownInstanceActsAsDefaultRoute(backends: Dict<string>, defaultBackend: string, instance: string, path: string)
    requires instance !in Keys(backends)
    requires FullPath(instance, path) !in LocalPaths
    ensures ProxyDefault(defaultBackend, FullPath(instance, path)) == Forward(ProxyWithInstance(backends, defaultBackend, instance, path))
  {
    assert defaultBackend + "/" + FullPath(instance, path) == defaultBackend + "/" + instance + (if path == "" then "" else "/" + path);
  }

  /**
   * The prefixed route selects the backend `get_backend_url` names for the
   * segment, whenever the segment is not empty.
   */
  lemma RouteAgreesWithGetBackendUrl(backends: Dict<string>, defaultBackend: string, instance: string, path: string)
    requires instance != ""
    ensures var url := GetBackendUrl(backends, defaultBackend, Some(instance));
      ProxyWithInstance(backends, defaultBackend, instance, path).url ==
        url + "/" + (if instance in Keys(backends) then path else FullPath(instance, path))
  {
  }

  /**
   * For the empty name the two disagree: given an empty segment, the handler
   * would select a backend registered under `""`, which `get_backend_url`
   * never selects. The web framework never passes the handler an empty
   * segment, so neither function can actually reach such a backend.
   */
  lemma EmptyNameDisagreement(backends: Dict<string>, defaultBackend: string, path: string)
    requires "" in Keys(backends)
    ensures GetBackendUrl(backends, defaultBackend, Some("")) == defaultBackend
    ensures ProxyWithInstance(backends, defaultBackend, "", path).url == Get(backends, "").value + "/" + path
  {
  }

  /** The path after the first segment reaches the backend verbatim, in both cases. */
  lemma PathPreserved(backends: Dict<string>, defaultBackend: string, instance: string, path: string)
    requires path != ""
    ensures var url := ProxyWithInstance(backends, defaultBackend, instance, path).url;
      |url| > |path| && url[|url| - |path| - 1] == '/' && url[|url| - |path|..] == path
  {
    var url := ProxyWithInstance(backends, defaultBackend, instance, path).url;
    if instance in Keys(backends) {
      var base := Get(backends, instance).value;
      assert url == (base + "/") + path;
    } else {
      var p := FullPath(instance, path);
      assert url == (defaultBackend + "/") + p;
    }
  }
}
