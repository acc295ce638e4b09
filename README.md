# Ollama proxy: a verified model of its decision logic

`main.py` is a small FastAPI service that sits in front of one or more Ollama
servers. It checks a shared bearer secret, picks a backend from the first path
segment, and forwards the request with httpx. It relays the backend's answer
either as a byte stream or as buffered JSON. This project models in Dafny the
parts of that service that are decisions rather than I/O:

- **Registry.** The `OLLAMA_INSTANCES` list `name:host:port,name:port,...`
  is parsed into an insertion-ordered dict of base URLs, and the default
  backend is chosen from it (`registry.dfy`). The parsing loop is a method
  whose loop invariant ties it to a specification function.
- **Python strings and dicts.** The parts of Python the parser and the
  filters rely on are written out: `str.split`, `str.strip` with Python's
  whitespace set, `str.replace(p, "")`, dict assignment and comprehension,
  all exactly, and `str.lower` for ASCII letters. A dict is a sequence of
  pairs in insertion order (`pystr.dfy`, `ordered_dict.dfy`).
- **Token check.** `verify_token` decides allow, 401 or 403 (`auth.dfy`).
- **Routing.** The two catch-all routes resolve a target URL from the path
  pieces the framework has already split off (`routing.dfy`).
- **Header filtering.** One filter applies to the outbound request and one to
  the relayed response (`headers.dfy`).
- **Forwarding.** `proxy_request` chooses streaming or buffered relay,
  builds the buffered JSON body, and maps dispatch failures to HTTP errors
  (`forwarding.dfy`).
- **Composition.** Start-up configuration, the token gate in front of both
  forwarding routes, the root page's `authentication` field, and worked
  examples (`proxy.dfy`).

The globals `API_TOKEN`, `BACKENDS` and `DEFAULT_BACKEND` are explicit
parameters. The network is an input: `Dispatch` is what httpx returned or
raised. JSON decoding is also an input: `Option<Json>` is what `json.loads`
or `response.json()` produced, with `None` when it raised.

Where the code and its documentation disagree, the model follows the code:

- The registry can be empty, when every entry is malformed. Only the default
  backend then falls back to `http://localhost:11434`. The route then sends
  every request to that fallback.
- The token normalisation removes every occurrence of `"Bearer "`, not just a
  leading one, and then strips whitespace. So a secret that contains
  `"Bearer "` can never be matched verbatim, and a secret with surrounding
  whitespace can never be matched at all.
- A streamed relay always answers 200 with media type `application/json`.
  Whatever status and headers the backend sent are not relayed. A failure that
  happens after the stream has started is not mapped to 502/504/500.
- Response headers are filtered only on the buffered path.
- The unprefixed route's local answer for `""` and `health` sits behind the
  token check, like every forwarded path.
- `get_backend_url` treats the empty name as unknown, but the prefixed
  route's handler does not: given an empty segment it would select a backend
  registered under the empty name (`Routing.EmptyNameDisagreement`). The web
  framework never passes it an empty segment, so such a backend is reachable
  by neither. The routes do not call `get_backend_url`.
- `/health/`, with its trailing slash, is not answered locally. The prefixed
  route sees the segment `health` with an empty rest and, unless a backend is
  named `health`, forwards the request to the default backend as `/health`
  (`Proxy.HealthSegmentForwarded`).

## Model

| member | source | states |
|---|---|---|
| PyStr.Split | main.py:59-60 | `split` never returns an empty list, and no piece contains the separator |
| PyStr.SplitThenJoin | main.py:59-60 | joining the pieces of a split with the separator gives back the original string |
| PyStr.JoinThenSplit | main.py:59-60 | splitting a join of separator-free pieces gives back exactly those pieces |
| PyStr.TrimStart | main.py:60 | the result is a suffix, everything cut off is whitespace, and the result does not begin with whitespace |
| PyStr.TrimEnd | main.py:60 | the result is a prefix, everything cut off is whitespace, and the result does not end with whitespace |
| PyStr.Strip | main.py:95 | `strip()` never lengthens the text and leaves no whitespace at either end |
| PyStr.StripUnchanged | main.py:60 | a text without whitespace at its ends is left alone by `strip()` |
| PyStr.StripIdempotent | main.py:95 | stripping twice is stripping once |
| PyStr.TrimStartPadded | main.py:60 | `lstrip()` removes exactly a whitespace run in front of a text that does not begin with whitespace |
| PyStr.TrimEndPadded | main.py:60 | `rstrip()` removes exactly a whitespace run after a text that does not end with whitespace |
| PyStr.StripPadded | main.py:60 | `strip()` removes exactly the whitespace around a non-empty text without whitespace at its ends |
| PyStr.RemoveAll | main.py:95 | `replace(p, "")` never lengthens the text |
| PyStr.RemoveAllAbsent | main.py:95 | where the pattern never occurs, `replace` changes nothing |
| PyStr.RemoveAllShrinks | main.py:95 | where the pattern occurs anywhere, `replace` makes the text strictly shorter |
| PyStr.Lower | main.py:222 | `lower()` keeps the length, turns each ASCII capital into its own small letter and keeps every other character |
| PyStr.LowerIdempotent | main.py:222 | lower-casing twice is lower-casing once |
| OrderedDict.Keys | main.py:125 | one key per pair |
| OrderedDict.KeysAt | main.py:125 | the i-th key is the key of the i-th pair, in insertion order |
| OrderedDict.Get | main.py:149-151 | a lookup finds a value exactly when the name is a key |
| OrderedDict.GetAt | main.py:73 | in a dict with distinct keys, every stored pair is what a lookup finds |
| OrderedDict.Put | main.py:63 | assigning to a present key keeps the key order; assigning to a new key appends the key |
| OrderedDict.PutGetSame | main.py:63 | after `d[k] = v`, `k` maps to `v` |
| OrderedDict.PutGetOther | main.py:63 | after `d[k] = v`, every other key maps to what it mapped to before |
| OrderedDict.PutNewKey | main.py:68 | assigning to a new key appends the pair and changes nothing else |
| OrderedDict.PutDistinct | main.py:63 | assignment keeps the keys distinct |
| OrderedDict.FromPairs | main.py:219-223 | a dict built by a comprehension or by a run of assignments has distinct keys |
| OrderedDict.FromPairsGet | main.py:294-297 | a lookup in the built dict finds the value of the LAST pair with that key |
| OrderedDict.FromPairsFirstKey | main.py:73 | the first key of the built dict is the key of the first pair |
| OrderedDict.FromPairsDistinct | main.py:219-223 | pairs with distinct keys build exactly themselves, in order |
| OrderedDict.LastValueAt | main.py:294-297 | a pair that no later pair overrides gives the last value of its key |
| OrderedDict.LastValueMember | main.py:294-297 | a last value is the value of a pair that carries the key |
| OrderedDict.LastValueLastPair | main.py:294-297 | a last value is the value of the last pair that carries the key |
| OrderedDict.LastValueNone | main.py:294-297 | a key has no last value exactly when no pair carries it |
| Registry.ParseEntry | main.py:60-69 | an entry that binds something binds a name without ':' to a URL beginning with `http://` |
| Registry.ParseInstances | main.py:57-70 | the loop builds exactly the dict the well-formed entries assign in order, and its keys are distinct |
| Registry.ParsedLookup | main.py:57-70 | a name's URL in the parsed registry is that of its LAST entry |
| Registry.DefaultBackend | main.py:73 | an empty registry gives `http://localhost:11434`; otherwise the default is what a lookup of the first name finds |
| Registry.DefaultBackendOfParsed | main.py:72-73 | with no well-formed entry the default is `http://localhost:11434`; otherwise it is the URL last assigned to the first entry's name |
| Registry.GetBackendUrl | main.py:109-116 | a non-empty known name selects its URL; an absent, empty or unknown name selects the default |
| Registry.RenderEdges | main.py:60 | a well-formed entry is not changed by `strip()` |
| Registry.SplitHostEntry | main.py:60 | a well-formed `name:host:port` entry splits into its three fields |
| Registry.SplitPortEntry | main.py:60 | a well-formed `name:port` entry splits into its two fields |
| Registry.ParseRenderedHostEntry | main.py:61-64 | a `name:host:port` entry binds `name` to `http://host:port` |
| Registry.ParseRenderedPortEntry | main.py:65-69 | a `name:port` entry binds `name` to `http://localhost:port` |
| Registry.ParseRenderedEntry | main.py:60-69 | every well-formed entry parses back to its endpoint's binding |
| Registry.ParseEntryStripped | main.py:60 | whitespace around an entry never changes what it binds |
| Registry.ParsePaddedEntry | main.py:60-69 | a well-formed entry padded with whitespace on either side (as after `, `) still binds its endpoint |
| Registry.MalformedEntrySkipped | main.py:60-69 | an entry whose stripped text has any part count other than two or three is silently dropped, whatever whitespace surrounds it |
| Registry.ValidEntriesRendered | main.py:59-69 | well-formed entries produce their endpoints' bindings, in order |
| Registry.ParseRendered | main.py:57-70 | parsing a configuration written from well-formed endpoints gives the dict their bindings build, so the parser inverts the format |
| Registry.ParseSingleEntry | main.py:53 | a one-entry list parses to that entry's binding |
| Registry.BindingsPair | main.py:57-70 | two differently named endpoints build a dict holding both, in order |
| Registry.ParseTwoEntries | main.py:57-70 | a two-entry list with different names parses to both backends, in order |
| Auth.PresentedToken | main.py:95 | the presented token is no longer than the header and has no whitespace at its ends |
| Auth.VerifyToken | main.py:79-106 | no secret allows everything; with a secret, 401 (advertising `Bearer`) exactly when the header is absent or empty, otherwise allow exactly when the presented token equals the secret, else 403 |
| Auth.PresentedBare | main.py:94-95 | a plain token is presented as itself |
| Auth.PresentedAfterMarker | main.py:94-95 | a leading `Bearer ` does not change the presented token |
| Auth.BareAndBearerAccepted | main.py:94-106 | a plain secret is accepted both bare and after `Bearer ` |
| Auth.PaddedSecretRejectsAll | main.py:95-103 | a secret with whitespace at an end rejects every request |
| Auth.MarkerInSecretRejectedVerbatim | main.py:95-103 | a secret containing `Bearer ` is rejected with 403 when sent verbatim |
| Auth.BearerPresented | main.py:94-95 | `Bearer ` followed by a plain token presents exactly that token |
| Routing.FullPath | main.py:157 | an unknown first segment is put back in front of the rest of the path, or stands alone when the rest is empty |
| Routing.ProxyWithInstance | main.py:149-160 | a known segment targets its backend plus the rest of the path, under the segment's name; an unknown one targets the default backend with the segment kept, under `default` |
| Routing.ProxyDefault | main.py:174-180 | `""` and `health` are answered locally; any other path goes verbatim to the default backend, under `default` |
| Routing.UnknownInstanceActsAsDefaultRoute | main.py:154-160 | an unknown segment reaches the same target as the unprefixed route given the whole path, unless the rejoined path is `health` (or empty) |
| Routing.RouteAgreesWithGetBackendUrl | main.py:149-152 | for a non-empty segment the prefixed route selects the backend `get_backend_url` names |
| Routing.EmptyNameDisagreement | main.py:111 | for the empty name the route and `get_backend_url` follow different rules: the route looks the name up, `get_backend_url` takes the default |
| Routing.PathPreserved | main.py:152-159 | the rest of the path reaches the backend verbatim after one slash, in both cases |
| HeaderFilter.ExcludedIgnoresCase | main.py:222 | a name and its lower-case form are excluded alike |
| HeaderFilter.Kept | main.py:219-223 | every kept header is one of the input headers, and its name is not excluded in any letter case |
| HeaderFilter.KeptLastValue | main.py:219-223 | the last kept value of a name is its last input value, unless the name is excluded |
| HeaderFilter.KeptDistinct | main.py:219-223 | filtering headers with distinct names keeps the names distinct |
| HeaderFilter.FilterSpec | main.py:219-223 | the filtered dict hides every excluded name and keeps every other name with its last value |
| HeaderFilter.FilterHeaders | main.py:219-223 | no excluded name survives in any letter case, and every other name maps to its last value; names are distinct |
| HeaderFilter.FilterPreservesDistinct | main.py:219-223 | without repeated names the filter keeps the surviving headers exactly, in order |
| HeaderFilter.FilterIdentity | main.py:219-223 | without repeated or excluded names the filter changes nothing |
| HeaderFilter.KeptAll | main.py:222 | a condition that excludes nothing keeps everything |
| HeaderFilter.OutboundHeaders | main.py:219-223 | the forwarded headers never hold `host` or `authorization`, and keep every other header's last value |
| HeaderFilter.ResponseHeaders | main.py:294-297 | the relayed headers never hold the four framing headers, and keep every other header's last value |
| HeaderFilter.CredentialNeverForwarded | main.py:222 | a header whose name lower-cases to `authorization` is dropped, whatever its letter case |
| Forwarding.Truthy | main.py:231 | the falsy decoded values are exactly `None`, `False`, `0`, `""`, `[]` and `{}` |
| Forwarding.Member | main.py:198 | `get` finds nothing exactly when no member has the name, and otherwise the value of the last member with that name |
| Forwarding.SelectMode | main.py:193-200 | streaming only for a non-empty body that decodes to an object whose `stream` member is truthy; every other body stays buffered |
| Forwarding.StreamTrueStreams | main.py:198 | an object whose last `stream` member is `true` selects streaming |
| Forwarding.LaterStreamFalseBuffers | main.py:197-198 | a later `"stream": false` overrides an earlier `true` |
| Forwarding.MissingStreamBuffers | main.py:198 | an object without `stream` stays buffered |
| Forwarding.BufferedContent | main.py:282-289 | an empty body is `{}`, a decoded body is its value, and any other body is kept as text under `raw_response` |
| Forwarding.RawResponseRecoversText | main.py:289 | an undecodable body's text can be read back from the buffered answer |
| Forwarding.FailureToError | main.py:305-322 | connection failures are 502 (checked first), timeouts 504, anything else 500; the 502 and 500 details carry the message after a fixed prefix |
| Forwarding.FailureStatusDeterminesKind | main.py:305-322 | the status alone tells the failure kinds apart |
| Forwarding.BuildOutbound | main.py:265-273 | the backend gets the same method, query and body, with the filtered headers |
| Forwarding.ProxyRequest | main.py:183-322 | streaming answers 200 `application/json` with the decoded chunks; buffered relays status, JSON body and filtered headers; only buffered failures become HTTP errors |
| Forwarding.StreamingHidesBackendStatus | main.py:259-262 | a streamed relay answers 200 whatever the backend's status |
| Forwarding.ErrorsOnlyWhenBuffered | main.py:231-262 | a dispatch failure becomes an HTTP error exactly in buffered mode |
| Forwarding.RelayedHeaders | main.py:294-303 | a buffered answer keeps every non-framing header with its last value |
| Proxy.Configure | main.py:44-73 | start-up parses the registry, and the default is the URL stored under its first name, or the fallback when it is empty |
| Proxy.Authorization | main.py:79 | the credential is the value of the first `authorization` header in any letter case, and absent exactly when there is none |
| Proxy.ServeWithInstance | main.py:136-160 | a request is forwarded exactly when the token check allows it; a denied one gets the check's error |
| Proxy.ServeDefault | main.py:163-180 | a request is forwarded exactly when the token check allows it and the path is not local; an allowed `""` or `health` request gets `{"status": "ok"}` with 200; a denied one gets the check's error |
| Proxy.DeniedNeverForwarded | main.py:141 | a rejected request reaches no backend and gets 401 or 403 |
| Proxy.MissingHeaderNeverForwarded | main.py:86-91 | with a secret configured, a request without the header gets 401 and reaches no backend, on both routes |
| Proxy.HealthNeverForwarded | main.py:174-176 | `health` and the empty path are never forwarded |
| Proxy.HealthSegmentForwarded | main.py:154-160 | `/health/` (segment `health`, empty rest) is forwarded to the default backend as `/health`, while `/health` is answered locally |
| Proxy.CredentialStaysAtProxy | main.py:219-223 | whatever either route sends to a backend carries neither `host` nor `authorization` |
| Proxy.UnknownPrefixServedAsDefault | main.py:154-160 | an unknown first segment is served exactly as the unprefixed route serves the whole path, unless the rejoined path is `health` (or empty) |
| Proxy.AuthenticationStatus | main.py:126 | the root page says `enabled` exactly when a request without a header would be denied |
| Proxy.DefaultRegistry | main.py:53 | the built-in instance list gives one backend, `default`, at `http://localhost:11434`, which is also the default |
| Proxy.TwoBackendRoutes | main.py:149-160 | over two backends, each name reaches its own URL and any other segment reaches the first with the segment kept |
| Proxy.SampleRoutes | main.py:145-146 | with `a:host:port,b:host:port`, `/a/...` and `/b/...` reach their own backends, and other segments reach `a`'s with the segment kept |
| Proxy.SampleCredentials | main.py:94-103 | with secret `secret123`, `Bearer wrong` is 403 and `Bearer secret123` passes |
| Proxy.SampleConnectionRefused | main.py:305-310 | a refused connection on a buffered request is 502 naming the cause |

## Left out

- HTTP I/O through httpx is not modelled. This covers the 300-second client timeout and the `stream_generator` coroutine. The backend's behaviour is an input (`Dispatch`). A stream that fails part-way is modelled only as a stream that ends `aborted` with no chunks.
- Concurrency and the async event loop are left out. Each request is modelled on its own.
- FastAPI/Starlette route matching and precedence are left out, as is `Depends`/`Header` injection. The handlers take the already-split path pieces. `Proxy.Authorization` assumes the injected header is the first `authorization` header, in any letter case.
- `json.loads`, `response.json()` and `json.dumps` are left out as parsers. Their outcome is an input. JSON numbers are reals, so `NaN` and `Infinity`, which Python's decoder accepts, are not represented.
- Reading the request body can fail when the client disconnects. That failure would take the 500 path and is not modelled.
- Logging, debug output, token masking in logs, `.env` and environment loading, and the `uvicorn` entry point are left out. They have no effect on any answer.
- The static parts of the `/` and `/health` payloads are left out. Only the `authentication` field is modelled (`Proxy.AuthenticationStatus`).
- PyStr.Lower: maps only ASCII capitals. Python's `lower()` also maps other letters, but only U+212A and U+0130 lower into ASCII letters. Neither can turn a header name into one of the listed names, so the filters' verdicts are the same.
- PyStr.RemoveAll: its own contract is only a length bound. What it removes is stated by `RemoveAllAbsent` and `RemoveAllShrinks` (and used through `Auth.PresentedAfterMarker`), not as a closed form.
- Registry.ParseRendered: the round trip covers configurations written with bare commas. A padded entry, as after `, `, is covered one entry at a time by `Registry.ParsePaddedEntry`, not as a whole configuration.
