/**
 * `verify_token`: the shared-secret check every proxied route depends on.
 * The configured secret is passed in as `apiToken` ("" means unset).
 */
module Auth {
  import opened Wrappers
  import opened PyStr
  import opened Http

  /** The scheme marker removed from the header before comparison. */
  const BearerMarker := "Bearer "

  /**
   * The token a client presents: the header with EVERY occurrence of
   * "Bearer " removed (not just a leading one), then stripped of whitespace.
   */
  function PresentedToken(authorization: string): (token: string)
    ensures |token| <= |authorization|
    ensures token == [] || (!IsSpace(token[0]) && !IsSpace(token[|token| - 1]))
  {
    Strip(RemoveAll(authorization, BearerMarker))
  }

  /** Let the request through, or reject it with an HTTP error. */
  datatype Decision = Allow | Deny(error: HttpError)

  /** The 401 answer: no credential, and the expected scheme advertised. */
  const MissingCredential := HttpError(401, "Missing Authorization header", [("WWW-Authenticate", "Bearer")])

  /** The 403 answer: a credential that does not match. */
  const InvalidCredential := HttpError(403, "Invalid authentication token", [])

  /**
   * `verify_token`: with no secret every request passes; with a secret, an
   * absent or empty header is a 401 that advertises `Bearer`, and a present
   * header passes exactly when its presented token equals the secret, else 403.
   */
  function VerifyToken(apiToken: string, authorization: Option<string>): (d: Decision)
    ensures apiToken == "" ==> d == Allow
    ensures d.Deny? ==> d.error.status == 401 || d.error.status == 403
    ensures (d.Deny? && d.error.status == 401) <==> (apiToken != "" && authorization.GetOr("") == "")
    ensures d.Deny? && d.error.status == 401 ==> ("WWW-Authenticate", "Bearer") in d.error.headers
    ensures apiToken != "" && authorization.GetOr("") != "" ==>
      (d == Allow <==> PresentedToken(authorization.value) == apiToken)
  {
    if apiToken == "" then Allow
    else if authorization.None? || authorization.value == "" then Deny(MissingCredential)
    else if PresentedToken(authorization.value) != apiToken then Deny(InvalidCredential)
    else Allow
  }

  /** A token without the marker and without surrounding whitespace is presented as itself. */
  lemma PresentedBare(token: string)
    requires token == [] || (!IsSpace(token[0]) && !IsSpace(token[|token| - 1]))
    requires forall i :: !OccursAt(token, BearerMarker, i)
    ensures PresentedToken(token) == token
  {
    RemoveAllAbsent(token, BearerMarker);
    StripUnchanged(token);
  }

  /** A leading "Bearer " does not change the presented token. */
  lemma PresentedAfterMarker(rest: string)
    ensures PresentedToken(BearerMarker + rest) == PresentedToken(rest)
  {
    RemoveAllLeading(BearerMarker, rest);
  }

  /**
   * A secret sent bare, or after "Bearer ", is accepted, provided the secret
   * itself has no surrounding whitespace and does not contain "Bearer ".
   */
  lemma BareAndBearerAccepted(apiToken: string)
    requires apiToken != ""
    requires !IsSpace(apiToken[0]) && !IsSpace(apiToken[|apiToken| - 1])
    requires forall i :: !OccursAt(apiToken, BearerMarker, i)
    ensures VerifyToken(apiToken, Some(apiToken)) == Allow
    ensures VerifyToken(apiToken, Some(BearerMarker + apiToken)) == Allow
  {
    PresentedBare(apiToken);
    PresentedAfterMarker(apiToken);
  }

  /** A secret configured with surrounding whitespace can never be matched. */
  lemma PaddedSecretRejectsAll(apiToken: string, authorization: Option<string>)
    requires apiToken != ""
    requires IsSpace(apiToken[0]) || IsSpace(apiToken[|apiToken| - 1])
    ensures VerifyToken(apiToken, authorization).Deny?
  {
  }

  /** A secret containing "Bearer " is rejected with 403 when sent verbatim. */
  lemma MarkerInSecretRejectedVerbatim(apiToken: string, i: int)
    requires OccursAt(apiToken, BearerMarker, i)
    ensures VerifyToken(apiToken, Some(apiToken)) == Deny(InvalidCredential)
  {
    RemoveAllShrinks(apiToken, BearerMarker, i);
  }

  /** A text without a capital B cannot contain the marker. */
  lemma MarkerFreeWithoutB(t: string)
    requires 'B' !in t
    ensures forall i :: !OccursAt(t, BearerMarker, i)
  {
    forall i ensures !OccursAt(t, BearerMarker, i) {
      if 0 <= i && i + |BearerMarker| <= |t| {
        assert t[i..i + |BearerMarker|][0] == t[i];
      }
    }
  }

  /** "Bearer " followed by a plain token presents exactly that token. */
  lemma BearerPresented(t: string)
    requires t != [] && !IsSpace(t[0]) && !IsSpace(t[|t| - 1])
    requires forall i :: !OccursAt(t, BearerMarker, i)
    ensures PresentedToken(BearerMarker + t) == t
  {
    PresentedAfterMarker(t);
    PresentedBare(t);
  }
}
