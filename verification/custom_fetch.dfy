/** The request helper every generated API call goes through: base-URL
    selection, URL resolution, header composition and the decision whether a
    response becomes an `ApiError`. */
module Api {
  import opened Wrappers
  import opened Text

  // ---------------------------------------------------------------------
  // Base URL

  const DevApiBaseUrl: string := "https://dev.buy-or-not.com"
  const ProdApiBaseUrl: string := "https://api.buy-or-not.com"

  /** Removes every trailing '/' (the regular expression `/\/+$/`). */
  function StripTrailingSlashes(s: string): (r: string)
    ensures r <= s
    ensures |r| == 0 || r[|r| - 1] != '/'
    ensures forall i :: |r| <= i < |s| ==> s[i] == '/'
  {
    if |s| > 0 && s[|s| - 1] == '/' then StripTrailingSlashes(s[..|s| - 1]) else s
  }

  /** Stripping is idempotent, and a string without a trailing slash is kept. */
  lemma StripIdempotent(s: string)
    ensures StripTrailingSlashes(StripTrailingSlashes(s)) == StripTrailingSlashes(s)
    ensures (|s| == 0 || s[|s| - 1] != '/') ==> StripTrailingSlashes(s) == s
  {
  }

  /** Stripping removes exactly the maximal run of trailing slashes: the
      result is the unique prefix with no trailing slash followed in `s` by
      slashes only. */
  lemma StripIsMaximal(s: string, p: string)
    requires p <= s && (|p| == 0 || p[|p| - 1] != '/')
    requires forall i :: |p| <= i < |s| ==> s[i] == '/'
    ensures StripTrailingSlashes(s) == p
  {
  }

  /** The base URL: the configured override when set (even to the empty
      string, since `??` only replaces an absent value), otherwise the
      development or production default, without trailing slashes. */
  function ApiBaseUrl(configured: Option<string>, isDev: bool): (r: string)
    ensures configured.Some? ==> r == StripTrailingSlashes(configured.value)
    ensures configured.None? && isDev ==> r == DevApiBaseUrl
    ensures configured.None? && !isDev ==> r == ProdApiBaseUrl
  {
    StripIdempotent(DevApiBaseUrl);
    StripIdempotent(ProdApiBaseUrl);
    StripTrailingSlashes(configured.GetOr(if isDev then DevApiBaseUrl else ProdApiBaseUrl))
  }

  // ---------------------------------------------------------------------
  // URL resolution

  /** `/^https?:\/\//i`: starts with "http://" or "https://", ignoring case. */
  function IsAbsoluteUrl(url: string): (r: bool)
    ensures r ==> |url| >= 7 && LowerChar(url[0]) == 'h' && url[0] != '/'
  {
    "http://" <= Lower(url) || "https://" <= Lower(url)
  }

  /** The URL a request is sent to: absolute URLs as given, a path starting
      with '/' appended to the base, any other path joined with one '/'. */
  function ResolveApiUrl(base: string, url: string): (r: string)
    ensures IsAbsoluteUrl(url) ==> r == url
    ensures !IsAbsoluteUrl(url) && |url| > 0 && url[0] == '/' ==> r == base + url
    ensures !IsAbsoluteUrl(url) && !(|url| > 0 && url[0] == '/') ==> r == base + "/" + url
  {
    if IsAbsoluteUrl(url) then url
    else if |url| > 0 && url[0] == '/' then base + url
    else base + "/" + url
  }

  /** A relative URL always resolves under the base, followed by a '/' and
      then the URL itself without its leading '/'. */
  lemma RelativeResolvesUnderBase(base: string, url: string)
    requires !IsAbsoluteUrl(url)
    ensures var r := ResolveApiUrl(base, url);
      && base <= r && |r| > |base| && r[|base|] == '/'
      && (url == r[|base|..] || "/" + url == r[|base|..])
  {
  }

  /** An absolute prefix keeps any extension absolute. */
  lemma AbsoluteExtends(a: string, b: string)
    requires IsAbsoluteUrl(a)
    ensures IsAbsoluteUrl(a + b)
  {
    LowerAppend(a, b);
    var la := Lower(a);
    if "http://" <= la {
      assert (la + Lower(b))[..7] == la[..7];
    } else {
      assert (la + Lower(b))[..8] == la[..8];
    }
  }

  /** With an absolute base, resolving an already resolved URL changes
      nothing. */
  lemma ResolveIdempotent(base: string, url: string)
    requires IsAbsoluteUrl(base)
    ensures ResolveApiUrl(base, ResolveApiUrl(base, url)) == ResolveApiUrl(base, url)
  {
    if !IsAbsoluteUrl(url) {
      if |url| > 0 && url[0] == '/' {
        AbsoluteExtends(base, url);
      } else {
        AbsoluteExtends(base, "/" + url);
        assert base + "/" + url == base + ("/" + url);
      }
    }
  }

  /** Both default base URLs are absolute, so resolution is idempotent for
      them; a case-insensitive scheme also counts. */
  lemma DefaultBasesAreAbsolute()
    ensures IsAbsoluteUrl(ApiBaseUrl(None, true)) && IsAbsoluteUrl(ApiBaseUrl(None, false))
    ensures IsAbsoluteUrl("HTTPS://example.com") && !IsAbsoluteUrl("/api/v1/feeds")
  {
    assert Lower(DevApiBaseUrl)[..8] == "https://";
    assert Lower(ProdApiBaseUrl)[..8] == "https://";
    assert Lower("HTTPS://example.com")[..8] == "https://";
    assert Lower("/api/v1/feeds")[0] == '/';
  }

  // ---------------------------------------------------------------------
  // Headers

  /** The request headers: JSON content type, then a bearer token when one is
      stored, then the caller's headers, later entries winning. */
  function ComposeHeaders(accessToken: Option<string>, callerHeaders: map<string, string>): (h: map<string, string>)
    ensures "Content-Type" in h
    ensures "Content-Type" !in callerHeaders ==> h["Content-Type"] == "application/json"
    ensures "Authorization" in h <==> Truthy(accessToken) || "Authorization" in callerHeaders
    ensures Truthy(accessToken) && "Authorization" !in callerHeaders ==> h["Authorization"] == "Bearer " + accessToken.value
    ensures forall k :: k in callerHeaders ==> k in h && h[k] == callerHeaders[k]
    ensures forall k :: k in h ==> k in callerHeaders || k == "Content-Type" || k == "Authorization"
  {
    var defaults := map["Content-Type" := "application/json"];
    var auth := if Truthy(accessToken) then map["Authorization" := "Bearer " + accessToken.value] else map[];
    defaults + auth + callerHeaders
  }

  // ---------------------------------------------------------------------
  // Response handling

  /** The error thrown for an error payload. */
  datatype ApiError = ApiError(message: string, errorCode: string, status: int)

  /** The fields of a JSON body that decide the outcome. */
  datatype ResponseBody = ResponseBody(errorCode: Option<string>, message: Option<string>)

  /** What a successful call resolves to: the parsed body (absent when it is
      not JSON) and the HTTP status. */
  datatype FetchResult = FetchResult(data: Option<ResponseBody>, status: int)

  const UnknownErrorMessage: string := "Unknown error"

  /** Turns a response into the call's outcome: an `ApiError` exactly when
      the body parsed and carries a non-empty errorCode, whatever the HTTP
      status; otherwise the body and status. */
  function HandleResponse(status: int, data: Option<ResponseBody>): (r: Result<FetchResult, ApiError>)
    ensures r.Err? <==> data.Some? && Truthy(data.value.errorCode)
    ensures r.Err? ==> r.error.errorCode == data.value.errorCode.value && r.error.status == status
    ensures r.Err? ==> r.error.message == data.value.message.GetOr(UnknownErrorMessage)
    ensures r.Ok? ==> r.value.data == data && r.value.status == status
  {
    if data.Some? && Truthy(data.value.errorCode) then
      Err(ApiError(data.value.message.GetOr(UnknownErrorMessage), data.value.errorCode.value, status))
    else
      Ok(FetchResult(data, status))
  }

  /** The status code never decides between success and error, and a body
      that is not JSON never throws. */
  lemma StatusDoesNotDecide(s1: int, s2: int, data: Option<ResponseBody>)
    ensures HandleResponse(s1, data).Err? == HandleResponse(s2, data).Err?
    ensures HandleResponse(500, None).Ok?
  {
  }

  /** The request sent for a call: resolved URL and composed headers. */
  datatype OutgoingRequest = OutgoingRequest(url: string, headers: map<string, string>)

  function PrepareRequest(base: string, url: string, accessToken: Option<string>, callerHeaders: map<string, string>): (req: OutgoingRequest)
    ensures req.url == ResolveApiUrl(base, url)
    ensures req.headers == ComposeHeaders(accessToken, callerHeaders)
  {
    OutgoingRequest(ResolveApiUrl(base, url), ComposeHeaders(accessToken, callerHeaders))
  }
}
