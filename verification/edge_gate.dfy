/** The edge middleware that runs before navigation to `/`: pass a request
    with a fresh access token, send an anonymous one to `/auth`, and otherwise
    trade the refresh token for a new pair before deciding. */
module EdgeGate {
  import opened Js
  import Tokens

  const UserCookie: string := "userID"
  const LoginRoute: string := "/auth"

  /** The body a refresh exchange returned, as far as the gate reads it. */
  datatype RefreshData = RefreshData(accessToken: Option<string>, refreshToken: Option<string>, userID: Option<string>)

  /** The outcome of the POST to `/api/auth/refresh`: it threw (transport
      error or non-2xx status), or it returned a body, `None` when that body
      is `null` or not an object. */
  datatype ExchangeResult = ExchangeThrew | ExchangeReturned(data: Option<RefreshData>)

  /** An instruction on the outgoing response's cookies. A set whose value is
      `None` is `cookies.set` called with an `undefined` value. */
  datatype CookieOp = SetCookie(value: Option<string>, sameSite: SameSite) | DeleteCookie

  datatype Outcome = PassThrough | RedirectTo(path: string)

  /** What the middleware answers: continue or redirect, the cookie changes
      on the response, and the refresh token it posted to the exchange, if
      it made that network call at all. */
  datatype GateResponse = GateResponse(outcome: Outcome, cookieOps: map<string, CookieOp>, refreshSent: Option<string>)

  /** `refreshAccessToken` of the middleware: any exchange error becomes `null`. */
  function RefreshAccessToken(result: ExchangeResult): (tokens: Option<RefreshData>)
    // a thrown exchange becomes null instead of propagating
    ensures result.ExchangeThrew? ==> tokens.None?
    // a returned body is passed on untouched
    ensures result.ExchangeReturned? ==> tokens == result.data
  {
    match result
    case ExchangeThrew => None
    case ExchangeReturned(data) => data
  }

  /** The acceptance test the middleware applies to refreshed tokens:
      `newTokens?.accessToken` must be truthy, nothing else is looked at. */
  predicate AcceptsAsWritten(data: RefreshData)
  {
    Truthy(data.accessToken)
  }

  /** The stricter acceptance test: all three new credentials must be truthy. */
  predicate AcceptsComplete(data: RefreshData)
  {
    Truthy(data.accessToken) && Truthy(data.refreshToken) && Truthy(data.userID)
  }

  /** The gate's decision, with the test applied to refreshed tokens as a
      parameter. `readExp` decodes a token payload, `nowMs` is the clock and
      `exchange` the refresh round trip. */
  function Gate(cookies: map<string, string>, nowMs: int, readExp: string -> Option<Tokens.Exp>,
                exchange: string -> ExchangeResult, accepts: RefreshData -> bool): (resp: GateResponse)
    // the exchange, when made, is sent the request's own refresh token
    ensures resp.refreshSent.Some? ==> RefreshCookie in cookies && resp.refreshSent.value == cookies[RefreshCookie]
    ensures resp.outcome.RedirectTo? ==> resp.outcome.path == LoginRoute
    // cookies change only after an exchange
    ensures resp.cookieOps != map[] ==> resp.refreshSent.Some?
    // a pass-through only sets cookies, a redirect only deletes them
    ensures forall c :: c in resp.cookieOps ==>
              (resp.outcome.PassThrough? <==> resp.cookieOps[c].SetCookie?)
    ensures forall c :: c in resp.cookieOps && resp.cookieOps[c].SetCookie? ==> resp.cookieOps[c].sameSite == Lax
    // the user id cookie is never deleted
    ensures UserCookie in resp.cookieOps ==> resp.outcome.PassThrough?
    ensures resp.cookieOps.Keys <= {AccessCookie, RefreshCookie, UserCookie}
  {
    var accessToken := Get(cookies, AccessCookie);
    var refreshToken := Get(cookies, RefreshCookie);
    if Truthy(accessToken) && !Tokens.IsAccessTokenExpired(accessToken.value, nowMs, readExp) then
      GateResponse(PassThrough, map[], None)
    else if !Truthy(refreshToken) then
      GateResponse(RedirectTo(LoginRoute), map[], None)
    else
      var newTokens := RefreshAccessToken(exchange(refreshToken.value));
      if newTokens.None? || !accepts(newTokens.value) then
        GateResponse(RedirectTo(LoginRoute),
                     map[AccessCookie := DeleteCookie, RefreshCookie := DeleteCookie],
                     refreshToken)
      else
        var data := newTokens.value;
        GateResponse(PassThrough,
                     map[AccessCookie := SetCookie(data.accessToken, Lax),
                         RefreshCookie := SetCookie(data.refreshToken, Lax),
                         UserCookie := SetCookie(data.userID, Lax)],
                     refreshToken)
  }

  /** `middleware` as written. */
  function Middleware(cookies: map<string, string>, nowMs: int, readExp: string -> Option<Tokens.Exp>,
                      exchange: string -> ExchangeResult): (resp: GateResponse)
    // the exchange is called exactly when the access token is absent or
    // expired and a refresh token is present
    ensures resp.refreshSent.Some? <==>
              !(AccessCookie in cookies && cookies[AccessCookie] != ""
                && !Tokens.IsAccessTokenExpired(cookies[AccessCookie], nowMs, readExp))
              && RefreshCookie in cookies && cookies[RefreshCookie] != ""
    ensures resp.refreshSent.Some? ==> resp.refreshSent.value == cookies[RefreshCookie]
    // after an exchange: pass and set the three cookies iff an access token came back
    ensures resp.refreshSent.Some? ==>
              var r := RefreshAccessToken(exchange(cookies[RefreshCookie]));
              if r.Some? && Truthy(r.value.accessToken) then
                resp.outcome == PassThrough && resp.cookieOps.Keys == {AccessCookie, RefreshCookie, UserCookie}
                && resp.cookieOps[AccessCookie] == SetCookie(r.value.accessToken, Lax)
                && resp.cookieOps[RefreshCookie] == SetCookie(r.value.refreshToken, Lax)
                && resp.cookieOps[UserCookie] == SetCookie(r.value.userID, Lax)
              else
                resp.outcome == RedirectTo(LoginRoute)
                && resp.cookieOps == map[AccessCookie := DeleteCookie, RefreshCookie := DeleteCookie]
    // without an exchange nothing changes; the request passes iff its access token is fresh
    ensures resp.refreshSent.None? ==>
              resp.cookieOps == map[]
              && (resp.outcome.PassThrough? <==>
                    AccessCookie in cookies && cookies[AccessCookie] != ""
                    && !Tokens.IsAccessTokenExpired(cookies[AccessCookie], nowMs, readExp))
              && (resp.outcome.RedirectTo? ==> resp.outcome.path == LoginRoute)
  {
    Gate(cookies, nowMs, readExp, exchange, AcceptsAsWritten)
  }

  /** `middleware` with the refreshed triple checked in full. */
  function MiddlewareChecked(cookies: map<string, string>, nowMs: int, readExp: string -> Option<Tokens.Exp>,
                             exchange: string -> ExchangeResult): (resp: GateResponse)
    // every cookie it sets carries a real, non-empty value
    ensures forall c :: c in resp.cookieOps && resp.cookieOps[c].SetCookie? ==> Truthy(resp.cookieOps[c].value)
  {
    Gate(cookies, nowMs, readExp, exchange, AcceptsComplete)
  }

  /** A present access token that has not expired passes the request through
      untouched, with no exchange. */
  lemma FreshTokenPassesThrough(cookies: map<string, string>, nowMs: int,
                                readExp: string -> Option<Tokens.Exp>, exchange: string -> ExchangeResult)
    requires AccessCookie in cookies && cookies[AccessCookie] != ""
    requires !Tokens.IsAccessTokenExpired(cookies[AccessCookie], nowMs, readExp)
    ensures Middleware(cookies, nowMs, readExp, exchange) == GateResponse(PassThrough, map[], None)
  {
  }

  /** An absent or expired access token with no refresh token redirects to
      the login route without any network call or cookie change. */
  lemma NoRefreshTokenRedirects(cookies: map<string, string>, nowMs: int,
                                readExp: string -> Option<Tokens.Exp>, exchange: string -> ExchangeResult)
    requires AccessCookie !in cookies || cookies[AccessCookie] == ""
             || Tokens.IsAccessTokenExpired(cookies[AccessCookie], nowMs, readExp)
    requires RefreshCookie !in cookies || cookies[RefreshCookie] == ""
    ensures Middleware(cookies, nowMs, readExp, exchange) == GateResponse(RedirectTo(LoginRoute), map[], None)
  {
  }

  /** A request without any cookie is redirected and nothing is exchanged. */
  lemma NoCookiesRedirects(nowMs: int, readExp: string -> Option<Tokens.Exp>, exchange: string -> ExchangeResult)
    ensures Middleware(map[], nowMs, readExp, exchange) == GateResponse(RedirectTo(LoginRoute), map[], None)
  {
  }

  /** A failed exchange (it threw, returned `null`, or returned no access
      token) redirects and deletes exactly the two token cookies; the error
      never escapes the gate. */
  lemma FailedExchangeDenies(cookies: map<string, string>, nowMs: int,
                             readExp: string -> Option<Tokens.Exp>, exchange: string -> ExchangeResult)
    requires AccessCookie !in cookies || cookies[AccessCookie] == ""
             || Tokens.IsAccessTokenExpired(cookies[AccessCookie], nowMs, readExp)
    requires RefreshCookie in cookies && cookies[RefreshCookie] != ""
    requires var r := exchange(cookies[RefreshCookie]);
             r.ExchangeThrew? || r.data.None? || !Truthy(r.data.value.accessToken)
    ensures Middleware(cookies, nowMs, readExp, exchange)
            == GateResponse(RedirectTo(LoginRoute),
                            map[AccessCookie := DeleteCookie, RefreshCookie := DeleteCookie],
                            Some(cookies[RefreshCookie]))
  {
  }

  /** An exchange that returns an access token lets the navigation proceed
      and sets the three cookies to the returned values with `SameSite=Lax`. */
  lemma RenewedTokensAreSet(cookies: map<string, string>, nowMs: int,
                            readExp: string -> Option<Tokens.Exp>, exchange: string -> ExchangeResult)
    requires AccessCookie !in cookies || cookies[AccessCookie] == ""
             || Tokens.IsAccessTokenExpired(cookies[AccessCookie], nowMs, readExp)
    requires RefreshCookie in cookies && cookies[RefreshCookie] != ""
    requires var r := exchange(cookies[RefreshCookie]);
             r.ExchangeReturned? && r.data.Some? && Truthy(r.data.value.accessToken)
    ensures var data := exchange(cookies[RefreshCookie]).data.value;
            Middleware(cookies, nowMs, readExp, exchange)
            == GateResponse(PassThrough,
                            map[AccessCookie := SetCookie(data.accessToken, Lax),
                                RefreshCookie := SetCookie(data.refreshToken, Lax),
                                UserCookie := SetCookie(data.userID, Lax)],
                            Some(cookies[RefreshCookie]))
  {
  }

  /** The gate lets a navigation proceed exactly when the access token is
      fresh or an exchange returned an access token. */
  lemma PassesIff(cookies: map<string, string>, nowMs: int,
                  readExp: string -> Option<Tokens.Exp>, exchange: string -> ExchangeResult)
    ensures Middleware(cookies, nowMs, readExp, exchange).outcome.PassThrough?
            <==> (AccessCookie in cookies && cookies[AccessCookie] != ""
                  && !Tokens.IsAccessTokenExpired(cookies[AccessCookie], nowMs, readExp))
                 || (RefreshCookie in cookies && cookies[RefreshCookie] != ""
                     && var r := RefreshAccessToken(exchange(cookies[RefreshCookie]));
                        r.Some? && Truthy(r.value.accessToken))
  {
  }

  /** Once denied, the browser (which drops the deleted cookies) is denied
      again on its next navigation, this time without a network call. */
  lemma DeniedStaysDenied(cookies: map<string, string>, nowMs: int, laterMs: int,
                          readExp: string -> Option<Tokens.Exp>, exchange: string -> ExchangeResult)
    requires Middleware(cookies, nowMs, readExp, exchange).cookieOps
             == map[AccessCookie := DeleteCookie, RefreshCookie := DeleteCookie]
    ensures Middleware(cookies - {AccessCookie, RefreshCookie}, laterMs, readExp, exchange)
            == GateResponse(RedirectTo(LoginRoute), map[], None)
  {
  }

  /** After a renewal the browser carries the new access token; while that
      token is fresh, the next navigation passes without another exchange. */
  lemma RenewedThenFresh(cookies: map<string, string>, nowMs: int, laterMs: int,
                         readExp: string -> Option<Tokens.Exp>, exchange: string -> ExchangeResult)
    requires var resp := Middleware(cookies, nowMs, readExp, exchange);
             resp.outcome.PassThrough? && resp.refreshSent.Some?
    ensures var op := Middleware(cookies, nowMs, readExp, exchange).cookieOps[AccessCookie];
            op.SetCookie? && Truthy(op.value)
    ensures var newAccess := Middleware(cookies, nowMs, readExp, exchange).cookieOps[AccessCookie].value.value;
            !Tokens.IsAccessTokenExpired(newAccess, laterMs, readExp) ==>
              Middleware(cookies[AccessCookie := newAccess], laterMs, readExp, exchange)
              == GateResponse(PassThrough, map[], None)
  {
  }

  /** The middleware as written lets a refresh through that returned no
      refresh token, and sets the refresh cookie from an `undefined` value. */
  lemma AsWrittenAcceptsPartialTriple(readExp: string -> Option<Tokens.Exp>)
    ensures var exchange := (r: string) => ExchangeReturned(Some(RefreshData(Some("A"), None, None)));
            var resp := Middleware(map[RefreshCookie := "R"], 0, readExp, exchange);
            resp.outcome.PassThrough? && resp.cookieOps[RefreshCookie] == SetCookie(None, Lax)
  {
  }

  /** With the full check, a refresh missing any of the three credentials
      denies the navigation, so no cookie is ever set from a missing value. */
  lemma CheckedRejectsPartialTriple(cookies: map<string, string>, nowMs: int,
                                    readExp: string -> Option<Tokens.Exp>, exchange: string -> ExchangeResult)
    requires AccessCookie !in cookies || cookies[AccessCookie] == ""
             || Tokens.IsAccessTokenExpired(cookies[AccessCookie], nowMs, readExp)
    requires RefreshCookie in cookies && cookies[RefreshCookie] != ""
    requires var r := exchange(cookies[RefreshCookie]);
             r.ExchangeReturned? && r.data.Some? && !AcceptsComplete(r.data.value)
    ensures MiddlewareChecked(cookies, nowMs, readExp, exchange).outcome == RedirectTo(LoginRoute)
  {
  }

  /** The two gates agree whenever the exchange returned a complete triple,
      or did not return an access token at all. */
  lemma CheckedAgreesOnCompleteTriples(cookies: map<string, string>, nowMs: int,
                                       readExp: string -> Option<Tokens.Exp>, exchange: string -> ExchangeResult)
    requires forall t :: var r := RefreshAccessToken(exchange(t));
                         r.Some? ==> (AcceptsComplete(r.value) || !Truthy(r.value.accessToken))
    ensures MiddlewareChecked(cookies, nowMs, readExp, exchange) == Middleware(cookies, nowMs, readExp, exchange)
  {
  }
}
