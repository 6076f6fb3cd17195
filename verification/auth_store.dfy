/** The client-side session store: the token pair and user id in memory,
    mirrored to browser cookies, and the refresh exchange with its in-flight
    guard. Every operation is a pure transition on an immutable `Store`. */
module AuthStore {
  import opened Js

  /** Lifetime of the refresh-token cookie: one day, in milliseconds. */
  const RefreshCookieLifetimeMs: int := 24 * 60 * 60 * 1000

  /** The message thrown for a rejected refresh whose body carries no message. */
  const DefaultRefreshMessage: string := "Ошибка обновления токена"

  datatype Session = Session(accessToken: Option<string>, refreshToken: Option<string>,
                             userID: Option<string>, isRefreshing: bool)

  /** A cookie as js-cookie writes it; `expiresAt` is absent for a session cookie. */
  datatype Cookie = Cookie(value: string, expiresAt: Option<int>, secure: bool, sameSite: SameSite)

  /** The store together with the browser's cookie jar it mirrors. */
  datatype Store = Store(session: Session, jar: map<string, Cookie>)

  datatype AuthError =
    | InvalidAccessToken
    | InvalidRefreshToken
    | MissingRefreshToken
    | FetchFailed                       // `fetch` itself rejected
    | UnreadableBody                    // `response.json()` threw, or the body was not an object
    | RefreshRejected(message: string)  // a non-2xx status
    | MalformedResponse                 // a 2xx body without the expected fields

  /** How a call ended: normally with a value, or by throwing. Either way the
      store is the one the call left behind, writes made before a throw included. */
  datatype Completion<T> = Normal(store: Store, value: T) | Abrupt(store: Store, error: AuthError)

  /** `Cookies.get(name) || null`. */
  function CookieValue(jar: map<string, Cookie>, name: string): (v: Option<string>)
    ensures v.Some? <==> name in jar && jar[name].value != ""
    ensures v.Some? ==> v.value == jar[name].value
  {
    if name in jar && jar[name].value != "" then Some(jar[name].value) else None
  }

  /** The constructor: seeds both tokens from the cookies when running in a
      browser; the user id is not seeded. */
  function Init(inBrowser: bool, jar: map<string, Cookie>): (s: Store)
    ensures !s.session.isRefreshing && s.session.userID.None? && s.jar == jar
    ensures inBrowser ==> s.session.accessToken == CookieValue(jar, AccessCookie)
                          && s.session.refreshToken == CookieValue(jar, RefreshCookie)
    ensures !inBrowser ==> s.session.accessToken.None? && s.session.refreshToken.None?
  {
    if inBrowser then
      Store(Session(CookieValue(jar, AccessCookie), CookieValue(jar, RefreshCookie), None, false), jar)
    else
      Store(Session(None, None, None, false), jar)
  }

  /** `setAccessToken`: a falsy token throws before anything is written; a
      truthy one is stored and written as a session cookie. */
  function SetAccessToken(s: Store, token: Option<string>): (c: Completion<()>)
    ensures !Truthy(token) <==> c.Abrupt?
    ensures c.Abrupt? ==> c.store == s && c.error == InvalidAccessToken
    ensures c.Normal? ==> c.store.session == s.session.(accessToken := token)
                          && c.store.jar == s.jar[AccessCookie := Cookie(token.value, None, false, Lax)]
  {
    if !Truthy(token) then Abrupt(s, InvalidAccessToken)
    else
      Normal(Store(s.session.(accessToken := token),
                   s.jar[AccessCookie := Cookie(token.value, None, false, Lax)]), ())
  }

  /** `setRefreshToken`: like `setAccessToken`, but the cookie expires one
      day after `nowMs`. */
  function SetRefreshToken(s: Store, token: Option<string>, nowMs: int): (c: Completion<()>)
    ensures !Truthy(token) <==> c.Abrupt?
    ensures c.Abrupt? ==> c.store == s && c.error == InvalidRefreshToken
    ensures c.Normal? ==> c.store.session == s.session.(refreshToken := token)
                          && c.store.jar == s.jar[RefreshCookie := Cookie(token.value, Some(nowMs + RefreshCookieLifetimeMs), false, Lax)]
  {
    if !Truthy(token) then Abrupt(s, InvalidRefreshToken)
    else
      Normal(Store(s.session.(refreshToken := token),
                   s.jar[RefreshCookie := Cookie(token.value, Some(nowMs + RefreshCookieLifetimeMs), false, Lax)]), ())
  }

  /** `login`: the access token, then the refresh token, then the user id.
      A throw from the second setter leaves the first one's write in place. */
  function Login(s: Store, accessToken: Option<string>, refreshToken: Option<string>,
                 userID: Option<string>, nowMs: int): (c: Completion<()>)
    ensures c.Normal? <==> Truthy(accessToken) && Truthy(refreshToken)
    // a successful login holds exactly its three arguments and mirrors both tokens
    ensures c.Normal? ==> c.store.session == Session(accessToken, refreshToken, userID, s.session.isRefreshing)
    // ... and writes exactly the two token cookies, non-secure and lax, leaving every other cookie alone
    ensures c.Normal? ==> c.store.jar == s.jar[AccessCookie := Cookie(accessToken.value, None, false, Lax)]
                                              [RefreshCookie := Cookie(refreshToken.value, Some(nowMs + RefreshCookieLifetimeMs), false, Lax)]
  {
    match SetAccessToken(s, accessToken)
    case Abrupt(s1, e) => Abrupt(s1, e)
    case Normal(s1, _) =>
      match SetRefreshToken(s1, refreshToken, nowMs)
      case Abrupt(s2, e) => Abrupt(s2, e)
      case Normal(s2, _) => Normal(Store(s2.session.(userID := userID), s2.jar), ())
  }

  /** `logout`: clears the three fields and removes the two token cookies;
      `isRefreshing` and every other cookie are left alone. */
  function Logout(s: Store): (t: Store)
    ensures t.session == Session(None, None, None, s.session.isRefreshing)
    ensures t.jar.Keys == s.jar.Keys - {AccessCookie, RefreshCookie}
    ensures forall k :: k in t.jar ==> t.jar[k] == s.jar[k]
  {
    Store(Session(None, None, None, s.session.isRefreshing), s.jar - {AccessCookie, RefreshCookie})
  }

  /** The response of the POST to `/api/auth/refresh`: `fetch` rejected, or a
      status with a JSON body (`None` when `response.json()` throws or the
      body is not an object; string-valued fields otherwise). */
  datatype FetchResult = NetworkError | HttpResponse(ok: bool, body: Option<map<string, string>>)

  /** The body fields a refresh reads: the two it checks, the two it stores,
      and the one it returns. */
  datatype FieldNames = FieldNames(checkAccess: string, checkRefresh: string,
                                   storeAccess: string, storeRefresh: string, returned: string)

  /** The names `refreshAccessToken` uses as written: it checks snake_case
      fields but stores camelCase ones. */
  const AsWrittenNames: FieldNames := FieldNames("access_token", "refresh_token", "accessToken", "refreshToken", "access_token")

  /** The names the refresh endpoint actually returns, used consistently. */
  const CamelCaseNames: FieldNames := FieldNames("accessToken", "refreshToken", "accessToken", "refreshToken", "accessToken")

  /** The `try` block of the refresh: read the response, validate it and
      store the new pair. */
  function Exchange(s: Store, response: FetchResult, nowMs: int, names: FieldNames): (c: Completion<Option<string>>)
    ensures c.store.session.isRefreshing == s.session.isRefreshing
  {
    match response
    case NetworkError => Abrupt(s, FetchFailed)
    case HttpResponse(ok, body) =>
      if body.None? then Abrupt(s, UnreadableBody)
      else if !ok then
        var message := Get(body.value, "message");
        Abrupt(s, RefreshRejected(if Truthy(message) then message.value else DefaultRefreshMessage))
      else
        var data := body.value;
        if !Truthy(Get(data, names.checkAccess)) || !Truthy(Get(data, names.checkRefresh)) then
          Abrupt(s, MalformedResponse)
        else
          match SetAccessToken(s, Get(data, names.storeAccess))
          case Abrupt(s1, e) => Abrupt(s1, e)
          case Normal(s1, _) =>
            match SetRefreshToken(s1, Get(data, names.storeRefresh), nowMs)
            case Abrupt(s2, e) => Abrupt(s2, e)
            case Normal(s2, _) => Normal(s2, Get(data, names.returned))
  }

  /** The first, synchronous part of `refreshAccessToken`. */
  datatype Begin =
    | NoRefreshToken(store: Store)              // logged out, about to throw
    | AwaitInFlight                             // another refresh is running
    | Started(store: Store, requestToken: string)  // `isRefreshing` raised, request about to be sent

  function BeginRefresh(s: Store): (b: Begin)
    ensures b.NoRefreshToken? <==> !Truthy(s.session.refreshToken)
    ensures b.NoRefreshToken? ==> b.store == Logout(s)
    ensures b.AwaitInFlight? <==> Truthy(s.session.refreshToken) && s.session.isRefreshing
    ensures b.Started? ==> b.store == Store(s.session.(isRefreshing := true), s.jar)
                           && Some(b.requestToken) == s.session.refreshToken
  {
    if !Truthy(s.session.refreshToken) then NoRefreshToken(Logout(s))
    else if s.session.isRefreshing then AwaitInFlight
    else Started(Store(s.session.(isRefreshing := true), s.jar), s.session.refreshToken.value)
  }

  /** The rest of a refresh this call started: the exchange, a logout on any
      failure, and the `finally` that lowers `isRefreshing`. */
  function FinishRefresh(s: Store, response: FetchResult, nowMs: int, names: FieldNames): (c: Completion<Option<string>>)
    ensures !c.store.session.isRefreshing
    ensures c.Abrupt? ==> c.store.session.accessToken.None? && c.store.session.refreshToken.None?
                          && c.store.session.userID.None?
                          && AccessCookie !in c.store.jar && RefreshCookie !in c.store.jar
  {
    match Exchange(s, response, nowMs, names)
    case Normal(s1, v) => Normal(Store(s1.session.(isRefreshing := false), s1.jar), v)
    case Abrupt(s1, e) =>
      var s2 := Logout(s1);
      Abrupt(Store(s2.session.(isRefreshing := false), s2.jar), e)
  }

  /** One call of `refreshAccessToken`: it settles (returns or throws), with
      the token it posted if it made the network call, or it waits on the
      refresh already in flight. */
  datatype RefreshCall =
    | Settled(completion: Completion<Option<string>>, sentToken: Option<string>)
    | Waiting(store: Store)

  function RefreshWith(s: Store, response: FetchResult, nowMs: int, names: FieldNames): (call: RefreshCall)
    ensures call.Waiting? <==> Truthy(s.session.refreshToken) && s.session.isRefreshing
    ensures call.Waiting? ==> call.store == s
    // no refresh token: log out and throw without a request
    ensures call.Settled? && call.sentToken.None? ==> call.completion == Abrupt(Logout(s), MissingRefreshToken)
    ensures call.Settled? ==> (call.sentToken.None? <==> !Truthy(s.session.refreshToken))
    // a request carries the in-memory refresh token, and the flag is down afterwards
    ensures call.Settled? && call.sentToken.Some? ==>
              call.sentToken == s.session.refreshToken && !call.completion.store.session.isRefreshing
    // every throw ends logged out
    ensures call.Settled? && call.completion.Abrupt? ==>
              call.completion.store.session.accessToken.None? && call.completion.store.session.refreshToken.None?
              && call.completion.store.session.userID.None?
  {
    match BeginRefresh(s)
    case NoRefreshToken(s1) => Settled(Abrupt(s1, MissingRefreshToken), None)
    case AwaitInFlight => Waiting(s)
    case Started(s1, token) => Settled(FinishRefresh(s1, response, nowMs, names), Some(token))
  }

  /** `refreshAccessToken` as written. */
  function RefreshAccessToken(s: Store, response: FetchResult, nowMs: int): (call: RefreshCall)
    // success needs both spellings of both tokens in a 2xx body
    ensures call.Settled? && call.completion.Normal? ==>
              response.HttpResponse? && response.ok && response.body.Some?
              && Truthy(Get(response.body.value, "access_token")) && Truthy(Get(response.body.value, "refresh_token"))
              && Truthy(Get(response.body.value, "accessToken")) && Truthy(Get(response.body.value, "refreshToken"))
              && call.completion.store.session.accessToken == Get(response.body.value, "accessToken")
              && call.completion.store.session.refreshToken == Get(response.body.value, "refreshToken")
              && call.completion.value == Get(response.body.value, "access_token")
  {
    RefreshWith(s, response, nowMs, AsWrittenNames)
  }

  /** `refreshAccessToken` with the field names of the refresh endpoint. */
  function RefreshAccessTokenChecked(s: Store, response: FetchResult, nowMs: int): RefreshCall
  {
    RefreshWith(s, response, nowMs, CamelCaseNames)
  }

  /** The polling waiter: still waiting while `isRefreshing` holds, then
      resolved with the store's access token at that moment. */
  function ResolveWaiter(s: Store): (r: Option<Option<string>>)
    ensures r.None? <==> s.session.isRefreshing
    ensures r.Some? ==> r.value == s.session.accessToken
  {
    if s.session.isRefreshing then None else Some(s.session.accessToken)
  }

  /** `login` with both tokens validated before anything is written. */
  function LoginChecked(s: Store, accessToken: Option<string>, refreshToken: Option<string>,
                        userID: Option<string>, nowMs: int): (c: Completion<()>)
    ensures c.Normal? <==> Truthy(accessToken) && Truthy(refreshToken)
    // a rejected login leaves the store exactly as it was
    ensures c.Abrupt? ==> c.store == s
    ensures c.Normal? ==> c.store.session == Session(accessToken, refreshToken, userID, s.session.isRefreshing)
                          && CookieValue(c.store.jar, AccessCookie) == accessToken
                          && CookieValue(c.store.jar, RefreshCookie) == refreshToken
  {
    if !Truthy(accessToken) then Abrupt(s, InvalidAccessToken)
    else if !Truthy(refreshToken) then Abrupt(s, InvalidRefreshToken)
    else Login(s, accessToken, refreshToken, userID, nowMs)
  }

  /** A login with a falsy access token throws before anything changes. */
  lemma LoginRejectsAccessTokenFirst(s: Store, accessToken: Option<string>, refreshToken: Option<string>,
                                     userID: Option<string>, nowMs: int)
    requires !Truthy(accessToken)
    ensures Login(s, accessToken, refreshToken, userID, nowMs) == Abrupt(s, InvalidAccessToken)
  {
  }

  /** A login with a good access token but a falsy refresh token throws after
      the access token is already in memory and in its cookie. */
  lemma LoginPartialWrite(s: Store, accessToken: Option<string>, refreshToken: Option<string>,
                          userID: Option<string>, nowMs: int)
    requires Truthy(accessToken) && !Truthy(refreshToken)
    ensures var c := Login(s, accessToken, refreshToken, userID, nowMs);
            c.Abrupt? && c.error == InvalidRefreshToken
            && c.store.session == s.session.(accessToken := accessToken)
            && CookieValue(c.store.jar, AccessCookie) == accessToken
  {
  }

  /** Concretely: an anonymous store given `login("a", "", "u")` throws and is
      no longer anonymous. */
  lemma LoginPartialWriteExample(nowMs: int)
    ensures var c := Login(Init(false, map[]), Some("a"), Some(""), Some("u"), nowMs);
            c.Abrupt? && c.store.session.accessToken == Some("a") && c.store.session.refreshToken.None?
  {
  }

  /** Logging out twice is the same as once. */
  lemma LogoutIdempotent(s: Store)
    ensures Logout(Logout(s)) == Logout(s)
  {
  }

  /** Without a refresh token the call logs out and throws, and no request is sent. */
  lemma RefreshWithoutTokenLogsOut(s: Store, response: FetchResult, nowMs: int)
    requires !Truthy(s.session.refreshToken)
    ensures RefreshAccessToken(s, response, nowMs) == Settled(Abrupt(Logout(s), MissingRefreshToken), None)
  {
  }

  /** While a refresh is in flight a call sends nothing and changes nothing:
      it waits. */
  lemma InFlightCallWaits(s: Store, response: FetchResult, nowMs: int)
    requires Truthy(s.session.refreshToken) && s.session.isRefreshing
    ensures RefreshAccessToken(s, response, nowMs) == Waiting(s)
  {
  }

  /** A refresh that this call started always ends with `isRefreshing` false,
      whether it returned or threw, and a throw leaves the store logged out. */
  lemma StartedRefreshLowersFlag(s: Store, response: FetchResult, nowMs: int)
    requires RefreshAccessToken(s, response, nowMs).Settled?
    ensures var call := RefreshAccessToken(s, response, nowMs);
            call.sentToken.Some? ==> !call.completion.store.session.isRefreshing
    ensures var call := RefreshAccessToken(s, response, nowMs);
            call.completion.Abrupt? ==> call.completion.store.session == Session(None, None, None, call.completion.store.session.isRefreshing)
  {
  }

  /** Two overlapping calls: the first starts the one exchange, the second
      sees the raised flag and waits; once the first settles the flag is
      down and the waiter resolves with the store's access token. */
  lemma OverlappingCallsShareOneExchange(s: Store, first: FetchResult, second: FetchResult, nowMs: int)
    requires Truthy(s.session.refreshToken) && !s.session.isRefreshing
    ensures BeginRefresh(s).Started?
    ensures var s1 := BeginRefresh(s).store;
            RefreshAccessToken(s1, second, nowMs) == Waiting(s1)
    ensures var s1 := BeginRefresh(s).store;
            var c := FinishRefresh(s1, first, nowMs, AsWrittenNames);
            ResolveWaiter(c.store) == Some(c.store.session.accessToken)
  {
  }

  /** What a successful refresh as written takes: a 2xx body with truthy
      `access_token` and `refresh_token` AND truthy `accessToken` and
      `refreshToken`; the camelCase pair is stored, the snake_case access
      token is returned. */
  lemma AsWrittenSuccessNeedsBothSpellings(s: Store, response: FetchResult, nowMs: int)
    requires Truthy(s.session.refreshToken) && !s.session.isRefreshing
    ensures var call := RefreshAccessToken(s, response, nowMs);
            call.Settled? && call.sentToken == s.session.refreshToken
    ensures var c := RefreshAccessToken(s, response, nowMs).completion;
            c.Normal? <==>
              response.HttpResponse? && response.ok && response.body.Some?
              && Truthy(Get(response.body.value, "access_token")) && Truthy(Get(response.body.value, "refresh_token"))
              && Truthy(Get(response.body.value, "accessToken")) && Truthy(Get(response.body.value, "refreshToken"))
    ensures var c := RefreshAccessToken(s, response, nowMs).completion;
            c.Normal? ==>
              var data := response.body.value;
              && c.store.session == s.session.(accessToken := Get(data, "accessToken"), refreshToken := Get(data, "refreshToken"))
              && c.value == Get(data, "access_token")
  {
  }

  /** The refresh endpoint answers `{accessToken, refreshToken, userID}`; the
      refresh as written rejects exactly that body and logs the user out. */
  lemma AsWrittenRejectsEndpointShape(s: Store, nowMs: int)
    requires Truthy(s.session.refreshToken) && !s.session.isRefreshing
    ensures var body := map["accessToken" := "A", "refreshToken" := "R", "userID" := "U"];
            var call := RefreshAccessToken(s, HttpResponse(true, Some(body)), nowMs);
            call.Settled? && call.completion == Abrupt(Logout(s), MalformedResponse)
  {
  }

  /** Even when a body carries both spellings, the caller that ran the
      exchange and a caller that waited on it can resolve to different tokens. */
  lemma AsWrittenWaiterDisagrees(s: Store, nowMs: int)
    requires Truthy(s.session.refreshToken) && !s.session.isRefreshing
    ensures var body := map["access_token" := "X", "refresh_token" := "R", "accessToken" := "Y", "refreshToken" := "R"];
            var c := FinishRefresh(BeginRefresh(s).store, HttpResponse(true, Some(body)), nowMs, AsWrittenNames);
            c == Normal(c.store, Some("X")) && ResolveWaiter(c.store) == Some(Some("Y"))
  {
  }

  /** With consistent field names a refresh succeeds exactly on a 2xx body
      carrying both tokens; it stores them, returns the stored access token,
      and a waiter resolves to that same token. */
  lemma CheckedRefreshSucceedsIff(s: Store, response: FetchResult, nowMs: int)
    requires Truthy(s.session.refreshToken) && !s.session.isRefreshing
    ensures var c := RefreshAccessTokenChecked(s, response, nowMs).completion;
            c.Normal? <==>
              response.HttpResponse? && response.ok && response.body.Some?
              && Truthy(Get(response.body.value, "accessToken")) && Truthy(Get(response.body.value, "refreshToken"))
    ensures var c := RefreshAccessTokenChecked(s, response, nowMs).completion;
            c.Normal? ==>
              && c.store.session.accessToken == Get(response.body.value, "accessToken")
              && c.store.session.refreshToken == Get(response.body.value, "refreshToken")
              && ResolveWaiter(c.store) == Some(c.value)
  {
  }

  /** The endpoint's own answer now renews the session. */
  lemma CheckedAcceptsEndpointShape(s: Store, nowMs: int)
    requires Truthy(s.session.refreshToken) && !s.session.isRefreshing
    ensures var body := map["accessToken" := "A", "refreshToken" := "R", "userID" := "U"];
            var c := RefreshAccessTokenChecked(s, HttpResponse(true, Some(body)), nowMs).completion;
            c.Normal? && c.value == Some("A") && c.store.session.refreshToken == Some("R")
  {
  }

  /** A logout that lands while a refresh is in flight does not stick: an
      exchange that succeeds (here, a body with both spellings) writes the
      new tokens back afterwards. */
  lemma LogoutDuringRefreshIsOverwritten(s: Store, nowMs: int)
    requires Truthy(s.session.refreshToken) && !s.session.isRefreshing
    ensures var body := map["access_token" := "A", "refresh_token" := "R", "accessToken" := "A", "refreshToken" := "R"];
            var c := FinishRefresh(Logout(BeginRefresh(s).store), HttpResponse(true, Some(body)), nowMs, AsWrittenNames);
            c.Normal? && c.store.session.accessToken == Some("A") && c.store.session.refreshToken == Some("R")
  {
  }

  /** The in-memory tokens agree with their cookies. */
  predicate Mirrors(s: Store)
  {
    s.session.accessToken == CookieValue(s.jar, AccessCookie)
    && s.session.refreshToken == CookieValue(s.jar, RefreshCookie)
  }

  /** The constructor in a browser starts out mirroring the cookies. */
  lemma InitMirrors(jar: map<string, Cookie>)
    ensures Mirrors(Init(true, jar))
  {
  }

  /** `login` keeps memory and cookies in step, even when it throws halfway. */
  lemma LoginPreservesMirrors(s: Store, accessToken: Option<string>, refreshToken: Option<string>,
                              userID: Option<string>, nowMs: int)
    requires Mirrors(s)
    ensures Mirrors(Login(s, accessToken, refreshToken, userID, nowMs).store)
  {
  }

  /** `logout` keeps memory and cookies in step. */
  lemma LogoutPreservesMirrors(s: Store)
    requires Mirrors(s)
    ensures Mirrors(Logout(s))
  {
  }

  /** Every settled or waiting refresh leaves memory and cookies in step. */
  lemma RefreshPreservesMirrors(s: Store, response: FetchResult, nowMs: int)
    requires Mirrors(s)
    ensures var call := RefreshAccessToken(s, response, nowMs);
            Mirrors(if call.Settled? then call.completion.store else call.store)
  {
  }

  /** A full page reload after a login finds both tokens again through the
      cookies, but not the user id, which login never writes to a cookie. */
  lemma ReloadAfterLogin(s: Store, accessToken: string, refreshToken: string, userID: string, nowMs: int)
    requires accessToken != "" && refreshToken != ""
    ensures var c := Login(s, Some(accessToken), Some(refreshToken), Some(userID), nowMs);
            c.Normal? && Init(true, c.store.jar).session == Session(Some(accessToken), Some(refreshToken), None, false)
  {
  }
}
