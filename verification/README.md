# Eventify-Admin session and editing core, in Dafny

A model of four pieces of sequential logic from the Eventify-Admin web
application, written as pure functions over immutable records:

- **Token codec** (`tokens.dfy`, module `Tokens`): the edge middleware's
  expiry heuristic `isAccessTokenExpired`: take segment 1 of the token split
  on `.`, read its `exp` claim and compare `exp * 1000` with `Date.now()`.
  It fails closed on a token it cannot split, decode or parse, and on a
  missing or falsy `exp`. A truthy `exp` that is not a number fails open:
  such a token never expires.
- **Edge gate** (`edge_gate.dfy`, module `EdgeGate`): the `middleware`
  decision run before navigation. It has four outcomes: pass through,
  redirect to `/auth`, redirect to `/auth` deleting the token cookies, or
  pass through setting renewed cookies. The response also records whether
  the refresh exchange was called and with which token.
- **Session store** (`auth_store.dfy`, module `AuthStore`): `AuthStore` with
  its cookie jar. It covers the constructor, the two token setters, `login`,
  `logout`, and the `refreshAccessToken` state machine. A throwing call is a
  `Completion.Abrupt` that carries the store as the throw left it, so writes
  made before a throw stay visible. `refreshAccessToken` is split into
  `BeginRefresh` (the guards and raising `isRefreshing`) and `FinishRefresh`
  (the exchange, the logout on failure, and the `finally`). The split lets
  overlapping calls be stated.
- **Event edit diff** (`event_store.dfy`, module `EventStore`): `setEvent`,
  `updateField` and the `changedFields` getter.
- **Multi-select list logic** (`multi_select.dfy`, module `MultiSelect`):
  `filteredOptions`, `toggleSelection` and `removeSelected`.

`js.dfy` (module `Js`) holds the JavaScript notions these share:
`undefined` as `Option`, string truthiness, and lookups that may miss.

Several things are parameters rather than being modelled:

- the clock (`nowMs`);
- the base64/JSON decoding of a token payload (`readExp`);
- the gate's refresh round trip (`exchange`, from refresh token to result);
- the store's `fetch` response (`FetchResult`).

Points where the model follows the code rather than a tidier reading of it:

- the expiry heuristic reads segment 1 whenever the token has a dot, and
  does not demand exactly three segments;
- `logout` neither resets `isRefreshing` nor deletes a `userID` cookie;
- the constructor seeds only the two tokens, not the user id;
- the gate deletes only the `accessToken` and `refreshToken` cookies;
- `login` does not validate the user id;
- `login` writes no `userID` cookie, so the user id does not survive a page reload.

## Model

| member | source | states |
|---|---|---|
| Tokens.Split | middleware.ts:11 | `split('.')` returns at least one piece; no piece contains the separator; joining the pieces back gives the token |
| Tokens.SplitJoin | middleware.ts:11 | splitting a join of dot-free pieces gives back those pieces |
| Tokens.SplitHasSecondPiece | middleware.ts:11 | segment 1 exists exactly when the token contains a dot |
| Tokens.PayloadSegment | middleware.ts:11 | a payload segment exists iff the token contains a dot, and it is exactly the text between the first dot and the next dot (or the end of the token) |
| Tokens.IsAccessTokenExpired | middleware.ts:9-23 | a token without a dot is expired: `Buffer.from(undefined)` throws and the catch answers true |
| Tokens.UndecodableIsExpired | middleware.ts:10-22 | a payload whose decoding or parsing throws counts as expired, without an exception escaping |
| Tokens.MissingExpIsExpired | middleware.ts:15-16 | an absent or falsy `exp`, 0 included, counts as expired at any time |
| Tokens.ExpiryThreshold | middleware.ts:18 | for a non-zero numeric `exp`, expired iff `now >= exp * 1000`, so the instant `exp` itself is expired |
| Tokens.ThreeSegmentToken | middleware.ts:9-18 | for `header.payload.signature` with `exp = n > 0` in the payload, expired iff `now >= n * 1000` |
| Tokens.ExpiryIsMonotone | middleware.ts:9-23 | a token expired at some time is expired at every later time |
| Tokens.ReadClaim | middleware.ts:11-15 | a token without a dot yields no claim |
| Tokens.IsAccessTokenExpiredFailClosed | middleware.ts:15-18 | with a non-numeric `exp` treated as expired, a token is fresh only on a non-zero numeric `exp` still ahead of the clock |
| Tokens.FailClosedAgreesElsewhere | middleware.ts:9-23 | the fail-closed heuristic and the one as written agree on every claim except a non-numeric `exp` |
| Tokens.NaNExpNeverExpires | middleware.ts:18 | a truthy non-numeric `exp` never expires, since comparison with NaN is false |
| EdgeGate.Gate | middleware.ts:44-85 | invariants of every response: only the request's refresh token is ever posted; redirects go to `/auth`; cookies change only after an exchange; a pass-through only sets cookies (SameSite lax) and a redirect only deletes them; `userID` is never deleted; only the three session cookies are touched |
| EdgeGate.RefreshAccessToken | middleware.ts:25-41 | a thrown exchange becomes null instead of propagating; a returned body is passed on untouched |
| EdgeGate.Middleware | middleware.ts:44-85 | the exchange is called exactly when the access token is absent or expired and a refresh token is present, with that token; after it, pass and set the three cookies iff an access token came back, else redirect deleting the two token cookies; without it, no cookie changes and pass iff the access token is fresh |
| EdgeGate.FreshTokenPassesThrough | middleware.ts:48-50 | a present, unexpired access token passes through with no exchange and no cookie change |
| EdgeGate.NoRefreshTokenRedirects | middleware.ts:52-54 | an absent or expired access token without a refresh token redirects to `/auth` with no exchange and no cookie change |
| EdgeGate.NoCookiesRedirects | middleware.ts:45-54 | a request without cookies is redirected and nothing is exchanged |
| EdgeGate.FailedExchangeDenies | middleware.ts:25-63 | an exchange that threw, returned null or returned no access token redirects; it deletes exactly `accessToken` and `refreshToken` and leaves `userID` alone |
| EdgeGate.RenewedTokensAreSet | middleware.ts:65-84 | an exchange returning an access token passes through and sets `accessToken`, `refreshToken` and `userID` to the returned values with SameSite lax |
| EdgeGate.PassesIff | middleware.ts:44-85 | navigation proceeds iff the access token is fresh, or a refresh token is present and its exchange returned an access token |
| EdgeGate.DeniedStaysDenied | middleware.ts:52-63 | after a denial, the browser without the deleted cookies is redirected again, with no exchange |
| EdgeGate.RenewedThenFresh | middleware.ts:48-70 | a renewal sets a non-empty access token; carrying it while it is fresh, the next navigation passes with no exchange |
| EdgeGate.AsWrittenAcceptsPartialTriple | middleware.ts:57-76 | an exchange returning only an access token passes through, and the refresh cookie is set from an undefined value |
| EdgeGate.MiddlewareChecked | middleware.ts:57-82 | the gate that demands all three credentials never sets a cookie to a missing or empty value |
| EdgeGate.CheckedRejectsPartialTriple | middleware.ts:56-63 | with the full check, an exchange missing any of the three credentials is redirected to `/auth` |
| EdgeGate.CheckedAgreesOnCompleteTriples | middleware.ts:56-84 | the checked gate and the gate as written agree when every exchange returns all three credentials or no access token |
| AuthStore.CookieValue | stores/AuthStore.ts:16-17 | the `Cookies.get(name)`-or-null read: a value iff the cookie exists and is non-empty |
| AuthStore.Init | stores/AuthStore.ts:12-19 | in a browser both tokens come from their cookies, empty ones as null; the user id stays null and `isRefreshing` false |
| AuthStore.SetAccessToken | stores/AuthStore.ts:21-30 | throws iff the token is falsy, leaving memory and cookies unchanged; otherwise stores it and writes a non-secure lax session cookie |
| AuthStore.SetRefreshToken | stores/AuthStore.ts:32-42 | throws iff the token is falsy, leaving memory and cookies unchanged; otherwise stores it with a lax cookie expiring 24 h after now |
| AuthStore.Login | stores/AuthStore.ts:44-48 | login succeeds iff both tokens are truthy; it then holds exactly the three arguments, writes exactly the two token cookies (non-secure, SameSite lax, the refresh cookie expiring one day on) and leaves every other cookie alone |
| AuthStore.LoginRejectsAccessTokenFirst | stores/AuthStore.ts:44-45 | a falsy access token throws with the store untouched |
| AuthStore.LoginPartialWrite | stores/AuthStore.ts:44-47 | a good access token with a falsy refresh token throws after the access token is in memory and in its cookie |
| AuthStore.LoginPartialWriteExample | stores/AuthStore.ts:44-47 | `login("a", "", "u")` on an anonymous store throws and leaves the access token set |
| AuthStore.LoginChecked | stores/AuthStore.ts:44-48 | login validating both tokens first: a rejected call changes nothing; a successful one stores the three arguments |
| AuthStore.Logout | stores/AuthStore.ts:50-57 | clears all three fields and removes exactly the two token cookies; `isRefreshing` and other cookies are unchanged |
| AuthStore.LogoutIdempotent | stores/AuthStore.ts:50-57 | logging out twice equals logging out once |
| AuthStore.Exchange | stores/AuthStore.ts:78-99 | the try block never changes `isRefreshing` |
| AuthStore.BeginRefresh | stores/AuthStore.ts:59-76 | without a refresh token it logs out; if one is in flight it waits; otherwise it raises `isRefreshing` and posts the current refresh token |
| AuthStore.FinishRefresh | stores/AuthStore.ts:78-106 | on every exit `isRefreshing` is false; a throw leaves all three fields null and both token cookies removed |
| AuthStore.ResolveWaiter | stores/AuthStore.ts:65-74 | the poller resolves only once `isRefreshing` is false, with the access token at that moment |
| AuthStore.RefreshWith | stores/AuthStore.ts:59-107 | waits iff a refresh token is present and one is in flight; without a refresh token logs out and throws with no request; a request carries the in-memory refresh token and leaves the flag down; every throw ends logged out |
| AuthStore.RefreshAccessToken | stores/AuthStore.ts:85-99 | success needs a 2xx body with truthy `access_token`, `refresh_token`, `accessToken` and `refreshToken`; the camelCase pair is stored and `access_token` returned |
| AuthStore.RefreshWithoutTokenLogsOut | stores/AuthStore.ts:60-63 | with no refresh token the call logs out and throws, sending no request |
| AuthStore.InFlightCallWaits | stores/AuthStore.ts:65-74 | while a refresh is in flight a call sends nothing, changes nothing and waits |
| AuthStore.StartedRefreshLowersFlag | stores/AuthStore.ts:76-106 | a call that sent a request ends with `isRefreshing` false; every throw ends logged out |
| AuthStore.OverlappingCallsShareOneExchange | stores/AuthStore.ts:65-106 | of two overlapping calls only the first sends a request; the second resolves with the store's access token once the first settles |
| AuthStore.AsWrittenSuccessNeedsBothSpellings | stores/AuthStore.ts:85-99 | success iff a 2xx body has truthy `access_token`, `refresh_token`, `accessToken` and `refreshToken`; the camelCase pair is stored and `access_token` returned |
| AuthStore.AsWrittenRejectsEndpointShape | stores/AuthStore.ts:92-94 | the body `{accessToken, refreshToken, userID}` is rejected as malformed and the user is logged out |
| AuthStore.AsWrittenWaiterDisagrees | stores/AuthStore.ts:65-99 | the caller that ran the exchange can resolve to `access_token` while a waiter resolves to `accessToken` |
| AuthStore.CheckedRefreshSucceedsIff | stores/AuthStore.ts:85-106 | with consistent names, success iff a 2xx body has both tokens; it stores them, returns the stored access token, and a waiter gets the same |
| AuthStore.CheckedAcceptsEndpointShape | stores/AuthStore.ts:92-99 | with consistent names the endpoint's `{accessToken, refreshToken, userID}` renews the session |
| AuthStore.LogoutDuringRefreshIsOverwritten | stores/AuthStore.ts:50-106 | a logout landing while an exchange is in flight is undone when the exchange (as written, with a body carrying both spellings) succeeds |
| AuthStore.InitMirrors | stores/AuthStore.ts:12-19 | in a browser the constructor starts with memory and token cookies in step |
| AuthStore.LoginPreservesMirrors | stores/AuthStore.ts:21-48 | login keeps memory and token cookies in step, even when it throws after the first write |
| AuthStore.LogoutPreservesMirrors | stores/AuthStore.ts:50-57 | logout keeps memory and token cookies in step |
| AuthStore.RefreshPreservesMirrors | stores/AuthStore.ts:59-107 | every refresh call, settled or waiting, keeps memory and token cookies in step |
| AuthStore.ReloadAfterLogin | stores/AuthStore.ts:12-48 | after a login, a reload finds both tokens again from the cookies but not the user id |
| EventStore.SetEvent | stores/EventStore.ts:25-29 | the event becomes both the original and the working copy |
| EventStore.UpdateField | stores/EventStore.ts:32-34 | only the named field of the working copy changes, to the given value; the original is unchanged |
| EventStore.Seconds | stores/EventStore.ts:47-48 | `Math.floor((ms ?? 0) / 1000)`: the whole second containing the time, absent counting as 0 |
| EventStore.DiffEntry | stores/EventStore.ts:41-43 | an entry is reported iff the values differ, and it carries the edited value |
| EventStore.ChangedFields | stores/EventStore.ts:39 | with no original event the diff is empty |
| EventStore.SetEventHasNoChanges | stores/EventStore.ts:25-70 | right after `setEvent` the diff is empty |
| EventStore.TextFieldDiff | stores/EventStore.ts:41-64 | title, description, location and cover appear iff the edited value differs, and they carry it |
| EventStore.TimeFieldDiff | stores/EventStore.ts:47-57 | start and end appear iff their whole seconds differ, and they carry the edited seconds |
| EventStore.SubSecondEditNotReported | stores/EventStore.ts:47-51 | moving the start within its second is not reported |
| EventStore.AbsentStartCountsAsZero | stores/EventStore.ts:47-51 | setting a missing start to 999 ms is not reported |
| EventStore.CategoriesDiff | stores/EventStore.ts:65-67 | categories appear iff the edited list differs as a whole sequence, and they carry it |
| EventStore.ApplyDiffReproducesEdit | stores/EventStore.ts:37-70 | applying the diff to the original reproduces the working copy: times to the second, other fields exactly |
| EventStore.NoChangesIff | stores/EventStore.ts:37-70 | the diff is empty iff the working copy matches the original, times compared to the second |
| MultiSelect.Filter | components/custom/MultiSelect.tsx:41-43 | `filter` keeps, in order, exactly the passing elements, each as often as it occurs |
| MultiSelect.RemoveSelected | components/custom/MultiSelect.tsx:53-55 | leaves no occurrence of the value; other values keep their counts and order |
| MultiSelect.RemoveAbsentIsNoOp | components/custom/MultiSelect.tsx:53-55 | removing an unselected value changes nothing |
| MultiSelect.RemoveIdempotent | components/custom/MultiSelect.tsx:53-55 | removing twice equals removing once |
| MultiSelect.ToggleSelection | components/custom/MultiSelect.tsx:45-51 | an unselected value is appended at the end; a selected one loses every occurrence, others keep their counts and order |
| MultiSelect.ToggleTwiceRestoresAbsent | components/custom/MultiSelect.tsx:45-51 | toggling an unselected value twice restores the selection |
| MultiSelect.ToggleTwiceMovesPresentToEnd | components/custom/MultiSelect.tsx:45-51 | toggling a value selected once, twice, moves it to the end and keeps the same values |
| MultiSelect.ToggleTwiceReorders | components/custom/MultiSelect.tsx:45-51 | toggling `"a"` twice on `["a", "b"]` gives `["b", "a"]` |
| MultiSelect.Lower | components/custom/MultiSelect.tsx:42 | `toLowerCase`, restricted to ASCII, maps each character separately |
| MultiSelect.Includes | components/custom/MultiSelect.tsx:42 | `includes` is true iff the needle occurs at some position of the string |
| MultiSelect.FilteredOptions | components/custom/MultiSelect.tsx:41-43 | an order-preserving subsequence of the options; it holds exactly those whose lowercased label contains the lowercased input, each as often as it occurs |
| MultiSelect.EmptySearchKeepsAll | components/custom/MultiSelect.tsx:41-43 | an empty search keeps every option |
| MultiSelect.SearchIgnoresCase | components/custom/MultiSelect.tsx:41-43 | the search `"PARTY"` finds the label `"Party"` |

## Findings

| source | as written | input that shows it | evidently intended | confidence | as-written member | corrected member |
|---|---|---|---|---|---|---|
| stores/AuthStore.ts:92-99 | validates `access_token`/`refresh_token` but stores `accessToken`/`refreshToken` and returns `access_token` | a 2xx body `{accessToken: "A", refreshToken: "R", userID: "U"}`, the shape the refresh endpoint and the middleware use | validate, store and return the same camelCase fields | high, not executed | AuthStore.AsWrittenRejectsEndpointShape | AuthStore.CheckedRefreshSucceedsIff |
| stores/AuthStore.ts:44-47 | `login` writes the access token, then throws on an empty refresh token | `login("a", "", "u")` on an anonymous store | reject an invalid pair before any write | medium, not executed | AuthStore.LoginPartialWrite | AuthStore.LoginChecked |
| middleware.ts:15-18 | a truthy `exp` that is not a number passes `!exp`, and `Date.now() >= exp * 1000` compares with NaN, which is false | a token whose payload is `{"exp": "abc"}` | a corrupt claim counts as expired, like every other unreadable token | medium, not executed | Tokens.NaNExpNeverExpires | Tokens.IsAccessTokenExpiredFailClosed |
| middleware.ts:57-82 | a refresh counts as successful when only `accessToken` is truthy, and the other cookies are set from whatever came back | an exchange returning `{accessToken: "A"}` | treat a missing refresh token or user id as a failed exchange | medium, not executed | EdgeGate.AsWrittenAcceptsPartialTriple | EdgeGate.MiddlewareChecked |

A further consequence of the first finding: even a body carrying both
spellings lets the caller that ran the exchange and a caller waiting on it
see different tokens (`AuthStore.AsWrittenWaiterDisagrees`).

`MultiSelect.ToggleTwiceReorders` shows that toggling a value twice is not
the identity on a selection: a selected value that was not last moves to the
end. It restores the list only for a value not already selected.

## Left out

- Tokens.IsAccessTokenExpired: base64 decoding, UTF-8 conversion, `JSON.parse` and the `exp` read are one uninterpreted parameter. `exp` is a whole number of seconds, so fractional `exp` values are not modelled. The error logging in the catch is not modelled.
- EdgeGate.Gate: `NextResponse` and its cookie serialisation are foreign. A cookie set from `undefined` is recorded as `SetCookie(None, …)`; what the header then carries is not modelled. The redirect target is the path `/auth`, not the full URL built from the request. The route matcher (`/` only) is not modelled.
- EdgeGate.RefreshAccessToken: the axios POST and its URL are the `exchange` parameter, along with the choice of status codes that throw. Error logging is not modelled. A body that is `null` or not an object is represented as `None`.
- EdgeGate.RefreshAccessToken: `RefreshData` types the body fields as strings; non-string values are not modelled.
- EdgeGate.RefreshAccessToken: the POST body's field name is not modelled, only the token posted. The middleware sends `{ refresh }` (middleware.ts:28) while the refresh route reads `{ token }` (app/api/auth/refresh/route.ts:2).
- AuthStore.FinishRefresh: `fetch` is the `response` parameter, and body fields are strings. A `null` body and a body whose `response.json()` throws are both `UnreadableBody`. The `console.error` call is not modelled.
- AuthStore.FinishRefresh: a JSON primitive body (`"x"`, `5`) is also `UnreadableBody`, so the error rethrown differs from the code's. A 2xx primitive body throws the malformed-format error at stores/AuthStore.ts:92-93, and a non-2xx one the default message at :87. The store ends logged out either way, so only the error value is not modelled.
- AuthStore.ResolveWaiter: the 100 ms `setInterval` polling is timer concurrency. The model keeps only "no second exchange while `isRefreshing`" and the value the poller resolves with once the flag is down.
- AuthStore: the `refreshTimer` and `refreshError` fields are never written by the modelled code. MobX observability is not modelled. Browser enforcement of cookie expiry is not modelled.
- EventStore.UpdateField: `value: any` is typed by its field. Writing a value of another type into a field is not modelled, nor is `null` as distinct from `undefined`. Times are whole milliseconds.
- EventStore.ChangedFields: `JSON.stringify` equality on string arrays is modelled as sequence equality, which is what it amounts to there.
- MultiSelect.Lower: `toLowerCase` is limited to ASCII letters. Unicode case mapping is not modelled.
- MultiSelect: the JSX, the popover state and the `options.find` label lookup for badges are rendering.
- The request interceptor that retries a call after a 401 does not appear in these source files. It is not part of this model.
- Network proxies under `app/api`, the hooks, the time and date helpers, and the providers are not modelled. They are outside the core.
