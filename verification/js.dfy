/** JavaScript values the model needs: optional values standing for
    `undefined`/`null`, string truthiness, map lookups that may miss, and
    the token cookie names and the cookie `SameSite` attribute. */
module Js {

  /** A value that may be `undefined` (or `null`, where the two behave alike). */
  datatype Option<+T> = None | Some(value: T)

  /** JavaScript truthiness of a value typed `string | undefined`:
      `undefined` and the empty string are falsy, every other string is truthy. */
  predicate Truthy(s: Option<string>)
  {
    s.Some? && s.value != ""
  }

  /** Property or cookie lookup: `undefined` when the key is absent. */
  function Get<K, V>(m: map<K, V>, k: K): (r: Option<V>)
    ensures r.Some? <==> k in m
    ensures r.Some? ==> r.value == m[k]
  {
    if k in m then Some(m[k]) else None
  }

  /** The names of the two token cookies, shared by the edge gate and the store. */
  const AccessCookie: string := "accessToken"
  const RefreshCookie: string := "refreshToken"

  /** The `SameSite` cookie attribute. */
  datatype SameSite = Lax | Strict | NoRestriction
}
