/** The token-expiry heuristic of the edge middleware: read the `exp` claim
    from the middle segment of a `header.payload.signature` token and compare
    it with the clock. A token that cannot be split, decoded or parsed, or
    that has no truthy `exp`, counts as expired; a truthy `exp` that is not a
    number is the one unreadable claim that never expires. */
module Tokens {
  import opened Js

  /** The separator between token segments. */
  const Dot: char := '.'

  /** Concatenates pieces with a separator between neighbours; the inverse of `Split`. */
  function Join(parts: seq<string>, sep: char): string
    requires |parts| >= 1
    decreases |parts|
  {
    if |parts| == 1 then parts[0] else parts[0] + [sep] + Join(parts[1..], sep)
  }

  /** `String.prototype.split` with a one-character separator: always at least
      one piece, no piece contains the separator, and joining the pieces back
      gives the original string. */
  function Split(s: string, sep: char): (parts: seq<string>)
    ensures |parts| >= 1
    ensures forall i :: 0 <= i < |parts| ==> sep !in parts[i]
    ensures Join(parts, sep) == s
    decreases |s|
  {
    if |s| == 0 then [""]
    else
      var rest := Split(s[1..], sep);
      if s[0] == sep then
        var parts := [""] + rest;
        assert parts[1..] == rest;
        assert s == [sep] + s[1..];
        parts
      else
        var parts := [[s[0]] + rest[0]] + rest[1..];
        assert |rest| > 1 ==> parts[1..] == rest[1..];
        assert s == [s[0]] + s[1..];
        parts
  }

  /** Splitting a string without the separator, after a prefix has been put
      in front, only extends the first piece. */
  lemma {:induction false} SplitPrefix(a: string, t: string, sep: char)
    requires sep !in a
    ensures Split(a + t, sep) == [a + Split(t, sep)[0]] + Split(t, sep)[1..]
    decreases |a|
  {
    if |a| > 0 {
      assert (a + t)[1..] == a[1..] + t;
      assert (a + t)[0] == a[0];
      SplitPrefix(a[1..], t, sep);
      assert [a[0]] + (a[1..] + Split(t, sep)[0]) == a + Split(t, sep)[0];
    } else {
      var parts := Split(t, sep);
      assert a + t == t && a + parts[0] == parts[0];
      assert [parts[0]] + parts[1..] == parts;
    }
  }

  /** Round trip the other way: pieces free of the separator survive a join
      followed by a split. */
  lemma {:induction false} SplitJoin(parts: seq<string>, sep: char)
    requires |parts| >= 1
    requires forall i :: 0 <= i < |parts| ==> sep !in parts[i]
    ensures Split(Join(parts, sep), sep) == parts
    decreases |parts|
  {
    if |parts| == 1 {
      SplitPrefix(parts[0], "", sep);
      assert parts[0] + "" == parts[0];
    } else {
      var tail := Join(parts[1..], sep);
      SplitJoin(parts[1..], sep);
      assert Split([sep] + tail, sep) == [""] + parts[1..] by {
        assert ([sep] + tail)[1..] == tail;
      }
      assert parts[0] + [sep] + tail == parts[0] + ([sep] + tail);
      SplitPrefix(parts[0], [sep] + tail, sep);
      assert parts[0] + "" == parts[0];
      assert parts == [parts[0]] + parts[1..];
    }
  }

  /** A split yields a second piece exactly when the separator occurs. */
  lemma SplitHasSecondPiece(s: string, sep: char)
    ensures |Split(s, sep)| >= 2 <==> sep in s
    decreases |s|
  {
  }

  /** `token.split('.')[1]`: `undefined` when the token has no dot, and
      otherwise the text between the first dot and the next one (or the end). */
  function PayloadSegment(token: string): (seg: Option<string>)
    ensures seg.Some? <==> Dot in token
    ensures seg.Some? ==> Dot !in seg.value
    ensures seg.Some? ==> exists h, t :: SecondSegment(token, h, seg.value, t)
  {
    var parts := Split(token, Dot);
    SplitHasSecondPiece(token, Dot);
    if |parts| >= 2 then
      SecondSegmentOfJoin(parts);
      Some(parts[1])
    else None
  }

  /** What follows the second piece of a join: nothing, or a dot and the
      join of the remaining pieces. */
  function Rest(parts: seq<string>): string
    requires |parts| >= 2
  {
    if |parts| > 2 then [Dot] + Join(parts[2..], Dot) else []
  }

  /** In a join of two or more dot-free-headed pieces, the second piece is
      the second segment: the first piece, a dot, the second piece, then
      nothing or a dot and the join of the rest. */
  lemma SecondSegmentOfJoin(parts: seq<string>)
    requires |parts| >= 2 && Dot !in parts[0]
    ensures exists h, t :: SecondSegment(Join(parts, Dot), h, parts[1], t)
  {
    JoinAfterFirst(parts);
    assert SecondSegment(Join(parts, Dot), parts[0], parts[1], Rest(parts));
  }

  /** The join of all but the first piece is the second piece followed by `Rest`. */
  lemma JoinAfterFirst(parts: seq<string>)
    requires |parts| >= 2
    ensures Join(parts[1..], Dot) == parts[1] + Rest(parts)
  {
  }

  /** `token` reads `h.seg` followed by `t`, where `h` has no dot and `t` is
      empty or starts with a dot: `seg` is the second dot-separated segment. */
  predicate SecondSegment(token: string, h: string, seg: string, t: string)
  {
    Dot !in h && token == h + [Dot] + seg + t && (t == [] || t[0] == Dot)
  }

  /** What `payload.exp` turns out to be, after decoding and parsing:
      - NoExp: absent or a falsy non-number value (`undefined`, `null`, `false`, `""`);
      - ExpNumber: a number of seconds since the epoch (0 is falsy);
      - ExpNaN: a truthy value whose numeric conversion is NaN (a non-numeric
        string, an object), against which every comparison is false. */
  datatype Exp = NoExp | ExpNumber(seconds: int) | ExpNaN

  /** `isAccessTokenExpired`. `readExp` stands for base64 decoding of the
      payload segment, `JSON.parse` and the `exp` property read together;
      `None` means one of them threw. `nowMs` is `Date.now()`. */
  function IsAccessTokenExpired(token: string, nowMs: int, readExp: string -> Option<Exp>): (expired: bool)
    ensures Dot !in token ==> expired
  {
    SplitHasSecondPiece(token, Dot);
    match PayloadSegment(token)
    // `Buffer.from(undefined, 'base64')` throws; the catch answers "expired"
    case None => true
    case Some(seg) =>
      match readExp(seg)
      case None => true
      case Some(NoExp) => true
      case Some(ExpNaN) => false
      case Some(ExpNumber(n)) => n == 0 || nowMs >= n * 1000
  }

  /** A payload that cannot be decoded or parsed counts as expired. */
  lemma UndecodableIsExpired(token: string, nowMs: int, readExp: string -> Option<Exp>)
    requires PayloadSegment(token).Some? && readExp(PayloadSegment(token).value).None?
    ensures IsAccessTokenExpired(token, nowMs, readExp)
  {
  }

  /** A payload without a truthy `exp` counts as expired, whatever the clock says. */
  lemma MissingExpIsExpired(token: string, nowMs: int, readExp: string -> Option<Exp>)
    requires PayloadSegment(token).Some?
    requires readExp(PayloadSegment(token).value) in {Some(NoExp), Some(ExpNumber(0))}
    ensures IsAccessTokenExpired(token, nowMs, readExp)
  {
  }

  /** For a numeric, non-zero `exp` the token is expired exactly from the
      millisecond `exp * 1000` on, that instant included. */
  lemma ExpiryThreshold(token: string, nowMs: int, readExp: string -> Option<Exp>, n: int)
    requires PayloadSegment(token).Some? && readExp(PayloadSegment(token).value) == Some(ExpNumber(n))
    requires n != 0
    ensures IsAccessTokenExpired(token, nowMs, readExp) <==> nowMs >= n * 1000
  {
  }

  /** A three-segment token whose payload carries `exp = n` seconds: the
      heuristic reads exactly that payload and compares it with the clock. */
  lemma ThreeSegmentToken(header: string, payload: string, signature: string, nowMs: int,
                          readExp: string -> Option<Exp>, n: int)
    requires Dot !in header && Dot !in payload && Dot !in signature
    requires readExp(payload) == Some(ExpNumber(n)) && n > 0
    ensures IsAccessTokenExpired(Join([header, payload, signature], Dot), nowMs, readExp)
            <==> nowMs >= n * 1000
  {
    SplitJoin([header, payload, signature], Dot);
  }

  /** Time only moves a token towards expiry: once expired, it stays expired. */
  lemma ExpiryIsMonotone(token: string, t1: int, t2: int, readExp: string -> Option<Exp>)
    requires t1 <= t2
    requires IsAccessTokenExpired(token, t1, readExp)
    ensures IsAccessTokenExpired(token, t2, readExp)
  {
  }

  /** A truthy `exp` that is not a number never expires: `now >= NaN` is false. */
  lemma NaNExpNeverExpires(token: string, nowMs: int, readExp: string -> Option<Exp>)
    requires PayloadSegment(token).Some? && readExp(PayloadSegment(token).value) == Some(ExpNaN)
    ensures !IsAccessTokenExpired(token, nowMs, readExp)
  {
  }

  /** The claim the heuristic reads from a token: `None` when there is no
      payload segment or decoding it threw. */
  function ReadClaim(token: string, readExp: string -> Option<Exp>): (claim: Option<Exp>)
    ensures Dot !in token ==> claim.None?
  {
    SplitHasSecondPiece(token, Dot);
    match PayloadSegment(token)
    case None => None
    case Some(seg) => readExp(seg)
  }

  /** The heuristic failing closed on every unreadable claim: a truthy
      non-numeric `exp` counts as expired too. */
  function IsAccessTokenExpiredFailClosed(token: string, nowMs: int, readExp: string -> Option<Exp>): (expired: bool)
    // a token is only ever fresh on a non-zero numeric `exp` still in the future
    ensures !expired <==> var claim := ReadClaim(token, readExp);
                          claim.Some? && claim.value.ExpNumber? && claim.value.seconds != 0
                          && nowMs < claim.value.seconds * 1000
  {
    IsAccessTokenExpired(token, nowMs, readExp) || ReadClaim(token, readExp) == Some(ExpNaN)
  }

  /** The fail-closed heuristic differs from the one as written only on a
      non-numeric `exp`. */
  lemma FailClosedAgreesElsewhere(token: string, nowMs: int, readExp: string -> Option<Exp>)
    requires ReadClaim(token, readExp) != Some(ExpNaN)
    ensures IsAccessTokenExpiredFailClosed(token, nowMs, readExp) == IsAccessTokenExpired(token, nowMs, readExp)
  {
  }
}
