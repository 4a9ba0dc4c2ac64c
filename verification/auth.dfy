/** The authorization middleware of the passive HTTP adapter
    (`OB11PassiveHttpAdapter.authorize`). */
module Auth {
  import opened Values
  import opened Text

  const BearerSeparator: string := "Bearer "

  /** What the middleware does with a request: pass it on (`next()`),
      answer 403, or throw. It throws only when reading `access_token` of an
      undefined query, which Express never produces (a request without a
      query string has the query `{}`), so `Fault` marks a branch the
      running server does not reach. */
  datatype Gate = Admit | Reject | Fault

  /** No token configured: `!token || token.length == 0`. */
  predicate NoAuth(token: Option<string>)
    ensures NoAuth(token) <==> token == None || token == Some("")
  {
    token.None? || |token.value| == 0
  }

  /** The credential carried by the `Authorization` header: the last piece
      of the header split on "Bearer ", untrimmed, or "" without a header. */
  function HeaderToken(authorization: Option<string>): (t: string)
    ensures authorization.None? ==> t == ""
    ensures authorization.Some? ==> EndsWith(authorization.value, t)
    ensures !Contains(t, BearerSeparator)
    ensures authorization.Some? && !Contains(authorization.value, BearerSeparator) ==> t == authorization.value
    // with "Bearer " in the header, the credential is what follows its last occurrence
    ensures authorization.Some? && Contains(authorization.value, BearerSeparator) ==>
              EndsWith(authorization.value, BearerSeparator + t)
  {
    match authorization
    case None => ""
    case Some(h) => LastSegment(h, BearerSeparator)
  }

  /** The `access_token` query parameter when it is a non-empty string. */
  function QueryToken(query: Fields): (t: Option<string>)
    ensures t.Some? <==> "access_token" in query && query["access_token"].Str? && query["access_token"].s != ""
    ensures t.Some? ==> query["access_token"] == Str(t.value)
  {
    if "access_token" in query && query["access_token"].Str? && query["access_token"].s != ""
    then Some(query["access_token"].s)
    else None
  }

  /** The credential compared with the token: the query's, else the header's. */
  function ClientToken(authorization: Option<string>, query: Fields): (c: string)
    ensures QueryToken(query).Some? ==> c == QueryToken(query).value
    ensures QueryToken(query).None? ==> c == HeaderToken(authorization)
  {
    match QueryToken(query)
    case Some(q) => q
    case None => HeaderToken(authorization)
  }

  function Authorize(token: Option<string>, authorization: Option<string>, query: Option<Fields>): (g: Gate)
    ensures NoAuth(token) ==> g == Admit
    ensures !NoAuth(token) ==> (g == Fault <==> query.None?)
    ensures !NoAuth(token) && query.Some? ==>
              (g == Admit <==> ClientToken(authorization, query.value) == token.value)
  {
    if NoAuth(token) then Admit
    else if query.None? then Fault
    else if ClientToken(authorization, query.value) == token.value then Admit
    else Reject
  }

  /** Without a configured token every request is admitted, whatever it carries. */
  lemma NoTokenAdmitsAll(token: Option<string>, authorization: Option<string>, query: Option<Fields>)
    requires token == None || token == Some("")
    ensures Authorize(token, authorization, query) == Admit
  {
  }

  /** A non-empty string `access_token` decides alone; the header is ignored. */
  lemma QueryTokenTakesPrecedence(t: string, authorization: Option<string>, query: Fields, q: string)
    requires t != ""
    requires "access_token" in query && query["access_token"] == Str(q) && q != ""
    ensures Authorize(Some(t), authorization, Some(query)) == Admit <==> q == t
    ensures Authorize(Some(t), authorization, Some(query)) != Admit ==>
              Authorize(Some(t), authorization, Some(query)) == Reject
  {
  }

  /** No usable query credential: `Authorization: Bearer <c>`, for a `c`
      without "Bearer " in it, is admitted exactly when `c` equals the token
      (`c` is not trimmed). */
  lemma BearerHeaderDecides(t: string, c: string, query: Fields)
    requires t != ""
    requires QueryToken(query).None?
    requires !Contains(c, BearerSeparator)
    ensures Authorize(Some(t), Some(BearerSeparator + c), Some(query)) == Admit <==> c == t
  {
    SplitAfterSeparator(BearerSeparator, c);
    SplitWithoutSeparator(c, BearerSeparator);
  }

  /** A header without "Bearer " is compared whole. */
  lemma BareHeaderComparedWhole(t: string, h: string, query: Fields)
    requires t != ""
    requires QueryToken(query).None?
    requires !Contains(h, BearerSeparator)
    ensures Authorize(Some(t), Some(h), Some(query)) == Admit <==> h == t
  {
    SplitWithoutSeparator(h, BearerSeparator);
  }

  /** With a token configured, a request carrying no credential is rejected. */
  lemma MissingCredentialRejected(t: string, query: Fields)
    requires t != ""
    requires QueryToken(query).None?
    ensures Authorize(Some(t), None, Some(query)) == Reject
  {
  }
}
