/** The bearer-token gate in front of the HTTP API. The token comes from an
    `Authorization: Bearer <token>` header, or else from the `token`
    cookie; it must verify as a signed token and match the user of a live
    session. Signature checking and the session lookup are oracles: the
    model receives them as functions of the token. */
module Auth {
  import opened Wrappers
  import opened Strings

  const BearerPrefix: string := "Bearer "
  const StatusUnauthorized: int := 401

  const NoToken: string := "Unauthorized"
  const SessionExpired: string := "Session expired"
  const BadToken: string := "Invalid or expired token"

  /** The payload of a token that verifies. */
  datatype Claims = Claims(userId: string, email: string)

  /** `getSessionUserId(token)`: rejected, or resolved to a user id or null. */
  datatype Lookup = LookupFailed | Resolved(userId: Option<string>)

  /** `req.user` of an admitted request. */
  datatype AuthUser = AuthUser(id: string, email: string)

  /** A 401 answer with its error message, or `next()` with the user set. */
  datatype Outcome = Reject(status: int, error: string) | Next(user: AuthUser)

  /** `header.split(' ')[1]` of a header starting with "Bearer ": the text
      after the first space, up to the next one. */
  function BearerToken(header: string): (r: string)
    requires StartsWith(header, BearerPrefix)
    ensures |r| <= |header| - |BearerPrefix|
    ensures forall i :: 0 <= i < |r| ==> r[i] != ' '
  {
    var rest := header[|BearerPrefix|..];
    var r := Before(rest, " ");
    assert forall i :: 0 <= i < |r| ==> r[i] != ' ' by {
      forall i | 0 <= i < |r|
        ensures r[i] != ' '
      {
        if r[i] == ' ' {
          assert OccursAt(rest, " ", i);
        }
      }
    }
    r
  }

  /** The token a request presents: from a Bearer header when there is one,
      otherwise the cookie (which may be missing too). */
  function RequestToken(header: Option<string>, cookie: Option<string>): (r: Option<string>)
    ensures header.Some? && StartsWith(header.value, BearerPrefix) ==> r == Some(BearerToken(header.value))
    ensures header.None? || !StartsWith(header.value, BearerPrefix) ==> r == cookie
  {
    if header.Some? && StartsWith(header.value, BearerPrefix) then Some(BearerToken(header.value))
    else cookie
  }

  /** `authenticateToken`: no token is "Unauthorized"; a token that does not
      verify, or whose session lookup fails, is "Invalid or expired token";
      a session that is gone or belongs to someone else is "Session
      expired"; otherwise the request goes on as the token's user. */
  function Authenticate(header: Option<string>, cookie: Option<string>,
                        verify: string -> Option<Claims>, session: string -> Lookup): (r: Outcome)
    ensures r.Reject? ==> r.status == StatusUnauthorized
    ensures var token := RequestToken(header, cookie);
      (token.None? || token.value == "") ==> r == Reject(StatusUnauthorized, NoToken)
    // `jwt.verify` throwing, or the session lookup rejecting, lands in the catch
    ensures var token := RequestToken(header, cookie);
      token.Some? && token.value != "" && verify(token.value).None? ==>
        r == Reject(StatusUnauthorized, BadToken)
    ensures var token := RequestToken(header, cookie);
      token.Some? && token.value != "" && verify(token.value).Some? && session(token.value) == LookupFailed ==>
        r == Reject(StatusUnauthorized, BadToken)
    // a verified token whose session is missing or someone else's
    ensures var token := RequestToken(header, cookie);
      token.Some? && token.value != "" && verify(token.value).Some? && session(token.value).Resolved? ==>
        (r.Reject? <==> r == Reject(StatusUnauthorized, SessionExpired))
    ensures var token := RequestToken(header, cookie);
      r.Next? <==> (
        && token.Some? && token.value != "" && verify(token.value).Some?
        && session(token.value) == Resolved(Some(verify(token.value).value.userId))
        && verify(token.value).value.userId != "")
    ensures r.Next? ==> var claims := verify(RequestToken(header, cookie).value).value;
      r.user == AuthUser(claims.userId, claims.email)
    ensures r.Reject? ==> r.error in {NoToken, SessionExpired, BadToken}
  {
    var token := RequestToken(header, cookie);
    if token.None? || token.value == "" then Reject(StatusUnauthorized, NoToken)
    else match verify(token.value)
      case None => Reject(StatusUnauthorized, BadToken)
      case Some(claims) =>
        match session(token.value)
        case LookupFailed => Reject(StatusUnauthorized, BadToken)
        case Resolved(sessionUser) =>
          if sessionUser.None? || sessionUser.value == "" || sessionUser.value != claims.userId
          then Reject(StatusUnauthorized, SessionExpired)
          else Next(AuthUser(claims.userId, claims.email))
  }

  /** The header the client sends, "Bearer <token>", gives the token back
      for any token without a space, and the cookie is then not consulted. */
  lemma {:induction false} BearerRoundTrip(token: string, cookie: Option<string>)
    requires forall i :: 0 <= i < |token| ==> token[i] != ' '
    ensures RequestToken(Some(BearerPrefix + token), cookie) == Some(token)
  {
    var header := BearerPrefix + token;
    assert header[..|BearerPrefix|] == BearerPrefix;
    assert header[|BearerPrefix|..] == token;
    forall j: nat
      ensures !OccursAt(token, " ", j)
    {
      NoCharNoOccurrence(token, " ", 0, j);
    }
  }

  /** A Bearer header with nothing after the prefix is rejected as having no
      token, even when a valid cookie comes with it. */
  lemma {:induction false} EmptyBearerIgnoresCookie(cookie: Option<string>, verify: string -> Option<Claims>, session: string -> Lookup)
    ensures Authenticate(Some(BearerPrefix), cookie, verify, session) == Reject(StatusUnauthorized, NoToken)
    ensures Authenticate(Some(BearerPrefix + " " + "t"), cookie, verify, session) == Reject(StatusUnauthorized, NoToken)
  {
    assert StartsWith(BearerPrefix, BearerPrefix);
    assert BearerPrefix[|BearerPrefix|..] == "";
    var h := BearerPrefix + " " + "t";
    assert h[..|BearerPrefix|] == BearerPrefix;
    assert h[|BearerPrefix|..] == " t";
    assert OccursAt(" t", " ", 0);
  }

  /** A verifying token is admitted exactly when its session belongs to the
      token's user; whatever the session lookup says otherwise, the answer
      is a 401 and `next` is not called. */
  lemma {:induction false} SessionDecides(header: Option<string>, cookie: Option<string>,
                       verify: string -> Option<Claims>, session: string -> Lookup, claims: Claims)
    requires RequestToken(header, cookie).Some?
    requires var t := RequestToken(header, cookie).value; t != "" && verify(t) == Some(claims)
    ensures var t := RequestToken(header, cookie).value;
      && (session(t) == LookupFailed ==> Authenticate(header, cookie, verify, session) == Reject(StatusUnauthorized, BadToken))
      && (session(t).Resolved? && session(t).userId != Some(claims.userId) ==>
            Authenticate(header, cookie, verify, session) == Reject(StatusUnauthorized, SessionExpired))
      && (session(t) == Resolved(Some(claims.userId)) && claims.userId != "" ==>
            Authenticate(header, cookie, verify, session) == Next(AuthUser(claims.userId, claims.email)))
  {
  }

  /** Without a Bearer header the cookie decides alone: the same cookie with
      no header or with a header of another scheme gets the same answer. */
  lemma {:induction false} CookieFallback(basic: string, cookie: Option<string>,
                       verify: string -> Option<Claims>, session: string -> Lookup)
    requires !StartsWith(basic, BearerPrefix)
    ensures Authenticate(Some(basic), cookie, verify, session) == Authenticate(None, cookie, verify, session)
  {
  }
}
