/** What the tweet routes share: the classification of the Authorization
    header, and the split of a service result `{ok, code, message, data?}`
    into the HTTP status (`code`) and the body (the rest). */
module Http {
  import opened Common

  /** A service result before it is sent. */
  datatype Envelope<D> = Envelope(ok: bool, code: int, message: Message, data: Option<D>)

  /** `const { code, ...response } = result; res.status(code).json(response)`. */
  function Split<D>(e: Envelope<D>): (r: HttpResponse<D>)
    ensures r.status == e.code
    ensures r.body.ok == e.ok && r.body.message == e.message && r.body.data == e.data
  {
    HttpResponse(e.code, Body(e.ok, e.message, e.data))
  }

  /** Puts the status back into the body as `code`. */
  function Merge<D>(r: HttpResponse<D>): (e: Envelope<D>)
    ensures e.code == r.status
  {
    Envelope(r.body.ok, r.status, r.body.message, r.body.data)
  }

  /** The split loses nothing: merging the status back gives the result. */
  lemma SplitMerge<D>(e: Envelope<D>, r: HttpResponse<D>)
    ensures Merge(Split(e)) == e
    ensures Split(Merge(r)) == r
  {
  }

  /** What a service call does: return a result or throw. */
  datatype ServiceCall<D> = Returned(result: Envelope<D>) | Threw(message: string)

  /** The 500 a route answers with when its service throws. */
  function Unexpected<D>(message: string): (r: HttpResponse<D>)
    ensures r.status == 500 && !r.body.ok && r.body.data.None?
  {
    HttpResponse(500, Body(false, Text("An unexpected error occurred: " + message), None))
  }

  /** A service result, sent; or the 500 for a thrown error. */
  function Answer<D>(call: ServiceCall<D>): (r: HttpResponse<D>)
    ensures call.Returned? ==> Merge(r) == call.result
    ensures call.Threw? ==> r == Unexpected(call.message)
  {
    match call
    case Returned(e) => Split(e)
    case Threw(m) => Unexpected(m)
  }

  // ---------------------------------------------------------------------
  // Authorization header
  // ---------------------------------------------------------------------

  const BearerPrefix := "Bearer "
  const TokenRequired := "Unauthorized: Token is required"
  const InvalidFormat := "Unauthorized: Invalid or missing token"
  const InvalidToken := "Unauthorized: Invalid or expired token"

  /** The outcome of the authorization check: the caller's id, or the
      message of the 401. */
  datatype Auth = Authenticated(userId: string) | Unauthorized(message: string)

  predicate HasPrefix(s: string, p: string)
  {
    |p| <= |s| && s[..|p|] == p
  }

  /** Classifies the Authorization header. `sessions` is the token
      verifier: the tokens it accepts and the user each one belongs to. */
  function Authorize(header: Option<string>, sessions: map<string, string>): (a: Auth)
    ensures header.None? ==> a == Unauthorized(TokenRequired)
    ensures header.Some? && !HasPrefix(header.value, BearerPrefix) ==> a == Unauthorized(InvalidFormat)
  {
    match header
    case None => Unauthorized(TokenRequired)
    case Some(h) =>
      if !HasPrefix(h, BearerPrefix) then Unauthorized(InvalidFormat)
      else
        var token := h[|BearerPrefix|..];
        if token in sessions then Authenticated(sessions[token]) else Unauthorized(InvalidToken)
  }

  /** A caller is let through exactly when the header is `Bearer ` followed
      by a token the verifier accepts, and is then the token's user. */
  lemma AuthorizeAccepts(header: Option<string>, sessions: map<string, string>, user: string)
    ensures Authorize(header, sessions) == Authenticated(user) <==>
            exists token :: header == Some(BearerPrefix + token) && token in sessions && sessions[token] == user
  {
    if Authorize(header, sessions) == Authenticated(user) {
      var h := header.value;
      var token := h[|BearerPrefix|..];
      assert h == BearerPrefix + token;
    }
    if exists token :: header == Some(BearerPrefix + token) && token in sessions && sessions[token] == user {
      var token :| header == Some(BearerPrefix + token) && token in sessions && sessions[token] == user;
      var h := header.value;
      assert h[..|BearerPrefix|] == BearerPrefix;
      assert h[|BearerPrefix|..] == token;
    }
  }

  /** Every rejection is one of the three messages: no header, a header
      without the Bearer scheme, a Bearer token the verifier refuses. */
  lemma AuthorizeRejects(header: Option<string>, sessions: map<string, string>)
    ensures Authorize(header, sessions).Unauthorized? <==>
            header.None? || !HasPrefix(header.value, BearerPrefix) ||
            header.value[|BearerPrefix|..] !in sessions
    ensures Authorize(header, sessions).Unauthorized? ==>
            Authorize(header, sessions).message in {TokenRequired, InvalidFormat, InvalidToken}
    ensures header.Some? && HasPrefix(header.value, BearerPrefix) && header.value[|BearerPrefix|..] !in sessions ==>
            Authorize(header, sessions) == Unauthorized(InvalidToken)
  {
  }

  /** The 401 sent for a rejected header. */
  function Reject<D>(message: string): (r: HttpResponse<D>)
    ensures r.status == 401 && !r.body.ok && r.body.data.None?
    ensures r.body.message == Text(message)
  {
    HttpResponse(401, Body(false, Text(message), None))
  }

  /** The three headers the route tests send, with a verifier that accepts
      none of them. */
  lemma AuthorizeTestHeaders()
    ensures Authorize(None, map[]) == Unauthorized(TokenRequired)
    ensures Authorize(Some("invalid_token"), map[]) == Unauthorized(InvalidFormat)
    ensures Authorize(Some("Bearer invalidToken"), map[]) == Unauthorized(InvalidToken)
  {
    assert "invalid_token"[..|BearerPrefix|] != BearerPrefix by {
      assert "invalid_token"[0] != BearerPrefix[0];
    }
    assert HasPrefix("Bearer invalidToken", BearerPrefix) by {
      assert "Bearer invalidToken"[..|BearerPrefix|] == BearerPrefix;
    }
  }
}
