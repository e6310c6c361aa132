/** `protect` and `optionalAuth`: reading a bearer token from the
    `Authorization` header, verifying it, loading the user, and then either
    passing the request on (`next()`) or answering 401. */
module AuthMiddleware {
  import opened Common
  import opened Strings
  import opened ApiResponse

  const NoToken := "Not authorized, no token"
  const TokenFailed := "Not authorized, token failed"
  const UserNotFound := "User not found"

  /** What `jwt.verify` with the server's secret accepts: each valid token
      and the user id it carries. Expiry is folded into membership. */
  type TokenTable = map<string, ObjectId>

  predicate StartsWith(s: string, prefix: string)
  {
    |prefix| <= |s| && s[..|prefix|] == prefix
  }

  /** The header is present, non-empty and starts with "Bearer". */
  predicate HasBearer(header: Option<string>)
  {
    Truthy(header) && StartsWith(header.value, "Bearer")
  }

  /** `header.split(" ")[1]`; `None` is `undefined`. */
  function BearerToken(header: string): Option<string>
  {
    var parts := Split(header, ' ');
    if |parts| >= 2 then Some(parts[1]) else None
  }

  /** `jwt.verify(token, secret).id`; `None` when it throws (no token, an
      empty token, or one the secret does not accept). */
  function Verify(token: Option<string>, tokens: TokenTable): Option<ObjectId>
  {
    if token.Some? && token.value != "" && token.value in tokens then Some(tokens[token.value]) else None
  }

  datatype Verdict = Granted(user: ObjectId) | Refused(message: string)

  /** The outcome of `protect` for a header, the accepted tokens and the
      existing users. */
  function Decide(header: Option<string>, tokens: TokenTable, users: set<ObjectId>): Verdict
  {
    if !HasBearer(header) then Refused(NoToken)
    else
      match Verify(BearerToken(header.value), tokens)
      case None => Refused(TokenFailed)
      case Some(id) => if id in users then Granted(id) else Refused(UserNotFound)
  }

  /** A request passing through the middleware: `req.user`, how often
      `next()` was called and the responses sent. */
  class Exchange {
    var user: Option<ObjectId>
    var nextCalls: nat
    var sent: seq<Envelope<()>>

    constructor ()
      ensures user == None && nextCalls == 0 && sent == []
    {
      user := None;
      nextCalls := 0;
      sent := [];
    }
  }

  /** `protect`: exactly one of `next()` (with `req.user` set to the token's
      user) or one 401 response; a verified token whose user is gone leaves
      `req.user` null. */
  method Protect(x: Exchange, header: Option<string>, tokens: TokenTable, users: set<ObjectId>)
    modifies x
    ensures match Decide(header, tokens, users)
            case Granted(id) =>
              x.user == Some(id) && x.nextCalls == old(x.nextCalls) + 1 && x.sent == old(x.sent)
            case Refused(m) =>
              && x.nextCalls == old(x.nextCalls) && x.sent == old(x.sent) + [Error(401, m)]
              && x.user == (if m == UserNotFound then None else old(x.user))
  {
    var token: Option<string> := None;
    if header.Some? && header.value != "" && StartsWith(header.value, "Bearer") {
      token := BearerToken(header.value);
      var decoded := Verify(token, tokens);
      if decoded.None? {
        x.sent := x.sent + [Error(401, TokenFailed)];
        return;
      }
      x.user := if decoded.value in users then Some(decoded.value) else None;
      if x.user.None? {
        x.sent := x.sent + [Error(401, UserNotFound)];
        return;
      }
      x.nextCalls := x.nextCalls + 1;
    }
    if token.None? || token.value == "" {
      x.sent := x.sent + [Error(401, NoToken)];
    }
  }

  /** The `req.user` `optionalAuth` leaves: untouched without a bearer header,
      the token's user when it verifies (null when that user is gone), and
      null when verification throws. */
  function OptionalUser(header: Option<string>, tokens: TokenTable, users: set<ObjectId>, current: Option<ObjectId>): Option<ObjectId>
  {
    if !HasBearer(header) then current
    else
      match Verify(BearerToken(header.value), tokens)
      case None => None
      case Some(id) => if id in users then Some(id) else None
  }

  /** `optionalAuth`: never answers, always calls `next()` once. */
  method OptionalAuth(x: Exchange, header: Option<string>, tokens: TokenTable, users: set<ObjectId>)
    modifies x
    ensures x.user == OptionalUser(header, tokens, users, old(x.user))
    ensures x.nextCalls == old(x.nextCalls) + 1 && x.sent == old(x.sent)
  {
    if header.Some? && header.value != "" && StartsWith(header.value, "Bearer") {
      var decoded := Verify(BearerToken(header.value), tokens);
      if decoded.None? {
        x.user := None;
      } else {
        x.user := if decoded.value in users then Some(decoded.value) else None;
      }
    }
    x.nextCalls := x.nextCalls + 1;
  }

  /** `protect` lets a request through exactly when the header carries a
      bearer token the secret accepts for an existing user, and then
      `optionalAuth` identifies the same user; otherwise `optionalAuth`
      identifies nobody new. The refusal says which check failed first. */
  lemma ProtectAgreesWithOptional(header: Option<string>, tokens: TokenTable, users: set<ObjectId>, current: Option<ObjectId>)
    ensures forall id: ObjectId :: Decide(header, tokens, users) == Granted(id) <==>
              (HasBearer(header) && Verify(BearerToken(header.value), tokens) == Some(id) && id in users)
    ensures Decide(header, tokens, users).Granted? ==>
              OptionalUser(header, tokens, users, current) == Some(Decide(header, tokens, users).user)
    ensures Decide(header, tokens, users).Refused? ==>
              OptionalUser(header, tokens, users, current) == (if HasBearer(header) then None else current)
    ensures Decide(header, tokens, users) == Refused(NoToken) <==> !HasBearer(header)
  {
  }

  /** A header written as `Bearer <token>` yields exactly that token, so a
      token the secret accepts for an existing user is granted. */
  lemma BearerHeaderRoundTrip(token: string, tokens: TokenTable, users: set<ObjectId>)
    requires ' ' !in token
    ensures BearerToken("Bearer " + token) == Some(token)
    ensures token != "" && token in tokens && tokens[token] in users ==>
              Decide(Some("Bearer " + token), tokens, users) == Granted(tokens[token])
    ensures token == "" ==> Decide(Some("Bearer " + token), tokens, users) == Refused(TokenFailed)
  {
    var h := "Bearer " + token;
    assert h == "Bearer" + [' '] + token;
    SplitAround("Bearer", ' ', token);
    SplitNoSep("Bearer", ' ');
    SplitNoSep(token, ' ');
    assert h[..6] == "Bearer";
  }

  /** "Bearer" alone, or a header with two spaces before the token, yields no
      usable token: the request is refused with "token failed". */
  lemma MalformedBearerRefused(tokens: TokenTable, users: set<ObjectId>, token: string)
    ensures Decide(Some("Bearer"), tokens, users) == Refused(TokenFailed)
    ensures Decide(Some("Bearer  " + token), tokens, users) == Refused(TokenFailed)
  {
    SplitNoSep("Bearer", ' ');
    assert "Bearer"[..6] == "Bearer";
    var h := "Bearer  " + token;
    assert h[..6] == "Bearer";
    DoubleSpaceTokenIsEmpty(token);
  }

  /** With two spaces after "Bearer" the second piece of the split is empty. */
  lemma DoubleSpaceTokenIsEmpty(token: string)
    ensures BearerToken("Bearer  " + token) == Some("")
  {
    var h := "Bearer  " + token;
    assert h == "Bearer" + [' '] + (" " + token);
    SplitAround("Bearer", ' ', " " + token);
    SplitNoSep("Bearer", ' ');
    assert " " + token == [] + [' '] + token;
    SplitAround([], ' ', token);
    assert Split(h, ' ') == ["Bearer"] + ([[]] + Split(token, ' '));
  }
}
