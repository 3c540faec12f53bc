/** The bearer-token gate (src/middlewares/authMiddleware.js): it reads the
    `Authorization` header, checks the `Bearer ` prefix, verifies the token and
    either answers 401 or attaches the caller's identity and calls `next()`.
    `jwt.verify` is a parameter: it yields the decoded payload, or nothing
    where the library would throw (bad signature, expiry, malformed token). */
module Auth {

  import opened Wrappers
  import opened JsValues
  import Strings

  const BearerPrefix := "Bearer "
  const NoTokenMessage := "Access denied. No token provided."
  const InvalidTokenMessage := "Invalid token."
  const DefaultSecret := "your_default_secret_key"
  const Unauthorized := 401

  /** `req.user`: exactly the three claims the downstream handlers use. */
  datatype User = User(id: JsValue, tenantId: JsValue, role: JsValue)

  /** `process.env.JWT_SECRET || 'your_default_secret_key'`. */
  function Secret(env: Option<string>): (k: string)
    ensures env.Some? && env.value != "" ==> k == env.value
    ensures env.None? || env.value == "" ==> k == DefaultSecret
  {
    if env.Some? && env.value != "" then env.value else DefaultSecret
  }

  /** `header.split(' ')[1]`, or nothing where that index is `undefined`. */
  function BearerToken(header: string): (r: Option<string>)
    ensures r.Some? <==> ' ' in header
    ensures r.Some? ==> ' ' !in r.value
  {
    Strings.SplitFirst(header, ' ');
    var parts := Strings.Split(header, ' ');
    if |parts| > 1 then Some(parts[1]) else None
  }

  /** After the `Bearer ` prefix, the token is the text up to the next space
      (or the end): a second space cuts the token off. */
  lemma BearerTokenIsSecondWord(header: string)
    requires Strings.StartsWith(header, BearerPrefix)
    ensures BearerToken(header) == Some(Strings.TakeUntil(header[|BearerPrefix|..], ' '))
  {
    var rest := header[|BearerPrefix|..];
    assert header == "Bearer" + [' '] + rest by {
      assert header[..|BearerPrefix|] == BearerPrefix;
    }
    Strings.TakeUntilPrefix("Bearer", ' ', rest);
    Strings.SplitFirst(header, ' ');
    assert header[|Strings.TakeUntil(header, ' ')| + 1..] == rest;
    Strings.SplitFirst(rest, ' ');
  }

  /** The identity attached to the request: `id`, `tenant_id` and `role` of
      the payload, each `undefined` when the payload lacks it. */
  function UserOf(payload: Record): (u: User)
    ensures u.id == Get(payload, "id") && u.tenantId == Get(payload, "tenant_id") && u.role == Get(payload, "role")
  {
    User(Get(payload, "id"), Get(payload, "tenant_id"), Get(payload, "role"))
  }

  /** Every other claim, `full_name` among them, is dropped. */
  lemma UserIgnoresOtherClaims(payload: Record, k: string, v: JsValue)
    requires k != "id" && k != "tenant_id" && k != "role"
    ensures UserOf(payload[k := v]) == UserOf(payload)
  {
  }

  /** What the gate decides: a 401 with its message, or the caller's identity. */
  datatype Decision = Reject(message: string) | Accept(user: User)

  function Authenticate(header: Option<string>, secretEnv: Option<string>,
                        verify: (string, string) -> Option<Record>): (d: Decision)
    ensures d.Reject? ==> d.message == NoTokenMessage || d.message == InvalidTokenMessage
    ensures d.Accept? ==> header.Some? && Strings.StartsWith(header.value, BearerPrefix)
    ensures d.Accept? ==>
              BearerToken(header.value).Some? &&
              exists p :: verify(BearerToken(header.value).value, Secret(secretEnv)) == Some(p) && d.user == UserOf(p)
  {
    if header.None? || header.value == "" || !Strings.StartsWith(header.value, BearerPrefix) then
      Reject(NoTokenMessage)
    else
      match BearerToken(header.value)
      case None => Reject(InvalidTokenMessage)
      case Some(token) =>
        match verify(token, Secret(secretEnv))
        case None => Reject(InvalidTokenMessage)
        case Some(payload) => Accept(UserOf(payload))
  }

  /** A missing or empty header, or one that does not begin with exactly
      `Bearer ` (case and space included), is refused before any token is
      looked at. */
  lemma RejectsWithoutBearerPrefix(header: Option<string>, secretEnv: Option<string>,
                                   verify: (string, string) -> Option<Record>)
    requires header.None? || !Strings.StartsWith(header.value, BearerPrefix)
    ensures Authenticate(header, secretEnv, verify) == Reject(NoTokenMessage)
  {
  }

  /** The gate admits a request exactly when the header carries the `Bearer `
      prefix and the token after it verifies under the configured secret; the
      identity is then that of the decoded payload. */
  lemma AcceptIff(header: Option<string>, secretEnv: Option<string>,
                  verify: (string, string) -> Option<Record>, u: User)
    ensures Authenticate(header, secretEnv, verify) == Accept(u) <==>
      && header.Some? && Strings.StartsWith(header.value, BearerPrefix)
      && var token := Strings.TakeUntil(header.value[|BearerPrefix|..], ' ');
         verify(token, Secret(secretEnv)).Some?
         && u == UserOf(verify(token, Secret(secretEnv)).value)
  {
    if header.Some? && Strings.StartsWith(header.value, BearerPrefix) {
      BearerTokenIsSecondWord(header.value);
    }
  }

  /** The request, the response and `next` of one call: the header is read,
      `user` is `req.user`, `sent` holds the (status, message) pairs the
      response has sent, and `nextCalls` counts calls of `next()`. */
  class Exchange {
    const authorization: Option<string>
    var user: Option<User>
    var sent: seq<(int, string)>
    var nextCalls: nat

    constructor (authorization: Option<string>)
      ensures this.authorization == authorization
      ensures user == None && sent == [] && nextCalls == 0
    {
      this.authorization := authorization;
      user := None;
      sent := [];
      nextCalls := 0;
    }
  }

  /** `authMiddleware(req, res, next)`: every call ends in exactly one of a
      401 response (with `req.user` untouched) or one call of `next()` after
      `req.user` is set. */
  method AuthMiddleware(ex: Exchange, secretEnv: Option<string>, verify: (string, string) -> Option<Record>)
    modifies ex
    ensures |ex.sent| + ex.nextCalls == |old(ex.sent)| + old(ex.nextCalls) + 1
    ensures match Authenticate(ex.authorization, secretEnv, verify)
      case Reject(msg) =>
        ex.sent == old(ex.sent) + [(Unauthorized, msg)] && ex.nextCalls == old(ex.nextCalls)
        && ex.user == old(ex.user)
      case Accept(u) =>
        ex.sent == old(ex.sent) && ex.nextCalls == old(ex.nextCalls) + 1 && ex.user == Some(u)
  {
    var authHeader := ex.authorization;
    if authHeader.None? || authHeader.value == "" || !Strings.StartsWith(authHeader.value, BearerPrefix) {
      ex.sent := ex.sent + [(Unauthorized, NoTokenMessage)];
      return;
    }
    var token := BearerToken(authHeader.value);
    var decoded := if token.Some? then verify(token.value, Secret(secretEnv)) else None;
    if decoded.None? {
      ex.sent := ex.sent + [(Unauthorized, InvalidTokenMessage)];
      return;
    }
    ex.user := Some(User(Get(decoded.value, "id"), Get(decoded.value, "tenant_id"), Get(decoded.value, "role")));
    ex.nextCalls := ex.nextCalls + 1;
  }
}
