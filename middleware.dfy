/** The bearer-token gate in front of the task routes. It takes the token
    from the `authorization` header, treats a missing token as a 401, and maps
    the verifier's verdict to admission, 401 or 500. */
module AuthMiddleware {
  import opened Wrappers
  import opened JsString
  import Auth

  /** What `jwt.verify` does with a token: returns its payload, or throws a
      `TokenExpiredError`, a `JsonWebTokenError`, or some other error. */
  datatype Verdict = Decoded(claims: Auth.Claims) | Expired | Malformed | VerifyFault

  /** The fixed messages of the replies. */
  datatype Msg = NoToken | TokenExpired | TokenInvalid | VerifyFailed

  /** How a call ends: the next handler runs, or a reply is sent. */
  datatype Outcome = Next | Respond(status: int, msg: Msg)

  /** The gate's decision: admit with the decoded payload, or reject. */
  datatype Decision = Admit(claims: Auth.Claims) | Reject(status: int, msg: Msg)

  const BearerPrefix: string := "Bearer "

  /** `req.headers.authorization || req.headers.Authorization`: the second
      is used when the first is missing or empty. */
  function AuthHeader(headers: map<string, string>): (h: Option<string>)
    ensures "authorization" in headers && headers["authorization"] != "" ==>
      h == Some(headers["authorization"])
    ensures !("authorization" in headers && headers["authorization"] != "") && "Authorization" in headers ==>
      h == Some(headers["Authorization"])
    ensures h.None? <==>
      ("authorization" !in headers || headers["authorization"] == "") && "Authorization" !in headers
  {
    if "authorization" in headers && headers["authorization"] != "" then Some(headers["authorization"])
    else if "Authorization" in headers then Some(headers["Authorization"])
    else None
  }

  /** `authHeader?.replace("Bearer ", "").trim()`. */
  function ExtractToken(header: Option<string>): (t: Option<string>)
    ensures t.None? <==> header.None?
    ensures t.Some? && t.value != [] ==> !IsSpace(t.value[0]) && !IsSpace(t.value[|t.value| - 1])
  {
    match header
    case None => None
    case Some(h) => Some(Trim(RemoveFirst(h, BearerPrefix)))
  }

  /** `!token || token === "undefined"`. */
  predicate Missing(token: Option<string>) {
    token.None? || token.value == "" || token.value == "undefined"
  }

  /** The `catch` block: an expired token and a malformed one are distinct
      401s; any other failure is a 500. */
  function Classify(v: Verdict): (d: Decision)
    ensures v.Decoded? <==> d.Admit?
    ensures v.Decoded? ==> d.claims == v.claims
    ensures d.Reject? ==> d.status == (if v.VerifyFault? then 500 else 401)
    ensures v.Expired? ==> d.msg == TokenExpired
    ensures v.Malformed? ==> d.msg == TokenInvalid
  {
    match v
    case Decoded(c) => Admit(c)
    case Expired => Reject(401, TokenExpired)
    case Malformed => Reject(401, TokenInvalid)
    case VerifyFault => Reject(500, VerifyFailed)
  }

  /** The whole decision of `authMiddleware` for the given headers, with the
      verifier as a parameter. */
  function Decide(headers: map<string, string>, verify: string -> Verdict): (d: Decision)
    ensures Missing(ExtractToken(AuthHeader(headers))) ==> d == Reject(401, NoToken)
    ensures !Missing(ExtractToken(AuthHeader(headers))) ==>
      d == Classify(verify(ExtractToken(AuthHeader(headers)).value))
  {
    var token := ExtractToken(AuthHeader(headers));
    if Missing(token) then Reject(401, NoToken) else Classify(verify(token.value))
  }

  /** When the token is missing the verifier is never consulted: the decision
      is the same whatever it would have said. */
  lemma MissingTokenSkipsVerify(headers: map<string, string>, v1: string -> Verdict, v2: string -> Verdict)
    requires Missing(ExtractToken(AuthHeader(headers)))
    ensures Decide(headers, v1) == Decide(headers, v2) == Reject(401, NoToken)
  {
  }

  /** `Bearer <token>` yields the token with surrounding white space removed. */
  lemma BearerHeaderYieldsToken(t: string)
    ensures ExtractToken(Some(BearerPrefix + t)) == Some(Trim(t))
  {
    RemoveFirstPrefix(BearerPrefix, t);
  }

  /** The header `Bearer ` followed only by white space counts as no token. */
  lemma BareBearerIsMissing(t: string)
    requires forall i :: 0 <= i < |t| ==> IsSpace(t[i])
    ensures Missing(ExtractToken(Some(BearerPrefix + t)))
  {
    BearerHeaderYieldsToken(t);
    TrimAllSpace(t);
  }

  /** A header without `Bearer ` anywhere is taken whole, trimmed. */
  lemma RawHeaderIsToken(h: string)
    requires forall k: nat :: !OccursAt(h, BearerPrefix, k)
    ensures ExtractToken(Some(h)) == Some(Trim(h))
  {
  }

  /** A well-formed bearer header whose token verifies admits the request
      with exactly the verified payload. */
  lemma BearerTokenAdmits(headers: map<string, string>, t: string, verify: string -> Verdict)
    requires "authorization" in headers && headers["authorization"] == BearerPrefix + t
    requires Trim(t) != "" && Trim(t) != "undefined"
    requires verify(Trim(t)).Decoded?
    ensures Decide(headers, verify) == Admit(verify(Trim(t)).claims)
  {
    BearerHeaderYieldsToken(t);
  }

  /** The request as the middleware sees it: its headers, and the `user`
      field the middleware sets. */
  class Request {
    const headers: map<string, string>
    var user: Option<Auth.Claims>

    constructor (headers: map<string, string>)
      ensures this.headers == headers && user.None?
    {
      this.headers := headers;
      user := None;
    }
  }

  /** `authMiddleware`: on admission `req.user` is set to the decoded payload
      and the next handler runs; otherwise a reply is sent and `req.user` is
      left alone. Exactly one of the two happens. */
  method Authenticate(req: Request, verify: string -> Verdict) returns (o: Outcome)
    modifies req`user
    ensures Decide(req.headers, verify).Admit? ==>
      o == Next && req.user == Some(Decide(req.headers, verify).claims)
    ensures Decide(req.headers, verify).Reject? ==>
      o == Respond(Decide(req.headers, verify).status, Decide(req.headers, verify).msg)
      && req.user == old(req.user)
  {
    var token := ExtractToken(AuthHeader(req.headers));
    if Missing(token) {
      return Respond(401, NoToken);
    }
    match verify(token.value)
    case Decoded(claims) =>
      req.user := Some(claims);
      o := Next;
    case Expired =>
      o := Respond(401, TokenExpired);
    case Malformed =>
      o := Respond(401, TokenInvalid);
    case VerifyFault =>
      o := Respond(500, VerifyFailed);
  }
}
