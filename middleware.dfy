/** The error-handling and token-extracting middleware (utils/middleware.js). */
module Middleware {
  import opened Wrappers
  import opened JsString

  /** A thrown JavaScript error: its `name` and `message`. */
  datatype Error = Error(name: string, message: string)

  /** What `errorHandler` does with an error: answer it with a status and
      a JSON body `{ error }`, or pass it on with `next(error)`. */
  datatype Handled = Respond(status: nat, error: string) | PassOn(err: Error)

  const DuplicateKeyMarker: string := "E11000 duplicate key error"
  const UniqueUsernameMessage: string := "Expected 'username' to be unique"
  const InvalidTokenMessage: string := "Invalid token"

  /** The error names answered with 401. */
  predicate IsTokenError(e: Error)
  {
    e.name == "JsonWebTokenError" || e.name == "SyntaxError"
  }

  /** A duplicate-key failure of the database. */
  predicate IsDuplicateKey(e: Error)
  {
    e.name == "MongoServerError" && Includes(e.message, DuplicateKeyMarker)
  }

  function ErrorHandler(e: Error): (r: Handled)
    // the errors that are answered, and the ones passed on unchanged
    ensures r.Respond? <==> e.name == "ValidationError" || IsDuplicateKey(e) || IsTokenError(e)
    ensures r.PassOn? ==> r.err == e
    // a schema validation failure is reported with its own message
    ensures e.name == "ValidationError" ==> r == Respond(400, e.message)
    // a duplicate key is reported with a fixed message, whatever the database said
    ensures IsDuplicateKey(e) ==> r == Respond(400, UniqueUsernameMessage)
    // token failures are 401, all other answers are 400
    ensures r.Respond? ==> (r.status == 401 <==> IsTokenError(e))
    ensures r.Respond? ==> r.status == 400 || r == Respond(401, InvalidTokenMessage)
  {
    if e.name == "ValidationError" then
      Respond(400, e.message)
    else if e.name == "MongoServerError" && Includes(e.message, DuplicateKeyMarker) then
      Respond(400, UniqueUsernameMessage)
    else if e.name == "JsonWebTokenError" || e.name == "SyntaxError" then
      Respond(401, InvalidTokenMessage)
    else
      PassOn(e)
  }

  // ---------------------------------------------------------------------------
  // userExtractor

  /** The decoded token: who is making the request. */
  datatype Payload = Payload(username: string, id: string)

  /** How a middleware ends: by calling `next()`, or by throwing. */
  datatype Flow = Next | Thrown(error: Error)

  const BearerPrefix: string := "Bearer "

  /** The token of an `Authorization` header: `authorization.replace('Bearer ', '')`
      when the header is present, non-empty and starts with the (case-sensitive)
      scheme prefix; `null` (here `None`) otherwise. */
  function ExtractToken(authorization: Option<string>): (t: Option<string>)
    ensures t.Some? <==> authorization.Some? && StartsWith(authorization.value, BearerPrefix)
    ensures t.Some? ==> authorization.value == BearerPrefix + t.value
  {
    if authorization.Some? && authorization.value != "" && StartsWith(authorization.value, BearerPrefix) then
      ReplacePrefix(authorization.value, BearerPrefix);
      Some(ReplaceFirst(authorization.value, BearerPrefix, ""))
    else
      None
  }

  /** `"Bearer " + t` yields `t` back. */
  lemma ExtractTokenRoundTrip(t: string)
    ensures ExtractToken(Some(BearerPrefix + t)) == Some(t)
  {
    assert (BearerPrefix + t)[..|BearerPrefix|] == BearerPrefix;
  }

  /** The effect of `userExtractor` on one request, given the token verifier. */
  datatype AuthStep = Anonymous | Identified(payload: Payload) | Rejected(error: Error)

  /** What `userExtractor` decides for a header: no (truthy) token means the
      request stays anonymous; otherwise the verifier's verdict. */
  function Authenticate(authorization: Option<string>, verify: string -> Result<Payload, Error>): (r: AuthStep)
    // a token is verified exactly when the header is the prefix followed by at least one character
    ensures r.Anonymous? <==>
      !(authorization.Some? && |authorization.value| > |BearerPrefix| && StartsWith(authorization.value, BearerPrefix))
    ensures !r.Anonymous? ==>
      var token := authorization.value[|BearerPrefix|..];
      token != "" && authorization.value == BearerPrefix + token &&
      verify(token) == (if r.Identified? then Ok(r.payload) else Err(r.error))
  {
    var token := ExtractToken(authorization);
    if token.Some? && token.value != "" then
      match verify(token.value)
      case Ok(p) => Identified(p)
      case Err(e) => Rejected(e)
    else
      Anonymous
  }

  /** An HTTP request as far as `userExtractor` is concerned. */
  class Request {
    const authorization: Option<string>
    var user: Option<Payload>

    constructor (authorization: Option<string>)
      ensures this.authorization == authorization && user == None
    {
      this.authorization := authorization;
      user := None;
    }
  }

  /** Sets `request.user` to the decoded token when there is a token, then calls
      `next()`; a failing `verify` throws before either happens. */
  method UserExtractor(request: Request, verify: string -> Result<Payload, Error>) returns (flow: Flow)
    modifies request
    ensures match Authenticate(request.authorization, verify)
      case Anonymous => request.user == old(request.user) && flow == Next
      case Identified(p) => request.user == Some(p) && flow == Next
      case Rejected(e) => request.user == old(request.user) && flow == Thrown(e)
  {
    var authorization := request.authorization;
    var token := ExtractToken(authorization);
    if token.Some? && token.value != "" {
      var decoded := verify(token.value);
      if decoded.Err? {
        return Thrown(decoded.error);
      }
      request.user := Some(decoded.value);
    }
    flow := Next;
  }

  /** A bearer token the verifier rejects as malformed ends in a 401 `Invalid token` answer. */
  lemma RejectedTokenAnswered(t: string, verify: string -> Result<Payload, Error>)
    requires t != "" && verify(t).Err? && IsTokenError(verify(t).error)
    ensures Authenticate(Some(BearerPrefix + t), verify) == Rejected(verify(t).error)
    ensures ErrorHandler(verify(t).error) == Respond(401, InvalidTokenMessage)
  {
    ExtractTokenRoundTrip(t);
  }
}
