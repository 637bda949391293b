/** The registration handler, POST / of the users router (controllers/users.js). */
module Users {
  import opened Wrappers
  import opened Middleware
  import opened Json
  import opened JsString

  /** The fields of the request body the handler reads; an absent field is `None`. */
  datatype RegistrationBody = RegistrationBody(username: Option<string>, name: Option<string>, password: Option<string>)

  /** The record handed to the database: no plaintext password, only its hash. */
  datatype NewUser = NewUser(username: string, name: Option<string>, passwordHash: string)

  /** A JSON response body: `{ error }` or the saved user. */
  datatype Body<S> = ErrorBody(error: string) | UserBody(user: S)

  /** How the handler ends: with a response, or with the error thrown by `save`. */
  datatype Outcome<S> = Reply(status: nat, body: Body<S>) | Failed(error: Error)

  const MissingMessage: string := "Missing username or password"
  const TooShortMessage: string := "Both username and password must be at least 3 characters long"
  const MinLength: nat := 3
  const SaltRounds: nat := 10

  /** A body field that is present and truthy, so `!field` is false. */
  predicate Filled(s: Option<string>)
  {
    s.Some? && Truthy(JsStr(s.value))
  }

  /** The two early returns of the handler: the error message, or `None` when the body passes. */
  function CheckRegistration(body: RegistrationBody): (r: Option<string>)
    // the body passes exactly when both fields are present with a `length` of at least three
    ensures r.None? <==>
      body.username.Some? && JsLength(body.username.value) >= MinLength &&
      body.password.Some? && JsLength(body.password.value) >= MinLength
    // a missing field is reported as missing, never as too short
    ensures !Filled(body.username) || !Filled(body.password) ==> r == Some(MissingMessage)
    ensures Filled(body.username) && Filled(body.password) && r.Some? ==> r == Some(TooShortMessage)
    // every rejection carries one of the two messages
    ensures r.Some? ==> r.value == MissingMessage || r.value == TooShortMessage
  {
    if !Filled(body.username) || !Filled(body.password) then
      Some(MissingMessage)
    else if JsLength(body.username.value) < MinLength || JsLength(body.password.value) < MinLength then
      Some(TooShortMessage)
    else
      None
  }

  /** `name` takes no part in validation. */
  lemma NameNotValidated(body: RegistrationBody, name: Option<string>)
    ensures CheckRegistration(body.(name := name)) == CheckRegistration(body)
  {
  }

  /** Lengths are counted as JavaScript does: two characters outside the Basic
      Multilingual Plane make a long enough password. */
  lemma AstralPasswordLongEnough()
    ensures CheckRegistration(RegistrationBody(Some("abc"), None, Some("\U{1F600}\U{1F600}"))) == None
  {
    var p := "\U{1F600}\U{1F600}";
    assert p[1..] == "\U{1F600}" && p[1..][1..] == "";
    assert JsLength(p) == 4;
  }

  /** The handler, with bcrypt's `hash(password, saltRounds)` and the model's
      `save()` as parameters. */
  function Register<S>(body: RegistrationBody, hash: (string, nat) -> string, save: NewUser -> Result<S, Error>): (r: Outcome<S>)
    // rejected bodies get 400 with the check's message, and nothing is saved
    ensures CheckRegistration(body).Some? ==> r == Reply(400, ErrorBody(CheckRegistration(body).value))
    // accepted bodies are saved as username, name and the salted hash of the password
    ensures CheckRegistration(body).None? ==>
      var user := NewUser(body.username.value, body.name, hash(body.password.value, SaltRounds));
      match save(user)
      case Ok(saved) => r == Reply(201, UserBody(saved))
      case Err(e) => r == Failed(e)
    // the only statuses are 400 and 201
    ensures r.Reply? ==> (r.status == 201 <==> r.body.UserBody?) && (r.status == 400 <==> r.body.ErrorBody?)
  {
    match CheckRegistration(body)
    case Some(message) => Reply(400, ErrorBody(message))
    case None =>
      var passwordHash := hash(body.password.value, SaltRounds);
      var user := NewUser(body.username.value, body.name, passwordHash);
      match save(user)
      case Ok(saved) => Reply(201, UserBody(saved))
      case Err(e) => Failed(e)
  }

  /** Registering a taken username: `save` fails with the database's duplicate-key
      error and the handler throws it; passed to `errorHandler`, as the registration
      tests expect, it is answered with 400 and the uniqueness message. */
  lemma DuplicateUsernameAnswered<S>(body: RegistrationBody, hash: (string, nat) -> string, save: NewUser -> Result<S, Error>)
    requires CheckRegistration(body).None?
    requires save(NewUser(body.username.value, body.name, hash(body.password.value, SaltRounds))).Err?
    requires IsDuplicateKey(save(NewUser(body.username.value, body.name, hash(body.password.value, SaltRounds))).error)
    ensures Register(body, hash, save).Failed?
    ensures ErrorHandler(Register(body, hash, save).error) == Respond(400, UniqueUsernameMessage)
  {
  }
}
