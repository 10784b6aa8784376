/** graphql/resolvers/Query.js: the login resolver. It only reads the
    account collection and either throws a classified error or returns a
    session. bcrypt.compare is `compare`, jwt.sign with the server secret is
    `sign`, and `faults` says which call rejects or throws. */
module Query {
  import opened Common
  import opened Store
  import opened Validators

  /** The claims put into the signed session token. `identifier` is read
      from the account record (`user.identifier`), which has no such field,
      so it is always undefined (`None`). */
  datatype Payload = Payload(identifier: Option<string>, userId: ObjectId)

  /** The resolver's reply: `{ token, userId, otp_enabled }`. */
  datatype Session = Session(token: string, userId: ObjectId, otpEnabled: bool)

  /** The `expiresIn` option: sixty days when "remember me" is set, two hours otherwise. */
  function ExpiresIn(rememberMe: bool): (expiry: string)
    ensures expiry == "60 days" || expiry == "2h"
    ensures expiry == "60 days" <==> rememberMe
  {
    if rememberMe then "60 days" else "2h"
  }

  /** A value as JavaScript sees it when a property is read. */
  datatype JsValue = Undefined | Number(n: int)

  /** A Promise that has not been awaited. */
  datatype Promise<T> = Promise(resolvesTo: T)

  /** `p.length` for a Promise: Promises have no `length` property. */
  function LengthOf<T>(p: Promise<T>): (len: JsValue)
    ensures len == Undefined
  {
    Undefined
  }

  /** `v > 0`: `undefined` converts to NaN, and no comparison with NaN holds. */
  predicate GreaterThanZero(v: JsValue): (holds: bool)
    ensures holds <==> v.Number? && v.n > 0
    ensures v == Undefined ==> !holds
  {
    match v
    case Undefined => false
    case Number(n) => n > 0
  }

  const UserNotFound := Error("User not found", Some(401), None,
                              OneField(FieldError("identifier", "Email/Username not found")))
  const LoginMismatch := Error("Login combination not found", Some(401), None,
                               OneField(FieldError("password", "Login combination not found")))

  /** The `try` block of login: find the first account whose email or
      username is the identifier, compare the password with its hash, and
      sign a session for it; every throw, signing's included, passes the
      catch block, which classifies an error without a code as 500. */
  function Authenticate(users: seq<User>, faults: Faults, compare: (string, string) -> bool,
                        sign: (Payload, string) -> string,
                        identifier: string, password: string, rememberMe: bool): (r: Result<Session>)
    // A failed lookup rethrows its error, code kept or set to 500.
    ensures faults(FindLoginUser).Some? ==> r == Thrown(WithDefaultCode(faults(FindLoginUser).value))
    // Every thrown error carries a code.
    ensures r.Thrown? ==> Truthy(r.error.code)
  {
    if faults(FindLoginUser).Some? then Thrown(WithDefaultCode(faults(FindLoginUser).value))
    else
      match FindFirst(users, HasEmailOrUsername(identifier))
      case None => Thrown(WithDefaultCode(UserNotFound))
      case Some(i) =>
        var user := users[i];
        if faults(ComparePassword).Some? then Thrown(WithDefaultCode(faults(ComparePassword).value))
        else if !compare(password, user.password) then Thrown(WithDefaultCode(LoginMismatch))
        else if faults(SignSession).Some? then Thrown(WithDefaultCode(faults(SignSession).value))
        else
          var token := sign(Payload(None, user.id), ExpiresIn(rememberMe));
          Ok(Session(token, user.id, user.otpEnabled))
  }

  /** Account `i` is the one the login lookup finds: the first whose email or
      username is the identifier. */
  ghost predicate FirstMatch(users: seq<User>, identifier: string, i: int)
  {
    && 0 <= i < |users|
    && (users[i].email == identifier || users[i].username == identifier)
    && (forall k :: 0 <= k < i ==> users[k].email != identifier && users[k].username != identifier)
  }

  /** No account has the identifier as email or username: 401 on `identifier`. */
  lemma AuthenticateUnknownIdentifier(users: seq<User>, faults: Faults, compare: (string, string) -> bool,
                                      sign: (Payload, string) -> string,
                                      identifier: string, password: string, rememberMe: bool)
    requires faults(FindLoginUser).None?
    requires forall i :: 0 <= i < |users| ==> users[i].email != identifier && users[i].username != identifier
    ensures Authenticate(users, faults, compare, sign, identifier, password, rememberMe) == Thrown(UserNotFound)
    ensures UserNotFound.code == Some(401) && UserNotFound.data.error.field == "identifier"
  {
    assert forall i :: 0 <= i < |users| ==> !HasEmailOrUsername(identifier)(users[i]);
  }

  /** The found account's hash does not match: 401 on `password`, and a
      failed comparison is rethrown with its code or 500; nothing is signed. */
  lemma AuthenticateWrongPassword(users: seq<User>, faults: Faults, compare: (string, string) -> bool,
                                  sign: (Payload, string) -> string,
                                  identifier: string, password: string, rememberMe: bool, i: int)
    requires faults(FindLoginUser).None? && FirstMatch(users, identifier, i)
    ensures faults(ComparePassword).Some? ==>
              Authenticate(users, faults, compare, sign, identifier, password, rememberMe)
                == Thrown(WithDefaultCode(faults(ComparePassword).value))
    ensures faults(ComparePassword).None? && !compare(password, users[i].password) ==>
              Authenticate(users, faults, compare, sign, identifier, password, rememberMe) == Thrown(LoginMismatch)
    ensures LoginMismatch.code == Some(401) && LoginMismatch.data.error.field == "password"
  {
    FindFirstIs(users, HasEmailOrUsername(identifier), i);
  }

  /** The found account's hash matches but signing throws (no secret
      configured, say): the signer's error is rethrown with its code or 500. */
  lemma AuthenticateSignFails(users: seq<User>, faults: Faults, compare: (string, string) -> bool,
                              sign: (Payload, string) -> string,
                              identifier: string, password: string, rememberMe: bool, i: int)
    requires faults(FindLoginUser).None? && faults(ComparePassword).None? && FirstMatch(users, identifier, i)
    requires compare(password, users[i].password) && faults(SignSession).Some?
    ensures Authenticate(users, faults, compare, sign, identifier, password, rememberMe)
              == Thrown(WithDefaultCode(faults(SignSession).value))
    ensures !Truthy(faults(SignSession).value.code) ==>
              Authenticate(users, faults, compare, sign, identifier, password, rememberMe).error.code == Some(500)
  {
    FindFirstIs(users, HasEmailOrUsername(identifier), i);
  }

  /** Correct credentials log in: when no call fails, the first account whose
      email or username is the identifier and whose hash matches the
      password gets a session with its id and otp flag, signed over its id
      with the `rememberMe` expiry. */
  lemma AuthenticateSucceeds(users: seq<User>, faults: Faults, compare: (string, string) -> bool,
                             sign: (Payload, string) -> string,
                             identifier: string, password: string, rememberMe: bool, i: int)
    requires faults(FindLoginUser).None? && faults(ComparePassword).None? && faults(SignSession).None?
    requires FirstMatch(users, identifier, i) && compare(password, users[i].password)
    ensures Authenticate(users, faults, compare, sign, identifier, password, rememberMe)
              == Ok(Session(sign(Payload(None, users[i].id), ExpiresIn(rememberMe)), users[i].id, users[i].otpEnabled))
  {
    FindFirstIs(users, HasEmailOrUsername(identifier), i);
  }

  /** A session is only ever issued for the account the lookup finds, whose
      hash matches; its userId and otp flag are that account's, and so is
      the userId in the signed payload, which expires after 60 days when
      "remember me" is set and after 2 hours otherwise. */
  lemma AuthenticateIssuesSession(users: seq<User>, faults: Faults, compare: (string, string) -> bool,
                                  sign: (Payload, string) -> string,
                                  identifier: string, password: string, rememberMe: bool)
    requires Authenticate(users, faults, compare, sign, identifier, password, rememberMe).Ok?
    ensures var s := Authenticate(users, faults, compare, sign, identifier, password, rememberMe).value;
            && faults(FindLoginUser).None? && faults(ComparePassword).None? && faults(SignSession).None?
            && exists i :: && FirstMatch(users, identifier, i)
                           && compare(password, users[i].password)
                           && s == Session(sign(Payload(None, users[i].id), if rememberMe then "60 days" else "2h"),
                                           users[i].id, users[i].otpEnabled)
  {
    var i := FindFirst(users, HasEmailOrUsername(identifier)).value;
    assert HasEmailOrUsername(identifier)(users[i]);
    assert forall k :: 0 <= k < i ==> !HasEmailOrUsername(identifier)(users[k]);
    assert FirstMatch(users, identifier, i);
  }

  /** `login({ identifier, password, rememberMe })` as written: validateLogin
      is called without `await`, so `errors` is a Promise, `errors.length > 0`
      is false, and the inputs go to the lookup whatever the validator says. */
  function Login(users: seq<User>, faults: Faults, compare: (string, string) -> bool,
                 sign: (Payload, string) -> string,
                 identifier: string, password: string, rememberMe: bool): (r: Result<Session>)
    ensures r == Authenticate(users, faults, compare, sign, identifier, password, rememberMe)
  {
    var errors := Promise(LoginErrors(identifier, password));
    if GreaterThanZero(LengthOf(errors)) then Thrown(InvalidInput(errors.resolvesTo))
    else Authenticate(users, faults, compare, sign, identifier, password, rememberMe)
  }

  /** With an empty identifier and no accounts, validateLogin reports the
      identifier, yet login throws 401 "User not found" instead of 422. */
  lemma LoginSkipsValidation(compare: (string, string) -> bool, sign: (Payload, string) -> string)
    ensures LoginErrors("", "secret") != []
    ensures Login([], NoFaults(), compare, sign, "", "secret", false) == Thrown(UserNotFound)
    ensures Login([], NoFaults(), compare, sign, "", "secret", false).error.code != Some(422)
  {
    LoginErrorsIff("", "secret");
  }

  /** As written, login never throws the "Invalid input" 422 error: when no
      awaited call fails, every error it throws is a 401. */
  lemma LoginNever422(users: seq<User>, compare: (string, string) -> bool, sign: (Payload, string) -> string,
                      identifier: string, password: string, rememberMe: bool)
    ensures var r := Login(users, NoFaults(), compare, sign, identifier, password, rememberMe);
            r.Thrown? ==> r.error.code == Some(401)
  {
  }

  /** login with the validation awaited, as evidently intended: a non-empty
      list of problems throws 422 carrying that list before any lookup;
      otherwise the lookup runs. */
  function LoginAwaited(users: seq<User>, faults: Faults, compare: (string, string) -> bool,
                        sign: (Payload, string) -> string,
                        identifier: string, password: string, rememberMe: bool): (r: Result<Session>)
    ensures identifier == "" || password == "" ==> r == Thrown(InvalidInput(LoginErrors(identifier, password)))
    ensures identifier != "" && password != "" ==> r == Authenticate(users, faults, compare, sign, identifier, password, rememberMe)
  {
    LoginErrorsIff(identifier, password);
    var errors := LoginErrors(identifier, password);
    if |errors| > 0 then Thrown(InvalidInput(errors))
    else Authenticate(users, faults, compare, sign, identifier, password, rememberMe)
  }

  /** With validation awaited, an empty identifier or password is reported
      with 422 and never reaches the password comparison. */
  lemma LoginAwaitedRejectsEmpty(users: seq<User>, faults: Faults, compare: (string, string) -> bool,
                                 sign: (Payload, string) -> string, password: string, rememberMe: bool)
    ensures LoginAwaited(users, faults, compare, sign, "", password, rememberMe).error.code == Some(422)
    ensures FieldError("identifier", "Email/Username is required")
              in LoginAwaited(users, faults, compare, sign, "", password, rememberMe).error.data.errors
  {
    LoginErrorsIff("", password);
  }
}
