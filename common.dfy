/** Values shared by every part of the account core: optional values, the
    `{field, message}` entries the validators produce, the ad hoc JavaScript
    error objects the resolvers throw, and the failure oracle that stands for
    awaited store, hashing and mail calls that may reject. */
module Common {

  datatype Option<T> = None | Some(value: T)

  /** One `{ field, message }` entry of a validator's error list. */
  datatype FieldError = FieldError(field: string, message: string)

  /** What an error's `data` property holds: nothing, a validator's error
      list (createUser's 422), or a single `{field, message}` (login's 401s). */
  datatype ErrorData = NoData | FieldList(errors: seq<FieldError>) | OneField(error: FieldError)

  /** A thrown `Error`: its message, the GraphQL resolvers' `code` property,
      the Express handlers' `statusCode` property (both possibly unset) and `data`. */
  datatype Error = Error(message: string, code: Option<int>, statusCode: Option<int>, data: ErrorData)

  /** The error createUser and login throw when validation reports
      problems: "Invalid input", code 422, with the validator's list. */
  function InvalidInput(errors: seq<FieldError>): (e: Error)
    ensures e.code == Some(422) && e.data == FieldList(errors)
    ensures e.message == "Invalid input" && e.statusCode.None?
  {
    Error("Invalid input", Some(422), None, FieldList(errors))
  }

  /** The outcome of a resolver or validator: a value, or a thrown error. */
  datatype Result<T> = Ok(value: T) | Thrown(error: Error)

  /** JavaScript truthiness of an optional number property: `undefined` and `0` are falsy. */
  predicate Truthy(n: Option<int>)
  {
    n.Some? && n.value != 0
  }

  /** JavaScript truthiness of an optional string: `undefined` and `''` are falsy. */
  predicate TruthyString(s: Option<string>)
  {
    s.Some? && s.value != ""
  }

  /** The catch blocks' `if (!error.code) { error.code = 500; }`: an error that
      already carries a code keeps it, any other one is classified as internal. */
  function WithDefaultCode(e: Error): (r: Error)
    ensures Truthy(r.code)
    ensures Truthy(e.code) ==> r == e
    ensures !Truthy(e.code) ==> r.code == Some(500)
    ensures r.message == e.message && r.statusCode == e.statusCode && r.data == e.data
  {
    if Truthy(e.code) then e else e.(code := Some(500))
  }

  /** Each call of the core that may reject or throw. */
  datatype Step =
    | EmailLookup        // User.findOne({ email }) in validateSignup
    | UsernameLookup     // User.findOne({ username }) in validateSignup
    | HashPassword       // bcrypt.hash in createUser
    | SaveUser           // user.save() in createUser
    | SaveToken          // token.save() in createUser
    | SendMail           // mail.send in createUser
    | FindLoginUser      // User.findOne({ $or: ... }) in login
    | ComparePassword    // bcrypt.compare in login
    | SignSession        // jwt.sign in login (throws synchronously, for instance without a secret)

  /** Which calls reject or throw, and with what error; `None` means the call succeeds. */
  type Faults = Step -> Option<Error>

  /** Every call succeeds. */
  function NoFaults(): Faults
  {
    s => None
  }
}
