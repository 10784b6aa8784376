/** validators/auth.js: signup and login input validation. Each validator
    runs every one of its checks in a fixed order and collects one
    `{field, message}` entry per failed check; an empty list means valid.

    The reference definition of the collected list is `Collect`: the report
    of every violated rule, in rule order. The validators themselves are the
    step-by-step `push` sequences of the source, proved equal to it. */
module Validators {
  import opened Common
  import opened Store

  // ---------------------------------------------------------------------
  // validator.isEmpty and validator.isStrongPassword

  /** `validator.isEmpty(s)` with its default options: only the empty string
      is empty; whitespace is not ignored. */
  function IsEmpty(s: string): (empty: bool)
    ensures empty <==> s == ""
  {
    |s| == 0
  }

  /** The character classes `isStrongPassword` counts. */
  predicate IsUppercase(c: char) { 'A' <= c <= 'Z' }
  predicate IsLowercase(c: char) { 'a' <= c <= 'z' }
  predicate IsNumber(c: char) { '0' <= c <= '9' }

  /** The symbols `isStrongPassword` counts, including the space and the pound sign. */
  const Symbols: string := "-#!$@\U{00A3}%^&*()_+|~=`{}[]:\";'<>?,./\\ "

  predicate IsSymbol(c: char)
  {
    c in Symbols
  }

  /** How many characters of `s` belong to the class `cls`. */
  function CountWhere(s: string, cls: char -> bool): (n: nat)
    ensures n <= |s|
  {
    if |s| == 0 then 0
    else (if cls(s[0]) then 1 else 0) + CountWhere(s[1..], cls)
  }

  lemma {:induction false} CountPositiveIff(s: string, cls: char -> bool)
    ensures CountWhere(s, cls) >= 1 <==> exists i :: 0 <= i < |s| && cls(s[i])
  {
    if |s| > 0 {
      CountPositiveIff(s[1..], cls);
      if cls(s[0]) {
        assert cls(s[0]);
      } else if exists i :: 0 <= i < |s| && cls(s[i]) {
        var i :| 0 <= i < |s| && cls(s[i]);
        assert i > 0 && cls(s[1..][i - 1]);
      }
    }
  }

  /** The options createUser's validation passes to `isStrongPassword`. */
  const MinLength := 8
  const MinLowercase := 1
  const MinUppercase := 1
  const MinNumbers := 1
  const MinSymbols := 1

  /** `validator.isStrongPassword(p, {minLength: 8, minLowercase: 1,
      minUppercase: 1, minNumbers: 1, minSymbols: 1})`, by character counts.
      It holds exactly when the password meets the stated policy. */
  function IsStrongPassword(p: string): (strong: bool)
    ensures strong <==> MeetsPolicy(p)
  {
    CountPositiveIff(p, IsLowercase);
    CountPositiveIff(p, IsUppercase);
    CountPositiveIff(p, IsNumber);
    CountPositiveIff(p, IsSymbol);
    && |p| >= MinLength
    && CountWhere(p, IsLowercase) >= MinLowercase
    && CountWhere(p, IsUppercase) >= MinUppercase
    && CountWhere(p, IsNumber) >= MinNumbers
    && CountWhere(p, IsSymbol) >= MinSymbols
  }

  /** The password policy as stated: at least eight characters, and at least
      one lowercase letter, one uppercase letter, one digit and one symbol. */
  ghost predicate MeetsPolicy(p: string)
  {
    && |p| >= 8
    && (exists i :: 0 <= i < |p| && IsLowercase(p[i]))
    && (exists i :: 0 <= i < |p| && IsUppercase(p[i]))
    && (exists i :: 0 <= i < |p| && IsNumber(p[i]))
    && (exists i :: 0 <= i < |p| && IsSymbol(p[i]))
  }

  // ---------------------------------------------------------------------
  // Collecting the reports of violated rules, in rule order

  /** The report of one rule if it is violated, nothing otherwise. */
  function Piece<R>(rule: R, violated: R -> bool, report: R -> FieldError): seq<FieldError>
  {
    if violated(rule) then [report(rule)] else []
  }

  function Collect<R>(rules: seq<R>, violated: R -> bool, report: R -> FieldError): (errors: seq<FieldError>)
    ensures |errors| <= |rules|
  {
    if |rules| == 0 then []
    else Piece(rules[0], violated, report) + Collect(rules[1..], violated, report)
  }

  /** Collecting five rules is the concatenation of their five pieces. */
  lemma CollectFive<R>(rules: seq<R>, violated: R -> bool, report: R -> FieldError)
    requires |rules| == 5
    ensures Collect(rules, violated, report)
         == Piece(rules[0], violated, report) + Piece(rules[1], violated, report) + Piece(rules[2], violated, report)
          + Piece(rules[3], violated, report) + Piece(rules[4], violated, report)
  {
    var r1 := rules[1..];
    var r2 := r1[1..];
    var r3 := r2[1..];
    var r4 := r3[1..];
    assert Collect(r4[1..], violated, report) == [];
    assert Collect(r4, violated, report) == Piece(rules[4], violated, report) + [];
    assert Collect(r3, violated, report) == Piece(rules[3], violated, report) + Collect(r4, violated, report);
    assert Collect(r2, violated, report) == Piece(rules[2], violated, report) + Collect(r3, violated, report);
    assert Collect(r1, violated, report) == Piece(rules[1], violated, report) + Collect(r2, violated, report);
    AppendFive(Piece(rules[0], violated, report), Piece(rules[1], violated, report), Piece(rules[2], violated, report),
               Piece(rules[3], violated, report), Piece(rules[4], violated, report));
  }

  lemma AppendFive(a: seq<FieldError>, b: seq<FieldError>, c: seq<FieldError>, d: seq<FieldError>, e: seq<FieldError>)
    ensures a + (b + (c + (d + e))) == a + b + c + d + e
  {
  }

  /** The full report list of a rule list, violated or not. */
  function Reports<R>(rules: seq<R>, report: R -> FieldError): (all: seq<FieldError>)
    ensures |all| == |rules|
    ensures forall i :: 0 <= i < |rules| ==> all[i] == report(rules[i])
  {
    if |rules| == 0 then [] else [report(rules[0])] + Reports(rules[1..], report)
  }

  /** `a` is `b` with some entries left out, the rest in the same order. */
  predicate IsSubsequence(a: seq<FieldError>, b: seq<FieldError>)
  {
    || |a| == 0
    || (&& |b| > 0
        && ((a[0] == b[0] && IsSubsequence(a[1..], b[1..])) || IsSubsequence(a, b[1..])))
  }

  lemma {:induction false} CollectEmptyIff<R>(rules: seq<R>, violated: R -> bool, report: R -> FieldError)
    ensures Collect(rules, violated, report) == [] <==> forall i :: 0 <= i < |rules| ==> !violated(rules[i])
  {
    if |rules| > 0 {
      CollectEmptyIff(rules[1..], violated, report);
      assert forall i :: 1 <= i < |rules| ==> rules[i] == rules[1..][i - 1];
    }
  }

  /** No check short-circuits another: a report is present exactly when its
      rule is in the list and violated (reports of distinct rules differ). */
  lemma {:induction false} CollectHas<R>(rules: seq<R>, violated: R -> bool, report: R -> FieldError, rule: R)
    requires forall a, b :: report(a) == report(b) ==> a == b
    ensures report(rule) in Collect(rules, violated, report) <==> rule in rules && violated(rule)
  {
    if |rules| > 0 {
      CollectHas(rules[1..], violated, report, rule);
      assert rule in rules <==> rule == rules[0] || rule in rules[1..];
    }
  }

  /** The collected reports keep the rules' order. */
  lemma {:induction false} CollectInOrder<R>(rules: seq<R>, violated: R -> bool, report: R -> FieldError)
    ensures IsSubsequence(Collect(rules, violated, report), Reports(rules, report))
  {
    if |rules| > 0 {
      CollectInOrder(rules[1..], violated, report);
      var rest := Collect(rules[1..], violated, report);
      var all := Reports(rules, report);
      assert all[1..] == Reports(rules[1..], report);
      if violated(rules[0]) {
        assert ([report(rules[0])] + rest)[1..] == rest;
      } else {
        assert Collect(rules, violated, report) == rest;
      }
    }
  }

  // ---------------------------------------------------------------------
  // validateSignup

  datatype SignupRule = EmailInvalid | EmailTaken | UsernameRequired | UsernameTaken | PasswordWeak

  /** The order in which validateSignup runs its checks. */
  const SignupRules: seq<SignupRule> := [EmailInvalid, EmailTaken, UsernameRequired, UsernameTaken, PasswordWeak]

  function SignupReport(rule: SignupRule): FieldError
  {
    match rule
    case EmailInvalid => FieldError("email", "Email is invalid")
    case EmailTaken => FieldError("email", "Email already exists")
    case UsernameRequired => FieldError("username", "Username is required")
    case UsernameTaken => FieldError("username", "Username already exists")
    case PasswordWeak => FieldError("password", "Password not strong enough.")
  }

  /** Whether `rule` fails for these inputs against this account collection. */
  function SignupCheck(users: seq<User>, isEmail: string -> bool, email: string, username: string, password: string): SignupRule -> bool
  {
    (rule: SignupRule) =>
      match rule
      case EmailInvalid => !isEmail(email)
      case EmailTaken => FindFirst(users, HasEmail(email)).Some?
      case UsernameRequired => IsEmpty(username)
      case UsernameTaken => FindFirst(users, HasUsername(username)).Some?
      case PasswordWeak => !IsStrongPassword(password)
  }

  /** The list validateSignup resolves to when neither store lookup fails. */
  function SignupErrors(users: seq<User>, isEmail: string -> bool, email: string, username: string, password: string): seq<FieldError>
  {
    Collect(SignupRules, SignupCheck(users, isEmail, email, username, password), SignupReport)
  }

  /** What validateSignup resolves or rejects with: a failed lookup rejects
      (the email lookup runs first), classified as internal unless it
      carries a code; otherwise the collected list. */
  function SignupOutcome(users: seq<User>, isEmail: string -> bool, faults: Faults,
                         email: string, username: string, password: string): Result<seq<FieldError>>
  {
    if faults(EmailLookup).Some? then Thrown(WithDefaultCode(faults(EmailLookup).value))
    else if faults(UsernameLookup).Some? then Thrown(WithDefaultCode(faults(UsernameLookup).value))
    else Ok(SignupErrors(users, isEmail, email, username, password))
  }

  /** The contribution of each signup rule, spelled out (the email rules here, the others below). */
  lemma SignupPieces(users: seq<User>, isEmail: string -> bool, email: string, username: string, password: string)
    ensures var check := SignupCheck(users, isEmail, email, username, password);
            && Piece(EmailInvalid, check, SignupReport)
               == (if !isEmail(email) then [FieldError("email", "Email is invalid")] else [])
            && Piece(EmailTaken, check, SignupReport)
               == (if FindFirst(users, HasEmail(email)).Some? then [FieldError("email", "Email already exists")] else [])
  {
  }

  lemma SignupPiecesRest(users: seq<User>, isEmail: string -> bool, email: string, username: string, password: string)
    ensures var check := SignupCheck(users, isEmail, email, username, password);
            && Piece(UsernameRequired, check, SignupReport)
               == (if IsEmpty(username) then [FieldError("username", "Username is required")] else [])
            && Piece(UsernameTaken, check, SignupReport)
               == (if FindFirst(users, HasUsername(username)).Some? then [FieldError("username", "Username already exists")] else [])
            && Piece(PasswordWeak, check, SignupReport)
               == (if !IsStrongPassword(password) then [FieldError("password", "Password not strong enough.")] else [])
  {
  }

  /** The collected signup list is the five pieces in rule order. */
  lemma SignupErrorsPieces(users: seq<User>, isEmail: string -> bool, email: string, username: string, password: string)
    ensures var check := SignupCheck(users, isEmail, email, username, password);
            SignupErrors(users, isEmail, email, username, password)
              == Piece(EmailInvalid, check, SignupReport) + Piece(EmailTaken, check, SignupReport)
               + Piece(UsernameRequired, check, SignupReport) + Piece(UsernameTaken, check, SignupReport)
               + Piece(PasswordWeak, check, SignupReport)
  {
    assert SignupRules[0] == EmailInvalid && SignupRules[1] == EmailTaken && SignupRules[2] == UsernameRequired;
    assert SignupRules[3] == UsernameTaken && SignupRules[4] == PasswordWeak;
    CollectFive(SignupRules, SignupCheck(users, isEmail, email, username, password), SignupReport);
  }

  /** `validateSignup(email, username, password)` against the account
      collection `users`, which it only reads. */
  method ValidateSignup(users: seq<User>, isEmail: string -> bool, faults: Faults,
                        email: string, username: string, password: string)
    returns (r: Result<seq<FieldError>>)
    ensures r == SignupOutcome(users, isEmail, faults, email, username, password)
  {
    ghost var check := SignupCheck(users, isEmail, email, username, password);
    SignupPieces(users, isEmail, email, username, password);
    SignupPiecesRest(users, isEmail, email, username, password);
    var errors: seq<FieldError> := [];
    if !isEmail(email) {
      errors := errors + [FieldError("email", "Email is invalid")];
    }
    ghost var upTo := Piece(EmailInvalid, check, SignupReport);
    assert errors == upTo;
    if faults(EmailLookup).Some? {
      return Thrown(WithDefaultCode(faults(EmailLookup).value));
    }
    var existingEmail := FindFirst(users, HasEmail(email));
    if existingEmail.Some? {
      errors := errors + [FieldError("email", "Email already exists")];
    }
    upTo := upTo + Piece(EmailTaken, check, SignupReport);
    assert errors == upTo;
    if IsEmpty(username) {
      errors := errors + [FieldError("username", "Username is required")];
    }
    upTo := upTo + Piece(UsernameRequired, check, SignupReport);
    assert errors == upTo;
    if faults(UsernameLookup).Some? {
      return Thrown(WithDefaultCode(faults(UsernameLookup).value));
    }
    var existingUsername := FindFirst(users, HasUsername(username));
    if existingUsername.Some? {
      errors := errors + [FieldError("username", "Username already exists")];
    }
    upTo := upTo + Piece(UsernameTaken, check, SignupReport);
    assert errors == upTo;
    if !IsStrongPassword(password) {
      errors := errors + [FieldError("password", "Password not strong enough.")];
    }
    upTo := upTo + Piece(PasswordWeak, check, SignupReport);
    assert errors == upTo;
    SignupErrorsPieces(users, isEmail, email, username, password);
    return Ok(errors);
  }

  /** Collecting one more rule appends at most its report. */
  lemma {:induction false} CollectSnoc<R>(rules: seq<R>, violated: R -> bool, report: R -> FieldError)
    requires |rules| > 0
    ensures Collect(rules, violated, report)
         == Collect(rules[..|rules| - 1], violated, report)
          + (if violated(rules[|rules| - 1]) then [report(rules[|rules| - 1])] else [])
    decreases |rules|
  {
    if |rules| > 1 {
      CollectSnoc(rules[1..], violated, report);
      assert rules[1..][..|rules| - 2] == rules[..|rules| - 1][1..];
    }
  }

  // Properties of validateSignup

  lemma SignupReportInjective()
    ensures forall a, b :: SignupReport(a) == SignupReport(b) ==> a == b
  {
  }

  /** The signup input is valid exactly when the email is well formed and
      unused, the username is non-empty and unused, and the password meets
      the policy. */
  lemma SignupErrorsEmptyIff(users: seq<User>, isEmail: string -> bool, email: string, username: string, password: string)
    ensures SignupErrors(users, isEmail, email, username, password) == []
        <==> && isEmail(email)
             && (forall i :: 0 <= i < |users| ==> users[i].email != email)
             && username != ""
             && (forall i :: 0 <= i < |users| ==> users[i].username != username)
             && MeetsPolicy(password)
  {
    var check := SignupCheck(users, isEmail, email, username, password);
    CollectEmptyIff(SignupRules, check, SignupReport);
    assert (forall i :: 0 <= i < |SignupRules| ==> !check(SignupRules[i]))
       <==> (!check(EmailInvalid) && !check(EmailTaken) && !check(UsernameRequired)
             && !check(UsernameTaken) && !check(PasswordWeak));
  }

  /** Every check runs: each report is present exactly when its check fails. */
  lemma SignupErrorIff(users: seq<User>, isEmail: string -> bool, email: string, username: string, password: string, rule: SignupRule)
    ensures SignupReport(rule) in SignupErrors(users, isEmail, email, username, password)
        <==> SignupCheck(users, isEmail, email, username, password)(rule)
  {
    SignupReportInjective();
    CollectHas(SignupRules, SignupCheck(users, isEmail, email, username, password), SignupReport, rule);
  }

  /** A password report is present exactly when the password misses the policy. */
  lemma PasswordErrorIff(users: seq<User>, isEmail: string -> bool, email: string, username: string, password: string)
    ensures FieldError("password", "Password not strong enough.") in SignupErrors(users, isEmail, email, username, password)
        <==> !MeetsPolicy(password)
  {
    SignupErrorIff(users, isEmail, email, username, password, PasswordWeak);
  }

  /** At most five reports, in the fixed order email-invalid, email-exists,
      username-required, username-exists, password-weak. */
  lemma SignupErrorsOrdered(users: seq<User>, isEmail: string -> bool, email: string, username: string, password: string)
    ensures |SignupErrors(users, isEmail, email, username, password)| <= 5
    ensures IsSubsequence(SignupErrors(users, isEmail, email, username, password),
                          [FieldError("email", "Email is invalid"),
                           FieldError("email", "Email already exists"),
                           FieldError("username", "Username is required"),
                           FieldError("username", "Username already exists"),
                           FieldError("password", "Password not strong enough.")])
  {
    CollectInOrder(SignupRules, SignupCheck(users, isEmail, email, username, password), SignupReport);
    SignupReportsListed();
  }

  /** The five reports of validateSignup, in rule order. */
  lemma SignupReportsListed()
    ensures Reports(SignupRules, SignupReport)
         == [FieldError("email", "Email is invalid"),
             FieldError("email", "Email already exists"),
             FieldError("username", "Username is required"),
             FieldError("username", "Username already exists"),
             FieldError("password", "Password not strong enough.")]
  {
    var all := Reports(SignupRules, SignupReport);
    assert all[0] == SignupReport(EmailInvalid) && all[1] == SignupReport(EmailTaken);
    assert all[2] == SignupReport(UsernameRequired) && all[3] == SignupReport(UsernameTaken);
    assert all[4] == SignupReport(PasswordWeak);
  }

  /** A failed store lookup rejects validateSignup with the lookup's error,
      classified as internal (500) unless it already carries a code; the
      email lookup runs first, so its failure wins; with no failed lookup
      it resolves to the collected list. */
  lemma SignupOutcomeCases(users: seq<User>, isEmail: string -> bool, faults: Faults, email: string, username: string, password: string)
    ensures SignupOutcome(users, isEmail, faults, email, username, password).Thrown?
        <==> faults(EmailLookup).Some? || faults(UsernameLookup).Some?
    ensures faults(EmailLookup).Some? ==>
              SignupOutcome(users, isEmail, faults, email, username, password)
                == Thrown(WithDefaultCode(faults(EmailLookup).value))
    ensures faults(EmailLookup).None? && faults(UsernameLookup).Some? ==>
              SignupOutcome(users, isEmail, faults, email, username, password)
                == Thrown(WithDefaultCode(faults(UsernameLookup).value))
    ensures faults(EmailLookup).None? && faults(UsernameLookup).None? ==>
              SignupOutcome(users, isEmail, faults, email, username, password)
                == Ok(SignupErrors(users, isEmail, email, username, password))
  {
  }

  // ---------------------------------------------------------------------
  // validateLogin

  datatype LoginRule = IdentifierRequired | PasswordRequired

  const LoginRules: seq<LoginRule> := [IdentifierRequired, PasswordRequired]

  function LoginReport(rule: LoginRule): FieldError
  {
    match rule
    case IdentifierRequired => FieldError("identifier", "Email/Username is required")
    case PasswordRequired => FieldError("password", "Password is required")
  }

  function LoginCheck(identifier: string, password: string): LoginRule -> bool
  {
    (rule: LoginRule) =>
      match rule
      case IdentifierRequired => IsEmpty(identifier)
      case PasswordRequired => IsEmpty(password)
  }

  /** The list validateLogin resolves to. */
  function LoginErrors(identifier: string, password: string): seq<FieldError>
  {
    Collect(LoginRules, LoginCheck(identifier, password), LoginReport)
  }

  /** `validateLogin(identifier, password)`: the value its Promise resolves to. */
  method ValidateLogin(identifier: string, password: string) returns (errors: seq<FieldError>)
    ensures errors == LoginErrors(identifier, password)
  {
    errors := [];
    if IsEmpty(identifier) {
      errors := errors + [FieldError("identifier", "Email/Username is required")];
    }
    if IsEmpty(password) {
      errors := errors + [FieldError("password", "Password is required")];
    }
    CollectSnoc(LoginRules, LoginCheck(identifier, password), LoginReport);
    assert LoginRules[..1] == [IdentifierRequired];
  }

  /** An identifier report exactly when the identifier is the empty string, a
      password report exactly when the password is; whitespace counts as
      content; so there are at most two reports. */
  lemma LoginErrorsIff(identifier: string, password: string)
    ensures FieldError("identifier", "Email/Username is required") in LoginErrors(identifier, password) <==> identifier == ""
    ensures FieldError("password", "Password is required") in LoginErrors(identifier, password) <==> password == ""
    ensures |LoginErrors(identifier, password)| <= 2
    ensures LoginErrors(identifier, password) == [] <==> identifier != "" && password != ""
  {
    var check := LoginCheck(identifier, password);
    assert forall a, b :: LoginReport(a) == LoginReport(b) ==> a == b;
    CollectHas(LoginRules, check, LoginReport, IdentifierRequired);
    CollectHas(LoginRules, check, LoginReport, PasswordRequired);
    CollectEmptyIff(LoginRules, check, LoginReport);
  }
}
