/** middleware/auth.js: the request gate. It reads the `Authorization`
    header, verifies the second space-separated segment as a session token
    and annotates the request with `isAuth` and `userId`; it never rejects a
    request, it always hands it on to the next handler. */
module AuthGate {
  import opened Common
  import opened Store
  import opened Text
  import opened Query

  /** What `jwt.verify` with the server secret does with a token: it throws,
      returns a falsy value, or returns the decoded claims. */
  datatype Verdict = Throws | Falsy | Decoded(claims: Payload)

  /** `jwt.verify(token, secret)`, where `verify` says what it does with a
      non-empty token text. jsonwebtoken throws "jwt must be provided" for a
      falsy token: `undefined` (a header without a second segment) or the
      empty string (a header ending in, or doubling, the space). */
  function JwtVerify(verify: string -> Verdict, token: Option<string>): (v: Verdict)
    ensures !TruthyString(token) ==> v == Throws
    ensures TruthyString(token) ==> v == verify(token.value)
  {
    if token.None? || token.value == "" then Throws else verify(token.value)
  }

  /** The session token of a header value: the element at index 1 of
      `header.split(' ')`, `undefined` when the header holds no space. */
  function BearerToken(header: string): (t: Option<string>)
    ensures t.Some? <==> ' ' in header
    ensures t.Some? ==> ' ' !in t.value
    // It is the run right after the first space, up to the next space or the end.
    ensures t.Some? ==> exists k :: 0 <= k < |header| && header[k] == ' ' && ' ' !in header[..k]
                                    && |t.value| <= |header| - k - 1 && header[k + 1..][..|t.value|] == t.value
                                    && (|t.value| == |header| - k - 1 || header[k + 1 + |t.value|] == ' ')
  {
    var parts := SplitOn(header, ' ');
    BearerTokenFirstSpace(header);
    if |parts| >= 2 then Some(parts[1]) else None
  }

  /** The split of a header has a second part exactly when the header holds a
      space; that part sits right after the first space. */
  lemma BearerTokenFirstSpace(header: string)
    ensures |SplitOn(header, ' ')| >= 2 <==> ' ' in header
    ensures |SplitOn(header, ' ')| >= 2 ==>
              exists k :: 0 <= k < |header| && header[k] == ' ' && ' ' !in header[..k]
                          && |SplitOn(header, ' ')[1]| <= |header| - k - 1
                          && header[k + 1..][..|SplitOn(header, ' ')[1]|] == SplitOn(header, ' ')[1]
                          && (|SplitOn(header, ' ')[1]| == |header| - k - 1
                              || header[k + 1 + |SplitOn(header, ' ')[1]|] == ' ')
  {
    var k := IndexOf(header, ' ');
    if k == -1 {
      SplitWithoutSeparator(header, ' ');
    } else {
      var a, b := header[..k], header[k + 1..];
      assert header == a + [' '] + b;
      SplitAfterFirst(a, ' ', b);
      var tail := SplitOn(b, ' ');
      assert SplitOn(header, ' ') == [a] + tail;
      FirstPartIsPrefix(b, ' ');
    }
  }

  /** The first part of a split is a prefix of the string, followed by the
      separator or by nothing. */
  lemma {:induction false} FirstPartIsPrefix(s: string, sep: char)
    ensures |SplitOn(s, sep)[0]| <= |s| && s[..|SplitOn(s, sep)[0]|] == SplitOn(s, sep)[0]
    ensures |SplitOn(s, sep)[0]| == |s| || s[|SplitOn(s, sep)[0]|] == sep
    decreases |s|
  {
    if |s| > 0 && s[0] != sep {
      FirstPartIsPrefix(s[1..], sep);
      assert SplitOn(s, sep)[0] == [s[0]] + SplitOn(s[1..], sep)[0];
    }
  }

  /** `Authorization: Bearer <token>` with a token free of spaces yields that token. */
  lemma BearerTokenOfScheme(scheme: string, token: string)
    requires ' ' !in scheme && ' ' !in token
    ensures BearerToken(scheme + " " + token) == Some(token)
  {
    SplitAfterFirst(scheme, ' ', token);
    SplitWithoutSeparator(token, ' ');
    assert scheme + " " + token == scheme + [' '] + token;
  }

  /** The annotations the gate leaves: `isAuth`, and `userId` (untouched
      unless verification succeeds). */
  datatype Annotation = Annotation(isAuth: bool, userId: Option<ObjectId>)

  /** What the gate decides for a header (`undefined` is `None`), given the
      verifier and the request's `userId` before the gate runs. */
  function Gate(header: Option<string>, verify: string -> Verdict, userId: Option<ObjectId>): (a: Annotation)
    // No header, or an empty one: not authenticated, userId untouched.
    ensures !TruthyString(header) ==> a == Annotation(false, userId)
    // Authenticated exactly when a header is present, holds a non-empty token, and the token decodes.
    ensures a.isAuth <==> TruthyString(header) && BearerToken(header.value).Some?
                          && BearerToken(header.value).value != ""
                          && verify(BearerToken(header.value).value).Decoded?
    // Then userId is the decoded claim's; otherwise it is left as it was.
    ensures a.isAuth ==> a.userId == Some(verify(BearerToken(header.value).value).claims.userId)
    ensures !a.isAuth ==> a.userId == userId
  {
    if !TruthyString(header) then Annotation(false, userId)
    else
      match JwtVerify(verify, BearerToken(header.value))
      case Throws => Annotation(false, userId)
      case Falsy => Annotation(false, userId)
      case Decoded(claims) => Annotation(true, Some(claims.userId))
  }

  /** An Express request as the gate sees it: the `Authorization` header,
      the two properties it sets (`isAuth` is `undefined` until set), and how
      many times `next` was called for it. */
  class Request {
    const header: Option<string>
    var isAuth: Option<bool>
    var userId: Option<ObjectId>
    var nextCalls: nat

    constructor(header: Option<string>)
      ensures this.header == header
      ensures isAuth == None && userId == None && nextCalls == 0
    {
      this.header := header;
      isAuth := None;
      userId := None;
      nextCalls := 0;
    }
  }

  /** The `auth` middleware: on every path it sets `isAuth`, sets `userId`
      only on success, and calls `next` exactly once. */
  method Auth(req: Request, verify: string -> Verdict)
    modifies req
    ensures req.nextCalls == old(req.nextCalls) + 1
    ensures req.isAuth == Some(Gate(req.header, verify, old(req.userId)).isAuth)
    ensures req.userId == Gate(req.header, verify, old(req.userId)).userId
  {
    if !TruthyString(req.header) {
      req.isAuth := Some(false);
      req.nextCalls := req.nextCalls + 1;
      return;
    }
    var token := BearerToken(req.header.value);
    var decoded := JwtVerify(verify, token);
    if decoded.Throws? {
      req.isAuth := Some(false);
      req.nextCalls := req.nextCalls + 1;
      return;
    }
    if decoded.Falsy? {
      req.isAuth := Some(false);
      req.nextCalls := req.nextCalls + 1;
      return;
    }
    req.userId := Some(decoded.claims.userId);
    req.isAuth := Some(true);
    req.nextCalls := req.nextCalls + 1;
  }

  /** A header without a space has no token, and one whose token is empty
      (`"Bearer "`, or a doubled space) has an empty one; jsonwebtoken throws
      on both, so whatever the verifier, the request is not authenticated. */
  lemma HeaderWithoutTokenUnauthenticated(header: string, verify: string -> Verdict, userId: Option<ObjectId>)
    requires ' ' !in header || BearerToken(header) == Some("")
    ensures Gate(Some(header), verify, userId) == Annotation(false, userId)
  {
  }

  /** Correct credentials give a session that authenticates: when no call
      fails and the password matches the first account with that email or
      username, login as written issues a session, and that session's token,
      sent back as `Bearer <token>`, makes the gate set `isAuth` and that
      account's id. This needs the verifier to decode every token the signer
      produces to the claims it was given, and signed tokens to be non-empty
      and hold no spaces (JWTs are dot-separated base64url). */
  lemma SessionAuthenticates(users: seq<User>, faults: Faults, compare: (string, string) -> bool,
                             sign: (Payload, string) -> string, verify: string -> Verdict,
                             identifier: string, password: string, rememberMe: bool,
                             i: int, before: Option<ObjectId>)
    requires forall p, e :: sign(p, e) != "" && ' ' !in sign(p, e) && verify(sign(p, e)) == Decoded(p)
    requires faults(FindLoginUser).None? && faults(ComparePassword).None? && faults(SignSession).None?
    requires FirstMatch(users, identifier, i) && compare(password, users[i].password)
    ensures Login(users, faults, compare, sign, identifier, password, rememberMe).Ok?
    ensures var s := Login(users, faults, compare, sign, identifier, password, rememberMe).value;
            && s.userId == users[i].id
            && Gate(Some("Bearer " + s.token), verify, before) == Annotation(true, Some(users[i].id))
  {
    AuthenticateSucceeds(users, faults, compare, sign, identifier, password, rememberMe, i);
    var s := Login(users, faults, compare, sign, identifier, password, rememberMe).value;
    BearerAccepted(s.token, verify, Payload(None, users[i].id), before);
  }

  /** Every session login with its validation awaited issues authenticates
      the account it names. */
  lemma AwaitedSessionAuthenticates(users: seq<User>, faults: Faults, compare: (string, string) -> bool,
                                    sign: (Payload, string) -> string, verify: string -> Verdict,
                                    identifier: string, password: string, rememberMe: bool, before: Option<ObjectId>)
    requires forall p, e :: sign(p, e) != "" && ' ' !in sign(p, e) && verify(sign(p, e)) == Decoded(p)
    requires LoginAwaited(users, faults, compare, sign, identifier, password, rememberMe).Ok?
    ensures var s := LoginAwaited(users, faults, compare, sign, identifier, password, rememberMe).value;
            Gate(Some("Bearer " + s.token), verify, before) == Annotation(true, Some(s.userId))
  {
    assert identifier != "" && password != "";
    AuthenticateIssuesSession(users, faults, compare, sign, identifier, password, rememberMe);
    var i :| FirstMatch(users, identifier, i) && compare(password, users[i].password);
    SessionAuthenticates(users, faults, compare, sign, verify, identifier, password, rememberMe, i, before);
  }

  /** A non-empty, space-free token that decodes, sent as `Bearer <token>`,
      authenticates its claims' userId. */
  lemma BearerAccepted(token: string, verify: string -> Verdict, claims: Payload, before: Option<ObjectId>)
    requires token != "" && ' ' !in token && verify(token) == Decoded(claims)
    ensures Gate(Some("Bearer " + token), verify, before) == Annotation(true, Some(claims.userId))
  {
    BearerTokenOfScheme("Bearer", token);
    assert "Bearer " + token == "Bearer" + " " + token;
  }
}
