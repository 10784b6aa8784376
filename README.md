# Wikibeerdia account core, modelled in Dafny

This project models the account-credential lifecycle of the Wikibeerdia
backend, together with the small upload helpers around it:

- signup and login input validation (`validators/auth.js`);
- account creation and email verification, a small state machine over the
  account collection and the verification-token collection
  (`graphql/resolvers/Mutation.js`);
- the login decision (`graphql/resolvers/Query.js`);
- the request gate that reads the session token from the `Authorization`
  header (`middleware/auth.js`);
- the MIME filter, the stored file name, the `/post-image` handler and
  the status fallback of the error handler (`app.js`).

Modules follow the source files:

| module (file) | source | form |
|---|---|---|
| `Common` (common.dfy) | shared values | datatypes: `Option`, `FieldError`, `Error` (message, `code`, `statusCode`, `data`), `Result`, the catch-block rule `WithDefaultCode`, the failure oracle `Faults` |
| `Store` (store.dfy) | Mongo collections | `User` and `Token` documents, `FindFirst` (= `findOne`: first match in natural order), the filters used |
| `Text` (text.dfy) | JavaScript strings | `indexOf`, `split(' ')`, global one-character `replace` |
| `Hex` (hex.dfy) | `randomBytes(16).toString('hex')` | hex encoding with its decoding and round trip |
| `Validators` (validators.dfy) | validators/auth.js | `ValidateSignup` and `ValidateLogin` are the step-by-step `push` sequences, proved equal to the reference list `Collect` (the report of every violated rule, in rule order) |
| `Mutation` (mutation.dfy) | graphql/resolvers/Mutation.js | class `Database` holding both collections and the id counter, whose `Valid()` is all four collection invariants (fresh ids, unique emails and usernames, tokens owned by an account, 32-digit hex token values); `SaveAccount` and `VerifyEmail` are methods proved equal to the spec functions `Persist` and `Confirm`; `CreateUser` is proved by cases on `SignupOutcome`: it propagates a rejection, throws 422 on a non-empty list, and equals `Persist` when the list is empty; the lemmas speak about those functions |
| `Query` (query.dfy) | graphql/resolvers/Query.js | `Login` as a pure function over a snapshot of the account collection; `Authenticate` is its `try` block |
| `AuthGate` (auth_gate.dfy) | middleware/auth.js | class `Request` with the `isAuth`/`userId` properties and a `next` counter; method `Auth` proved against function `Gate` |
| `App` (app.dfy) | app.js | pure `FileFilter`, `FileExtension`, `StoredFilename`, `ErrorStatus`; class `Images` whose `PostImage` method records the images `clearImage` removes |

Collaborators the core calls but does not define are parameters. These
are `validator.isEmail` (`isEmail`), `bcrypt.hash` (`hash`),
`bcrypt.compare` (`compare`), `jwt.sign` with the server secret (`sign`),
`jwt.verify` on a token text (`verify`, returning `Throws`, `Falsy` or
the decoded claims; with no token at all it throws), `new Date()` (`now`),
`crypto.randomBytes(16)` (`randomBytes`, a 16-byte value), `uuidv4()`
(`uuid`) and what `clearImage` throws (`clear`: `ClearImageAsWritten` for
util/file.js as it stands, `ClearImage` for the corrected one). In createUser,
validateSignup and login, every awaited call that may reject, and
`jwt.sign`, which may throw, is a `Step`, and a failure oracle
`faults: Step -> Option<Error>` says which steps fail and with which
error. verifyEmail's store calls are taken to succeed (see Left out). Document ids are drawn from a
counter, so every new id is fresh.

Where the intended behaviour and the code disagree, the model follows the
code:

- the signed login payload carries `user.identifier`, a field accounts do
  not have, so its `identifier` claim is always undefined (`Payload(None, …)`),
  not the login identifier;
- the two 401 branches of login disclose different things ("User not found"
  on `identifier`, "Login combination not found" on `password`);
- login's input validation is never effective, and replacing an uploaded
  image fails, see Findings.

## Model

| member | source | states |
|---|---|---|
| Common.WithDefaultCode | validators/auth.js:39-44 | an error that carries a truthy `code` is rethrown unchanged; any other error gets code 500; message, statusCode and data are untouched (the same rule closes createUser's and login's catch blocks) |
| Common.InvalidInput | graphql/resolvers/Mutation.js:16-20 | the validation error: message "Invalid input", code 422, no statusCode, and the validator's list as `data` |
| Store.FindFirst | validators/auth.js:11 | `findOne`: the result is the index of a matching document with no match before it; it is absent exactly when no document matches |
| Store.RemoveAt | graphql/resolvers/Mutation.js:86 | deleting a document keeps every other document, in order |
| Text.IndexOf | app.js:46 | -1 exactly when the character does not occur, otherwise the index of its first occurrence |
| Text.SplitOn | middleware/auth.js:9 | `split` on one character: at least one part, no part holds the separator, and joining the parts with it gives the string back |
| Text.ReplaceAll | app.js:91 | same length; every occurrence of the pattern character is replaced and every other character kept |
| Hex.ToHex | graphql/resolvers/Mutation.js:33 | two hex digits per byte |
| Hex.HexRoundTrip | graphql/resolvers/Mutation.js:33 | decoding the hex text gives the bytes back, so the token value carries all 16 random bytes |
| Validators.IsEmpty | validators/auth.js:50-56 | `validator.isEmpty` with default options: only the empty string is empty, so whitespace counts as content |
| Validators.IsStrongPassword | validators/auth.js:25-32 | `isStrongPassword` with the given options holds exactly when the password has at least 8 characters and at least one lowercase letter, uppercase letter, digit and symbol |
| Validators.ValidateSignup | validators/auth.js:5-46 | the step-by-step validation resolves to the collected report list, or rejects with the first failed lookup's error (code kept or 500); it only reads the account collection |
| Validators.SignupErrorsEmptyIff | validators/auth.js:5-46 | the list is empty exactly when the email is well formed and unused, the username is non-empty and unused, and the password meets the policy |
| Validators.SignupErrorIff | validators/auth.js:8-38 | every check runs: each of the five reports is present exactly when its own check fails, whatever the other checks give |
| Validators.PasswordErrorIff | validators/auth.js:25-38 | the password report is present exactly when the password misses one of the five requirements |
| Validators.SignupErrorsOrdered | validators/auth.js:8-38 | at most five reports, in the fixed order email-invalid, email-exists, username-required, username-exists, password-weak |
| Validators.SignupOutcomeCases | validators/auth.js:11-44 | validation rejects exactly when a lookup fails; it rethrows the email lookup's error when that lookup fails, otherwise the username lookup's, in both cases with its own code or 500 and nothing else changed; with no failed lookup it resolves to the list |
| Validators.ValidateLogin | validators/auth.js:48-63 | the step-by-step validation resolves to the collected report list |
| Validators.LoginErrorsIff | validators/auth.js:48-63 | an identifier report exactly when the identifier is the empty string, a password report exactly when the password is; whitespace counts as content; at most two reports; none exactly when both are non-empty |
| Mutation.Database.CreateUser | graphql/resolvers/Mutation.js:13-57 | a rejected validation propagates its error and a non-empty list throws 422 with exactly that list, both leaving the collections unchanged; a clean validation runs the persistence steps on the collections as they were; every collection invariant is preserved |
| Mutation.Database.SaveAccount | graphql/resolvers/Mutation.js:22-56 | the `try` block does exactly what `Persist` describes, keeping every collection invariant |
| Mutation.PersistPreserves | graphql/resolvers/Mutation.js:22-56 | after any outcome of the `try` block, ids stay fresh and distinct, emails and usernames stay unique, every token has an owner, every token value is 32 hex digits |
| Mutation.PersistSuccess | graphql/resolvers/Mutation.js:23-48 | on success exactly one account is added, with the given email and username, `hash(password, 12)` as its password and not verified, and exactly one token, owned by that account, whose value is the 32-hex-digit text of the random bytes; the reply is that account |
| Mutation.PersistFailure | graphql/resolvers/Mutation.js:22-56 | the `try` block throws exactly when one of hash, save user, save token, send mail rejects, and then it throws the FIRST failing call's error, with its own code or 500; nothing is rolled back: the account stays saved when the token save or the mail fails, and the token, owned by that account, stays saved when only the mail fails; older documents are untouched |
| Mutation.Database.VerifyEmail | graphql/resolvers/Mutation.js:58-91 | the reply and the new collections are those of `Confirm`; collection invariants and the id counter are preserved |
| Mutation.ConfirmReplies | graphql/resolvers/Mutation.js:60-91 | every reply has `data: 'token'` and is one of the four fixed replies; a `result: false` reply changes nothing |
| Mutation.ConfirmUnknownToken | graphql/resolvers/Mutation.js:60-68 | a value no token carries gives the "unable to find a valid token" reply and changes nothing |
| Mutation.ConfirmOwnerMissing | graphql/resolvers/Mutation.js:69-76 | a token whose owner does not exist gives the "unable to find a user" reply and changes nothing |
| Mutation.ConfirmAlreadyVerified | graphql/resolvers/Mutation.js:77-83 | an owner already verified gives the "already been verified" reply, and the token is not deleted |
| Mutation.ConfirmSuccess | graphql/resolvers/Mutation.js:84-91 | on success exactly the token's owner becomes verified, exactly that token is removed, every other account and token is unchanged |
| Mutation.ConfirmSingleUse | graphql/resolvers/Mutation.js:60-91 | a token value held by one token only verifies once; a second call with it finds no token |
| Mutation.IssuedTokenVerifiesOnce | graphql/resolvers/Mutation.js:31-91 | the token a successful createUser issues verifies the new account on the first verifyEmail, leaves the older tokens as they were, and is not found on the second |
| Query.ExpiresIn | graphql/resolvers/Query.js:48 | the expiry is "60 days" exactly when `rememberMe` is set, and "2h" otherwise |
| Query.Authenticate | graphql/resolvers/Query.js:19-60 | a failed lookup is rethrown with its own code or 500, before anything else; every error the `try` block throws leaves the catch block with a code |
| Query.AuthenticateUnknownIdentifier | graphql/resolvers/Query.js:20-31 | when no account has the identifier as email or username, login throws "User not found" with code 401 on the `identifier` field |
| Query.AuthenticateWrongPassword | graphql/resolvers/Query.js:32-41 | for the first matching account, a failed comparison is rethrown with its code or 500, and a hash mismatch throws "Login combination not found" with code 401 on the `password` field |
| Query.AuthenticateSucceeds | graphql/resolvers/Query.js:19-54 | correct credentials log in: with no failing call, when the password matches the first account whose email or username is the identifier, the result is exactly the session with that account's id and `otp_enabled`, signed over its id with the `rememberMe` expiry |
| Query.AuthenticateSignFails | graphql/resolvers/Query.js:42-60 | when the hash matches but `jwt.sign` throws (no secret, say), login rethrows the signer's error with its own code or 500 |
| Query.AuthenticateIssuesSession | graphql/resolvers/Query.js:42-54 | a session is issued only when no call fails, for the first account whose email or username is the identifier and whose hash matches; its userId, the payload's userId and `otp_enabled` are that account's, and it expires after "60 days" with `rememberMe` and after "2h" otherwise |
| Query.LengthOf | graphql/resolvers/Query.js:12-13 | reading `length` on the Promise an unawaited `validateLogin` returns gives `undefined`, whatever the Promise resolves to |
| Query.GreaterThanZero | graphql/resolvers/Query.js:13 | `v > 0` holds exactly for a positive number; for `undefined` it is false |
| Query.Login | graphql/resolvers/Query.js:10-61 | as written, login is the lookup-and-compare decision whatever the validator reports: the unawaited Promise has no `length`, so the 422 branch is never taken |
| Query.LoginNever422 | graphql/resolvers/Query.js:12-18 | as written, when no awaited call fails, every error login throws is a 401 |
| Query.LoginSkipsValidation | graphql/resolvers/Query.js:12-18 | an empty identifier is reported by validateLogin, yet login answers 401 "User not found", not 422 |
| Query.LoginAwaited | graphql/resolvers/Query.js:12-18 | with the validation awaited, an empty identifier or password throws 422 carrying exactly validateLogin's list, and otherwise the lookup runs |
| Query.LoginAwaitedRejectsEmpty | graphql/resolvers/Query.js:12-18 | with the validation awaited, an empty identifier gives 422 whose list reports the identifier |
| AuthGate.BearerToken | middleware/auth.js:9 | the token is present exactly when the header holds a space; it is the space-free run right after the first space, ending at the next space or at the end of the header |
| AuthGate.BearerTokenOfScheme | middleware/auth.js:9 | `<scheme> <token>` with space-free parts yields exactly the token |
| AuthGate.JwtVerify | middleware/auth.js:12 | `jwt.verify` throws for a missing or empty token ("jwt must be provided"), and otherwise does what the verifier does with the token text |
| AuthGate.Gate | middleware/auth.js:3-25 | a missing or empty header is not authenticated; authenticated exactly when the header holds a non-empty token and `jwt.verify` decodes it; then `userId` is the decoded claim's, otherwise `userId` is left as it was |
| AuthGate.HeaderWithoutTokenUnauthenticated | middleware/auth.js:9-16 | a header without a space, or whose token is empty (`"Bearer "`, a doubled space), hands a falsy token to `jwt.verify`, which throws, so the request is not authenticated whatever the verifier |
| AuthGate.Auth | middleware/auth.js:3-25 | on every path `isAuth` is set as `Gate` decides, `userId` changes only on success, and `next` is called exactly once |
| AuthGate.SessionAuthenticates | middleware/auth.js:9-22 | correct credentials end to end: with no failing call and a password matching the first account with that email or username, login as written issues a session for that account, and its token sent as `Bearer <token>` makes the gate set `isAuth` and that account's id, when the verifier inverts the signer and signed tokens are non-empty and space-free |
| AuthGate.AwaitedSessionAuthenticates | middleware/auth.js:9-22 | every session issued by login with its validation awaited, sent as `Bearer <token>`, authenticates the account the session names |
| AuthGate.BearerAccepted | middleware/auth.js:9-22 | a non-empty, space-free token that the verifier decodes, sent as `Bearer <token>`, sets `isAuth` and the claims' `userId` |
| App.FileFilter | app.js:51-61 | accepts exactly `image/png`, `image/jpg` and `image/jpeg` |
| App.FileExtension | app.js:45-46 | a dot followed by what comes after the type's first `/`, or by the whole type when it has no `/` |
| App.ExtensionOfSubtype | app.js:45-46 | a `/`-free type name followed by `/<subtype>` gives `.<subtype>` |
| App.AcceptedExtension | app.js:45-61 | an accepted upload is stored as `.png`, `.jpg` or `.jpeg`, with no backslash |
| App.StoredFilename | app.js:47 | the UUID followed by the extension |
| App.StoredPath | app.js:40-48 | the disk path of an upload: `images`, the platform separator, then the stored name |
| App.Upload | app.js:40-61 | `req.file` is present exactly when a file was sent and its type is accepted, stored under `images` joined to the stored name |
| App.ClearImageAsWritten | util/file.js:4-7 | as written, every call throws "__dirname is not defined" with no code, no statusCode and no data, before anything is unlinked |
| App.ClearImage | util/file.js:4-7 | the corrected `clearImage` returns normally for every path; the unlink it starts reports errors only to its callback |
| App.PostImageReply | app.js:79-93 | unauthenticated requests throw "Not authenticated!" before any file check; without a file the reply is 200 "No file provided!"; with one, a throwing `clearImage` on a truthy `oldPath` ends the handler with that error, and otherwise the reply is 201 "File stored." whose `filePath` is the stored path with every backslash turned into `/` and every other character kept |
| App.Removals | app.js:86-88 | `oldPath` is removed, once, exactly when the request is authenticated, carries a file and a truthy `oldPath`, and `clearImage` returns normally; otherwise nothing is removed |
| App.Images.PostImage | app.js:79-93 | replies as `PostImageReply`; calls `clearImage` only for an authenticated request with a file and a truthy `oldPath`, and the removed paths grow by exactly `Removals` |
| App.ClearImageBreaksUpload | util/file.js:4-7 | as written, an authenticated upload naming a truthy `oldPath` ends at the error handler as a 500 "__dirname is not defined" with no data, and nothing is removed |
| App.UploadReplacesOldImage | app.js:86-92 | with `clearImage` resolving its directory from its module URL, the same upload gets 201 with the normalised path, and `oldPath` is removed exactly once |
| App.StoredReplyPath | app.js:86-92 | an accepted upload's reply path is `images/<uuid><ext>` whichever separator the platform joined it with, whatever `oldPath` names, once `clearImage` returns normally |
| App.RejectedTypeIsNoFile | app.js:51-85 | an upload of any other type reaches the handler as no file, gets the 200 reply and removes nothing |
| App.ErrorStatus | app.js:113 | the error's truthy `statusCode`, else 500 |
| App.ErrorResponse | app.js:111-117 | that status with the error's message and data |
| App.UnauthenticatedUploadIs500 | app.js:79-117 | an unauthenticated upload ends as a 500 reply "Not authenticated!" with no data, and removes nothing |

## Left out

- The mail sent by createUser (graphql/resolvers/Mutation.js:36-47): network I/O. Only the possible rejection of `mail.send` is modelled, as a failure step after the token is saved.
- verifyEmail's `catch` block (graphql/resolvers/Mutation.js:92-96), which calls an undefined `next`: it only handles unexpected store failures. `VerifyEmail` takes its store calls to succeed.
- bcrypt, JWT signing and verification, and expiry arithmetic: cryptographic and clock libraries, kept as function parameters.
- The grammar of `validator.isEmail`: a large foreign matcher, kept as a predicate parameter.
- Mongo persistence and the model definitions, which are not part of this model. New accounts are taken to start with `isVerified` and `otp_enabled` false, as the resolvers expect of the model defaults. `_id.toString()` is identified with the id itself.
- Validators.IsStrongPassword: string length and character classes count UTF-16 code units in the source. The model counts characters and uses ASCII letters and digits, as validator.js does.
- AuthGate.Gate: the decoded claims are taken to carry a `userId`. A token that decodes without one, which only a foreign signer could produce, is not modelled.
- Query.Login: `rememberMe` is taken as a boolean; other truthy values are not modelled.
- Express, Apollo, multer storage internals, CORS, static serving and the playground: framework plumbing. Only the decisions named above are modelled, and `Upload` stands for multer's filter-then-store behaviour.
- App.Images.PostImage: `removed` records the paths whose deletion a normally returning `clearImage` starts. `fs.unlink` runs asynchronously and only logs its failure; the file system is not modelled.
- Concurrent signups and the check-then-insert race: the model is sequential.

## Findings

| source | as written | input that shows it | evidently intended | confidence | as-written member | corrected member |
|---|---|---|---|---|---|---|
| graphql/resolvers/Query.js:12-18 | `validateLogin` is `async` but called without `await`, so `errors` is a Promise, `errors.length > 0` is false, and the 422 branch is unreachable | identifier `""`, password `"secret"`, no accounts: validateLogin reports the identifier, but login answers 401 "User not found" | await the validation, so that an empty identifier or password is rejected with 422 and the list before any lookup | high (not executed) | Query.LoginSkipsValidation | Query.LoginAwaited |
| util/file.js:5 | `clearImage` reads `__dirname`, which an ES module (the project uses `import`, and app.js:32-33 builds its own `__dirname`) does not define, so every call throws a ReferenceError before `fs.unlink` | an authenticated upload of an `image/png` file with `oldPath` `"images/old.png"`: the reply is 500 "__dirname is not defined" instead of 201, and the old image stays | build the directory from `import.meta.url` as app.js does, so that the old image is removed and the 201 reply is sent | high (not executed) | App.ClearImageBreaksUpload | App.UploadReplacesOldImage |
