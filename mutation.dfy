/** graphql/resolvers/Mutation.js: account creation and email verification,
    over the account collection and the verification-token collection.

    The resolvers' collaborators are parameters: `isEmail` is
    validator.isEmail, `hash` is bcrypt.hash, `now` is `new Date()`,
    `randomBytes` is `crypto.randomBytes(16)`, and `faults` says which
    awaited call rejects. Ids are drawn from a counter, which stands for
    ObjectId generation: every id is fresh. */
module Mutation {
  import opened Common
  import opened Store
  import opened Validators
  import opened Hex

  /** The bcrypt cost factor createUser hashes with. */
  const BcryptRounds := 12

  /** The tagged reply of verifyEmail. */
  datatype VerifyReply = VerifyReply(result: bool, message: string, data: string)

  const TokenNotFound := VerifyReply(false, "We were unable to find a valid token. your token may have expired", "token")
  const OwnerNotFound := VerifyReply(false, "We were unable to find a user for this token.", "token")
  const AlreadyVerified := VerifyReply(false, "This user has already been verified", "token")
  const Verified := VerifyReply(true, "User has been verified", "token")

  /** The account document createUser builds. */
  function NewAccount(id: ObjectId, email: string, username: string, hashed: string, now: int): User
  {
    User(id, email, username, hashed, now, false, false)
  }

  // ---------------------------------------------------------------------
  // Invariants of the two collections, stated on values

  /** Every id in use is below `n`, and no two documents of one collection share an id. */
  ghost predicate FreshIds(users: seq<User>, tokens: seq<Token>, n: nat)
  {
    && (forall i :: 0 <= i < |users| ==> users[i].id < n)
    && (forall i :: 0 <= i < |tokens| ==> tokens[i].id < n)
    && (forall i, j :: 0 <= i < j < |users| ==> users[i].id != users[j].id)
    && (forall i, j :: 0 <= i < j < |tokens| ==> tokens[i].id != tokens[j].id)
  }

  /** No two accounts share an email or a username. */
  ghost predicate UniqueAccounts(users: seq<User>)
  {
    forall i, j :: 0 <= i < j < |users| ==> users[i].email != users[j].email && users[i].username != users[j].username
  }

  /** Every token belongs to an existing account. */
  ghost predicate TokensOwned(users: seq<User>, tokens: seq<Token>)
  {
    forall i :: 0 <= i < |tokens| ==> exists j :: 0 <= j < |users| && users[j].id == tokens[i].userId
  }

  /** Every token value is the 32-digit hex text of 16 random bytes. */
  ghost predicate TokensWellFormed(tokens: seq<Token>)
  {
    forall i :: 0 <= i < |tokens| ==> |tokens[i].token| == 32 && IsHex(tokens[i].token)
  }

  /** Appending an account with the next fresh id keeps the ids fresh and
      every token owned, and keeps emails and usernames unique when the
      account's email and username are unused. */
  lemma AddAccountPreserves(users: seq<User>, tokens: seq<Token>, n: nat, u: User)
    requires FreshIds(users, tokens, n) && u.id == n
    ensures FreshIds(users + [u], tokens, n + 1)
    ensures TokensOwned(users, tokens) ==> TokensOwned(users + [u], tokens)
    ensures UniqueAccounts(users)
            && (forall i :: 0 <= i < |users| ==> users[i].email != u.email && users[i].username != u.username)
            ==> UniqueAccounts(users + [u])
  {
    var us := users + [u];
    assert forall i :: 0 <= i < |users| ==> us[i] == users[i];
    assert us[|users|] == u;
    forall i, j | 0 <= i < j < |us| ensures us[i].id != us[j].id {
      if j == |users| {
        assert us[i].id == users[i].id < n;
      }
    }
    if UniqueAccounts(users) && (forall i :: 0 <= i < |users| ==> users[i].email != u.email && users[i].username != u.username) {
      forall i, j | 0 <= i < j < |us| ensures us[i].email != us[j].email && us[i].username != us[j].username {
        if j == |users| {
          assert us[i] == users[i];
        }
      }
    }
    if TokensOwned(users, tokens) {
      forall i | 0 <= i < |tokens| ensures exists j :: 0 <= j < |us| && us[j].id == tokens[i].userId {
        var j :| 0 <= j < |users| && users[j].id == tokens[i].userId;
        assert 0 <= j < |us| && us[j] == users[j];
        assert us[j].id == tokens[i].userId;
      }
    }
  }

  /** Appending a token with the next fresh id, owned by an existing account
      and holding 32 hex digits, keeps all invariants. */
  lemma AddTokenPreserves(users: seq<User>, tokens: seq<Token>, n: nat, t: Token, owner: nat)
    requires FreshIds(users, tokens, n) && t.id == n
    requires owner < |users| && users[owner].id == t.userId
    requires |t.token| == 32 && IsHex(t.token)
    ensures FreshIds(users, tokens + [t], n + 1)
    ensures TokensOwned(users, tokens) ==> TokensOwned(users, tokens + [t])
    ensures TokensWellFormed(tokens) ==> TokensWellFormed(tokens + [t])
  {
    var ts := tokens + [t];
    assert forall i :: 0 <= i < |tokens| ==> ts[i] == tokens[i];
  }

  /** Marking account `j` verified and removing token `i` keeps all invariants. */
  lemma ConfirmPreserves(users: seq<User>, tokens: seq<Token>, n: nat, j: nat, i: nat)
    requires FreshIds(users, tokens, n) && j < |users| && i < |tokens|
    ensures var us := users[j := users[j].(isVerified := true)];
            var ts := RemoveAt(tokens, i);
            && FreshIds(us, ts, n)
            && (UniqueAccounts(users) ==> UniqueAccounts(us))
            && (TokensOwned(users, tokens) ==> TokensOwned(us, ts))
            && (TokensWellFormed(tokens) ==> TokensWellFormed(ts))
  {
    var us := users[j := users[j].(isVerified := true)];
    var ts := RemoveAt(tokens, i);
    assert forall k :: 0 <= k < |users| ==> us[k].id == users[k].id;
    assert forall k :: 0 <= k < |ts| ==> ts[k] == tokens[if k < i then k else k + 1];
    if TokensOwned(users, tokens) {
      forall k | 0 <= k < |ts| ensures exists m :: 0 <= m < |us| && us[m].id == ts[k].userId {
        var k' := if k < i then k else k + 1;
        var m :| 0 <= m < |users| && users[m].id == tokens[k'].userId;
        assert us[m].id == ts[k].userId;
      }
    }
  }

  /** With distinct token ids, looking a token up by its own id finds it. */
  lemma FindTokenById(tokens: seq<Token>, i: nat)
    requires i < |tokens|
    requires forall a, b :: 0 <= a < b < |tokens| ==> tokens[a].id != tokens[b].id
    ensures FindFirst(tokens, HasTokenId(tokens[i].id)) == Some(i)
  {
    var f := FindFirst(tokens, HasTokenId(tokens[i].id));
    assert HasTokenId(tokens[i].id)(tokens[i]);
    assert f.Some? && f.value <= i;
    assert HasTokenId(tokens[i].id)(tokens[f.value]);
  }

  /** A snapshot of both collections and of the id counter. */
  datatype Stores = Stores(users: seq<User>, tokens: seq<Token>, nextId: ObjectId)

  /** Going from `before` to `after` keeps ids fresh and distinct, and keeps
      each of the other invariants that held before. */
  ghost predicate Preserved(before: Stores, after: Stores)
  {
    && FreshIds(after.users, after.tokens, after.nextId)
    && (UniqueAccounts(before.users) ==> UniqueAccounts(after.users))
    && (TokensOwned(before.users, before.tokens) ==> TokensOwned(after.users, after.tokens))
    && (TokensWellFormed(before.tokens) ==> TokensWellFormed(after.tokens))
  }

  /** What createUser's `try` block does to the collections, step by step:
      the first awaited call that rejects ends it, and whatever was saved
      before it stays saved. */
  function Persist(before: Stores, hash: (string, nat) -> string, faults: Faults,
                   email: string, username: string, password: string,
                   now: int, randomBytes: RandomBytes): (Result<User>, Stores)
  {
    var n := before.nextId;
    var account := NewAccount(n, email, username, hash(password, BcryptRounds), now);
    var token := Token(n + 1, n, ToHex(randomBytes));
    if faults(HashPassword).Some? then
      (Thrown(WithDefaultCode(faults(HashPassword).value)), before)
    else if faults(SaveUser).Some? then
      (Thrown(WithDefaultCode(faults(SaveUser).value)), before.(nextId := n + 1))
    else if faults(SaveToken).Some? then
      (Thrown(WithDefaultCode(faults(SaveToken).value)), Stores(before.users + [account], before.tokens, n + 2))
    else
      var after := Stores(before.users + [account], before.tokens + [token], n + 2);
      if faults(SendMail).Some? then (Thrown(WithDefaultCode(faults(SendMail).value)), after)
      else (Ok(account), after)
  }

  /** What createUser's `try` block gives, by the first step that rejects. */
  lemma PersistAfter(before: Stores, hash: (string, nat) -> string, faults: Faults,
                     email: string, username: string, password: string,
                     now: int, randomBytes: RandomBytes)
    ensures var n := before.nextId;
            var account := NewAccount(n, email, username, hash(password, BcryptRounds), now);
            var token := Token(n + 1, n, ToHex(randomBytes));
            var out := Persist(before, hash, faults, email, username, password, now, randomBytes);
            && (faults(HashPassword).Some? ==> out == (Thrown(WithDefaultCode(faults(HashPassword).value)), before))
            && (faults(HashPassword).None? && faults(SaveUser).Some? ==>
                  out == (Thrown(WithDefaultCode(faults(SaveUser).value)), before.(nextId := n + 1)))
            && (faults(HashPassword).None? && faults(SaveUser).None? && faults(SaveToken).Some? ==>
                  out == (Thrown(WithDefaultCode(faults(SaveToken).value)), Stores(before.users + [account], before.tokens, n + 2)))
            && (faults(HashPassword).None? && faults(SaveUser).None? && faults(SaveToken).None? ==>
                  out.1 == Stores(before.users + [account], before.tokens + [token], n + 2)
                  && out.0 == if faults(SendMail).Some? then Thrown(WithDefaultCode(faults(SendMail).value)) else Ok(account))
  {
  }

  /** Drawing ids without saving anything keeps every invariant. */
  lemma BumpPreserves(s: Stores, after: Stores)
    requires FreshIds(s.users, s.tokens, s.nextId)
    requires after.users == s.users && after.tokens == s.tokens && s.nextId <= after.nextId
    ensures Preserved(s, after)
  {
  }

  /** Saving an account with the next id and an unused email and username,
      then drawing one more id, keeps every invariant. */
  lemma AccountPreserves(s: Stores, u: User, after: Stores)
    requires FreshIds(s.users, s.tokens, s.nextId) && u.id == s.nextId
    requires forall i :: 0 <= i < |s.users| ==> s.users[i].email != u.email && s.users[i].username != u.username
    requires after == Stores(s.users + [u], s.tokens, s.nextId + 2)
    ensures Preserved(s, after)
  {
    AddAccountPreserves(s.users, s.tokens, s.nextId, u);
  }

  /** Saving such an account and then a well-formed token owned by it keeps every invariant. */
  lemma AccountAndTokenPreserve(s: Stores, u: User, t: Token, after: Stores)
    requires FreshIds(s.users, s.tokens, s.nextId) && u.id == s.nextId
    requires forall i :: 0 <= i < |s.users| ==> s.users[i].email != u.email && s.users[i].username != u.username
    requires t.id == s.nextId + 1 && t.userId == u.id && |t.token| == 32 && IsHex(t.token)
    requires after == Stores(s.users + [u], s.tokens + [t], s.nextId + 2)
    ensures Preserved(s, after)
  {
    AddAccountPreserves(s.users, s.tokens, s.nextId, u);
    AddTokenPreserves(s.users + [u], s.tokens, s.nextId + 1, t, |s.users|);
  }

  /** createUser's `try` block keeps every invariant of the collections,
      provided the new account's email and username are unused. */
  lemma PersistPreserves(before: Stores, hash: (string, nat) -> string, faults: Faults,
                         email: string, username: string, password: string,
                         now: int, randomBytes: RandomBytes)
    requires FreshIds(before.users, before.tokens, before.nextId)
    requires forall i :: 0 <= i < |before.users| ==> before.users[i].email != email && before.users[i].username != username
    ensures Preserved(before, Persist(before, hash, faults, email, username, password, now, randomBytes).1)
  {
    var n := before.nextId;
    var account := NewAccount(n, email, username, hash(password, BcryptRounds), now);
    var token := Token(n + 1, n, ToHex(randomBytes));
    var after := Persist(before, hash, faults, email, username, password, now, randomBytes).1;
    PersistAfter(before, hash, faults, email, username, password, now, randomBytes);
    if faults(HashPassword).Some? || faults(SaveUser).Some? {
      BumpPreserves(before, after);
    } else if faults(SaveToken).Some? {
      AccountPreserves(before, account, after);
    } else {
      AccountAndTokenPreserve(before, account, token, after);
    }
  }

  /** A successful createUser adds exactly one account, with the given email
      and username and `hash(password, 12)` in place of the password, not
      yet verified; and exactly one token, owned by that account, whose
      value is the 32-digit hex text of the 16 random bytes, carrying all of them. */
  lemma PersistSuccess(before: Stores, hash: (string, nat) -> string, faults: Faults,
                       email: string, username: string, password: string,
                       now: int, randomBytes: RandomBytes)
    requires Persist(before, hash, faults, email, username, password, now, randomBytes).0.Ok?
    ensures var (r, after) := Persist(before, hash, faults, email, username, password, now, randomBytes);
            && |after.users| == |before.users| + 1 && after.users[..|before.users|] == before.users
            && |after.tokens| == |before.tokens| + 1 && after.tokens[..|before.tokens|] == before.tokens
            && var account := after.users[|before.users|];
               var token := after.tokens[|before.tokens|];
               && r.value == account
               && account.email == email && account.username == username
               && account.password == hash(password, 12) && !account.isVerified
               && token.userId == account.id
               && |token.token| == 32 && IsHex(token.token) && FromHex(token.token) == randomBytes
  {
    HexRoundTrip(randomBytes);
    var after := Persist(before, hash, faults, email, username, password, now, randomBytes).1;
    assert after.users[..|before.users|] == before.users;
    assert after.tokens[..|before.tokens|] == before.tokens;
  }

  /** The awaited calls of createUser's `try` block, in the order it makes them. */
  const PersistSteps: seq<Step> := [HashPassword, SaveUser, SaveToken, SendMail]

  /** The position in `PersistSteps` of the first call that rejects, if any. */
  function FirstFailing(faults: Faults): (k: Option<nat>)
    ensures k.Some? ==> k.value < |PersistSteps| && faults(PersistSteps[k.value]).Some?
    ensures k.Some? ==> forall j :: 0 <= j < k.value ==> faults(PersistSteps[j]).None?
    ensures k.None? <==> forall j :: 0 <= j < |PersistSteps| ==> faults(PersistSteps[j]).None?
  {
    FindFirst(PersistSteps, (s: Step) => faults(s).Some?)
  }

  /** The first failing call, spelled out call by call. */
  lemma FirstFailingCases(faults: Faults)
    ensures FirstFailing(faults)
              == if faults(HashPassword).Some? then Some(0)
                 else if faults(SaveUser).Some? then Some(1)
                 else if faults(SaveToken).Some? then Some(2)
                 else if faults(SendMail).Some? then Some(3)
                 else None
  {
    assert PersistSteps[0] == HashPassword && PersistSteps[1] == SaveUser;
    assert PersistSteps[2] == SaveToken && PersistSteps[3] == SendMail;
  }

  /** createUser's `try` block throws exactly when one of its calls rejects,
      and then it throws the first failing call's error, keeping its code or
      classified as 500. Nothing is rolled back: the account stays saved when
      saving the token or sending the mail fails, and the token, owned by that
      account, stays saved when only the mail fails. */
  lemma PersistFailure(before: Stores, hash: (string, nat) -> string, faults: Faults,
                       email: string, username: string, password: string,
                       now: int, randomBytes: RandomBytes)
    ensures var (r, after) := Persist(before, hash, faults, email, username, password, now, randomBytes);
            var k := FirstFailing(faults);
            && (r.Thrown? <==> k.Some?)
            && (k.Some? ==>
                  && Truthy(r.error.code)
                  && r.error == WithDefaultCode(faults(PersistSteps[k.value]).value)
                  && |after.users| == |before.users| + (if k.value >= 2 then 1 else 0)
                  && |after.tokens| == |before.tokens| + (if k.value >= 3 then 1 else 0)
                  && after.users[..|before.users|] == before.users
                  && after.tokens[..|before.tokens|] == before.tokens
                  && (k.value >= 2 ==> after.users[|before.users|].email == email
                                       && after.users[|before.users|].username == username)
                  && (k.value == 3 ==> after.tokens[|before.tokens|].userId == after.users[|before.users|].id))
  {
    var k := FirstFailing(faults);
    FirstFailingCases(faults);
    assert PersistSteps[0] == HashPassword && PersistSteps[1] == SaveUser;
    assert PersistSteps[2] == SaveToken && PersistSteps[3] == SendMail;
    PersistAfter(before, hash, faults, email, username, password, now, randomBytes);
    var after := Persist(before, hash, faults, email, username, password, now, randomBytes).1;
    if k.Some? {
      assert after.users[..|before.users|] == before.users;
      assert after.tokens[..|before.tokens|] == before.tokens;
    }
  }

  class Database {
    var users: seq<User>
    var tokens: seq<Token>
    /** The next fresh document id. */
    var nextId: ObjectId

    /** The collection invariants every method keeps. */
    ghost predicate Valid()
      reads this
    {
      && FreshIds(users, tokens, nextId)
      && UniqueAccounts(users)
      && TokensOwned(users, tokens)
      && TokensWellFormed(tokens)
    }

    constructor ()
      ensures Valid()
      ensures users == [] && tokens == []
    {
      users, tokens, nextId := [], [], 0;
    }

    /** `createUser({ email, username, password })`. */
    method CreateUser(isEmail: string -> bool, hash: (string, nat) -> string, faults: Faults,
                      email: string, username: string, password: string,
                      now: int, randomBytes: RandomBytes)
      returns (r: Result<User>)
      requires Valid()
      modifies this
      ensures Valid()
      ensures Preserved(Stores(old(users), old(tokens), old(nextId)), Stores(users, tokens, nextId))
      // validateSignup rejected: its error propagates; nothing changes.
      ensures var v := SignupOutcome(old(users), isEmail, faults, email, username, password);
              v.Thrown? ==> r == Thrown(v.error) && users == old(users) && tokens == old(tokens) && nextId == old(nextId)
      // validateSignup reported problems: 422 with that exact list; nothing changes.
      ensures var v := SignupOutcome(old(users), isEmail, faults, email, username, password);
              v.Ok? && v.value != [] ==>
                r == Thrown(InvalidInput(v.value))
                && users == old(users) && tokens == old(tokens) && nextId == old(nextId)
      // Validation passed: the try block runs against the collections as they were.
      ensures SignupOutcome(old(users), isEmail, faults, email, username, password) == Ok([]) ==>
                (r, Stores(users, tokens, nextId))
                  == Persist(Stores(old(users), old(tokens), old(nextId)), hash, faults,
                             email, username, password, now, randomBytes)
    {
      var validation := ValidateSignup(users, isEmail, faults, email, username, password);
      if validation.Thrown? {
        return Thrown(validation.error);
      }
      var errors := validation.value;
      if |errors| > 0 {
        return Thrown(InvalidInput(errors));
      }
      SignupErrorsEmptyIff(users, isEmail, email, username, password);
      r := SaveAccount(hash, faults, email, username, password, now, randomBytes);
    }

    /** The `try` block of createUser: hash the password, save the account,
        save its verification token, send the mail; a rejection is rethrown
        with code 500 unless it carries one. Nothing is rolled back. */
    method SaveAccount(hash: (string, nat) -> string, faults: Faults,
                       email: string, username: string, password: string,
                       now: int, randomBytes: RandomBytes)
      returns (r: Result<User>)
      requires Valid()
      requires forall i :: 0 <= i < |users| ==> users[i].email != email && users[i].username != username
      modifies this
      ensures Valid()
      ensures Preserved(Stores(old(users), old(tokens), old(nextId)), Stores(users, tokens, nextId))
      ensures (r, Stores(users, tokens, nextId))
           == Persist(Stores(old(users), old(tokens), old(nextId)), hash, faults,
                      email, username, password, now, randomBytes)
    {
      PersistPreserves(Stores(users, tokens, nextId), hash, faults, email, username, password, now, randomBytes);
      PersistAfter(Stores(users, tokens, nextId), hash, faults, email, username, password, now, randomBytes);
      if faults(HashPassword).Some? {
        return Thrown(WithDefaultCode(faults(HashPassword).value));
      }
      var hashedPw := hash(password, BcryptRounds);
      var user := NewAccount(nextId, email, username, hashedPw, now);
      nextId := nextId + 1;
      if faults(SaveUser).Some? {
        return Thrown(WithDefaultCode(faults(SaveUser).value));
      }
      users := users + [user];
      var token := Token(nextId, user.id, ToHex(randomBytes));
      nextId := nextId + 1;
      if faults(SaveToken).Some? {
        return Thrown(WithDefaultCode(faults(SaveToken).value));
      }
      tokens := tokens + [token];
      if faults(SendMail).Some? {
        return Thrown(WithDefaultCode(faults(SendMail).value));
      }
      return Ok(user);
    }

    /** `verifyEmail({ token })`. */
    method VerifyEmail(value: string) returns (r: VerifyReply)
      requires Valid()
      modifies this
      ensures Valid() && nextId == old(nextId)
      ensures Preserved(Stores(old(users), old(tokens), old(nextId)), Stores(users, tokens, nextId))
      ensures (r, users, tokens) == Confirm(old(users), old(tokens), value)
    {
      var ti := FindFirst(tokens, HasValue(value));
      if ti.None? {
        return TokenNotFound;
      }
      var token := tokens[ti.value];
      var ui := FindFirst(users, HasUserId(token.userId));
      if ui.None? {
        return OwnerNotFound;
      }
      var user := users[ui.value];
      if user.isVerified {
        return AlreadyVerified;
      }
      user := user.(isVerified := true);
      // user.save() writes the document back under its id.
      var si := FindFirst(users, HasUserId(user.id));
      ConfirmPreserves(users, tokens, nextId, si.value, ti.value);
      users := users[si.value := user];
      // Token.findByIdAndDelete(token._id)
      FindTokenById(tokens, ti.value);
      var di := FindFirst(tokens, HasTokenId(token.id));
      tokens := RemoveAt(tokens, di.value);
      return Verified;
    }
  }

  /** What verifyEmail replies and what the collections become: look the
      token up by value, then its owner by id; an unknown token, a missing
      owner or an already verified owner is a `result: false` reply that
      changes nothing; otherwise the owner is marked verified and the token
      is deleted. */
  function Confirm(users: seq<User>, tokens: seq<Token>, value: string): (c: (VerifyReply, seq<User>, seq<Token>))
    ensures |c.1| == |users| && |c.2| <= |tokens|
  {
    match FindFirst(tokens, HasValue(value))
    case None => (TokenNotFound, users, tokens)
    case Some(i) =>
      match FindFirst(users, HasUserId(tokens[i].userId))
      case None => (OwnerNotFound, users, tokens)
      case Some(j) =>
        if users[j].isVerified then (AlreadyVerified, users, tokens)
        else (Verified, users[j := users[j].(isVerified := true)], RemoveAt(tokens, i))
  }

  /** Every reply of verifyEmail carries `data: 'token'`, and only a reply
      with `result: true` changes the collections. */
  lemma ConfirmReplies(users: seq<User>, tokens: seq<Token>, value: string)
    ensures var (r, us, ts) := Confirm(users, tokens, value);
            && r.data == "token"
            && r in {TokenNotFound, OwnerNotFound, AlreadyVerified, Verified}
            && (!r.result ==> us == users && ts == tokens)
  {
  }

  /** A value no token carries gives `result: false, data: 'token'` and changes nothing. */
  lemma ConfirmUnknownToken(users: seq<User>, tokens: seq<Token>, value: string)
    requires forall i :: 0 <= i < |tokens| ==> tokens[i].token != value
    ensures Confirm(users, tokens, value) == (TokenNotFound, users, tokens)
  {
    assert forall i :: 0 <= i < |tokens| ==> !HasValue(value)(tokens[i]);
  }

  /** A token whose owner does not exist gives `result: false` and changes nothing. */
  lemma ConfirmOwnerMissing(users: seq<User>, tokens: seq<Token>, value: string, i: nat)
    requires i < |tokens| && tokens[i].token == value
    requires forall k :: 0 <= k < i ==> tokens[k].token != value
    requires forall j :: 0 <= j < |users| ==> users[j].id != tokens[i].userId
    ensures Confirm(users, tokens, value) == (OwnerNotFound, users, tokens)
  {
    assert HasValue(value)(tokens[i]);
    assert forall k :: 0 <= k < i ==> !HasValue(value)(tokens[k]);
    assert forall j :: 0 <= j < |users| ==> !HasUserId(tokens[i].userId)(users[j]);
  }

  /** An owner who is already verified gives `result: false`, and the token is NOT deleted. */
  lemma ConfirmAlreadyVerified(users: seq<User>, tokens: seq<Token>, value: string, i: nat, j: nat)
    requires i < |tokens| && tokens[i].token == value
    requires forall k :: 0 <= k < i ==> tokens[k].token != value
    requires j < |users| && users[j].id == tokens[i].userId && users[j].isVerified
    requires forall k :: 0 <= k < |users| && k != j ==> users[k].id != users[j].id
    ensures Confirm(users, tokens, value) == (AlreadyVerified, users, tokens)
    ensures tokens[i] in Confirm(users, tokens, value).2
  {
    assert HasValue(value)(tokens[i]);
    assert forall k :: 0 <= k < i ==> !HasValue(value)(tokens[k]);
    assert HasUserId(tokens[i].userId)(users[j]);
    var f := FindFirst(users, HasUserId(tokens[i].userId));
    assert f.Some? && f.value <= j;
    assert HasUserId(tokens[i].userId)(users[f.value]);
  }

  /** A successful verification marks exactly the token's owner verified,
      removes exactly that token, and leaves every other account and token
      as it was. */
  lemma ConfirmSuccess(users: seq<User>, tokens: seq<Token>, value: string)
    requires Confirm(users, tokens, value).0.result
    ensures var (r, us, ts) := Confirm(users, tokens, value);
            exists i, j ::
              && 0 <= i < |tokens| && 0 <= j < |users|
              && tokens[i].token == value && users[j].id == tokens[i].userId && !users[j].isVerified
              && |us| == |users| && us[j] == users[j].(isVerified := true)
              && (forall k :: 0 <= k < |users| && k != j ==> us[k] == users[k])
              && ts == tokens[..i] + tokens[i + 1..]
  {
    var i := FindFirst(tokens, HasValue(value)).value;
    var j := FindFirst(users, HasUserId(tokens[i].userId)).value;
    assert HasValue(value)(tokens[i]) && HasUserId(tokens[i].userId)(users[j]);
  }

  /** A token value held by one token only is single-use: once it has
      verified its owner, verifying with it again finds no token. */
  lemma ConfirmSingleUse(users: seq<User>, tokens: seq<Token>, value: string)
    requires forall a, b :: 0 <= a < |tokens| && 0 <= b < |tokens| && tokens[a].token == value && tokens[b].token == value ==> a == b
    requires Confirm(users, tokens, value).0.result
    ensures var (_, us, ts) := Confirm(users, tokens, value);
            Confirm(us, ts, value) == (TokenNotFound, us, ts)
  {
    var i := FindFirst(tokens, HasValue(value)).value;
    assert HasValue(value)(tokens[i]);
    var ts := Confirm(users, tokens, value).2;
    assert ts == RemoveAt(tokens, i);
    forall k | 0 <= k < |ts| ensures ts[k].token != value {
      assert ts[k] == tokens[if k < i then k else k + 1];
    }
    ConfirmUnknownToken(Confirm(users, tokens, value).1, ts, value);
  }

  /** Confirming with the value of a token appended together with its
      unverified owner, when no earlier token carries that value and no
      earlier account has that id, verifies exactly that owner and removes
      exactly that token. */
  lemma ConfirmAppended(users: seq<User>, tokens: seq<Token>, account: User, token: Token)
    requires forall j :: 0 <= j < |tokens| ==> tokens[j].token != token.token
    requires forall j :: 0 <= j < |users| ==> users[j].id != account.id
    requires token.userId == account.id && !account.isVerified
    ensures Confirm(users + [account], tokens + [token], token.token)
              == (Verified, (users + [account])[|users| := account.(isVerified := true)], tokens)
  {
    assert forall j :: 0 <= j < |tokens| ==> !HasValue(token.token)(tokens[j]);
    FindFirstAppended(tokens, token, HasValue(token.token));
    assert forall j :: 0 <= j < |users| ==> !HasUserId(account.id)(users[j]);
    FindFirstAppended(users, account, HasUserId(account.id));
    assert RemoveAt(tokens + [token], |tokens|) == tokens;
  }

  /** The token a successful createUser issues verifies the new account on
      the first verifyEmail and is gone on the second, provided no earlier
      token carries the same value. */
  lemma IssuedTokenVerifiesOnce(before: Stores, hash: (string, nat) -> string, faults: Faults,
                                email: string, username: string, password: string,
                                now: int, randomBytes: RandomBytes)
    requires FreshIds(before.users, before.tokens, before.nextId)
    requires forall i :: 0 <= i < |before.tokens| ==> before.tokens[i].token != ToHex(randomBytes)
    requires Persist(before, hash, faults, email, username, password, now, randomBytes).0.Ok?
    ensures var after := Persist(before, hash, faults, email, username, password, now, randomBytes).1;
            var (first, us, ts) := Confirm(after.users, after.tokens, ToHex(randomBytes));
            && first == Verified
            && us[|before.users|].isVerified
            && ts == before.tokens
            && Confirm(us, ts, ToHex(randomBytes)).0 == TokenNotFound
  {
    var n := before.nextId;
    var account := NewAccount(n, email, username, hash(password, BcryptRounds), now);
    var token := Token(n + 1, n, ToHex(randomBytes));
    PersistOk(before, hash, faults, email, username, password, now, randomBytes);
    IssuedConfirms(before.users, before.tokens, before.nextId, account, token);
  }

  /** The state a successful createUser leaves. */
  lemma PersistOk(before: Stores, hash: (string, nat) -> string, faults: Faults,
                  email: string, username: string, password: string,
                  now: int, randomBytes: RandomBytes)
    requires Persist(before, hash, faults, email, username, password, now, randomBytes).0.Ok?
    ensures var n := before.nextId;
            Persist(before, hash, faults, email, username, password, now, randomBytes).1
              == Stores(before.users + [NewAccount(n, email, username, hash(password, BcryptRounds), now)],
                        before.tokens + [Token(n + 1, n, ToHex(randomBytes))], n + 2)
  {
  }

  /** A token appended beside a fresh, unverified account confirms it once and is gone afterwards. */
  lemma IssuedConfirms(users: seq<User>, tokens: seq<Token>, n: nat, account: User, token: Token)
    requires FreshIds(users, tokens, n)
    requires forall i :: 0 <= i < |tokens| ==> tokens[i].token != token.token
    requires account.id == n && token.userId == account.id && !account.isVerified
    ensures var (first, us, ts) := Confirm(users + [account], tokens + [token], token.token);
            && first == Verified
            && us[|users|].isVerified
            && ts == tokens
            && Confirm(us, ts, token.token).0 == TokenNotFound
  {
    ConfirmAppended(users, tokens, account, token);
    var us := (users + [account])[|users| := account.(isVerified := true)];
    ConfirmUnknownToken(us, tokens, token.token);
  }
}
