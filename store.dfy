/** The two document collections the core reads and writes, in the natural
    (insertion) order in which the database returns them, and `findOne`:
    the first document that matches a filter. */
module Store {
  import opened Common

  /** A document id; ids are generated fresh, so they are never reused. */
  type ObjectId = nat

  /** An account document. `password` holds the bcrypt hash, never the plaintext. */
  datatype User = User(
    id: ObjectId,
    email: string,
    username: string,
    password: string,
    passwordLastUpdated: int,
    isVerified: bool,
    otpEnabled: bool)

  /** An email-verification document: the owning account's id and the token value. */
  datatype Token = Token(id: ObjectId, userId: ObjectId, token: string)

  /** `findOne`: the index of the first document satisfying `p`, if any. */
  function FindFirst<T>(docs: seq<T>, p: T -> bool): (r: Option<nat>)
    ensures r.Some? ==> r.value < |docs| && p(docs[r.value])
    ensures r.Some? ==> forall j :: 0 <= j < r.value ==> !p(docs[j])
    ensures r.None? <==> forall j :: 0 <= j < |docs| ==> !p(docs[j])
  {
    if |docs| == 0 then None
    else if p(docs[0]) then Some(0)
    else match FindFirst(docs[1..], p)
      case None => None
      case Some(k) => Some(k + 1)
  }

  /** The filter `{ email }`. */
  function HasEmail(email: string): User -> bool
  {
    (u: User) => u.email == email
  }

  /** The filter `{ username }`. */
  function HasUsername(username: string): User -> bool
  {
    (u: User) => u.username == username
  }

  /** The filter `{ $or: [{ email: identifier }, { username: identifier }] }`. */
  function HasEmailOrUsername(identifier: string): User -> bool
  {
    (u: User) => u.email == identifier || u.username == identifier
  }

  /** The filter `{ _id: id }` on accounts. */
  function HasUserId(id: ObjectId): User -> bool
  {
    (u: User) => u.id == id
  }

  /** The filter `{ token: value }`. */
  function HasValue(value: string): Token -> bool
  {
    (t: Token) => t.token == value
  }

  /** The filter `{ _id: id }` on tokens. */
  function HasTokenId(id: ObjectId): Token -> bool
  {
    (t: Token) => t.id == id
  }

  /** The collection without the document at index `i`. */
  function RemoveAt<T>(docs: seq<T>, i: nat): (r: seq<T>)
    requires i < |docs|
    ensures |r| == |docs| - 1
    ensures forall j :: 0 <= j < i ==> r[j] == docs[j]
    ensures forall j :: i <= j < |r| ==> r[j] == docs[j + 1]
  {
    docs[..i] + docs[i + 1..]
  }

  /** A matching document with no match before it is the one `findOne` returns. */
  lemma FindFirstIs<T>(docs: seq<T>, p: T -> bool, i: nat)
    requires i < |docs| && p(docs[i])
    requires forall k :: 0 <= k < i ==> !p(docs[k])
    ensures FindFirst(docs, p) == Some(i)
  {
    var f := FindFirst(docs, p);
    assert f.Some? && !(f.value < i) && !(i < f.value);
  }

  /** A document appended after documents that all miss the filter is the first match. */
  lemma FindFirstAppended<T>(docs: seq<T>, d: T, p: T -> bool)
    requires forall j :: 0 <= j < |docs| ==> !p(docs[j])
    requires p(d)
    ensures FindFirst(docs + [d], p) == Some(|docs|)
  {
    var s := docs + [d];
    assert forall j :: 0 <= j < |docs| ==> s[j] == docs[j];
    assert p(s[|docs|]);
  }
}
