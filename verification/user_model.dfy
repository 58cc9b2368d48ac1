/**
 * The `users` collection: the record shape, its schema defaults, the
 * uniqueness constraints, and `findOne` as "first record in natural order
 * that satisfies the filter".
 */
module UserModel {
  import opened Wrappers
  import opened Crypto

  /** Lifetime of a verification or password-reset token, in milliseconds. */
  const TokenLifetime: int := 120000

  /** One token slot: the token value and its expiry instant (milliseconds). */
  datatype Slot = Slot(token: string, expiry: int)

  /**
   * A user record. `reset` holds `forgetPasswordToken`/`forgetPasswordTokenExpiry`
   * and `verify` holds `verifyToken`/`verifyTokenExpiry`; `None` is a slot
   * whose two fields are unset. `id` stands for the document's `_id`.
   */
  datatype User = User(
    id: nat,
    username: string,
    email: string,
    password: Digest,
    createdAt: int,
    isVerified: bool,
    reset: Option<Slot>,
    verify: Option<Slot>)

  /** The user as `/api/users/me` returns it: every field except the password. */
  datatype PublicUser = PublicUser(
    id: nat,
    username: string,
    email: string,
    createdAt: int,
    isVerified: bool,
    reset: Option<Slot>,
    verify: Option<Slot>)

  /** The collection, in natural (insertion) order. */
  type Store = seq<User>

  /** `.select("-password")`. */
  function WithoutPassword(u: User): PublicUser {
    PublicUser(u.id, u.username, u.email, u.createdAt, u.isVerified, u.reset, u.verify)
  }

  /** A record as `new User({username, email, password})` creates it: schema defaults everywhere else. */
  function NewUser(id: nat, username: string, email: string, password: Digest, now: int): User {
    User(id, username, email, password, now, false, None, None)
  }

  /**
   * The schema's constraints on a stored collection: `username` and `email`
   * are required (Mongoose rejects the empty string for a required string),
   * and `_id`, `username` and `email` are each unique.
   */
  predicate Valid(s: Store) {
    && (forall i :: 0 <= i < |s| ==> s[i].username != "" && s[i].email != "")
    && (forall i, j :: 0 <= i < j < |s| ==>
          s[i].id != s[j].id && s[i].username != s[j].username && s[i].email != s[j].email)
  }

  /** `findOne(filter)`: the position of the first record satisfying the filter. */
  function FindFirst(s: Store, filter: User -> bool): (r: Option<nat>)
    ensures r.Some? ==> r.value < |s| && filter(s[r.value])
    ensures r.Some? ==> forall j :: 0 <= j < r.value ==> !filter(s[j])
    ensures r.None? <==> forall j :: 0 <= j < |s| ==> !filter(s[j])
  {
    if |s| == 0 then None
    else if filter(s[0]) then Some(0)
    else match FindFirst(s[1..], filter)
      case None => None
      case Some(k) => Some(k + 1)
  }

  /** `findOne({email})`. */
  function ByEmail(s: Store, email: string): Option<nat> {
    FindFirst(s, (u: User) => u.email == email)
  }

  /** `findOne({username})`. */
  function ByUsername(s: Store, username: string): Option<nat> {
    FindFirst(s, (u: User) => u.username == username)
  }

  /** `findById(id)`. */
  function ById(s: Store, id: nat): Option<nat> {
    FindFirst(s, (u: User) => u.id == id)
  }

  /** A slot holds exactly this token value and has not expired (`expiry > now`, strictly). */
  predicate Redeemable(slot: Option<Slot>, token: string, now: int) {
    slot.Some? && slot.value.token == token && slot.value.expiry > now
  }

  /** `findOne({verifyToken: token, verifyTokenExpiry: {$gt: now}})`. */
  function ByVerifyToken(s: Store, token: string, now: int): Option<nat> {
    FindFirst(s, (u: User) => Redeemable(u.verify, token, now))
  }

  /** `findOne({forgetPasswordToken: token, forgetPasswordTokenExpiry: {$gt: now}})`. */
  function ByResetToken(s: Store, token: string, now: int): Option<nat> {
    FindFirst(s, (u: User) => Redeemable(u.reset, token, now))
  }

  /** The largest `_id` in the collection (0 when it is empty). */
  function MaxId(s: Store): (m: nat)
    ensures forall i :: 0 <= i < |s| ==> s[i].id <= m
  {
    if |s| == 0 then 0
    else var rest := MaxId(s[1..]); if s[0].id > rest then s[0].id else rest
  }

  /** An `_id` no stored record has; stands for MongoDB's ObjectId generation. */
  function NextId(s: Store): (id: nat)
    ensures forall i :: 0 <= i < |s| ==> s[i].id != id
  {
    MaxId(s) + 1
  }

  /**
   * Two filters that agree position by position on two collections of equal
   * length find the same first record.
   */
  lemma FindFirstAgrees(s: Store, p: User -> bool, s': Store, q: User -> bool)
    requires |s| == |s'|
    requires forall j :: 0 <= j < |s| ==> p(s[j]) == q(s'[j])
    ensures FindFirst(s, p) == FindFirst(s', q)
  {
  }

  /** Rewriting records without touching their emails leaves `findOne({email})` unchanged. */
  lemma ByEmailStable(s: Store, s': Store, email: string)
    requires |s| == |s'| && forall j :: 0 <= j < |s| ==> s'[j].email == s[j].email
    ensures ByEmail(s', email) == ByEmail(s, email)
  {
    FindFirstAgrees(s, (u: User) => u.email == email, s', (u: User) => u.email == email);
  }

  /** Two records agree on every field the uniqueness constraints look at. */
  predicate SameIdentity(u: User, v: User) {
    u.id == v.id && u.username == v.username && u.email == v.email
  }

  /** Replacing a record by one with the same identity keeps the collection valid. */
  lemma UpdateKeepsValid(s: Store, i: nat, v: User)
    requires i < |s| && SameIdentity(s[i], v)
    ensures Valid(s) ==> Valid(s[i := v])
  {
  }

  /** In a valid collection a lookup by a unique field finds the one record that has it. */
  lemma UniqueUsername(s: Store, i: nat)
    requires Valid(s) && i < |s|
    ensures ByUsername(s, s[i].username) == Some(i)
  {
  }

  lemma UniqueId(s: Store, i: nat)
    requires Valid(s) && i < |s|
    ensures ById(s, s[i].id) == Some(i)
  {
  }
}
