/** The user table as an immutable sequence of rows, its lookups and its invariants. */
module Users {
  import opened Wrappers

  /** One row of the user table. Times are whole seconds; a NULL column is `None`. */
  datatype User = User(
    id: nat,
    username: string,
    email: string,
    passwordHash: string,
    isActive: bool,
    isAdmin: bool,
    verificationToken: Option<string>,
    tokenExpiry: Option<int>)

  /** The table, in the order `query.first()` walks it. */
  type Store = seq<User>

  /** The fields the public user view exposes: nothing secret has a place here. */
  datatype PublicUser = PublicUser(id: nat, username: string, email: string, isAdmin: bool)

  /** The public view of a row, as dumped into a login response. */
  function PublicView(u: User): PublicUser
  {
    PublicUser(u.id, u.username, u.email, u.isAdmin)
  }

  /** Two rows have the same public view exactly when they agree on the four public
      fields, whatever their hashes, tokens, expiries and activation flags. */
  lemma PublicViewExactlyPublicFields(u: User, v: User)
    ensures PublicView(u) == PublicView(v)
      <==> u.id == v.id && u.username == v.username && u.email == v.email && u.isAdmin == v.isAdmin
  {
  }

  /** Password hashing and checking, both outside this model. */
  datatype Hasher = Hasher(hash: string -> string, check: (string, string) -> bool)

  /** A checker that accepts a password against its own hash. */
  ghost predicate Sound(h: Hasher)
  {
    forall p :: h.check(p, h.hash(p))
  }

  /** A collision-free checker: a password is accepted against the hash of `q` only if it is `q`. */
  ghost predicate Exact(h: Hasher)
  {
    forall p, q :: h.check(p, h.hash(q)) <==> p == q
  }

  /** Index of the first row satisfying `p`, like `filter_by(...).first()`. */
  function FirstWhere(s: Store, p: User -> bool): (r: Option<nat>)
    ensures r.Some? ==> r.value < |s| && p(s[r.value])
    ensures r.Some? ==> forall j :: 0 <= j < r.value ==> !p(s[j])
    ensures r.None? <==> forall j :: 0 <= j < |s| ==> !p(s[j])
  {
    if |s| == 0 then None
    else if p(s[0]) then Some(0)
    else match FirstWhere(s[1..], p)
      case None => None
      case Some(k) => Some(k + 1)
  }

  /** First row whose email is `email`. */
  function FindByEmail(s: Store, email: string): (r: Option<nat>)
    ensures r.Some? ==> r.value < |s| && s[r.value].email == email
    ensures r.Some? ==> forall j :: 0 <= j < r.value ==> s[j].email != email
    ensures r.None? <==> forall j :: 0 <= j < |s| ==> s[j].email != email
  {
    FirstWhere(s, (u: User) => u.email == email)
  }

  /** First row holding exactly `token` as its live verification token. */
  function FindByToken(s: Store, token: string): (r: Option<nat>)
    ensures r.Some? ==> r.value < |s| && s[r.value].verificationToken == Some(token)
    ensures r.Some? ==> forall j :: 0 <= j < r.value ==> s[j].verificationToken != Some(token)
    ensures r.None? <==> forall j :: 0 <= j < |s| ==> s[j].verificationToken != Some(token)
  {
    FirstWhere(s, (u: User) => u.verificationToken == Some(token))
  }

  /** The row with primary key `id`, like `User.query.get(id)`. */
  function FindById(s: Store, id: int): (r: Option<User>)
    ensures r.Some? ==> r.value in s && r.value.id == id
    ensures r.None? <==> forall j :: 0 <= j < |s| ==> s[j].id != id
  {
    match FirstWhere(s, (u: User) => u.id == id)
    case None => None
    case Some(k) => Some(s[k])
  }

  /** The key the table assigns to the next inserted row: one past the largest in use. */
  function NextId(s: Store): (r: nat)
    ensures r >= 1
    ensures forall j :: 0 <= j < |s| ==> s[j].id < r
  {
    if |s| == 0 then 1
    else
      var rest := NextId(s[..|s| - 1]);
      assert forall j :: 0 <= j < |s| - 1 ==> s[j] == s[..|s| - 1][j];
      if s[|s| - 1].id < rest then rest else s[|s| - 1].id + 1
  }

  /** The verification token and its expiry are set or cleared together. */
  predicate TokenPaired(u: User)
  {
    u.verificationToken.Some? <==> u.tokenExpiry.Some?
  }

  predicate AllTokensPaired(s: Store)
  {
    forall i :: 0 <= i < |s| ==> TokenPaired(s[i])
  }

  predicate EmailsUnique(s: Store)
  {
    forall i, j :: 0 <= i < j < |s| ==> s[i].email != s[j].email
  }

  predicate IdsUnique(s: Store)
  {
    forall i, j :: 0 <= i < j < |s| ==> s[i].id != s[j].id
  }

  /** No live token is held by two rows. */
  predicate TokensUnique(s: Store)
  {
    forall i, j :: 0 <= i < j < |s| && s[i].verificationToken.Some? ==>
      s[i].verificationToken != s[j].verificationToken
  }

  /** The invariants of the table that every handler keeps. */
  predicate WellFormed(s: Store)
  {
    AllTokensPaired(s) && EmailsUnique(s) && IdsUnique(s)
  }

  /** Replacing a row by one with the same key and email and a paired token keeps the
      table well formed. */
  lemma UpdateKeepsWellFormed(s: Store, i: int, u: User)
    requires 0 <= i < |s|
    requires u.id == s[i].id && u.email == s[i].email && TokenPaired(u)
    ensures WellFormed(s) ==> WellFormed(s[i := u])
  {
  }
}
