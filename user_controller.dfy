/**
 * The user registry: registration (the first user becomes the administrator),
 * login, the administrator's update and delete of one user, and the read-only
 * listings, every one of which hands out the public projection of a user.
 * Password hashing and verification are opaque to the registry and are
 * passed in as functions.
 */
module UserController {
  import opened Models
  import opened Storage
  import opened Credentials

  /** The public projection: id, username and role, never the password hash. */
  function ToPublic(u: Account): (p: UserPublic)
    ensures p.id == u.id && p.username == u.username && p.role == u.role
  {
    UserPublic(u.id, u.username, u.role)
  }

  /** Two users who differ only in their password hash look the same from outside. */
  lemma ToPublicHidesPassword(u: Account, v: Account)
    requires u.(password := v.password) == v
    ensures ToPublic(u) == ToPublic(v)
  {
  }

  // ---------------------------------------------------------------------------
  // Filters and projections

  /** The users satisfying keep, in table order. */
  function Where(users: seq<Account>, keep: Account -> bool): (r: seq<Account>)
    ensures forall u :: u in r <==> u in users && keep(u)
    ensures |r| <= |users|
  {
    if users == [] then []
    else (if keep(users[0]) then [users[0]] else []) + Where(users[1..], keep)
  }

  /** Each kept user appears exactly as often as in the table; the others not at all. */
  lemma {:induction false} WhereMultiplicity(users: seq<Account>, keep: Account -> bool)
    ensures forall u :: multiset(Where(users, keep))[u] == if keep(u) then multiset(users)[u] else 0
  {
    if users != [] {
      WhereMultiplicity(users[1..], keep);
      assert users == [users[0]] + users[1..];
    }
  }

  /** Filtering a table split in two filters each part and keeps them in order. */
  lemma {:induction false} WhereAppend(a: seq<Account>, b: seq<Account>, keep: Account -> bool)
    ensures Where(a + b, keep) == Where(a, keep) + Where(b, keep)
    decreases |a|
  {
    if a == [] {
      assert a + b == b;
    } else {
      assert (a + b)[0] == a[0] && (a + b)[1..] == a[1..] + b;
      WhereAppend(a[1..], b, keep);
    }
  }

  /** How many users satisfy keep, counted from the end of the table. */
  function Count(users: seq<Account>, keep: Account -> bool): nat {
    if users == [] then 0
    else Count(users[..|users| - 1], keep) + (if keep(users[|users| - 1]) then 1 else 0)
  }

  /** The filter keeps exactly as many rows as satisfy it. */
  lemma {:induction false} WhereCount(users: seq<Account>, keep: Account -> bool)
    ensures |Where(users, keep)| == Count(users, keep)
  {
    if users != [] {
      var init, last := users[..|users| - 1], users[|users| - 1];
      assert users == init + [last];
      WhereAppend(init, [last], keep);
      WhereCount(init, keep);
      assert Where([last], keep) == (if keep(last) then [last] else []) + Where([], keep);
    }
  }

  predicate IsAdmin(u: Account) {
    u.role == Admin
  }

  /** The search filter: the username contains name. */
  function NameContains(name: string): Account -> bool {
    (u: Account) => Contains(u.username, name)
  }

  /** The public projection of every user, position by position. */
  function Project(users: seq<Account>): (r: seq<UserPublic>)
    ensures |r| == |users|
    ensures forall i :: 0 <= i < |users| ==> r[i] == ToPublic(users[i])
  {
    if users == [] then [] else [ToPublic(users[0])] + Project(users[1..])
  }

  /** Every listed user appears projected, and every projected entry comes from a listed user. */
  lemma ProjectMembers(users: seq<Account>)
    ensures forall u :: u in users ==> ToPublic(u) in Project(users)
    ensures forall p :: p in Project(users) ==> exists u :: u in users && ToPublic(u) == p
  {
    var r := Project(users);
    forall u | u in users ensures ToPublic(u) in r {
      var i :| 0 <= i < |users| && users[i] == u;
      assert r[i] == ToPublic(u);
    }
    forall p | p in r ensures exists u :: u in users && ToPublic(u) == p {
      var i :| 0 <= i < |r| && r[i] == p;
      assert users[i] in users && ToPublic(users[i]) == p;
    }
  }

  /** `t` occurs in `s` as a contiguous piece (an ordinal, case-sensitive substring test). */
  function Contains(s: string, t: string): bool
    decreases |s|
  {
    if t <= s then true
    else if |s| == 0 then false
    else Contains(s[1..], t)
  }

  /** `t` occurs in `s` starting at position k. */
  predicate OccursAt(s: string, t: string, k: int) {
    0 <= k && k + |t| <= |s| && s[k..k + |t|] == t
  }

  /** Dropping the first character of s moves every occurrence one place to the left. */
  lemma OccursAtShift(s: string, t: string, k: int)
    requires |s| > 0 && k >= 1
    ensures OccursAt(s, t, k) <==> OccursAt(s[1..], t, k - 1)
  {
    if k + |t| <= |s| {
      var a, b := s[k..k + |t|], s[1..][k - 1..k - 1 + |t|];
      assert |a| == |b|;
      forall i | 0 <= i < |a| ensures a[i] == b[i] {
        assert a[i] == s[k + i];
        assert b[i] == s[1..][k - 1 + i];
      }
      assert a == b;
    }
  }

  /** Contains agrees with the definition of a substring by position. */
  lemma {:induction false} ContainsIff(s: string, t: string)
    ensures Contains(s, t) <==> exists k :: OccursAt(s, t, k)
    decreases |s|
  {
    if t <= s {
      assert s[0..0 + |t|] == t;
      assert OccursAt(s, t, 0);
    } else if |s| == 0 {
    } else {
      ContainsIff(s[1..], t);
      if Contains(s[1..], t) {
        var k :| OccursAt(s[1..], t, k);
        OccursAtShift(s, t, k + 1);
      } else {
        forall k | 0 <= k ensures !OccursAt(s, t, k) {
          if k == 0 {
            assert |t| > |s| || s[..|t|] == s[0..0 + |t|];
          } else {
            OccursAtShift(s, t, k);
          }
        }
      }
    }
  }

  /** All: every user, projected. */
  function GetAll(db: UserContext): (r: seq<UserPublic>)
    reads db
    ensures |r| == |db.users|
    ensures forall i :: 0 <= i < |r| ==> r[i] == ToPublic(db.users[i])
  {
    Project(db.users)
  }

  /** AllAdmin: exactly the administrators, projected. */
  function GetAllAdmins(db: UserContext): (r: seq<UserPublic>)
    reads db
    ensures forall u :: u in db.users && u.role == Admin ==> ToPublic(u) in r
    ensures forall p :: p in r ==> p.role == Admin && exists u :: u in db.users && ToPublic(u) == p
    ensures |r| == Count(db.users, IsAdmin)
  {
    var admins := Where(db.users, IsAdmin);
    var r := Project(admins);
    WhereCount(db.users, IsAdmin);
    ProjectMembers(admins);
    r
  }

  /** Search/{name}: exactly the users whose username contains name, projected. */
  function GetByName(db: UserContext, name: string): (r: seq<UserPublic>)
    reads db
    ensures forall u :: u in db.users && Contains(u.username, name) ==> ToPublic(u) in r
    ensures forall p :: p in r ==> Contains(p.username, name) && exists u :: u in db.users && ToPublic(u) == p
    ensures |r| == Count(db.users, NameContains(name))
  {
    var found := Where(db.users, NameContains(name));
    var r := Project(found);
    WhereCount(db.users, NameContains(name));
    ProjectMembers(found);
    r
  }

  /** {id}: the user with that id, projected, or USER_NOT_FOUND. */
  function GetById(db: UserContext, id: int): (r: Result<UserPublic>)
    reads db
    ensures r.Err? <==> forall i :: 0 <= i < |db.users| ==> db.users[i].id != id
    ensures r.Err? ==> r == Err(NotFound, UserNotFound)
    ensures r.Ok? ==> r.value.id == id && exists i :: 0 <= i < |db.users| && r.value == ToPublic(db.users[i])
  {
    match IndexOfId(db.users, id)
    case None => Err(NotFound, UserNotFound)
    case Some(k) => Ok(ToPublic(db.users[k]))
  }

  // ---------------------------------------------------------------------------
  // Login and registration

  predicate UsernameTaken(users: seq<Account>, name: string) {
    exists i :: 0 <= i < |users| && users[i].username == name
  }

  predicate HasAdmin(users: seq<Account>) {
    exists i :: 0 <= i < |users| && users[i].role == Admin
  }

  lemma {:induction false} AdminCountZeroIff(users: seq<Account>)
    ensures Count(users, IsAdmin) == 0 <==> !HasAdmin(users)
  {
    if users != [] {
      var init := users[..|users| - 1];
      AdminCountZeroIff(init);
      if HasAdmin(init) {
        var i :| 0 <= i < |init| && init[i].role == Admin;
        assert users[i] == init[i];
      }
      if HasAdmin(users) && users[|users| - 1].role != Admin {
        var i :| 0 <= i < |users| && users[i].role == Admin;
        assert init[i] == users[i];
      }
    }
  }

  /** No two users share a username. */
  predicate UniqueUsernames(users: seq<Account>) {
    forall i, j :: 0 <= i < j < |users| ==> users[i].username != users[j].username
  }

  /**
   * Login: the credentials must pass validation; the FIRST user with the
   * username is the one checked; a failed verification answers INVALID_PASSWORD.
   */
  function Login(db: UserContext, info: UserPass, verify: (string, string) -> bool): (r: Result<UserPublic>)
    reads db
    ensures !CredentialsValid(info) ==> r == Err(BadRequest, ValidationFailed)
    ensures CredentialsValid(info) ==>
      (r == Err(NotFound, UserNotFound) <==> !UsernameTaken(db.users, info.username.value))
    ensures CredentialsValid(info) && UsernameTaken(db.users, info.username.value) ==>
      exists k :: 0 <= k < |db.users| && db.users[k].username == info.username.value
        && (forall j :: 0 <= j < k ==> db.users[j].username != info.username.value)
        && r == (if verify(db.users[k].password, info.password.value) then Ok(ToPublic(db.users[k]))
                 else Err(Unauthorized, InvalidPassword))
  {
    if !CredentialsValid(info) then Err(BadRequest, ValidationFailed)
    else match IndexOfUsername(db.users, info.username.value)
      case None => Err(NotFound, UserNotFound)
      case Some(k) =>
        var user := db.users[k];
        if !verify(user.password, info.password.value) then Err(Unauthorized, InvalidPassword)
        else Ok(ToPublic(user))
  }

  /**
   * Register: the credentials must pass validation and the username must be
   * free; the new user is an administrator exactly when there was none, and
   * the stored password is the hash of the given one.
   */
  method Register(db: UserContext, info: UserPass, hash: string -> string) returns (r: Result<UserPublic>)
    requires db.Valid()
    modifies db`users, db`nextUserId
    ensures db.Valid()
    ensures !CredentialsValid(info) ==>
      r == Err(BadRequest, ValidationFailed) && db.users == old(db.users) && db.nextUserId == old(db.nextUserId)
    ensures CredentialsValid(info) && UsernameTaken(old(db.users), info.username.value) ==>
      r == Err(BadRequest, UsernameExists) && db.users == old(db.users) && db.nextUserId == old(db.nextUserId)
    ensures CredentialsValid(info) && !UsernameTaken(old(db.users), info.username.value) ==>
      var u := Account(old(db.nextUserId), info.username.value, hash(info.password.value),
                       if HasAdmin(old(db.users)) then User else Admin);
      && db.users == old(db.users) + [u]
      && db.nextUserId == old(db.nextUserId) + 1
      && r == Ok(ToPublic(u))
    ensures UniqueUsernames(old(db.users)) ==> UniqueUsernames(db.users)
    ensures r.Ok? ==> Count(db.users, IsAdmin) == Max(1, Count(old(db.users), IsAdmin))
  {
    if !CredentialsValid(info) {
      return Err(BadRequest, ValidationFailed);
    }
    var name := info.username.value;
    if UsernameTaken(db.users, name) {
      return Err(BadRequest, UsernameExists);
    }
    var admin := HasAdmin(db.users);
    var user := Account(db.nextUserId, name, hash(info.password.value), if admin then User else Admin);
    AdminCountZeroIff(db.users);
    assert (db.users + [user])[..|db.users|] == db.users;
    db.users := db.users + [user];
    db.nextUserId := db.nextUserId + 1;
    r := Ok(ToPublic(user));
  }

  /** User/{id} (PUT): overwrites username, password hash and role of that user only. */
  method UpdateUser(db: UserContext, id: int, upd: UserUpdate, hash: string -> string) returns (r: Result<UserPublic>)
    requires db.Valid()
    modifies db`users
    ensures db.Valid()
    ensures IndexOfId(old(db.users), id).None? ==>
      r == Err(NotFound, UserNotFound) && db.users == old(db.users)
    ensures IndexOfId(old(db.users), id).Some? ==>
      var k := IndexOfId(old(db.users), id).value;
      var u := Account(id, upd.username, hash(upd.password), upd.role);
      db.users == old(db.users)[k := u] && r == Ok(ToPublic(u))
  {
    match IndexOfId(db.users, id)
    case None =>
      return Err(NotFound, UserNotFound);
    case Some(k) =>
      var user := Account(id, upd.username, hash(upd.password), upd.role);
      db.users := db.users[k := user];
      r := Ok(ToPublic(user));
  }

  /** User/{id} (DELETE): removes that user and keeps every other one, in order. */
  method DeleteUser(db: UserContext, id: int) returns (r: Result<()>)
    requires db.Valid()
    modifies db`users
    ensures db.Valid()
    ensures IndexOfId(old(db.users), id).None? ==>
      r == Err(NotFound, UserNotFound) && db.users == old(db.users)
    ensures IndexOfId(old(db.users), id).Some? ==>
      var k := IndexOfId(old(db.users), id).value;
      r == Ok(()) && db.users == old(db.users)[..k] + old(db.users)[k + 1..]
    ensures forall u :: u in db.users <==> u in old(db.users) && (u.id != id || IndexOfId(old(db.users), id).None?)
  {
    match IndexOfId(db.users, id)
    case None =>
      return Err(NotFound, UserNotFound);
    case Some(k) =>
      RemoveAtKeepsOthers(db.users, k);
      db.users := db.users[..k] + db.users[k + 1..];
      r := Ok(());
  }

  /** Removing the row at k keeps exactly the users with another id, still with unique ids. */
  lemma RemoveAtKeepsOthers(users: seq<Account>, k: nat)
    requires UniqueIds(users) && k < |users|
    ensures var rest := users[..k] + users[k + 1..];
      && UniqueIds(rest)
      && (forall i :: 0 <= i < |rest| ==> rest[i] in users)
      && (forall u :: u in rest <==> u in users && u.id != users[k].id)
  {
    var rest := users[..k] + users[k + 1..];
    assert forall i :: 0 <= i < |rest| ==> rest[i] == users[if i < k then i else i + 1];
    forall u | u in users && u.id != users[k].id ensures u in rest {
      var i :| 0 <= i < |users| && users[i] == u;
      assert rest[if i < k then i else i - 1] == u;
    }
  }
}
