/**
  The user document of the server (`models/User.js`): required fields, the
  role enumeration with its default, the unique email index, and the
  pre-save hook that hashes the password only when it was modified. The
  hash function is a parameter; its salting is not modelled.
 */
module UserModel {
  import opened Wrappers

  const Roles: seq<string> := ["student", "instructor", "admin"]
  const DefaultRole := "student"

  /** The object handed to `new User(...)`: any field may be missing. */
  datatype UserDraft = UserDraft(
    name: Option<string>,
    email: Option<string>,
    password: Option<string>,
    role: Option<string>,
    enrolledCourses: seq<nat>,
    createdCourses: seq<nat>,
    createdAt: Option<int>)

  /** A stored user; `password` holds what the hook produced, never the plain text of a fresh save. */
  datatype User = User(
    name: string,
    email: string,
    password: string,
    role: string,
    enrolledCourses: seq<nat>,
    createdCourses: seq<nat>,
    createdAt: int)

  datatype UserDb = UserDb(users: map<nat, User>, nextId: nat)

  /** The document paths the validators report. */
  datatype Path = NamePath | EmailPath | PasswordPath | RolePath

  /** Why a save fails: validation, or the unique index on email (the duplicate-key error). */
  datatype SaveError = Invalid(paths: set<Path>) | DuplicateEmail

  predicate Present(x: Option<string>)
  {
    x.Some? && x.value != ""
  }

  /** The role after defaults: a missing role is "student". */
  function RoleOf(d: UserDraft): (r: string)
    ensures d.role.None? ==> r == DefaultRole
  {
    d.role.GetOr(DefaultRole)
  }

  /** The validation failures of a user: the required strings, and a role outside the enumeration. */
  function Violations(name: string, email: string, password: string, role: string): (r: set<Path>)
    ensures r == {} <==> name != "" && email != "" && password != "" && role in Roles
  {
    (if name != "" then {} else {NamePath})
    + (if email != "" then {} else {EmailPath})
    + (if password != "" then {} else {PasswordPath})
    + (if role in Roles then {} else {RolePath})
  }

  /** No two stored users share an email. */
  predicate EmailsUnique(db: UserDb)
  {
    forall a, b :: a in db.users && b in db.users && db.users[a].email == db.users[b].email ==> a == b
  }

  predicate EmailTaken(db: UserDb, email: string, except: Option<nat>)
  {
    exists id :: id in db.users && db.users[id].email == email && Some(id) != except
  }

  /** The well-formedness every stored user keeps. */
  predicate Valid(u: User)
  {
    u.name != "" && u.email != "" && u.password != "" && u.role in Roles
  }

  /**
    `new User(d).save()` at time `now`: validation first (missing or empty
    name, email or password; a role outside the enumeration, where a missing
    role is "student"), then the hook, which always hashes on a first save,
    then the insert, which the unique index refuses for an email already
    stored.
   */
  function Register(db: UserDb, d: UserDraft, hash: string -> string, now: int): (r: Result<(UserDb, nat), SaveError>)
    ensures r.Ok? <==> Present(d.name) && Present(d.email) && Present(d.password) && RoleOf(d) in Roles
                        && !EmailTaken(db, d.email.value, None)
    ensures r.Err? && r.error.Invalid? ==> r.error.paths != {}
    ensures r.Ok? ==>
      var id := r.value.1;
      && id == db.nextId && r.value.0.nextId == db.nextId + 1
      && r.value.0.users.Keys == db.users.Keys + {id}
      && (forall k :: k in db.users && k != id ==> r.value.0.users[k] == db.users[k])
      && r.value.0.users[id] == User(d.name.value, d.email.value, hash(d.password.value), RoleOf(d),
                                    d.enrolledCourses, d.createdCourses, d.createdAt.GetOr(now))
  {
    var name, email, password := d.name.GetOr(""), d.email.GetOr(""), d.password.GetOr("");
    var paths := Violations(name, email, password, RoleOf(d));
    if paths != {} then Err(Invalid(paths))
    else if EmailTaken(db, email, None) then Err(DuplicateEmail)
    else
      var u := User(name, email, hash(password), RoleOf(d), d.enrolledCourses, d.createdCourses, d.createdAt.GetOr(now));
      Ok((UserDb(db.users[db.nextId := u], db.nextId + 1), db.nextId))
  }

  /** Changes made to a loaded user before `save()`; absent fields are not assigned. */
  datatype UserChanges = UserChanges(
    name: Option<string>,
    email: Option<string>,
    password: Option<string>,
    role: Option<string>,
    enrolledCourses: Option<seq<nat>>)

  /** `isModified('password')`: a password was assigned and differs from the stored value. */
  predicate PasswordModified(u: User, ch: UserChanges)
  {
    ch.password.Some? && ch.password.value != u.password
  }

  /**
    `user.save()` after assigning the changes: validation, then the hook,
    which hashes only a modified password (so an unchanged hash is never
    hashed again), then the write, which the unique index refuses when the
    email belongs to another user.
   */
  function SaveUser(db: UserDb, id: nat, ch: UserChanges, hash: string -> string): (r: Result<UserDb, SaveError>)
    requires id in db.users
    ensures r.Ok? ==> r.value.users.Keys == db.users.Keys && r.value.nextId == db.nextId
    ensures r.Ok? ==> forall k :: k in db.users && k != id ==> r.value.users[k] == db.users[k]
    ensures r.Ok? && PasswordModified(db.users[id], ch) ==> r.value.users[id].password == hash(ch.password.value)
    ensures r.Ok? && !PasswordModified(db.users[id], ch) ==> r.value.users[id].password == db.users[id].password
    ensures r.Ok? ==> r.value.users[id].name != "" && r.value.users[id].email != "" && r.value.users[id].role in Roles
    ensures r.Ok? ==>
      var u, u' := db.users[id], r.value.users[id];
      && u'.name == ch.name.GetOr(u.name) && u'.email == ch.email.GetOr(u.email)
      && u'.role == ch.role.GetOr(u.role) && u'.enrolledCourses == ch.enrolledCourses.GetOr(u.enrolledCourses)
      && u'.createdCourses == u.createdCourses && u'.createdAt == u.createdAt
    ensures r.Err? <==> Violations(ch.name.GetOr(db.users[id].name), ch.email.GetOr(db.users[id].email),
                                   ch.password.GetOr(db.users[id].password), ch.role.GetOr(db.users[id].role)) != {}
                        || EmailTaken(db, ch.email.GetOr(db.users[id].email), Some(id))
  {
    var u := db.users[id];
    var name, email := ch.name.GetOr(u.name), ch.email.GetOr(u.email);
    var password, role := ch.password.GetOr(u.password), ch.role.GetOr(u.role);
    var paths := Violations(name, email, password, role);
    if paths != {} then Err(Invalid(paths))
    else if EmailTaken(db, email, Some(id)) then Err(DuplicateEmail)
    else
      var stored := if PasswordModified(u, ch) then hash(password) else u.password;
      var u' := u.(name := name, email := email, password := stored, role := role,
                   enrolledCourses := ch.enrolledCourses.GetOr(u.enrolledCourses));
      Ok(db.(users := db.users[id := u']))
  }

  /** A first save keeps emails unique. */
  lemma RegisterKeepsEmailsUnique(db: UserDb, d: UserDraft, hash: string -> string, now: int)
    requires EmailsUnique(db) && db.nextId !in db.users
    requires Register(db, d, hash, now).Ok?
    ensures EmailsUnique(Register(db, d, hash, now).value.0)
  {
  }

  /** A later save keeps emails unique. */
  lemma SaveKeepsEmailsUnique(db: UserDb, id: nat, ch: UserChanges, hash: string -> string)
    requires id in db.users && EmailsUnique(db)
    requires SaveUser(db, id, ch, hash).Ok?
    ensures EmailsUnique(SaveUser(db, id, ch, hash).value)
  {
  }

  /** A second registration with an email already stored is refused by the index, whatever else it holds. */
  lemma DuplicateRegistrationRefused(db: UserDb, d: UserDraft, hash: string -> string, now: int)
    requires Present(d.name) && Present(d.email) && Present(d.password) && RoleOf(d) in Roles
    requires Register(db, d, hash, now).Ok?
    ensures var db1 := Register(db, d, hash, now).value.0;
      Register(db1, d, hash, now) == Err(DuplicateEmail)
  {
    var r := Register(db, d, hash, now).value;
    assert r.0.users[r.1].email == d.email.value;
  }

  /** Saving a user without touching the password keeps the stored hash as it is. */
  lemma ResaveDoesNotRehash(db: UserDb, id: nat, name: string, hash: string -> string)
    requires id in db.users && Valid(db.users[id]) && EmailsUnique(db) && name != ""
    ensures var r := SaveUser(db, id, UserChanges(Some(name), None, None, None, None), hash);
      r.Ok? && r.value.users[id].password == db.users[id].password && r.value.users[id].name == name
  {
  }

  /** A user registered without a role is a student. */
  lemma RoleDefaultsToStudent(db: UserDb, d: UserDraft, hash: string -> string, now: int)
    requires d.role.None? && Register(db, d, hash, now).Ok?
    ensures var r := Register(db, d, hash, now).value; r.0.users[r.1].role == "student"
  {
  }
}
