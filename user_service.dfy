/** User administration: lookups without the password, patches of the
    name and role columns, and the guarded delete. */
module UserService {
  import opened Model
  import opened Db

  /** `getUserById` (of both the user and the auth service): the stored user
      without its password, or nothing. */
  function GetUserById(users: map<Id, User>, id: Id): (r: Option<PublicUser>)
    ensures r.Some? <==> id in users
    ensures r.Some? ==>
      && r.value.id == users[id].id && r.value.email == users[id].email
      && r.value.firstName == users[id].firstName && r.value.lastName == users[id].lastName
      && r.value.role == users[id].role
  {
    if id in users then Some(Public(users[id])) else None
  }

  /** `UpdateUserData`: `None` leaves a column as it is. */
  datatype UserPatch = UserPatch(firstName: Option<string>, lastName: Option<string>, role: Option<Role>)

  /** The row after `prisma.user.update({ data })`: supplied columns written,
      e-mail and password hash never touched. */
  function UserPatched(u: User, p: UserPatch): (r: User)
    ensures r.id == u.id && r.email == u.email && r.password == u.password
    ensures r.firstName == (if p.firstName.Some? then p.firstName else u.firstName)
    ensures r.lastName == (if p.lastName.Some? then p.lastName else u.lastName)
    ensures r.role == (if p.role.Some? then p.role.value else u.role)
  {
    User(u.id, u.email, u.password,
      if p.firstName.Some? then p.firstName else u.firstName,
      if p.lastName.Some? then p.lastName else u.lastName,
      if p.role.Some? then p.role.value else u.role)
  }

  /** Rewriting a user row with the same id and e-mail keeps every table valid. */
  lemma UsersValidRewrite(users: map<Id, User>, next: nat, u: User)
    requires UsersValid(users, next) && u.id in users && u.email == users[u.id].email
    ensures UsersValid(users[u.id := u], next)
  {
    var users' := users[u.id := u];
    forall a, b | a in users' && b in users' && SameEmail(users', a, b) ensures a == b {
      assert SameEmail(users, a, b);
    }
  }

  /** `updateUser`: NotFound for a missing id, otherwise the patched row,
      returned without its password. */
  method UpdateUser(db: Store, id: Id, p: UserPatch) returns (r: Result<PublicUser>)
    requires db.Valid()
    modifies db`users
    ensures db.Valid()
    ensures id !in old(db.users) ==> r == Failure(NotFound(UserEntity)) && unchanged(db)
    ensures id in old(db.users) ==>
      && db.users == old(db.users)[id := UserPatched(old(db.users)[id], p)]
      && r == Success(Public(db.users[id]))
  {
    if id !in db.users {
      return Failure(NotFound(UserEntity));
    }
    var u := UserPatched(db.users[id], p);
    UsersValidRewrite(db.users, db.nextId, u);
    db.users := db.users[id := u];
    r := Success(Public(u));
  }

  /** `updateUserRole`: NotFound for a missing id, otherwise only the role changes. */
  method UpdateUserRole(db: Store, id: Id, role: Role) returns (r: Result<PublicUser>)
    requires db.Valid()
    modifies db`users
    ensures db.Valid()
    ensures id !in old(db.users) ==> r == Failure(NotFound(UserEntity)) && unchanged(db)
    ensures id in old(db.users) ==>
      && db.users == old(db.users)[id := old(db.users)[id].(role := role)]
      && r == Success(Public(db.users[id]))
  {
    if id !in db.users {
      return Failure(NotFound(UserEntity));
    }
    var u := db.users[id].(role := role);
    UsersValidRewrite(db.users, db.nextId, u);
    db.users := db.users[id := u];
    r := Success(Public(u));
  }

  /** Setting the role is the general patch with only the role supplied, and a
      patch without a role leaves it alone. */
  lemma RolePatchOnly(u: User, role: Role, p: UserPatch)
    ensures UserPatched(u, UserPatch(None, None, Some(role))) == u.(role := role)
    ensures p.role.None? ==> UserPatched(u, p).role == u.role
    ensures UserPatched(u, UserPatch(None, None, None)) == u
  {
  }

  /** Patching twice with the same data is patching once. */
  lemma UserPatchIdempotent(u: User, p: UserPatch)
    ensures UserPatched(UserPatched(u, p), p) == UserPatched(u, p)
  {
  }

  /** Some cart or order still belongs to user `id`. */
  predicate OwnsRows(carts: map<Id, Cart>, orders: map<Id, Order>, id: Id) {
    || (exists c :: c in carts && carts[c].userId == id)
    || (exists o :: o in orders && orders[o].userId == id)
  }

  /** Removing a user that owns no cart and no order keeps every table valid. */
  lemma UsersValidDelete(users: map<Id, User>, carts: map<Id, Cart>, orders: map<Id, Order>, next: nat, id: Id)
    requires UsersValid(users, next) && CartsValid(carts, users, next) && OrdersValid(orders, users, next)
    requires !OwnsRows(carts, orders, id)
    ensures UsersValid(users - {id}, next) && CartsValid(carts, users - {id}, next) && OrdersValid(orders, users - {id}, next)
  {
    var users' := users - {id};
    forall a, b | a in users' && b in users' && SameEmail(users', a, b) ensures a == b {
      assert SameEmail(users, a, b);
    }
  }

  /** `deleteUser`: NotFound for a missing id, Forbidden for an administrator,
      refused while the user still owns a cart or orders, otherwise exactly
      that user goes. */
  method DeleteUser(db: Store, id: Id) returns (r: Result<()>)
    requires db.Valid()
    modifies db`users
    ensures db.Valid()
    ensures id !in old(db.users) ==> r == Failure(NotFound(UserEntity)) && unchanged(db)
    ensures id in old(db.users) && old(db.users)[id].role == AdminRole ==> r == Failure(Forbidden) && unchanged(db)
    ensures id in old(db.users) && old(db.users)[id].role == UserRole && OwnsRows(db.carts, db.orders, id) ==>
      r == Failure(StillReferenced) && unchanged(db)
    ensures id in old(db.users) && old(db.users)[id].role == UserRole && !OwnsRows(db.carts, db.orders, id) ==>
      r == Success(()) && db.users == old(db.users) - {id}
  {
    if id !in db.users {
      return Failure(NotFound(UserEntity));
    }
    if db.users[id].role == AdminRole {
      return Failure(Forbidden);
    }
    if OwnsRows(db.carts, db.orders, id) {
      return Failure(StillReferenced);
    }
    UsersValidDelete(db.users, db.carts, db.orders, db.nextId, id);
    db.users := db.users - {id};
    r := Success(());
  }
}
