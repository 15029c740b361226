/** Registration, login and the own-profile update.  Hashing, comparing
    and signing are not interpreted: they are the function fields of a
    `Crypto` value the caller passes in. */
module AuthService {
  import opened Model
  import opened Db
  import opened UserService

  /** bcrypt and JWT as uninterpreted functions.  `hash` takes the random
      salt bcrypt draws, `sign` the token payload `{ id, email }`. */
  datatype Crypto = Crypto(
    hash: (string, nat) -> string,
    compare: (string, string) -> bool,
    sign: (Id, string) -> string)

  /** What bcrypt promises: a password matches every hash made of it. */
  ghost predicate Sound(crypto: Crypto) {
    forall password: string, salt: nat :: crypto.compare(password, crypto.hash(password, salt))
  }

  /** The body `registerSchema` admits: no role, so every account starts as a
      plain user. */
  datatype Registration = Registration(email: string, password: string, firstName: Option<string>, lastName: Option<string>)

  datatype Credentials = Credentials(email: string, password: string)

  /** What register and login answer: the user without the password, and a token. */
  datatype Session = Session(user: PublicUser, token: string)

  /** Some user has this e-mail: `findUnique({ where: { email } })` finds a row. */
  predicate EmailUsed(users: map<Id, User>, email: string) {
    exists u :: u in users && users[u].email == email
  }

  /** The account with this e-mail accepts this password. */
  predicate CanLogIn(users: map<Id, User>, email: string, password: string, crypto: Crypto) {
    exists u :: u in users && users[u].email == email && crypto.compare(password, users[u].password)
  }

  /** A user under a fresh id and an e-mail no user has keeps every table valid. */
  lemma UsersValidInsert(users: map<Id, User>, carts: map<Id, Cart>, orders: map<Id, Order>, next: nat, u: User)
    requires UsersValid(users, next) && CartsValid(carts, users, next) && OrdersValid(orders, users, next)
    requires u.id < next && u.id !in users && !EmailUsed(users, u.email)
    ensures UsersValid(users[u.id := u], next) && CartsValid(carts, users[u.id := u], next) && OrdersValid(orders, users[u.id := u], next)
  {
    var users' := users[u.id := u];
    forall a, b | a in users' && b in users' && SameEmail(users', a, b) ensures a == b {
      if a != u.id && b != u.id {
        assert SameEmail(users, a, b);
      }
    }
  }

  /** `register`: refused when the e-mail is taken; otherwise a plain user
      whose stored password is the hash, answered without the password and
      with a token for `{ id, email }`. */
  method Register(db: Store, data: Registration, crypto: Crypto, salt: nat) returns (r: Result<Session>)
    requires db.Valid()
    modifies db`users, db`nextId
    ensures db.Valid()
    ensures EmailUsed(old(db.users), data.email) ==> r == Failure(EmailTaken) && unchanged(db)
    ensures !EmailUsed(old(db.users), data.email) ==>
      && r.Success?
      && r.value.user.id !in old(db.users)
      && db.users == old(db.users)[r.value.user.id :=
           User(r.value.user.id, data.email, crypto.hash(data.password, salt), data.firstName, data.lastName, UserRole)]
      && r.value.user == Public(db.users[r.value.user.id])
      && r.value.token == crypto.sign(r.value.user.id, data.email)
  {
    if EmailUsed(db.users, data.email) {
      return Failure(EmailTaken);
    }
    var id := db.NewId();
    var u := User(id, data.email, crypto.hash(data.password, salt), data.firstName, data.lastName, UserRole);
    UsersValidInsert(db.users, db.carts, db.orders, db.nextId, u);
    db.users := db.users[id := u];
    r := Success(Session(Public(u), crypto.sign(id, data.email)));
  }

  /** `login`: one answer, InvalidCredentials, for an unknown e-mail and for a
      wrong password alike; otherwise that user and a token. */
  method Login(db: Store, creds: Credentials, crypto: Crypto) returns (r: Result<Session>)
    requires db.Valid()
    ensures r.Success? <==> CanLogIn(db.users, creds.email, creds.password, crypto)
    ensures r.Failure? ==> r.error == InvalidCredentials
    ensures r.Success? ==>
      && r.value.user.id in db.users
      && r.value.user == Public(db.users[r.value.user.id])
      && r.value.user.email == creds.email
      && r.value.token == crypto.sign(r.value.user.id, creds.email)
  {
    if !EmailUsed(db.users, creds.email) {
      return Failure(InvalidCredentials);
    }
    var id :| id in db.users && db.users[id].email == creds.email;
    if !crypto.compare(creds.password, db.users[id].password) {
      forall v | v in db.users && db.users[v].email == creds.email ensures v == id {
        assert SameEmail(db.users, v, id);
      }
      return Failure(InvalidCredentials);
    }
    r := Success(Session(Public(db.users[id]), crypto.sign(id, creds.email)));
  }

  /** The password just registered logs in, whatever salt the hash drew. */
  lemma RegisteredCanLogIn(users: map<Id, User>, u: User, password: string, salt: nat, crypto: Crypto)
    requires Sound(crypto) && u.password == crypto.hash(password, salt)
    ensures CanLogIn(users[u.id := u], u.email, password, crypto)
  {
    var users' := users[u.id := u];
    assert u.id in users' && users'[u.id].email == u.email;
    assert crypto.compare(password, crypto.hash(password, salt));
  }

  /** With unique e-mails, a password the account's hash rejects logs in as
      nobody: no other account can answer for that e-mail. */
  lemma WrongPasswordLogsInNobody(users: map<Id, User>, id: Id, password: string, crypto: Crypto)
    requires EmailsUnique(users) && id in users && !crypto.compare(password, users[id].password)
    ensures !CanLogIn(users, users[id].email, password, crypto)
  {
    forall v | v in users && users[v].email == users[id].email ensures v == id {
      assert SameEmail(users, v, id);
    }
  }

  /** The JSON body of `PATCH /auth/profile` as it arrives: no schema
      validates it, so any column of the user may be present. */
  datatype ProfileBody = ProfileBody(
    firstName: Option<string>,
    lastName: Option<string>,
    email: Option<string>,
    password: Option<string>,
    role: Option<Role>)

  /** `updateProfile` as written: the whole body goes to `prisma.user.update`. */
  function ProfileWrittenAsIs(u: User, b: ProfileBody): (r: User)
    ensures r.id == u.id
    ensures r.firstName == (if b.firstName.Some? then b.firstName else u.firstName)
    ensures r.lastName == (if b.lastName.Some? then b.lastName else u.lastName)
    ensures r.email == (if b.email.Some? then b.email.value else u.email)
    ensures r.password == (if b.password.Some? then b.password.value else u.password)
    ensures r.role == (if b.role.Some? then b.role.value else u.role)
  {
    User(u.id,
      if b.email.Some? then b.email.value else u.email,
      if b.password.Some? then b.password.value else u.password,
      if b.firstName.Some? then b.firstName else u.firstName,
      if b.lastName.Some? then b.lastName else u.lastName,
      if b.role.Some? then b.role.value else u.role)
  }

  /** A plain user who sends `{ "role": "ADMIN" }` to their own profile comes
      out an administrator. */
  lemma ProfileBodyGrantsAdmin()
    ensures ProfileWrittenAsIs(User(1, "shopper@example.com", "stored-hash", None, None, UserRole),
              ProfileBody(None, None, None, None, Some(AdminRole))).role == AdminRole
  {
  }

  /** The same request can also overwrite the stored hash with a plaintext. */
  lemma ProfileBodyStoresPlaintext()
    ensures ProfileWrittenAsIs(User(1, "shopper@example.com", "stored-hash", None, None, UserRole),
              ProfileBody(None, None, None, Some("plaintext"), None)).password == "plaintext"
  {
  }

  /** `UpdateProfileData`: the columns the profile update is declared to take. */
  datatype ProfilePatch = ProfilePatch(firstName: Option<string>, lastName: Option<string>)

  /** The intended profile update: only the names change. */
  function ProfileUpdated(u: User, p: ProfilePatch): (r: User)
    ensures r.id == u.id && r.email == u.email && r.password == u.password && r.role == u.role
    ensures r.firstName == (if p.firstName.Some? then p.firstName else u.firstName)
    ensures r.lastName == (if p.lastName.Some? then p.lastName else u.lastName)
  {
    UserPatched(u, UserPatch(p.firstName, p.lastName, None))
  }

  /** On a body holding only the declared columns the code as written and the
      intended update agree. */
  lemma ProfileUpdatesAgreeOnDeclaredColumns(u: User, p: ProfilePatch)
    ensures ProfileWrittenAsIs(u, ProfileBody(p.firstName, p.lastName, None, None, None)) == ProfileUpdated(u, p)
  {
  }

  /** `updateProfile`, corrected: NotFound for a missing id, otherwise the
      caller's names change and nothing else, so no one raises their own role. */
  method UpdateProfile(db: Store, id: Id, p: ProfilePatch) returns (r: Result<PublicUser>)
    requires db.Valid()
    modifies db`users
    ensures db.Valid()
    ensures id !in old(db.users) ==> r == Failure(NotFound(UserEntity)) && unchanged(db)
    ensures id in old(db.users) ==>
      && db.users == old(db.users)[id := ProfileUpdated(old(db.users)[id], p)]
      && db.users[id].role == old(db.users)[id].role
      && r == Success(Public(db.users[id]))
  {
    if id !in db.users {
      return Failure(NotFound(UserEntity));
    }
    var u := ProfileUpdated(db.users[id], p);
    UsersValidRewrite(db.users, db.nextId, u);
    db.users := db.users[id := u];
    r := Success(Public(u));
  }
}
