/** The account handlers of the server entry point (server/server.js):
    `POST /auth/register` adds a user keyed by e-mail with a hashed
    password, and `POST /auth/login` checks the password and hands back the
    user's id as the token. */
module Server {
  import opened Wrappers
  import opened Strings
  import UserModel

  const AlreadyExists := "User already exists"
  const Registered := "User registered successfully"
  const InvalidCredentials := "Invalid credentials"
  const LoggedIn := "Login successful"
  const ServerError := "Server error"

  /** The user object of a login answer: the stored fields except the
      password and the timestamps. */
  datatype LoginUser = LoginUser(
    id: string,
    name: string,
    email: string,
    image: string,
    city: Option<string>,
    phone: Option<string>,
    favoriteGenres: Option<string>,
    preferredLanguage: Option<string>,
    gender: Option<string>,
    about: Option<string>,
    role: string)

  function LoginView(u: UserModel.User): (v: LoginUser)
    ensures v.id == u.id && v.email == u.email && v.role == u.role && v.name == u.name && v.image == u.image
    ensures v.city == u.city && v.phone == u.phone && v.favoriteGenres == u.favoriteGenres
    ensures v.preferredLanguage == u.preferredLanguage && v.gender == u.gender && v.about == u.about
  {
    LoginUser(u.id, u.name, u.email, u.image, u.city, u.phone, u.favoriteGenres,
              u.preferredLanguage, u.gender, u.about, u.role)
  }

  /** The answer of either handler: status, message, and for a login the
      token and the user. */
  datatype AccountReply = AccountReply(status: int, message: string, token: Option<string>, user: Option<LoginUser>)

  function Plain(status: int, message: string): AccountReply {
    AccountReply(status, message, None, None)
  }

  /** The document `new User({...})` builds for a registration. */
  function NewUserFields(name: Option<string>, email: string, password: string): (f: UserModel.UserFields)
    ensures f.id == Some(email) && f.email == Some(email)
    ensures f.password == Some(UserModel.Hash(password))
    ensures forall now :: UserModel.Create(f, now).Valid? <==> Truthy(name) && email != ""
    ensures forall now :: UserModel.Create(f, now).Valid? ==> UserModel.Create(f, now).user.role == UserModel.DefaultRole
  {
    UserModel.UserFields(
      Some(email), name, Some(email), Some(UserModel.DefaultImage),
      None, None, None, None, None, None,
      Some(UserModel.Hash(password)), Some(UserModel.DefaultRole))
  }

  /** The outcome of a registration: the store afterwards and the answer.
      `dbThrows` stands for `findOne` or `save` failing, which leaves the
      store as it was. The e-mail lookup is by key: under the store's
      invariant a user's key is its e-mail. */
  function RegisterResult(users: map<string, UserModel.User>, name: Option<string>, email: string, password: string, now: int, dbThrows: bool)
    : (r: (map<string, UserModel.User>, AccountReply))
    ensures r.1.status == 200 <==> !dbThrows && email !in users && Truthy(name) && email != ""
    ensures r.1.status != 200 ==> r.0 == users
    ensures !dbThrows && email in users ==> r.1 == Plain(400, AlreadyExists)
    ensures r.1.status == 200 ==> r.1 == Plain(200, Registered) && r.0.Keys == users.Keys + {email}
    ensures r.1.status == 200 ==> forall k :: k in users ==> r.0[k] == users[k]
  {
    if dbThrows then (users, Plain(500, ServerError))
    else if email in users then (users, Plain(400, AlreadyExists))
    else
      match UserModel.Create(NewUserFields(name, email, password), now)
      case Invalid => (users, Plain(500, ServerError))
      case Valid(u) => (users[email := u], Plain(200, Registered))
  }

  /** The answer of a login. `dbThrows` stands for the lookup failing. */
  function LoginResult(users: map<string, UserModel.User>, email: string, password: string, dbThrows: bool): (r: AccountReply)
    ensures dbThrows ==> r == Plain(500, ServerError)
    ensures r.status == 200 <==> !dbThrows && email in users && UserModel.Compare(password, users[email].password)
    ensures r.status == 200 ==> r.message == LoggedIn && r.token == Some(users[email].id) && r.user == Some(LoginView(users[email]))
    ensures !dbThrows && r.status != 200 ==> r == Plain(400, InvalidCredentials)
  {
    if dbThrows then Plain(500, ServerError)
    else if email !in users then Plain(400, InvalidCredentials)
    else
      var user := users[email];
      if !UserModel.Compare(password, user.password) then Plain(400, InvalidCredentials)
      else AccountReply(200, LoggedIn, Some(user.id), Some(LoginView(user)))
  }

  /** `POST /auth/register`. */
  method Register(db: UserModel.UserCollection, name: Option<string>, email: string, password: string, now: int, dbThrows: bool)
    returns (reply: AccountReply)
    requires db.Valid()
    modifies db
    ensures db.Valid()
    ensures (db.users, reply) == RegisterResult(old(db.users), name, email, password, now, dbThrows)
  {
    if dbThrows {
      return Plain(500, ServerError);
    }
    if email in db.users {
      return Plain(400, AlreadyExists);
    }
    var created := UserModel.Create(NewUserFields(name, email, password), now);
    if created.Invalid? {
      return Plain(500, ServerError);
    }
    db.users := db.users[email := created.user];
    reply := Plain(200, Registered);
  }

  /** `POST /auth/login`: a lookup and a password check; nothing changes. */
  method Login(db: UserModel.UserCollection, email: string, password: string, dbThrows: bool) returns (reply: AccountReply)
    requires db.Valid()
    ensures reply == LoginResult(db.users, email, password, dbThrows)
  {
    if dbThrows {
      return Plain(500, ServerError);
    }
    if email !in db.users {
      return Plain(400, InvalidCredentials);
    }
    var user := db.users[email];
    var valid := UserModel.Compare(password, user.password);
    if !valid {
      return Plain(400, InvalidCredentials);
    }
    reply := AccountReply(200, LoggedIn, Some(user.id), Some(LoginView(user)));
  }

  // -----------------------------------------------------------------------
  // Properties

  /** A registration keeps the store's invariant; the new user is filed
      under the e-mail, has the e-mail as `_id`, the default image and
      role, and a stored password that is the hash of the given one. */
  lemma RegisterCreatesUser(users: map<string, UserModel.User>, name: Option<string>, email: string, password: string, now: int, dbThrows: bool)
    requires UserModel.StoreInvariant(users)
    ensures var (after, reply) := RegisterResult(users, name, email, password, now, dbThrows);
            && UserModel.StoreInvariant(after)
            && (reply.status == 200 ==>
                  && after[email].id == email && after[email].email == email
                  && after[email].name == name.value
                  && after[email].image == UserModel.DefaultImage && after[email].role == UserModel.DefaultRole
                  && after[email].password == UserModel.Hash(password)
                  && after[email].createdAt == now)
  {
  }

  /** After a successful registration, logging in with the same e-mail and
      password succeeds and returns the e-mail as the token; any other
      password is refused. */
  lemma RegisterThenLogin(users: map<string, UserModel.User>, name: Option<string>, email: string, password: string, other: string, now: int)
    requires RegisterResult(users, name, email, password, now, false).1.status == 200
    ensures var after := RegisterResult(users, name, email, password, now, false).0;
            && LoginResult(after, email, password, false).status == 200
            && LoginResult(after, email, password, false).token == Some(email)
            && (other != password ==> LoginResult(after, email, other, false) == Plain(400, InvalidCredentials))
  {
  }

  /** An unknown e-mail and a wrong password get the very same answer. */
  lemma FailedLoginsLookAlike(users: map<string, UserModel.User>, unknown: string, known: string, wrong: string)
    requires unknown !in users && known in users && !UserModel.Compare(wrong, users[known].password)
    ensures LoginResult(users, unknown, wrong, false) == LoginResult(users, known, wrong, false)
  {
  }

  /** Registering an e-mail that is taken leaves the store and, in
      particular, the existing user's password as they were. */
  lemma DuplicateRegistrationIsRefused(users: map<string, UserModel.User>, name: Option<string>, email: string, password: string, now: int)
    requires email in users
    ensures RegisterResult(users, name, email, password, now, false) == (users, Plain(400, AlreadyExists))
  {
  }

  /** Under the store's invariant the login token is the e-mail. */
  lemma LoginTokenIsEmail(users: map<string, UserModel.User>, email: string, password: string)
    requires UserModel.StoreInvariant(users)
    requires LoginResult(users, email, password, false).status == 200
    ensures LoginResult(users, email, password, false).token == Some(email)
    ensures LoginResult(users, email, password, false).user.value.email == email
  {
  }
}
