/** The `User` schema (server/models/User.js): the record, its required
    fields and defaults, its timestamps, and the collection that the
    register, login, auth and profile handlers share. */
module UserModel {
  import opened Wrappers
  import opened Strings

  /** A bcrypt hash. bcrypt is not part of this model: a digest is kept
      symbolically as the secret it was made from, so a stored password is
      never a plain string, and comparing a candidate against a digest
      succeeds exactly for the secret that was hashed. */
  datatype Digest = Bcrypt(secret: string)

  /** `bcrypt.hash(password, 10)`. */
  function Hash(password: string): Digest {
    Bcrypt(password)
  }

  /** `bcrypt.compare(candidate, digest)`. */
  predicate Compare(candidate: string, digest: Digest) {
    digest == Bcrypt(candidate)
  }

  lemma CompareAcceptsOnlyTheHashedSecret(p: string, q: string)
    ensures Compare(p, Hash(p))
    ensures Compare(q, Hash(p)) <==> q == p
  {
  }

  const DefaultImage := "default.jpg"
  const DefaultRole := "user"

  /** A stored user document; `createdAt`/`updatedAt` come from the
      schema's `timestamps` option. */
  datatype User = User(
    id: string,
    name: string,
    email: string,
    image: string,
    city: Option<string>,
    phone: Option<string>,
    favoriteGenres: Option<string>,
    preferredLanguage: Option<string>,
    gender: Option<string>,
    about: Option<string>,
    password: Digest,
    role: string,
    createdAt: int,
    updatedAt: int)

  /** The fields handed to `new User({...})`; a missing one is `None`. */
  datatype UserFields = UserFields(
    id: Option<string>,
    name: Option<string>,
    email: Option<string>,
    image: Option<string>,
    city: Option<string>,
    phone: Option<string>,
    favoriteGenres: Option<string>,
    preferredLanguage: Option<string>,
    gender: Option<string>,
    about: Option<string>,
    password: Option<Digest>,
    role: Option<string>)

  datatype Validated = Valid(user: User) | Invalid

  /** The schema's required string fields hold a non-empty string
      (Mongoose's `required` check rejects the empty string). */
  predicate Wellformed(u: User) {
    u.id != "" && u.name != "" && u.email != ""
  }

  /** Validating a new document: `_id`, `name`, `email` and `password` are
      required; `image` defaults to "default.jpg" and `role` to "user" when
      they are not given; the profile fields stay as given (optional); both
      timestamps are set to the creation time. */
  function Create(f: UserFields, now: int): (r: Validated)
    ensures r.Valid? <==> Truthy(f.id) && Truthy(f.name) && Truthy(f.email) && f.password.Some?
    ensures r.Valid? ==> Wellformed(r.user)
    ensures r.Valid? ==> r.user.image == (if f.image.Some? then f.image.value else DefaultImage)
    ensures r.Valid? ==> r.user.role == (if f.role.Some? then f.role.value else DefaultRole)
    ensures r.Valid? ==> r.user.createdAt == now && r.user.updatedAt == now
    ensures r.Valid? ==>
              && r.user.city == f.city && r.user.phone == f.phone
              && r.user.favoriteGenres == f.favoriteGenres && r.user.preferredLanguage == f.preferredLanguage
              && r.user.gender == f.gender && r.user.about == f.about
  {
    if Truthy(f.id) && Truthy(f.name) && Truthy(f.email) && f.password.Some? then
      Valid(User(
        f.id.value, f.name.value, f.email.value,
        f.image.GetOr(DefaultImage),
        f.city, f.phone, f.favoriteGenres, f.preferredLanguage, f.gender, f.about,
        f.password.value,
        f.role.GetOr(DefaultRole),
        now, now))
    else
      Invalid
  }

  /** A user as `.select('-password')` returns it: every field but the
      password. */
  datatype ProfileView = ProfileView(
    id: string,
    name: string,
    email: string,
    image: string,
    city: Option<string>,
    phone: Option<string>,
    favoriteGenres: Option<string>,
    preferredLanguage: Option<string>,
    gender: Option<string>,
    about: Option<string>,
    role: string,
    createdAt: int,
    updatedAt: int)

  function WithoutPassword(u: User): (v: ProfileView)
    ensures v.id == u.id && v.email == u.email && v.role == u.role && v.name == u.name
    ensures v.image == u.image && v.city == u.city && v.phone == u.phone
    ensures v.favoriteGenres == u.favoriteGenres && v.preferredLanguage == u.preferredLanguage
    ensures v.gender == u.gender && v.about == u.about
    ensures v.createdAt == u.createdAt && v.updatedAt == u.updatedAt
  {
    ProfileView(u.id, u.name, u.email, u.image, u.city, u.phone, u.favoriteGenres,
                u.preferredLanguage, u.gender, u.about, u.role, u.createdAt, u.updatedAt)
  }

  /** The view forgets the password and nothing else: two users have the
      same view exactly when they differ at most in their password. */
  lemma ViewForgetsOnlyPassword(u: User, w: User)
    ensures WithoutPassword(u) == WithoutPassword(w) <==> u.(password := w.password) == w
  {
  }

  /** The invariant of the user collection: every document is filed under
      its non-empty `_id`, and every `_id` is the user's e-mail
      (registration sets it so, and no handler changes either). The `name`
      is only checked on creation: updates run without validators. */
  ghost predicate StoreInvariant(users: map<string, User>) {
    forall k :: k in users ==> users[k].id == k && users[k].email == k && k != ""
  }

  /** Under the invariant the `unique` index on `email` holds. */
  lemma EmailIsUnique(users: map<string, User>, a: string, b: string)
    requires StoreInvariant(users)
    requires a in users && b in users && users[a].email == users[b].email
    ensures a == b
  {
  }

  /** The `users` collection, keyed by `_id`. */
  class UserCollection {
    var users: map<string, User>

    ghost predicate Valid()
      reads this
    {
      StoreInvariant(users)
    }

    constructor ()
      ensures Valid() && users == map[]
    {
      users := map[];
    }
  }
}
