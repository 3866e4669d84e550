// The shapes of the four stored entities (src/models/*.js) and the external
// routines the user model calls.  Users, drivers and clinics keep their schema
// fields in a `Record`; a user's session tokens and a pickup's photo, which
// only their own operations touch, are kept beside the record.

module Schema {
  import opened Values

  /**
   * bcrypt, jsonwebtoken and validator, which the model cannot see:
   * `hash` is `bcrypt.hash(p, 8)`, `compare` is `bcrypt.compare(plain, hashed)`,
   * `sign(id, iat)` is `jwt.sign({ _id }, JWT_SECRET)` issued at second `iat`
   * (the `iat` claim jsonwebtoken adds) and `isEmail` is `validator.isEmail`.
   */
  datatype Crypto = Crypto(
    hash: string -> string,
    compare: (string, string) -> bool,
    sign: (Id, int) -> string,
    isEmail: string -> bool)

  /** The one fact assumed of bcrypt: a password matches its own hash. */
  ghost predicate Sound(crypto: Crypto) {
    forall p :: crypto.compare(p, crypto.hash(p))
  }

  /** A user document: its schema fields and its `tokens` array (the `token` of each entry). */
  datatype User = User(fields: Record, tokens: seq<string>)

  /** A pickup document: its schema fields and its `photo` buffer (`select: false`). */
  datatype PickUp = PickUp(fields: Record, photo: Option<Bytes>)

  /** The user schema's paths other than `tokens` (src/models/user.js:8-90). */
  const UserPaths: set<string> :=
    {"name", "cpf", "birthday", "phone", "cnh", "address", "email", "password", "administrator"}

  /** The user paths marked `required: true`. */
  const UserRequiredPaths: set<string> :=
    {"name", "cpf", "birthday", "email", "password", "administrator"}

  /** The clinic schema's paths (src/models/clinic.js). */
  const ClinicPaths: set<string> := {"cnpj", "name", "address", "phone", "contact"}

  /** The pickup paths marked `required: true` (`done` also has a default). */
  const PickUpRequiredPaths: set<string> := {"clinic", "driver", "date", "done"}

  /** A path holds a value `required: true` accepts: present, not null, not the empty string. */
  predicate Present(doc: Record, path: string) {
    path in doc && doc[path] != Null && doc[path] != Str("")
  }

  /** A stored user always holds its password (hash) as a string. */
  predicate HasPasswordHash(u: User) {
    "password" in u.fields && u.fields["password"].Str?
  }

  /** The `administrator` flag as a query `{ administrator: b }` matches it. */
  predicate AdministratorIs(u: User, b: bool) {
    "administrator" in u.fields && u.fields["administrator"] == Bool(b)
  }

  /** A driver's `user` reference, when it holds one. */
  function DriverUser(driver: Record): (r: Option<Id>)
    ensures r.Some? <==> "user" in driver && driver["user"].Ref?
    ensures r.Some? ==> driver["user"] == Ref(r.value)
  {
    if "user" in driver && driver["user"].Ref? then Some(driver["user"].id) else None
  }

  /** The query `{ user: uid }` on drivers. */
  function DriverOfUser(uid: Id): Doc<Record> -> bool {
    (d: Doc<Record>) => DriverUser(d.body) == Some(uid)
  }

  /** A pickup's `driver` reference, when it holds one. */
  function PickUpDriver(p: PickUp): (r: Option<Id>)
    ensures r.Some? <==> "driver" in p.fields && p.fields["driver"].Ref?
    ensures r.Some? ==> p.fields["driver"] == Ref(r.value)
  {
    if "driver" in p.fields && p.fields["driver"].Ref? then Some(p.fields["driver"].id) else None
  }
}
