// The user routes (src/controllers/routers/user.js): listing, reading,
// creating and patching users, logging in and out, and deleting a user both
// as written (without the driver cascade) and as intended (with it).

module UserRouter {
  import opened Values
  import opened Schema
  import opened Collection
  import opened Store
  import opened UpdatePolicy
  import opened UserModel

  const AdminUpdates: seq<string> :=
    ["name", "cpf", "birthday", "phone", "cnh", "address", "email", "password", "administrator"]
  const DriverUpdates: seq<string> := ["phone", "cnh", "address", "password"]

  predicate IsValidOperation(administrator: bool, updates: set<string>) {
    Permits(AllowedFor(administrator, AdminUpdates, DriverUpdates), updates)
  }

  /** The user PATCH policy; in particular a non-admin can never set `administrator` (or `email`, `name`, `cpf`). */
  lemma PatchPolicy(administrator: bool, updates: set<string>)
    ensures administrator ==> (IsValidOperation(administrator, updates) <==> updates <= UserPaths)
    ensures !administrator ==>
              (IsValidOperation(administrator, updates) <==> updates <= {"phone", "cnh", "address", "password"})
    ensures !administrator && IsValidOperation(administrator, updates) ==>
              "administrator" !in updates && "email" !in updates
  {
  }

  // ----------------------------------------------------------------- listing

  /** `select('name')`: the id and, when the user has one, the name. */
  function NameView(d: Doc<User>): (r: Record)
    ensures r.Keys <= {"_id", "name"} && "_id" in r && r["_id"] == Ref(d.id)
    ensures "name" in r <==> "name" in d.body.fields
    ensures "name" in r ==> r["name"] == d.body.fields["name"]
  {
    var idOnly := map["_id" := Ref(d.id)];
    if "name" in d.body.fields then idOnly["name" := d.body.fields["name"]] else idOnly
  }

  function IsDriverUser(d: Doc<User>): bool {
    AdministratorIs(d.body, false)
  }

  /** The `{ administrator: false }` query, in collection order. */
  function DriverUsers(users: seq<Doc<User>>): (r: seq<Doc<User>>)
    ensures forall d :: d in r <==> d in users && AdministratorIs(d.body, false)
    ensures Subsequence(r, users)
  {
    var r := Filter(users, IsDriverUser);
    assert forall d :: d in r <==> multiset(r)[d] > 0;
    assert forall d :: d in users <==> multiset(users)[d] > 0;
    r
  }

  /** GET /users: with `drivers=true` the id and name of every non-admin, otherwise every user through `toJSON`. */
  method ListUsers(db: Database, drivers: Option<string>) returns (reply: Reply<seq<Record>>)
    ensures drivers == Some("true") ==>
              var listed := DriverUsers(db.users);
              reply.Ok? && |reply.value| == |listed| &&
              forall i :: 0 <= i < |listed| ==> reply.value[i] == NameView(listed[i])
    ensures drivers != Some("true") ==>
              reply.Ok? && |reply.value| == |db.users| &&
              forall i :: 0 <= i < |db.users| ==> reply.value[i] == Public(db.users[i])
  {
    if drivers == Some("true") {
      var listed := DriverUsers(db.users);
      reply := Ok(seq(|listed|, i requires 0 <= i < |listed| => NameView(listed[i])));
    } else {
      var users := db.users;
      reply := Ok(seq(|users|, i requires 0 <= i < |users| => Public(users[i])));
    }
  }

  // ----------------------------------------------------------------- reading

  /**
   * GET /users/:id.  A non-admin is sent their own document whatever the id;
   * an admin gets the user with that id, or 404.
   */
  method GetUser(db: Database, me: Doc<User>, caller: Caller, id: Id) returns (reply: Reply<Record>)
    requires caller.id == me.id
    ensures !caller.administrator ==> reply == Ok(Public(me))
    ensures caller.administrator && Find(db.users, id).None? ==> reply == NotFound
    ensures caller.administrator && Find(db.users, id).Some? ==> reply == Ok(Public(Find(db.users, id).value))
    ensures reply.Ok? ==> "password" !in reply.value && "tokens" !in reply.value
  {
    if !caller.administrator {
      return Ok(Public(me));
    }
    var found := Find(db.users, id);
    if found.None? {
      return NotFound;
    }
    reply := Ok(Public(found.value));
  }

  // ---------------------------------------------------------------- creating

  /**
   * POST /users: build the document, save it (validation, then hashing),
   * then log it in.  `newId` is the fresh ObjectId Mongoose assigns and
   * `now` the second at which the token is issued.
   */
  method CreateUser(db: Database, body: Body, newId: Id, now: int) returns (reply: Reply<(Record, string)>)
    requires db.Valid()
    requires Find(db.users, newId).None?
    modifies db`users
    ensures db.Valid()
    ensures !Validates(db.crypto, map[], NewUserRecord(body)) ==>
              reply == BadRequest && db.users == old(db.users)
    ensures Validates(db.crypto, map[], NewUserRecord(body)) ==>
              var token := db.crypto.sign(newId, now);
              var created := Doc(newId, User(Hashed(db.crypto, map[], NewUserRecord(body)), [token]));
              && db.users == old(db.users) + [created]
              && reply == Created((Public(created), token))
  {
    var doc := NewUserRecord(body);
    var saved := SaveUser(db.crypto, map[], doc);
    if saved.None? {
      return BadRequest;
    }
    var n := |db.users|;
    var added := Doc(newId, User(saved.value, []));
    AppendKeepsUniqueIds(db.users, added);
    var users := db.users + [added];
    assert forall d :: d in users ==> d in db.users || d == added;
    db.users := users;
    var token := GenerateAuthToken(db, n, now);
    assert db.users == old(db.users) + [Doc(newId, User(saved.value, [token]))];
    reply := Created((Public(db.users[n]), token));
  }

  /** A user created without an `administrator` field is not an admin, and never keeps its plain password. */
  lemma CreatedUserDefaults(crypto: Crypto, body: Body)
    requires "administrator" !in body
    requires "password" in body && body["password"].Str? && body["password"] != Str("")
    ensures AdministratorIs(User(Hashed(crypto, map[], NewUserRecord(body)), []), false)
    ensures Hashed(crypto, map[], NewUserRecord(body))["password"] == Str(crypto.hash(body["password"].s))
  {
    assert Modified(map[], NewUserRecord(body), "password");
  }

  // ---------------------------------------------------------------- patching

  /**
   * PATCH /users/:id as written: the allow-list check, the lookup, the
   * assignment, then `save` (whose failure is a 500).  Nothing ties the
   * target `id` to the caller.
   */
  method PatchUserAsWritten(db: Database, caller: Caller, id: Id, body: Body) returns (reply: Reply<Record>)
    requires db.Valid()
    modifies db`users
    ensures db.Valid()
    ensures !IsValidOperation(caller.administrator, body.Keys) ==>
              reply == BadRequest && db.users == old(db.users)
    ensures IsValidOperation(caller.administrator, body.Keys) && Find(old(db.users), id).None? ==>
              reply == NotFound && db.users == old(db.users)
    ensures IsValidOperation(caller.administrator, body.Keys) && FirstIndex(old(db.users), HasId(id)).Some? ==>
              var i := FirstIndex(old(db.users), HasId(id)).value;
              var stored := old(db.users)[i].body;
              var doc := Applied(stored.fields, body);
              && (!Validates(db.crypto, stored.fields, doc) ==>
                    reply == ServerError && db.users == old(db.users))
              && (Validates(db.crypto, stored.fields, doc) ==>
                    var updated := stored.(fields := Hashed(db.crypto, stored.fields, doc));
                    && db.users == Replace(old(db.users), i, updated)
                    && reply == Ok(Public(Doc(id, updated))))
  {
    if !IsValidOperation(caller.administrator, body.Keys) {
      return BadRequest;
    }
    var found := FirstIndex(db.users, HasId(id));
    if found.None? {
      return NotFound;
    }
    var i := found.value;
    var stored := db.users[i].body;
    assert db.users[i] in db.users;
    var doc := ApplyUpdates(stored.fields, body);
    var saved := SaveUser(db.crypto, stored.fields, doc);
    if saved.None? {
      return ServerError;
    }
    var updated := stored.(fields := saved.value);
    ReplaceKeepsUniqueIds(db.users, i, updated);
    db.users := Replace(db.users, i, updated);
    assert forall j :: 0 <= j < |db.users| ==> db.users[j] == old(db.users)[j] || j == i;
    reply := Ok(Public(Doc(id, updated)));
  }

  /**
   * As written, a non-admin may set the password of any other user, an
   * administrator included: the patch is accepted, passes validation, and the
   * stored hash then logs in with the chosen password under that user's e-mail.
   */
  lemma AsWrittenPatchTakesOverUser(
    crypto: Crypto, users: seq<Doc<User>>, caller: Caller, i: nat, email: string, p: string)
    requires Sound(crypto) && !caller.administrator
    requires forall d :: d in users ==> HasPasswordHash(d.body)
    requires i < |users| && users[i].id != caller.id
    requires HasEmail(email)(users[i]) && forall j :: 0 <= j < i ==> !HasEmail(email)(users[j])
    requires HasRequired(users[i].body.fields)
    requires p != "" && PasswordAcceptedAsWritten(p) && users[i].body.fields["password"] != Str(p)
    ensures var body := map["password" := Str(p)];
            var stored := users[i].body;
            var doc := Applied(stored.fields, body);
            var after := Replace(users, i, stored.(fields := Hashed(crypto, stored.fields, doc)));
            && IsValidOperation(caller.administrator, body.Keys)
            && Validates(crypto, stored.fields, doc)
            && (forall d :: d in after ==> HasPasswordHash(d.body))
            && FindByCredentials(crypto, after, email, p) == Success(after[i])
  {
    var body := map["password" := Str(p)];
    var stored := users[i].body;
    var doc := Applied(stored.fields, body);
    var after := Replace(users, i, stored.(fields := Hashed(crypto, stored.fields, doc)));
    PatchPolicy(caller.administrator, body.Keys);
    assert Modified(stored.fields, doc, "password");
    assert forall d :: d in after ==> HasPasswordHash(d.body) by {
      forall d | d in after ensures HasPasswordHash(d.body) {
        var k :| 0 <= k < |after| && after[k] == d;
        if k != i { assert users[k] in users; }
      }
    }
    CorrectPasswordLogsIn(crypto, after, email, p, i);
  }

  /**
   * PATCH /users/:id as intended: a non-admin may patch only their own
   * document and is refused with 403 otherwise; an allowed target is patched
   * as written.
   */
  method PatchUser(db: Database, caller: Caller, id: Id, body: Body) returns (reply: Reply<Record>)
    requires db.Valid()
    modifies db`users
    ensures db.Valid()
    ensures !caller.administrator && id != caller.id ==> reply == Forbidden && db.users == old(db.users)
    ensures (caller.administrator || id == caller.id) && !IsValidOperation(caller.administrator, body.Keys) ==>
              reply == BadRequest && db.users == old(db.users)
    ensures (caller.administrator || id == caller.id) && IsValidOperation(caller.administrator, body.Keys) &&
            Find(old(db.users), id).None? ==>
              reply == NotFound && db.users == old(db.users)
    ensures (caller.administrator || id == caller.id) && IsValidOperation(caller.administrator, body.Keys) &&
            FirstIndex(old(db.users), HasId(id)).Some? ==>
              var i := FirstIndex(old(db.users), HasId(id)).value;
              var stored := old(db.users)[i].body;
              var doc := Applied(stored.fields, body);
              && (!Validates(db.crypto, stored.fields, doc) ==>
                    reply == ServerError && db.users == old(db.users))
              && (Validates(db.crypto, stored.fields, doc) ==>
                    var updated := stored.(fields := Hashed(db.crypto, stored.fields, doc));
                    && db.users == Replace(old(db.users), i, updated)
                    && reply == Ok(Public(Doc(id, updated))))
    ensures |db.users| == |old(db.users)|
    ensures !caller.administrator ==>
              forall j :: 0 <= j < |db.users| && db.users[j].id != caller.id ==> db.users[j] == old(db.users)[j]
  {
    if !caller.administrator && id != caller.id {
      return Forbidden;
    }
    reply := PatchUserAsWritten(db, caller, id, body);
  }

  /** An accepted non-admin patch leaves the stored `administrator` flag and e-mail as they were. */
  lemma DriverPatchKeepsRole(crypto: Crypto, stored: Record, body: Body)
    requires IsValidOperation(false, body.Keys)
    requires Validates(crypto, stored, Applied(stored, body))
    ensures var saved := Hashed(crypto, stored, Applied(stored, body));
            && ("administrator" in stored ==> saved["administrator"] == stored["administrator"])
            && ("email" in stored ==> saved["email"] == stored["email"])
  {
    PatchPolicy(false, body.Keys);
  }

  // ------------------------------------------------------------------ login

  /**
   * POST /users/login at second `now`: `findByCredentials`, then
   * `generateAuthToken`; any failure is a 400 that changes nothing.
   */
  method Login(db: Database, email: string, password: string, now: int) returns (reply: Reply<(Record, string)>)
    requires db.Valid()
    modifies db`users
    ensures db.Valid()
    ensures FindByCredentials(db.crypto, old(db.users), email, password).Failure? ==>
              reply == BadRequest && db.users == old(db.users)
    ensures FindByCredentials(db.crypto, old(db.users), email, password).Success? ==>
              var i := FirstIndex(old(db.users), HasEmail(email)).value;
              var token := db.crypto.sign(old(db.users)[i].id, now);
              && db.users == Replace(old(db.users), i, WithToken(old(db.users)[i].body, token))
              && reply == Ok((Public(db.users[i]), token))
  {
    var outcome := FindByCredentials(db.crypto, db.users, email, password);
    if outcome.Failure? {
      return BadRequest;
    }
    var i := FirstIndex(db.users, HasEmail(email)).value;
    var token := GenerateAuthToken(db, i, now);
    reply := Ok((Public(db.users[i]), token));
  }

  // ----------------------------------------------------------------- logout

  function NotToken(token: string): string -> bool {
    (t: string) => t != token
  }

  /** The token list after `filter(token => token.token !== req.token)`. */
  function Revoked(tokens: seq<string>, token: string): (r: seq<string>)
    ensures token !in r
    ensures forall t :: t != token ==> multiset(r)[t] == multiset(tokens)[t]
    ensures Subsequence(r, tokens)
  {
    var r := Filter(tokens, NotToken(token));
    assert token in r ==> multiset(r)[token] > 0;
    r
  }

  /** Filtering out a token appended last, which was not there before, gives back the old list. */
  lemma {:induction false} FilterDropsLast(tokens: seq<string>, token: string)
    requires token !in tokens
    ensures Filter(tokens + [token], NotToken(token)) == Filter(tokens, NotToken(token))
  {
    if tokens != [] {
      assert (tokens + [token])[1..] == tokens[1..] + [token];
      FilterDropsLast(tokens[1..], token);
    }
  }

  /** Every element passes the filter, so it keeps the whole list. */
  lemma {:induction false} FilterKeepsAll(tokens: seq<string>, token: string)
    requires token !in tokens
    ensures Filter(tokens, NotToken(token)) == tokens
  {
    if tokens != [] {
      assert tokens == [tokens[0]] + tokens[1..];
      FilterKeepsAll(tokens[1..], token);
    }
  }

  /** Logging out of a session opened by login restores the token list from before the login. */
  lemma LogoutUndoesLogin(u: User, token: string)
    requires token !in u.tokens
    ensures Revoked(WithToken(u, token).tokens, token) == u.tokens
  {
    FilterDropsLast(u.tokens, token);
    FilterKeepsAll(u.tokens, token);
  }

  /** POST /users/logout: drop the request's token from the caller's list and save. */
  method Logout(db: Database, caller: Caller, token: string)
    requires db.Valid()
    requires Find(db.users, caller.id).Some?
    modifies db`users
    ensures db.Valid()
    ensures var i := FirstIndex(old(db.users), HasId(caller.id)).value;
            var u := old(db.users)[i].body;
            db.users == Replace(old(db.users), i, u.(tokens := Revoked(u.tokens, token)))
  {
    var i := FirstIndex(db.users, HasId(caller.id)).value;
    var u := db.users[i].body;
    assert db.users[i] in db.users;
    ReplaceKeepsUniqueIds(db.users, i, u.(tokens := Revoked(u.tokens, token)));
    db.users := Replace(db.users, i, u.(tokens := Revoked(u.tokens, token)));
    assert forall j :: 0 <= j < |db.users| ==> db.users[j] == old(db.users)[j] || j == i;
  }

  /** POST /users/logoutAll: empty the caller's token list and save. */
  method LogoutAll(db: Database, caller: Caller)
    requires db.Valid()
    requires Find(db.users, caller.id).Some?
    modifies db`users
    ensures db.Valid()
    ensures var i := FirstIndex(old(db.users), HasId(caller.id)).value;
            db.users == Replace(old(db.users), i, old(db.users)[i].body.(tokens := []))
  {
    var i := FirstIndex(db.users, HasId(caller.id)).value;
    assert db.users[i] in db.users;
    ReplaceKeepsUniqueIds(db.users, i, db.users[i].body.(tokens := []));
    db.users := Replace(db.users, i, db.users[i].body.(tokens := []));
    assert forall j :: 0 <= j < |db.users| ==> db.users[j] == old(db.users)[j] || j == i;
  }

  // ---------------------------------------------------------------- deleting

  /** DELETE /users/:id as written: `findOneAndDelete`, which runs no `remove` hook, so drivers are untouched. */
  method DeleteUserAsWritten(db: Database, id: Id) returns (reply: Reply<Record>)
    requires db.Valid()
    modifies db`users
    ensures db.Valid()
    ensures db.drivers == old(db.drivers)
    ensures Find(old(db.users), id).None? ==> reply == NotFound && db.users == old(db.users)
    ensures Find(old(db.users), id).Some? ==>
              reply == Ok(Public(Find(old(db.users), id).value)) &&
              db.users == DeleteOne(old(db.users), HasId(id))
  {
    var found := Find(db.users, id);
    if found.None? {
      return NotFound;
    }
    DeleteOneKeepsUniqueIds(db.users, HasId(id));
    DeleteOneShrinks(db.users, HasId(id));
    db.users := DeleteOne(db.users, HasId(id));
    reply := Ok(Public(found.value));
  }

  /** A driver whose `user` reference names no stored user. */
  predicate Dangling(d: Doc<Record>, users: seq<Doc<User>>) {
    DriverUser(d.body).Some? && Find(users, DriverUser(d.body).value).None?
  }

  /**
   * Deleting a user as written leaves every driver of that user in place
   * (`DeleteUserAsWritten` keeps `drivers`), pointing at a user that no
   * longer exists.
   */
  lemma AsWrittenDeleteOrphansDriver(users: seq<Doc<User>>, drivers: seq<Doc<Record>>, id: Id, d: Doc<Record>)
    requires UniqueIds(users)
    requires d in drivers && DriverUser(d.body) == Some(id)
    ensures Dangling(d, DeleteOne(users, HasId(id)))
  {
    DeleteIdLeavesNone(users, id);
  }

  /** DELETE /users/:id as intended: `user.remove()`, whose pre('remove') hook deletes the user's driver first. */
  method DeleteUser(db: Database, id: Id) returns (reply: Reply<Record>)
    requires db.Valid()
    modifies db`users, db`drivers
    ensures db.Valid()
    ensures Find(old(db.users), id).None? ==>
              reply == NotFound && db.users == old(db.users) && db.drivers == old(db.drivers)
    ensures Find(old(db.users), id).Some? ==>
              && reply == Ok(Public(Find(old(db.users), id).value))
              && db.users == DeleteOne(old(db.users), HasId(id))
              && db.drivers == DeleteOne(old(db.drivers), DriverOfUser(id))
  {
    var found := Find(db.users, id);
    if found.None? {
      return NotFound;
    }
    RemoveDriverOf(db, id);
    reply := DeleteUserAsWritten(db, id);
  }
}
