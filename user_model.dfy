// The user model (src/models/user.js): field validators, the document built
// by `new User(body)`, the pre-save password hashing, `toJSON`,
// `generateAuthToken`, `findByCredentials` and the pre-remove driver cascade.

module UserModel {
  import opened Values
  import opened Schema
  import opened Collection
  import opened Store

  /** The one message `findByCredentials` throws, whichever check failed. */
  const LoginFailed: string := "Não foi possível realizar o login"

  /** The word a password may not contain, in any letter case. */
  const ForbiddenWord: string := "senha"

  /** The minimum password length the schema means by `minlenght: 7`. */
  const PasswordMinLength: nat := 7

  // ---------------------------------------------------------------- validators

  function LowerChar(c: char): char {
    if 'A' <= c <= 'Z' then (c as int + 32) as char else c
  }

  /** `toLowerCase()`, for the letters that can spell the forbidden word. */
  function Lower(s: string): (r: string)
    ensures |r| == |s|
    ensures forall i :: 0 <= i < |s| ==> r[i] == LowerChar(s[i])
  {
    if s == [] then [] else [LowerChar(s[0])] + Lower(s[1..])
  }

  /** `sub` occurs in `s` starting at index `i`. */
  predicate OccursAt(s: string, sub: string, i: nat) {
    i + |sub| <= |s| && s[i..i + |sub|] == sub
  }

  /** `s.includes(sub)`. */
  predicate Includes(s: string, sub: string) {
    exists i: nat :: i <= |s| && OccursAt(s, sub, i)
  }

  /** The password `validate` as written: only the forbidden word is checked. */
  predicate PasswordAcceptedAsWritten(p: string) {
    !Includes(Lower(p), ForbiddenWord)
  }

  /** The password validators as intended: the forbidden word and a length of at least seven. */
  predicate PasswordAccepted(p: string) {
    |p| >= PasswordMinLength && PasswordAcceptedAsWritten(p)
  }

  /** Lower-casing commutes with taking a slice. */
  lemma {:induction false} LowerSlice(s: string, i: nat, j: nat)
    requires i <= j <= |s|
    ensures Lower(s)[i..j] == Lower(s[i..j])
  {
    var a, b := Lower(s)[i..j], Lower(s[i..j]);
    assert |a| == |b|;
    forall k | 0 <= k < |a|
      ensures a[k] == b[k]
    {
      assert a[k] == LowerChar(s[i + k]);
    }
  }

  /** A password holding the forbidden word in any letter case fails validation. */
  lemma {:induction false} ForbiddenWordRejected(p: string, i: nat)
    requires i + |ForbiddenWord| <= |p|
    requires Lower(p[i..i + |ForbiddenWord|]) == ForbiddenWord
    ensures !PasswordAcceptedAsWritten(p) && !PasswordAccepted(p)
  {
    LowerSlice(p, i, i + |ForbiddenWord|);
    assert OccursAt(Lower(p), ForbiddenWord, i);
  }

  /** The five characters of `p` from index `i` lower-case to the forbidden word. */
  predicate ForbiddenAt(p: string, i: nat) {
    i + |ForbiddenWord| <= |p| && Lower(p[i..i + |ForbiddenWord|]) == ForbiddenWord
  }

  /**
   * The corrected password rule in full: at least seven characters, and no
   * window of five characters lower-cases to the forbidden word.
   */
  lemma {:induction false} PasswordRule(p: string)
    ensures PasswordAccepted(p) <==>
              |p| >= PasswordMinLength && forall i: nat :: !ForbiddenAt(p, i)
  {
    if PasswordAccepted(p) {
      forall i: nat
        ensures !ForbiddenAt(p, i)
      {
        if ForbiddenAt(p, i) {
          ForbiddenWordRejected(p, i);
        }
      }
    }
    if Includes(Lower(p), ForbiddenWord) {
      var i: nat :| i <= |Lower(p)| && OccursAt(Lower(p), ForbiddenWord, i);
      LowerSlice(p, i, i + |ForbiddenWord|);
      assert ForbiddenAt(p, i);
    }
  }

  lemma MixedCaseWordRejected()
    ensures !PasswordAccepted("MinhaSenha1")
  {
    var p := "MinhaSenha1";
    assert p[5..10] == "Senha";
    assert Lower("Senha") == "senha" by {
      assert Lower("Senha")[0] == LowerChar('S');
    }
    ForbiddenWordRejected(p, 5);
  }

  /** Any password passes the length rule as written: `minlenght` is not a Mongoose option. */
  lemma AsWrittenAcceptsShortPassword()
    ensures PasswordAcceptedAsWritten("abc")
    ensures !PasswordAccepted("abc")
  {
    assert Lower("abc") == "abc";
  }

  predicate HasRequired(doc: Record) {
    forall path :: path in UserRequiredPaths ==> Present(doc, path)
  }

  /** `isModified(path)`: the path was set to a value other than the stored one. */
  predicate Modified(stored: Record, doc: Record, path: string) {
    path in doc && (path !in stored || stored[path] != doc[path])
  }

  /**
   * Schema validation before a save, as written: required paths, and the
   * validators of the modified paths.  No length is checked (`minlenght`).
   */
  predicate Validates(crypto: Crypto, stored: Record, doc: Record) {
    && HasRequired(doc)
    && (Modified(stored, doc, "password") ==>
          doc["password"].Str? && PasswordAcceptedAsWritten(doc["password"].s))
    && (Modified(stored, doc, "email") ==>
          doc["email"].Str? && crypto.isEmail(doc["email"].s))
  }

  /** As written, a new user whose password is `abc` passes validation and is saved. */
  lemma AsWrittenSavesShortPassword(crypto: Crypto, doc: Record)
    requires HasRequired(doc) && doc["password"] == Str("abc")
    requires "email" in doc && doc["email"].Str? && crypto.isEmail(doc["email"].s)
    ensures Validates(crypto, map[], doc)
    ensures !PasswordAccepted(doc["password"].s)
  {
    AsWrittenAcceptsShortPassword();
  }

  // ------------------------------------------------------------ new User(body)

  /** `new User(body)`: the schema paths of the body, with `administrator` defaulting to false. */
  function NewUserRecord(body: Body): (r: Record)
    ensures r.Keys == (body.Keys * UserPaths) + {"administrator"}
    ensures forall k :: k in body && k in UserPaths ==> r[k] == body[k]
    ensures "administrator" !in body ==> r["administrator"] == Bool(false)
  {
    var kept := map k | k in body && k in UserPaths :: body[k];
    if "administrator" in kept then kept else kept["administrator" := Bool(false)]
  }

  // ------------------------------------------------------------------- saving

  /** The password a save stores: its hash when the path was modified, the stored value otherwise. */
  function Hashed(crypto: Crypto, stored: Record, doc: Record): (r: Record)
    requires Modified(stored, doc, "password") ==> doc["password"].Str?
    ensures r.Keys == doc.Keys
    ensures forall k :: k in doc && k != "password" ==> r[k] == doc[k]
    ensures Modified(stored, doc, "password") ==> r["password"] == Str(crypto.hash(doc["password"].s))
    ensures !Modified(stored, doc, "password") ==> r == doc
  {
    if Modified(stored, doc, "password") then doc["password" := Str(crypto.hash(doc["password"].s))]
    else doc
  }

  /** The pre('save') hook: overwrite the password by its hash if `isModified('password')`. */
  method PreSave(crypto: Crypto, stored: Record, doc: Record) returns (user: Record)
    requires Modified(stored, doc, "password") ==> doc["password"].Str?
    ensures user == Hashed(crypto, stored, doc)
  {
    user := doc;
    if Modified(stored, doc, "password") {
      user := user["password" := Str(crypto.hash(doc["password"].s))];
    }
  }

  /** `user.save()`: validate, then run the pre-save hook; `None` is a ValidationError. */
  method SaveUser(crypto: Crypto, stored: Record, doc: Record) returns (r: Option<Record>)
    requires "password" in stored ==> stored["password"].Str?
    ensures r.None? <==> !Validates(crypto, stored, doc)
    ensures r.Some? ==> r.value == Hashed(crypto, stored, doc)
    ensures r.Some? ==> "password" in r.value && r.value["password"].Str?
  {
    if !Validates(crypto, stored, doc) {
      return None;
    }
    assert Present(doc, "password");
    var saved := PreSave(crypto, stored, doc);
    r := Some(saved);
  }

  // ------------------------------------------------------------------- toJSON

  /** The `tokens` array as stored: one `{ token }` subdocument per token. */
  function TokenEntries(tokens: seq<string>): (r: seq<Value>)
    ensures |r| == |tokens|
    ensures forall i :: 0 <= i < |tokens| ==> r[i] == Obj(map["token" := Str(tokens[i])])
  {
    seq(|tokens|, i requires 0 <= i < |tokens| => Obj(map["token" := Str(tokens[i])]))
  }

  /** `user.toObject()`: every stored path, the token array and `_id`. */
  function ToObject(d: Doc<User>): Record {
    d.body.fields["tokens" := List(TokenEntries(d.body.tokens))]["_id" := Ref(d.id)]
  }

  /** What `res.send(user)` puts on the wire: the stored object without `password` and `tokens`. */
  function Public(d: Doc<User>): (r: Record)
    ensures "password" !in r && "tokens" !in r
    ensures "_id" in r && r["_id"] == Ref(d.id)
    ensures forall k :: k in d.body.fields && k !in {"password", "tokens", "_id"} ==>
              k in r && r[k] == d.body.fields[k]
    ensures forall k :: k in r ==> k == "_id" || k in d.body.fields
  {
    ToObject(d) - {"password", "tokens"}
  }

  /** `toJSON`: copy the object, then delete `password` and `tokens` from the copy. */
  method ToJson(d: Doc<User>) returns (userObject: Record)
    ensures userObject == Public(d)
  {
    userObject := ToObject(d);
    userObject := userObject - {"password"};
    userObject := userObject - {"tokens"};
  }

  // ------------------------------------------------------- findByCredentials

  function HasEmail(email: string): Doc<User> -> bool {
    (d: Doc<User>) => "email" in d.body.fields && d.body.fields["email"] == Str(email)
  }

  function PasswordHash(u: User): string
    requires HasPasswordHash(u)
  {
    u.fields["password"].s
  }

  /** `findByCredentials`: the first user with the e-mail, if the password matches its hash. */
  function FindByCredentials(crypto: Crypto, users: seq<Doc<User>>, email: string, password: string)
    : (r: Result<Doc<User>, string>)
    requires forall d :: d in users ==> HasPasswordHash(d.body)
    ensures r.Failure? ==> r.error == LoginFailed
    ensures r.Success? ==> r.value in users && HasEmail(email)(r.value)
    ensures r.Success? ==> crypto.compare(password, PasswordHash(r.value.body))
    ensures r.Success? ==> exists i :: 0 <= i < |users| && users[i] == r.value &&
                             forall j :: 0 <= j < i ==> !HasEmail(email)(users[j])
    ensures (forall d :: d in users ==> !HasEmail(email)(d)) ==> r.Failure?
    ensures forall i :: 0 <= i < |users| && HasEmail(email)(users[i]) &&
                        (forall j :: 0 <= j < i ==> !HasEmail(email)(users[j])) &&
                        crypto.compare(password, PasswordHash(users[i].body)) ==>
                        r == Success(users[i])
  {
    match FirstIndex(users, HasEmail(email))
    case None => Failure(LoginFailed)
    case Some(i) =>
      if crypto.compare(password, PasswordHash(users[i].body)) then Success(users[i])
      else Failure(LoginFailed)
  }

  /** An unknown e-mail and a wrong password are told apart by nothing. */
  lemma {:induction false} LoginFailureIsUniform(
    crypto: Crypto, users: seq<Doc<User>>, email: string, password: string)
    requires forall d :: d in users ==> HasPasswordHash(d.body)
    requires (forall d :: d in users ==> !HasEmail(email)(d)) ||
             (exists i :: 0 <= i < |users| && HasEmail(email)(users[i]) &&
                (forall j :: 0 <= j < i ==> !HasEmail(email)(users[j])) &&
                !crypto.compare(password, PasswordHash(users[i].body)))
    ensures FindByCredentials(crypto, users, email, password) == Failure(LoginFailed)
  {
    var r := FindByCredentials(crypto, users, email, password);
    var first := FirstIndex(users, HasEmail(email));
    if first.Some? {
      var i := first.value;
      assert users[i] in users;
      if exists k :: 0 <= k < |users| && HasEmail(email)(users[k]) &&
                     (forall j :: 0 <= j < k ==> !HasEmail(email)(users[j])) &&
                     !crypto.compare(password, PasswordHash(users[k].body)) {
        var k :| 0 <= k < |users| && HasEmail(email)(users[k]) &&
                 (forall j :: 0 <= j < k ==> !HasEmail(email)(users[j])) &&
                 !crypto.compare(password, PasswordHash(users[k].body));
        assert !(k < i) && !(i < k);
      }
    }
  }

  /** With a sound bcrypt, the first user with the e-mail logs in with the password it was hashed from. */
  lemma CorrectPasswordLogsIn(
    crypto: Crypto, users: seq<Doc<User>>, email: string, password: string, i: nat)
    requires Sound(crypto)
    requires forall d :: d in users ==> HasPasswordHash(d.body)
    requires i < |users| && HasEmail(email)(users[i])
    requires forall j :: 0 <= j < i ==> !HasEmail(email)(users[j])
    requires HasPasswordHash(users[i].body) && PasswordHash(users[i].body) == crypto.hash(password)
    ensures FindByCredentials(crypto, users, email, password) == Success(users[i])
  {
    var first := FirstIndex(users, HasEmail(email));
    assert first.Some? && !(first.value < i) && !(i < first.value);
  }

  // ------------------------------------------------------- generateAuthToken

  /** The user with one more token at the end of its list. */
  function WithToken(u: User, token: string): (r: User)
    ensures r.fields == u.fields
    ensures |r.tokens| == |u.tokens| + 1 && r.tokens[|u.tokens|] == token
    ensures r.tokens[..|u.tokens|] == u.tokens
  {
    u.(tokens := u.tokens + [token])
  }

  /** `generateAuthToken` at second `now`: sign the user's id, append the token to its list, save, return it. */
  method GenerateAuthToken(db: Database, i: nat, now: int) returns (token: string)
    requires db.Valid() && i < |db.users|
    modifies db`users
    ensures db.Valid()
    ensures token == db.crypto.sign(old(db.users[i].id), now)
    ensures db.users == Replace(old(db.users), i, WithToken(old(db.users[i].body), token))
  {
    token := db.crypto.sign(db.users[i].id, now);
    ReplaceKeepsUniqueIds(db.users, i, WithToken(db.users[i].body, token));
    db.users := Replace(db.users, i, WithToken(db.users[i].body, token));
  }

  // ----------------------------------------------------------- pre('remove')

  /** The pre('remove') hook: `Driver.deleteOne({ user: user._id })`. */
  method RemoveDriverOf(db: Database, uid: Id)
    requires db.Valid()
    modifies db`drivers
    ensures db.Valid()
    ensures db.drivers == DeleteOne(old(db.drivers), DriverOfUser(uid))
  {
    DeleteOneKeepsUniqueIds(db.drivers, DriverOfUser(uid));
    db.drivers := DeleteOne(db.drivers, DriverOfUser(uid));
  }

  /** When a user has at most one driver, no driver refers to it after the cascade. */
  lemma CascadeLeavesNoDriver(drivers: seq<Doc<Record>>, uid: Id)
    requires AtMostOne(drivers, DriverOfUser(uid))
    ensures forall d :: d in DeleteOne(drivers, DriverOfUser(uid)) ==> DriverUser(d.body) != Some(uid)
  {
    DeleteOneLeavesNone(drivers, DriverOfUser(uid));
    var r := DeleteOne(drivers, DriverOfUser(uid));
    forall d | d in r
      ensures DriverUser(d.body) != Some(uid)
    {
      var k :| 0 <= k < |r| && r[k] == d;
      assert !DriverOfUser(uid)(r[k]);
    }
  }
}
