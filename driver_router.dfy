// The driver routes (src/controllers/routers/driver.js): reading a driver by
// its id or by its user, the region-only PATCH, and deletion.

module DriverRouter {
  import opened Values
  import opened Schema
  import opened Collection
  import opened Store
  import opened UpdatePolicy
  import opened UserRouter

  /** The one path a driver PATCH may carry. */
  const AllowedUpdates: seq<string> := ["region"]

  predicate IsValidOperation(updates: set<string>) {
    Permits(AllowedUpdates, updates)
  }

  lemma PatchPolicy(updates: set<string>)
    ensures IsValidOperation(updates) <==> updates <= {"region"}
  {
  }

  /** An accepted driver PATCH never touches the driver's `user` reference. */
  lemma PatchKeepsUser(driver: Record, body: Body)
    requires IsValidOperation(body.Keys)
    ensures "user" in Applied(driver, body) <==> "user" in driver
    ensures "user" in driver ==> Applied(driver, body)["user"] == driver["user"]
    ensures forall k :: k in driver && k != "region" ==> Applied(driver, body)[k] == driver[k]
  {
    PatchPolicy(body.Keys);
  }

  /** `populate('user', 'name')`: the reference becomes the user's id and name, or null when it dangles. */
  function Populated(driver: Record, users: seq<Doc<User>>): (r: Record)
    ensures r.Keys == driver.Keys
    ensures forall k :: k in driver && k != "user" ==> r[k] == driver[k]
    ensures DriverUser(driver).None? ==> r == driver
    ensures DriverUser(driver).Some? && Find(users, DriverUser(driver).value).Some? ==>
              r["user"] == Obj(NameView(Find(users, DriverUser(driver).value).value))
    ensures DriverUser(driver).Some? && Find(users, DriverUser(driver).value).None? ==> r["user"] == Null
  {
    match DriverUser(driver)
    case None => driver
    case Some(uid) =>
      match Find(users, uid)
      case None => driver["user" := Null]
      case Some(u) => driver["user" := Obj(NameView(u))]
  }

  /** GET /drivers/:id (admins only). */
  method GetDriver(db: Database, id: Id) returns (reply: Reply<Doc<Record>>)
    ensures Find(db.drivers, id).None? ==> reply == NotFound
    ensures Find(db.drivers, id).Some? ==>
              reply == Ok(Doc(id, Populated(Find(db.drivers, id).value.body, db.users)))
  {
    var found := Find(db.drivers, id);
    if found.None? {
      return NotFound;
    }
    reply := Ok(Doc(id, Populated(found.value.body, db.users)));
  }

  /** The user whose driver GET /drivers/user/:userId looks up: the path's for an admin, the caller's own otherwise. */
  function TargetUser(caller: Caller, userId: Id): (r: Id)
    ensures caller.administrator ==> r == userId
    ensures !caller.administrator ==> r == caller.id
  {
    if caller.administrator then userId else caller.id
  }

  /** GET /drivers/user/:userId: the first driver of the target user, or 404. */
  method GetDriverByUser(db: Database, caller: Caller, userId: Id) returns (reply: Reply<Doc<Record>>)
    ensures FirstIndex(db.drivers, DriverOfUser(TargetUser(caller, userId))).None? ==> reply == NotFound
    ensures FirstIndex(db.drivers, DriverOfUser(TargetUser(caller, userId))).Some? ==>
              var d := db.drivers[FirstIndex(db.drivers, DriverOfUser(TargetUser(caller, userId))).value];
              reply == Ok(Doc(d.id, Populated(d.body, db.users)))
    ensures reply.Ok? && !caller.administrator ==>
              exists d :: d in db.drivers && d.id == reply.value.id && DriverUser(d.body) == Some(caller.id)
  {
    var target := TargetUser(caller, userId);
    var found := FirstIndex(db.drivers, DriverOfUser(target));
    if found.None? {
      return NotFound;
    }
    var d := db.drivers[found.value];
    reply := Ok(Doc(d.id, Populated(d.body, db.users)));
  }

  /** A non-admin always reaches their own driver, whatever user id the path names. */
  lemma NonAdminPathIgnored(caller: Caller, a: Id, b: Id, drivers: seq<Doc<Record>>)
    requires !caller.administrator
    ensures FirstIndex(drivers, DriverOfUser(TargetUser(caller, a))) ==
            FirstIndex(drivers, DriverOfUser(TargetUser(caller, b)))
  {
  }

  /** PATCH /drivers/:id (admins only). */
  method PatchDriver(db: Database, id: Id, body: Body) returns (reply: Reply<Doc<Record>>)
    requires db.Valid()
    modifies db`drivers
    ensures db.Valid()
    ensures !IsValidOperation(body.Keys) ==> reply == BadRequest && db.drivers == old(db.drivers)
    ensures IsValidOperation(body.Keys) && Find(old(db.drivers), id).None? ==>
              reply == NotFound && db.drivers == old(db.drivers)
    ensures IsValidOperation(body.Keys) && FirstIndex(old(db.drivers), HasId(id)).Some? ==>
              var i := FirstIndex(old(db.drivers), HasId(id)).value;
              && db.drivers == Replace(old(db.drivers), i, Applied(old(db.drivers)[i].body, body))
              && reply == Ok(Doc(id, Applied(old(db.drivers)[i].body, body)))
  {
    if !IsValidOperation(body.Keys) {
      return BadRequest;
    }
    var found := FirstIndex(db.drivers, HasId(id));
    if found.None? {
      return NotFound;
    }
    var i := found.value;
    var driver := ApplyUpdates(db.drivers[i].body, body);
    ReplaceKeepsUniqueIds(db.drivers, i, driver);
    db.drivers := Replace(db.drivers, i, driver);
    reply := Ok(Doc(id, driver));
  }

  /** DELETE /drivers/:id (admins only): `findOneAndDelete`. */
  method DeleteDriver(db: Database, id: Id) returns (reply: Reply<Doc<Record>>)
    requires db.Valid()
    modifies db`drivers
    ensures db.Valid()
    ensures Find(old(db.drivers), id).None? ==> reply == NotFound && db.drivers == old(db.drivers)
    ensures Find(old(db.drivers), id).Some? ==>
              && reply == Ok(Find(old(db.drivers), id).value)
              && db.drivers == DeleteOne(old(db.drivers), HasId(id))
              && Find(db.drivers, id).None?
  {
    var found := Find(db.drivers, id);
    if found.None? {
      return NotFound;
    }
    DeleteOneKeepsUniqueIds(db.drivers, HasId(id));
    DeleteIdLeavesNone(db.drivers, id);
    db.drivers := DeleteOne(db.drivers, HasId(id));
    reply := Ok(found.value);
  }
}
