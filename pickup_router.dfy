// The pickup routes (src/controllers/routers/pickUp.js): the driver's own
// listing, reading one pickup, the role-gated PATCH, and the photo upload,
// fetch and removal with multer's limits and file filter.

module PickUpRouter {
  import opened Values
  import opened Schema
  import opened Collection
  import opened Store
  import opened UpdatePolicy

  const AdminUpdates: seq<string> := ["clinic", "driver", "note", "date", "done"]
  const DriverUpdates: seq<string> := ["note", "done"]

  /** The PATCH check: every submitted key is on the caller's allow-list. */
  predicate IsValidOperation(administrator: bool, updates: set<string>) {
    Permits(AllowedFor(administrator, AdminUpdates, DriverUpdates), updates)
  }

  lemma PatchPolicy(administrator: bool, updates: set<string>)
    ensures administrator ==>
              (IsValidOperation(administrator, updates) <==>
               updates <= {"clinic", "driver", "note", "date", "done"})
    ensures !administrator ==>
              (IsValidOperation(administrator, updates) <==> updates <= {"note", "done"})
  {
  }

  // ------------------------------------------------------------- ownership

  /**
   * `pickUp.driver.user._id` after populating the driver and its user: `None`
   * when either reference does not resolve, where the route reads through
   * `null` and throws.
   */
  function OwnerOf(p: PickUp, drivers: seq<Doc<Record>>, users: seq<Doc<User>>): (r: Option<Id>)
    ensures r.Some? ==> PickUpDriver(p).Some? && Find(drivers, PickUpDriver(p).value).Some?
    ensures r.Some? ==> DriverUser(Find(drivers, PickUpDriver(p).value).value.body) == r
    ensures r.Some? ==> Find(users, r.value).Some?
    ensures r.None? ==> PickUpDriver(p).None? || Find(drivers, PickUpDriver(p).value).None? ||
                        DriverUser(Find(drivers, PickUpDriver(p).value).value.body).None? ||
                        Find(users, DriverUser(Find(drivers, PickUpDriver(p).value).value.body).value).None?
  {
    match PickUpDriver(p)
    case None => None
    case Some(driverId) =>
      match Find(drivers, driverId)
      case None => None
      case Some(driver) =>
        match DriverUser(driver.body)
        case None => None
        case Some(uid) => if Find(users, uid).Some? then Some(uid) else None
  }

  function OwnedBy(uid: Id, drivers: seq<Doc<Record>>, users: seq<Doc<User>>): Doc<PickUp> -> bool {
    (d: Doc<PickUp>) => OwnerOf(d.body, drivers, users) == Some(uid)
  }

  /** `select('-photo')`: the pickups as sent, without their photos. */
  function WithoutPhotos(ps: seq<Doc<PickUp>>): (r: seq<Doc<Record>>)
    ensures |r| == |ps|
    ensures forall i :: 0 <= i < |ps| ==> r[i] == Doc(ps[i].id, ps[i].body.fields)
  {
    seq(|ps|, i requires 0 <= i < |ps| => Doc(ps[i].id, ps[i].body.fields))
  }

  // ------------------------------------------------------------------ routes

  /** GET /pickUps/driver: the caller's pickups, in collection order; 500 if any pickup's driver or user is dangling. */
  method DriverPickUps(db: Database, caller: Caller) returns (reply: Reply<seq<Doc<Record>>>)
    ensures reply == ServerError <==>
              exists p :: p in db.pickUps && OwnerOf(p.body, db.drivers, db.users).None?
    ensures reply != ServerError ==>
              reply == Ok(WithoutPhotos(Filter(db.pickUps, OwnedBy(caller.id, db.drivers, db.users))))
  {
    if exists p :: p in db.pickUps && OwnerOf(p.body, db.drivers, db.users).None? {
      return ServerError;
    }
    var pickUps := Filter(db.pickUps, OwnedBy(caller.id, db.drivers, db.users));
    reply := Ok(WithoutPhotos(pickUps));
  }

  /** The driver listing holds a pickup exactly when the caller is the user behind its driver. */
  lemma DriverListingExact(db: Database, caller: Caller, p: Doc<PickUp>)
    ensures var listed := Filter(db.pickUps, OwnedBy(caller.id, db.drivers, db.users));
            p in listed <==> p in db.pickUps && OwnerOf(p.body, db.drivers, db.users) == Some(caller.id)
  {
    var listed := Filter(db.pickUps, OwnedBy(caller.id, db.drivers, db.users));
    assert p in listed <==> multiset(listed)[p] > 0;
    assert p in db.pickUps <==> multiset(db.pickUps)[p] > 0;
  }

  /** GET /pickUps/:id: 404 if absent; a non-admin gets 403 unless the pickup's driver is theirs. */
  method GetPickUp(db: Database, caller: Caller, id: Id) returns (reply: Reply<Doc<Record>>)
    ensures Find(db.pickUps, id).None? ==> reply == NotFound
    ensures Find(db.pickUps, id).Some? && caller.administrator ==>
              reply == Ok(Doc(id, Find(db.pickUps, id).value.body.fields))
    ensures Find(db.pickUps, id).Some? && !caller.administrator ==>
              var owner := OwnerOf(Find(db.pickUps, id).value.body, db.drivers, db.users);
              && (owner.None? ==> reply == ServerError)
              && (owner.Some? && owner.value != caller.id ==> reply == Forbidden)
              && (owner == Some(caller.id) ==> reply == Ok(Doc(id, Find(db.pickUps, id).value.body.fields)))
    ensures reply.Ok? ==>
              caller.administrator ||
              OwnerOf(Find(db.pickUps, id).value.body, db.drivers, db.users) == Some(caller.id)
  {
    var found := Find(db.pickUps, id);
    if found.None? {
      return NotFound;
    }
    var pickUp := found.value;
    if !caller.administrator {
      var owner := OwnerOf(pickUp.body, db.drivers, db.users);
      if owner.None? {
        return ServerError;
      }
      if owner.value != caller.id {
        return Forbidden;
      }
    }
    reply := Ok(Doc(id, pickUp.body.fields));
  }

  /** The required paths a pickup `save` checks. */
  predicate PickUpValidates(fields: Record) {
    forall path :: path in PickUpRequiredPaths ==> Present(fields, path)
  }

  /** PATCH /pickUps/:id: the allow-list check, the lookup, the key-by-key assignment, then `save` (a failure is a 400). */
  method PatchPickUp(db: Database, caller: Caller, id: Id, body: Body) returns (reply: Reply<Doc<Record>>)
    requires db.Valid()
    modifies db`pickUps
    ensures db.Valid()
    ensures !IsValidOperation(caller.administrator, body.Keys) ==>
              reply == BadRequest && db.pickUps == old(db.pickUps)
    ensures IsValidOperation(caller.administrator, body.Keys) && Find(old(db.pickUps), id).None? ==>
              reply == NotFound && db.pickUps == old(db.pickUps)
    ensures IsValidOperation(caller.administrator, body.Keys) && FirstIndex(old(db.pickUps), HasId(id)).Some? ==>
              var i := FirstIndex(old(db.pickUps), HasId(id)).value;
              var pickUp := old(db.pickUps)[i].body;
              var fields := Applied(pickUp.fields, body);
              && (!PickUpValidates(fields) ==> reply == BadRequest && db.pickUps == old(db.pickUps))
              && (PickUpValidates(fields) ==>
                    db.pickUps == Replace(old(db.pickUps), i, pickUp.(fields := fields)) &&
                    reply == Ok(Doc(id, fields)))
  {
    if !IsValidOperation(caller.administrator, body.Keys) {
      return BadRequest;
    }
    var found := FirstIndex(db.pickUps, HasId(id));
    if found.None? {
      return NotFound;
    }
    var i := found.value;
    var pickUp := db.pickUps[i].body;
    var fields := ApplyUpdates(pickUp.fields, body);
    if !PickUpValidates(fields) {
      return BadRequest;
    }
    ReplaceKeepsUniqueIds(db.pickUps, i, pickUp.(fields := fields));
    db.pickUps := Replace(db.pickUps, i, pickUp.(fields := fields));
    reply := Ok(Doc(id, fields));
  }

  /** The PATCH carries no ownership check: a non-admin may edit the note of a pickup that is not theirs. */
  lemma NonAdminMayPatchAnyPickUp(note: Value)
    ensures IsValidOperation(false, map["note" := note].Keys)
  {
  }

  // ------------------------------------------------------------------ photos

  /** multer's `limits.fileSize`: 16 MiB, MongoDB's buffer limit. */
  const MaxFileSize: nat := 16777216

  /** multer's `limits.files`. */
  const MaxFiles: nat := 1

  /** One file part of a multipart upload. */
  datatype FilePart = FilePart(field: string, originalName: string, data: Bytes)

  /** What `upload.single('photo')` leaves for the handler. */
  datatype Upload = Rejected | NoFile | Accepted(file: FilePart)

  predicate EndsWith(s: string, suffix: string) {
    |suffix| <= |s| && s[|s| - |suffix|..] == suffix
  }

  /** The `fileFilter`: `originalname.match(/\.(jpg|jpeg|png)$/)`, case-sensitive. */
  predicate ExtensionAllowed(name: string) {
    EndsWith(name, ".jpg") || EndsWith(name, ".jpeg") || EndsWith(name, ".png")
  }

  /**
   * multer with `single('photo')`, the file filter and the limits; any
   * rejection is a 400.  More parts than `limits.files` are refused; a part
   * with an empty file name is skipped by multer, so no file reaches the route.
   */
  function Multer(parts: seq<FilePart>): (r: Upload)
    ensures r.Accepted? <==>
              |parts| == 1 && parts[0].field == "photo" &&
              ExtensionAllowed(parts[0].originalName) && |parts[0].data| <= MaxFileSize
    ensures r.Accepted? ==> r.file == parts[0]
    ensures r.NoFile? <==> parts == [] || (|parts| == 1 && parts[0].originalName == "")
  {
    if parts == [] then NoFile
    else if |parts| > MaxFiles then Rejected
    else if parts[0].originalName == "" then NoFile
    else if parts[0].field != "photo" then Rejected
    else if !ExtensionAllowed(parts[0].originalName) then Rejected
    else if |parts[0].data| > MaxFileSize then Rejected
    else Accepted(parts[0])
  }

  lemma UploadFilterExamples()
    ensures ExtensionAllowed("amostra.jpeg") && ExtensionAllowed("a.png")
    ensures !ExtensionAllowed("amostra.JPG") && !ExtensionAllowed("amostra.gif")
    ensures !ExtensionAllowed("jpg") && !ExtensionAllowed("a.png.txt")
  {
    assert EndsWith("amostra.jpeg", ".jpeg");
    assert EndsWith("a.png", ".png");
  }

  /**
   * POST /pickUps/:id/photo.  `normalize` is sharp's resize to height 350 and
   * re-encoding as PNG; `None` is a buffer sharp cannot decode.
   */
  method UploadPhoto(db: Database, id: Id, parts: seq<FilePart>, normalize: Bytes -> Option<Bytes>)
    returns (reply: Reply<Bytes>)
    requires db.Valid()
    modifies db`pickUps
    ensures db.Valid()
    ensures Multer(parts).Rejected? ==> reply == BadRequest && db.pickUps == old(db.pickUps)
    ensures Multer(parts).NoFile? ==> reply == ServerError && db.pickUps == old(db.pickUps)
    ensures Multer(parts).Accepted? &&
            (Find(old(db.pickUps), id).None? || normalize(Multer(parts).file.data).None?) ==>
              reply == ServerError && db.pickUps == old(db.pickUps)
    ensures Multer(parts).Accepted? && FirstIndex(old(db.pickUps), HasId(id)).Some? &&
            normalize(Multer(parts).file.data).Some? ==>
              var i := FirstIndex(old(db.pickUps), HasId(id)).value;
              var png := normalize(Multer(parts).file.data).value;
              && db.pickUps == Replace(old(db.pickUps), i, old(db.pickUps)[i].body.(photo := Some(png)))
              && reply == Ok(png)
  {
    var upload := Multer(parts);
    if upload.Rejected? {
      return BadRequest;
    }
    if upload.NoFile? {
      return ServerError;
    }
    var found := FirstIndex(db.pickUps, HasId(id));
    var buffer := normalize(upload.file.data);
    if found.None? || buffer.None? {
      return ServerError;
    }
    var i := found.value;
    ReplaceKeepsUniqueIds(db.pickUps, i, db.pickUps[i].body.(photo := buffer));
    db.pickUps := Replace(db.pickUps, i, db.pickUps[i].body.(photo := buffer));
    reply := Ok(buffer.value);
  }

  /** GET /pickUps/:id/photo: 404 unless the pickup exists and has a photo. */
  method GetPhoto(db: Database, id: Id) returns (reply: Reply<Bytes>)
    ensures Find(db.pickUps, id).None? || Find(db.pickUps, id).value.body.photo.None? ==>
              reply == NotFound
    ensures Find(db.pickUps, id).Some? && Find(db.pickUps, id).value.body.photo.Some? ==>
              reply == Ok(Find(db.pickUps, id).value.body.photo.value)
  {
    var found := Find(db.pickUps, id);
    if found.None? || found.value.body.photo.None? {
      return NotFound;
    }
    reply := Ok(found.value.body.photo.value);
  }

  /** DELETE /pickUps/:id/photo: 404 and no change unless there is a photo; otherwise it is cleared. */
  method DeletePhoto(db: Database, id: Id) returns (reply: Reply<()>)
    requires db.Valid()
    modifies db`pickUps
    ensures db.Valid()
    ensures Find(old(db.pickUps), id).None? || Find(old(db.pickUps), id).value.body.photo.None? ==>
              reply == NotFound && db.pickUps == old(db.pickUps)
    ensures FirstIndex(old(db.pickUps), HasId(id)).Some? &&
            old(db.pickUps)[FirstIndex(old(db.pickUps), HasId(id)).value].body.photo.Some? ==>
              var i := FirstIndex(old(db.pickUps), HasId(id)).value;
              && db.pickUps == Replace(old(db.pickUps), i, old(db.pickUps)[i].body.(photo := None))
              && reply == Ok(())
  {
    var found := FirstIndex(db.pickUps, HasId(id));
    if found.None? || db.pickUps[found.value].body.photo.None? {
      return NotFound;
    }
    var i := found.value;
    ReplaceKeepsUniqueIds(db.pickUps, i, db.pickUps[i].body.(photo := None));
    db.pickUps := Replace(db.pickUps, i, db.pickUps[i].body.(photo := None));
    reply := Ok(());
  }
}
