// The clinic routes (src/controllers/routers/clinic.js): reading one clinic,
// the role-gated PATCH, deleting one clinic and deleting many.  The admin
// allow-list as written names the tax id `cnpf`, a path the clinic schema does
// not have (it is `cnpj`).  `PatchClinicAsWritten` uses that list
// (`AdminUpdatesAsWritten`); `PatchClinic` uses the corrected one.

module ClinicRouter {
  import opened Values
  import opened Schema
  import opened Collection
  import opened Store
  import opened UpdatePolicy

  /** The admin allow-list as written, with the tax id misspelt. */
  const AdminUpdatesAsWritten: seq<string> := ["name", "cnpf", "phone", "contact", "address"]

  /** The admin allow-list as intended: the schema's own `cnpj`. */
  const AdminUpdates: seq<string> := ["name", "cnpj", "phone", "contact", "address"]

  const DriverUpdates: seq<string> := ["phone", "contact", "address"]

  /** The clinic paths marked `required: true`. */
  const ClinicRequiredPaths: set<string> := {"cnpj", "name"}

  predicate IsValidOperationAsWritten(administrator: bool, updates: set<string>) {
    Permits(AllowedFor(administrator, AdminUpdatesAsWritten, DriverUpdates), updates)
  }

  predicate IsValidOperation(administrator: bool, updates: set<string>) {
    Permits(AllowedFor(administrator, AdminUpdates, DriverUpdates), updates)
  }

  lemma PatchPolicy(administrator: bool, updates: set<string>)
    ensures administrator ==> (IsValidOperation(administrator, updates) <==> updates <= ClinicPaths)
    ensures !administrator ==>
              (IsValidOperation(administrator, updates) <==> updates <= {"phone", "contact", "address"})
    ensures administrator ==>
              (IsValidOperationAsWritten(administrator, updates) <==>
               updates <= {"name", "cnpf", "phone", "contact", "address"})
    ensures !administrator ==>
              (IsValidOperationAsWritten(administrator, updates) <==> updates <= {"phone", "contact", "address"})
  {
  }

  /**
   * Assigning onto a document in Mongoose's strict mode: a key that is not a
   * schema path is dropped and never stored.
   */
  function StrictApplied(doc: Record, body: Body, paths: set<string>): (r: Record)
    ensures r.Keys == doc.Keys + (body.Keys * paths)
    ensures forall k :: k in body && k in paths ==> r[k] == body[k]
    ensures forall k :: k in doc && (k !in body || k !in paths) ==> r[k] == doc[k]
  {
    Applied(doc, map k | k in body && k in paths :: body[k])
  }

  /**
   * As written, an admin cannot change a clinic's tax id: `cnpj` is refused,
   * and `cnpf` is accepted but leaves the stored clinic as it was.
   */
  lemma AsWrittenTaxIdUnchangeable(clinic: Record, v: Value)
    ensures !IsValidOperationAsWritten(true, map["cnpj" := v].Keys)
    ensures IsValidOperationAsWritten(true, map["cnpf" := v].Keys)
    ensures StrictApplied(clinic, map["cnpf" := v], ClinicPaths) == clinic
  {
    assert "cnpj" in map["cnpj" := v].Keys;
    var r := StrictApplied(clinic, map["cnpf" := v], ClinicPaths);
    assert r.Keys == clinic.Keys;
  }

  /** With the corrected list an admin sets the tax id, and exactly the submitted paths change. */
  lemma TaxIdChangeable(clinic: Record, v: Value)
    ensures IsValidOperation(true, map["cnpj" := v].Keys)
    ensures Applied(clinic, map["cnpj" := v]) == StrictApplied(clinic, map["cnpj" := v], ClinicPaths)
    ensures Applied(clinic, map["cnpj" := v])["cnpj"] == v
  {
    var body := map["cnpj" := v];
    assert (map k | k in body && k in ClinicPaths :: body[k]) == body;
  }

  /** Every body the corrected policy accepts holds schema paths only, so strict mode drops nothing. */
  lemma AcceptedBodiesAreStored(administrator: bool, clinic: Record, body: Body)
    requires IsValidOperation(administrator, body.Keys)
    ensures StrictApplied(clinic, body, ClinicPaths) == Applied(clinic, body)
  {
    PatchPolicy(administrator, body.Keys);
    assert (map k | k in body && k in ClinicPaths :: body[k]) == body;
  }

  predicate ClinicValidates(clinic: Record) {
    forall path :: path in ClinicRequiredPaths ==> Present(clinic, path)
  }

  /** GET /clinics/:id. */
  method GetClinic(db: Database, id: Id) returns (reply: Reply<Doc<Record>>)
    ensures Find(db.clinics, id).None? ==> reply == NotFound
    ensures Find(db.clinics, id).Some? ==> reply == Ok(Find(db.clinics, id).value)
    ensures reply.Ok? ==> reply.value in db.clinics && reply.value.id == id
  {
    var found := Find(db.clinics, id);
    if found.None? {
      return NotFound;
    }
    reply := Ok(found.value);
  }

  /**
   * PATCH /clinics/:id as written: the misspelt admin list, then the
   * assignment in strict mode (a `cnpf` key is dropped), then `save`, whose
   * failure is a 400 here.
   */
  method PatchClinicAsWritten(db: Database, caller: Caller, id: Id, body: Body) returns (reply: Reply<Doc<Record>>)
    requires db.Valid()
    modifies db`clinics
    ensures db.Valid()
    ensures !IsValidOperationAsWritten(caller.administrator, body.Keys) ==>
              reply == BadRequest && db.clinics == old(db.clinics)
    ensures IsValidOperationAsWritten(caller.administrator, body.Keys) && Find(old(db.clinics), id).None? ==>
              reply == NotFound && db.clinics == old(db.clinics)
    ensures IsValidOperationAsWritten(caller.administrator, body.Keys) &&
            FirstIndex(old(db.clinics), HasId(id)).Some? ==>
              var i := FirstIndex(old(db.clinics), HasId(id)).value;
              var clinic := StrictApplied(old(db.clinics)[i].body, body, ClinicPaths);
              && (!ClinicValidates(clinic) ==> reply == BadRequest && db.clinics == old(db.clinics))
              && (ClinicValidates(clinic) ==>
                    db.clinics == Replace(old(db.clinics), i, clinic) && reply == Ok(Doc(id, clinic)))
  {
    if !IsValidOperationAsWritten(caller.administrator, body.Keys) {
      return BadRequest;
    }
    var found := FirstIndex(db.clinics, HasId(id));
    if found.None? {
      return NotFound;
    }
    var i := found.value;
    var schemaKeys := map k | k in body && k in ClinicPaths :: body[k];
    var clinic := ApplyUpdates(db.clinics[i].body, schemaKeys);
    if !ClinicValidates(clinic) {
      return BadRequest;
    }
    ReplaceKeepsUniqueIds(db.clinics, i, clinic);
    db.clinics := Replace(db.clinics, i, clinic);
    reply := Ok(Doc(id, clinic));
  }

  /** PATCH /clinics/:id as intended: the admin list names `cnpj`; a failed `save` is a 400 here. */
  method PatchClinic(db: Database, caller: Caller, id: Id, body: Body) returns (reply: Reply<Doc<Record>>)
    requires db.Valid()
    modifies db`clinics
    ensures db.Valid()
    ensures !IsValidOperation(caller.administrator, body.Keys) ==>
              reply == BadRequest && db.clinics == old(db.clinics)
    ensures IsValidOperation(caller.administrator, body.Keys) && Find(old(db.clinics), id).None? ==>
              reply == NotFound && db.clinics == old(db.clinics)
    ensures IsValidOperation(caller.administrator, body.Keys) && FirstIndex(old(db.clinics), HasId(id)).Some? ==>
              var i := FirstIndex(old(db.clinics), HasId(id)).value;
              var clinic := Applied(old(db.clinics)[i].body, body);
              && (!ClinicValidates(clinic) ==> reply == BadRequest && db.clinics == old(db.clinics))
              && (ClinicValidates(clinic) ==>
                    db.clinics == Replace(old(db.clinics), i, clinic) && reply == Ok(Doc(id, clinic)))
  {
    if !IsValidOperation(caller.administrator, body.Keys) {
      return BadRequest;
    }
    var found := FirstIndex(db.clinics, HasId(id));
    if found.None? {
      return NotFound;
    }
    var i := found.value;
    var clinic := ApplyUpdates(db.clinics[i].body, body);
    if !ClinicValidates(clinic) {
      return BadRequest;
    }
    ReplaceKeepsUniqueIds(db.clinics, i, clinic);
    db.clinics := Replace(db.clinics, i, clinic);
    reply := Ok(Doc(id, clinic));
  }

  /** DELETE /clinics/:id (admins only): `findOneAndDelete`. */
  method DeleteClinic(db: Database, id: Id) returns (reply: Reply<Doc<Record>>)
    requires db.Valid()
    modifies db`clinics
    ensures db.Valid()
    ensures Find(old(db.clinics), id).None? ==> reply == NotFound && db.clinics == old(db.clinics)
    ensures Find(old(db.clinics), id).Some? ==>
              && reply == Ok(Find(old(db.clinics), id).value)
              && db.clinics == DeleteOne(old(db.clinics), HasId(id))
              && Find(db.clinics, id).None?
  {
    var found := Find(db.clinics, id);
    if found.None? {
      return NotFound;
    }
    DeleteOneKeepsUniqueIds(db.clinics, HasId(id));
    DeleteIdLeavesNone(db.clinics, id);
    db.clinics := DeleteOne(db.clinics, HasId(id));
    reply := Ok(found.value);
  }

  /**
   * DELETE /clinics/many (admins only): `deleteMany({ _id: ids })`, answered
   * with the number of clinics removed; its `!result` branch is never taken.
   */
  method DeleteManyClinics(db: Database, ids: seq<Id>) returns (reply: Reply<nat>)
    requires db.Valid()
    modifies db`clinics
    ensures db.Valid()
    ensures db.clinics == RemoveIds(old(db.clinics), ids)
    ensures forall d :: d in db.clinics <==> d in old(db.clinics) && d.id !in ids
    ensures reply.Ok? && reply.value == |old(db.clinics)| - |db.clinics|
  {
    var remaining := RemoveIds(db.clinics, ids);
    SubsequenceNoLonger(remaining, db.clinics);
    RemoveIdsKeepsUniqueIds(db.clinics, ids);
    var deletedCount := |db.clinics| - |remaining|;
    db.clinics := remaining;
    reply := Ok(deletedCount);
  }
}
