// The field-update policy shared by the four PATCH routes: the submitted key
// set must lie inside the allow-list picked by the caller's role, otherwise the
// whole request is refused; an accepted body is assigned key by key onto the
// fetched document (`updates.forEach(update => doc[update] = req.body[update])`).

module UpdatePolicy {
  import opened Values

  /** `updates.every(update => allowed.includes(update))`. */
  predicate Permits(allowed: seq<string>, updates: set<string>) {
    forall u :: u in updates ==> u in allowed
  }

  /** The allow-list a route picks: the admin list when `req.user.administrator`, else the drivers' list. */
  function AllowedFor(administrator: bool, adminList: seq<string>, driverList: seq<string>): (r: seq<string>)
    ensures administrator ==> r == adminList
    ensures !administrator ==> r == driverList
  {
    if administrator then adminList else driverList
  }

  /** The document after every submitted field has been assigned. */
  function Applied(doc: Record, body: Body): (r: Record)
    ensures r.Keys == doc.Keys + body.Keys
    ensures forall k :: k in body ==> r[k] == body[k]
    ensures forall k :: k in doc && k !in body ==> r[k] == doc[k]
  {
    doc + body
  }

  /** The `forEach` loop of a PATCH route: assign each submitted key onto the document. */
  method ApplyUpdates(doc: Record, body: Body) returns (r: Record)
    ensures r == Applied(doc, body)
  {
    r := doc;
    var pending := body.Keys;
    while pending != {}
      invariant pending <= body.Keys
      invariant r.Keys == doc.Keys + (body.Keys - pending)
      invariant forall k :: k in body && k !in pending ==> r[k] == body[k]
      invariant forall k :: k in doc && (k !in body || k in pending) ==> r[k] == doc[k]
      decreases pending
    {
      var k :| k in pending;
      r := r[k := body[k]];
      pending := pending - {k};
    }
    assert r == doc + body;
  }

  /** An empty body passes every allow-list, and applying it changes nothing. */
  lemma EmptyBodyIsNoOp(allowed: seq<string>, doc: Record, body: Body)
    requires body == map[]
    ensures Permits(allowed, body.Keys)
    ensures Applied(doc, body) == doc
  {
  }
}
