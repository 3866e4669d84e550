// The document database as the routes see it: one collection per model, each
// in natural order.  `_id` is unique in every collection, and every stored user
// holds a password string (the field is required and always passes through
// the pre-save hook).

module Store {
  import opened Values
  import opened Schema
  import opened Collection

  class Database {
    const crypto: Crypto
    var users: seq<Doc<User>>
    var drivers: seq<Doc<Record>>
    var clinics: seq<Doc<Record>>
    var pickUps: seq<Doc<PickUp>>

    ghost predicate Valid()
      reads this
    {
      && UniqueIds(users)
      && UniqueIds(drivers)
      && UniqueIds(clinics)
      && UniqueIds(pickUps)
      && (forall d :: d in users ==> HasPasswordHash(d.body))
    }

    constructor (crypto: Crypto)
      ensures Valid()
      ensures this.crypto == crypto
      ensures users == [] && drivers == [] && clinics == [] && pickUps == []
    {
      this.crypto := crypto;
      users, drivers, clinics, pickUps := [], [], [], [];
    }
  }
}
