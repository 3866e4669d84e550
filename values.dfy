// Shared vocabulary of the backend: document ids, stored values, documents,
// request callers and the replies a route handler sends.

module Values {

  /** A document id (a Mongo ObjectId, compared by its string form). */
  type Id = string

  type Bytes = seq<bv8>

  datatype Option<+T> = None | Some(value: T)

  datatype Result<+T, +E> = Success(value: T) | Failure(error: E)

  /** A value stored in a document field or sent in a JSON request body. */
  datatype Value =
    | Null
    | Bool(b: bool)
    | Num(n: int)
    | Str(s: string)
    | Ref(id: Id)
    | Bin(bytes: Bytes)
    | List(items: seq<Value>)
    | Obj(entries: map<string, Value>)

  /** The schema fields of one document, by path name. */
  type Record = map<string, Value>

  /** A parsed JSON request body; its keys are `Object.keys(req.body)`. */
  type Body = map<string, Value>

  /** A stored document: its `_id` and its contents. */
  datatype Doc<+D> = Doc(id: Id, body: D)

  /** The caller the auth middleware resolved: `req.user._id` and `req.user.administrator`. */
  datatype Caller = Caller(id: Id, administrator: bool)

  /** What a route handler answers: 200 or 201 with a body, or an error status. */
  datatype Reply<+T> =
    | Ok(value: T)          // 200
    | Created(value: T)     // 201
    | BadRequest            // 400
    | Forbidden             // 403
    | NotFound              // 404
    | ServerError           // 500
}
