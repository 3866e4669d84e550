# vet-express-api: verified model of the request-handling core

This project models the decision and state-update logic of a small veterinary
pickup service. It is an Express/Mongoose backend with four collections:
users, drivers (a user's role extension), clinics and pickups. A pickup is a
visit a driver makes to a clinic. The model covers:

- the role-gated PATCH policy of the four routers. An administrator and a
  driver each have an allow-list of fields. A request is refused outright
  unless every submitted key is on the caller's list. An accepted request
  assigns exactly the submitted keys onto the stored document.
- the session token list: login appends a token, logout filters out the
  request's token, logout-all empties the list. Credential lookup fails with
  one message whether the e-mail is unknown or the password is wrong.
- the user serialisation (`toJSON`), which drops `password` and `tokens`.
- the password rule. A password whose lower-case form contains `senha` is
  refused. The schema misspells its length option, so no length is checked
  when a user is saved; the corrected rule `PasswordAccepted` also demands at
  least seven characters (see Findings).
- the pickup access rules: a non-admin reads only pickups whose driver's user
  is the caller; the driver listing; the photo upload filter and limits; and
  photo set, fetch and clear.
- the user-to-driver cascade on user removal.

The database is the class `Store.Database`. It holds one sequence per
collection, in natural order, so `findOne` is the first match and `find` with
a filter keeps collection order. Its invariant `Valid()` says:

- `_id` is unique in each collection;
- every stored user holds its password hash as a string.

Every state-changing route is a method with `modifies` on exactly the
collection it writes. It keeps `Valid()` and states the whole new collection
in terms of the old one. HTTP outcomes are the datatype `Values.Reply`
(`Ok`, `Created`, `BadRequest`, `Forbidden`, `NotFound`, `ServerError`).

Inputs the model cannot see are parameters:

- bcrypt's `hash` and `compare`, jsonwebtoken's `sign` (of a user id and the
  second the token is issued, its `iat` claim) and `validator.isEmail`
  are the arrows of `Schema.Crypto`. They are held by the database. The only
  fact assumed about them is `Sound`: a password matches its own hash. Only
  the lemmas `UserModel.CorrectPasswordLogsIn` and
  `UserRouter.AsWrittenPatchTakesOverUser` use it.
- the caller resolved by the `auth` middleware and the request's raw token;
- the fresh ObjectId of a new user, and the current second when a token is
  signed;
- the uploaded multipart file parts;
- sharp's resize-and-re-encode step, which is a function from bytes to
  optional bytes.

Where the code departs from the service's documented design, the model
follows the code:

- A failed login answers 400, not 401 (src/controllers/routers/user.js:124-126).
- A non-admin may PATCH the note and done flag of any pickup, not only their
  own (pickUp.js:73-100).
- A non-admin may PATCH the listed fields of any user, the password included
  (user.js:61-88; see Findings). `UserRouter.PatchUserAsWritten` is the route
  as written; `UserRouter.PatchUser` refuses a non-admin's PATCH of another
  user with 403.
- Deleting a user does not delete its driver (see Findings).
- Saving a user checks no password length (see Findings).
- The admin allow-list for clinics names `cnpf`, not the schema's `cnpj`
  (see Findings). `ClinicRouter.PatchClinicAsWritten` is the route as written;
  `ClinicRouter.PatchClinic` is the route with the list corrected.
- A pickup whose driver or driver's user no longer exists makes two routes
  answer 500 instead of skipping it: a non-admin's GET of that pickup, and
  the driver listing.
- An upload to a missing pickup answers 500, not 404.
- The `!result` checks after `find` and `deleteMany` never fire. Listings and
  delete-many never answer 404.
- A validation failure in user PATCH is a 500, because its catch sends 500.
  In pickup and clinic PATCH it is a 400.

## Model

| member | source | states |
|---|---|---|
| UpdatePolicy.Applied | src/controllers/routers/pickUp.js:94 | after the assignment, every submitted key holds the submitted value, every other stored field keeps its value, and no other key appears |
| UpdatePolicy.ApplyUpdates | src/controllers/routers/pickUp.js:94 | the key-by-key `forEach` assignment loop produces exactly `Applied(doc, body)` |
| UpdatePolicy.EmptyBodyIsNoOp | src/controllers/routers/pickUp.js:74-83 | an empty body passes any allow-list (`every` over no keys) and leaves the document unchanged |
| Collection.FirstIndex | src/controllers/routers/pickUp.js:89 | `findOne` picks an index whose document matches, and no earlier document matches; none is picked only when no document matches |
| Collection.Find | src/controllers/routers/clinic.js:26 | `findOne({ _id })` returns a stored document with that id, or nothing exactly when no document has it |
| Collection.Filter | src/controllers/routers/pickUp.js:28 | the filtered list holds only matching elements, each as many times as in the input, in input order |
| Collection.DeleteOne | src/controllers/routers/clinic.js:82 | `findOneAndDelete` removes exactly the first matching document and keeps the rest in order; with no match nothing changes |
| Collection.Replace | src/controllers/routers/pickUp.js:94-95 | saving a fetched document changes that document only, and keeps its id |
| Collection.RemoveIds | src/controllers/routers/clinic.js:96 | `deleteMany({ _id: ids })` keeps exactly the documents whose id is not listed, in their order |
| Collection.FilterKeepsUniqueIds | src/controllers/routers/pickUp.js:28 | filtering a collection with unique ids keeps ids unique |
| Collection.DeleteOneKeepsUniqueIds | src/controllers/routers/clinic.js:82 | removing one document keeps ids unique |
| Collection.DeleteIdLeavesNone | src/controllers/routers/clinic.js:82 | after deleting by id, no document with that id remains |
| Collection.DeleteOneLeavesNone | src/models/user.js:151 | when at most one element matches, none matches after `deleteOne` |
| Collection.AppendKeepsUniqueIds | src/controllers/routers/user.js:48-51 | inserting a document with a new id keeps ids unique |
| Collection.RemoveIdsKeepsUniqueIds | src/controllers/routers/clinic.js:96 | delete-many keeps ids unique |
| UserModel.Lower | src/models/user.js:81 | lower-casing keeps the length and lower-cases each letter in place |
| UserModel.LowerSlice | src/models/user.js:81 | lower-casing a slice equals slicing the lower-cased string |
| UserModel.ForbiddenWordRejected | src/models/user.js:80-83 | a password containing `senha` in any letter case, at any position, fails validation |
| UserModel.PasswordRule | src/models/user.js:75-85 | under the corrected rule (`minlength: 7`), a password is accepted iff it has at least seven characters and no five-character window lower-cases to `senha` |
| UserModel.MixedCaseWordRejected | src/models/user.js:80-83 | `MinhaSenha1` is refused |
| UserModel.AsWrittenAcceptsShortPassword | src/models/user.js:78 | as written, the three-letter password `abc` passes, while the corrected rule refuses it |
| UserModel.AsWrittenSavesShortPassword | src/models/user.js:75-85 | a user document with the required paths, a valid e-mail and the password `abc` passes save validation, though the corrected rule refuses that password |
| UserModel.NewUserRecord | src/models/user.js:86-90 | a new user keeps the schema paths of the body and drops the rest; `administrator` is false unless the body sets it |
| UserModel.Hashed | src/models/user.js:141-143 | the password is replaced by its hash only when it was modified; otherwise the document is unchanged; no other field changes |
| UserModel.PreSave | src/models/user.js:138-146 | the pre-save hook's result is `Hashed` |
| UserModel.SaveUser | src/models/user.js:63-85 | a save fails exactly when validation fails (required paths, a valid modified e-mail, a modified password without `senha` in any case and of any length, as written); when it succeeds, the stored document is the hashed one and its password is a string |
| UserModel.Public | src/models/user.js:101-109 | the sent object has neither `password` nor `tokens`; it has `_id`; every other stored field is kept unchanged; nothing is added |
| UserModel.ToJson | src/models/user.js:101-109 | copying the object and deleting the two keys produces exactly `Public` |
| UserModel.FindByCredentials | src/models/user.js:121-135 | a failure always carries the one message; a success is the first user with that e-mail, and its stored hash matches the password; conversely no user with the e-mail is a failure, and a first user with the e-mail whose hash matches the password is the success |
| UserModel.LoginFailureIsUniform | src/models/user.js:124-132 | an unknown e-mail and a wrong password produce the same failure |
| UserModel.CorrectPasswordLogsIn | src/models/user.js:121-135 | with a sound bcrypt, the first user with the e-mail logs in with the password its hash was made from |
| UserModel.WithToken | src/models/user.js:115 | the new token list is the old list plus exactly one token at the end; fields are untouched |
| UserModel.GenerateAuthToken | src/models/user.js:111-119 | the token returned is the user id signed at the given second; only that user changes, gaining that token at the end of its list |
| UserModel.RemoveDriverOf | src/models/user.js:149-153 | the pre-remove hook deletes the first driver whose `user` is the removed user |
| UserModel.CascadeLeavesNoDriver | src/models/user.js:149-153 | when a user has at most one driver, no driver refers to the user after the cascade |
| PickUpRouter.PatchPolicy | src/controllers/routers/pickUp.js:74-83 | a pickup PATCH is accepted iff its keys are within clinic, driver, note, date, done (admin) or within note, done (non-admin) |
| PickUpRouter.PatchPickUp | src/controllers/routers/pickUp.js:73-100 | a refused body is a 400 with no write; a missing pickup is a 404; otherwise exactly the submitted fields change on that pickup alone, or a failed validation is a 400 with no write |
| PickUpRouter.NonAdminMayPatchAnyPickUp | src/controllers/routers/pickUp.js:76-82 | the non-admin key check takes no pickup, so a note edit passes it for every target; that the edit is then applied to a pickup the caller does not own follows from `PatchPickUp`, whose outcome never depends on `OwnerOf` |
| PickUpRouter.OwnerOf | src/controllers/routers/pickUp.js:50 | the owner is the user behind the pickup's driver, when both references resolve, and nothing otherwise |
| PickUpRouter.DriverPickUps | src/controllers/routers/pickUp.js:24-37 | a 500 exactly when some pickup's owner does not resolve; otherwise the caller's pickups, in collection order, even when there are none |
| PickUpRouter.DriverListingExact | src/controllers/routers/pickUp.js:28 | a pickup is listed iff it is stored and its driver's user is the caller |
| PickUpRouter.GetPickUp | src/controllers/routers/pickUp.js:40-58 | a missing id is a 404; an admin always gets the pickup; a non-admin gets it only if they own it, a 403 if someone else does, a 500 if the owner does not resolve |
| PickUpRouter.Multer | src/controllers/routers/pickUp.js:130-141 | a file is accepted iff there is exactly one part, in field `photo`, with an allowed name, of at most 16777216 bytes; no file reaches the route exactly when there are no parts or a single part with an empty file name, which multer skips |
| PickUpRouter.UploadFilterExamples | src/controllers/routers/pickUp.js:136 | `.jpeg` and `.png` names pass; `.JPG`, `.gif`, a bare `jpg` and `.png.txt` do not |
| PickUpRouter.UploadPhoto | src/controllers/routers/pickUp.js:144-157 | a rejected upload is a 400 with no write; no file, a missing pickup or an undecodable image is a 500 with no write; otherwise the normalised PNG becomes that pickup's photo and is sent back |
| PickUpRouter.GetPhoto | src/controllers/routers/pickUp.js:160-172 | a 404 unless the pickup exists and has a photo; otherwise the stored photo |
| PickUpRouter.DeletePhoto | src/controllers/routers/pickUp.js:175-188 | a missing pickup or photo is a 404 with no write; otherwise that pickup's photo becomes absent and nothing else changes |
| UserRouter.PatchPolicy | src/controllers/routers/user.js:62-71 | a user PATCH is accepted iff its keys are schema paths (admin) or within phone, cnh, address, password (non-admin); a non-admin never sets `administrator` or `email` |
| UserRouter.NameView | src/controllers/routers/user.js:15 | `select('name')` sends the id and the name, and nothing else |
| UserRouter.DriverUsers | src/controllers/routers/user.js:15 | the `{ administrator: false }` query holds exactly the non-admin users, in collection order |
| UserRouter.ListUsers | src/controllers/routers/user.js:9-27 | with `drivers=true`, the id and name of each non-admin; otherwise every user through `toJSON`; never a 404 |
| UserRouter.GetUser | src/controllers/routers/user.js:30-44 | a non-admin gets their own document whatever the id; an admin gets the user with that id or a 404; no answer carries a password or tokens |
| UserRouter.CreateUser | src/controllers/routers/user.js:47-58 | a body that fails validation (as written: no password length) is a 400 with no write; otherwise exactly one user is appended, with its hashed password and a single token signed for its id at the given second, and it is sent with that token |
| UserRouter.CreatedUserDefaults | src/models/user.js:86-90 | a user created without `administrator` is not an admin, and its stored password is the hash of the submitted one |
| UserRouter.PatchUserAsWritten | src/controllers/routers/user.js:61-88 | as written, with no ownership check: a refused body is a 400 with no write; a missing user is a 404; a failed validation (as written: no password length) is a 500 with no write; otherwise that user alone takes the submitted fields, with the password hashed if it changed |
| UserRouter.AsWrittenPatchTakesOverUser | src/controllers/routers/user.js:61-88 | as written, a non-admin's `{ password }` PATCH of another user, an admin included, is accepted and validates, and afterwards that user's e-mail logs in with the chosen password |
| UserRouter.PatchUser | src/controllers/routers/user.js:61-88 | corrected: a non-admin targeting another user gets a 403 with no write; otherwise as written; a non-admin's PATCH never changes a user other than the caller |
| UserRouter.DriverPatchKeepsRole | src/controllers/routers/user.js:64-71 | an accepted non-admin PATCH never changes the stored `administrator` flag or e-mail |
| UserRouter.Login | src/controllers/routers/user.js:119-127 | a failed lookup is a 400 that adds no token anywhere; a success adds exactly one token, that user's id signed at the given second, to the first user with that e-mail and sends it |
| UserRouter.Revoked | src/controllers/routers/user.js:132-134 | logout keeps every other token, as often and in the order it was there, and drops every copy of the request's token |
| UserRouter.FilterDropsLast | src/controllers/routers/user.js:132-134 | removing a token appended last that was not there before removes only it |
| UserRouter.LogoutUndoesLogin | src/controllers/routers/user.js:132-134 | logging out the session a login opened restores the token list from before the login |
| UserRouter.Logout | src/controllers/routers/user.js:130-141 | only the caller's token list changes, to `Revoked` |
| UserRouter.LogoutAll | src/controllers/routers/user.js:144-152 | only the caller's token list changes, and it becomes empty |
| UserRouter.DeleteUserAsWritten | src/controllers/routers/user.js:91-102 | a missing user is a 404; otherwise that user is removed and sent back; drivers are not touched |
| UserRouter.AsWrittenDeleteOrphansDriver | src/controllers/routers/user.js:93 | for every collection with unique ids, a driver that refers to a user still refers to it after that user is deleted as written, and the user no longer exists |
| UserRouter.DeleteUser | src/models/user.js:149-153 | with the cascade, the user is removed and the first driver referring to it is deleted too |
| DriverRouter.PatchPolicy | src/controllers/routers/driver.js:80-86 | a driver PATCH is accepted iff its keys are within `{region}`, so an empty body is accepted too |
| DriverRouter.PatchKeepsUser | src/controllers/routers/driver.js:93 | an accepted driver PATCH leaves `user` and every field but `region` as it was |
| DriverRouter.PatchDriver | src/controllers/routers/driver.js:79-99 | a refused body is a 400 with no write; a missing driver is a 404 with no write; otherwise exactly the submitted fields change on that driver alone |
| DriverRouter.Populated | src/controllers/routers/driver.js:34 | `populate('user', 'name')` swaps the reference for the user's id and name, or null when the user is gone; a driver without a `user` reference is sent unchanged; other fields are kept |
| DriverRouter.GetDriver | src/controllers/routers/driver.js:30-43 | a missing driver is a 404; otherwise the driver with its user populated |
| DriverRouter.GetDriverByUser | src/controllers/routers/driver.js:46-64 | the first driver of the target user, or a 404; what a non-admin gets is always their own driver |
| DriverRouter.NonAdminPathIgnored | src/controllers/routers/driver.js:49-53 | for a non-admin, the lookup is the same whatever user id the path names |
| DriverRouter.DeleteDriver | src/controllers/routers/driver.js:102-113 | a missing driver is a 404 with no write; otherwise that driver is removed and sent back, and none with its id remains |
| ClinicRouter.PatchPolicy | src/controllers/routers/clinic.js:51-60 | with the corrected list, a clinic PATCH is accepted iff its keys are schema paths (admin) or within phone, contact, address (non-admin); the as-written admin list accepts `cnpf` in place of `cnpj`, and its non-admin list is the same phone, contact, address |
| ClinicRouter.StrictApplied | src/controllers/routers/clinic.js:71 | assigning in strict mode stores exactly the submitted schema paths and drops the rest |
| ClinicRouter.AsWrittenTaxIdUnchangeable | src/controllers/routers/clinic.js:52 | as written, `cnpj` is refused even for an admin, and `cnpf` is accepted but changes nothing |
| ClinicRouter.TaxIdChangeable | src/models/clinic.js:5-8 | with the corrected list, an admin's `cnpj` is accepted and stored |
| ClinicRouter.AcceptedBodiesAreStored | src/controllers/routers/clinic.js:62-72 | under the corrected policy, strict mode drops nothing an accepted body carries |
| ClinicRouter.GetClinic | src/controllers/routers/clinic.js:22-35 | a missing clinic is a 404; otherwise the stored clinic with that id |
| ClinicRouter.PatchClinicAsWritten | src/controllers/routers/clinic.js:50-77 | as written: a body outside the role's list (admin list with `cnpf`) is a 400 with no write; a missing clinic is a 404; a clinic losing a required path is a 400 with no write; otherwise that clinic alone takes the submitted schema paths, and strict mode drops the rest |
| ClinicRouter.PatchClinic | src/controllers/routers/clinic.js:50-77 | corrected (admin list names `cnpj`): a refused body is a 400 with no write; a missing clinic is a 404; a clinic losing a required path is a 400 with no write; otherwise exactly the submitted fields change on that clinic alone |
| ClinicRouter.DeleteClinic | src/controllers/routers/clinic.js:80-91 | a missing clinic is a 404 with no write; otherwise that clinic is removed and sent back |
| ClinicRouter.DeleteManyClinics | src/controllers/routers/clinic.js:94-105 | exactly the clinics with listed ids go; the others stay in order; the answer is the count removed, never a 404 |

## Left out

- Express wiring, CORS, body parsing and the transport of status codes (src/app.js). Outcomes are `Reply` values.
- The `auth` and `authAdmin` middleware, which are not part of this model. The resolved caller and raw token are parameters. Admin-only routes are modelled without the admin check, because that middleware is outside the model.
- Ids are taken as canonical ObjectId strings. A malformed id (such as `abc`) makes Mongoose throw a CastError, which the routes answer with 500 (GET /pickUps/:id; GET, PATCH and DELETE of /users/:id and /drivers/:id; an admin's GET /drivers/user/:userId; GET and DELETE /clinics/:id; clinic delete-many) or 400 (PATCH /pickUps/:id and /clinics/:id). The model answers 404 there, and `Ok(0)` for clinic delete-many. An upper-case hex id finds the document in the source but matches nothing in the model.
- Mongoose casting and type validation (numbers, dates, `Long`, nested address and region shapes), the `trim` and `lowercase` setters, `maxlength` on address states, timestamps and `__v`. Validation covers only the required paths and the validators of modified password and e-mail paths.
- The unique indexes on user e-mail, cpf and license number. Their duplicate-key errors would add a 400 to user create and a 500 to user PATCH.
- bcrypt, jsonwebtoken, `validator.isEmail` and sharp's image resizing. These are uninterpreted parameters; `sign` sees the user id and the issuing second only.
- GenerateAuthToken: two logins of one user within the same second get equal tokens, as jsonwebtoken's `iat` has one-second resolution; logout then drops both.
- `Lower` lower-cases ASCII `A`-`Z` only. This is exact for the `senha` rule, because no other character lower-cases to one of its letters.
- SaveUser: a save whose only change is the token list is taken never to fail. Values already stored are not re-validated.
- A `tokens` array inside a user creation body is dropped by `NewUserRecord`.
- NewUserRecord: an `_id` inside a creation body is dropped; the new user always gets the fresh id.
- Multer: busboy's handling of malformed multipart bodies and of file parts after the first is not modelled; only the part count, field name, file name and size are.
- The GET /users/:id double response for non-admins. The first response (the caller's own document) is the one modelled.
- The login body missing `email` or `password`. The model takes both as strings.
- The create routes for pickups, clinics and drivers (`new Model(body)` and `save`, answering 201 or 400). They carry no logic beyond schema validation, which is left out as above.
- The plain list routes: GET /clinics sends every clinic as stored; GET /pickUps (without photos) and GET /drivers send every document with the referenced names populated.
- DELETE of one pickup, and delete-many of users, drivers and pickups. They are the same `findOneAndDelete` and `deleteMany` as `DeleteClinic` and `DeleteManyClinics`, on another collection. User delete-many runs no cascade either.
- The populate projections on pickups (clinic name, driver's user name). A pickup is sent with its stored fields.
- Async ordering. The cascade (delete the driver, then the user) is not atomic; the model runs it as one step.
- DeleteManyClinics: a missing `ids` body is not modelled; `ids` is a list.

## Findings

| source | as written | input that shows it | evidently intended | confidence | as-written member | corrected member |
|---|---|---|---|---|---|---|
| src/controllers/routers/clinic.js:52 | the admin allow-list names `cnpf`; the schema path is `cnpj` (src/models/clinic.js:5) | admin PATCH with body `{ cnpj: v }` is refused with 400; `{ cnpf: v }` is accepted and stores nothing (route as written: `ClinicRouter.PatchClinicAsWritten`) | the admin list names `cnpj`, so admins can change the tax id (corrected route: `ClinicRouter.PatchClinic`) | high; not executed | ClinicRouter.AsWrittenTaxIdUnchangeable | ClinicRouter.TaxIdChangeable |
| src/controllers/routers/user.js:93 | user delete uses `findOneAndDelete`, a query that does not run the document `pre('remove')` hook (src/models/user.js:149-153) | delete user `u1` that has driver `d1` with `user: u1`: `d1` remains, pointing at a missing user | removing a user also deletes its driver | high; not executed | UserRouter.AsWrittenDeleteOrphansDriver | UserRouter.DeleteUser |
| src/models/user.js:78 | `minlenght: 7` is not a Mongoose option, so no minimum length is enforced | a user saved with the password `abc` passes validation | `minlength: 7`: passwords of fewer than seven characters are refused | high; not executed | UserModel.AsWrittenSavesShortPassword | UserModel.PasswordRule |
| src/controllers/routers/user.js:61-88 | the PATCH checks only the caller's allow-list, never that the target `:id` is the caller, and `password` is on the non-admin list | a non-admin sends `{ password: "x1" }` to PATCH /users/:id of an admin; the admin's password becomes `x1`, and the non-admin logs in as that admin | a non-admin may change only their own document | medium; not executed | UserRouter.AsWrittenPatchTakesOverUser | UserRouter.PatchUser |
