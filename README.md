# Registration, login and organisation membership (stage2), modelled in Dafny

This project models the stage2 service of the repository: users register
(which also creates an organisation named after them), log in, and read and
manage the organisations they belong to. Access to the protected routes goes
through a session-cookie gate. The model is written over an in-memory store
that stands in for the relational database behind gorm.

- `models.dfy` (module `Models`): the `User` and `Organisation` records and
  the JSON views the handlers return. The user view has no password field.
- `validation.dfy` (module `Validation`): what the validator reports for a
  request struct (one failure per failing field, tagged with the field's
  first broken rule), and `ValidateUser`, the loop that turns each failure
  into a `{field, message}` entry. Messages are built with a model of
  `fmt.Sprintf`.
- `tokens.dfy` (module `Tokens`): the token service as two oracles, `sign`
  and `verify`. Its tests give the only facts assumed about it:
  - a signed token is non-empty and verifies back to its subject;
  - a token that cannot be parsed yields an error.
- `responses.dfy` (module `Responses`): status code plus body kind, and the
  fixed bodies the handlers share.
- `handlers.dfy` (module `Handlers`): class `Store` holds three fields:
  - `users`, a map from user id to user;
  - `orgs`, a map from organisation id to organisation;
  - `members`, the `user_organizations` join table as one set of
    (userId, orgId) pairs. `User.Organisations` and `Organisation.Users`
    both read this one relation.

  `Valid()` is the store invariant:
  - primary keys are the record ids and are never empty;
  - email is unique;
  - required names are filled;
  - every join row refers to an existing user and an existing organisation.

  How the handlers are written:
  - `CreateUser`, `CreateOrganisation` and `AddUserToOrganisation` write
    step by step. They go through `CreateOrg`, `CreateUserRow` and `Link`,
    which stand for gorm's `Create` and `Association(...).Append`.
  - `LoginUser`, `GetUser` and `GetSingleOrganisation` are read-only
    functions.
  - `GetUserOrganisations` builds its list with a loop.
- `middleware.dfy` (module `Middleware`): `UserAuth` has three guards, each
  answering the same 401. On success it returns the user id instead of
  writing it into the request's locals. The module also composes the gate
  with the two routes it protects in stage2/routes/routes.go.
- `org_access.dfy` (module `OrgAccess`): the test helper `hasAccessToOrg`
  and its test. A lemma ties it to the join table for a user preloaded from
  the store.
- `scenarios.dfy` (module `Scenarios`): the flows of stage2/tests/auth_test.go,
  stated for all inputs: register then log in, register twice, the Jill
  registration, and missing required fields.

Collaborators that the model does not implement are parameters:
- the validator's email rule (`isEmail`);
- bcrypt's compare (`matches`) and the hash a call produces (`hashed`);
- `uuid.Parse` (`isUuid`);
- JWT signing and verification (`tokens`);
- request-body parsing (`None` stands for a BodyParser error);
- the primary key `gen_random_uuid()` gives a new row, plus whether that
  insert meets a store fault (`Insert`). Callers must supply a key that is
  fresh and non-empty, which is what the generator provides.

stage2/controller/organisationControllers.go repeats
stage2/controller/userControllers.go:270-488 line for line. The four
organisation handlers are modelled once and cited in organisationControllers.go.

Behaviour of the code worth noting, modelled as written:
- `LoginUser` answers 201 on success (userControllers.go:226), although
  stage2/tests/auth_test.go:108 expects 200.
- A login body whose email is malformed gets 422 with the validation list;
  only a body that fails to parse, an unknown email or a wrong password get
  400 "Authentication failed" (userControllers.go:151-186).
- `AddUserToOrganisation`, `CreateOrganisation` and `GetSingleOrganisation`
  are not wired to any route. Only `GetUserOrganisations` and `GetUser` sit
  behind `UserAuth` (routes.go:18, 21).
- The required-fields test of stage2/tests/auth_test.go checks a message
  only when the reported field equals its `missingKey` (auth_test.go:219-221).
  The reported field is the struct field name ("FirstName") and the key is
  the JSON name ("firstName"), so the message comparison never runs.
- A failed user insert after the organisation insert leaves that
  organisation in the store with no members. Nothing compensates for it.

## Model

| member | source | states |
|---|---|---|
| `Models.PasswordNotSerialized` | stage2/models/userModel.go:16 | the password hash never appears in a serialised user: changing it leaves the JSON view unchanged |
| `Models.SerializeInjective` | stage2/models/userModel.go:12-17 | the JSON view keeps every other user field: two users with equal views and equal hashes are the same record |
| `Validation.FirstBroken` | stage2/validation/validation.go:19 | the validator stops a field at its first failing rule: none is reported iff every rule holds, otherwise the reported rule fails and all before it hold |
| `Validation.Failures` | stage2/validation/validation.go:19-21 | what validate.Struct reports: never more failures than fields, and no failure at all iff every field passes (order and one-per-field are `Validation.FailurePositions`) |
| `Validation.FailurePositions` | stage2/validation/validation.go:19-21 | the failures come in field order, one per failing field: the k-th failure reports field pos[k], the positions strictly increase, every failing field has one, and each failure carries its field's name and first broken tag |
| `Validation.FailuresExhaustive` | stage2/validation/validation.go:19-21 | validation is exhaustive: every failing field is reported, with the tag of its first broken rule |
| `Validation.FailuresSound` | stage2/validation/validation.go:19-23 | every reported failure names a field that really fails, with that field's first broken tag |
| `Validation.SprintfLeading` | stage2/validation/validation.go:26-32 | Sprintf of a format that is a leading %s followed by text without another verb puts the argument in place of the verb |
| `Validation.MessageFor` | stage2/validation/validation.go:24-33 | "required" gives "<field> is required", "email" gives "<field> must be a valid email", "unique" gives "<field> must be unique", any other tag gives "<field> is not valid" |
| `Validation.ValidateUser` | stage2/validation/validation.go:15-38 | one ValidationError per reported failure, in the validator's order, with the failure's field and the tag's message; an empty list iff every field passes |
| `Handlers.DefaultOrgName` | stage2/controller/userControllers.go:59 | the default organisation's name is the first name followed by exactly "'s Organisation" |
| `Handlers.DefaultOrgNameOfJill` | stage2/tests/auth_test.go:74-76 | the first name "Jill" gives "Jill's Organisation" |
| `Handlers.RegisterValidatedFields` | stage2/controller/userControllers.go:22-28 | a registration body that passes validation has a non-empty first name, last name, email and password, and its email satisfies the email rule |
| `Handlers.OrgValidatedFields` | stage2/controller/organisationControllers.go:108-111 | an organisation body that passes validation has a non-empty name |
| `Handlers.Store.ListedOnce` | stage2/controller/organisationControllers.go:43-51 | a list that names exactly a set of organisations, each once, has as many entries as the set |
| `Handlers.Store.CreateOrg` | stage2/controller/userControllers.go:67 | inserting an organisation adds exactly that row unless the store faults, and keeps the store invariant |
| `Handlers.Store.CreateUserRow` | stage2/models/userModel.go:12-15 | inserting a user is refused as a duplicate when the email is taken, fails on a store fault, and otherwise adds exactly that row; the invariant, unique email included, is kept |
| `Handlers.Store.Link` | stage2/controller/userControllers.go:94-98 | appending a membership adds only the pair (user, org), is idempotent, and is only possible when both rows exist |
| `Handlers.Store.CreateUser` | stage2/controller/userControllers.go:21-139 | exits in order: parse 400, validation 422, hashing 500, organisation insert 500, duplicate email 400 "Registration unsuccessful", user insert 500, token 500, success 201. Nothing is written before the organisation insert. A refused user insert leaves the new organisation with no members and adds no user. On success the new organisation's only member is the new user, and that user's only organisation is the new one; a token failure keeps all these writes. The 201 body is the stored user's public fields and the token |
| `Handlers.Store.UserWithEmail` | stage2/controller/userControllers.go:166-167 | finds the user with the given email iff there is one; the email being unique, the answer is determined |
| `Handlers.Store.LoginUser` | stage2/controller/userControllers.go:143-227 | parse failure, unknown email and wrong password all give the same 400 "Authentication failed"; invalid input gives 422; 201 iff the stored user with that email has a matching hash and a token is signed for that user id, and then the body carries that user's public fields and that token; a matching password whose token cannot be signed gives 500 "An error occurred while generating token!"; any other code is 400, 422 or 500 |
| `Handlers.Store.GetUser` | stage2/controller/userControllers.go:231-266 | empty id gives 400 "Missing Param", unknown id gives 404 "User not found", and 200 iff the id is stored, with that user's public fields |
| `Handlers.Store.GetUserOrganisations` | stage2/controller/organisationControllers.go:16-62 | an unparsable id gives 400, an unknown user 404 "User not found"; otherwise 200 with exactly the user's organisations from the join table, each once, as (id, name, description), so the list has as many entries as the user has organisations |
| `Handlers.Store.GetSingleOrganisation` | stage2/controller/organisationControllers.go:66-103 | empty id gives 400, unknown id 404 "Organisation not found", 200 iff the organisation exists, with its id, name and description; no caller or membership enters the answer |
| `Handlers.Store.CreateOrganisation` | stage2/controller/organisationControllers.go:107-175 | the user is looked up first, so an unknown user gives 404 whatever the body. Then parse 400, missing name 422, insert fault 400, and no write on any of these. 201 iff all pass; then the new organisation holds the given name and description, its only member is the creator, and only that one join row is added |
| `Handlers.Store.AddUserToOrganisation` | stage2/controller/organisationControllers.go:179-234 | empty orgId gives 400, then parse error 400. The organisation is looked up before the user, so with both missing the answer is "Organisation not found". 200 iff both exist, and then only the pair (user, org) is added; users and organisations never change |
| `Middleware.UserAuth` | stage2/middleware/authMiddleware.go:13-50 | no cookie, a verification error or isValid false, or a subject that is not a stored user all give the same 401 "Unauthorized"; the gate grants iff all three guards pass, and hands on the found user's id |
| `Middleware.GrantedUserExists` | stage2/middleware/authMiddleware.go:34-46 | the id the gate hands on names a stored user and is the token's subject |
| `Middleware.MalformedTokenDenied` | stage2/utils/utils_jwt_test.go:58-70 | a token that verification rejects as unparsable is answered with 401 |
| `Middleware.SignedTokenGranted` | stage2/utils/utils_jwt_test.go:42-56 | a token signed for a stored user opens the gate for exactly that user |
| `Middleware.LoginTokenGranted` | stage2/controller/userControllers.go:188-226 | the token of a successful login opens the gate for the user who logged in |
| `Middleware.GetUserOrganisationsRoute` | stage2/middleware/authMiddleware.go:45-48 | a denied request gets 401 and nothing runs; a granted one always gets 200 with exactly the granted user's organisations, each once, since every stored key (the text of a gen_random_uuid value) parses as a UUID |
| `Middleware.GetUserRoute` | stage2/routes/routes.go:21 | a denied request gets 401; a granted one gets GetUser's answer for the requested id, whoever the caller is |
| `OrgAccess.HasAccessToOrg` | stage2/controller/organisation_test.go:32-39 | true iff some organisation in the user's list has the given id |
| `OrgAccess.NoOrganisationsNoAccess` | stage2/controller/organisation_test.go:33-38 | a user with no organisations has access to none |
| `OrgAccess.OrganizationAccessScenario` | stage2/controller/organisation_test.go:11-29 | a user linked only to org1 has access to org1 and not to org2, and the other way round for the second user |
| `OrgAccess.HasAccessToStoredOrg` | stage2/models/userModel.go:18 | for a user preloaded from the store, hasAccessToOrg is true iff the join table pairs that user with the organisation |
| `Validation.SingleRequiredFailure` | stage2/validation/validation.go:19-21 | when exactly one field fails, by its required rule, the validator reports exactly that field, tagged "required" |
| `Scenarios.MissingOneRequiredField` | stage2/tests/auth_test.go:138-227 | each of the test's four cases, one required field left out and the others valid, gets exactly one entry: "<that field> is required" |
| `Scenarios.MissingFirstNameAndEmailFailures` | stage2/validation/validation.go:19-21 | going beyond the test's one-field cases: a body missing both the first name and the email gets two failures, in field order, both tagged "required" |
| `Scenarios.MissingFirstNameAndEmail` | stage2/validation/validation.go:15-38 | the same two-field body gets exactly the two entries "FirstName is required" and "Email is required" |
| `Scenarios.LoginFieldsFromRegistration` | stage2/controller/userControllers.go:144-147 | credentials that passed registration validation also pass login validation |
| `Scenarios.RegisterThenLogin` | stage2/tests/auth_test.go:81-136 | whoever registers successfully can log in with the same email and password and gets back the same public user |
| `Scenarios.RegisterTwice` | stage2/tests/auth_test.go:229-257 | after a successful registration, a second one with the same email gets 400 "Registration unsuccessful". It adds no user and leaves its organisation without members |
| `Scenarios.RegisterJill` | stage2/tests/auth_test.go:35-79 | registering Jill Doe gives 201 and "Jill's Organisation", whose one member is the new user with email gill@example.com |

## Left out

- Password hashing and comparison (bcrypt): the hash a call produces and the comparison are parameters; cost factor 10 and the salt are not modelled.
- JWT signing and verification: oracles; only the round trip and the rejection of an unparsable token, which the token tests assert, are assumed. The 7-day expiry depends on the clock and is not modelled.
- Cookies (userControllers.go:111-121 and 199-209): name, value and the flags chosen from APP_ENV and `time.Now()` depend on the environment and the clock.
- JSON body decoding by BodyParser: a request is `None` when parsing fails; no JSON is modelled.
- `validation.ValidateStruct`, which the handlers call, is not part of this model; the visible `ValidateUser` stands for it.
- The validator library: only the `required` and `email` rules are modelled, email syntax is a parameter, and the reported field name is the Go struct field name (the validator's default).
- Validation.Sprintf: models `fmt.Sprintf` only for a format whose one verb is a leading `%s`. These are the only formats the source passes it.
- Duplicate detection by the substring "duplicate key value" (userControllers.go:83): the store's insert returns a distinct `Duplicate` outcome. When the email is taken, that outcome wins over any other store fault.
- Association appends cannot fail in the model; the source ignores their errors.
- Store reads (`First` and `Where(...).First`) cannot fail in the model. In the source any read error, a lost connection included, takes the same exit as a missing row (userControllers.go:167, 243; organisationControllers.go:35, 82, 116, 205, 214; authMiddleware.go:37). The iff-contracts such as "200 iff the id is stored" and "grants iff" hold for reads that succeed.
- Handlers.Store.GetUserOrganisations: with no organisations the source's nil slice serialises as `null`; the model returns an empty list. The order of the list is the database's and is not stated.
- Postgres errors on ids that are not UUIDs in `Where(... = ?)`: answered like a missing row, which is what the handlers do with any error.
- Handlers.Store.GetUser: ids are compared as canonical text, the form `gen_random_uuid()` values take as keys. Postgres compares `uuid` values, so an upper-case, brace-wrapped or hyphen-less spelling of a stored id finds the row in the source (userControllers.go:243) but gives "User not found" in the model.
- Handlers.Store.GetSingleOrganisation: the same canonical-text comparison of the organisation id (organisationControllers.go:82).
- Handlers.Store.AddUserToOrganisation: the same canonical-text comparison of the organisation id and of the body's user id (organisationControllers.go:205, 214).
- Middleware.UserAuth: the token's user id claim is compared with the stored keys as canonical text (authMiddleware.go:35). Postgres compares `uuid` values, so a claim that spells a stored id in upper case or without hyphens is granted in the source, which hands on the canonical id (authMiddleware.go:46), but is denied in the model. This server signs only canonical ids.
- Handlers.Store.GetUserOrganisations: the parsed id is compared with the stored keys as canonical text (organisationControllers.go:25, 35); a non-canonical spelling of a stored id finds the user in the source but gives "User not found" in the model.
- Middleware.GetUserOrganisationsRoute: assumes that uuid.Parse accepts every stored user key, as it does for the text of any `gen_random_uuid()` value.
- The columns of the embedded `gorm.Model` (numeric id, timestamps, soft delete), migrations and the database connection.
- Server start-up, CORS, logging (`fmt.Println`) and route wiring other than the two protected routes. stage1 (weather and geolocation lookups) is I/O and floating point.
- Concurrency: every handler runs to completion on its own; the email index is the only guard against a double registration.
