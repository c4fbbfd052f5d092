/** The stage2 handlers (stage2/controller/userControllers.go and its copy
    stage2/controller/organisationControllers.go) over an in-memory store that
    stands in for the relational database behind gorm. */
module Handlers {
  import opened Wrappers
  import opened Models
  import opened Validation
  import opened Tokens
  import opened Responses

  // ----- Request bodies, as BodyParser fills them, and their validation rules

  datatype RegisterBody = RegisterBody(firstName: string, lastName: string, email: string, password: string, phone: string)
  datatype LoginBody = LoginBody(email: string, password: string)
  datatype OrgBody = OrgBody(name: string, description: string)
  datatype MemberBody = MemberBody(userId: string)

  /** The fields of CreateUser's request struct with their `validate` tags. */
  function RegisterFields(b: RegisterBody): seq<FieldSpec>
  {
    [ FieldSpec("FirstName", b.firstName, [Required]),
      FieldSpec("LastName", b.lastName, [Required]),
      FieldSpec("Email", b.email, [Required, Email]),
      FieldSpec("Password", b.password, [Required]),
      FieldSpec("Phone", b.phone, []) ]
  }

  /** The fields of LoginUser's request struct with their `validate` tags. */
  function LoginFields(b: LoginBody): seq<FieldSpec>
  {
    [ FieldSpec("Email", b.email, [Required, Email]),
      FieldSpec("Password", b.password, [Required]) ]
  }

  /** The fields of CreateOrganisation's request struct with their `validate` tags. */
  function OrgFields(b: OrgBody): seq<FieldSpec>
  {
    [ FieldSpec("Name", b.name, [Required]),
      FieldSpec("Description", b.description, []) ]
  }

  // ----- Collaborators the handlers call

  /** The collaborators whose behaviour is not part of this model: the
      validator's email rule, bcrypt's compare (true when the password matches
      the hash), the token service and uuid.Parse (true when the string parses). */
  datatype Services = Services(
    isEmail: string -> bool,
    matches: (string, string) -> bool,
    tokens: TokenService,
    isUuid: string -> bool)

  /** One row insert: the primary key `gen_random_uuid()` gives the row, and
      whether the insert meets a store fault. */
  datatype Insert = Insert(id: string, fails: bool)

  /** What inserting a user row gives: the unique index on `email` is what
      reports a duplicate. */
  datatype InsertOutcome = Inserted | Duplicate | Failed

  /** The name of the organisation created for a new user. */
  function DefaultOrgName(firstName: string): (name: string)
    ensures |name| > |firstName| && name[..|firstName|] == firstName
    ensures name[|firstName|..] == "'s Organisation"
  {
    firstName + "'s" + " Organisation"
  }

  lemma DefaultOrgNameOfJill()
    ensures DefaultOrgName("Jill") == "Jill's Organisation"
  {
  }

  predicate EmailIn(users: map<string, User>, email: string)
  {
    exists id | id in users :: users[id].email == email
  }

  /** The `unique` index on User.Email. */
  ghost predicate UniqueEmails(users: map<string, User>)
  {
    forall a, b | a in users && b in users && users[a].email == users[b].email :: a == b
  }

  /** The required user fields are non-empty (every writer of a user row
      validated them first). */
  predicate RequiredUserFields(u: User)
  {
    u.firstName != "" && u.lastName != "" && u.email != ""
  }

  /** Which exit CreateUser takes, in the order of its checks. */
  datatype RegisterExit =
    | Unparsable | Invalid | HashError | OrgInsertError
    | DuplicateEmail | UserInsertError | TokenError | Registered

  function RegistrationExit(users: map<string, User>, req: Option<RegisterBody>, svc: Services,
                            hashed: Option<string>, orgRow: Insert, userRow: Insert): RegisterExit
  {
    if req.None? then Unparsable
    else if Report(RegisterFields(req.value), svc.isEmail) != [] then Invalid
    else if hashed.None? then HashError
    else if orgRow.fails then OrgInsertError
    else if EmailIn(users, req.value.email) then DuplicateEmail
    else if userRow.fails then UserInsertError
    else if svc.tokens.sign(userRow.id).None? then TokenError
    else Registered
  }

  /** A registration request that passes validation has every required field. */
  lemma RegisterValidatedFields(b: RegisterBody, isEmail: string -> bool)
    requires Report(RegisterFields(b), isEmail) == []
    ensures b.firstName != "" && b.lastName != "" && b.email != "" && b.password != ""
    ensures isEmail(b.email)
  {
    var fs := RegisterFields(b);
    assert Passes(fs[0], isEmail) && Passes(fs[1], isEmail) && Passes(fs[2], isEmail) && Passes(fs[3], isEmail);
    assert Satisfies(fs[2].rules[1], fs[2].value, isEmail);
  }

  /** An organisation request that passes validation has a name. */
  lemma OrgValidatedFields(b: OrgBody, isEmail: string -> bool)
    requires Report(OrgFields(b), isEmail) == []
    ensures b.name != ""
  {
  }

  /** Every element of `xs` is distinct, lies in `ids`, and covers it: then
      `xs` has exactly as many elements as `ids`. */
  lemma {:induction false} DistinctCount(xs: seq<string>, ids: set<string>)
    requires forall j, k | 0 <= j < k < |xs| :: xs[j] != xs[k]
    requires forall k | 0 <= k < |xs| :: xs[k] in ids
    requires forall id | id in ids :: id in xs
    ensures |xs| == |ids|
  {
    if xs == [] {
      assert ids == {};
    } else {
      var n := |xs| - 1;
      var rest := xs[..n];
      assert forall k | 0 <= k < n :: rest[k] == xs[k];
      forall id | id in ids - {xs[n]} ensures id in rest {
        var k :| 0 <= k < |xs| && xs[k] == id;
        assert k < n && rest[k] == id;
      }
      DistinctCount(rest, ids - {xs[n]});
    }
  }

  /** The store: the users table, the organisations table and the
      `user_organizations` join table, one symmetric relation for both
      User.Organisations and Organisation.Users. */
  class Store {
    var users: map<string, User>
    var orgs: map<string, Organisation>
    var members: set<(string, string)>

    /** Primary keys are the records' ids, emails are unique, required fields
        are filled, and every join row refers to an existing user and an
        existing organisation. */
    ghost predicate Valid()
      reads this
    {
      && (forall id | id in users :: users[id].userId == id && id != "" && RequiredUserFields(users[id]))
      && (forall id | id in orgs :: orgs[id].id == id && id != "" && orgs[id].name != "")
      && UniqueEmails(users)
      && (forall p | p in members :: p.0 in users && p.1 in orgs)
    }

    constructor ()
      ensures Valid()
      ensures users == map[] && orgs == map[] && members == {}
    {
      users, orgs, members := map[], map[], {};
    }

    /** The ids of the organisations a user belongs to. */
    function OrgIdsOf(userId: string): set<string>
      reads this
    {
      set p | p in members && p.0 == userId :: p.1
    }

    /** The ids of the members of an organisation. */
    function MembersOf(orgId: string): set<string>
      reads this
    {
      set p | p in members && p.1 == orgId :: p.0
    }

    /** An organisation no join row mentions has no members. */
    lemma NoMembers(orgId: string)
      requires forall p | p in members :: p.1 != orgId
      ensures MembersOf(orgId) == {}
    {
    }

    /** Linking a user and an organisation that no earlier join row mentions
        makes each the other's only partner. */
    lemma OnlyPartners(before: set<(string, string)>, userId: string, orgId: string)
      requires forall p | p in before :: p.1 != orgId && p.0 != userId
      requires members == before + {(userId, orgId)}
      ensures MembersOf(orgId) == {userId} && OrgIdsOf(userId) == {orgId}
    {
      forall x | x in MembersOf(orgId) ensures x == userId {
        assert (x, orgId) in members;
      }
      forall x | x in OrgIdsOf(userId) ensures x == orgId {
        assert (userId, x) in members;
      }
      assert (userId, orgId) in members;
    }

    /** `vs` lists the organisations `ids` from the store, each once. */
    ghost predicate ListsExactly(vs: seq<OrgView>, ids: set<string>)
      reads this
    {
      && (forall k | 0 <= k < |vs| :: vs[k].orgId in ids && vs[k].orgId in orgs && vs[k] == ViewOf(orgs[vs[k].orgId]))
      && (forall id | id in ids :: exists k | 0 <= k < |vs| :: vs[k].orgId == id)
      && (forall j, k | 0 <= j < k < |vs| :: vs[j].orgId != vs[k].orgId)
    }

    /** Appending an organisation not yet listed lists one more. */
    lemma ListingGrows(vs: seq<OrgView>, ids: set<string>, id: string)
      requires ListsExactly(vs, ids) && id !in ids && id in orgs && orgs[id].id == id
      ensures ListsExactly(vs + [ViewOf(orgs[id])], ids + {id})
    {
      var ws := vs + [ViewOf(orgs[id])];
      assert forall k | 0 <= k < |vs| :: ws[k] == vs[k];
      assert ws[|vs|].orgId == id;
    }

    /** A list that names exactly `ids` has one entry per organisation. */
    lemma ListedOnce(vs: seq<OrgView>, ids: set<string>)
      requires ListsExactly(vs, ids)
      ensures |vs| == |ids|
    {
      var xs := seq(|vs|, k requires 0 <= k < |vs| => vs[k].orgId);
      forall id | id in ids ensures id in xs {
        var k :| 0 <= k < |vs| && vs[k].orgId == id;
        assert xs[k] == id;
      }
      DistinctCount(xs, ids);
    }

    // ----- Store primitives: gorm's row insert and many-to-many append

    /** `Create(&org)`. */
    method CreateOrg(org: Organisation, fails: bool) returns (ok: bool)
      requires Valid()
      requires org.id != "" && org.id !in orgs && org.name != ""
      modifies this
      ensures Valid()
      ensures ok == !fails
      ensures orgs == if ok then old(orgs)[org.id := org] else old(orgs)
      ensures users == old(users) && members == old(members)
    {
      ok := !fails;
      if ok {
        orgs := orgs[org.id := org];
      }
    }

    /** `Create(&user)`: refused as a duplicate when the email is taken. */
    method CreateUserRow(user: User, fails: bool) returns (outcome: InsertOutcome)
      requires Valid()
      requires user.userId != "" && user.userId !in users && RequiredUserFields(user)
      modifies this
      ensures Valid()
      ensures outcome == if EmailIn(old(users), user.email) then Duplicate else if fails then Failed else Inserted
      ensures users == if outcome == Inserted then old(users)[user.userId := user] else old(users)
      ensures orgs == old(orgs) && members == old(members)
    {
      if EmailIn(users, user.email) {
        outcome := Duplicate;
      } else if fails {
        outcome := Failed;
      } else {
        outcome := Inserted;
        users := users[user.userId := user];
      }
    }

    /** `Association(...).Append`: adds the join row; appending a row that is
        already there changes nothing. Only ever called with a user and an
        organisation that were both found. */
    method Link(userId: string, orgId: string)
      requires Valid()
      requires userId in users && orgId in orgs
      modifies this
      ensures Valid()
      ensures members == old(members) + {(userId, orgId)}
      ensures users == old(users) && orgs == old(orgs)
    {
      members := members + {(userId, orgId)};
    }

    // ----- Handlers

    /** POST /auth/register. */
    method CreateUser(req: Option<RegisterBody>, svc: Services, hashed: Option<string>, orgRow: Insert, userRow: Insert)
      returns (r: Response, ghost exit: RegisterExit)
      requires Valid()
      requires orgRow.id != "" && orgRow.id !in orgs
      requires userRow.id != "" && userRow.id !in users
      modifies this
      ensures Valid()
      ensures exit == RegistrationExit(old(users), req, svc, hashed, orgRow, userRow)
      // the response of each exit
      ensures exit == Unparsable ==> r == RegistrationFailed
      ensures exit == Invalid ==> r == Unprocessable(Report(RegisterFields(req.value), svc.isEmail))
      ensures exit == HashError ==> r == HashFailed
      ensures exit == OrgInsertError ==> r == OrgInsertFailed
      ensures exit == DuplicateEmail ==> r == RegistrationFailed
      ensures exit == UserInsertError ==> r == UserInsertFailed
      ensures exit == TokenError ==> r == TokenFailed
      // nothing is written before the organisation insert succeeds
      ensures exit in {Unparsable, Invalid, HashError, OrgInsertError} ==>
        users == old(users) && orgs == old(orgs) && members == old(members)
      // a refused user insert leaves the new organisation behind, without members
      ensures exit in {DuplicateEmail, UserInsertError} ==>
        && orgs == old(orgs)[orgRow.id := Organisation(orgRow.id, DefaultOrgName(req.value.firstName), "")]
        && users == old(users) && members == old(members)
        && MembersOf(orgRow.id) == {}
      // once the user is inserted, the writes stay even if signing fails
      ensures exit in {TokenError, Registered} ==>
        && orgs == old(orgs)[orgRow.id := Organisation(orgRow.id, DefaultOrgName(req.value.firstName), "")]
        && users == old(users)[userRow.id := User(userRow.id, req.value.firstName, req.value.lastName,
                                                  req.value.email, hashed.value, req.value.phone)]
        && members == old(members) + {(userRow.id, orgRow.id)}
        && MembersOf(orgRow.id) == {userRow.id}
        && OrgIdsOf(userRow.id) == {orgRow.id}
      ensures exit == Registered ==>
        r == Response(201, Session("Regstration successful", svc.tokens.sign(userRow.id).value, Serialize(users[userRow.id])))
    {
      exit := RegistrationExit(users, req, svc, hashed, orgRow, userRow);
      ghost var members0 := members;
      if req.None? {
        assert exit == Unparsable;
        return RegistrationFailed, exit;
      }
      var body := req.value;
      var validationErrors := ValidateUser(RegisterFields(body), svc.isEmail);
      if |validationErrors| > 0 {
        assert exit == Invalid;
        return Unprocessable(validationErrors), exit;
      }
      assert Report(RegisterFields(body), svc.isEmail) == [];
      RegisterValidatedFields(body, svc.isEmail);
      if hashed.None? {
        assert exit == HashError;
        return HashFailed, exit;
      }
      var org := Organisation(orgRow.id, DefaultOrgName(body.firstName), "");
      var created := CreateOrg(org, orgRow.fails);
      if !created {
        assert exit == OrgInsertError;
        return OrgInsertFailed, exit;
      }
      assert forall p | p in members0 :: p.1 != orgRow.id && p.0 != userRow.id;
      var user := User(userRow.id, body.firstName, body.lastName, body.email, hashed.value, body.phone);
      var outcome := CreateUserRow(user, userRow.fails);
      NoMembers(orgRow.id);
      if outcome == Duplicate {
        assert exit == DuplicateEmail;
        return RegistrationFailed, exit;
      } else if outcome == Failed {
        assert exit == UserInsertError;
        return UserInsertFailed, exit;
      }
      Link(user.userId, org.id);  // append the user to the organisation's Users
      Link(user.userId, org.id);  // append the organisation to the user's Organisations
      OnlyPartners(members0, userRow.id, orgRow.id);
      var token := svc.tokens.sign(user.userId);
      if token.None? {
        assert exit == TokenError;
        return TokenFailed, exit;
      }
      assert exit == Registered;
      r := Response(201, Session("Regstration successful", token.value, Serialize(user)));
    }

    /** The user, if any, whose email is `email` (at most one, the email column
        being unique). */
    function UserWithEmail(email: string): (id: Option<string>)
      reads this
      requires Valid()
      ensures id.Some? <==> EmailIn(users, email)
      ensures id.Some? ==> id.value in users && users[id.value].email == email
    {
      if EmailIn(users, email) then
        var u :| u in users && users[u].email == email; Some(u)
      else None
    }

    /** POST /auth/login. An unknown email and a wrong password give the very
        same response; the store is only read. */
    function LoginUser(req: Option<LoginBody>, svc: Services): (r: Response)
      reads this
      requires Valid()
      ensures req.None? ==> r == AuthenticationFailed
      ensures req.Some? && Report(LoginFields(req.value), svc.isEmail) != [] ==>
        r == Unprocessable(Report(LoginFields(req.value), svc.isEmail))
      ensures req.Some? && Report(LoginFields(req.value), svc.isEmail) == [] && !EmailIn(users, req.value.email) ==>
        r == AuthenticationFailed
      ensures req.Some? && Report(LoginFields(req.value), svc.isEmail) == [] &&
              (forall id | id in users && users[id].email == req.value.email :: !svc.matches(users[id].password, req.value.password)) ==>
        r == AuthenticationFailed
      ensures r.code == 201 ==>
        && req.Some? && r.body.Session? && r.body.message == "Login successful"
        && r.body.user.userId in users
        && r.body.user == Serialize(users[r.body.user.userId])
        && users[r.body.user.userId].email == req.value.email
        && svc.matches(users[r.body.user.userId].password, req.value.password)
        && svc.tokens.sign(r.body.user.userId) == Some(r.body.accessToken)
      ensures req.Some? && Report(LoginFields(req.value), svc.isEmail) == [] &&
              (exists id | id in users && users[id].email == req.value.email ::
                 svc.matches(users[id].password, req.value.password) && svc.tokens.sign(id).Some?) ==>
        r.code == 201
      ensures req.Some? && Report(LoginFields(req.value), svc.isEmail) == [] &&
              (exists id | id in users && users[id].email == req.value.email ::
                 svc.matches(users[id].password, req.value.password) && svc.tokens.sign(id).None?) ==>
        r == TokenFailed
      ensures r.code in {201, 400, 422, 500}
    {
      if req.None? then AuthenticationFailed
      else
        var body := req.value;
        var validationErrors := Report(LoginFields(body), svc.isEmail);
        if |validationErrors| > 0 then Unprocessable(validationErrors)
        else match UserWithEmail(body.email)
          case None => AuthenticationFailed
          case Some(id) =>
            var user := users[id];
            if !svc.matches(user.password, body.password) then AuthenticationFailed
            else match svc.tokens.sign(user.userId)
              case None => TokenFailed
              case Some(token) => Response(201, Session("Login successful", token, Serialize(user)))
    }

    /** GET /api/users/:id. */
    function GetUser(userId: string): (r: Response)
      reads this
      requires Valid()
      ensures userId == "" ==> r == MissingParam
      ensures userId != "" && userId !in users ==> r == UserNotFound
      ensures r.code == 200 <==> userId in users
      ensures r.code == 200 ==> r == Response(200, UserData("User found", Serialize(users[userId]))) && r.body.user.userId == userId
    {
      if userId == "" then MissingParam
      else if userId !in users then UserNotFound
      else Response(200, UserData("User found", Serialize(users[userId])))
    }

    /** GET /api/organisations: the organisations of the authenticated user,
        each once, in no particular order. */
    method GetUserOrganisations(localsUserId: string, isUuid: string -> bool) returns (r: Response)
      requires Valid()
      ensures !isUuid(localsUserId) ==> r == BadUserId
      ensures isUuid(localsUserId) && localsUserId !in users ==> r == UserNotFound
      ensures isUuid(localsUserId) && localsUserId in users ==>
        && r.code == 200 && r.body.OrgList? && r.body.message == "Organisations found"
        && ListsExactly(r.body.organisations, OrgIdsOf(localsUserId))
        && |r.body.organisations| == |OrgIdsOf(localsUserId)|
    {
      if !isUuid(localsUserId) {
        return BadUserId;
      }
      if localsUserId !in users {
        return UserNotFound;
      }
      var remaining := OrgIdsOf(localsUserId);
      ghost var all := remaining;
      ghost var done: set<string> := {};
      assert forall id | id in all :: id in orgs;
      var organisations: seq<OrgView> := [];
      while remaining != {}
        invariant remaining <= all && done == all - remaining
        invariant ListsExactly(organisations, done)
        decreases remaining
      {
        var id :| id in remaining;
        var org := orgs[id];
        ListingGrows(organisations, done, id);
        organisations := organisations + [ViewOf(org)];
        remaining := remaining - {id};
        done := done + {id};
      }
      assert done == all;
      ListedOnce(organisations, all);
      r := Response(200, OrgList("Organisations found", organisations));
    }

    /** GET /api/organisations/:orgId: no membership check on the caller. */
    function GetSingleOrganisation(orgId: string): (r: Response)
      reads this
      requires Valid()
      ensures orgId == "" ==> r == MissingParam
      ensures orgId != "" && orgId !in orgs ==> r == OrgNotFound
      ensures r.code == 200 <==> orgId in orgs
      ensures r.code == 200 ==>
        (r.body.OrgData? && r.body.message == "Organisation found" &&
         r.body.org == ViewOf(orgs[orgId]) && r.body.org.orgId == orgId)
    {
      if orgId == "" then MissingParam
      else if orgId !in orgs then OrgNotFound
      else Response(200, OrgData("Organisation found", ViewOf(orgs[orgId])))
    }

    /** POST /api/organisations: the user is looked up before the body is
        parsed, and the creator becomes a member of the new organisation. */
    method CreateOrganisation(localsUserId: string, req: Option<OrgBody>, svc: Services, orgRow: Insert)
      returns (r: Response)
      requires Valid()
      requires orgRow.id != "" && orgRow.id !in orgs
      modifies this
      ensures Valid()
      ensures users == old(users)
      ensures localsUserId !in users ==> r == UserNotFound
      ensures localsUserId in users && req.None? ==> r == ClientError
      ensures localsUserId in users && req.Some? && Report(OrgFields(req.value), svc.isEmail) != [] ==>
        r == Unprocessable(Report(OrgFields(req.value), svc.isEmail))
      ensures localsUserId in users && req.Some? && Report(OrgFields(req.value), svc.isEmail) == [] && orgRow.fails ==>
        r == ClientError
      ensures r.code != 201 ==> orgs == old(orgs) && members == old(members)
      ensures r.code == 201 <==>
        localsUserId in users && req.Some? && Report(OrgFields(req.value), svc.isEmail) == [] && !orgRow.fails
      ensures r.code == 201 ==>
        && orgs == old(orgs)[orgRow.id := Organisation(orgRow.id, req.value.name, req.value.description)]
        && members == old(members) + {(localsUserId, orgRow.id)}
        && MembersOf(orgRow.id) == {localsUserId}
        && r == Response(201, OrgData("Organisation created successfully", ViewOf(orgs[orgRow.id])))
    {
      if localsUserId !in users {
        return UserNotFound;
      }
      var user := users[localsUserId];
      if req.None? {
        return ClientError;
      }
      var body := req.value;
      var validationErrors := ValidateUser(OrgFields(body), svc.isEmail);
      if |validationErrors| > 0 {
        return Unprocessable(validationErrors);
      }
      OrgValidatedFields(body, svc.isEmail);
      ghost var members0 := members;
      assert forall p | p in members0 :: p.1 != orgRow.id;
      var org := Organisation(orgRow.id, body.name, body.description);
      var created := CreateOrg(org, orgRow.fails);
      if !created {
        return ClientError;
      }
      Link(user.userId, org.id);  // append the organisation to the user's Organisations
      Link(user.userId, org.id);  // append the user to the organisation's Users
      assert members == members0 + {(localsUserId, orgRow.id)};
      r := Response(201, OrgData("Organisation created successfully", ViewOf(org)));
    }

    /** POST /api/organisations/:orgId/users: the organisation is looked up
        before the user, and only the one join row is added. */
    method AddUserToOrganisation(orgId: string, req: Option<MemberBody>) returns (r: Response)
      requires Valid()
      modifies this
      ensures Valid()
      ensures users == old(users) && orgs == old(orgs)
      ensures orgId == "" ==> r == MissingParam
      ensures orgId != "" && req.None? ==> r == ClientError
      ensures orgId != "" && req.Some? && orgId !in orgs ==> r == OrgNotFound
      ensures orgId != "" && req.Some? && orgId in orgs && req.value.userId !in users ==> r == UserNotFound
      ensures r.code != 200 ==> members == old(members)
      ensures r.code == 200 <==> orgId != "" && req.Some? && orgId in orgs && req.value.userId in users
      ensures r.code == 200 ==>
        && members == old(members) + {(req.value.userId, orgId)}
        && r == Response(200, Message("success", "User added to organisation successfully"))
    {
      if orgId == "" {
        return MissingParam;
      }
      if req.None? {
        return ClientError;
      }
      var userId := req.value.userId;
      if orgId !in orgs {
        return OrgNotFound;
      }
      var org := orgs[orgId];
      if userId !in users {
        return UserNotFound;
      }
      var user := users[userId];
      Link(user.userId, org.id);  // append the organisation to the user's Organisations
      Link(user.userId, org.id);  // append the user to the organisation's Users
      r := Response(200, Message("success", "User added to organisation successfully"));
    }
  }
}
