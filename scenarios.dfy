/** The registration and login flows of stage2/tests/auth_test.go, stated for
    all inputs over the model and checked against the handlers' contracts. */
module Scenarios {
  import opened Wrappers
  import opened Models
  import opened Validation
  import opened Responses
  import opened Handlers

  /** The validator reports the first name and the email of such a body as
      missing, in field order. */
  lemma MissingFirstNameAndEmailFailures(lastName: string, password: string, phone: string, isEmail: string -> bool)
    requires lastName != "" && password != ""
    ensures Failures(RegisterFields(RegisterBody("", lastName, "", password, phone)), isEmail) ==
      [FieldFailure("FirstName", "required"), FieldFailure("Email", "required")]
  {
    var fields := RegisterFields(RegisterBody("", lastName, "", password, phone));
    assert Failures(fields[4..], isEmail) == [];
    assert Failures(fields[3..], isEmail) == [] by { assert fields[3..][1..] == fields[4..]; }
    assert Failures(fields[2..], isEmail) == [FieldFailure("Email", "required")] by { assert fields[2..][1..] == fields[3..]; }
    assert Failures(fields[1..], isEmail) == [FieldFailure("Email", "required")] by { assert fields[1..][1..] == fields[2..]; }
  }

  lemma RequiredMessage(field: string)
    ensures ErrorFor(FieldFailure(field, "required")) == ValidationError(field, field + " is required")
  {
  }

  /** The required fields of the registration struct, in field order. */
  const RequiredNames: seq<string> := ["FirstName", "LastName", "Email", "Password"]

  /** "It Should Fail If Required Fields Are Missing": each of its four cases
      leaves out one required field and fills the others validly; the body
      then gets exactly one entry, saying that this field is required. */
  lemma MissingOneRequiredField(b: RegisterBody, isEmail: string -> bool, m: nat)
    requires m < 4
    requires forall i | 0 <= i < 4 :: (RegisterFields(b)[i].value == "") == (i == m)
    requires b.email != "" ==> isEmail(b.email)
    ensures Report(RegisterFields(b), isEmail) == [ValidationError(RequiredNames[m], RequiredNames[m] + " is required")]
  {
    var fields := RegisterFields(b);
    assert forall i | 0 <= i < 5 && i != m :: Passes(fields[i], isEmail) by {
      assert Passes(fields[4], isEmail);
      assert forall i | 0 <= i < 4 && i != m :: fields[i].value != "";
    }
    SingleRequiredFailure(fields, isEmail, m);
    assert fields[m].name == RequiredNames[m];
    RequiredMessage(RequiredNames[m]);
    var r := Report(fields, isEmail);
    assert r == [r[0]];
  }

  /** Beyond the test's cases: a body missing both
      the first name and the email gets two entries, one per missing field,
      each saying that the field is required. */
  lemma MissingFirstNameAndEmail(lastName: string, password: string, phone: string, isEmail: string -> bool)
    requires lastName != "" && password != ""
    ensures Report(RegisterFields(RegisterBody("", lastName, "", password, phone)), isEmail) ==
      [ValidationError("FirstName", "FirstName" + " is required"), ValidationError("Email", "Email" + " is required")]
  {
    var fields := RegisterFields(RegisterBody("", lastName, "", password, phone));
    MissingFirstNameAndEmailFailures(lastName, password, phone, isEmail);
    var fs := Failures(fields, isEmail);
    var r := Report(fields, isEmail);
    assert |r| == 2;
    assert r[0] == ErrorFor(FieldFailure("FirstName", "required"));
    assert r[1] == ErrorFor(FieldFailure("Email", "required"));
    RequiredMessage("FirstName");
    RequiredMessage("Email");
    assert r == [r[0], r[1]];
  }

  /** A registration that passed validation also passes login validation
      with the same email and password. */
  lemma LoginFieldsFromRegistration(b: RegisterBody, isEmail: string -> bool)
    requires Report(RegisterFields(b), isEmail) == []
    ensures Report(LoginFields(LoginBody(b.email, b.password)), isEmail) == []
  {
    RegisterValidatedFields(b, isEmail);
    var fs := LoginFields(LoginBody(b.email, b.password));
    assert Passes(fs[0], isEmail) && Passes(fs[1], isEmail);
    assert Failures(fs, isEmail) == [];
  }

  /** Registration and login together: whoever registers through CreateUser
      can log in with the same email and password and gets back the same
      public user. "It Should Log the user in successfully" seeds its user
      with a direct insert instead; this states the same login for a user
      whom registration stored. */
  method RegisterThenLogin(s: Store, b: RegisterBody, svc: Services, hash: string, orgRow: Insert, userRow: Insert)
    returns (registered: Response, login: Response)
    requires s.Valid()
    requires orgRow.id != "" && orgRow.id !in s.orgs && userRow.id != "" && userRow.id !in s.users
    requires svc.matches(hash, b.password)
    modifies s
    ensures s.Valid()
    ensures registered.code == 201 ==>
      && login.code == 201 && login.body.Session? && registered.body.Session?
      && login.body.user == registered.body.user
      && login.body.user.email == b.email
  {
    ghost var exit;
    registered, exit := s.CreateUser(Some(b), svc, Some(hash), orgRow, userRow);
    login := s.LoginUser(Some(LoginBody(b.email, b.password)), svc);
    if registered.code == 201 {
      assert exit == Registered;
      LoginFieldsFromRegistration(b, svc.isEmail);
      var u := s.users[userRow.id];
      assert u.email == b.email && u.password == hash && svc.tokens.sign(userRow.id).Some?;
      assert s.UserWithEmail(b.email) == Some(userRow.id);
    }
  }

  /** "Should Fail if there's Duplicate Email": once an email is registered,
      a second registration with it is refused with 400 "Registration
      unsuccessful", no second user appears, and the organisation it created
      is left without members. */
  method RegisterTwice(s: Store, b: RegisterBody, svc: Services, hash: string,
                       orgRow1: Insert, userRow1: Insert, orgRow2: Insert, userRow2: Insert)
    returns (first: Response, second: Response)
    requires s.Valid()
    requires orgRow1.id != "" && orgRow1.id !in s.orgs && userRow1.id != "" && userRow1.id !in s.users
    requires orgRow2.id != "" && orgRow2.id !in s.orgs && orgRow2.id != orgRow1.id
    requires userRow2.id != "" && userRow2.id !in s.users && userRow2.id != userRow1.id
    requires !orgRow2.fails
    modifies s
    ensures s.Valid()
    ensures first.code == 201 ==>
      && second == RegistrationFailed
      && userRow1.id in s.users && s.users == old(s.users)[userRow1.id := s.users[userRow1.id]]
      && orgRow2.id in s.orgs && s.MembersOf(orgRow2.id) == {}
  {
    ghost var exit1, exit2;
    first, exit1 := s.CreateUser(Some(b), svc, Some(hash), orgRow1, userRow1);
    ghost var afterFirst := s.users;
    second, exit2 := s.CreateUser(Some(b), svc, Some(hash), orgRow2, userRow2);
    if first.code == 201 {
      assert exit1 == Registered;
      assert EmailIn(afterFirst, b.email) by { assert afterFirst[userRow1.id].email == b.email; }
      assert exit2 == DuplicateEmail;
    }
  }

  /** The Jill scenario: registering Jill Doe creates "Jill's Organisation"
      whose one member is the new user, with her email. */
  method RegisterJill(svc: Services, hash: string, orgRow: Insert, userRow: Insert) returns (s: Store, r: Response)
    requires orgRow.id != "" && userRow.id != ""
    requires svc.isEmail("gill@example.com")
    requires svc.tokens.sign(userRow.id).Some? && !orgRow.fails && !userRow.fails
    ensures s.Valid() && r.code == 201
    ensures orgRow.id in s.orgs && s.orgs[orgRow.id].name == "Jill's Organisation"
    ensures s.MembersOf(orgRow.id) == {userRow.id} && s.users[userRow.id].email == "gill@example.com"
  {
    s := new Store();
    var body := RegisterBody("Jill", "Doe", "gill@example.com", "password123", "");
    ghost var exit;
    assert Report(RegisterFields(body), svc.isEmail) == [] by {
      var fs := RegisterFields(body);
      assert Passes(fs[0], svc.isEmail) && Passes(fs[1], svc.isEmail) && Passes(fs[2], svc.isEmail);
      assert Passes(fs[3], svc.isEmail) && Passes(fs[4], svc.isEmail);
    }
    r, exit := s.CreateUser(Some(body), svc, Some(hash), orgRow, userRow);
    assert exit == Registered;
    DefaultOrgNameOfJill();
  }
}
