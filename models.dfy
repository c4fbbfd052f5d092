/** The two persisted records of the service and the JSON views the handlers
    send back for them. */
module Models {

  /** A registered user (stage2/models/userModel.go). `userId` is the primary
      key the store generates; `password` holds the bcrypt hash. */
  datatype User = User(
    userId: string,
    firstName: string,
    lastName: string,
    email: string,
    password: string,
    phone: string)

  /** An organisation (stage2/models/orgModel.go). `id` is the primary key the
      store generates; `description` is optional and defaults to "". */
  datatype Organisation = Organisation(id: string, name: string, description: string)

  /** The user object every handler puts in its JSON: the password field is
      tagged `json:"-"` and has no place here. */
  datatype UserView = UserView(
    userId: string,
    firstName: string,
    lastName: string,
    email: string,
    phone: string)

  /** The organisation object of the responses (`orgId`, `name`, `description`). */
  datatype OrgView = OrgView(orgId: string, name: string, description: string)

  /** JSON serialisation of a user: the tagged fields, never the password. */
  function Serialize(u: User): UserView
  {
    UserView(u.userId, u.firstName, u.lastName, u.email, u.phone)
  }

  /** The password hash never reaches a response: two users that differ only
      in their password serialise identically. */
  lemma PasswordNotSerialized(u: User, otherHash: string)
    ensures Serialize(u) == Serialize(u.(password := otherHash))
  {
  }

  /** The organisation object of the responses. */
  function ViewOf(o: Organisation): OrgView
  {
    OrgView(o.id, o.name, o.description)
  }

  /** Serialisation loses nothing but the password: users with equal views
      and equal hashes are equal. */
  lemma SerializeInjective(u1: User, u2: User)
    requires Serialize(u1) == Serialize(u2) && u1.password == u2.password
    ensures u1 == u2
  {
  }
}
