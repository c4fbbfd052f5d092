/** The membership check of stage2/controller/organisation_test.go. */
module OrgAccess {
  import opened Models
  import opened Handlers

  /** A user as gorm loads it with `Preload("Organisations")`: the record and
      its organisations. */
  datatype LoadedUser = LoadedUser(user: User, organisations: seq<Organisation>)

  /** hasAccessToOrg: a search of the user's organisations for the id. */
  method HasAccessToOrg(user: LoadedUser, orgId: string) returns (found: bool)
    ensures found <==> exists k | 0 <= k < |user.organisations| :: user.organisations[k].id == orgId
  {
    var i := 0;
    while i < |user.organisations|
      invariant 0 <= i <= |user.organisations|
      invariant forall k | 0 <= k < i :: user.organisations[k].id != orgId
    {
      if user.organisations[i].id == orgId {
        return true;
      }
      i := i + 1;
    }
    return false;
  }

  /** A user with no organisations has access to none. */
  method NoOrganisationsNoAccess(user: User, orgId: string) returns (found: bool)
    ensures !found
  {
    found := HasAccessToOrg(LoadedUser(user, []), orgId);
  }

  /** TestOrganizationAccess: each of two users linked to one of two distinct
      organisations has access to its own and not to the other. */
  method OrganizationAccessScenario(u1: User, u2: User, org1: Organisation, org2: Organisation)
    returns (u1org1: bool, u1org2: bool, u2org1: bool, u2org2: bool)
    requires org1.id != org2.id
    ensures u1org1 && !u1org2 && !u2org1 && u2org2
  {
    var user1 := LoadedUser(u1, [org1]);
    var user2 := LoadedUser(u2, [org2]);
    u1org1 := HasAccessToOrg(user1, org1.id);
    u1org2 := HasAccessToOrg(user1, org2.id);
    u2org1 := HasAccessToOrg(user2, org1.id);
    u2org2 := HasAccessToOrg(user2, org2.id);
    assert user1.organisations[0].id == org1.id && user2.organisations[0].id == org2.id;
  }

  /** `loaded` is what Preload("Organisations") gives for stored user
      `userId`: the record and each of its organisations, from the join table. */
  ghost predicate PreloadedFrom(s: Store, userId: string, loaded: LoadedUser)
    reads s
  {
    && userId in s.users && loaded.user == s.users[userId]
    && (forall k | 0 <= k < |loaded.organisations| ::
          loaded.organisations[k].id in s.OrgIdsOf(userId) && loaded.organisations[k].id in s.orgs &&
          loaded.organisations[k] == s.orgs[loaded.organisations[k].id])
    && (forall id | id in s.OrgIdsOf(userId) :: exists k | 0 <= k < |loaded.organisations| :: loaded.organisations[k].id == id)
  }

  /** On a user loaded from the store, hasAccessToOrg answers exactly whether
      the join table pairs the user with the organisation. */
  method HasAccessToStoredOrg(s: Store, userId: string, loaded: LoadedUser, orgId: string) returns (found: bool)
    requires PreloadedFrom(s, userId, loaded)
    ensures found <==> (userId, orgId) in s.members
  {
    found := HasAccessToOrg(loaded, orgId);
    if found {
      var k :| 0 <= k < |loaded.organisations| && loaded.organisations[k].id == orgId;
      assert orgId in s.OrgIdsOf(userId);
    } else {
      assert orgId !in s.OrgIdsOf(userId);
    }
  }
}
