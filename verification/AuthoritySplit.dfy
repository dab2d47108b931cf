/** The migration that takes authority over the whole system out of the tenants. */
module AuthoritySplit {
  import opened AuthTables
  import opened MasterDataSeeder
  import opened Sets
  import opened Wrappers

  const SYSTEM_ROLE := "system-admin"
  const SYSTEM_PERMISSIONS := {"admin:system-settings", "system:manage", "log:view", "tenant:manage"}

  // ------------------------------------------------------ taking codes away

  /** The system role, if there is one, keeps its codes. */
  function SystemGrants(a: Auth, systemRole: Option<int>): set<(int, int)> {
    set g | g in a.grants && g.1 in a.permissions && a.permissions[g.1] in SYSTEM_PERMISSIONS
            && Some(g.0) != systemRole
  }

  lemma CodesAfterStripping(a: Auth, systemRole: Option<int>, role: int)
    requires WellFormed(a)
    ensures CodesOf(a.(grants := a.grants - SystemGrants(a, systemRole)), role)
            == CodesOf(a, role) - if Some(role) == systemRole then {} else SYSTEM_PERMISSIONS
  {
  }

  method StripSystemPermissions(db: AuthDb, systemRole: Option<int>)
    requires WellFormed(db.auth)
    modifies db
    ensures WellFormed(db.auth)
    ensures db.auth == old(db.auth).(grants := db.auth.grants)
    ensures forall role :: CodesOf(db.auth, role)
                           == CodesOf(old(db.auth), role) - if Some(role) == systemRole then {} else SYSTEM_PERMISSIONS
  {
    ghost var before := db.auth;
    db.DeleteGrants(SystemGrants(db.auth, systemRole));
    forall role ensures CodesOf(db.auth, role)
                        == CodesOf(before, role) - if Some(role) == systemRole then {} else SYSTEM_PERMISSIONS
    {
      CodesAfterStripping(before, systemRole, role);
    }
  }

  // ------------------------------------------------------- seating people

  /** Who has which roles, and who sits in which tenant. */
  datatype People = People(roles: set<(int, int)>, seats: map<int, int>)

  function OtherRoles(p: People, user: int, systemRole: int): set<(int, int)> {
    set r | r in p.roles && r.0 == user && r.1 != systemRole
  }

  /** People who hold the system role and sit in a tenant. */
  function Holders(p: People, systemRole: int): set<int> {
    set user | user in p.seats && (user, systemRole) in p.roles
  }

  /** A holder with another role loses the system role, one without loses the seat. */
  function Reseated(p: People, systemRole: int, holders: set<int>): People {
    People(
      p.roles - (set user | user in holders && OtherRoles(p, user, systemRole) != {} :: (user, systemRole)),
      p.seats - set user | user in holders && OtherRoles(p, user, systemRole) == {})
  }

  lemma NobodyIsBothSeatedAndSystemAdmin(p: People, systemRole: int, user: int)
    ensures var after := Reseated(p, systemRole, Holders(p, systemRole));
            !(user in after.seats && (user, systemRole) in after.roles)
  {
  }

  lemma EverybodyElseStays(p: People, systemRole: int, user: int)
    requires user !in Holders(p, systemRole)
    ensures var after := Reseated(p, systemRole, Holders(p, systemRole));
            && (user in after.seats <==> user in p.seats)
            && (user in p.seats ==> after.seats[user] == p.seats[user])
            && (forall role :: (user, role) in after.roles <==> (user, role) in p.roles)
  {
  }

  /** A holder loses the seat or the system role, never both and nothing else. */
  lemma HoldersLoseExactlyOne(p: People, systemRole: int, user: int)
    requires user in Holders(p, systemRole)
    ensures var after := Reseated(p, systemRole, Holders(p, systemRole));
            && (user in after.seats <==> (user, systemRole) !in after.roles)
            && (user in after.seats <==> exists role :: role != systemRole && (user, role) in p.roles)
            && (user in after.seats ==> after.seats[user] == p.seats[user])
            && (forall role :: role != systemRole ==> ((user, role) in after.roles <==> (user, role) in p.roles))
  {
    var others := OtherRoles(p, user, systemRole);
    if others != {} {
      var other := SomeMember(others);
      assert (user, other.1) in p.roles;
    } else {
      forall role | role != systemRole ensures (user, role) !in p.roles {
        assert (user, role) !in others;
      }
    }
  }

  /** Nobody ends with neither a seat nor a role. */
  lemma NobodyIsLeftWithNothing(p: People, systemRole: int, user: int)
    requires exists role :: (user, role) in p.roles
    ensures var after := Reseated(p, systemRole, Holders(p, systemRole));
            exists role :: (user, role) in after.roles
  {
  }

  class PeopleDb {
    var people: People

    constructor (people: People)
      ensures this.people == people
    {
      this.people := people;
    }

    method DeleteRole(user: int, role: int)
      modifies this
      ensures people == old(people).(roles := old(people).roles - {(user, role)})
    {
      people := people.(roles := people.roles - {(user, role)});
    }

    method DeleteSeat(user: int)
      modifies this
      ensures people == old(people).(seats := old(people).seats - {user})
    {
      people := people.(seats := people.seats - {user});
    }

    /** Counts a person's other roles in the table as it stands, one holder after the other. */
    method ReseatSystemAdmins(systemRole: int)
      modifies this
      ensures people == Reseated(old(people), systemRole, Holders(old(people), systemRole))
    {
      ghost var before := people;
      var holders := Holders(people, systemRole);
      var rest := holders;
      while rest != {}
        invariant rest <= holders
        invariant people == Reseated(before, systemRole, holders - rest)
        decreases rest
      {
        ghost var some := SomeMember(rest);
        var user :| user in rest;
        assert OtherRoles(people, user, systemRole) == OtherRoles(before, user, systemRole);
        var others := |OtherRoles(people, user, systemRole)|;
        if others != 0 {
          DeleteRole(user, systemRole);
        } else {
          DeleteSeat(user);
        }
        rest := rest - {user};
        assert holders - rest == holders - (rest + {user}) + {user};
      }
    }
  }

  // ------------------------------------------------------- roles of the tenant's own

  const TEMPLATE_ROLES :=
    {"owner", "manager", "member", "guest", "system-admin", "user-admin", "auditor", "admin"}

  /** The new table role_tenants: every role of another name goes to the default tenant, if there is one. */
  function CustomRoles(roles: map<int, string>, defaultTenant: Option<int>): map<int, int> {
    if defaultTenant.None? then map[]
    else map role | role in roles && roles[role] !in TEMPLATE_ROLES :: defaultTenant.value
  }

  method HandCustomRoles(db: AuthDb, defaultTenant: Option<int>) returns (owners: map<int, int>)
    ensures owners == CustomRoles(db.auth.roles, defaultTenant)
  {
    owners := map[];
    if defaultTenant.None? {
      return;
    }
    var custom := set role | role in db.auth.roles && db.auth.roles[role] !in TEMPLATE_ROLES;
    owners := map role | role in custom :: defaultTenant.value;
  }

  /** Every owned role has a row, before and after seeding, and one owner. */
  ghost predicate OwnersExist(owners: map<int, int>, roles: map<int, string>, defaultTenant: Option<int>) {
    forall role :: role in owners ==> role in roles && Some(owners[role]) == defaultTenant
  }

  /** With a default tenant every role is exactly one of: a template by its name, added by seeding
      and shared by all tenants, or the default tenant's own. Seeding neither takes a role from
      the tenant nor gives it one, whatever names are declared by now. */
  lemma EveryRoleIsTemplateNewOrOwned(a: Auth, m: MasterData, defaultTenant: Option<int>, role: int)
    requires WellFormed(a) && role in Seeded(a, m).roles
    ensures var owners, after := CustomRoles(a.roles, defaultTenant), Seeded(a, m).roles;
            && OwnersExist(owners, after, defaultTenant) && OwnersExist(owners, a.roles, defaultTenant)
            && (role in owners ==> role in a.roles && after[role] !in TEMPLATE_ROLES)
            && (defaultTenant.Some? && role !in owners ==>
                  || after[role] in TEMPLATE_ROLES
                  || (role !in a.roles && exists k :: 0 <= k < |m.roles| && m.roles[k].name == after[role]))
  {
    SeedingKeepsWhatIsThere(a, m);
    SeedingAddsOnlyTheMasterData(a, m);
  }

  // ----------------------------------------------------------- the migration

  /** No code of the whole system reaches a person in a tenant, through any role. */
  ghost predicate Split(a: Auth, p: People) {
    forall user, role :: user in p.seats && (user, role) in p.roles ==> CodesOf(a, role) !! SYSTEM_PERMISSIONS
  }

  /** Custom roles are handed over before seeding, so a role that seeding adds belongs to no tenant. */
  method Upgrade(db: AuthDb, staff: PeopleDb, defaultTenant: Option<int>, m: MasterData)
    returns (systemRole: Option<int>, owners: map<int, int>)
    requires WellFormed(db.auth) && Consistent(m)
    modifies db, staff
    ensures WellFormed(db.auth) && Kept(old(db.auth).roles, db.auth.roles)
    ensures forall k :: 0 <= k < |m.roles| ==> Has(db.auth.roles, m.roles[k].name)
    ensures systemRole.None? <==> !Has(db.auth.roles, "system-admin")
    ensures systemRole.Some? ==>
              && systemRole.value in db.auth.roles && db.auth.roles[systemRole.value] == "system-admin"
              && staff.people == Reseated(old(staff.people), systemRole.value, Holders(old(staff.people), systemRole.value))
    ensures systemRole.None? ==> staff.people == old(staff.people)
    ensures forall role :: role in db.auth.roles ==>
                             CodesOf(db.auth, role)
                             == CodesOf(old(db.auth), role) + TemplateCodes(m.rolePermissions, db.auth.roles[role])
                                - (if db.auth.roles[role] == "system-admin" then {}
                                   else {"admin:system-settings", "system:manage", "log:view", "tenant:manage"})
    ensures Split(db.auth, staff.people)
    ensures forall user, role :: user in staff.people.seats && (user, role) in staff.people.roles ==>
              CodesOf(db.auth, role) !! {"admin:system-settings", "system:manage", "log:view", "tenant:manage"}
    ensures OwnersExist(owners, db.auth.roles, defaultTenant)
    ensures forall role :: role in db.auth.roles ==>
                             (role in owners <==>
                              defaultTenant.Some? && role in old(db.auth).roles && db.auth.roles[role] !in
                                {"owner", "manager", "member", "guest", "system-admin", "user-admin", "auditor", "admin"})
  {
    ghost var start, were := db.auth, staff.people;
    owners := HandCustomRoles(db, defaultTenant);
    SeedMasterData(db, m);
    SeedingKeepsWhatIsThere(start, m);
    forall role | role in db.auth.roles
      ensures CodesOf(db.auth, role) == CodesOf(start, role) + TemplateCodes(m.rolePermissions, db.auth.roles[role])
    {
      SeededCodes(start, m, role);
    }
    systemRole := db.RoleNamed(SYSTEM_ROLE);
    StripSystemPermissions(db, systemRole);
    if systemRole.Some? {
      staff.ReseatSystemAdmins(systemRole.value);
    }
    forall user, role | user in staff.people.seats && (user, role) in staff.people.roles
      ensures CodesOf(db.auth, role) !! SYSTEM_PERMISSIONS
    {
      if systemRole.Some? {
        NobodyIsBothSeatedAndSystemAdmin(were, systemRole.value, user);
      }
    }
  }
}
