/** Seeding roles, permissions and grants into tables that already hold some. */
module MasterDataSeeder {
  import opened AuthTables
  import opened Wrappers

  datatype TemplateRole = TemplateRole(id: int, name: string)
  datatype RoleCodes = RoleCodes(name: string, codes: seq<string>)
  datatype MasterData = MasterData(roles: seq<TemplateRole>, codes: seq<string>, rolePermissions: seq<RoleCodes>)

  predicate Distinct(codes: seq<string>) {
    forall i, j :: 0 <= i < j < |codes| ==> codes[i] != codes[j]
  }

  predicate Listed(m: MasterData, entry: RoleCodes) {
    && (exists k :: 0 <= k < |m.roles| && m.roles[k].name == entry.name)
    && (forall code :: code in entry.codes ==> code in m.codes)
  }

  /** The declarations fit together: every role and code granted is declared, and no code
      twice for one role. */
  predicate Consistent(m: MasterData) {
    forall k :: 0 <= k < |m.rolePermissions| ==>
                  Listed(m, m.rolePermissions[k]) && Distinct(m.rolePermissions[k].codes)
  }

  /** What the declarations grant to the role of this name. */
  function TemplateCodes(entries: seq<RoleCodes>, name: string): set<string> {
    set k, code | 0 <= k < |entries| && code in entries[k].codes && entries[k].name == name :: code
  }

  // ------------------------------------------------------- what seeding means

  /** An existing name stays as it is; a taken id leaves the numbering to the table. */
  ghost function WithRole(a: Auth, role: TemplateRole): Auth {
    if Has(a.roles, role.name) then a
    else
      var id := if role.id in a.roles then a.nextRole else role.id;
      a.(roles := a.roles[id := role.name],
         nextRole := if id < a.nextRole then a.nextRole else id + 1)
  }

  ghost function WithRoles(a: Auth, roles: seq<TemplateRole>): Auth {
    if roles == [] then a
    else WithRole(WithRoles(a, roles[..|roles| - 1]), roles[|roles| - 1])
  }

  ghost function WithPermission(a: Auth, code: string): Auth {
    if Has(a.permissions, code) then a
    else a.(permissions := a.permissions[a.nextPermission := code], nextPermission := a.nextPermission + 1)
  }

  ghost function WithPermissions(a: Auth, codes: seq<string>): Auth {
    if codes == [] then a
    else WithPermission(WithPermissions(a, codes[..|codes| - 1]), codes[|codes| - 1])
  }

  /** The pairs the declarations ask for, among the rows at hand. */
  function TemplateGrants(a: Auth, entries: seq<RoleCodes>): set<(int, int)> {
    set role, p | role in a.roles && p in a.permissions
                  && a.permissions[p] in TemplateCodes(entries, a.roles[role]) :: (role, p)
  }

  ghost function WithRows(a: Auth, m: MasterData): Auth {
    WithPermissions(WithRoles(a, m.roles), m.codes)
  }

  ghost function Seeded(a: Auth, m: MasterData): Auth {
    var b := WithRows(a, m);
    b.(grants := b.grants + TemplateGrants(b, m.rolePermissions))
  }

  /** Nothing is left to seed. */
  ghost predicate Complete(a: Auth, m: MasterData) {
    && (forall k :: 0 <= k < |m.roles| ==> Has(a.roles, m.roles[k].name))
    && (forall code :: code in m.codes ==> Has(a.permissions, code))
    && TemplateGrants(a, m.rolePermissions) <= a.grants
  }

  // ------------------------------------------------------------ rows added

  lemma HasStays(before: map<int, string>, after: map<int, string>, name: string)
    requires Kept(before, after) && Has(before, name)
    ensures Has(after, name)
  {
  }

  lemma {:induction false} RolesAdded(a: Auth, roles: seq<TemplateRole>)
    requires WellFormed(a)
    ensures var b := WithRoles(a, roles);
            && WellFormed(b) && Kept(a.roles, b.roles)
            && b.permissions == a.permissions && b.grants == a.grants
            && (forall k :: 0 <= k < |roles| ==> Has(b.roles, roles[k].name))
            && (forall id :: id in b.roles && id !in a.roles ==>
                               exists k :: 0 <= k < |roles| && roles[k].name == b.roles[id])
  {
    if roles != [] {
      var n := |roles| - 1;
      var most, last := roles[..n], roles[n];
      RolesAdded(a, most);
      var b := WithRoles(a, most);
      var c := WithRole(b, last);
      RoleAdded(b, last);
      forall k | 0 <= k < |roles| ensures Has(c.roles, roles[k].name) {
        if k < n {
          assert roles[k] == most[k];
          HasStays(b.roles, c.roles, roles[k].name);
        }
      }
      forall id | id in c.roles && id !in a.roles
        ensures exists k :: 0 <= k < |roles| && roles[k].name == c.roles[id]
      {
        if id in b.roles {
          var k :| 0 <= k < |most| && most[k].name == b.roles[id];
          assert roles[k].name == c.roles[id];
        } else {
          assert roles[n].name == c.roles[id];
        }
      }
    }
  }

  lemma RoleAdded(a: Auth, role: TemplateRole)
    requires WellFormed(a)
    ensures var b := WithRole(a, role);
            && WellFormed(b) && Kept(a.roles, b.roles)
            && b.permissions == a.permissions && b.grants == a.grants
            && Has(b.roles, role.name)
            && (forall id :: id in b.roles && id !in a.roles ==> b.roles[id] == role.name)
  {
    if !Has(a.roles, role.name) {
      var id := if role.id in a.roles then a.nextRole else role.id;
      NewRowKeepsNamesUnique(a.roles, id, role.name);
      assert WithRole(a, role).roles[id] == role.name;
    }
  }

  lemma PermissionAdded(a: Auth, code: string)
    requires WellFormed(a)
    ensures var b := WithPermission(a, code);
            && WellFormed(b) && Kept(a.permissions, b.permissions)
            && b.roles == a.roles && b.grants == a.grants
            && Has(b.permissions, code)
            && (forall id :: id in b.permissions && id !in a.permissions ==> b.permissions[id] == code)
  {
    if !Has(a.permissions, code) {
      NewRowKeepsNamesUnique(a.permissions, a.nextPermission, code);
      assert WithPermission(a, code).permissions[a.nextPermission] == code;
    }
  }

  lemma {:induction false} PermissionsAdded(a: Auth, codes: seq<string>)
    requires WellFormed(a)
    ensures var b := WithPermissions(a, codes);
            && WellFormed(b) && Kept(a.permissions, b.permissions)
            && b.roles == a.roles && b.grants == a.grants
            && (forall code :: code in codes ==> Has(b.permissions, code))
            && (forall id :: id in b.permissions && id !in a.permissions ==> b.permissions[id] in codes)
  {
    if codes != [] {
      var n := |codes| - 1;
      var most, last := codes[..n], codes[n];
      assert codes == most + [last];
      PermissionsAdded(a, most);
      var b := WithPermissions(a, most);
      PermissionAdded(b, last);
      forall code | code in most ensures Has(WithPermission(b, last).permissions, code) {
        HasStays(b.permissions, WithPermission(b, last).permissions, code);
      }
    }
  }

  lemma RowsAdded(a: Auth, m: MasterData)
    requires WellFormed(a)
    ensures var b := WithRows(a, m);
            && WellFormed(b) && b.grants == a.grants
            && Kept(a.roles, b.roles) && Kept(a.permissions, b.permissions)
            && (forall k :: 0 <= k < |m.roles| ==> Has(b.roles, m.roles[k].name))
            && (forall code :: code in m.codes ==> Has(b.permissions, code))
            && (forall id :: id in b.roles && id !in a.roles ==>
                               exists k :: 0 <= k < |m.roles| && m.roles[k].name == b.roles[id])
            && (forall id :: id in b.permissions && id !in a.permissions ==> b.permissions[id] in m.codes)
  {
    RolesAdded(a, m.roles);
    PermissionsAdded(WithRoles(a, m.roles), m.codes);
  }

  // ------------------------------------------------------- what seeding keeps

  lemma SeedingKeepsWhatIsThere(a: Auth, m: MasterData)
    requires WellFormed(a)
    ensures var b := Seeded(a, m);
            && WellFormed(b) && Complete(b, m)
            && Kept(a.roles, b.roles) && Kept(a.permissions, b.permissions) && a.grants <= b.grants
  {
    RowsAdded(a, m);
    var b, c := WithRows(a, m), Seeded(a, m);
    forall g | g in TemplateGrants(b, m.rolePermissions) ensures g.0 in b.roles && g.1 in b.permissions {
    }
    assert TemplateGrants(c, m.rolePermissions) == TemplateGrants(b, m.rolePermissions);
  }

  /** Only declared names and codes are added. */
  lemma SeedingAddsOnlyTheMasterData(a: Auth, m: MasterData)
    requires WellFormed(a)
    ensures AllCodes(Seeded(a, m)) == AllCodes(a) + (set code | code in m.codes)
    ensures forall id :: id in Seeded(a, m).roles && id !in a.roles ==>
                           exists k :: 0 <= k < |m.roles| && m.roles[k].name == Seeded(a, m).roles[id]
  {
    RowsAdded(a, m);
    var b := WithRows(a, m);
    forall code | code in m.codes ensures code in AllCodes(b) {
      assert Has(b.permissions, code);
    }
    forall p | p in a.permissions ensures a.permissions[p] in AllCodes(b) {
      assert p in b.permissions;
    }
    assert AllCodes(Seeded(a, m)) == AllCodes(b);
  }

  lemma OnlyDeclaredCodes(m: MasterData, name: string, code: string)
    requires Consistent(m) && code in TemplateCodes(m.rolePermissions, name)
    ensures code in m.codes
  {
  }

  /** A role ends with its old codes and those declared for its name; any other name gains none. */
  lemma SeededCodes(a: Auth, m: MasterData, role: int)
    requires WellFormed(a) && Consistent(m) && role in Seeded(a, m).roles
    ensures CodesOf(Seeded(a, m), role)
            == CodesOf(a, role) + TemplateCodes(m.rolePermissions, Seeded(a, m).roles[role])
  {
    RowsAdded(a, m);
    var b := Seeded(a, m);
    var wanted := TemplateCodes(m.rolePermissions, b.roles[role]);
    forall code | code in CodesOf(a, role) ensures code in CodesOf(b, role) {
      var p :| p in a.permissions && (role, p) in a.grants && a.permissions[p] == code;
      assert p in b.permissions && (role, p) in b.grants;
    }
    forall code | code in wanted ensures code in CodesOf(b, role) {
      OnlyDeclaredCodes(m, b.roles[role], code);
      assert Has(b.permissions, code);
      var p :| p in b.permissions && b.permissions[p] == code;
      assert (role, p) in TemplateGrants(WithRows(a, m), m.rolePermissions);
    }
    forall code | code in CodesOf(b, role) ensures code in CodesOf(a, role) + wanted {
      var p :| p in b.permissions && (role, p) in b.grants && b.permissions[p] == code;
      if (role, p) in a.grants {
        assert p in a.permissions;
      }
    }
  }

  lemma NameIsStillFree(a: Auth, roles: seq<TemplateRole>, name: string)
    requires WellFormed(a) && !Has(a.roles, name)
    requires forall k :: 0 <= k < |roles| ==> roles[k].name != name
    ensures !Has(WithRoles(a, roles).roles, name)
  {
  }

  /** The declared ids and no others are new, and each has its declared name. */
  ghost predicate Placed(before: map<int, string>, after: map<int, string>, roles: seq<TemplateRole>) {
    && (forall id :: id in after ==> id in before || exists k :: 0 <= k < |roles| && roles[k].id == id)
    && (forall id :: id in before ==> id in after)
    && (forall k :: 0 <= k < |roles| ==> roles[k].id in after && after[roles[k].id] == roles[k].name)
  }

  lemma PlacedOneMore(before: map<int, string>, after: map<int, string>, most: seq<TemplateRole>, last: TemplateRole)
    requires Placed(before, after, most) && last.id !in after
    ensures Placed(before, after[last.id := last.name], most + [last])
  {
    var roles := most + [last];
    assert roles[|most|] == last;
    forall id | id in after && id !in before ensures exists k :: 0 <= k < |roles| && roles[k].id == id {
      var k :| 0 <= k < |most| && most[k].id == id;
      assert roles[k].id == id;
    }
  }

  ghost predicate Free(a: Auth, roles: seq<TemplateRole>) {
    && (forall i, j :: 0 <= i < j < |roles| ==> roles[i].id != roles[j].id && roles[i].name != roles[j].name)
    && (forall k :: 0 <= k < |roles| ==> roles[k].id !in a.roles && !Has(a.roles, roles[k].name))
  }

  /** Where no declared name or id is in use yet, every declared role gets its declared id. */
  lemma {:induction false} FreeIdsAreUsed(a: Auth, roles: seq<TemplateRole>)
    requires WellFormed(a) && Free(a, roles)
    ensures Placed(a.roles, WithRoles(a, roles).roles, roles)
    ensures forall k :: 0 <= k < |roles| ==>
              roles[k].id in WithRoles(a, roles).roles && WithRoles(a, roles).roles[roles[k].id] == roles[k].name
  {
    if roles != [] {
      var n := |roles| - 1;
      var most, last := roles[..n], roles[n];
      var b := WithRoles(a, most);
      FreeIdsAreUsed(a, most);
      NameIsStillFree(a, most, last.name);
      PlacedOneMore(a.roles, b.roles, most, last);
      assert WithRole(b, last).roles == b.roles[last.id := last.name];
      assert most + [last] == roles;
    }
  }

  // --------------------------------------------------------------- idempotence

  lemma {:induction false} NoRolesToAdd(a: Auth, roles: seq<TemplateRole>)
    requires forall k :: 0 <= k < |roles| ==> Has(a.roles, roles[k].name)
    ensures WithRoles(a, roles) == a
  {
    if roles != [] {
      NoRolesToAdd(a, roles[..|roles| - 1]);
    }
  }

  lemma {:induction false} NoPermissionsToAdd(a: Auth, codes: seq<string>)
    requires forall code :: code in codes ==> Has(a.permissions, code)
    ensures WithPermissions(a, codes) == a
  {
    if codes != [] {
      NoPermissionsToAdd(a, codes[..|codes| - 1]);
      assert codes[|codes| - 1] in codes;
    }
  }

  lemma CompleteNeedsNoSeeding(a: Auth, m: MasterData)
    requires Complete(a, m)
    ensures Seeded(a, m) == a
  {
    NoRolesToAdd(a, m.roles);
    NoPermissionsToAdd(a, m.codes);
  }

  lemma SeedingTwiceIsSeedingOnce(a: Auth, m: MasterData)
    requires WellFormed(a)
    ensures Seeded(Seeded(a, m), m) == Seeded(a, m)
  {
    SeedingKeepsWhatIsThere(a, m);
    CompleteNeedsNoSeeding(Seeded(a, m), m);
  }

  // ---------------------------------------------------------------- the seeder

  /** The pairs of one role for some of the codes declared for it. */
  function PairsFor(a: Auth, role: int, codes: seq<string>): set<(int, int)> {
    set p | p in a.permissions && a.permissions[p] in codes :: (role, p)
  }

  lemma OneMoreEntry(a: Auth, entries: seq<RoleCodes>, k: nat, role: int)
    requires k < |entries| && Unique(a.roles) && role in a.roles && a.roles[role] == entries[k].name
    ensures TemplateGrants(a, entries[..k + 1])
            == TemplateGrants(a, entries[..k]) + PairsFor(a, role, entries[k].codes)
  {
  }

  /** Adds one declared role's missing codes; `existing` is read before the first is added. */
  method GrantMissing(db: AuthDb, role: int, codes: seq<string>, permissions: map<string, int>)
    requires WellFormed(db.auth) && role in db.auth.roles && Distinct(codes)
    requires forall code :: code in codes ==>
                              && code in permissions && permissions[code] in db.auth.permissions
                              && db.auth.permissions[permissions[code]] == code
    modifies db
    ensures WellFormed(db.auth)
    ensures db.auth == old(db.auth).(grants := old(db.auth).grants + PairsFor(old(db.auth), role, codes))
  {
    ghost var before := db.auth;
    var existing := CodesOf(db.auth, role);
    for j := 0 to |codes|
      invariant WellFormed(db.auth)
      invariant db.auth == before.(grants := before.grants + PairsFor(before, role, codes[..j]))
    {
      var code, p := codes[j], permissions[codes[j]];
      assert codes[..j + 1] == codes[..j] + [code];
      assert PairsFor(before, role, codes[..j + 1]) == PairsFor(before, role, codes[..j]) + {(role, p)};
      if code !in existing {
        assert (role, p) !in before.grants;
        assert (role, p) !in PairsFor(before, role, codes[..j]);
        db.InsertGrant(role, p);
      } else {
        assert (role, p) in before.grants;
      }
    }
    assert codes[..|codes|] == codes;
  }

  method SeedRoles(db: AuthDb, roles: seq<TemplateRole>) returns (ids: map<string, int>)
    requires WellFormed(db.auth)
    modifies db
    ensures WellFormed(db.auth) && db.auth == WithRoles(old(db.auth), roles)
    ensures forall k :: 0 <= k < |roles| ==>
                          && roles[k].name in ids && ids[roles[k].name] in db.auth.roles
                          && db.auth.roles[ids[roles[k].name]] == roles[k].name
  {
    ghost var before := db.auth;
    ids := map[];
    for k := 0 to |roles|
      invariant WellFormed(db.auth) && db.auth == WithRoles(before, roles[..k])
      invariant forall i :: 0 <= i < k ==>
                              && roles[i].name in ids && ids[roles[i].name] in db.auth.roles
                              && db.auth.roles[ids[roles[i].name]] == roles[i].name
    {
      assert roles[..k + 1][..k] == roles[..k];
      var role := db.RoleNamed(roles[k].name);
      var id;
      if role.None? {
        var taken := roles[k].id in db.auth.roles;
        id := db.InsertRole(if taken then None else Some(roles[k].id), roles[k].name);
      } else {
        id := role.value;
      }
      ids := ids[roles[k].name := id];
    }
    assert roles[..|roles|] == roles;
  }

  method SeedPermissions(db: AuthDb, codes: seq<string>) returns (ids: map<string, int>)
    requires WellFormed(db.auth)
    modifies db
    ensures WellFormed(db.auth) && db.auth == WithPermissions(old(db.auth), codes)
    ensures forall code :: code in codes ==>
                             && code in ids && ids[code] in db.auth.permissions
                             && db.auth.permissions[ids[code]] == code
  {
    ghost var before := db.auth;
    ids := map[];
    for k := 0 to |codes|
      invariant WellFormed(db.auth) && db.auth == WithPermissions(before, codes[..k])
      invariant forall code :: code in codes[..k] ==>
                                 && code in ids && ids[code] in db.auth.permissions
                                 && db.auth.permissions[ids[code]] == code
    {
      assert codes[..k + 1][..k] == codes[..k];
      assert codes[..k + 1] == codes[..k] + [codes[k]];
      var permission := db.PermissionId(codes[k]);
      var id;
      if permission.None? {
        id := db.InsertPermission(codes[k]);
      } else {
        id := permission.value;
      }
      ids := ids[codes[k] := id];
    }
    assert codes[..|codes|] == codes;
  }

  method SeedMasterData(db: AuthDb, m: MasterData)
    requires WellFormed(db.auth) && Consistent(m)
    modifies db
    ensures WellFormed(db.auth) && db.auth == Seeded(old(db.auth), m)
  {
    var roles := SeedRoles(db, m.roles);
    ghost var withRoles := db.auth;
    var permissions := SeedPermissions(db, m.codes);
    ghost var b := db.auth;
    PermissionsAdded(withRoles, m.codes);
    for k := 0 to |m.rolePermissions|
      invariant WellFormed(db.auth)
      invariant db.auth == b.(grants := b.grants + TemplateGrants(b, m.rolePermissions[..k]))
    {
      var entry := m.rolePermissions[k];
      assert Listed(m, entry);
      var role := roles[entry.name];
      GrantMissing(db, role, entry.codes, permissions);
      OneMoreEntry(b, m.rolePermissions, k, role);
    }
    assert m.rolePermissions[..|m.rolePermissions|] == m.rolePermissions;
  }
}
