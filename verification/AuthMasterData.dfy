/** The roles, permissions and grants the application declares. */
module AuthMasterData {
  import opened AuthTables
  import opened MasterDataSeeder

  const ROLES := [
    TemplateRole(1, "owner"), TemplateRole(2, "manager"), TemplateRole(3, "member"),
    TemplateRole(4, "guest"), TemplateRole(5, "system-admin"), TemplateRole(6, "user-admin"),
    TemplateRole(7, "auditor"), TemplateRole(8, "system-support"), TemplateRole(9, "content-admin")]

  const SYSTEM_PERMISSIONS := [
    "system-settings:view", "system-settings:write", "system:view", "system:manage",
    "log:view", "tenant:view", "tenant:manage"]

  const TENANT_PERMISSIONS := [
    "content-settings:view", "content-settings:write", "user:manage", "role:manage",
    "audit:view", "dashboard:view", "gui:view", "item:view", "item:write",
    "note:view", "note:write", "group:manage", "notification:send"]

  const PERMISSION_CODES := SYSTEM_PERMISSIONS + TENANT_PERMISSIONS

  const ROLE_PERMISSIONS := [
    RoleCodes("owner", TENANT_PERMISSIONS),
    RoleCodes("manager", ["item:view", "item:write", "note:view", "note:write", "dashboard:view", "gui:view"]),
    RoleCodes("member", ["item:view", "note:view", "dashboard:view", "gui:view"]),
    RoleCodes("guest", ["dashboard:view", "gui:view"]),
    RoleCodes("system-admin", SYSTEM_PERMISSIONS + ["audit:view", "dashboard:view", "gui:view"]),
    RoleCodes("system-support", ["system:view", "tenant:view", "dashboard:view", "gui:view"]),
    RoleCodes("user-admin",
              ["user:manage", "group:manage", "item:view", "note:view", "dashboard:view", "gui:view"]),
    RoleCodes("content-admin",
              ["content-settings:view", "content-settings:write", "item:view", "note:view",
               "dashboard:view", "gui:view"]),
    RoleCodes("auditor", ["audit:view", "content-settings:view", "dashboard:view", "gui:view"])]

  const MASTER_DATA := MasterData(ROLES, PERMISSION_CODES, ROLE_PERMISSIONS)

  /** No two of a list agree in both their length and their first letter. */
  predicate Apart(codes: seq<string>) {
    && (forall i :: 0 <= i < |codes| ==> codes[i] != "")
    && (forall i, j :: 0 <= i < j < |codes| ==> |codes[i]| != |codes[j]| || codes[i][0] != codes[j][0])
  }

  lemma ApartIsDistinct(codes: seq<string>)
    requires Apart(codes)
    ensures Distinct(codes)
  {
  }

  lemma TenantPermissionsAreApart()
    ensures Apart(TENANT_PERMISSIONS)
  {
  }

  lemma SystemAdminCodesAreApart()
    ensures Apart(ROLE_PERMISSIONS[4].codes)
  {
  }

  lemma ReaderCodesAreApart(k: nat)
    requires 1 <= k <= 3
    ensures Apart(ROLE_PERMISSIONS[k].codes)
  {
  }

  lemma ManagingCodesAreApart(k: nat)
    requires 5 <= k <= 8
    ensures Apart(ROLE_PERMISSIONS[k].codes)
  {
  }

  lemma CodesAreDistinct(k: nat)
    requires k < |ROLE_PERMISSIONS|
    ensures Distinct(ROLE_PERMISSIONS[k].codes)
  {
    if k == 0 {
      TenantPermissionsAreApart();
    } else if k == 4 {
      SystemAdminCodesAreApart();
    } else if k <= 3 {
      ReaderCodesAreApart(k);
    } else {
      ManagingCodesAreApart(k);
    }
    ApartIsDistinct(ROLE_PERMISSIONS[k].codes);
  }

  lemma EntryIsListed(k: nat)
    requires k < |ROLE_PERMISSIONS|
    ensures Listed(MASTER_DATA, ROLE_PERMISSIONS[k])
  {
    var at := [0, 1, 2, 3, 4, 7, 5, 8, 6];
    assert ROLES[at[k]].name == ROLE_PERMISSIONS[k].name;
    forall code | code in TENANT_PERMISSIONS || code in SYSTEM_PERMISSIONS ensures code in PERMISSION_CODES {
    }
  }

  lemma DeclarationsFitTogether()
    ensures Consistent(MASTER_DATA)
  {
    forall k | 0 <= k < |ROLE_PERMISSIONS|
      ensures Listed(MASTER_DATA, ROLE_PERMISSIONS[k]) && Distinct(ROLE_PERMISSIONS[k].codes)
    {
      EntryIsListed(k);
      CodesAreDistinct(k);
    }
  }

  lemma AllCodesAreApart()
    ensures Apart(SYSTEM_PERMISSIONS) && Apart(TENANT_PERMISSIONS)
    ensures forall i, j :: 0 <= i < |SYSTEM_PERMISSIONS| && 0 <= j < |TENANT_PERMISSIONS| ==>
              SYSTEM_PERMISSIONS[i] != TENANT_PERMISSIONS[j]
  {
    forall i, j | 0 <= i < |SYSTEM_PERMISSIONS| && 0 <= j < |TENANT_PERMISSIONS|
      ensures SYSTEM_PERMISSIONS[i] != TENANT_PERMISSIONS[j]
    {
      var s, t := SYSTEM_PERMISSIONS[i], TENANT_PERMISSIONS[j];
      assert |s| != |t| || s[0] != t[0];
    }
  }

  /** Authority over the whole system is declared for the two system roles only, and everything
      inside a tenant for its owner. */
  lemma SystemAuthorityStaysOutside(k: nat)
    requires k < |ROLE_PERMISSIONS|
    ensures ROLE_PERMISSIONS[k].name in ["system-admin", "system-support"]
            || forall code :: code in ROLE_PERMISSIONS[k].codes ==> code !in SYSTEM_PERMISSIONS
    ensures ROLE_PERMISSIONS[k].name == "owner" ==>
              forall code :: code in PERMISSION_CODES && code !in SYSTEM_PERMISSIONS ==> code in ROLE_PERMISSIONS[k].codes
  {
    AllCodesAreApart();
    if k != 4 && k != 5 {
      forall code | code in ROLE_PERMISSIONS[k].codes ensures code !in SYSTEM_PERMISSIONS {
        assert code in TENANT_PERMISSIONS;
      }
    }
    if ROLE_PERMISSIONS[k].name == "owner" {
      OnlyTheOwner(k);
    }
  }

  lemma OnlyTheOwner(k: nat)
    requires k < |ROLE_PERMISSIONS| && ROLE_PERMISSIONS[k].name == "owner"
    ensures ROLE_PERMISSIONS[k].codes == TENANT_PERMISSIONS
  {
    assert |ROLE_PERMISSIONS[k].name| == 5;
  }

  lemma NamesAndIdsAreDistinct()
    ensures forall k :: 0 <= k < |ROLES| ==> ROLES[k].id == k + 1
    ensures forall i, j :: 0 <= i < j < |ROLES| ==> ROLES[i].name != ROLES[j].name
  {
    forall i, j | 0 <= i < j < |ROLES| ensures ROLES[i].name != ROLES[j].name {
      var s, t := ROLES[i].name, ROLES[j].name;
      assert |s| != |t| || s[0] != t[0];
    }
  }

  /** In empty tables the declared roles get the ids 1 to 9. */
  lemma EmptyTablesGetTheDeclaredIds(nextRole: int, nextPermission: int)
    ensures Placed(map[], WithRoles(Auth(map[], map[], {}, nextRole, nextPermission), ROLES).roles, ROLES)
  {
    NamesAndIdsAreDistinct();
    FreeIdsAreUsed(Auth(map[], map[], {}, nextRole, nextPermission), ROLES);
  }

  /** The owner's is the only declared role that holds the whole core of administration. */
  lemma OnlyOwnersAdminister(k: nat)
    requires k < |ROLE_PERMISSIONS|
    ensures "user:manage" in ROLE_PERMISSIONS[k].codes && "role:manage" in ROLE_PERMISSIONS[k].codes
            <==> ROLE_PERMISSIONS[k].name == "owner"
  {
    if k == 0 {
      assert TENANT_PERMISSIONS[2] == "user:manage" && TENANT_PERMISSIONS[3] == "role:manage";
    } else {
      OtherNamesAreNotOwner(k);
      forall code | code in ROLE_PERMISSIONS[k].codes ensures code != "role:manage" {
        assert |code| != 11 || code[0] != 'r';
      }
    }
  }

  lemma OtherNamesAreNotOwner(k: nat)
    requires 0 < k < |ROLE_PERMISSIONS|
    ensures ROLE_PERMISSIONS[k].name != "owner"
  {
    var name := ROLE_PERMISSIONS[k].name;
    assert |name| != 5 || name[0] != 'o';
  }
}
