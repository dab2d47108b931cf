/** The migration that renames permissions, seeds, hands out view permissions and drops one code. */
module PermissionMigration {
  import opened AuthMasterData
  import opened AuthTables
  import opened MasterDataSeeder
  import opened Sets
  import opened Wrappers

  datatype Pair = Pair(before: string, after: string)

  const RENAMED := [
    Pair("admin:system-settings", "system-settings:write"),
    Pair("item:manage", "item:write")]

  /** A code that allows changing, and the code that allows looking. */
  const VIEW_OF := [
    Pair("system-settings:write", "system-settings:view"),
    Pair("system:manage", "system:view"),
    Pair("tenant:manage", "tenant:view")]

  const DROPPED := "permission:manage"

  // ------------------------------------------------- what the migration means

  function Renamed(codes: set<string>, pair: Pair): set<string> {
    if pair.before in codes then codes - {pair.before} + {pair.after} else codes
  }

  function RenamedBy(codes: set<string>, pairs: seq<Pair>): set<string> {
    if pairs == [] then codes
    else Renamed(RenamedBy(codes, pairs[..|pairs| - 1]), pairs[|pairs| - 1])
  }

  /** `all` are the codes that exist. */
  function WithView(codes: set<string>, pair: Pair, all: set<string>): set<string> {
    if pair.before in codes && pair.after in all then codes + {pair.after} else codes
  }

  function WithViews(codes: set<string>, pairs: seq<Pair>, all: set<string>): set<string> {
    if pairs == [] then codes
    else WithView(WithViews(codes, pairs[..|pairs| - 1], all), pairs[|pairs| - 1], all)
  }

  /** The codes that exist once the migration has seeded. */
  function SeededAll(all: set<string>, m: MasterData): set<string> {
    RenamedBy(all, RENAMED) + set code | code in m.codes
  }

  /** The codes of one role after the migration, from its codes before and its name. */
  function Upgraded(codes: set<string>, name: string, all: set<string>, m: MasterData): set<string> {
    WithViews(RenamedBy(codes, RENAMED) + TemplateCodes(m.rolePermissions, name), VIEW_OF, SeededAll(all, m))
    - {DROPPED}
  }

  lemma OldNamesAreNotNewNames()
    ensures forall i, j :: 0 <= i < |RENAMED| && 0 <= j < |RENAMED| ==> RENAMED[i].before != RENAMED[j].after
    ensures RENAMED[0].before != RENAMED[1].before
  {
  }

  /** A code is held afterwards when it was held and kept its name, or is the new name of one held. */
  lemma RenamingIsARenaming(codes: set<string>, code: string)
    ensures code in RenamedBy(codes, RENAMED) <==>
            || (code in codes && forall k :: 0 <= k < |RENAMED| ==> RENAMED[k].before != code)
            || (exists k :: 0 <= k < |RENAMED| && RENAMED[k].after == code && RENAMED[k].before in codes)
  {
    OldNamesAreNotNewNames();
    assert RENAMED[..1] == [RENAMED[0]] && RENAMED[..1][..0] == [];
    assert RenamedBy(codes, RENAMED[..1]) == Renamed(codes, RENAMED[0]);
    assert RenamedBy(codes, RENAMED) == Renamed(Renamed(codes, RENAMED[0]), RENAMED[1]);
  }

  lemma ViewsAreNotWrites()
    ensures forall i, j :: 0 <= i < |VIEW_OF| && 0 <= j < |VIEW_OF| ==> VIEW_OF[i].before != VIEW_OF[j].after
    ensures forall k :: 0 <= k < |VIEW_OF| ==> VIEW_OF[k].before != DROPPED && VIEW_OF[k].after != DROPPED
  {
  }

  /** Looking is added for exactly those who may change, where both codes exist. */
  lemma ViewsFollowWrites(codes: set<string>, all: set<string>, code: string)
    ensures code in WithViews(codes, VIEW_OF, all) <==>
            || code in codes
            || (exists k :: 0 <= k < |VIEW_OF| && VIEW_OF[k].after == code
                            && VIEW_OF[k].before in codes && code in all)
  {
    ViewsAreNotWrites();
    assert VIEW_OF[..2][..1][..0] == [] && VIEW_OF[..2][..1][0] == VIEW_OF[0] && VIEW_OF[..2][1] == VIEW_OF[1];
    var one := WithView(codes, VIEW_OF[0], all);
    assert WithViews(codes, VIEW_OF[..2][..1], all) == one;
    var two := WithView(one, VIEW_OF[1], all);
    assert WithViews(codes, VIEW_OF[..2], all) == two;
    assert WithViews(codes, VIEW_OF, all) == WithView(two, VIEW_OF[2], all);
  }

  /** No role loses anything but the dropped code, whoever may change may look, and no role gains
      more than its template and the views of what it may change. */
  lemma NobodyLosesAnything(codes: set<string>, name: string, all: set<string>, m: MasterData)
    ensures var after := Upgraded(codes, name, all, m);
            && RenamedBy(codes, RENAMED) - {DROPPED} <= after
            && DROPPED !in after
            && (forall k :: 0 <= k < |VIEW_OF| && VIEW_OF[k].before in after && VIEW_OF[k].after in SeededAll(all, m)
                            ==> VIEW_OF[k].after in after)
            && (forall code :: code in after ==>
                                 || code in RenamedBy(codes, RENAMED)
                                 || code in TemplateCodes(m.rolePermissions, name)
                                 || exists k :: 0 <= k < |VIEW_OF| && VIEW_OF[k].after == code
                                                && VIEW_OF[k].before in after)
  {
    ViewsAreNotWrites();
    var held := RenamedBy(codes, RENAMED) + TemplateCodes(m.rolePermissions, name);
    forall code ensures code in WithViews(held, VIEW_OF, SeededAll(all, m)) <==>
                        || code in held
                        || (exists k :: 0 <= k < |VIEW_OF| && VIEW_OF[k].after == code
                                        && VIEW_OF[k].before in held && code in SeededAll(all, m))
    {
      ViewsFollowWrites(held, SeededAll(all, m), code);
    }
  }

  /** What a role holds after renaming and seeding, name by name. */
  predicate HeldOnceRenamed(codes: set<string>, template: set<string>, code: string) {
    || code in template
    || (code in codes && code != "admin:system-settings" && code != "item:manage")
    || (code == "system-settings:write" && "admin:system-settings" in codes)
    || (code == "item:write" && "item:manage" in codes)
  }

  /** The codes of a role after the migration, name by name. */
  lemma UpgradedInFull(codes: set<string>, name: string, all: set<string>, m: MasterData, code: string)
    ensures var template := TemplateCodes(m.rolePermissions, name);
            code in Upgraded(codes, name, all, m) <==>
            && code != "permission:manage"
            && (|| HeldOnceRenamed(codes, template, code)
                || (&& code in SeededAll(all, m)
                    && (|| (code == "system-settings:view" && HeldOnceRenamed(codes, template, "system-settings:write"))
                        || (code == "system:view" && HeldOnceRenamed(codes, template, "system:manage"))
                        || (code == "tenant:view" && HeldOnceRenamed(codes, template, "tenant:manage")))))
  {
    var template := TemplateCodes(m.rolePermissions, name);
    var held := RenamedBy(codes, RENAMED) + template;
    ViewsFollowWrites(held, SeededAll(all, m), code);
    forall c ensures c in held <==> HeldOnceRenamed(codes, template, c) {
      RenamedInFull(codes, c);
    }
    assert VIEW_OF[0] == Pair("system-settings:write", "system-settings:view");
    assert VIEW_OF[1] == Pair("system:manage", "system:view");
    assert VIEW_OF[2] == Pair("tenant:manage", "tenant:view");
  }

  lemma RenamedInFull(codes: set<string>, code: string)
    ensures code in RenamedBy(codes, RENAMED) <==> HeldOnceRenamed(codes, {}, code)
  {
    RenamingIsARenaming(codes, code);
    assert RENAMED[0] == Pair("admin:system-settings", "system-settings:write");
    assert RENAMED[1] == Pair("item:manage", "item:write");
  }

  /** With the codes declared today every view code exists, so the condition above is always met. */
  lemma WhoeverMayChangeMayLook(codes: set<string>, name: string, all: set<string>, k: nat)
    requires k < |VIEW_OF| && VIEW_OF[k].before in Upgraded(codes, name, all, MASTER_DATA)
    ensures VIEW_OF[k].after in Upgraded(codes, name, all, MASTER_DATA)
  {
    var at := [0, 2, 5];
    assert VIEW_OF[k].after == SYSTEM_PERMISSIONS[at[k]] == PERMISSION_CODES[at[k]];
    NobodyLosesAnything(codes, name, all, MASTER_DATA);
  }

  // ------------------------------------------------------- the three cases

  /** Every role, and the table of codes itself, changed by one renaming; no other row moved. */
  ghost predicate Renames(before: Auth, after: Auth, pair: Pair) {
    && WellFormed(after) && after.roles == before.roles
    && (forall role :: CodesOf(after, role) == Renamed(CodesOf(before, role), pair))
    && AllCodes(after) == Renamed(AllCodes(before), pair)
    && (forall p :: p in after.permissions ==> p in before.permissions)
    && (forall p :: p in before.permissions && before.permissions[p] != pair.before ==>
                      p in after.permissions && after.permissions[p] == before.permissions[p])
  }

  lemma NothingToRename(a: Auth, pair: Pair)
    requires WellFormed(a) && !Has(a.permissions, pair.before)
    ensures Renames(a, a, pair)
  {
  }

  lemma RenamedInPlace(a: Auth, p: int, pair: Pair)
    requires WellFormed(a) && p in a.permissions && a.permissions[p] == pair.before
    requires !Has(a.permissions, pair.after) && pair.before != pair.after
    requires WellFormed(a.(permissions := a.permissions[p := pair.after]))
    ensures Renames(a, a.(permissions := a.permissions[p := pair.after]), pair)
  {
    var b := a.(permissions := a.permissions[p := pair.after]);
    forall role ensures CodesOf(b, role) == Renamed(CodesOf(a, role), pair) {
      CodesOfRenamedRow(a, b, role, p, pair);
    }
    assert p in b.permissions;
    forall q | q in a.permissions ensures q == p || a.permissions[q] in AllCodes(b) - {pair.after} {
      assert q in b.permissions;
    }
  }

  lemma CodesOfRenamedRow(a: Auth, b: Auth, role: int, p: int, pair: Pair)
    requires WellFormed(a) && p in a.permissions && a.permissions[p] == pair.before
    requires !Has(a.permissions, pair.after) && pair.before != pair.after
    requires b == a.(permissions := a.permissions[p := pair.after])
    ensures CodesOf(b, role) == Renamed(CodesOf(a, role), pair)
  {
  }

  /** The grants of p moved to q, without a pair that q already had. */
  function Moved(a: Auth, p: int, q: int): Auth {
    a.(grants := (set g | g in a.grants && g.1 != p)
                 + (set role | role in RoleHolders(a, p) - RoleHolders(a, q) :: (role, q)),
       permissions := a.permissions - {p})
  }

  lemma MovingIsRenaming(a: Auth, p: int, q: int, pair: Pair)
    requires WellFormed(a) && pair.before != pair.after
    requires p in a.permissions && a.permissions[p] == pair.before
    requires q in a.permissions && a.permissions[q] == pair.after
    ensures Renames(a, Moved(a, p, q), pair)
  {
    var b := Moved(a, p, q);
    forall role ensures CodesOf(b, role) == Renamed(CodesOf(a, role), pair) {
      CodesOfMoved(a, role, p, q, pair);
    }
    forall r | r in a.permissions ensures r == p || a.permissions[r] in AllCodes(b) {
      assert r != p ==> r in b.permissions;
    }
    forall r | r in b.permissions ensures b.permissions[r] in AllCodes(a) - {pair.before} {
      assert r in a.permissions;
    }
  }

  lemma CodesOfMoved(a: Auth, role: int, p: int, q: int, pair: Pair)
    requires WellFormed(a) && pair.before != pair.after
    requires p in a.permissions && a.permissions[p] == pair.before
    requires q in a.permissions && a.permissions[q] == pair.after
    ensures CodesOf(Moved(a, p, q), role) == Renamed(CodesOf(a, role), pair)
  {
  }

  /** Inserts one grant per role; the rows must not exist yet. */
  method Grant(db: AuthDb, roles: set<int>, permission: int)
    requires WellFormed(db.auth) && permission in db.auth.permissions
    requires roles <= db.auth.roles.Keys
    requires forall role :: role in roles ==> (role, permission) !in db.auth.grants
    modifies db
    ensures WellFormed(db.auth)
    ensures db.auth == old(db.auth).(grants := old(db.auth).grants + (set role | role in roles :: (role, permission)))
  {
    ghost var before := db.auth;
    var rest := roles;
    while rest != {}
      invariant rest <= roles && WellFormed(db.auth)
      invariant db.auth == before.(grants := before.grants + set role | role in roles - rest :: (role, permission))
      decreases rest
    {
      ghost var some := SomeMember(rest);
      var role :| role in rest;
      db.InsertGrant(role, permission);
      rest := rest - {role};
    }
  }

  /** Removes a permission and its grants, the grants first. */
  method Drop(db: AuthDb, permission: int)
    requires WellFormed(db.auth) && permission in db.auth.permissions
    modifies db
    ensures WellFormed(db.auth)
    ensures db.auth == old(db.auth).(
                    grants := (set g | g in old(db.auth).grants && g.1 != permission),
                    permissions := old(db.auth).permissions - {permission})
  {
    db.DeleteGrants(set g | g in db.auth.grants && g.1 == permission);
    db.DeletePermission(permission);
  }

  method Rename(db: AuthDb, pair: Pair)
    requires WellFormed(db.auth) && pair.before != pair.after
    modifies db
    ensures Renames(old(db.auth), db.auth, pair)
  {
    ghost var start := db.auth;
    var before := db.PermissionId(pair.before);
    if before.None? {
      NothingToRename(start, pair);
      return;
    }
    var after := db.PermissionId(pair.after);
    if after.None? {
      db.UpdateCode(before.value, pair.after);
      RenamedInPlace(start, before.value, pair);
      return;
    }
    Grant(db, RoleHolders(db.auth, before.value) - RoleHolders(db.auth, after.value), after.value);
    Drop(db, before.value);
    MovingIsRenaming(start, before.value, after.value, pair);
    assert db.auth == Moved(start, before.value, after.value);
  }

  // ----------------------------------------------------------- the migration

  ghost predicate RenamesAll(before: Auth, after: Auth, pairs: seq<Pair>) {
    && WellFormed(after) && after.roles == before.roles
    && (forall role :: CodesOf(after, role) == RenamedBy(CodesOf(before, role), pairs))
    && AllCodes(after) == RenamedBy(AllCodes(before), pairs)
  }

  lemma OneMoreRenaming(before: Auth, between: Auth, after: Auth, k: nat)
    requires k < |RENAMED| && RenamesAll(before, between, RENAMED[..k]) && Renames(between, after, RENAMED[k])
    ensures RenamesAll(before, after, RENAMED[..k + 1])
  {
  }

  method RenamePermissions(db: AuthDb)
    requires WellFormed(db.auth)
    modifies db
    ensures RenamesAll(old(db.auth), db.auth, RENAMED)
  {
    ghost var start := db.auth;
    OldNamesAreNotNewNames();
    for k := 0 to |RENAMED|
      invariant WellFormed(db.auth) && RenamesAll(start, db.auth, RENAMED[..k])
    {
      ghost var between := db.auth;
      Rename(db, RENAMED[k]);
      OneMoreRenaming(start, between, db.auth, k);
    }
    assert RENAMED[..|RENAMED|] == RENAMED;
  }

  /** Grants changed so that some roles also look where they may change. */
  ghost predicate Shows(before: Auth, after: Auth, pairs: seq<Pair>) {
    && WellFormed(after) && after == before.(grants := after.grants) && before.grants <= after.grants
    && forall role :: role in after.roles ==>
                        CodesOf(after, role) == WithViews(CodesOf(before, role), pairs, AllCodes(before))
  }

  lemma NoViewToGrant(a: Auth, pair: Pair, role: int)
    requires WellFormed(a) && (!Has(a.permissions, pair.before) || !Has(a.permissions, pair.after))
    ensures CodesOf(a, role) == WithView(CodesOf(a, role), pair, AllCodes(a))
  {
  }

  lemma ViewGranted(a: Auth, b: Auth, pair: Pair, write: int, view: int, role: int)
    requires WellFormed(a) && WellFormed(b) && role in a.roles
    requires write in a.permissions && a.permissions[write] == pair.before
    requires view in a.permissions && a.permissions[view] == pair.after
    requires b == a.(grants := a.grants + set r | r in RoleHolders(a, write) - RoleHolders(a, view) :: (r, view))
    ensures CodesOf(b, role) == WithView(CodesOf(a, role), pair, AllCodes(a))
  {
  }

  method GrantViews(db: AuthDb)
    requires WellFormed(db.auth)
    modifies db
    ensures Shows(old(db.auth), db.auth, VIEW_OF)
  {
    ghost var start := db.auth;
    for k := 0 to |VIEW_OF|
      invariant WellFormed(db.auth) && Shows(start, db.auth, VIEW_OF[..k])
    {
      ghost var between := db.auth;
      var pair := VIEW_OF[k];
      var write := db.PermissionId(pair.before);
      var view := db.PermissionId(pair.after);
      if write.Some? && view.Some? {
        Grant(db, RoleHolders(db.auth, write.value) - RoleHolders(db.auth, view.value), view.value);
        forall role | role in start.roles
          ensures CodesOf(db.auth, role) == WithView(CodesOf(between, role), pair, AllCodes(between))
        {
          ViewGranted(between, db.auth, pair, write.value, view.value, role);
        }
      } else {
        forall role ensures CodesOf(db.auth, role) == WithView(CodesOf(between, role), pair, AllCodes(between)) {
          NoViewToGrant(between, pair, role);
        }
      }
      assert VIEW_OF[..k + 1][..k] == VIEW_OF[..k];
    }
    assert VIEW_OF[..|VIEW_OF|] == VIEW_OF;
  }

  lemma CodeDropped(a: Auth, b: Auth, p: int, role: int)
    requires WellFormed(a) && p in a.permissions
    requires b == a.(grants := (set g | g in a.grants && g.1 != p), permissions := a.permissions - {p})
    ensures CodesOf(b, role) == CodesOf(a, role) - {a.permissions[p]}
    ensures AllCodes(b) == AllCodes(a) - {a.permissions[p]}
  {
    forall q | q in a.permissions && q != p
      ensures a.permissions[q] in AllCodes(b) && ((role, q) in a.grants ==> a.permissions[q] in CodesOf(b, role))
    {
      assert q in b.permissions && ((role, q) in a.grants ==> (role, q) in b.grants);
    }
  }

  method DropCode(db: AuthDb, code: string)
    requires WellFormed(db.auth)
    modifies db
    ensures WellFormed(db.auth) && db.auth.roles == old(db.auth).roles
    ensures AllCodes(db.auth) == AllCodes(old(db.auth)) - {code}
    ensures forall role :: CodesOf(db.auth, role) == CodesOf(old(db.auth), role) - {code}
  {
    ghost var before := db.auth;
    var dropped := db.PermissionId(code);
    if dropped.Some? {
      Drop(db, dropped.value);
      forall role ensures CodesOf(db.auth, role) == CodesOf(before, role) - {code} {
        CodeDropped(before, db.auth, dropped.value, role);
      }
      CodeDropped(before, db.auth, dropped.value, 0);
    }
  }

  method Upgrade(db: AuthDb, m: MasterData)
    requires WellFormed(db.auth) && Consistent(m)
    modifies db
    ensures WellFormed(db.auth)
    ensures Kept(old(db.auth).roles, db.auth.roles)
    ensures forall k :: 0 <= k < |m.roles| ==> Has(db.auth.roles, m.roles[k].name)
    ensures forall role :: role in db.auth.roles && role !in old(db.auth).roles ==>
                             exists k :: 0 <= k < |m.roles| && m.roles[k].name == db.auth.roles[role]
    ensures AllCodes(db.auth) == SeededAll(AllCodes(old(db.auth)), m) - {DROPPED}
    ensures forall role :: role in db.auth.roles ==>
                             CodesOf(db.auth, role)
                             == Upgraded(CodesOf(old(db.auth), role), db.auth.roles[role], AllCodes(old(db.auth)), m)
  {
    ghost var start := db.auth;
    RenamePermissions(db);
    ghost var renamed := db.auth;
    SeedMasterData(db, m);
    ghost var seeded := db.auth;
    SeedingKeepsWhatIsThere(renamed, m);
    SeedingAddsOnlyTheMasterData(renamed, m);
    forall role | role in seeded.roles
      ensures CodesOf(seeded, role)
              == RenamedBy(CodesOf(start, role), RENAMED) + TemplateCodes(m.rolePermissions, seeded.roles[role])
    {
      SeededCodes(renamed, m, role);
    }
    GrantViews(db);
    ghost var shown := db.auth;
    assert AllCodes(shown) == SeededAll(AllCodes(start), m);
    DropCode(db, DROPPED);
  }
}
