/** Removing a tenant with its people, contents and own roles from all tables. */
module TenantRemoval {
  import opened Wrappers

  datatype Tenancy = TENANT | PERSONAL | GLOBAL | UNDECLARED

  datatype Table = Table(name: string, tenancy: Tenancy, hasTenantId: bool, hasUserId: bool)

  /** Table name and primary key. */
  type Key = (string, int)

  /** The columns that removal looks at, None where NULL, and the rows its foreign keys name. */
  datatype Row = Row(tenantId: Option<int>, userId: Option<int>, roleId: Option<int>, refs: set<Key>)

  type Rows = map<Key, Row>

  // ----------------------------------------------------------------- the tables

  ghost predicate Integrity(rows: Rows) {
    forall k, r :: k in rows && r in rows[k].refs ==> r in rows
  }

  /** No row that stays names a removed one: nothing is refused and nothing cascades. */
  ghost predicate Clean(rows: Rows, keys: set<Key>) {
    forall k, r :: k in rows && k !in keys && r in rows[k].refs ==> r !in keys
  }

  /** Tables not emptied by their declaration, because they carry neither column. */
  predicate NeverCleared(t: Table) {
    !(t.tenancy == TENANT && t.hasTenantId) && !(t.tenancy == PERSONAL && t.hasUserId)
  }

  predicate EmptiedByName(name: string) {
    name == "roles" || name == "role_permissions" || name == "users" || name == "tenants"
  }

  ghost predicate IsTable(schema: seq<Table>, i: int, name: string) {
    0 <= i < |schema| && schema[i].name == name
  }

  /** The tables removal empties by name carry no tenancy column, nor does the one grants name. */
  ghost predicate NamedTablesApart(schema: seq<Table>) {
    forall i :: 0 <= i < |schema| && (EmptiedByName(schema[i].name) || schema[i].name == "permissions") ==>
                  NeverCleared(schema[i])
  }

  /** Tables in dependency order: a row names only rows of tables further up. Of the tables
      emptied by name only grants name other rows. */
  ghost predicate Declared(schema: seq<Table>, rows: Rows) {
    && NamedTablesApart(schema)
    && (forall k, r, i, j :: k in rows && r in rows[k].refs && IsTable(schema, i, k.0) && IsTable(schema, j, r.0)
                             ==> j < i)
    && (forall k, r :: k in rows && r in rows[k].refs ==>
                         && (EmptiedByName(k.0) ==> k.0 == "role_permissions")
                         && (k.0 == "role_permissions" ==> r.0 == "roles" || r.0 == "permissions"))
  }

  // ------------------------------------------------------------ what is doomed

  function People(rows: Rows, tenant: int): set<int> {
    set k | k in rows && k.0 == "user_tenants" && rows[k].tenantId == Some(tenant) && rows[k].userId.Some?
      :: rows[k].userId.value
  }

  function OwnRoles(rows: Rows, tenant: int): set<int> {
    set k | k in rows && k.0 == "role_tenants" && rows[k].tenantId == Some(tenant) && rows[k].roleId.Some?
      :: rows[k].roleId.value
  }

  /** What the DELETE for one table selects. */
  function Cleared(t: Table, rows: Rows, tenant: int, people: set<int>): set<Key> {
    if t.name == "audit_log" then {}
    else if t.tenancy == TENANT && t.hasTenantId then
      set k | k in rows && k.0 == t.name && rows[k].tenantId == Some(tenant)
    else if t.tenancy == PERSONAL && t.hasUserId then
      set k | k in rows && k.0 == t.name && rows[k].userId.Some? && rows[k].userId.value in people
    else {}
  }

  function GrantsOf(rows: Rows, ownRoles: set<int>): set<Key> {
    set k | k in rows && k.0 == "role_permissions" && rows[k].roleId.Some? && rows[k].roleId.value in ownRoles
  }

  function Named(table: string, rows: Rows, ids: set<int>): set<Key> {
    set k | k in rows && k.0 == table && k.1 in ids
  }

  /** Every row of the tenant: its contents, the rows of its people, its own roles with their
      grants, its people, and itself. */
  function Doomed(schema: seq<Table>, rows: Rows, tenant: int): set<Key> {
    var people, ownRoles := People(rows, tenant), OwnRoles(rows, tenant);
    (set i, k | 0 <= i < |schema| && k in Cleared(schema[i], rows, tenant, people) :: k)
    + GrantsOf(rows, ownRoles) + Named("roles", rows, ownRoles)
    + Named("users", rows, people) + Named("tenants", rows, {tenant})
  }

  // ------------------------------------------------------------- statements in turn

  function After(rows: Rows, steps: seq<set<Key>>): Rows {
    if steps == [] then rows
    else After(rows, steps[..|steps| - 1]) - steps[|steps| - 1]
  }

  lemma {:induction false} WhatIsLeft(rows: Rows, steps: seq<set<Key>>)
    ensures forall k :: k in After(rows, steps) <==>
                          k in rows && forall i :: 0 <= i < |steps| ==> k !in steps[i]
    ensures forall k :: k in After(rows, steps) ==> After(rows, steps)[k] == rows[k]
  {
    if steps != [] {
      var most := steps[..|steps| - 1];
      WhatIsLeft(rows, most);
      assert forall i :: 0 <= i < |most| ==> most[i] == steps[i];
    }
  }

  // -------------------------------------------------- exactly when all is clean

  /** Each statement, on the tables as the ones before left them, leaves no dangling row. */
  ghost predicate RunsClean(rows: Rows, steps: seq<set<Key>>) {
    forall i :: 0 <= i < |steps| ==> Clean(After(rows, steps[..i]), steps[i])
  }

  ghost predicate InSome(steps: seq<set<Key>>, k: Key) {
    exists i :: 0 <= i < |steps| && k in steps[i]
  }

  /** A row goes in an earlier statement than the rows it names. */
  ghost predicate Ordered(rows: Rows, steps: seq<set<Key>>) {
    forall k, r, i, j ::
      k in rows && r in rows[k].refs && 0 <= i < |steps| && k in steps[i] && 0 <= j < |steps| && r in steps[j]
      ==> i < j
  }

  lemma ReferringRowsAreGone(rows: Rows, steps: seq<set<Key>>, k: Key, r: Key, i: nat)
    requires Ordered(rows, steps) && k in rows && r in rows[k].refs
    requires i < |steps| && r in steps[i] && InSome(steps, k)
    ensures k !in After(rows, steps[..i])
  {
    var j :| 0 <= j < |steps| && k in steps[j];
    WhatIsLeft(rows, steps[..i]);
    assert steps[..i][j] == steps[j];
  }

  lemma ReferringRowsGoToo(rows: Rows, steps: seq<set<Key>>, k: Key, r: Key)
    requires RunsClean(rows, steps) && k in rows && r in rows[k].refs && InSome(steps, r)
    ensures InSome(steps, k)
  {
    var i :| 0 <= i < |steps| && r in steps[i];
    assert Clean(After(rows, steps[..i]), steps[i]);
    WhatIsLeft(rows, steps[..i]);
    if k in After(rows, steps[..i]) {
      assert k in steps[i];
    } else {
      var j :| 0 <= j < i && k in steps[..i][j];
      assert k in steps[j];
    }
  }

  /** Whatever names a removed row is itself removed. */
  ghost predicate Closed(rows: Rows, doomed: set<Key>) {
    forall k, r :: k in rows && r in rows[k].refs && r in doomed ==> k in doomed
  }

  ghost predicate Removes(steps: seq<set<Key>>, doomed: set<Key>) {
    forall k :: k in doomed <==> InSome(steps, k)
  }

  lemma RemovesLeaves(rows: Rows, steps: seq<set<Key>>, doomed: set<Key>)
    requires Removes(steps, doomed)
    ensures After(rows, steps) == rows - doomed
  {
    WhatIsLeft(rows, steps);
    forall k ensures k in doomed <==> exists i :: 0 <= i < |steps| && k in steps[i] {
      assert k in doomed <==> InSome(steps, k);
    }
  }

  /** Statements in the right order go through, row by row and without a cascade, exactly when
      nothing that stays names anything that goes. */
  lemma CleanExactlyWhenClosed(rows: Rows, steps: seq<set<Key>>, doomed: set<Key>)
    requires Ordered(rows, steps) && Removes(steps, doomed)
    ensures RunsClean(rows, steps) <==> Closed(rows, doomed)
  {
    if Closed(rows, doomed) {
      forall i | 0 <= i < |steps| ensures Clean(After(rows, steps[..i]), steps[i]) {
        ClosedIsClean(rows, steps, doomed, i);
      }
    }
    if RunsClean(rows, steps) {
      forall k, r | k in rows && r in rows[k].refs && r in doomed ensures k in doomed {
        ReferringRowsGoToo(rows, steps, k, r);
      }
    }
  }

  lemma ClosedIsClean(rows: Rows, steps: seq<set<Key>>, doomed: set<Key>, i: nat)
    requires Ordered(rows, steps) && Removes(steps, doomed) && Closed(rows, doomed) && i < |steps|
    ensures Clean(After(rows, steps[..i]), steps[i])
  {
    var left := After(rows, steps[..i]);
    WhatIsLeft(rows, steps[..i]);
    forall k, r | k in left && k !in steps[i] && r in left[k].refs ensures r !in steps[i] {
      if r in steps[i] {
        assert InSome(steps, r);
        ReferringRowsAreGone(rows, steps, k, r, i);
        assert false;
      }
    }
  }

  lemma NextStep(rows: Rows, steps: seq<set<Key>>, i: nat)
    requires i < |steps| && RunsClean(rows, steps)
    ensures Clean(After(rows, steps[..i]), steps[i])
    ensures After(rows, steps[..i + 1]) == After(rows, steps[..i]) - steps[i]
    ensures forall k :: k in After(rows, steps[..i]) ==> k in rows && rows[k] == After(rows, steps[..i])[k]
  {
    assert steps[..i + 1][..i] == steps[..i];
    WhatIsLeft(rows, steps[..i]);
  }

  // ---------------------------------------------------- the statements for a tenant

  /** One set of rows for each statement, in the order the statements run. */
  function Steps(schema: seq<Table>, rows: Rows, tenant: int): seq<set<Key>> {
    var people, ownRoles := People(rows, tenant), OwnRoles(rows, tenant);
    seq(|schema|, i requires 0 <= i < |schema| => Cleared(schema[|schema| - 1 - i], rows, tenant, people))
    + [GrantsOf(rows, ownRoles), Named("roles", rows, ownRoles),
       Named("users", rows, people), Named("tenants", rows, {tenant})]
  }

  lemma StepsRemoveTheDoomed(schema: seq<Table>, rows: Rows, tenant: int)
    ensures Removes(Steps(schema, rows, tenant), Doomed(schema, rows, tenant))
  {
    forall k ensures k in Doomed(schema, rows, tenant) <==> InSome(Steps(schema, rows, tenant), k) {
      DoomedInSomeStep(schema, rows, tenant, k);
    }
  }

  lemma DoomedInSomeStep(schema: seq<Table>, rows: Rows, tenant: int, k: Key)
    ensures k in Doomed(schema, rows, tenant) <==> InSome(Steps(schema, rows, tenant), k)
  {
    var steps, n := Steps(schema, rows, tenant), |schema|;
    var people := People(rows, tenant);
    forall i | 0 <= i < n && k in Cleared(schema[i], rows, tenant, people) ensures InSome(steps, k) {
      assert k in steps[n - 1 - i];
    }
    assert steps[n] == GrantsOf(rows, OwnRoles(rows, tenant));
    assert steps[n + 1] == Named("roles", rows, OwnRoles(rows, tenant));
    assert steps[n + 2] == Named("users", rows, people);
    assert steps[n + 3] == Named("tenants", rows, {tenant});
    if i :| 0 <= i < |steps| && k in steps[i] {
      if i < n {
        assert k in Cleared(schema[n - 1 - i], rows, tenant, people);
      }
    }
  }

  /** The statement that removes a row names the table the row is in. */
  lemma StepOfATable(schema: seq<Table>, rows: Rows, tenant: int, i: nat, k: Key)
    requires i < |Steps(schema, rows, tenant)| && k in Steps(schema, rows, tenant)[i]
    ensures i < |schema| ==> IsTable(schema, |schema| - 1 - i, k.0) && !NeverCleared(schema[|schema| - 1 - i])
    ensures i == |schema| ==> k.0 == "role_permissions"
    ensures i > |schema| ==> EmptiedByName(k.0) && k.0 != "role_permissions"
  {
    var n, people := |schema|, People(rows, tenant);
    if i < n {
      assert k in Cleared(schema[n - 1 - i], rows, tenant, people);
    } else {
      var last := [GrantsOf(rows, OwnRoles(rows, tenant)), Named("roles", rows, OwnRoles(rows, tenant)),
                   Named("users", rows, people), Named("tenants", rows, {tenant})];
      assert k in last[i - n];
    }
  }

  lemma ReferringRowsGoFirst(schema: seq<Table>, rows: Rows, tenant: int)
    requires Declared(schema, rows)
    ensures Ordered(rows, Steps(schema, rows, tenant))
  {
    var steps := Steps(schema, rows, tenant);
    forall k, r, i, j |
      k in rows && r in rows[k].refs && 0 <= i < |steps| && k in steps[i] && 0 <= j < |steps| && r in steps[j]
      ensures i < j
    {
      StepOfATable(schema, rows, tenant, i, k);
      StepOfATable(schema, rows, tenant, j, r);
      var n := |schema|;
      assert i < n && j < n ==> n - 1 - j < n - 1 - i;
    }
  }

  /** A tenant can be removed exactly when nothing outside it names anything of it. */
  lemma TenantRemovalRunsCleanExactlyWhenClosed(schema: seq<Table>, rows: Rows, tenant: int)
    requires Declared(schema, rows)
    ensures RunsClean(rows, Steps(schema, rows, tenant)) <==> Closed(rows, Doomed(schema, rows, tenant))
  {
    ReferringRowsGoFirst(schema, rows, tenant);
    StepsRemoveTheDoomed(schema, rows, tenant);
    CleanExactlyWhenClosed(rows, Steps(schema, rows, tenant), Doomed(schema, rows, tenant));
  }

  // ---------------------------------------------------- the statements for people

  function PersonalRows(t: Table, rows: Rows, people: set<int>): set<Key> {
    if t.tenancy == PERSONAL && t.hasUserId then
      set k | k in rows && k.0 == t.name && rows[k].userId.Some? && rows[k].userId.value in people
    else {}
  }

  /** The people and every row that follows one of them. */
  function Leaving(schema: seq<Table>, rows: Rows, people: set<int>): set<Key> {
    (set i, k | 0 <= i < |schema| && k in PersonalRows(schema[i], rows, people) :: k)
    + Named("users", rows, people)
  }

  function PeopleSteps(schema: seq<Table>, rows: Rows, people: set<int>): seq<set<Key>> {
    seq(|schema|, i requires 0 <= i < |schema| => PersonalRows(schema[|schema| - 1 - i], rows, people))
    + [Named("users", rows, people)]
  }

  lemma PeopleStepsRemoveTheLeaving(schema: seq<Table>, rows: Rows, people: set<int>)
    ensures Removes(PeopleSteps(schema, rows, people), Leaving(schema, rows, people))
  {
    var steps, n := PeopleSteps(schema, rows, people), |schema|;
    forall k ensures k in Leaving(schema, rows, people) <==> InSome(steps, k) {
      forall i | 0 <= i < n && k in PersonalRows(schema[i], rows, people) ensures InSome(steps, k) {
        assert k in steps[n - 1 - i];
      }
      assert steps[n] == Named("users", rows, people);
      if i :| 0 <= i < |steps| && k in steps[i] {
        assert i < n ==> k in PersonalRows(schema[n - 1 - i], rows, people);
      }
    }
  }

  lemma StepOfAPersonalTable(schema: seq<Table>, rows: Rows, people: set<int>, i: nat, k: Key)
    requires i < |PeopleSteps(schema, rows, people)| && k in PeopleSteps(schema, rows, people)[i]
    ensures i < |schema| ==> IsTable(schema, |schema| - 1 - i, k.0) && !NeverCleared(schema[|schema| - 1 - i])
    ensures i == |schema| ==> k.0 == "users"
  {
    var n := |schema|;
    if i < n {
      assert k in PersonalRows(schema[n - 1 - i], rows, people);
    } else {
      assert PeopleSteps(schema, rows, people)[n] == Named("users", rows, people);
    }
  }

  lemma PeopleAreRemovedExactlyWhenClosed(schema: seq<Table>, rows: Rows, people: set<int>)
    requires Declared(schema, rows)
    ensures RunsClean(rows, PeopleSteps(schema, rows, people)) <==> Closed(rows, Leaving(schema, rows, people))
  {
    var steps, n := PeopleSteps(schema, rows, people), |schema|;
    forall k, r, i, j |
      k in rows && r in rows[k].refs && 0 <= i < |steps| && k in steps[i] && 0 <= j < |steps| && r in steps[j]
      ensures i < j
    {
      StepOfAPersonalTable(schema, rows, people, i, k);
      StepOfAPersonalTable(schema, rows, people, j, r);
      assert i < n && j < n ==> n - 1 - j < n - 1 - i;
    }
    PeopleStepsRemoveTheLeaving(schema, rows, people);
    CleanExactlyWhenClosed(rows, steps, Leaving(schema, rows, people));
  }

  // ------------------------------------------------------------- what belongs to a tenant

  ghost predicate SeatedIn(rows: Rows, user: int, tenant: int) {
    exists k :: k in rows && k.0 == "user_tenants" && rows[k].tenantId == Some(tenant) && rows[k].userId == Some(user)
  }

  ghost predicate OwnedBy(rows: Rows, role: int, tenant: int) {
    exists k :: k in rows && k.0 == "role_tenants" && rows[k].tenantId == Some(tenant) && rows[k].roleId == Some(role)
  }

  /** In the tables' own terms, without the steps that remove it. */
  ghost predicate Belongs(schema: seq<Table>, rows: Rows, k: Key, tenant: int)
    requires k in rows
  {
    || k == ("tenants", tenant)
    || (k.0 == "users" && SeatedIn(rows, k.1, tenant))
    || (k.0 == "roles" && OwnedBy(rows, k.1, tenant))
    || (k.0 == "role_permissions" && rows[k].roleId.Some? && OwnedBy(rows, rows[k].roleId.value, tenant))
    || (k.0 != "audit_log" && exists i ::
          && IsTable(schema, i, k.0)
          && (|| (schema[i].tenancy == TENANT && schema[i].hasTenantId && rows[k].tenantId == Some(tenant))
              || (schema[i].tenancy == PERSONAL && schema[i].hasUserId && rows[k].userId.Some?
                  && SeatedIn(rows, rows[k].userId.value, tenant))))
  }

  lemma PeopleAreSeated(rows: Rows, tenant: int)
    ensures forall user :: user in People(rows, tenant) <==> SeatedIn(rows, user, tenant)
    ensures forall role :: role in OwnRoles(rows, tenant) <==> OwnedBy(rows, role, tenant)
  {
  }

  lemma RowIsDoomedExactlyWhenItBelongs(schema: seq<Table>, rows: Rows, tenant: int, k: Key)
    requires k in rows
    ensures k in Doomed(schema, rows, tenant) <==> Belongs(schema, rows, k, tenant)
  {
    PeopleAreSeated(rows, tenant);
    var people := People(rows, tenant);
    forall i | 0 <= i < |schema|
      ensures k in Cleared(schema[i], rows, tenant, people) <==>
              && k.0 != "audit_log" && IsTable(schema, i, k.0)
              && (|| (schema[i].tenancy == TENANT && schema[i].hasTenantId && rows[k].tenantId == Some(tenant))
                  || (schema[i].tenancy == PERSONAL && schema[i].hasUserId && rows[k].userId.Some?
                      && SeatedIn(rows, rows[k].userId.value, tenant)))
    {
    }
  }

  lemma DoomedIsWhatBelongs(schema: seq<Table>, rows: Rows, tenant: int)
    ensures forall k :: k in rows ==> (k in Doomed(schema, rows, tenant) <==> Belongs(schema, rows, k, tenant))
  {
    forall k | k in rows ensures k in Doomed(schema, rows, tenant) <==> Belongs(schema, rows, k, tenant) {
      RowIsDoomedExactlyWhenItBelongs(schema, rows, tenant, k);
    }
  }

  ghost predicate Follows(schema: seq<Table>, rows: Rows, k: Key, people: set<int>)
    requires k in rows
  {
    || (k.0 == "users" && k.1 in people)
    || exists i ::
         && IsTable(schema, i, k.0) && schema[i].tenancy == PERSONAL && schema[i].hasUserId
         && rows[k].userId.Some? && rows[k].userId.value in people
  }

  lemma LeavingIsWhatFollows(schema: seq<Table>, rows: Rows, people: set<int>)
    ensures forall k :: k in rows ==> (k in Leaving(schema, rows, people) <==> Follows(schema, rows, k, people))
  {
    forall k | k in rows ensures k in Leaving(schema, rows, people) <==> Follows(schema, rows, k, people) {
      assert forall i :: 0 <= i < |schema| ==>
        (k in PersonalRows(schema[i], rows, people) <==>
         && IsTable(schema, i, k.0) && schema[i].tenancy == PERSONAL && schema[i].hasUserId
         && rows[k].userId.Some? && rows[k].userId.value in people);
    }
  }

  // ---------------------------------------------------------------- what stays

  ghost predicate DistinctNames(schema: seq<Table>) {
    forall i, j :: 0 <= i < |schema| && 0 <= j < |schema| && schema[i].name == schema[j].name ==> i == j
  }

  lemma AuditLogStays(schema: seq<Table>, rows: Rows, tenant: int, k: Key)
    requires k.0 == "audit_log"
    ensures k !in Doomed(schema, rows, tenant)
  {
    assert |k.0| == 9 && |"role_permissions"| == 16 && |"roles"| == 5 && |"users"| == 5 && |"tenants"| == 7;
  }

  lemma OtherContentsStay(schema: seq<Table>, rows: Rows, tenant: int, i: int, k: Key)
    requires NamedTablesApart(schema) && DistinctNames(schema)
    requires k in rows && IsTable(schema, i, k.0)
    requires schema[i].tenancy == TENANT && schema[i].hasTenantId && rows[k].tenantId != Some(tenant)
    ensures k !in Doomed(schema, rows, tenant)
  {
  }

  /** Whoever sits in another tenant, or in none, stays. */
  lemma OtherPeopleStay(schema: seq<Table>, rows: Rows, tenant: int, user: int)
    requires NamedTablesApart(schema) && user !in People(rows, tenant)
    ensures ("users", user) !in Doomed(schema, rows, tenant)
  {
    var k: Key := ("users", user);
    assert |k.0| == 5 && k.0[0] == 'u' && |"role_permissions"| == 16 && "roles"[0] == 'r' && |"tenants"| == 7;
    assert EmptiedByName(k.0);
  }

  /** So does every row that follows them. */
  lemma TheirRowsStay(schema: seq<Table>, rows: Rows, tenant: int, i: int, k: Key)
    requires NamedTablesApart(schema) && DistinctNames(schema)
    requires k in rows && IsTable(schema, i, k.0) && schema[i].tenancy == PERSONAL && schema[i].hasUserId
    requires rows[k].userId.Some? ==> rows[k].userId.value !in People(rows, tenant)
    ensures k !in Doomed(schema, rows, tenant)
  {
  }

  /** Once the tables are cleared nobody is found any more: read late, the lists would be empty
      and the people and the own roles would stay. */
  lemma ReadLateNobodyIsFound(schema: seq<Table>, rows: Rows, tenant: int, i: nat, j: nat)
    requires IsTable(schema, i, "user_tenants") && schema[i].tenancy == PERSONAL && schema[i].hasUserId
    requires IsTable(schema, j, "role_tenants") && schema[j].tenancy == TENANT && schema[j].hasTenantId
    ensures var left := After(rows, Steps(schema, rows, tenant)[..|schema|]);
            && (forall user :: user !in People(left, tenant))
            && (forall role :: role !in OwnRoles(left, tenant))
  {
    var n, steps := |schema|, Steps(schema, rows, tenant);
    var left := After(rows, steps[..n]);
    WhatIsLeft(rows, steps[..n]);
    assert |"audit_log"| == 9 && |"user_tenants"| == 12 && |"role_tenants"| == 12;
    assert steps[..n][n - 1 - i] == Cleared(schema[i], rows, tenant, People(rows, tenant));
    assert steps[..n][n - 1 - j] == Cleared(schema[j], rows, tenant, People(rows, tenant));
    assert forall k :: k in left && k.0 == "user_tenants" && left[k].userId.Some? ==> left[k].tenantId != Some(tenant);
    assert forall k :: k in left && k.0 == "role_tenants" ==> left[k].tenantId != Some(tenant);
  }

  // ------------------------------------------------------------------ the removal

  class Database {
    var rows: Rows

    constructor (rows: Rows)
      requires Integrity(rows)
      ensures this.rows == rows
    {
      this.rows := rows;
    }

    /** One DELETE; it may leave no row behind that names a removed one. */
    method Delete(keys: set<Key>)
      requires Integrity(rows) && Clean(rows, keys)
      modifies this
      ensures Integrity(rows) && rows == old(rows) - keys
    {
      rows := rows - keys;
    }

    /** A row of the table that is gone already is not selected again. */
    method Clear(t: Table, tenant: int, people: set<int>, ghost before: Rows)
      requires Integrity(rows) && Clean(rows, Cleared(t, before, tenant, people))
      requires forall k :: k in rows ==> k in before && before[k] == rows[k]
      modifies this
      ensures Integrity(rows) && rows == old(rows) - Cleared(t, before, tenant, people)
    {
      ghost var all := Cleared(t, before, tenant, people);
      assert forall k :: k in rows ==> (k in Cleared(t, rows, tenant, people) <==> k in all);
      if t.name == "audit_log" {
        return;
      }
      if t.tenancy == TENANT && t.hasTenantId {
        Delete(Cleared(t, rows, tenant, people));
      } else if t.tenancy == PERSONAL && t.hasUserId && people != {} {
        Delete(Cleared(t, rows, tenant, people));
      }
    }

    /** The tables in reverse dependency order, those that name others first. */
    method ClearTables(schema: seq<Table>, tenant: int, people: set<int>, ghost steps: seq<set<Key>>)
      requires Integrity(rows) && |steps| >= |schema| && RunsClean(rows, steps)
      requires forall i :: 0 <= i < |schema| ==>
                             steps[i] == Cleared(schema[|schema| - 1 - i], rows, tenant, people)
      modifies this
      ensures Integrity(rows) && rows == After(old(rows), steps[..|schema|])
    {
      ghost var before := rows;
      for i := 0 to |schema|
        invariant Integrity(rows) && rows == After(before, steps[..i])
      {
        NextStep(before, steps, i);
        assert steps[i] == Cleared(schema[|schema| - 1 - i], before, tenant, people);
        Clear(schema[|schema| - 1 - i], tenant, people, before);
      }
    }

    method DeleteGrantsOf(ownRoles: set<int>, ghost before: Rows)
      requires Integrity(rows) && Clean(rows, GrantsOf(before, ownRoles))
      requires forall k :: k in rows ==> k in before && before[k] == rows[k]
      modifies this
      ensures Integrity(rows) && rows == old(rows) - GrantsOf(before, ownRoles)
    {
      assert forall k :: k in rows ==> (k in GrantsOf(rows, ownRoles) <==> k in GrantsOf(before, ownRoles));
      if ownRoles != {} {
        Delete(GrantsOf(rows, ownRoles));
      }
    }

    method DeleteNamed(table: string, ids: set<int>, ghost before: Rows)
      requires Integrity(rows) && Clean(rows, Named(table, before, ids))
      requires forall k :: k in rows ==> k in before && before[k] == rows[k]
      modifies this
      ensures Integrity(rows) && rows == old(rows) - Named(table, before, ids)
    {
      assert forall k :: k in rows ==> (k in Named(table, rows, ids) <==> k in Named(table, before, ids));
      if ids != {} {
        Delete(Named(table, rows, ids));
      }
    }

    method DeleteOwnRoles(ownRoles: set<int>, ghost before: Rows, ghost steps: seq<set<Key>>, ghost n: nat)
      requires Integrity(rows) && n + 2 <= |steps| && RunsClean(before, steps) && rows == After(before, steps[..n])
      requires steps[n] == GrantsOf(before, ownRoles) && steps[n + 1] == Named("roles", before, ownRoles)
      modifies this
      ensures Integrity(rows) && rows == After(before, steps[..n + 2])
    {
      NextStep(before, steps, n);
      DeleteGrantsOf(ownRoles, before);
      NextStep(before, steps, n + 1);
      DeleteNamed("roles", ownRoles, before);
    }

    method DeletePeopleAndTenant(
      people: set<int>, tenant: int, ghost before: Rows, ghost steps: seq<set<Key>>, ghost n: nat)
      requires Integrity(rows) && n + 4 == |steps| && RunsClean(before, steps) && rows == After(before, steps[..n + 2])
      requires steps[n + 2] == Named("users", before, people) && steps[n + 3] == Named("tenants", before, {tenant})
      modifies this
      ensures Integrity(rows) && rows == After(before, steps)
    {
      NextStep(before, steps, n + 2);
      DeleteNamed("users", people, before);
      NextStep(before, steps, n + 3);
      DeleteNamed("tenants", {tenant}, before);
      assert steps[..n + 4] == steps;
    }

    method RunSteps(schema: seq<Table>, tenant: int, people: set<int>, ownRoles: set<int>, ghost steps: seq<set<Key>>)
      requires Integrity(rows) && RunsClean(rows, steps)
      requires Planned(schema, rows, tenant, people, ownRoles, steps)
      modifies this
      ensures Integrity(rows) && rows == After(old(rows), steps)
    {
      ghost var before := rows;
      ClearTables(schema, tenant, people, steps);
      DeleteOwnRoles(ownRoles, before, steps, |schema|);
      DeletePeopleAndTenant(people, tenant, before, steps, |schema|);
    }

    /** People and own roles are read before the tables that name them are emptied. */
    method RemoveTenant(schema: seq<Table>, tenant: int)
      requires Integrity(rows) && Declared(schema, rows) && Closed(rows, Doomed(schema, rows, tenant))
      modifies this
      ensures Integrity(rows)
      ensures rows == old(rows) - Doomed(schema, old(rows), tenant)
      ensures forall k :: k in rows <==> k in old(rows) && !Belongs(schema, old(rows), k, tenant)
      ensures ("tenants", tenant) !in rows
      ensures forall user :: SeatedIn(old(rows), user, tenant) ==> ("users", user) !in rows
      ensures forall role :: OwnedBy(old(rows), role, tenant) ==> ("roles", role) !in rows
    {
      var people := People(rows, tenant);
      var ownRoles := OwnRoles(rows, tenant);
      TenantPlan(schema, rows, tenant);
      DoomedIsWhatBelongs(schema, rows, tenant);
      RunSteps(schema, tenant, people, ownRoles, Steps(schema, rows, tenant));
    }

    method DeletePersonal(t: Table, people: set<int>, ghost before: Rows)
      requires Integrity(rows) && Clean(rows, PersonalRows(t, before, people))
      requires forall k :: k in rows ==> k in before && before[k] == rows[k]
      modifies this
      ensures Integrity(rows) && rows == old(rows) - PersonalRows(t, before, people)
    {
      assert forall k :: k in rows ==> (k in PersonalRows(t, rows, people) <==> k in PersonalRows(t, before, people));
      if t.tenancy == PERSONAL && t.hasUserId {
        Delete(PersonalRows(t, rows, people));
      }
    }

    method ClearPersonalTables(schema: seq<Table>, people: set<int>, ghost steps: seq<set<Key>>)
      requires Integrity(rows) && |steps| >= |schema| && RunsClean(rows, steps)
      requires forall i :: 0 <= i < |schema| ==> steps[i] == PersonalRows(schema[|schema| - 1 - i], rows, people)
      modifies this
      ensures Integrity(rows) && rows == After(old(rows), steps[..|schema|])
    {
      ghost var before := rows;
      for i := 0 to |schema|
        invariant Integrity(rows) && rows == After(before, steps[..i])
      {
        NextStep(before, steps, i);
        assert steps[i] == PersonalRows(schema[|schema| - 1 - i], before, people);
        DeletePersonal(schema[|schema| - 1 - i], people, before);
      }
    }

    /** Clears the tables that follow a user, then the users. */
    method RemovePeople(schema: seq<Table>, people: set<int>)
      requires Integrity(rows) && Declared(schema, rows) && Closed(rows, Leaving(schema, rows, people))
      modifies this
      ensures Integrity(rows)
      ensures rows == old(rows) - Leaving(schema, old(rows), people)
      ensures forall k :: k in rows <==> k in old(rows) && !Follows(schema, old(rows), k, people)
      ensures forall user :: user in people ==> ("users", user) !in rows
    {
      ghost var before, steps := rows, PeopleSteps(schema, rows, people);
      PeoplePlan(schema, rows, people);
      LeavingIsWhatFollows(schema, rows, people);
      if people == {} {
        assert Leaving(schema, rows, people) == {};
        return;
      }
      ClearPersonalTables(schema, people, steps);
      NextStep(before, steps, |schema|);
      DeleteNamed("users", people, before);
      assert steps[..|schema| + 1] == steps;
    }
  }

  /** What each statement removes, and from which table. */
  ghost predicate Planned(
    schema: seq<Table>, rows: Rows, tenant: int, people: set<int>, ownRoles: set<int>, steps: seq<set<Key>>)
  {
    var n := |schema|;
    && |steps| == n + 4
    && (forall i :: 0 <= i < n ==> steps[i] == Cleared(schema[n - 1 - i], rows, tenant, people))
    && steps[n] == GrantsOf(rows, ownRoles) && steps[n + 1] == Named("roles", rows, ownRoles)
    && steps[n + 2] == Named("users", rows, people) && steps[n + 3] == Named("tenants", rows, {tenant})
  }

  lemma TenantSteps(schema: seq<Table>, rows: Rows, tenant: int)
    ensures Planned(schema, rows, tenant, People(rows, tenant), OwnRoles(rows, tenant), Steps(schema, rows, tenant))
  {
  }

  lemma TenantPlan(schema: seq<Table>, rows: Rows, tenant: int)
    requires Declared(schema, rows) && Closed(rows, Doomed(schema, rows, tenant))
    ensures var steps := Steps(schema, rows, tenant);
            && RunsClean(rows, steps) && After(rows, steps) == rows - Doomed(schema, rows, tenant)
            && Planned(schema, rows, tenant, People(rows, tenant), OwnRoles(rows, tenant), steps)
  {
    TenantRemovalRunsCleanExactlyWhenClosed(schema, rows, tenant);
    StepsRemoveTheDoomed(schema, rows, tenant);
    RemovesLeaves(rows, Steps(schema, rows, tenant), Doomed(schema, rows, tenant));
    TenantSteps(schema, rows, tenant);
  }

  lemma PeoplePlan(schema: seq<Table>, rows: Rows, people: set<int>)
    requires Declared(schema, rows) && Closed(rows, Leaving(schema, rows, people))
    ensures var n, steps := |schema|, PeopleSteps(schema, rows, people);
            && RunsClean(rows, steps) && After(rows, steps) == rows - Leaving(schema, rows, people)
            && |steps| == n + 1
            && (forall i :: 0 <= i < n ==> steps[i] == PersonalRows(schema[n - 1 - i], rows, people))
            && steps[n] == Named("users", rows, people)
  {
    PeopleAreRemovedExactlyWhenClosed(schema, rows, people);
    PeopleStepsRemoveTheLeaving(schema, rows, people);
    RemovesLeaves(rows, PeopleSteps(schema, rows, people), Leaving(schema, rows, people));
  }
}
