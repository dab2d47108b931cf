/** Counting the active people of one seat who hold the whole core of administration. */
module AdministratorCensus {
  import opened Sets
  import opened Wrappers

  /** Tables are bags of rows; the query relies on no key being unique. */
  datatype User = User(id: int, active: bool)
  datatype UserTenant = UserTenant(user: int, tenant: int)
  datatype UserRole = UserRole(user: int, role: int)
  datatype RolePermission = RolePermission(role: int, permission: int)
  datatype Permission = Permission(id: int, code: string)
  datatype Tables = Tables(
    users: seq<User>,
    userTenants: seq<UserTenant>,
    userRoles: seq<UserRole>,
    rolePermissions: seq<RolePermission>,
    permissions: seq<Permission>)

  const ADMINISTRATION_CORE := {"user:manage", "role:manage"}

  // ------------------------------------------------------------ the relational operators

  /** Rows that meet a condition, duplicates and all. */
  function Where<A>(rows: seq<A>, keep: A -> bool): seq<A> {
    if rows == [] then []
    else (if keep(rows[0]) then [rows[0]] else []) + Where(rows[1..], keep)
  }

  function Select<A, B>(rows: seq<A>, make: A -> B): seq<B> {
    seq(|rows|, i requires 0 <= i < |rows| => make(rows[i]))
  }

  /** Every pairing of a left row with a right row that fits it. */
  function Join<A, B>(left: seq<A>, right: seq<B>, fits: (A, B) -> bool): seq<(A, B)> {
    if left == [] then []
    else Select(Where(right, b => fits(left[0], b)), b => (left[0], b)) + Join(left[1..], right, fits)
  }

  /** As Join, and a left row that fits nothing appears once with NULL. */
  function OuterJoin<A, B>(left: seq<A>, right: seq<B>, fits: (A, B) -> bool): seq<(A, Option<B>)> {
    if left == [] then []
    else
      var found := Where(right, b => fits(left[0], b));
      (if found == [] then [(left[0], None)] else Select(found, b => (left[0], Some(b))))
      + OuterJoin(left[1..], right, fits)
  }

  lemma {:induction false} InWhere<A>(rows: seq<A>, keep: A -> bool, a: A)
    ensures a in Where(rows, keep) <==> a in rows && keep(a)
  {
    if rows != [] {
      InWhere(rows[1..], keep, a);
    }
  }

  lemma InSelect<A, B>(rows: seq<A>, make: A -> B, b: B)
    ensures b in Select(rows, make) <==> exists a :: a in rows && make(a) == b
  {
    if b in Select(rows, make) {
      var i :| 0 <= i < |rows| && Select(rows, make)[i] == b;
      assert rows[i] in rows;
    }
    if a :| a in rows && make(a) == b {
      var i :| 0 <= i < |rows| && rows[i] == a;
      assert Select(rows, make)[i] == b;
    }
  }

  lemma {:induction false} InJoin<A, B>(left: seq<A>, right: seq<B>, fits: (A, B) -> bool, a: A, b: B)
    ensures (a, b) in Join(left, right, fits) <==> a in left && b in right && fits(a, b)
  {
    if left != [] {
      var keep, make := (y: B) => fits(left[0], y), (y: B) => (left[0], y);
      InJoin(left[1..], right, fits, a, b);
      InWhere(right, keep, b);
      InSelect(Where(right, keep), make, (a, b));
      assert Join(left, right, fits) == Select(Where(right, keep), make) + Join(left[1..], right, fits);
    }
  }

  lemma {:induction false} InOuterJoin<A, B>(left: seq<A>, right: seq<B>, fits: (A, B) -> bool, a: A, b: Option<B>)
    ensures (a, b) in OuterJoin(left, right, fits) <==>
            && a in left
            && if b.Some? then b.value in right && fits(a, b.value) else forall y :: y in right ==> !fits(a, y)
  {
    if left != [] {
      var keep, make := (y: B) => fits(left[0], y), (y: B) => (left[0], Some(y));
      var found := Where(right, keep);
      var first := if found == [] then [(left[0], None)] else Select(found, make);
      InOuterJoin(left[1..], right, fits, a, b);
      forall y ensures y in found <==> y in right && fits(left[0], y) {
        InWhere(right, keep, y);
      }
      InSelect(found, make, (a, b));
      assert OuterJoin(left, right, fits) == first + OuterJoin(left[1..], right, fits);
      if found != [] {
        assert found[0] in found;
      }
    }
  }

  // ------------------------------------------------------------------ the query

  predicate OfUser(row: UserRole, user: User) {
    user.id == row.user
  }

  predicate SeatOf(row: (UserRole, User), seat: UserTenant) {
    seat.user == row.1.id
  }

  predicate GrantedTo(row: ((UserRole, User), Option<UserTenant>), grant: RolePermission) {
    grant.role == row.0.0.role
  }

  predicate NamedBy(row: (((UserRole, User), Option<UserTenant>), RolePermission), permission: Permission) {
    permission.id == row.1.permission
  }

  /** In SQL a comparison with NULL is not true, and only IS NULL selects a missing seat. */
  predicate InTenant(seat: Option<UserTenant>, tenant: Option<int>) {
    match tenant
    case None => seat.None?
    case Some(id) => seat.Some? && seat.value.tenant == id
  }

  type Joined = ((((UserRole, User), Option<UserTenant>), RolePermission), Permission)

  function Joins(t: Tables): seq<Joined> {
    Join(
      Join(
        OuterJoin(Join(t.userRoles, t.users, OfUser), t.userTenants, SeatOf),
        t.rolePermissions, GrantedTo),
      t.permissions, NamedBy)
  }

  function CoreRows(t: Tables, tenant: Option<int>): seq<(int, string)> {
    Select(
      Where(Joins(t), (row: Joined) =>
        InTenant(row.0.0.1, tenant) && row.0.0.0.1.active && row.1.code in ADMINISTRATION_CORE),
      (row: Joined) => (row.0.0.0.0.user, row.1.code))
  }

  /** COUNT(DISTINCT code) within one group. */
  function DistinctCodes(rows: seq<(int, string)>, user: int): set<string> {
    set row | row in rows && row.0 == user :: row.1
  }

  /** GROUP BY user HAVING COUNT(DISTINCT code) = the size of the core, then count the groups. */
  function CountActiveAdministrators(t: Tables, tenant: Option<int>): nat {
    var rows := CoreRows(t, tenant);
    |set row | row in rows && |DistinctCodes(rows, row.0)| == |ADMINISTRATION_CORE| :: row.0|
  }

  // ------------------------------------------------------------- what is meant

  predicate Sits(t: Tables, user: int, tenant: Option<int>) {
    match tenant
    case None => forall seat :: seat in t.userTenants ==> seat.user != user
    case Some(id) => UserTenant(user, id) in t.userTenants
  }

  /** A code reached through any of the person's roles. */
  ghost predicate Holds(t: Tables, user: int, code: string) {
    exists role, p ::
      && UserRole(user, role) in t.userRoles
      && RolePermission(role, p) in t.rolePermissions
      && Permission(p, code) in t.permissions
  }

  ghost predicate Administers(t: Tables, user: int, tenant: Option<int>) {
    && User(user, true) in t.users
    && Sits(t, user, tenant)
    && Holds(t, user, "user:manage") && Holds(t, user, "role:manage")
  }

  ghost function Administrators(t: Tables, tenant: Option<int>): set<int> {
    set u | u in t.users && Administers(t, u.id, tenant) :: u.id
  }

  // ---------------------------------------------------------------- they agree

  lemma InJoins(t: Tables, row: Joined)
    ensures row in Joins(t) <==>
            var ((((ur, u), seat), rp), p) := row;
            && ur in t.userRoles && u in t.users && u.id == ur.user
            && (if seat.Some? then seat.value in t.userTenants && seat.value.user == u.id
                else forall s :: s in t.userTenants ==> s.user != u.id)
            && rp in t.rolePermissions && rp.role == ur.role
            && p in t.permissions && p.id == rp.permission
  {
    var j1 := Join(t.userRoles, t.users, OfUser);
    var j2 := OuterJoin(j1, t.userTenants, SeatOf);
    var j3 := Join(j2, t.rolePermissions, GrantedTo);
    InJoin(j3, t.permissions, NamedBy, row.0, row.1);
    InJoin(j2, t.rolePermissions, GrantedTo, row.0.0, row.0.1);
    InOuterJoin(j1, t.userTenants, SeatOf, row.0.0.0, row.0.0.1);
    InJoin(t.userRoles, t.users, OfUser, row.0.0.0.0, row.0.0.0.1);
  }

  lemma InCoreRows(t: Tables, tenant: Option<int>, user: int, code: string)
    ensures (user, code) in CoreRows(t, tenant) <==>
            && User(user, true) in t.users && Sits(t, user, tenant)
            && code in ADMINISTRATION_CORE && Holds(t, user, code)
  {
    var keep := (row: Joined) =>
      InTenant(row.0.0.1, tenant) && row.0.0.0.1.active && row.1.code in ADMINISTRATION_CORE;
    var make := (row: Joined) => (row.0.0.0.0.user, row.1.code);
    InSelect(Where(Joins(t), keep), make, (user, code));
    if (user, code) in CoreRows(t, tenant) {
      var row :| row in Where(Joins(t), keep) && make(row) == (user, code);
      InWhere(Joins(t), keep, row);
      InJoins(t, row);
      assert row.0.0.0.1 == User(user, true);
      assert row.0.0.0.0 == UserRole(user, row.0.1.role);
      assert row.0.1 == RolePermission(row.0.1.role, row.1.id);
      assert row.1 == Permission(row.1.id, code);
    }
    if User(user, true) in t.users && Sits(t, user, tenant) && code in ADMINISTRATION_CORE && Holds(t, user, code) {
      var role, p :|
        && UserRole(user, role) in t.userRoles
        && RolePermission(role, p) in t.rolePermissions
        && Permission(p, code) in t.permissions;
      var seat := match tenant case None => None case Some(id) => Some(UserTenant(user, id));
      var row := ((((UserRole(user, role), User(user, true)), seat), RolePermission(role, p)), Permission(p, code));
      InJoins(t, row);
      InWhere(Joins(t), keep, row);
      assert make(row) == (user, code);
    }
  }

  lemma WholeCoreExactlyWhenSizesAgree(codes: set<string>)
    requires codes <= ADMINISTRATION_CORE
    ensures |codes| == |ADMINISTRATION_CORE| <==> codes == ADMINISTRATION_CORE
  {
    if |codes| == |ADMINISTRATION_CORE| {
      SubsetOfSameSize(codes, ADMINISTRATION_CORE);
    }
  }

  lemma GroupIsCountedExactlyWhenItAdministers(t: Tables, tenant: Option<int>, user: int)
    ensures var rows := CoreRows(t, tenant);
            && DistinctCodes(rows, user) <= ADMINISTRATION_CORE
            && (|DistinctCodes(rows, user)| == |ADMINISTRATION_CORE| <==> Administers(t, user, tenant))
  {
    var rows := CoreRows(t, tenant);
    var codes := DistinctCodes(rows, user);
    forall code ensures code in codes <==> (user, code) in rows {
    }
    forall code ensures (user, code) in rows <==>
                        && User(user, true) in t.users && Sits(t, user, tenant)
                        && code in ADMINISTRATION_CORE && Holds(t, user, code)
    {
      InCoreRows(t, tenant, user, code);
    }
    WholeCoreExactlyWhenSizesAgree(codes);
    assert "user:manage" in ADMINISTRATION_CORE;
  }

  /** Whatever duplicates the tables and the joins hold, the query counts each such person once. */
  lemma CensusCountsTheAdministrators(t: Tables, tenant: Option<int>)
    ensures CountActiveAdministrators(t, tenant) == |Administrators(t, tenant)|
  {
    var rows := CoreRows(t, tenant);
    var counted := set row | row in rows && |DistinctCodes(rows, row.0)| == |ADMINISTRATION_CORE| :: row.0;
    forall row | row in rows && |DistinctCodes(rows, row.0)| == |ADMINISTRATION_CORE|
      ensures row.0 in Administrators(t, tenant)
    {
      GroupIsCountedExactlyWhenItAdministers(t, tenant, row.0);
      assert User(row.0, true) in t.users;
    }
    forall user | user in Administrators(t, tenant) ensures user in counted {
      GroupIsCountedExactlyWhenItAdministers(t, tenant, user);
      InCoreRows(t, tenant, user, "user:manage");
      assert (user, "user:manage") in rows;
    }
    assert forall user :: user in counted <==> user in Administrators(t, tenant);
    assert counted == Administrators(t, tenant);
  }
}
