/** The tables of roles, permissions and grants, and the statements that change them. */
module AuthTables {
  import opened Wrappers

  /** Names of roles and codes of permissions by id, and the (role, permission) pairs granted.
      An auto-numbered row takes the next id, which lies above every id in use. */
  datatype Auth = Auth(
    roles: map<int, string>,
    permissions: map<int, string>,
    grants: set<(int, int)>,
    nextRole: int,
    nextPermission: int)

  ghost predicate Has(names: map<int, string>, name: string) {
    exists id :: id in names && names[id] == name
  }

  /** The UNIQUE constraint on roles.name and on permissions.code. */
  ghost predicate Unique(names: map<int, string>) {
    forall i, j :: i in names && j in names && names[i] == names[j] ==> i == j
  }

  ghost predicate Below(names: map<int, string>, next: int) {
    forall id :: id in names ==> id < next
  }

  ghost predicate WellFormed(a: Auth) {
    && Unique(a.roles) && Below(a.roles, a.nextRole)
    && Unique(a.permissions) && Below(a.permissions, a.nextPermission)
    && forall g :: g in a.grants ==> g.0 in a.roles && g.1 in a.permissions
  }

  /** What a role may do. */
  function CodesOf(a: Auth, role: int): set<string> {
    set p | p in a.permissions && (role, p) in a.grants :: a.permissions[p]
  }

  function AllCodes(a: Auth): set<string> {
    set p | p in a.permissions :: a.permissions[p]
  }

  /** The rows of a grown table still hold what they held. */
  ghost predicate Kept(before: map<int, string>, after: map<int, string>) {
    forall id :: id in before ==> id in after && after[id] == before[id]
  }

  function RoleHolders(a: Auth, permission: int): set<int> {
    set role | role in a.roles && (role, permission) in a.grants
  }

  lemma NewRowKeepsNamesUnique(names: map<int, string>, id: int, name: string)
    requires Unique(names) && id !in names && !Has(names, name)
    ensures Unique(names[id := name]) && Kept(names, names[id := name])
  {
  }

  /** One database connection. Each method is one statement; its precondition is what the
      primary keys, unique columns and foreign keys demand. */
  class AuthDb {
    var auth: Auth

    constructor (auth: Auth)
      requires WellFormed(auth)
      ensures this.auth == auth
    {
      this.auth := auth;
    }

    method RoleNamed(name: string) returns (id: Option<int>)
      ensures id.None? <==> !Has(auth.roles, name)
      ensures id.Some? ==> id.value in auth.roles && auth.roles[id.value] == name
    {
      if i :| i in auth.roles && auth.roles[i] == name {
        id := Some(i);
      } else {
        id := None;
      }
    }

    method PermissionId(code: string) returns (id: Option<int>)
      ensures id.None? <==> !Has(auth.permissions, code)
      ensures id.Some? ==> id.value in auth.permissions && auth.permissions[id.value] == code
    {
      if i :| i in auth.permissions && auth.permissions[i] == code {
        id := Some(i);
      } else {
        id := None;
      }
    }

    /** Without an id the row takes the next one. */
    method InsertRole(given: Option<int>, name: string) returns (id: int)
      requires WellFormed(auth) && !Has(auth.roles, name)
      requires given.Some? ==> given.value !in auth.roles
      modifies this
      ensures WellFormed(auth) && id !in old(auth).roles
      ensures id == if given.Some? then given.value else old(auth).nextRole
      ensures auth == old(auth).(
                      roles := old(auth).roles[id := name],
                      nextRole := if id < old(auth).nextRole then old(auth).nextRole else id + 1)
    {
      id := match given case Some(i) => i case None => auth.nextRole;
      NewRowKeepsNamesUnique(auth.roles, id, name);
      var next := if id < auth.nextRole then auth.nextRole else id + 1;
      auth := auth.(roles := auth.roles[id := name], nextRole := next);
    }

    method InsertPermission(code: string) returns (id: int)
      requires WellFormed(auth) && !Has(auth.permissions, code)
      modifies this
      ensures WellFormed(auth) && id == old(auth).nextPermission
      ensures auth == old(auth).(
                      permissions := old(auth).permissions[id := code],
                      nextPermission := id + 1)
    {
      id := auth.nextPermission;
      NewRowKeepsNamesUnique(auth.permissions, id, code);
      auth := auth.(permissions := auth.permissions[id := code], nextPermission := id + 1);
    }

    method InsertGrant(role: int, permission: int)
      requires WellFormed(auth) && role in auth.roles && permission in auth.permissions
      requires (role, permission) !in auth.grants
      modifies this
      ensures WellFormed(auth)
      ensures auth == old(auth).(grants := old(auth).grants + {(role, permission)})
    {
      auth := auth.(grants := auth.grants + {(role, permission)});
    }

    method UpdateCode(permission: int, code: string)
      requires WellFormed(auth) && permission in auth.permissions && !Has(auth.permissions, code)
      modifies this
      ensures WellFormed(auth)
      ensures auth == old(auth).(permissions := old(auth).permissions[permission := code])
    {
      var others := auth.permissions - {permission};
      NewRowKeepsNamesUnique(others, permission, code);
      assert auth.permissions[permission := code] == others[permission := code];
      auth := auth.(permissions := auth.permissions[permission := code]);
    }

    method DeleteGrants(rows: set<(int, int)>)
      requires WellFormed(auth)
      modifies this
      ensures WellFormed(auth) && auth == old(auth).(grants := old(auth).grants - rows)
    {
      auth := auth.(grants := auth.grants - rows);
    }

    method DeletePermission(permission: int)
      requires WellFormed(auth)
      requires forall g :: g in auth.grants ==> g.1 != permission
      modifies this
      ensures WellFormed(auth)
      ensures auth == old(auth).(permissions := old(auth).permissions - {permission})
    {
      auth := auth.(permissions := auth.permissions - {permission});
    }
  }
}
