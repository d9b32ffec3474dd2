/**
 Role-based access control (apps/server/src/modules/rbac/rbac.service.ts).

 hasPermission is evaluated as the database does: joins that yield NULL columns, and a WHERE clause
 in SQL's three-valued logic.
 */
module Rbac {
  import opened Common

  datatype Role = Role(id: string, name: string)

  datatype Permission = Permission(id: string, resource: string, action: string)

  datatype UserRole = UserRole(userId: string, roleId: string)

  datatype RolePermission = RolePermission(roleId: string, permissionId: string)

  datatype Tables = Tables(
    users: set<string>,
    roles: seq<Role>,
    permissions: seq<Permission>,
    userRoles: seq<UserRole>,
    rolePermissions: seq<RolePermission>)

  // ---------------------------------------------------------------------------------------------
  // SQL
  // ---------------------------------------------------------------------------------------------

  datatype Truth = True3 | False3 | Unknown3

  function Lift(b: bool): Truth {
    if b then True3 else False3
  }

  function And3(a: Truth, b: Truth): Truth {
    if a.False3? || b.False3? then False3 else if a.True3? && b.True3? then True3 else Unknown3
  }

  function Or3(a: Truth, b: Truth): Truth {
    if a.True3? || b.True3? then True3 else if a.False3? && b.False3? then False3 else Unknown3
  }

  /** Truth grows from false over unknown to true. */
  function Rank(t: Truth): nat {
    match t
    case False3 => 0
    case Unknown3 => 1
    case True3 => 2
  }

  /** AND is the least, OR the greatest of its operands. */
  lemma ConnectivesAreLeastAndGreatest(a: Truth, b: Truth)
    ensures Rank(And3(a, b)) == if Rank(a) <= Rank(b) then Rank(a) else Rank(b)
    ensures Rank(Or3(a, b)) == if Rank(a) <= Rank(b) then Rank(b) else Rank(a)
  {
  }

  /** column = value, where the column may be NULL. */
  function SqlEq(column: Option<string>, value: string): Truth {
    if column.None? then Unknown3 else Lift(column.value == value)
  }

  function Matches<A(!new), B(!new)>(a: A, right: seq<B>, on: (A, B) -> Truth): (r: seq<B>)
    ensures forall y :: y in r <==> y in right && on(a, y) == True3
  {
    if right == [] then []
    else (if on(a, right[0]) == True3 then [right[0]] else []) + Matches(a, right[1..], on)
  }

  function Pair<A(!new), B(!new)>(a: A, ys: seq<B>): (r: seq<(A, Option<B>)>)
    ensures |r| == |ys|
    ensures forall x :: x in r <==> x.0 == a && x.1.Some? && x.1.value in ys
  {
    if ys == [] then [] else [(a, Some(ys[0]))] + Pair(a, ys[1..])
  }

  /** LEFT JOIN right ON on: unmatched rows of the left side appear once, with NULLs. */
  function LeftJoin<A(!new), B(!new)>(left: seq<A>, right: seq<B>, on: (A, B) -> Truth): seq<(A, Option<B>)> {
    if left == [] then []
    else
      var ms := Matches(left[0], right, on);
      (if ms == [] then [(left[0], None)] else Pair(left[0], ms)) + LeftJoin(left[1..], right, on)
  }

  /** INNER JOIN right ON on. */
  function InnerJoin<A(!new), B(!new)>(left: seq<A>, right: seq<B>, on: (A, B) -> Truth): seq<(A, Option<B>)> {
    if left == [] then [] else Pair(left[0], Matches(left[0], right, on)) + InnerJoin(left[1..], right, on)
  }

  lemma {:induction false} LeftJoinRows<A(!new), B(!new)>(left: seq<A>, right: seq<B>, on: (A, B) -> Truth,
                                                          row: (A, Option<B>))
    ensures row in LeftJoin(left, right, on) <==>
            && row.0 in left
            && match row.1
               case Some(y) => y in right && on(row.0, y) == True3
               case None => forall y | y in right :: on(row.0, y) != True3
    decreases |left|
  {
    if left != [] {
      LeftJoinRows(left[1..], right, on, row);
      var ms := Matches(left[0], right, on);
      assert row.0 in left <==> row.0 == left[0] || row.0 in left[1..];
      if ms == [] {
        assert forall y | y in right :: on(left[0], y) != True3 by {
          assert forall y :: y !in ms;
        }
      } else {
        assert ms[0] in ms;
      }
    }
  }

  lemma {:induction false} InnerJoinRows<A(!new), B(!new)>(left: seq<A>, right: seq<B>, on: (A, B) -> Truth,
                                                           row: (A, Option<B>))
    ensures row in InnerJoin(left, right, on) <==>
            row.0 in left && row.1.Some? && row.1.value in right && on(row.0, row.1.value) == True3
    decreases |left|
  {
    if left != [] {
      InnerJoinRows(left[1..], right, on, row);
      assert row.0 in left <==> row.0 == left[0] || row.0 in left[1..];
    }
  }

  // ---------------------------------------------------------------------------------------------
  // hasPermission
  // ---------------------------------------------------------------------------------------------

  type WithRole = (UserRole, Option<Role>)
  type WithLink = (WithRole, Option<RolePermission>)
  type WithPermission = (WithLink, Option<Permission>)

  function OnRole(ur: UserRole, r: Role): Truth {
    Lift(r.id == ur.roleId)
  }

  function OnLink(row: WithRole, rp: RolePermission): Truth {
    Lift(rp.roleId == row.0.roleId)
  }

  function OnPermission(row: WithLink, p: Permission): Truth {
    SqlEq(if row.1.Some? then Some(row.1.value.permissionId) else None, p.id)
  }

  function From(t: Tables): seq<WithPermission> {
    var a: seq<WithRole> := InnerJoin(t.userRoles, t.roles, OnRole);
    var b: seq<WithLink> := LeftJoin(a, t.rolePermissions, OnLink);
    LeftJoin(b, t.permissions, OnPermission)
  }

  function Where(row: WithPermission, userId: string, resource: string, action: string): Truth {
    var ur, role, perm := row.0.0.0, row.0.0.1, row.1;
    And3(Lift(ur.userId == userId),
         Or3(SqlEq(if role.Some? then Some(role.value.name) else None, "super_admin"),
             And3(SqlEq(if perm.Some? then Some(perm.value.resource) else None, resource),
                  SqlEq(if perm.Some? then Some(perm.value.action) else None, action))))
  }

  function FirstWhere(rows: seq<WithPermission>, userId: string, resource: string,
                      action: string): Option<WithPermission> {
    if rows == [] then None
    else if Where(rows[0], userId, resource, action) == True3 then Some(rows[0])
    else FirstWhere(rows[1..], userId, resource, action)
  }

  /** hasPermission: some row of the joins satisfies the WHERE clause (LIMIT 1). */
  function HasPermission(t: Tables, userId: string, resource: string, action: string): bool {
    FirstWhere(From(t), userId, resource, action).Some?
  }

  lemma {:induction false} FirstWhereFinds(rows: seq<WithPermission>, userId: string, resource: string, action: string)
    ensures FirstWhere(rows, userId, resource, action).Some? <==>
            exists row :: row in rows && Where(row, userId, resource, action) == True3
    decreases |rows|
  {
    if rows != [] {
      FirstWhereFinds(rows[1..], userId, resource, action);
      assert forall row :: row in rows <==> row == rows[0] || row in rows[1..];
    }
  }

  ghost predicate RoleGrants(t: Tables, roleId: string, resource: string, action: string) {
    exists rp, p :: rp in t.rolePermissions && p in t.permissions && rp.roleId == roleId && p.id == rp.permissionId
                    && p.resource == resource && p.action == action
  }

  ghost predicate GrantedVia(t: Tables, userId: string, resource: string, action: string, r: Role) {
    && r in t.roles && UserRole(userId, r.id) in t.userRoles
    && (r.name == "super_admin" || RoleGrants(t, r.id, resource, action))
  }

  /** The plain meaning: the user holds super_admin, or a role linked to that permission. */
  ghost predicate Permitted(t: Tables, userId: string, resource: string, action: string) {
    exists r :: GrantedVia(t, userId, resource, action, r)
  }

  lemma FromRows(t: Tables, row: WithPermission)
    ensures row in From(t) ==>
              var ur, role, link, perm := row.0.0.0, row.0.0.1, row.0.1, row.1;
              && ur in t.userRoles && role.Some? && role.value in t.roles && role.value.id == ur.roleId
              && (link.Some? ==> link.value in t.rolePermissions && link.value.roleId == ur.roleId)
              && (perm.Some? ==> perm.value in t.permissions && link.Some? && perm.value.id == link.value.permissionId)
  {
    var a: seq<WithRole> := InnerJoin(t.userRoles, t.roles, OnRole);
    var b: seq<WithLink> := LeftJoin(a, t.rolePermissions, OnLink);
    LeftJoinRows(b, t.permissions, OnPermission, row);
    LeftJoinRows(a, t.rolePermissions, OnLink, row.0);
    InnerJoinRows(t.userRoles, t.roles, OnRole, row.0.0);
  }

  /** A held role appears in the joins, with any permission linked to it. */
  lemma RoleAppears(t: Tables, ur: UserRole, role: Role)
    requires ur in t.userRoles && role in t.roles && role.id == ur.roleId
    ensures exists link, perm :: (((ur, Some(role)), link), perm) in From(t)
    ensures forall rp, p | rp in t.rolePermissions && rp.roleId == ur.roleId
                           && p in t.permissions && p.id == rp.permissionId ::
              (((ur, Some(role)), Some(rp)), Some(p)) in From(t)
  {
    var a: seq<WithRole> := InnerJoin(t.userRoles, t.roles, OnRole);
    var b: seq<WithLink> := LeftJoin(a, t.rolePermissions, OnLink);
    InnerJoinRows(t.userRoles, t.roles, OnRole, (ur, Some(role)));
    var link := SomeMatch((ur, Some(role)), t.rolePermissions, OnLink);
    LeftJoinRows(a, t.rolePermissions, OnLink, ((ur, Some(role)), link));
    var perm := SomeMatch(((ur, Some(role)), link), t.permissions, OnPermission);
    LeftJoinRows(b, t.permissions, OnPermission, (((ur, Some(role)), link), perm));
    assert (((ur, Some(role)), link), perm) in From(t);
    forall rp, p | rp in t.rolePermissions && rp.roleId == ur.roleId && p in t.permissions && p.id == rp.permissionId
      ensures (((ur, Some(role)), Some(rp)), Some(p)) in From(t)
    {
      LeftJoinRows(a, t.rolePermissions, OnLink, ((ur, Some(role)), Some(rp)));
      LeftJoinRows(b, t.permissions, OnPermission, (((ur, Some(role)), Some(rp)), Some(p)));
    }
  }

  /** What a left join attaches to a row: some match, or NULL if there is none. */
  lemma SomeMatch<A(!new), B(!new)>(a: A, right: seq<B>, on: (A, B) -> Truth) returns (m: Option<B>)
    ensures match m
            case Some(y) => y in right && on(a, y) == True3
            case None => forall y | y in right :: on(a, y) != True3
  {
    if y :| y in right && on(a, y) == True3 {
      m := Some(y);
    } else {
      m := None;
    }
  }

  /** The query means what it should. */
  lemma HasPermissionMeansPermitted(t: Tables, userId: string, resource: string, action: string)
    ensures HasPermission(t, userId, resource, action) <==> Permitted(t, userId, resource, action)
  {
    FirstWhereFinds(From(t), userId, resource, action);
    if HasPermission(t, userId, resource, action) {
      var row :| row in From(t) && Where(row, userId, resource, action) == True3;
      FromRows(t, row);
      var ur, role, link, perm := row.0.0.0, row.0.0.1.value, row.0.1, row.1;
      assert ur == UserRole(userId, role.id);
      if role.name != "super_admin" {
        assert link.value in t.rolePermissions && perm.value in t.permissions;
        assert RoleGrants(t, role.id, resource, action);
      }
      assert GrantedVia(t, userId, resource, action, role);
    }
    if Permitted(t, userId, resource, action) {
      var role :| GrantedVia(t, userId, resource, action, role);
      var ur := UserRole(userId, role.id);
      RoleAppears(t, ur, role);
      if role.name == "super_admin" {
        var link, perm :| (((ur, Some(role)), link), perm) in From(t);
        assert Where((((ur, Some(role)), link), perm), userId, resource, action) == True3;
      } else {
        var rp, p :| rp in t.rolePermissions && p in t.permissions && rp.roleId == role.id && p.id == rp.permissionId
                     && p.resource == resource && p.action == action;
        assert Where((((ur, Some(role)), Some(rp)), Some(p)), userId, resource, action) == True3;
      }
    }
  }

  // ---------------------------------------------------------------------------------------------
  // Changing the tables
  // ---------------------------------------------------------------------------------------------

  datatype RbacError = NotFound(id: string) | Conflict | ForeignKeyViolation

  ghost predicate NoDuplicates<T>(s: seq<T>) {
    forall i, j | 0 <= i < j < |s| :: s[i] != s[j]
  }

  /** Primary keys, and the foreign keys of the two link tables. */
  ghost predicate Consistent(t: Tables) {
    && (forall i, j | 0 <= i < j < |t.roles| :: t.roles[i].id != t.roles[j].id)
    && UniqueIds(t.permissions)
    && NoDuplicates(t.userRoles) && NoDuplicates(t.rolePermissions)
    && (forall ur | ur in t.userRoles :: ur.userId in t.users && HasRoleId(t.roles, ur.roleId))
    && (forall rp | rp in t.rolePermissions ::
        HasRoleId(t.roles, rp.roleId) && HasPermissionId(t.permissions, rp.permissionId))
  }

  predicate HasRoleId(roles: seq<Role>, id: string) {
    exists r :: r in roles && r.id == id
  }

  predicate HasPermissionId(permissions: seq<Permission>, id: string) {
    exists p :: p in permissions && p.id == id
  }

  function AssignRole(t: Tables, userId: string, roleId: string): (Result<(), RbacError>, Tables) {
    if !HasRoleId(t.roles, roleId) then (Failure(NotFound(roleId)), t)
    else if UserRole(userId, roleId) in t.userRoles then (Failure(Conflict), t)
    else if userId !in t.users then (Failure(ForeignKeyViolation), t)
    else (Success(()), t.(userRoles := t.userRoles + [UserRole(userId, roleId)]))
  }

  function Without(userRoles: seq<UserRole>, ur: UserRole): (r: seq<UserRole>)
    ensures forall x :: x in r <==> x in userRoles && x != ur
    ensures |r| <= |userRoles|
    ensures |r| == |userRoles| <==> ur !in userRoles
  {
    if userRoles == [] then [] else (if userRoles[0] == ur then [] else [userRoles[0]]) + Without(userRoles[1..], ur)
  }

  function RemoveRole(t: Tables, userId: string, roleId: string): (Result<(), RbacError>, Tables) {
    var rest := Without(t.userRoles, UserRole(userId, roleId));
    if |rest| == |t.userRoles| then (Failure(NotFound(userId + "+" + roleId)), t)
    else (Success(()), t.(userRoles := rest))
  }

  function WithIds(permissions: seq<Permission>, ids: seq<string>): seq<Permission> {
    if permissions == [] then []
    else (if permissions[0].id in ids then [permissions[0]] else []) + WithIds(permissions[1..], ids)
  }

  function FirstMissing(ids: seq<string>, existing: seq<Permission>): string {
    if ids == [] then "unknown"
    else if HasPermissionId(existing, ids[0]) then FirstMissing(ids[1..], existing)
    else ids[0]
  }

  function WithoutRole(links: seq<RolePermission>, roleId: string): (r: seq<RolePermission>)
    ensures forall x :: x in r <==> x in links && x.roleId != roleId
  {
    if links == [] then [] else (if links[0].roleId == roleId then [] else [links[0]]) + WithoutRole(links[1..], roleId)
  }

  function Link(roleId: string, ids: seq<string>): (r: seq<RolePermission>)
    ensures |r| == |ids| && forall i | 0 <= i < |r| :: r[i] == RolePermission(roleId, ids[i])
  {
    seq(|ids|, i requires 0 <= i < |ids| => RolePermission(roleId, ids[i]))
  }

  /** INSERT of several link rows: the primary key is checked before the foreign keys; all or nothing. */
  function InsertLinks(t: Tables, roleId: string, ids: seq<string>): (Result<(), RbacError>, Tables) {
    if (exists id :: id in ids && RolePermission(roleId, id) in t.rolePermissions)
       || (exists i, j :: 0 <= i < j < |ids| && ids[i] == ids[j])
    then (Failure(Conflict), t)
    else if ids != [] && (!HasRoleId(t.roles, roleId) || exists id :: id in ids && !HasPermissionId(t.permissions, id))
    then (Failure(ForeignKeyViolation), t)
    else (Success(()), t.(rolePermissions := t.rolePermissions + Link(roleId, ids)))
  }

  function SetRolePermissions(t: Tables, roleId: string, ids: seq<string>): (Result<(), RbacError>, Tables) {
    var existing := WithIds(t.permissions, ids);
    if |existing| != |ids| then (Failure(NotFound(FirstMissing(ids, existing))), t)
    else InsertLinks(t.(rolePermissions := WithoutRole(t.rolePermissions, roleId)), roleId, ids)
  }

  class RbacService {
    var tables: Tables

    constructor (tables: Tables)
      ensures this.tables == tables
    {
      this.tables := tables;
    }

    method Assign(userId: string, roleId: string) returns (r: Result<(), RbacError>)
      modifies this
      ensures (r, tables) == AssignRole(old(tables), userId, roleId)
    {
      if !HasRoleId(tables.roles, roleId) {
        return Failure(NotFound(roleId));
      }
      if UserRole(userId, roleId) in tables.userRoles {
        return Failure(Conflict);
      }
      if userId !in tables.users {
        return Failure(ForeignKeyViolation);
      }
      tables := tables.(userRoles := tables.userRoles + [UserRole(userId, roleId)]);
      r := Success(());
    }

    method Remove(userId: string, roleId: string) returns (r: Result<(), RbacError>)
      modifies this
      ensures (r, tables) == RemoveRole(old(tables), userId, roleId)
    {
      var before := |tables.userRoles|;
      var rest := Without(tables.userRoles, UserRole(userId, roleId));
      var deleted := before - |rest|;
      if deleted == 0 {
        return Failure(NotFound(userId + "+" + roleId));
      }
      tables := tables.(userRoles := rest);
      r := Success(());
    }

    method SetPermissions(roleId: string, ids: seq<string>) returns (r: Result<(), RbacError>)
      modifies this
      ensures (r, tables) == SetRolePermissions(old(tables), roleId, ids)
    {
      var existing := WithIds(tables.permissions, ids);
      if |existing| != |ids| {
        return Failure(NotFound(FirstMissing(ids, existing)));
      }
      tables := tables.(rolePermissions := WithoutRole(tables.rolePermissions, roleId));
      if |ids| > 0 {
        var (inserted, t) := InsertLinks(tables, roleId, ids);
        tables := t;
        return inserted;
      }
      assert tables.rolePermissions + Link(roleId, ids) == tables.rolePermissions;
      r := Success(());
    }
  }

  // ---------------------------------------------------------------------------------------------
  // The count check, by pigeonhole
  // ---------------------------------------------------------------------------------------------

  function IdsOf(permissions: seq<Permission>): set<string> {
    set p | p in permissions :: p.id
  }

  ghost predicate UniqueIds(permissions: seq<Permission>) {
    forall i, j | 0 <= i < j < |permissions| :: permissions[i].id != permissions[j].id
  }

  lemma IdsOfCons(permissions: seq<Permission>)
    requires permissions != [] && UniqueIds(permissions)
    ensures UniqueIds(permissions[1..])
    ensures IdsOf(permissions) == IdsOf(permissions[1..]) + {permissions[0].id}
    ensures permissions[0].id !in IdsOf(permissions[1..])
  {
    var rest := permissions[1..];
    assert forall j | 0 <= j < |rest| :: rest[j] == permissions[j + 1];
    assert forall q :: q in permissions <==> q == permissions[0] || q in rest;
  }

  lemma {:induction false} WithIdsCount(permissions: seq<Permission>, ids: seq<string>)
    requires UniqueIds(permissions)
    ensures |WithIds(permissions, ids)| == |IdsOf(permissions) * (set id | id in ids)|
  {
    var wanted := set id | id in ids;
    if permissions == [] {
      assert IdsOf(permissions) * wanted == {};
    } else {
      IdsOfCons(permissions);
      WithIdsCount(permissions[1..], ids);
      OneMore(IdsOf(permissions[1..]), permissions[0].id, wanted);
    }
  }

  lemma OneMore(a: set<string>, id: string, wanted: set<string>)
    requires id !in a
    ensures |(a + {id}) * wanted| == |a * wanted| + (if id in wanted then 1 else 0)
  {
    if id in wanted {
      assert (a + {id}) * wanted == a * wanted + {id};
    } else {
      assert (a + {id}) * wanted == a * wanted;
    }
  }

  /** A list is at least as long as its set, and equally long exactly when it has no duplicates. */
  lemma {:induction false} Pigeonhole(ids: seq<string>)
    ensures |set id | id in ids| <= |ids|
    ensures |set id | id in ids| == |ids| <==> NoDuplicates(ids)
    decreases |ids|
  {
    var all := set id | id in ids;
    if ids != [] {
      var n := |ids| - 1;
      var init, last := ids[..n], ids[n];
      Pigeonhole(init);
      var fewer := set id | id in init;
      assert ids == init + [last];
      if last in init {
        assert all == fewer;
        var i :| 0 <= i < n && init[i] == last;
        assert ids[i] == ids[n];
      } else {
        assert all == fewer + {last};
        assert NoDuplicates(ids) <==> NoDuplicates(init) by {
          if NoDuplicates(init) {
            forall i, j | 0 <= i < j < |ids|
              ensures ids[i] != ids[j]
            {
              assert ids[i] == init[i];
              if j < n { assert ids[j] == init[j]; }
            }
          }
          if NoDuplicates(ids) {
            assert forall i | 0 <= i < n :: init[i] == ids[i];
          }
        }
      }
    } else {
      assert all == {};
    }
  }

  ghost predicate AllExist(t: Tables, ids: seq<string>) {
    forall id | id in ids :: HasPermissionId(t.permissions, id)
  }

  /** Comparing the two lengths checks both that every id exists and that none is repeated. */
  lemma LengthCheckMeans(t: Tables, ids: seq<string>)
    requires Consistent(t)
    ensures |WithIds(t.permissions, ids)| == |ids| <==> NoDuplicates(ids) && AllExist(t, ids)
  {
    var known := IdsOf(t.permissions);
    var wanted := set id | id in ids;
    WithIdsCount(t.permissions, ids);
    Pigeonhole(ids);
    assert known * wanted <= wanted;
    SubsetSize(known * wanted, wanted);
    assert forall id :: id in known <==> HasPermissionId(t.permissions, id);
    if AllExist(t, ids) {
      assert known * wanted == wanted;
    }
    if known * wanted == wanted {
      assert forall id | id in ids :: id in wanted;
      assert AllExist(t, ids);
    }
  }

  lemma SubsetSize(a: set<string>, b: set<string>)
    requires a <= b
    ensures |a| <= |b| && (|a| == |b| <==> a == b)
  {
    assert b == a + (b - a);
    assert |b| == |a| + |b - a|;
  }

  lemma {:induction false} WithoutRoleKeepsUnique(links: seq<RolePermission>, roleId: string)
    requires NoDuplicates(links)
    ensures NoDuplicates(WithoutRole(links, roleId))
    ensures (forall x | x in links :: x.roleId != roleId) ==> WithoutRole(links, roleId) == links
  {
    if links != [] {
      var rest := links[1..];
      assert NoDuplicates(rest) && links[0] !in rest by {
        assert forall i | 0 <= i < |rest| :: rest[i] == links[i + 1];
      }
      WithoutRoleKeepsUnique(rest, roleId);
      var kept := WithoutRole(rest, roleId);
      assert links[0] !in kept;
      assert [links[0]] + rest == links;
    }
  }

  /**
   setRolePermissions succeeds exactly for a list without duplicates of existing permissions, on an
   existing role unless the list is empty; then the role's permissions are that list and no other
   role changed. Otherwise nothing changes, and the reported id is missing, or "unknown" if the
   fault is a duplicate.
   */
  lemma SetRolePermissionsExactly(t: Tables, roleId: string, ids: seq<string>)
    requires Consistent(t)
    ensures var (r, t') := SetRolePermissions(t, roleId, ids);
            && (r.Success? <==> NoDuplicates(ids) && AllExist(t, ids) && (ids == [] || HasRoleId(t.roles, roleId)))
            && (r.Failure? ==> t' == t && !r.error.Conflict?)
            && (r.Failure? && r.error.NotFound? ==>
                  (r.error.id in ids && !HasPermissionId(t.permissions, r.error.id))
                    || (r.error.id == "unknown" && AllExist(t, ids)))
            && (r.Success? ==> Consistent(t') && t'.(rolePermissions := t.rolePermissions) == t
                               && (forall id :: RolePermission(roleId, id) in t'.rolePermissions <==> id in ids)
                               && (forall x: RolePermission | x.roleId != roleId ::
                                   x in t'.rolePermissions <==> x in t.rolePermissions))
  {
    LengthCheckMeans(t, ids);
    WithoutRoleKeepsUnique(t.rolePermissions, roleId);
    ReportedIdIsMissing(t, ids, WithIds(t.permissions, ids));
    WithIdsAre(t.permissions, ids);
    var kept := t.(rolePermissions := WithoutRole(t.rolePermissions, roleId));
    if |WithIds(t.permissions, ids)| == |ids| {
      if ids != [] && !HasRoleId(t.roles, roleId) {
        assert kept == t;
      } else {
        LinksInserted(t, kept, roleId, ids);
      }
    }
  }

  lemma LinksInserted(t: Tables, kept: Tables, roleId: string, ids: seq<string>)
    requires Consistent(t) && kept == t.(rolePermissions := WithoutRole(t.rolePermissions, roleId))
    requires NoDuplicates(ids) && AllExist(t, ids) && (ids == [] || HasRoleId(t.roles, roleId))
    requires NoDuplicates(kept.rolePermissions)
    ensures var (r, t') := InsertLinks(kept, roleId, ids);
            && r.Success? && Consistent(t')
            && t' == kept.(rolePermissions := kept.rolePermissions + Link(roleId, ids))
            && (forall id :: RolePermission(roleId, id) in t'.rolePermissions <==> id in ids)
            && (forall x: RolePermission | x.roleId != roleId :: x in t'.rolePermissions <==> x in t.rolePermissions)
  {
    var new_ := Link(roleId, ids);
    forall x
      ensures x in new_ <==> x.roleId == roleId && x.permissionId in ids
    {
      if x.roleId == roleId && x.permissionId in ids {
        var i :| 0 <= i < |ids| && ids[i] == x.permissionId;
        assert new_[i] == x;
      }
    }
    var after := kept.rolePermissions + new_;
    assert NoDuplicates(after);
    assert forall x :: x in after <==> x in kept.rolePermissions || x in new_;
  }

  lemma {:induction false} WithIdsAre(permissions: seq<Permission>, ids: seq<string>)
    ensures forall p :: p in WithIds(permissions, ids) <==> p in permissions && p.id in ids
  {
    if permissions != [] {
      WithIdsAre(permissions[1..], ids);
      assert permissions == [permissions[0]] + permissions[1..];
    }
  }

  /** The id that a failed check reports. */
  lemma {:induction false} ReportedIdIsMissing(t: Tables, ids: seq<string>, existing: seq<Permission>)
    ensures (FirstMissing(ids, existing) in ids && !HasPermissionId(existing, FirstMissing(ids, existing)))
            || (FirstMissing(ids, existing) == "unknown" && forall id | id in ids :: HasPermissionId(existing, id))
  {
    if ids != [] {
      ReportedIdIsMissing(t, ids[1..], existing);
    }
  }

  // ---------------------------------------------------------------------------------------------
  // What assignments do to permissions
  // ---------------------------------------------------------------------------------------------

  lemma AssignKeepsConsistent(t: Tables, userId: string, roleId: string)
    requires Consistent(t)
    ensures Consistent(AssignRole(t, userId, roleId).1)
  {
    var (r, t') := AssignRole(t, userId, roleId);
    if r.Success? {
      assert forall ur :: ur in t'.userRoles <==> ur in t.userRoles || ur == UserRole(userId, roleId);
      assert NoDuplicates(t'.userRoles);
    }
  }

  /** Whoever holds at least the same roles, with the same links, has at least the same permissions. */
  lemma MoreRolesMorePermissions(t: Tables, t': Tables, u: string, resource: string, action: string)
    requires t'.roles == t.roles && t'.permissions == t.permissions && t'.rolePermissions == t.rolePermissions
    requires forall ur | ur in t.userRoles && ur.userId == u :: ur in t'.userRoles
    requires HasPermission(t, u, resource, action)
    ensures HasPermission(t', u, resource, action)
  {
    HasPermissionMeansPermitted(t, u, resource, action);
    HasPermissionMeansPermitted(t', u, resource, action);
    var r :| GrantedVia(t, u, resource, action, r);
    if r.name != "super_admin" {
      var rp, p :| rp in t.rolePermissions && p in t.permissions && rp.roleId == r.id && p.id == rp.permissionId
                   && p.resource == resource && p.action == action;
      assert RoleGrants(t', r.id, resource, action);
    }
    assert GrantedVia(t', u, resource, action, r);
  }

  ghost predicate SameButUserRoles(t: Tables, t': Tables) {
    t' == t.(userRoles := t'.userRoles)
  }

  /** assignRole adds the one assignment if role and user exist and it is new, and otherwise changes nothing. */
  lemma AssignRows(t: Tables, userId: string, roleId: string)
    ensures var (r, t') := AssignRole(t, userId, roleId);
            && SameButUserRoles(t, t')
            && (r.Success? <==>
                  HasRoleId(t.roles, roleId) && userId in t.users && UserRole(userId, roleId) !in t.userRoles)
            && (forall ur ::
                  ur in t'.userRoles <==> ur in t.userRoles || (r.Success? && ur == UserRole(userId, roleId)))
            && (r.Failure? ==> r.error == if !HasRoleId(t.roles, roleId) then NotFound(roleId)
                                          else if UserRole(userId, roleId) in t.userRoles then Conflict
                                          else ForeignKeyViolation)
  {
  }

  /** removeRole removes exactly the one assignment, and fails if there is none. */
  lemma RemoveRows(t: Tables, userId: string, roleId: string)
    ensures var (r, t') := RemoveRole(t, userId, roleId);
            && SameButUserRoles(t, t')
            && (r.Success? <==> UserRole(userId, roleId) in t.userRoles)
            && (forall ur :: ur in t'.userRoles <==> ur in t.userRoles && ur != UserRole(userId, roleId))
            && (r.Failure? ==> r.error == NotFound(userId + "+" + roleId))
  {
  }

  /** assignRole keeps the tables consistent, takes nobody's permission away and gives only this user one. */
  lemma AssignOnlyAdds(t: Tables, t': Tables, userId: string, roleId: string, u: string, resource: string,
                       action: string)
    requires Consistent(t) && t' == AssignRole(t, userId, roleId).1
    ensures Consistent(t')
    ensures HasPermission(t, u, resource, action) ==> HasPermission(t', u, resource, action)
    ensures u != userId && HasPermission(t', u, resource, action) ==> HasPermission(t, u, resource, action)
  {
    AssignKeepsConsistent(t, userId, roleId);
    AssignRows(t, userId, roleId);
    if HasPermission(t, u, resource, action) {
      MoreRolesMorePermissions(t, t', u, resource, action);
    } else if u != userId && HasPermission(t', u, resource, action) {
      MoreRolesMorePermissions(t', t, u, resource, action);
    }
  }

  /** removeRole keeps the tables consistent, gives nobody a permission and takes only this user's. */
  lemma RemoveOnlyRemoves(t: Tables, t': Tables, userId: string, roleId: string, u: string, resource: string,
                          action: string)
    requires Consistent(t) && t' == RemoveRole(t, userId, roleId).1
    ensures Consistent(t')
    ensures HasPermission(t', u, resource, action) ==> HasPermission(t, u, resource, action)
    ensures u != userId && HasPermission(t, u, resource, action) ==> HasPermission(t', u, resource, action)
  {
    WithoutKeepsUnique(t.userRoles, UserRole(userId, roleId));
    RemoveRows(t, userId, roleId);
    if HasPermission(t', u, resource, action) {
      MoreRolesMorePermissions(t', t, u, resource, action);
    } else if u != userId && HasPermission(t, u, resource, action) {
      MoreRolesMorePermissions(t, t', u, resource, action);
    }
  }

  ghost predicate Holds(t: Tables, u: string, roleId: string) {
    UserRole(u, roleId) in t.userRoles
  }

  /** Replacing a role's permissions changes nothing for users who do not hold the role. */
  lemma SetRolePermissionsSparesOthers(t: Tables, roleId: string, ids: seq<string>, u: string, resource: string,
                                       action: string)
    requires Consistent(t) && !Holds(t, u, roleId)
    ensures HasPermission(SetRolePermissions(t, roleId, ids).1, u, resource, action)
      <==> HasPermission(t, u, resource, action)
  {
    var (r, t') := SetRolePermissions(t, roleId, ids);
    SetRolePermissionsExactly(t, roleId, ids);
    HasPermissionMeansPermitted(t, u, resource, action);
    HasPermissionMeansPermitted(t', u, resource, action);
    if r.Success? {
      forall role: Role | role.id != roleId
        ensures RoleGrants(t', role.id, resource, action) <==> RoleGrants(t, role.id, resource, action)
      {
        assert forall x: RolePermission | x.roleId == role.id :: x in t'.rolePermissions <==> x in t.rolePermissions;
      }
      assert forall role :: GrantedVia(t, u, resource, action, role) <==> GrantedVia(t', u, resource, action, role);
    }
  }

  /** For a user whose one role it is, other than super_admin, the list decides every permission. */
  lemma SetRolePermissionsDecides(t: Tables, roleId: string, ids: seq<string>, u: string, resource: string,
                                  action: string)
    requires Consistent(t) && SetRolePermissions(t, roleId, ids).0.Success?
    requires Holds(t, u, roleId) && forall ur | ur in t.userRoles && ur.userId == u :: ur.roleId == roleId
    requires forall role | role in t.roles && role.id == roleId :: role.name != "super_admin"
    ensures HasPermission(SetRolePermissions(t, roleId, ids).1, u, resource, action) <==>
            exists p :: p in t.permissions && p.id in ids && p.resource == resource && p.action == action
  {
    var t' := SetRolePermissions(t, roleId, ids).1;
    SetRolePermissionsExactly(t, roleId, ids);
    HasPermissionMeansPermitted(t', u, resource, action);
    if p :| p in t.permissions && p.id in ids && p.resource == resource && p.action == action {
      assert HasRoleId(t.roles, UserRole(u, roleId).roleId);
      var role :| role in t.roles && role.id == roleId;
      assert RolePermission(roleId, p.id) in t'.rolePermissions;
      assert RoleGrants(t', roleId, resource, action);
      assert GrantedVia(t', u, resource, action, role);
    }
    if Permitted(t', u, resource, action) {
      var role :| GrantedVia(t', u, resource, action, role);
      assert role.id == roleId;
      var rp, p :| rp in t'.rolePermissions && p in t'.permissions && rp.roleId == role.id && p.id == rp.permissionId
                   && p.resource == resource && p.action == action;
      assert rp == RolePermission(roleId, p.id);
    }
  }

  lemma {:induction false} WithoutKeepsUnique(userRoles: seq<UserRole>, ur: UserRole)
    requires NoDuplicates(userRoles)
    ensures NoDuplicates(Without(userRoles, ur))
  {
    if userRoles != [] {
      assert forall i, j | 0 <= i < j < |userRoles[1..]| ::
        userRoles[1..][i] == userRoles[i + 1] && userRoles[1..][j] == userRoles[j + 1];
      WithoutKeepsUnique(userRoles[1..], ur);
      assert userRoles[0] !in userRoles[1..];
    }
  }
}
