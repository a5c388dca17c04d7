/**
 The queries of one permission check (internal/modules/iam/service/permission_checker.go:94-123,
 user_role_service.go:77-92, role_service.go:256-304) as separate reads, each of which may find
 other tables.
 */
module PermissionReads {
  import opened Wrappers
  import opened PermissionTree
  import opened PermissionCheck

  type Keyset = set<string>

  /** The result when all queries see the same tables. */
  function KeysOf(db: Database, user: Id): Keyset {
    Keys(AllPermissions(db, user))
  }

  // ----- one check -----

  // The tables as each query finds them. A check of n roles makes its recursive query on tree(n).
  datatype Reads = Reads(
    users: Database,
    roles: Database,
    links: nat -> Database,
    rows: nat -> Database,
    tree: nat -> Database)

  /** The rows that the loop over the roles collects, from the i-th role on. */
  function DirectRead(r: Reads, roles: seq<Id>, i: nat): PermissionTree.Table {
    if roles == [] then [] else
    PermissionsOfRole(r.rows(i).permissions, r.links(i).rolePermissions, roles[0]) + DirectRead(r, roles[1..], i + 1)
  }

  /** The collected rows and what the recursive query finds below them. */
  function WithChildren(t: PermissionTree.Table, direct: seq<Permission>): seq<Permission> {
    if direct == [] then [] else UniqueById(direct + ChildPermissions(t, direct))
  }

  function RolesRead(r: Reads, user: Id): seq<Id> {
    RolesAmong(r.roles.roles, r.users.userRoles, user)
  }

  function AllRead(r: Reads, user: Id): seq<Permission> {
    var roles := RolesRead(r, user);
    WithChildren(r.tree(|roles|).permissions, DirectRead(r, roles, 0))
  }

  // ----- which rows the queries find -----

  /** The i-th role's link to the permission and the permission's row are there when they are read. */
  predicate Finds(r: Reads, roles: seq<Id>, base: nat, i: nat, p: Permission)
    requires i < |roles|
  {
    (roles[i], p.id) in r.links(base + i).rolePermissions && p in r.rows(base + i).permissions
  }

  lemma {:induction false} DirectReadHas(r: Reads, roles: seq<Id>, base: nat, i: nat, p: Permission)
    requires i < |roles| && Finds(r, roles, base, i, p)
    ensures p in DirectRead(r, roles, base)
    decreases i
  {
    if i > 0 {
      assert Finds(r, roles[1..], base + 1, i - 1, p);
      DirectReadHas(r, roles[1..], base + 1, i - 1, p);
    }
  }

  lemma {:induction false} DirectReadOrigin(r: Reads, roles: seq<Id>, base: nat, p: Permission) returns (i: nat)
    requires p in DirectRead(r, roles, base)
    ensures i < |roles| && Finds(r, roles, base, i, p)
    decreases |roles|
  {
    i := 0;
    if !Finds(r, roles, base, 0, p) {
      i := DirectReadOrigin(r, roles[1..], base + 1, p);
      i := i + 1;
    }
  }

  lemma UniqueByIdHas(ps: seq<Permission>, p: Permission)
    requires p in ps && forall q :: q in ps && q.id == p.id ==> q == p
    ensures p in UniqueById(ps)
  {
    UniqueByIdKeeps(ps);
    assert p.id in IdsOf(UniqueById(ps));
  }

  lemma RowById(t: PermissionTree.Table, p: Permission, q: Permission)
    requires UniqueIds(t) && p in t && q in t && p.id == q.id
    ensures p == q
  {
    RowIsUnique(t, p);
    RowIsUnique(t, q);
  }

  /** Every row is the collected one of its id or a row that the recursive query finds. */
  lemma RowsOfWithChildren(t: PermissionTree.Table, direct: seq<Permission>, p: Permission)
    ensures p in WithChildren(t, direct) ==> p in direct || p in ChildPermissions(t, direct)
  {
    UniqueByIdKeeps(direct + ChildPermissions(t, direct));
  }

  /** Collected rows that are rows of the table stay, and so does what is found below them. */
  lemma RowsStay(t: PermissionTree.Table, direct: seq<Permission>, p: Permission)
    requires UniqueIds(t) && forall q :: q in direct ==> q in t
    requires p in direct || (direct != [] && p in ChildPermissions(t, direct))
    ensures p in WithChildren(t, direct)
  {
    var rows := direct + ChildPermissions(t, direct);
    forall q | q in rows && q.id == p.id ensures q == p {
      RowById(t, p, q);
    }
    UniqueByIdHas(rows, p);
  }

  /** The keys depend on the permission table and on the ids of the collected rows, not on their order or number. */
  lemma KeysByIds(t: PermissionTree.Table, a: seq<Permission>, b: seq<Permission>)
    requires UniqueIds(t) && (forall p :: p in a ==> p in t) && (forall p :: p in b ==> p in t)
    requires IdsOf(a) == IdsOf(b)
    ensures Keys(WithChildren(t, a)) == Keys(WithChildren(t, b))
  {
    RowsByIds(t, a, b);
    RowsByIds(t, b, a);
  }

  lemma RowsByIds(t: PermissionTree.Table, a: seq<Permission>, b: seq<Permission>)
    requires UniqueIds(t) && (forall p :: p in a ==> p in t) && (forall p :: p in b ==> p in t)
    requires IdsOf(a) == IdsOf(b)
    ensures forall p :: p in WithChildren(t, a) ==> p in WithChildren(t, b)
  {
    forall p | p in WithChildren(t, a) ensures p in WithChildren(t, b) {
      RowsOfWithChildren(t, a, p);
      NonEmptyIds(a, b);
      if p in a {
        assert p.id in IdsOf(b);
        var q :| q in b && q.id == p.id;
        RowById(t, p, q);
      }
      RowsStay(t, b, p);
    }
  }

  lemma NonEmptyIds(a: seq<Permission>, b: seq<Permission>)
    requires IdsOf(a) == IdsOf(b) && a != []
    ensures b != []
  {
    assert a[0] in a && a[0].id in IdsOf(a);
  }

  /** A user none of whose roles has a link, or who has no roles, has no keys. */
  lemma NothingLinked(db: Database, user: Id)
    requires forall role, id :: (user, role) in db.userRoles ==> (role, id) !in db.rolePermissions
    ensures KeysOf(db, user) == {}
  {
    var direct := DirectPermissions(db, RolesOf(db, user));
    assert forall p :: p !in direct;
    if direct != [] {
      HasMember(direct);
    }
  }

  lemma HasMember(ps: seq<Permission>)
    requires ps != []
    ensures exists p :: p in ps
  {
    assert ps[0] in ps;
  }

  // ----- queries that see the same -----

  /** The two tables are the same as far as one user's check looks at them. */
  ghost predicate SameFor(a: Database, b: Database, user: Id) {
    && a.permissions == b.permissions && a.roles == b.roles && a.rolePermissions == b.rolePermissions
    && forall role :: (user, role) in a.userRoles <==> (user, role) in b.userRoles
  }

  ghost predicate EverySame(r: Reads, db: Database, user: Id) {
    && SameFor(db, r.users, user) && SameFor(db, r.roles, user)
    && forall i :: SameFor(db, r.links(i), user) && SameFor(db, r.rows(i), user) && SameFor(db, r.tree(i), user)
  }

  lemma {:induction false} DirectAgrees(r: Reads, db: Database, roles: seq<Id>, i: nat, user: Id)
    requires EverySame(r, db, user)
    ensures DirectRead(r, roles, i) == DirectPermissions(db, roles)
    decreases |roles|
  {
    if roles != [] {
      assert SameFor(db, r.links(i), user) && SameFor(db, r.rows(i), user);
      DirectAgrees(r, db, roles[1..], i + 1, user);
    }
  }

  /** Queries that all see the same for the user give what those tables give. */
  lemma ReadsAgree(r: Reads, db: Database, user: Id)
    requires EverySame(r, db, user)
    ensures Keys(AllRead(r, user)) == KeysOf(db, user)
  {
    var roles := RolesRead(r, user);
    SameRoles(db.roles, db.userRoles, r.users.userRoles, user);
    DirectAgrees(r, db, roles, 0, user);
    assert SameFor(db, r.tree(|roles|), user);
  }
}
