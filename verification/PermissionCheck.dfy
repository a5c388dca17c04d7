/**
 The permission decision (internal/modules/iam/service/permission_checker.go:37-57, 94-150):
 user to roles to permissions to descendants to a set of "method:path" keys that is searched
 with wildcards, against a declarative relation on the tables.
 */
module PermissionCheck {
  import opened Wrappers
  import opened Strings
  import opened PermissionTree

  // Link tables are sets of pairs: their unique keys allow each pair once.
  datatype Database = Database(
    permissions: Table,
    roles: seq<Id>,
    userRoles: set<(Id, Id)>,
    rolePermissions: set<(Id, Id)>)

  /** Permission ids are unique and no permission assigned to the user's roles lies on a cycle. */
  ghost predicate ValidFor(db: Database, user: Id) {
    UniqueIds(db.permissions) && Grounded(db.permissions, IdsOf(DirectPermissions(db, RolesOf(db, user))))
  }

  // ----- the queries -----

  /** RetrieveRolesByUserID: the user's links first, then the roles that still exist. */
  function RolesOf(db: Database, user: Id): (r: seq<Id>)
    ensures forall role :: role in r <==> role in db.roles && (user, role) in db.userRoles
  {
    RolesAmong(db.roles, db.userRoles, user)
  }

  function RolesAmong(roles: seq<Id>, links: set<(Id, Id)>, user: Id): (r: seq<Id>)
    ensures forall role :: role in r <==> role in roles && (user, role) in links
  {
    if roles == [] then [] else
    (if (user, roles[0]) in links then [roles[0]] else []) + RolesAmong(roles[1..], links, user)
  }

  /** RetrievePermissionByRoleID */
  function PermissionsOfRole(t: Table, links: set<(Id, Id)>, role: Id): (r: Table)
    ensures forall p :: p in r <==> p in t && (role, p.id) in links
  {
    if t == [] then [] else
    (if (role, t[0].id) in links then [t[0]] else []) + PermissionsOfRole(t[1..], links, role)
  }

  function DirectPermissions(db: Database, roles: seq<Id>): (r: Table)
    ensures forall p :: p in r <==> p in db.permissions && exists role :: role in roles && (role, p.id) in db.rolePermissions
  {
    if roles == [] then [] else
    PermissionsOfRole(db.permissions, db.rolePermissions, roles[0]) + DirectPermissions(db, roles[1..])
  }

  /** The rows getChildPermissionsWithCTE returns for a list of parent ids. */
  function ChildPermissions(t: Table, parents: seq<Permission>): Table {
    RowsOf(t, Tree(t, IdsOf(parents), |t|))
  }

  function IdsOf(ps: seq<Permission>): (r: set<Id>)
    ensures forall id :: id in r <==> exists p :: p in ps && p.id == id
  {
    set p | p in ps :: p.id
  }

  /** The outer query: the full rows of the ids in the tree, one for each occurrence. */
  function RowsOf(t: Table, ids: seq<Id>): (r: Table)
    ensures forall p :: p in r ==> p in t && p.id in ids
    ensures forall id :: id in ids && Has(t, id) ==> RowOf(t, id) in r
  {
    if ids == [] then [] else
    (if Has(t, ids[0]) then [RowOf(t, ids[0])] else []) + RowsOf(t, ids[1..])
  }

  /** lo.UniqBy on the id: the first occurrence of each stays. */
  function UniqueById(ps: seq<Permission>): (r: seq<Permission>)
    decreases |ps|
  {
    if ps == [] then [] else
    var before := UniqueById(ps[..|ps| - 1]);
    if ps[|ps| - 1].id in IdsOf(before) then before else before + [ps[|ps| - 1]]
  }

  function AllPermissions(db: Database, user: Id): seq<Permission> {
    var direct := DirectPermissions(db, RolesOf(db, user));
    if direct == [] then [] else UniqueById(direct + ChildPermissions(db.permissions, direct))
  }

  lemma {:induction false} UniqueByIdKeeps(ps: seq<Permission>)
    ensures UniqueIds(UniqueById(ps))
    ensures IdsOf(UniqueById(ps)) == IdsOf(ps)
    ensures forall p :: p in UniqueById(ps) ==> p in ps
    decreases |ps|
  {
    if ps != [] {
      var n := |ps| - 1;
      UniqueByIdKeeps(ps[..n]);
      assert ps == ps[..n] + [ps[n]];
      assert IdsOf(ps) == IdsOf(ps[..n]) + {ps[n].id};
    }
  }

  lemma {:induction false} UniqueByIdPrefix(a: seq<Permission>, b: seq<Permission>)
    ensures UniqueById(a) <= UniqueById(a + b)
    decreases |b|
  {
    if b == [] {
      assert a + b == a;
    } else {
      UniqueByIdPrefix(a, b[..|b| - 1]);
      assert (a + b)[..|a + b| - 1] == a + b[..|b| - 1];
    }
  }

  ghost predicate Reaches(db: Database, user: Id, id: Id) {
    exists role, top ::
      && role in db.roles
      && (user, role) in db.userRoles
      && (role, top) in db.rolePermissions
      && IsAncestor(db.permissions, top, id)
  }

  lemma SelfAncestor(t: Table, id: Id)
    requires Has(t, id)
    ensures IsAncestor(t, id, id)
  {
    assert Ancestor(t, id, 0) == Some(id);
  }

  lemma DirectIds(db: Database, user: Id, top: Id)
    ensures top in IdsOf(DirectPermissions(db, RolesOf(db, user))) <==>
            Has(db.permissions, top) && exists role :: role in db.roles && (user, role) in db.userRoles && (role, top) in db.rolePermissions
  {
    if Has(db.permissions, top) {
      var i :| 0 <= i < |db.permissions| && db.permissions[i].id == top;
      assert db.permissions[i] in db.permissions;
    }
    var direct := DirectPermissions(db, RolesOf(db, user));
    if top in IdsOf(direct) {
      var p :| p in direct && p.id == top;
      var i :| 0 <= i < |db.permissions| && db.permissions[i] == p;
    }
  }

  /**
   What a user ends up with: each permission row once, the directly assigned ones first, and
   exactly the rows at or below one assigned to an existing role of the user.
   */
  lemma AllPermissionsResult(db: Database, user: Id)
    requires ValidFor(db, user)
    ensures var all := AllPermissions(db, user);
            && UniqueIds(all)
            && UniqueById(DirectPermissions(db, RolesOf(db, user))) <= all
            && forall p :: p in all <==> p in db.permissions && Reaches(db, user, p.id)
  {
    var t := db.permissions;
    var direct := DirectPermissions(db, RolesOf(db, user));
    var children := ChildPermissions(t, direct);
    var all := AllPermissions(db, user);
    UniqueByIdKeeps(direct + children);
    UniqueByIdPrefix(direct, children);
    forall p | p in all ensures p in t && Reaches(db, user, p.id) {
      assert p in direct || p in children;
      if p in direct {
        RowIsUnique(t, p);
        SelfAncestor(t, p.id);
        DirectIds(db, user, p.id);
      } else {
        QueryResult(t, IdsOf(direct), p.id);
        var top :| top in IdsOf(direct) && IsAncestor(t, top, p.id);
        DirectIds(db, user, top);
      }
    }
    forall p | p in t && Reaches(db, user, p.id) ensures p in all {
      var role, top :| role in db.roles && (user, role) in db.userRoles && (role, top) in db.rolePermissions
                       && IsAncestor(t, top, p.id);
      DirectIds(db, user, top);
      QueryResult(t, IdsOf(direct), p.id);
      RowIsUnique(t, p);
      assert p in children;
      assert p.id in IdsOf(direct + children);
      assert p.id in IdsOf(all);
      var q :| q in all && q.id == p.id;
      assert q in direct || q in children;
      RowIsUnique(t, q);
    }
  }

  // ----- the key set and its search -----

  function Key(verb: string, path: string): string {
    verb + ":" + path
  }

  function Keys(ps: seq<Permission>): (r: set<string>) {
    set p | p in ps && p.verb != "" && p.path != "" :: Key(p.verb, p.path)
  }

  /** strings.SplitN(key, ":", 2), absent when there is no colon */
  function SplitKey(key: string): Option<(string, string)> {
    var i := Index(key, ':');
    if i == |key| then None else Some((key[..i], key[i + 1..]))
  }

  /** The pattern is some base with a slash and a star after it, and the path is anything that begins with the base. */
  ghost predicate Under(pattern: string, path: string) {
    exists base, rest :: pattern == base + "/*" && path == base + rest
  }

  /** The two string tests of matchPath decide that. */
  lemma UnderIff(pattern: string, path: string)
    ensures Under(pattern, path) <==> HasSuffix(pattern, "/*") && HasPrefix(path, pattern[..|pattern| - 2])
  {
    if HasSuffix(pattern, "/*") && HasPrefix(path, pattern[..|pattern| - 2]) {
      var base := pattern[..|pattern| - 2];
      assert pattern == base + "/*" && path == base + path[|base|..];
    }
    if base, rest :| pattern == base + "/*" && path == base + rest {
      assert pattern[..|pattern| - 2] == base && base <= path;
    }
  }

  ghost predicate KeyMatches(key: string, verb: string, path: string) {
    var parts := SplitKey(key);
    && parts.Some?
    && (parts.value.0 == verb || parts.value.0 == "*")
    && Under(parts.value.1, path)
  }

  ghost predicate Searches(keys: set<string>, verb: string, path: string) {
    Key(verb, path) in keys || exists key :: key in keys && KeyMatches(key, verb, path)
  }

  /** matchPath: the map is ranged over in any order, and the order does not matter. */
  method MatchPath(keys: set<string>, verb: string, path: string) returns (found: bool)
    ensures found <==> Searches(keys, verb, path)
  {
    if Key(verb, path) in keys {
      return true;
    }
    var rest := keys;
    while rest != {}
      invariant rest <= keys
      invariant forall key :: key in keys - rest ==> !KeyMatches(key, verb, path)
      decreases |rest|
    {
      var key :| key in rest;
      rest := rest - {key};
      var parts := SplitKey(key);
      if parts.None? {
        continue;
      }
      if parts.value.0 != verb && parts.value.0 != "*" {
        continue;
      }
      UnderIff(parts.value.1, path);
      if HasSuffix(parts.value.1, "/*") {
        var prefix := parts.value.1[..|parts.value.1| - 2];
        if HasPrefix(path, prefix) {
          return true;
        }
      }
    }
    return false;
  }

  /** A key gives its method and path back exactly when the method has no colon. */
  lemma SplitKeyIff(verb: string, path: string)
    ensures SplitKey(Key(verb, path)) == Some((verb, path)) <==> ':' !in verb
  {
    var key := Key(verb, path);
    var i := Index(key, ':');
    if ':' !in verb {
      IndexOfFirst(verb, ':', path);
      assert key[..|verb|] == verb && key[|verb| + 1..] == path;
    } else {
      var j :| 0 <= j < |verb| && verb[j] == ':';
      assert key[j] == ':';
    }
  }

  ghost predicate Grants(p: Permission, verb: string, path: string) {
    && p.verb != "" && p.path != ""
    && ((p.verb == verb && p.path == path) || ((p.verb == verb || p.verb == "*") && Under(p.path, path)))
  }

  /** The declarative relation: an existing role of the user has a permission at or above a granting one. */
  ghost predicate Permitted(db: Database, user: Id, verb: string, path: string) {
    exists p :: p in db.permissions && Reaches(db, user, p.id) && Grants(p, verb, path)
  }

  /** What HasPermission answers when the cache holds nothing. */
  ghost predicate Uncached(db: Database, user: Id, verb: string, path: string) {
    Searches(Keys(AllPermissions(db, user)), verb, path)
  }

  ghost predicate ColonFreeVerbs(t: Table) {
    forall p :: p in t ==> ':' !in p.verb
  }

  lemma KeyOfGrant(p: Permission, verb: string, path: string)
    requires ':' !in p.verb && ':' !in verb && p.verb != "" && p.path != ""
    ensures Grants(p, verb, path) <==>
            Key(verb, path) == Key(p.verb, p.path) || KeyMatches(Key(p.verb, p.path), verb, path)
  {
    SplitKeyIff(p.verb, p.path);
    SplitKeyIff(verb, path);
  }

  /** The key of one stored permission is matched by the requests the permission grants. */
  ghost predicate ReadsBack(p: Permission) {
    forall verb, path: string :: ':' !in verb ==>
      (Grants(p, verb, path) <==> Key(verb, path) == Key(p.verb, p.path) || KeyMatches(Key(p.verb, p.path), verb, path))
  }

  /** A stored permission reads back right for all requests if and only if its method has no colon. */
  lemma ReadsBackIff(p: Permission)
    requires p.verb != "" && p.path != ""
    ensures ReadsBack(p) <==> ':' !in p.verb
  {
    if ':' !in p.verb {
      forall verb, path: string | ':' !in verb
        ensures Grants(p, verb, path) <==> Key(verb, path) == Key(p.verb, p.path) || KeyMatches(Key(p.verb, p.path), verb, path)
      {
        KeyOfGrant(p, verb, path);
      }
    } else {
      var i := Index(p.verb, ':');
      var j :| 0 <= j < |p.verb| && p.verb[j] == ':';
      var verb, path := p.verb[..i], p.verb[i + 1..] + ":" + p.path;
      assert Key(verb, path) == Key(p.verb, p.path);
      assert !Grants(p, verb, path);
    }
  }

  /** With colon-free methods the search of the encoded keys is the declarative relation. */
  lemma DecisionIsCorrect(db: Database, user: Id, verb: string, path: string)
    requires ValidFor(db, user) && ColonFreeVerbs(db.permissions) && ':' !in verb
    ensures Uncached(db, user, verb, path) <==> Permitted(db, user, verb, path)
  {
    AllPermissionsResult(db, user);
    var all := AllPermissions(db, user);
    if Uncached(db, user, verb, path) {
      var key :| key in Keys(all) && (key == Key(verb, path) || KeyMatches(key, verb, path));
      var p :| p in all && p.verb != "" && p.path != "" && key == Key(p.verb, p.path);
      KeyOfGrant(p, verb, path);
    }
    if p :| p in db.permissions && Reaches(db, user, p.id) && Grants(p, verb, path) {
      KeyOfGrant(p, verb, path);
      assert Key(p.verb, p.path) in Keys(all);
    }
  }

  /**
   A row at or below one of the user's that is stored with a path ending in a slash and a star
   allows every path that begins as the pattern does, for its method, and for every one when the
   method is a star.
   */
  lemma WildcardAllows(db: Database, user: Id, p: Permission, base: string, verb: string, rest: string)
    requires ValidFor(db, user) && p in db.permissions && Reaches(db, user, p.id)
    requires p.path == base + "/*" && (p.verb == verb || p.verb == "*")
    requires p.verb != "" && ':' !in p.verb && ':' !in verb
    ensures Uncached(db, user, verb, base + rest)
  {
    AllPermissionsResult(db, user);
    assert Under(p.path, base + rest);
    assert Grants(p, verb, base + rest);
    KeyOfGrant(p, verb, base + rest);
    assert Key(p.verb, p.path) in Keys(AllPermissions(db, user));
  }

  /** A row at or below one of the user's allows the request that it names. */
  lemma ExactAllows(db: Database, user: Id, p: Permission)
    requires ValidFor(db, user) && p in db.permissions && Reaches(db, user, p.id)
    requires p.verb != "" && p.path != ""
    ensures Uncached(db, user, p.verb, p.path)
  {
    AllPermissionsResult(db, user);
    assert Key(p.verb, p.path) in Keys(AllPermissions(db, user));
  }

  /** And nothing else is allowed: a row that the user reaches names the request, or a pattern of it covers the path. */
  lemma AllowedForm(db: Database, user: Id, verb: string, path: string) returns (p: Permission, base: string, rest: string)
    requires ValidFor(db, user) && ColonFreeVerbs(db.permissions) && ':' !in verb
    requires Uncached(db, user, verb, path)
    ensures p in db.permissions && Reaches(db, user, p.id) && p.verb != ""
    ensures || (p.verb == verb && p.path == path)
            || ((p.verb == verb || p.verb == "*") && p.path == base + "/*" && path == base + rest)
  {
    DecisionIsCorrect(db, user, verb, path);
    p :| p in db.permissions && Reaches(db, user, p.id) && Grants(p, verb, path);
    base, rest := "", "";
    if p.verb != verb || p.path != path {
      base, rest :| p.path == base + "/*" && path == base + rest;
    }
  }

  /** A stored method with a colon is read back as another method and path. */
  lemma ColonInMethodMisreads(db: Database, p: Permission)
    requires p == Permission(1, None, "A:B", "/c")
    requires db == Database([p], [1], {(1, 1)}, {(1, 1)})
    ensures ValidFor(db, 1)
    ensures Uncached(db, 1, "A", "B:/c") && !Permitted(db, 1, "A", "B:/c")
  {
    assert db.permissions[0] == p;
    SelfAncestor(db.permissions, 1);
    assert (1, 1) in db.userRoles && 1 in db.roles;
    AllPermissionsResult(db, 1);
    assert Key("A", "B:/c") == "A:B:/c" == Key(p.verb, p.path);
    assert Key(p.verb, p.path) in Keys(AllPermissions(db, 1));
    assert !Grants(p, "A", "B:/c");
  }

  /** The tables with more role and permission links. */
  predicate Extends(more: Database, db: Database) {
    && more.permissions == db.permissions && more.roles == db.roles
    && db.userRoles <= more.userRoles && db.rolePermissions <= more.rolePermissions
  }

  lemma ReachesMore(db: Database, more: Database, user: Id, id: Id)
    requires Extends(more, db) && Reaches(db, user, id)
    ensures Reaches(more, user, id)
  {
    var role, top :| role in db.roles && (user, role) in db.userRoles && (role, top) in db.rolePermissions
                     && IsAncestor(db.permissions, top, id);
    assert (user, role) in more.userRoles && (role, top) in more.rolePermissions;
  }

  lemma ValidForLess(db: Database, more: Database, user: Id)
    requires Extends(more, db) && ValidFor(more, user)
    ensures ValidFor(db, user)
  {
    forall top | top in IdsOf(DirectPermissions(db, RolesOf(db, user)))
      ensures top in IdsOf(DirectPermissions(more, RolesOf(more, user)))
    {
      DirectIds(db, user, top);
      DirectIds(more, user, top);
    }
  }

  /** More role and permission links never take a permission away. */
  lemma AssignmentsAreMonotone(db: Database, more: Database, user: Id, verb: string, path: string)
    requires Extends(more, db) && ValidFor(more, user)
    ensures Uncached(db, user, verb, path) ==> Uncached(more, user, verb, path)
  {
    ValidForLess(db, more, user);
    AllPermissionsResult(db, user);
    AllPermissionsResult(more, user);
    forall p | p in AllPermissions(db, user) ensures p in AllPermissions(more, user) {
      ReachesMore(db, more, user, p.id);
    }
    assert Keys(AllPermissions(db, user)) <= Keys(AllPermissions(more, user));
  }

  /** Links of other users do not matter to a user. */
  lemma OtherUsersDoNotMatter(db: Database, other: Database, user: Id)
    requires other == db.(userRoles := other.userRoles)
    requires forall role :: (user, role) in db.userRoles <==> (user, role) in other.userRoles
    ensures AllPermissions(other, user) == AllPermissions(db, user)
  {
    SameRoles(db.roles, db.userRoles, other.userRoles, user);
    SameDirect(db, other, RolesOf(db, user));
  }

  lemma {:induction false} SameRoles(roles: seq<Id>, a: set<(Id, Id)>, b: set<(Id, Id)>, user: Id)
    requires forall role :: (user, role) in a <==> (user, role) in b
    ensures RolesAmong(roles, a, user) == RolesAmong(roles, b, user)
  {
    if roles != [] {
      SameRoles(roles[1..], a, b, user);
    }
  }

  lemma {:induction false} SameDirect(db: Database, other: Database, roles: seq<Id>)
    requires other.permissions == db.permissions && other.rolePermissions == db.rolePermissions
    ensures DirectPermissions(db, roles) == DirectPermissions(other, roles)
  {
    if roles != [] {
      SameDirect(db, other, roles[1..]);
    }
  }

  /** The loop over the user's roles. */
  method CollectDirect(db: Database, roles: seq<Id>) returns (permissions: seq<Permission>)
    ensures permissions == DirectPermissions(db, roles)
  {
    permissions := [];
    var i := 0;
    while i < |roles|
      invariant 0 <= i <= |roles|
      invariant permissions + DirectPermissions(db, roles[i..]) == DirectPermissions(db, roles)
    {
      assert roles[i..][1..] == roles[i + 1..];
      permissions := permissions + PermissionsOfRole(db.permissions, db.rolePermissions, roles[i]);
      i := i + 1;
    }
  }

  /** lo.UniqBy keeps a set of the ids seen so far. */
  method DropDuplicates(ps: seq<Permission>) returns (all: seq<Permission>)
    ensures all == UniqueById(ps)
  {
    all := [];
    var seen: set<Id> := {};
    var i := 0;
    while i < |ps|
      invariant 0 <= i <= |ps|
      invariant all == UniqueById(ps[..i]) && seen == IdsOf(all)
    {
      assert ps[..i + 1][..i] == ps[..i];
      if ps[i].id !in seen {
        seen := seen + {ps[i].id};
        all := all + [ps[i]];
      }
      i := i + 1;
    }
    assert ps[..i] == ps;
  }

  /** getUserAllPermissions as it runs. */
  method GetUserAllPermissions(db: Database, user: Id) returns (all: seq<Permission>)
    ensures all == AllPermissions(db, user)
  {
    var roles := RolesOf(db, user);
    if |roles| == 0 {
      return [];
    }
    var permissions := CollectDirect(db, roles);
    if |permissions| == 0 {
      return [];
    }
    var children := ChildPermissions(db.permissions, permissions);
    permissions := permissions + children;
    all := DropDuplicates(permissions);
  }

  /** The permission map HasPermission fills from the list. */
  method FillKeys(ps: seq<Permission>) returns (keys: set<string>)
    ensures keys == Keys(ps)
  {
    keys := {};
    var i := 0;
    while i < |ps|
      invariant 0 <= i <= |ps|
      invariant keys == Keys(ps[..i])
    {
      assert ps[..i + 1] == ps[..i] + [ps[i]];
      if ps[i].verb != "" && ps[i].path != "" {
        keys := keys + {Key(ps[i].verb, ps[i].path)};
      }
      i := i + 1;
    }
    assert ps[..i] == ps;
  }
}
