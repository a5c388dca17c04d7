/**
 What the separate queries of a check see when other calls change the tables between them: role
 assignments (user_role_service.go:37-73), changes of a role and its links (role_service.go:41-152,
 225-251) and changes of permission rows (permission_service.go:27-95). Each call writes one of
 these.
 */
module TornReads {
  import opened Wrappers
  import opened PermissionTree
  import opened PermissionCheck
  import opened PermissionReads
  import opened QueryPlans

  datatype Kind = UserRoles(user: Id) | OneRole(role: Id) | Rows

  ghost predicate InKind(a: Database, b: Database, kind: Kind) {
    match kind
    case UserRoles(u) =>
      && b.permissions == a.permissions && b.roles == a.roles && b.rolePermissions == a.rolePermissions
      && forall v, role :: v != u ==> ((v, role) in b.userRoles <==> (v, role) in a.userRoles)
    case OneRole(r) =>
      && b.permissions == a.permissions && b.userRoles == a.userRoles
      && (forall x :: x != r ==> (x in b.roles <==> x in a.roles))
      && (forall x, id :: x != r ==> ((x, id) in b.rolePermissions <==> (x, id) in a.rolePermissions))
    case Rows => b.roles == a.roles && b.userRoles == a.userRoles && b.rolePermissions == a.rolePermissions
  }

  ghost predicate DistinctRoles(roles: seq<Id>) {
    forall i, j :: 0 <= i < j < |roles| ==> roles[i] != roles[j]
  }

  /** The primary keys hold, and links belong to existing roles, as every run of role calls keeps it. */
  ghost predicate Sound(db: Database) {
    && UniqueIds(db.permissions) && DistinctRoles(db.roles)
    && forall role, id :: (role, id) in db.rolePermissions ==> role in db.roles
  }

  /** The tables before, between and after the calls. */
  ghost predicate History(tables: seq<Database>, kinds: seq<Kind>) {
    && |tables| == |kinds| + 1
    && (forall i :: 0 <= i < |tables| ==> Sound(tables[i]))
    && forall i :: 0 <= i < |kinds| ==> Step(tables, kinds, i)
  }

  ghost predicate Step(tables: seq<Database>, kinds: seq<Kind>, i: nat)
    requires |tables| == |kinds| + 1 && i < |kinds|
  {
    InKind(tables[i], tables[i + 1], kinds[i])
  }

  // ----- what stays while other calls run -----

  lemma {:induction false} RowsKept(tables: seq<Database>, kinds: seq<Kind>, a: nat, b: nat)
    requires History(tables, kinds) && a <= b <= |kinds|
    requires forall k :: a <= k < b ==> kinds[k] != Rows
    ensures tables[b].permissions == tables[a].permissions
    decreases b
  {
    if a < b {
      RowsKept(tables, kinds, a, b - 1);
      assert Step(tables, kinds, b - 1);
    }
  }

  lemma {:induction false} RoleKept(tables: seq<Database>, kinds: seq<Kind>, a: nat, b: nat, role: Id)
    requires History(tables, kinds) && a <= b <= |kinds|
    requires forall k :: a <= k < b ==> kinds[k] != OneRole(role)
    ensures role in tables[b].roles <==> role in tables[a].roles
    ensures forall id :: (role, id) in tables[b].rolePermissions <==> (role, id) in tables[a].rolePermissions
    decreases b
  {
    if a < b {
      RoleKept(tables, kinds, a, b - 1, role);
      assert Step(tables, kinds, b - 1);
    }
  }

  lemma {:induction false} UserKept(tables: seq<Database>, kinds: seq<Kind>, a: nat, b: nat, user: Id)
    requires History(tables, kinds) && a <= b <= |kinds|
    requires forall k :: a <= k < b ==> kinds[k] != UserRoles(user)
    ensures forall role :: (user, role) in tables[b].userRoles <==> (user, role) in tables[a].userRoles
    decreases b
  {
    if a < b {
      UserKept(tables, kinds, a, b - 1, user);
      assert Step(tables, kinds, b - 1);
    }
  }

  /** The first call of a kind from one index on, or the number of calls. */
  function FirstFrom(kinds: seq<Kind>, kind: Kind, start: nat): (r: nat)
    requires start <= |kinds|
    ensures start <= r <= |kinds| && (r < |kinds| ==> kinds[r] == kind)
    ensures forall k :: start <= k < r ==> kinds[k] != kind
    decreases |kinds| - start
  {
    if start == |kinds| || kinds[start] == kind then start else FirstFrom(kinds, kind, start + 1)
  }

  /** One past the last change of permission rows before an index, or the start. */
  function AfterLastRows(kinds: seq<Kind>, start: nat, end: nat): (r: nat)
    requires start <= end <= |kinds|
    ensures start <= r <= end && (r > start ==> kinds[r - 1] == Rows)
    ensures forall k :: r <= k < end ==> kinds[k] != Rows
    decreases end
  {
    if start == end || kinds[end - 1] == Rows then end else AfterLastRows(kinds, start, end - 1)
  }

  function W(kinds: seq<Kind>, plan: Plan, q: nat): nat {
    When(plan, |kinds|, q)
  }

  /** The calls that some query can see are those before this index. */
  function Horizon(kinds: seq<Kind>, plan: Plan): (h: nat)
    ensures h <= |kinds|
  {
    W(kinds, plan, |plan|)
  }

  // ----- when a check can allow what was never allowed -----

  /** Some instant of the run allows the request. */
  ghost predicate AllowedSometime(tables: seq<Database>, user: Id, verb: string, path: string) {
    exists i :: 0 <= i < |tables| && Uncached(tables[i], user, verb, path)
  }

  ghost predicate GrantsOnlySeen(kinds: seq<Kind>, plan: Plan, user: Id) {
    forall tables, verb, path ::
      History(tables, kinds) && Searches(KeysRead(tables, plan, user), verb, path) ==> AllowedSometime(tables, user, verb, path)
  }

  /** Call j changes links that the check has read, and call k what it reads after them. */
  predicate StaleThen(kinds: seq<Kind>, plan: Plan, user: Id, j: nat, k: nat)
    requires j < k < |kinds|
  {
    || (kinds[j] == UserRoles(user) && W(kinds, plan, 0) <= j && !kinds[k].UserRoles?)
    || (kinds[j].OneRole? && W(kinds, plan, 2) <= j && kinds[k] == Rows)
  }

  ghost predicate StaleLink(kinds: seq<Kind>, plan: Plan, user: Id) {
    exists j, k :: 0 <= j < k < Horizon(kinds, plan) && StaleThen(kinds, plan, user, j, k)
  }

  /** The user has the role, the role the link, and the rows are those of z, all at one instant. */
  ghost predicate HoldsAt(tables: seq<Database>, user: Id, role: Id, id: Id, z: nat, y: nat)
    requires z < |tables|
  {
    && y < |tables| && (user, role) in tables[y].userRoles && role in tables[y].roles
    && (role, id) in tables[y].rolePermissions && tables[y].permissions == tables[z].permissions
  }

  /** A link read at x and rows read at z, by a user who had the role at the first query. */
  lemma FindInstant(tables: seq<Database>, kinds: seq<Kind>, plan: Plan, user: Id, role: Id, id: Id, x: nat, z: nat) returns (y: nat)
    requires History(tables, kinds) && !StaleLink(kinds, plan, user)
    requires W(kinds, plan, 2) <= x <= z <= Horizon(kinds, plan)
    requires (user, role) in tables[W(kinds, plan, 0)].userRoles && (role, id) in tables[x].rolePermissions
    ensures HoldsAt(tables, user, role, id, z, y)
  {
    var first := W(kinds, plan, 0);
    LaterSeesLater(plan, |kinds|, 0, 2);
    var u := FirstFrom(kinds, UserRoles(user), first);
    var p := AfterLastRows(kinds, x, z);
    y := if p <= u then p else u;
    UserKept(tables, kinds, first, y, user);
    if p <= u {
      if k :| x <= k < p && kinds[k] == OneRole(role) {
        assert StaleThen(kinds, plan, user, k, p - 1);
      }
      RoleKept(tables, kinds, x, p, role);
      RowsKept(tables, kinds, p, z);
    } else {
      forall k | u < k < z ensures kinds[k].UserRoles? {
        assert StaleThen(kinds, plan, user, u, k) || kinds[k].UserRoles?;
      }
      if x > u {
        RoleKept(tables, kinds, u, x, role);
      }
      RowsKept(tables, kinds, u, z);
    }
    assert Sound(tables[y]);
  }

  /** A row linked to a role of the user at one instant is among the user's permissions then. */
  lemma LinkedIsGranted(db: Database, user: Id, role: Id, p: Permission)
    requires Sound(db) && (user, role) in db.userRoles && role in db.roles && (role, p.id) in db.rolePermissions
    requires p in db.permissions
    ensures p in DirectPermissions(db, RolesOf(db, user)) && p in AllPermissions(db, user)
  {
    RowsStay(db.permissions, DirectPermissions(db, RolesOf(db, user)), p);
  }

  lemma {:induction false} HitOrigin(t: PermissionTree.Table, roots: set<Id>, id: Id, n: nat) returns (m: nat)
    requires RootHits(t, roots, id, n) > 0
    ensures m < n && IsRoot(roots, Ancestor(t, id, m))
  {
    m := n - 1;
    if !IsRoot(roots, Ancestor(t, id, n - 1)) {
      m := HitOrigin(t, roots, id, n - 1);
    }
  }

  lemma {:induction false} HitCounts(t: PermissionTree.Table, roots: set<Id>, id: Id, n: nat, m: nat)
    requires m < n && IsRoot(roots, Ancestor(t, id, m))
    ensures RootHits(t, roots, id, n) > 0
  {
    if m < n - 1 {
      HitCounts(t, roots, id, n - 1, m);
    }
  }

  lemma TreeOrigin(t: PermissionTree.Table, roots: set<Id>, id: Id, n: nat) returns (m: nat)
    requires UniqueIds(t) && id in Tree(t, roots, n)
    ensures m < n && IsRoot(roots, Ancestor(t, id, m))
  {
    TreeCount(t, roots, n, id);
    CountIsMultiplicity(Tree(t, roots, n), id);
    m := HitOrigin(t, roots, id, n);
  }

  lemma TreeHas(t: PermissionTree.Table, roots: set<Id>, id: Id, n: nat, m: nat)
    requires UniqueIds(t) && m < n && IsRoot(roots, Ancestor(t, id, m))
    ensures id in Tree(t, roots, n)
  {
    TreeCount(t, roots, n, id);
    CountIsMultiplicity(Tree(t, roots, n), id);
    HitCounts(t, roots, id, n, m);
  }

  /** The recursive query finds p whenever the root has been collected. */
  ghost predicate Below(t: PermissionTree.Table, root: Permission, p: Permission) {
    forall other :: root in other ==> p in ChildPermissions(t, other)
  }

  /** A row found below a collected one is also found from any collection of rows that has the same one. */
  lemma FoundBelow(t: PermissionTree.Table, direct: seq<Permission>, p: Permission) returns (root: Permission)
    requires UniqueIds(t) && p in ChildPermissions(t, direct)
    ensures root in t && root.id in IdsOf(direct) && Below(t, root, p)
  {
    var m := TreeOrigin(t, IdsOf(direct), p.id, |t|);
    root := RowOf(t, Ancestor(t, p.id, m).value);
    forall other | root in other ensures p in ChildPermissions(t, other) {
      FoundFrom(t, other, root, p, m);
    }
  }

  lemma FoundFrom(t: PermissionTree.Table, direct: seq<Permission>, root: Permission, p: Permission, m: nat)
    requires UniqueIds(t) && p in t && root in direct && m < |t| && Ancestor(t, p.id, m) == Some(root.id)
    ensures p in ChildPermissions(t, direct)
  {
    TreeHas(t, IdsOf(direct), p.id, |t|, m);
    RowIsUnique(t, p);
  }

  /** Every key that a check computes is one of the user's keys at some instant. */
  lemma KeyWasSeen(tables: seq<Database>, kinds: seq<Kind>, plan: Plan, user: Id, p: Permission) returns (y: nat)
    requires History(tables, kinds) && !StaleLink(kinds, plan, user)
    requires p in AllRead(ReadsOf(tables, plan), user)
    ensures y < |tables| && p in AllPermissions(tables[y], user)
  {
    var r := ReadsOf(tables, plan);
    var roles := RolesRead(r, user);
    var direct := DirectRead(r, roles, 0);
    var t := r.tree(|roles|).permissions;
    RowsOfWithChildren(t, direct, p);
    if p in direct {
      var i := DirectReadOrigin(r, roles, 0, p);
      QueryOrder(kinds, plan, i, i);
      y := FindInstant(tables, kinds, plan, user, roles[i], p.id, W(kinds, plan, LinksQuery(i)), W(kinds, plan, RowsQuery(i)));
      LinkedIsGranted(tables[y], user, roles[i], p);
    } else {
      assert Sound(tables[W(kinds, plan, LinksQuery(|roles|))]);
      var root := FoundBelow(t, direct, p);
      var q :| q in direct && q.id == root.id;
      var i := DirectReadOrigin(r, roles, 0, q);
      QueryOrder(kinds, plan, i, |roles|);
      y := ChildWasSeen(tables, kinds, plan, user, p, root, roles[i], W(kinds, plan, LinksQuery(i)), W(kinds, plan, LinksQuery(|roles|)));
    }
  }

  lemma QueryOrder(kinds: seq<Kind>, plan: Plan, i: nat, n: nat)
    requires i <= n
    ensures W(kinds, plan, 2) <= W(kinds, plan, LinksQuery(i)) <= W(kinds, plan, RowsQuery(i)) <= Horizon(kinds, plan)
    ensures W(kinds, plan, LinksQuery(i)) <= W(kinds, plan, LinksQuery(n)) <= Horizon(kinds, plan)
  {
    LaterSeesLater(plan, |kinds|, 2, LinksQuery(i));
    LaterSeesLater(plan, |kinds|, LinksQuery(i), RowsQuery(i));
    LaterSeesLater(plan, |kinds|, LinksQuery(i), LinksQuery(n));
    NothingNewer(plan, |kinds|, RowsQuery(i));
    NothingNewer(plan, |kinds|, LinksQuery(n));
  }

  lemma ChildWasSeen(tables: seq<Database>, kinds: seq<Kind>, plan: Plan, user: Id, p: Permission, root: Permission, role: Id, x: nat, z: nat)
    returns (y: nat)
    requires History(tables, kinds) && !StaleLink(kinds, plan, user)
    requires W(kinds, plan, 2) <= x <= z <= Horizon(kinds, plan)
    requires (user, role) in tables[W(kinds, plan, 0)].userRoles && (role, root.id) in tables[x].rolePermissions
    requires root in tables[z].permissions && Below(tables[z].permissions, root, p)
    ensures y < |tables| && p in AllPermissions(tables[y], user)
  {
    y := FindInstant(tables, kinds, plan, user, role, root.id, x, z);
    LinkedIsGranted(tables[y], user, role, root);
    RowsStay(tables[y].permissions, DirectPermissions(tables[y], RolesOf(tables[y], user)), p);
  }

  lemma NoStaleLinkGrantsOnlySeen(kinds: seq<Kind>, plan: Plan, user: Id)
    requires !StaleLink(kinds, plan, user)
    ensures GrantsOnlySeen(kinds, plan, user)
  {
    forall tables, verb, path | History(tables, kinds) && Searches(KeysRead(tables, plan, user), verb, path)
      ensures AllowedSometime(tables, user, verb, path)
    {
      var key :| key in KeysRead(tables, plan, user) && (key == Key(verb, path) || KeyMatches(key, verb, path));
      var p :| p in AllRead(ReadsOf(tables, plan), user) && p.verb != "" && p.path != "" && key == Key(p.verb, p.path);
      var y := KeyWasSeen(tables, kinds, plan, user, p);
      assert key in KeysOf(tables[y], user);
      assert Uncached(tables[y], user, verb, path);
    }
  }

  // ----- runs on which it goes wrong -----

  /** a until call j has run, then b until call k has run, then c. */
  function Stages(n: nat, j: nat, k: nat, a: Database, b: Database, c: Database): seq<Database> {
    seq(n + 1, i => if i <= j then a else if i <= k then b else c)
  }

  lemma StagesHistory(kinds: seq<Kind>, j: nat, k: nat, a: Database, b: Database, c: Database)
    requires j <= k < |kinds| && Sound(a) && Sound(b) && Sound(c)
    requires if j == k then InKind(a, c, kinds[k]) else InKind(a, b, kinds[j]) && InKind(b, c, kinds[k])
    ensures History(Stages(|kinds|, j, k, a, b, c), kinds)
  {
    var tables := Stages(|kinds|, j, k, a, b, c);
    forall i | 0 <= i < |kinds| ensures Step(tables, kinds, i) {
      if i != j && i != k {
        assert tables[i] == tables[i + 1];
      }
    }
  }

  /** What the queries see of the stages. */
  ghost predicate Staged(r: Reads, kinds: seq<Kind>, plan: Plan, j: nat, k: nat, a: Database, b: Database, c: Database) {
    && r.users in {a, b, c} && r.roles in {a, b, c}
    && (W(kinds, plan, 0) <= j ==> r.users == a)
    && (W(kinds, plan, 1) <= j ==> r.roles == a)
    && (W(kinds, plan, 2) <= j ==> r.links(0) == a)
    && (W(kinds, plan, 3) <= j ==> r.rows(0) == a)
    && forall i :: StagedAt(r, kinds, plan, k, a, b, c, i)
  }

  ghost predicate StagedAt(r: Reads, kinds: seq<Kind>, plan: Plan, k: nat, a: Database, b: Database, c: Database, i: nat) {
    && r.links(i) in {a, b, c} && r.rows(i) in {a, b, c} && r.tree(i) in {a, b, c}
    && (k < Horizon(kinds, plan) && i >= |plan| ==> r.links(i) == c && r.rows(i) == c && r.tree(i) == c)
    && (k < W(kinds, plan, 3) ==> r.rows(i) == c)
  }

  lemma StagesReadAt(r: Reads, kinds: seq<Kind>, plan: Plan, j: nat, k: nat, a: Database, b: Database, c: Database, i: nat)
    requires j <= k < |kinds| && r == ReadsOf(Stages(|kinds|, j, k, a, b, c), plan)
    ensures StagedAt(r, kinds, plan, k, a, b, c, i)
  {
    NothingNewer(plan, |kinds|, LinksQuery(i));
    NothingNewer(plan, |kinds|, RowsQuery(i));
    LaterSeesLater(plan, |kinds|, 3, RowsQuery(i));
  }

  lemma StagesRead(kinds: seq<Kind>, plan: Plan, j: nat, k: nat, a: Database, b: Database, c: Database)
    requires j <= k < |kinds|
    ensures Staged(ReadsOf(Stages(|kinds|, j, k, a, b, c), plan), kinds, plan, j, k, a, b, c)
  {
    var r := ReadsOf(Stages(|kinds|, j, k, a, b, c), plan);
    forall i: nat ensures StagedAt(r, kinds, plan, k, a, b, c, i) {
      StagesReadAt(r, kinds, plan, j, k, a, b, c, i);
    }
  }

  /** Roles whose links nobody has, to bring a role to any place in the order of the queries. */
  function Fillers(n: nat, base: nat): seq<Id> {
    seq(n, i => base + 1 + i)
  }

  function AllLinks(user: Id, roles: seq<Id>): set<(Id, Id)> {
    set role | role in roles :: (user, role)
  }

  lemma {:induction false} AllRoles(roles: seq<Id>, links: set<(Id, Id)>, user: Id)
    requires forall role :: role in roles ==> (user, role) in links
    ensures RolesAmong(roles, links, user) == roles
    decreases |roles|
  {
    if roles != [] {
      assert roles[0] in roles;
      forall role | role in roles[1..] ensures role in roles {}
      AllRoles(roles[1..], links, user);
      assert roles == [roles[0]] + roles[1..];
    }
  }

  lemma NoKeys(db: Database, user: Id)
    requires forall p :: p in db.permissions ==> p.verb == ""
    ensures KeysOf(db, user) == {}
  {
    var direct := DirectPermissions(db, RolesOf(db, user));
    forall p | p in AllPermissions(db, user) ensures p.verb == "" {
      RowsOfWithChildren(db.permissions, direct, p);
    }
  }

  /** If a run of these calls makes the check compute a key while the user has none at any instant, they can grant what nobody ever granted. */
  lemma UnseenKey(tables: seq<Database>, kinds: seq<Kind>, plan: Plan, user: Id, p: Permission)
    requires History(tables, kinds) && p.verb != "" && p.path != ""
    requires forall i :: 0 <= i < |tables| ==> KeysOf(tables[i], user) == {}
    ensures p in AllRead(ReadsOf(tables, plan), user) ==> !GrantsOnlySeen(kinds, plan, user)
  {
    if p in AllRead(ReadsOf(tables, plan), user) {
      KeyIsRead(tables, plan, user, p);
      forall i | 0 <= i < |tables| ensures !Uncached(tables[i], user, p.verb, p.path) {
        NothingAllowed(tables[i], user, p.verb, p.path);
      }
      assert !AllowedSometime(tables, user, p.verb, p.path);
    }
  }

  lemma KeyIsRead(tables: seq<Database>, plan: Plan, user: Id, p: Permission)
    requires tables != [] && p.verb != "" && p.path != ""
    ensures p in AllRead(ReadsOf(tables, plan), user) ==> Searches(KeysRead(tables, plan, user), p.verb, p.path)
  {
    assert p in AllRead(ReadsOf(tables, plan), user) ==> Key(p.verb, p.path) in KeysRead(tables, plan, user);
  }

  lemma NothingAllowed(db: Database, user: Id, verb: string, path: string)
    requires KeysOf(db, user) == {}
    ensures !Uncached(db, user, verb, path)
  {
  }

  const GRANT := Permission(1, None, "GET", "/a")
  const PARENT := Permission(1, None, "", "")
  const CHILD := Permission(2, Some(1), "GET", "/a")

  /** Fillers and the role are distinct. */
  lemma FillersThen(n: nat, base: nat, role: Id)
    requires role <= base
    ensures DistinctRoles(Fillers(n, base) + [role]) && DistinctRoles([role] + Fillers(n, base))
    ensures (Fillers(n, base) + [role])[n] == role && ([role] + Fillers(n, base))[0] == role
  {
  }

  lemma GrantIsRead(r: Reads, user: Id, roles: seq<Id>, n: nat)
    requires RolesRead(r, user) == roles && n < |roles| && (roles[n], 1) in r.links(n).rolePermissions
    requires forall i :: r.rows(i).permissions == [GRANT] && r.tree(i).permissions == [GRANT]
    ensures GRANT in AllRead(r, user)
  {
    assert r.rows(n).permissions[0] == GRANT;
    assert Finds(r, roles, 0, n, GRANT);
    DirectReadHas(r, roles, 0, n, GRANT);
    forall p | p in DirectRead(r, roles, 0) ensures p in [GRANT] {
      var i := DirectReadOrigin(r, roles, 0, p);
    }
    RowsStay([GRANT], DirectRead(r, roles, 0), GRANT);
  }

  lemma Family()
    ensures var t := [PARENT, CHILD];
            UniqueIds(t) && PARENT in t && CHILD in t && Has(t, 1) && Has(t, 2) && RowOf(t, 1) == PARENT && RowOf(t, 2) == CHILD
  {
    var t := [PARENT, CHILD];
    assert t[0] == PARENT && t[1] == CHILD && t[1..] == [CHILD];
  }

  /** A check that collects the parent alone and then sees the child. */
  lemma ChildBelow(direct: seq<Permission>)
    requires PARENT in direct && forall p :: p in direct ==> p == PARENT
    ensures CHILD in WithChildren([PARENT, CHILD], direct)
  {
    var t := [PARENT, CHILD];
    Family();
    assert Ancestor(t, 2, 1) == Ancestor(t, 1, 0) == Some(1);
    FoundFrom(t, direct, PARENT, CHILD, 1);
    RowsStay(t, direct, CHILD);
  }

  /** Only the first role has a link, to the parent, whose row is there whenever it is read. */
  lemma ChildIsRead(r: Reads, user: Id, role: Id, others: seq<Id>)
    requires RolesRead(r, user) == [role] + others && (role, 1) in r.links(0).rolePermissions
    requires forall i, x, id :: (x, id) in r.links(i).rolePermissions ==> x == role && id == 1
    requires forall i :: r.rows(i).permissions == [PARENT] || r.rows(i).permissions == [PARENT, CHILD]
    requires r.tree(|[role] + others|).permissions == [PARENT, CHILD]
    ensures CHILD in AllRead(r, user)
  {
    var roles := [role] + others;
    assert r.rows(0).permissions[0] == PARENT;
    assert Finds(r, roles, 0, 0, PARENT);
    DirectReadHas(r, roles, 0, 0, PARENT);
    forall p | p in DirectRead(r, roles, 0) ensures p == PARENT {
      var i := DirectReadOrigin(r, roles, 0, p);
    }
    ChildBelow(DirectRead(r, roles, 0));
  }

  lemma SameRolesRead(r: Reads, user: Id, roles: seq<Id>)
    requires r.roles.roles == roles && r.users.userRoles == AllLinks(user, roles)
    ensures RolesRead(r, user) == roles
  {
    AllRoles(roles, r.users.userRoles, user);
  }

  /** The user loses a role, and then the role gains the permission. */
  lemma UserThenRole(kinds: seq<Kind>, plan: Plan, user: Id, j: nat, k: nat, role: Id)
    requires j < k < Horizon(kinds, plan) && W(kinds, plan, 0) <= j
    requires kinds[j] == UserRoles(user) && kinds[k] == OneRole(role)
    ensures !GrantsOnlySeen(kinds, plan, user)
  {
    var n := |plan|;
    var roles := Fillers(n, role) + [role];
    var a := Database([GRANT], roles, AllLinks(user, roles), {});
    var b := Database([GRANT], roles, {}, {});
    var c := Database([GRANT], roles, {}, {(role, 1)});
    FillersThen(n, role, role);
    StagesHistory(kinds, j, k, a, b, c);
    StagesRead(kinds, plan, j, k, a, b, c);
    var tables := Stages(|kinds|, j, k, a, b, c);
    RoleRunReads(ReadsOf(tables, plan), kinds, plan, user, j, k, role, a, b, c);
    AllEmpty(tables, |kinds|, j, k, a, b, c, user);
    UnseenKey(tables, kinds, plan, user, GRANT);
  }

  lemma RoleRunReads(r: Reads, kinds: seq<Kind>, plan: Plan, user: Id, j: nat, k: nat, role: Id, a: Database, b: Database, c: Database)
    requires Staged(r, kinds, plan, j, k, a, b, c) && j < k < Horizon(kinds, plan) && W(kinds, plan, 0) <= j
    requires var roles := Fillers(|plan|, role) + [role];
             && a == Database([GRANT], roles, AllLinks(user, roles), {}) && b == Database([GRANT], roles, {}, {})
             && c == Database([GRANT], roles, {}, {(role, 1)})
    ensures GRANT in AllRead(r, user)
  {
    var n, roles := |plan|, Fillers(|plan|, role) + [role];
    SameRolesRead(r, user, roles);
    assert StagedAt(r, kinds, plan, k, a, b, c, n);
    forall i ensures r.rows(i).permissions == [GRANT] && r.tree(i).permissions == [GRANT] {
      assert StagedAt(r, kinds, plan, k, a, b, c, i);
    }
    GrantIsRead(r, user, roles, n);
  }

  /** At none of the stages does the user have a key: no row has one, or no role of the user has a link. */
  lemma AllEmpty(tables: seq<Database>, n: nat, j: nat, k: nat, a: Database, b: Database, c: Database, user: Id)
    requires tables == Stages(n, j, k, a, b, c)
    requires forall db :: db in {a, b, c} ==> Keyless(db, user)
    ensures forall i :: 0 <= i < |tables| ==> KeysOf(tables[i], user) == {}
  {
    forall db | db in {a, b, c} ensures KeysOf(db, user) == {} {
      assert Keyless(db, user);
      if forall p :: p in db.permissions ==> p.verb == "" {
        NoKeys(db, user);
      } else {
        NothingLinked(db, user);
      }
    }
  }

  ghost predicate Keyless(db: Database, user: Id) {
    || (forall p :: p in db.permissions ==> p.verb == "")
    || (forall role, id :: (user, role) in db.userRoles ==> (role, id) !in db.rolePermissions)
  }

  /** A parent is linked to a role of the user; the link or the role is taken away; the child is created. */
  lemma ParentRun(kinds: seq<Kind>, plan: Plan, user: Id, j: nat, k: nat, role: Id, b: Database)
    requires j < k < Horizon(kinds, plan) && W(kinds, plan, 0) <= j && kinds[k] == Rows
    requires var roles := [role] + Fillers(|plan|, role);
             || (b == Database([PARENT], roles, {}, {(role, 1)}) && kinds[j] == UserRoles(user))
             || (b == Database([PARENT], roles, AllLinks(user, roles), {}) && kinds[j] == OneRole(role) && W(kinds, plan, 2) <= j)
    ensures !GrantsOnlySeen(kinds, plan, user)
  {
    var n := |plan|;
    var roles := [role] + Fillers(n, role);
    var a := Database([PARENT], roles, AllLinks(user, roles), {(role, 1)});
    var c := b.(permissions := [PARENT, CHILD]);
    FillersThen(n, role, role);
    StagesHistory(kinds, j, k, a, b, c);
    StagesRead(kinds, plan, j, k, a, b, c);
    var tables := Stages(|kinds|, j, k, a, b, c);
    ParentRunReads(ReadsOf(tables, plan), kinds, plan, user, j, k, role, a, b, c);
    AllEmpty(tables, |kinds|, j, k, a, b, c, user);
    UnseenKey(tables, kinds, plan, user, CHILD);
  }

  lemma ParentRunReads(r: Reads, kinds: seq<Kind>, plan: Plan, user: Id, j: nat, k: nat, role: Id, a: Database, b: Database, c: Database)
    requires Staged(r, kinds, plan, j, k, a, b, c) && j < k < Horizon(kinds, plan) && W(kinds, plan, 0) <= j
    requires var roles := [role] + Fillers(|plan|, role);
             && a == Database([PARENT], roles, AllLinks(user, roles), {(role, 1)})
             && b.permissions == [PARENT] && b.roles == roles && c == b.(permissions := [PARENT, CHILD])
             && (b.rolePermissions == {(role, 1)} || (b.rolePermissions == {} && W(kinds, plan, 2) <= j))
    ensures CHILD in AllRead(r, user)
  {
    var n := |plan|;
    var others := Fillers(n, role);
    SameRolesRead(r, user, [role] + others);
    forall i ensures r.links(i) in {a, b, c} && r.rows(i) in {a, b, c} {
      assert StagedAt(r, kinds, plan, k, a, b, c, i);
    }
    assert StagedAt(r, kinds, plan, k, a, b, c, |[role] + others|);
    ChildIsRead(r, user, role, others);
  }

  /** The user loses a role, and then a permission below one of the role's is created. */
  lemma UserThenRows(kinds: seq<Kind>, plan: Plan, user: Id, j: nat, k: nat)
    requires j < k < Horizon(kinds, plan) && W(kinds, plan, 0) <= j
    requires kinds[j] == UserRoles(user) && kinds[k] == Rows
    ensures !GrantsOnlySeen(kinds, plan, user)
  {
    ParentRun(kinds, plan, user, j, k, 1, Database([PARENT], [1] + Fillers(|plan|, 1), {}, {(1, 1)}));
  }

  /** A role loses its link to a permission, and then a permission below that one is created. */
  lemma RoleThenRows(kinds: seq<Kind>, plan: Plan, user: Id, j: nat, k: nat, role: Id)
    requires j < k < Horizon(kinds, plan) && W(kinds, plan, 2) <= j
    requires kinds[j] == OneRole(role) && kinds[k] == Rows
    ensures !GrantsOnlySeen(kinds, plan, user)
  {
    var roles := [role] + Fillers(|plan|, role);
    LaterSeesLater(plan, |kinds|, 0, 2);
    ParentRun(kinds, plan, user, j, k, role, Database([PARENT], roles, AllLinks(user, roles), {}));
  }

  /**
   Whatever the tables, every request that a check allows was allowed at some instant of the run, if
   and only if no call changes links that the check has read before another one changes what it
   reads after them.
   */
  lemma GrantsOnlySeenIff(kinds: seq<Kind>, plan: Plan, user: Id)
    ensures GrantsOnlySeen(kinds, plan, user) <==> !StaleLink(kinds, plan, user)
  {
    if StaleLink(kinds, plan, user) {
      var j, k :| 0 <= j < k < Horizon(kinds, plan) && StaleThen(kinds, plan, user, j, k);
      if kinds[j].OneRole? {
        RoleThenRows(kinds, plan, user, j, k, kinds[j].role);
      } else if kinds[k].OneRole? {
        UserThenRole(kinds, plan, user, j, k, kinds[k].role);
      } else {
        UserThenRows(kinds, plan, user, j, k);
      }
    } else {
      NoStaleLinkGrantsOnlySeen(kinds, plan, user);
    }
  }

  /** One call between the queries of a check, of any kind, never makes it allow what neither side allows; nor do any number of changes of permission rows. */
  lemma OneCallGrantsOnlySeen(kinds: seq<Kind>, plan: Plan, user: Id)
    requires |kinds| <= 1 || forall k :: 0 <= k < |kinds| ==> kinds[k] == Rows
    ensures GrantsOnlySeen(kinds, plan, user)
  {
    GrantsOnlySeenIff(kinds, plan, user);
  }
}
