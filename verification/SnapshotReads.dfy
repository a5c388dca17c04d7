/**
 When the separate queries of a check give the answer of one instant, among the calls of module
 TornReads.
 */
module SnapshotReads {
  import opened Wrappers
  import opened PermissionTree
  import opened PermissionCheck
  import opened PermissionReads
  import opened QueryPlans
  import opened TornReads

  /** The check computes the user's keys of some instant of the run. */
  ghost predicate IsSnapshot(tables: seq<Database>, plan: Plan, user: Id) {
    exists i :: 0 <= i < |tables| && KeysRead(tables, plan, user) == KeysOf(tables[i], user)
  }

  ghost predicate AlwaysSnapshot(kinds: seq<Kind>, plan: Plan, user: Id) {
    forall tables :: History(tables, kinds) ==> IsSnapshot(tables, plan, user)
  }

  /** Permission rows change after the first role's have been read and before the last query. */
  ghost predicate SplitRows(kinds: seq<Kind>, plan: Plan) {
    exists i :: W(kinds, plan, 3) <= i < Horizon(kinds, plan) && kinds[i] == Rows
  }

  /** A call that some query may miss: the user's links or the roles have been read before it. */
  predicate Missed(kinds: seq<Kind>, plan: Plan, user: Id, j: nat)
    requires j < |kinds|
  {
    || (kinds[j] == UserRoles(user) && W(kinds, plan, 0) <= j)
    || (kinds[j].OneRole? && W(kinds, plan, 1) <= j)
  }

  /** A call of another aspect than the first, which some query may see. */
  predicate Follows(first: Kind, second: Kind) {
    second == Rows || (second.OneRole? && second != first)
  }

  ghost predicate Reordered(kinds: seq<Kind>, plan: Plan, user: Id) {
    exists j, k :: 0 <= j < k < Horizon(kinds, plan) && Missed(kinds, plan, user, j) && Follows(kinds[j], kinds[k])
  }

  // ----- the instant of a check that is not torn -----

  /** The first call that may be missed, or the horizon. */
  function FirstMissed(kinds: seq<Kind>, plan: Plan, user: Id, start: nat): (j: nat)
    requires start <= Horizon(kinds, plan)
    ensures start <= j <= Horizon(kinds, plan) && (j < Horizon(kinds, plan) ==> Missed(kinds, plan, user, j))
    ensures forall k :: start <= k < j ==> !Missed(kinds, plan, user, k)
    decreases Horizon(kinds, plan) - start
  {
    if start == Horizon(kinds, plan) || Missed(kinds, plan, user, start) then start
    else FirstMissed(kinds, plan, user, start + 1)
  }

  /** At y the user has the roles of the first query, and each role that the check visits the links it reads. */
  ghost predicate Matches(tables: seq<Database>, plan: Plan, user: Id, y: nat)
    requires tables != [] && y < |tables|
  {
    var r := ReadsOf(tables, plan);
    var roles := RolesRead(r, user);
    && (forall role :: (user, role) in tables[y].userRoles <==> (user, role) in r.users.userRoles)
    && (forall i :: 0 <= i < |roles| ==> SameLinks(r.links(i), tables[y], roles[i]))
    && (forall role :: role !in r.roles.roles ==> SameLinks(r.roles, tables[y], role))
  }

  ghost predicate SameLinks(a: Database, b: Database, role: Id) {
    forall id :: (role, id) in a.rolePermissions <==> (role, id) in b.rolePermissions
  }

  lemma RoleSame(tables: seq<Database>, kinds: seq<Kind>, a: nat, b: nat, role: Id)
    requires History(tables, kinds) && a <= |kinds| && b <= |kinds|
    requires forall k :: a <= k < b || b <= k < a ==> kinds[k] != OneRole(role)
    ensures SameLinks(tables[a], tables[b], role)
  {
    if a <= b {
      RoleKept(tables, kinds, a, b, role);
    } else {
      RoleKept(tables, kinds, b, a, role);
    }
  }

  lemma Order(kinds: seq<Kind>, plan: Plan, i: nat)
    ensures W(kinds, plan, 0) <= W(kinds, plan, 1) <= W(kinds, plan, LinksQuery(i)) <= Horizon(kinds, plan)
    ensures W(kinds, plan, 1) <= Horizon(kinds, plan)
  {
    LaterSeesLater(plan, |kinds|, 0, 1);
    LaterSeesLater(plan, |kinds|, 1, LinksQuery(i));
    NothingNewer(plan, |kinds|, 1);
    NothingNewer(plan, |kinds|, LinksQuery(i));
  }

  /** Before the first call that may be missed, none of the user's roles change after the first query, and no role after the second. */
  lemma BeforeMissed(kinds: seq<Kind>, plan: Plan, user: Id, k: nat)
    requires k < FirstMissed(kinds, plan, user, 0)
    ensures k >= W(kinds, plan, 0) ==> kinds[k] != UserRoles(user)
    ensures k >= W(kinds, plan, 1) ==> !kinds[k].OneRole?
  {
    assert !Missed(kinds, plan, user, k);
  }

  lemma AfterMissed(kinds: seq<Kind>, plan: Plan, user: Id, j: nat, k: nat)
    requires !Reordered(kinds, plan, user) && j < k < Horizon(kinds, plan) && Missed(kinds, plan, user, j)
    ensures kinds[k] != Rows && (kinds[k].OneRole? ==> kinds[k] == kinds[j])
  {
    assert !Follows(kinds[j], kinds[k]);
  }

  lemma UserSame(tables: seq<Database>, kinds: seq<Kind>, plan: Plan, user: Id, y: nat)
    requires History(tables, kinds) && y <= |kinds|
    requires var j := FirstMissed(kinds, plan, user, 0);
             (j < Horizon(kinds, plan) && kinds[j].OneRole?) ==> forall k :: j <= k < y ==> kinds[k] != UserRoles(user)
    requires var j := FirstMissed(kinds, plan, user, 0);
             y > j ==> j < Horizon(kinds, plan) && kinds[j].OneRole?
    requires y >= W(kinds, plan, 0)
    ensures forall role :: (user, role) in tables[y].userRoles <==> (user, role) in tables[W(kinds, plan, 0)].userRoles
  {
    forall k | W(kinds, plan, 0) <= k < y ensures kinds[k] != UserRoles(user) {
      if k < FirstMissed(kinds, plan, user, 0) {
        BeforeMissed(kinds, plan, user, k);
      }
    }
    UserKept(tables, kinds, W(kinds, plan, 0), y, user);
  }

  /** The first call that may be missed is not a change of a role. */
  lemma QuietRoles(tables: seq<Database>, kinds: seq<Kind>, plan: Plan, user: Id)
    requires History(tables, kinds) && !Reordered(kinds, plan, user)
    requires var j := FirstMissed(kinds, plan, user, 0); j < Horizon(kinds, plan) ==> kinds[j] == UserRoles(user)
    ensures Matches(tables, plan, user, FirstMissed(kinds, plan, user, 0))
  {
    var j, h := FirstMissed(kinds, plan, user, 0), Horizon(kinds, plan);
    Order(kinds, plan, 0);
    UserSame(tables, kinds, plan, user, j);
    forall k | 0 <= k < h && (k >= W(kinds, plan, 1) || k > j) ensures !kinds[k].OneRole? {
      if k < j {
        BeforeMissed(kinds, plan, user, k);
      } else if k > j {
        AfterMissed(kinds, plan, user, j, k);
      }
    }
    var r := ReadsOf(tables, plan);
    var roles := RolesRead(r, user);
    forall i | 0 <= i < |roles| ensures SameLinks(r.links(i), tables[j], roles[i]) {
      Order(kinds, plan, i);
      RoleSame(tables, kinds, W(kinds, plan, LinksQuery(i)), j, roles[i]);
    }
    forall role ensures SameLinks(r.roles, tables[j], role) {
      RoleSame(tables, kinds, W(kinds, plan, 1), j, role);
    }
  }

  lemma {:induction false} RolesDistinct(roles: seq<Id>, links: set<(Id, Id)>, user: Id)
    requires DistinctRoles(roles)
    ensures DistinctRoles(RolesAmong(roles, links, user))
  {
    if roles != [] {
      RolesDistinct(roles[1..], links, user);
      var rest := RolesAmong(roles[1..], links, user);
      forall i | 0 <= i < |rest| ensures rest[i] != roles[0] {
        assert rest[i] in rest;
      }
    }
  }

  /** Other roles than the one that moves stay from the second query on. */
  lemma OtherRolesStay(tables: seq<Database>, kinds: seq<Kind>, plan: Plan, user: Id, a: nat, b: nat, role: Id)
    requires History(tables, kinds) && !Reordered(kinds, plan, user)
    requires var j := FirstMissed(kinds, plan, user, 0);
             j < Horizon(kinds, plan) && kinds[j].OneRole? && kinds[j] != OneRole(role)
    requires W(kinds, plan, 1) <= a <= Horizon(kinds, plan) && W(kinds, plan, 1) <= b <= Horizon(kinds, plan)
    ensures SameLinks(tables[a], tables[b], role)
  {
    var j := FirstMissed(kinds, plan, user, 0);
    forall k | W(kinds, plan, 1) <= k < Horizon(kinds, plan) ensures kinds[k] != OneRole(role) {
      if k < j {
        BeforeMissed(kinds, plan, user, k);
      } else if k > j {
        AfterMissed(kinds, plan, user, j, k);
      }
    }
    RoleSame(tables, kinds, a, b, role);
  }

  /** The links of the role that moves are those of its own read, or of the last instant at which the user still has its roles. */
  lemma MovingRole(tables: seq<Database>, kinds: seq<Kind>, plan: Plan, user: Id, x: nat) returns (y: nat)
    requires History(tables, kinds) && !Reordered(kinds, plan, user)
    requires var j := FirstMissed(kinds, plan, user, 0); j < Horizon(kinds, plan) && kinds[j].OneRole?
    requires W(kinds, plan, 1) <= x <= Horizon(kinds, plan)
    ensures var j := FirstMissed(kinds, plan, user, 0);
            && j <= y <= Horizon(kinds, plan) && SameLinks(tables[x], tables[y], kinds[j].role)
            && (forall k :: j <= k < y ==> kinds[k] != UserRoles(user)) && (x <= j ==> y == j)
  {
    var j := FirstMissed(kinds, plan, user, 0);
    var role := kinds[j].role;
    if x <= j {
      y := j;
      forall k | x <= k < j ensures !kinds[k].OneRole? {
        BeforeMissed(kinds, plan, user, k);
      }
      RoleSame(tables, kinds, x, j, role);
    } else {
      var u := FirstFrom(kinds, UserRoles(user), j);
      if x <= u {
        y := x;
      } else {
        y := u;
        LaterSeesLater(plan, |kinds|, 0, 1);
        forall k | u < k < x ensures !kinds[k].OneRole? {
          AfterMissed(kinds, plan, user, u, k);
        }
        RoleSame(tables, kinds, x, u, role);
      }
    }
  }

  /** The first call that may be missed changes a role: the instant is that of the role's read, if the check visits it. */
  lemma MovingRoles(tables: seq<Database>, kinds: seq<Kind>, plan: Plan, user: Id) returns (y: nat)
    requires History(tables, kinds) && !Reordered(kinds, plan, user)
    requires var j := FirstMissed(kinds, plan, user, 0); j < Horizon(kinds, plan) && kinds[j].OneRole?
    ensures FirstMissed(kinds, plan, user, 0) <= y <= Horizon(kinds, plan) && Matches(tables, plan, user, y)
  {
    var j := FirstMissed(kinds, plan, user, 0);
    var r := ReadsOf(tables, plan);
    var roles := RolesRead(r, user);
    var moving := kinds[j].role;
    Order(kinds, plan, 0);
    assert Sound(tables[W(kinds, plan, 1)]);
    RolesDistinct(r.roles.roles, r.users.userRoles, user);
    var x := W(kinds, plan, 1);
    if i :| 0 <= i < |roles| && roles[i] == moving {
      Order(kinds, plan, i);
      x := W(kinds, plan, LinksQuery(i));
    }
    y := MovingRole(tables, kinds, plan, user, x);
    UserSame(tables, kinds, plan, user, y);
    forall i | 0 <= i < |roles| ensures SameLinks(r.links(i), tables[y], roles[i]) {
      Order(kinds, plan, i);
      if roles[i] != moving {
        OtherRolesStay(tables, kinds, plan, user, W(kinds, plan, LinksQuery(i)), y, roles[i]);
      }
    }
    forall role | role !in r.roles.roles ensures SameLinks(r.roles, tables[y], role) {
      if role != moving {
        OtherRolesStay(tables, kinds, plan, user, W(kinds, plan, 1), y, role);
      }
    }
  }

  /** All queries for permission rows, the recursive one included, see the rows of the instant. */
  lemma RowsMatch(tables: seq<Database>, kinds: seq<Kind>, plan: Plan, user: Id, y: nat, q: nat)
    requires History(tables, kinds) && !Reordered(kinds, plan, user) && !SplitRows(kinds, plan)
    requires FirstMissed(kinds, plan, user, 0) <= y <= Horizon(kinds, plan) && q >= 3
    ensures tables[W(kinds, plan, q)].permissions == tables[y].permissions
  {
    var j := FirstMissed(kinds, plan, user, 0);
    LaterSeesLater(plan, |kinds|, 3, q);
    NothingNewer(plan, |kinds|, q);
    RowsKept(tables, kinds, W(kinds, plan, 3), W(kinds, plan, q));
    if y < W(kinds, plan, 3) {
      forall k | y <= k < W(kinds, plan, 3) ensures kinds[k] != Rows {
        if k > j {
          AfterMissed(kinds, plan, user, j, k);
        }
      }
      RowsKept(tables, kinds, y, W(kinds, plan, 3));
    } else {
      RowsKept(tables, kinds, W(kinds, plan, 3), y);
    }
  }

  lemma SameDirectIds(tables: seq<Database>, plan: Plan, user: Id, y: nat)
    requires tables != [] && y < |tables| && Matches(tables, plan, user, y)
    requires Sound(tables[y]) && Sound(ReadsOf(tables, plan).roles)
    requires forall i :: ReadsOf(tables, plan).rows(i).permissions == tables[y].permissions
    ensures var r := ReadsOf(tables, plan);
            var direct := DirectRead(r, RolesRead(r, user), 0);
            forall p :: p in direct <==> p in DirectPermissions(tables[y], RolesOf(tables[y], user))
  {
    var r := ReadsOf(tables, plan);
    var roles := RolesRead(r, user);
    var db := tables[y];
    forall p | p in DirectRead(r, roles, 0) ensures p in DirectPermissions(db, RolesOf(db, user)) {
      var i := DirectReadOrigin(r, roles, 0, p);
      assert roles[i] in roles && SameLinks(r.links(i), db, roles[i]);
      LinkedIsGranted(db, user, roles[i], p);
    }
    forall p | p in DirectPermissions(db, RolesOf(db, user)) ensures p in DirectRead(r, roles, 0) {
      var role :| role in RolesOf(db, user) && (role, p.id) in db.rolePermissions;
      assert role !in r.roles.roles ==> SameLinks(r.roles, db, role);
      assert role in roles;
      var i :| 0 <= i < |roles| && roles[i] == role;
      assert SameLinks(r.links(i), db, roles[i]);
      assert Finds(r, roles, 0, i, p);
      DirectReadHas(r, roles, 0, i, p);
    }
  }

  lemma NotTornIsSnapshot(tables: seq<Database>, kinds: seq<Kind>, plan: Plan, user: Id)
    requires History(tables, kinds) && !Reordered(kinds, plan, user) && !SplitRows(kinds, plan)
    ensures IsSnapshot(tables, plan, user)
  {
    var j := FirstMissed(kinds, plan, user, 0);
    var y := j;
    if j < Horizon(kinds, plan) && kinds[j].OneRole? {
      y := MovingRoles(tables, kinds, plan, user);
    } else {
      QuietRoles(tables, kinds, plan, user);
    }
    var r := ReadsOf(tables, plan);
    forall i: nat ensures r.rows(i).permissions == tables[y].permissions {
      RowsMatch(tables, kinds, plan, user, y, RowsQuery(i));
    }
    SameDirectIds(tables, plan, user, y);
    var roles := RolesRead(r, user);
    if roles != [] {
      RowsMatch(tables, kinds, plan, user, y, LinksQuery(|roles|));
    }
    SnapshotKeys(r, tables[y], user);
  }

  lemma SnapshotKeys(r: Reads, db: Database, user: Id)
    requires Sound(db)
    requires var roles := RolesRead(r, user);
             && (roles != [] ==> r.tree(|roles|).permissions == db.permissions)
             && forall p :: p in DirectRead(r, roles, 0) <==> p in DirectPermissions(db, RolesOf(db, user))
    ensures Keys(AllRead(r, user)) == KeysOf(db, user)
  {
    var direct, own := DirectRead(r, RolesRead(r, user), 0), DirectPermissions(db, RolesOf(db, user));
    KeysByIds(db.permissions, direct, own);
  }

  // ----- runs on which a check is torn -----

  const OTHER := Permission(2, None, "GET", "/b")
  const BELOW := Permission(2, Some(1), "GET", "/b")

  /**
   A role comes into being after the roles are read, and then another one loses its permission. The
   user was linked to it before: assigning roles does not ask whether they exist.
   */
  lemma RoleThenOther(kinds: seq<Kind>, plan: Plan, user: Id, j: nat, k: nat, made: Id, lost: Id)
    requires j < k < Horizon(kinds, plan) && W(kinds, plan, 1) <= j && kinds[j] == OneRole(made) && lost != made
    requires kinds[k] == OneRole(lost) || (kinds[k] == Rows && k < W(kinds, plan, 3))
    ensures !AlwaysSnapshot(kinds, plan, user)
  {
    var before := Fillers(|plan|, made + lost) + [lost];
    var links := AllLinks(user, before + [made]);
    var a := Database([GRANT, OTHER], before, links, {(lost, 2)});
    var b := Database([GRANT, OTHER], before + [made], links, {(lost, 2), (made, 1)});
    var c := if kinds[k] == Rows then b.(permissions := [GRANT]) else b.(rolePermissions := {(made, 1)});
    RoleThenOtherSound(user, |plan|, made, lost, kinds[k] == Rows, a, b, c);
    StagesHistory(kinds, j, k, a, b, c);
    StagesRead(kinds, plan, j, k, a, b, c);
    var tables := Stages(|kinds|, j, k, a, b, c);
    RoleThenOtherReads(ReadsOf(tables, plan), kinds, plan, user, j, k, made, lost, a, b, c);
    NothingRead(tables, plan, user);
    StagesDiffer(KeysOf, |kinds|, j, k, a, b, c, user, {});
    NoneLike(tables, plan, user);
  }

  /** No stage has these keys. */
  lemma StagesDiffer(keysOf: (Database, Id) -> Keyset, n: nat, j: nat, k: nat, a: Database, b: Database, c: Database, user: Id, keys: Keyset)
    requires keysOf(a, user) != keys && keysOf(b, user) != keys && keysOf(c, user) != keys
    ensures var tables := Stages(n, j, k, a, b, c); forall i :: 0 <= i < |tables| ==> keysOf(tables[i], user) != keys
  {
  }

  lemma NothingRead(tables: seq<Database>, plan: Plan, user: Id)
    requires tables != [] && AllRead(ReadsOf(tables, plan), user) == []
    ensures KeysRead(tables, plan, user) == {}
  {
  }

  lemma NoneLike(tables: seq<Database>, plan: Plan, user: Id)
    requires forall i :: 0 <= i < |tables| ==> KeysOf(tables[i], user) != KeysRead(tables, plan, user)
    ensures !IsSnapshot(tables, plan, user)
  {
  }

  lemma KeyGranted(db: Database, user: Id, role: Id, p: Permission)
    requires Sound(db) && (user, role) in db.userRoles && role in db.roles && (role, p.id) in db.rolePermissions
    requires p in db.permissions && p.verb != "" && p.path != ""
    ensures Key(p.verb, p.path) in KeysOf(db, user)
  {
    LinkedIsGranted(db, user, role, p);
  }

  lemma RoleThenOtherSound(user: Id, n: nat, made: Id, lost: Id, rows: bool, a: Database, b: Database, c: Database)
    requires made != lost
    requires var before := Fillers(n, made + lost) + [lost];
             var links := AllLinks(user, before + [made]);
             && a == Database([GRANT, OTHER], before, links, {(lost, 2)})
             && b == Database([GRANT, OTHER], before + [made], links, {(lost, 2), (made, 1)})
             && c == (if rows then b.(permissions := [GRANT]) else b.(rolePermissions := {(made, 1)}))
    ensures Sound(a) && Sound(b) && Sound(c)
    ensures KeysOf(a, user) != {} && KeysOf(b, user) != {} && KeysOf(c, user) != {}
  {
    var before := Fillers(n, made + lost) + [lost];
    FillersThen(n, made + lost, lost);
    assert (before + [made])[n] == lost && (before + [made])[n + 1] == made;
    SoundTables(a);
    SoundTables(b);
    SoundTables(c);
    assert GRANT in c.permissions by { assert c.permissions[0] == GRANT; }
    KeyGranted(a, user, lost, OTHER);
    KeyGranted(b, user, made, GRANT);
    KeyGranted(c, user, made, GRANT);
  }

  lemma SoundTables(db: Database)
    requires db.permissions == [GRANT, OTHER] || db.permissions == [GRANT]
    requires DistinctRoles(db.roles) && forall role, id :: (role, id) in db.rolePermissions ==> role in db.roles
    ensures Sound(db) && (db.permissions == [GRANT, OTHER] ==> GRANT in db.permissions && OTHER in db.permissions)
  {
    assert db.permissions[0] == GRANT;
    assert |db.permissions| > 1 ==> db.permissions[1] == OTHER;
  }

  /** The only role with a link that is read has lost it, or the row it links to. */
  lemma NothingFound(r: Reads, roles: seq<Id>, n: nat, i: nat, p: Permission, made: Id, lost: Id)
    requires roles == Fillers(n, made + lost) + [lost] && made != lost && i < |roles|
    requires forall x, id :: (x, id) in r.links(i).rolePermissions ==> (x == lost && id == 2) || x == made
    requires i == n ==> (lost, 2) !in r.links(i).rolePermissions || r.rows(i).permissions == [GRANT]
    ensures !Finds(r, roles, 0, i, p)
  {
  }

  lemma RoleThenOtherReads(r: Reads, kinds: seq<Kind>, plan: Plan, user: Id, j: nat, k: nat, made: Id, lost: Id, a: Database, b: Database, c: Database)
    requires Staged(r, kinds, plan, j, k, a, b, c) && j < k < Horizon(kinds, plan) && k < |kinds| && W(kinds, plan, 1) <= j
    requires made != lost && (kinds[k] == Rows ==> k < W(kinds, plan, 3))
    requires var before := Fillers(|plan|, made + lost) + [lost];
             var links := AllLinks(user, before + [made]);
             && a == Database([GRANT, OTHER], before, links, {(lost, 2)})
             && b == Database([GRANT, OTHER], before + [made], links, {(lost, 2), (made, 1)})
             && c == (if kinds[k] == Rows then b.(permissions := [GRANT]) else b.(rolePermissions := {(made, 1)}))
    ensures AllRead(r, user) == []
  {
    var n := |plan|;
    var roles := Fillers(n, made + lost) + [lost];
    AllRoles(roles, r.users.userRoles, user);
    FillersThen(n, made + lost, lost);
    var direct := DirectRead(r, roles, 0);
    forall i, p | 0 <= i < |roles| ensures !Finds(r, roles, 0, i, p) {
      assert StagedAt(r, kinds, plan, k, a, b, c, i);
      NothingFound(r, roles, n, i, p, made, lost);
    }
    forall p ensures p !in direct {
      if p in direct {
        var i := DirectReadOrigin(r, roles, 0, p);
      }
    }
    if direct != [] {
      HasMember(direct);
    }
  }

  /** One statement deletes a parent and its child after the parent has been collected. */
  lemma DeletedBetween(kinds: seq<Kind>, plan: Plan, user: Id, i: nat)
    requires W(kinds, plan, 3) <= i < Horizon(kinds, plan) && kinds[i] == Rows
    ensures !AlwaysSnapshot(kinds, plan, user)
  {
    var roles := [1] + Fillers(|plan|, 1);
    var a := Database([GRANT, BELOW], roles, AllLinks(user, roles), {(1, 1)});
    var c := Database([], roles, AllLinks(user, roles), {(1, 1)});
    DeletedSound(a, c, |plan|);
    StagesHistory(kinds, i, i, a, c, c);
    StagesRead(kinds, plan, i, i, a, c, c);
    var tables := Stages(|kinds|, i, i, a, c, c);
    DeletedReads(ReadsOf(tables, plan), kinds, plan, user, i, roles, a, c);
    BothGranted(a, user, roles);
    KeysApart(KeysOf(a, user));
    NoKeys(c, user);
    StagesDiffer(KeysOf, |kinds|, i, i, a, c, c, user, KeysRead(tables, plan, user));
    NoneLike(tables, plan, user);
  }

  lemma DeletedSound(a: Database, c: Database, n: nat)
    requires a.permissions == [GRANT, BELOW] && c.permissions == [] && a.roles == c.roles == [1] + Fillers(n, 1)
    requires a.rolePermissions == c.rolePermissions == {(1, 1)}
    ensures Sound(a) && Sound(c) && 1 in a.roles
  {
    FillersThen(n, 1, 1);
    assert a.roles[0] == 1;
  }

  lemma KeysApart(keys: Keyset)
    requires Key("GET", "/b") in keys
    ensures keys != {Key("GET", "/a")}
  {
    assert Key("GET", "/a")[5] != Key("GET", "/b")[5];
  }

  lemma DeletedReads(r: Reads, kinds: seq<Kind>, plan: Plan, user: Id, i: nat, roles: seq<Id>, a: Database, c: Database)
    requires Staged(r, kinds, plan, i, i, a, c, c) && W(kinds, plan, 3) <= i < Horizon(kinds, plan)
    requires roles == [1] + Fillers(|plan|, 1) && a == Database([GRANT, BELOW], roles, AllLinks(user, roles), {(1, 1)})
    requires c == a.(permissions := [])
    ensures Keys(AllRead(r, user)) == {Key("GET", "/a")}
  {
    AllRoles(roles, r.users.userRoles, user);
    assert StagedAt(r, kinds, plan, i, a, c, c, |roles|);
    forall x ensures r.rows(x).permissions in {a.permissions, []} && r.links(x).rolePermissions == {(1, 1)} {
      assert StagedAt(r, kinds, plan, i, a, c, c, x);
    }
    OnlyGrantRead(r, roles);
    NothingBelow(DirectRead(r, roles, 0));
  }

  /** The first role's rows are read before the deletion; no role has another link. */
  lemma OnlyGrantRead(r: Reads, roles: seq<Id>)
    requires roles != [] && roles[0] == 1 && r.rows(0).permissions == [GRANT, BELOW]
    requires forall x :: r.rows(x).permissions in {[GRANT, BELOW], []} && r.links(x).rolePermissions == {(1, 1)}
    ensures GRANT in DirectRead(r, roles, 0) && forall p :: p in DirectRead(r, roles, 0) ==> p == GRANT
  {
    assert r.rows(0).permissions[0] == GRANT;
    assert Finds(r, roles, 0, 0, GRANT);
    DirectReadHas(r, roles, 0, 0, GRANT);
    forall p | p in DirectRead(r, roles, 0) ensures p == GRANT {
      var x := DirectReadOrigin(r, roles, 0, p);
    }
  }

  lemma NothingBelow(direct: seq<Permission>)
    requires GRANT in direct && forall p :: p in direct ==> p == GRANT
    ensures Keys(WithChildren([], direct)) == {Key("GET", "/a")}
  {
    forall p | p in WithChildren([], direct) ensures p == GRANT {
      RowsOfWithChildren([], direct, p);
    }
    UniqueByIdHas(direct + ChildPermissions([], direct), GRANT);
  }

  lemma BothGranted(a: Database, user: Id, roles: seq<Id>)
    requires Sound(a) && a == Database([GRANT, BELOW], roles, AllLinks(user, roles), {(1, 1)}) && 1 in roles
    ensures Key("GET", "/b") in KeysOf(a, user)
  {
    var t := a.permissions;
    assert t[0] == GRANT && t[1] == BELOW && t[1..] == [BELOW];
    LinkedIsGranted(a, user, 1, GRANT);
    assert Has(t, 1) && Has(t, 2) && RowOf(t, 2) == BELOW;
    assert Ancestor(t, 2, 1) == Ancestor(t, 1, 0) == Some(1);
    var direct := DirectPermissions(a, RolesOf(a, user));
    FoundFrom(t, direct, GRANT, BELOW, 1);
    RowsStay(t, direct, BELOW);
  }

  lemma SnapshotsGrantOnlySeen(kinds: seq<Kind>, plan: Plan, user: Id)
    requires AlwaysSnapshot(kinds, plan, user)
    ensures GrantsOnlySeen(kinds, plan, user)
  {
    forall tables, verb, path | History(tables, kinds) && Searches(KeysRead(tables, plan, user), verb, path)
      ensures AllowedSometime(tables, user, verb, path)
    {
      assert IsSnapshot(tables, plan, user);
      var i :| 0 <= i < |tables| && KeysRead(tables, plan, user) == KeysOf(tables[i], user);
      assert Uncached(tables[i], user, verb, path);
    }
  }

  lemma ReorderedIsTorn(kinds: seq<Kind>, plan: Plan, user: Id, j: nat, k: nat)
    requires j < k < Horizon(kinds, plan) && Missed(kinds, plan, user, j) && Follows(kinds[j], kinds[k])
    ensures !AlwaysSnapshot(kinds, plan, user)
  {
    if AlwaysSnapshot(kinds, plan, user) {
      SnapshotsGrantOnlySeen(kinds, plan, user);
    }
    if kinds[j] == UserRoles(user) {
      if kinds[k] == Rows {
        UserThenRows(kinds, plan, user, j, k);
      } else {
        UserThenRole(kinds, plan, user, j, k, kinds[k].role);
      }
    } else if kinds[k] == Rows && W(kinds, plan, 3) <= k {
      DeletedBetween(kinds, plan, user, k);
    } else {
      var made := kinds[j].role;
      RoleThenOther(kinds, plan, user, j, k, made, if kinds[k].OneRole? then kinds[k].role else made + 1);
    }
  }

  /**
   Whatever the tables, a check gives the answer of one instant of the run, if and only if no
   permission rows change between the first read of them and the last query, and no call that it
   may miss comes before one of another aspect that it may see.
   */
  lemma AlwaysSnapshotIff(kinds: seq<Kind>, plan: Plan, user: Id)
    ensures AlwaysSnapshot(kinds, plan, user) <==> !SplitRows(kinds, plan) && !Reordered(kinds, plan, user)
  {
    if SplitRows(kinds, plan) {
      var i :| W(kinds, plan, 3) <= i < Horizon(kinds, plan) && kinds[i] == Rows;
      DeletedBetween(kinds, plan, user, i);
    } else if Reordered(kinds, plan, user) {
      var j, k :| 0 <= j < k < Horizon(kinds, plan) && Missed(kinds, plan, user, j) && Follows(kinds[j], kinds[k]);
      ReorderedIsTorn(kinds, plan, user, j, k);
    } else {
      forall tables | History(tables, kinds) ensures IsSnapshot(tables, plan, user) {
        NotTornIsSnapshot(tables, kinds, plan, user);
      }
    }
  }

  /** The queries before number n run before the call, the others after it. */
  function CutPlan(n: nat): Plan {
    seq(n + 1, q => if q < n then 0 else 1)
  }

  lemma {:induction false} CutAt(n: nat, q: nat)
    ensures When(CutPlan(n), 1, q) == if q < n then 0 else 1
  {
    if q > 0 {
      CutAt(n, q - 1);
    }
  }

  /**
   With a single call between the queries of a check: a change of one user's roles or of one role
   never tears it, and a change of permission rows does only after the fourth query, which is the
   first read of them.
   */
  lemma OneCallIff(kind: Kind, n: nat, user: Id)
    ensures AlwaysSnapshot([kind], CutPlan(n), user) <==> !(kind == Rows && n >= 4)
  {
    var kinds := [kind];
    CutAt(n, 3);
    CutAt(n, n + 1);
    AlwaysSnapshotIff(kinds, CutPlan(n), user);
    if kind == Rows && n >= 4 {
      assert W(kinds, CutPlan(n), 3) <= 0 < Horizon(kinds, CutPlan(n)) && kinds[0] == Rows;
    }
  }
}
