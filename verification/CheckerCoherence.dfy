/**
 The permission checker in the cache protocol (internal/modules/iam/service/permission_checker.go:36-57,
 81-123, and the handlers of internal/modules/iam/handler): which schedules of checks and handlers
 give the uncached answer, whatever the tables hold.
 */
module CheckerCoherence {
  import opened Wrappers
  import opened PermissionTree
  import opened PermissionCheck
  import opened PermissionReads
  import opened QueryPlans
  import opened PermissionCache
  import opened CacheCoherence

  /** Assigning roles to one user does not change what any other user may do. */
  lemma CheckerIsLocal(ttl: int)
    ensures Local(Checker(ttl))
  {
    forall before, after, scope, user: Id | InScope(before, after, scope) && !Covers(scope, user)
      ensures KeysOf(after, user) == KeysOf(before, user)
    {
      forall role ensures (user, role) in before.userRoles <==> (user, role) in after.userRoles {
        assert (user, role) in before.userRoles + after.userRoles
            || ((user, role) !in before.userRoles && (user, role) !in after.userRoles);
      }
      OtherUsersDoNotMatter(before, after, user);
    }
  }

  lemma {:induction false} UndisturbedIsSame(tables: seq<Database>, user: Id, i: nat)
    requires Undisturbed(tables, user) && i < |tables|
    ensures SameFor(tables[|tables| - 1], tables[i], user)
    decreases |tables| - i
  {
    if i < |tables| - 1 {
      UndisturbedIsSame(tables, user, i + 1);
      var j := i + 1;
      assert Elsewhere(tables[i], tables[j], user);
      ElsewhereIsSame(tables[i], tables[j], user);
    }
  }

  lemma ElsewhereIsSame(a: Database, b: Database, user: Id)
    requires Elsewhere(a, b, user)
    ensures SameFor(b, a, user)
  {
    forall role ensures (user, role) in b.userRoles <==> (user, role) in a.userRoles {
      assert (user, role) in a.userRoles + b.userRoles || ((user, role) !in a.userRoles && (user, role) !in b.userRoles);
    }
  }

  /** Changes outside a user's scope do not matter to the separate queries of the user's check. */
  lemma CheckerIsSteady(ttl: int)
    ensures Steady(Checker(ttl)) && ReadsAtOnce(Checker(ttl))
  {
    forall tables, plan, user | Undisturbed(tables, user)
      ensures KeysRead(tables, plan, user) == KeysOf(tables[|tables| - 1], user)
    {
      forall i | 0 <= i < |tables| ensures SameFor(tables[|tables| - 1], tables[i], user) {
        UndisturbedIsSame(tables, user, i);
      }
      UndisturbedIsExact(tables, plan, user);
    }
    forall tables: seq<Database>, user: Id | tables != []
      ensures KeysRead(tables, [], user) == KeysOf(tables[0], user)
    {
      AtOnceIsExact(tables, user);
    }
  }

  /**
   With tables changed only by handlers and no check of the user overtaken, a user not covered by a
   handler that has yet to invalidate always gets the uncached answer.
   */
  lemma ExactCoherence(ttl: int, s: State, actions: seq<Action>, user: Id, verb: string, path: string)
    requires Fresh(s) && HandlersOnly(actions) && NeverOvertaken(Checker(ttl), s, actions, user)
    requires !InFlight(Run(Checker(ttl), s, actions), user)
    ensures var end := Run(Checker(ttl), s, actions);
            Answer(ttl, end, user, verb, path) <==> Uncached(end.db, user, verb, path)
  {
    CheckerIsLocal(ttl);
    CheckerIsSteady(ttl);
    assert actions[..|actions|] == actions;
    NotOvertakenIsRight(Checker(ttl), s, actions, |actions|, user);
  }

  /** Every check is one step. */
  ghost predicate AtomicChecks(actions: seq<Action>) {
    forall k :: 0 <= k < |actions| ==> !actions[k].BeginLoad?
  }

  lemma {:induction false} NoLoads(cfg: Config, s: State, actions: seq<Action>, n: nat)
    requires Fresh(s) && AtomicChecks(actions) && n <= |actions|
    ensures At(cfg, s, actions, n).loads == map[]
    decreases n
  {
    if n == 0 {
      AtStart(cfg, s, actions);
    } else {
      NoLoads(cfg, s, actions, n - 1);
      AtNext(cfg, s, actions, n - 1);
    }
  }

  /** A check that is one step cannot be overtaken, so with such checks coherence is unconditional. */
  lemma AtomicCoherence(ttl: int, s: State, actions: seq<Action>, user: Id, verb: string, path: string)
    requires Fresh(s) && HandlersOnly(actions) && AtomicChecks(actions)
    requires !InFlight(Run(Checker(ttl), s, actions), user)
    ensures var end := Run(Checker(ttl), s, actions);
            Answer(ttl, end, user, verb, path) <==> Uncached(end.db, user, verb, path)
  {
    forall n | 0 <= n < |actions| ensures !OvertakenAt(Checker(ttl), s, actions, n, user) {
      NoLoads(Checker(ttl), s, actions, n);
    }
    ExactCoherence(ttl, s, actions, user, verb, path);
  }

  /** Every answer to the user in the run is the uncached one, except while a covering handler is in flight. */
  ghost predicate AnswersRight(ttl: int, s: State, actions: seq<Action>, user: Id) {
    forall n, verb, path :: 0 <= n <= |actions| ==> AnswerRightAt(ttl, s, actions, n, user, verb, path)
  }

  ghost predicate AnswerRightAt(ttl: int, s: State, actions: seq<Action>, n: nat, user: Id, verb: string, path: string)
    requires n <= |actions|
  {
    var at := At(Checker(ttl), s, actions, n);
    InFlight(at, user) || (Answer(ttl, at, user, verb, path) <==> Uncached(at.db, user, verb, path))
  }

  /** The schedule gives right answers to the user whatever the tables hold and its handlers write. */
  ghost predicate SafeSchedule(ttl: int, s: State, actions: seq<Action>, user: Id) {
    forall s', actions' :: Fresh(s') && HandlersOnly(actions') && SameSchedule(Checker(ttl), s, actions, s', actions')
      ==> AnswersRight(ttl, s', actions', user)
  }

  const ANY_GRANT := Permission(1, None, "GET", "/a")

  /** One role and one permission, linked to the user and to each other or not. */
  function OneGrant(users: set<(Id, Id)>, links: set<(Id, Id)>): Database {
    Database([ANY_GRANT], [1], users, links)
  }

  lemma RoleGrants(user: Id)
    ensures Key("GET", "/a") in KeysOf(OneGrant({(user, 1)}, {(1, 1)}), user)
  {
    var d := OneGrant({(user, 1)}, {(1, 1)});
    assert d.permissions[0] == ANY_GRANT;
    SelfAncestor(d.permissions, 1);
    AllPermissionsResult(d, user);
    assert (user, 1) in d.userRoles && (1, 1) in d.rolePermissions;
    assert ANY_GRANT in AllPermissions(d, user);
  }

  lemma NothingGranted(users: set<(Id, Id)>, links: set<(Id, Id)>, user: Id)
    requires users == {} || links == {}
    ensures KeysOf(OneGrant(users, links), user) == {}
  {
    NothingLinked(OneGrant(users, links), user);
  }

  /** Taking the user's role away changes what is allowed, and so does taking the role's permission away. */
  lemma GrantNeedsLinks(user: Id)
    ensures Searches(KeysOf(OneGrant({(user, 1)}, {(1, 1)}), user), "GET", "/a")
    ensures !Uncached(OneGrant({}, {(1, 1)}), user, "GET", "/a") && !Uncached(OneGrant({(user, 1)}, {}), user, "GET", "/a")
  {
    RoleGrants(user);
    NothingGranted({}, {(1, 1)}, user);
    NothingGranted({(user, 1)}, {}, user);
  }

  lemma TablesDiffer(ttl: int, user: Id)
    ensures var d0, own, shared := OneGrant({(user, 1)}, {(1, 1)}), OneGrant({}, {(1, 1)}), OneGrant({(user, 1)}, {});
            && Differ(Checker(ttl), d0, own, user, OneUser(user)) && Differ(Checker(ttl), d0, shared, user, AllUsers)
            && Searches(KeysOf(d0, user), "GET", "/a")
            && !Uncached(own, user, "GET", "/a") && !Uncached(shared, user, "GET", "/a")
  {
    GrantNeedsLinks(user);
  }

  /** A check begins, the user's role is taken away and the cache invalidated. */
  function TakenAway(user: Id): seq<Action> {
    [BeginLoad(0, user)] + [Handle(1, OneUser(user), OneGrant({}, {(1, 1)}))] + [Invalidate(1)]
  }

  lemma BeginsLoad(cfg: Config, s: State, user: Id)
    requires Fresh(s)
    ensures Next(cfg, s, BeginLoad(0, user)) == s.(loads := map[0 := Load(user, [s.db], s.now)])
  {
  }

  lemma RoleTaken(cfg: Config, s: State, user: Id, load: Load)
    requires s.cache == map[] && s.handlers == map[] && s.loads == map[0 := load] && s.db == OneGrant({(user, 1)}, {(1, 1)})
    ensures var own := OneGrant({}, {(1, 1)});
            Next(cfg, s, Handle(1, OneUser(user), own))
            == s.(db := own, loads := map[0 := load.(tables := load.tables + [own])], handlers := map[1 := OneUser(user)])
  {
  }

  lemma InvalidatesOne(cfg: Config, s: State, user: Id)
    requires s.cache == map[] && s.handlers == map[1 := OneUser(user)]
    ensures Next(cfg, s, Invalidate(1)) == s.(handlers := map[])
  {
  }

  lemma AfterTakenAway(cfg: Config, s: State, user: Id)
    requires Fresh(s) && s.db == OneGrant({(user, 1)}, {(1, 1)})
    ensures var own := OneGrant({}, {(1, 1)});
            Run(cfg, s, TakenAway(user)) == s.(db := own, loads := map[0 := Load(user, [s.db] + [own], s.now)])
  {
    var a, b: Action := BeginLoad(0, user), Handle(1, OneUser(user), OneGrant({}, {(1, 1)}));
    assert [] + [a] == [a];
    RunSnoc(cfg, s, [], a);
    RunSnoc(cfg, s, [a], b);
    RunSnoc(cfg, s, [a] + [b], Invalidate(1));
    BeginsLoad(cfg, s, user);
    var s1 := Run(cfg, s, [a]);
    RoleTaken(cfg, s1, user, Load(user, [s.db], s.now));
    InvalidatesOne(cfg, Run(cfg, s, [a] + [b]), user);
  }

  lemma WritesLast(cfg: Config, s: State, user: Id, load: Load)
    requires cfg.ttl > 0 && s.handlers == map[] && s.loads == map[0 := load] && load.user == user
    ensures var end := Next(cfg, s, FinishLoad(0, []));
            && !InFlight(end, user) && end.loads == map[] && end.db == s.db
            && Searched(cfg, end, user) == cfg.keysRead(load.tables, [], user)
  {
  }

  /** So there are unsafe schedules: the check writes last, and the user is still allowed what was taken away. */
  lemma OvertakenAllowsRevoked(ttl: int, s: State, user: Id)
    requires ttl > 0 && Fresh(s) && s.db == OneGrant({(user, 1)}, {(1, 1)})
    ensures var end := Run(Checker(ttl), s, TakenAway(user) + [FinishLoad(0, [])]);
            && !InFlight(end, user) && end.loads == map[]
            && Answer(ttl, end, user, "GET", "/a") && !Uncached(end.db, user, "GET", "/a")
  {
    var cfg, own := Checker(ttl), OneGrant({}, {(1, 1)});
    AfterTakenAway(cfg, s, user);
    RunSnoc(cfg, s, TakenAway(user), FinishLoad(0, []));
    WritesLast(cfg, Run(cfg, s, TakenAway(user)), user, Load(user, [s.db] + [own], s.now));
    AtOnceIsExact([s.db] + [own], user);
    TablesDiffer(ttl, user);
  }

  lemma NotOvertakenAnswersRight(ttl: int, s: State, actions: seq<Action>, user: Id)
    requires Fresh(s) && HandlersOnly(actions) && NeverOvertaken(Checker(ttl), s, actions, user)
    ensures AnswersRight(ttl, s, actions, user)
  {
    CheckerIsLocal(ttl);
    CheckerIsSteady(ttl);
    forall n, verb: string, path: string | 0 <= n <= |actions|
      ensures AnswerRightAt(ttl, s, actions, n, user, verb, path)
    {
      NotOvertakenIsRight(Checker(ttl), s, actions, n, user);
    }
  }

  /** After a stale write the user is answered for the keys it wrote. */
  lemma StaleAnswer(ttl: int, s: State, actions: seq<Action>, n: nat, user: Id, verb: string, path: string)
    requires n < |actions| && StaleWriteAt(Checker(ttl), s, actions, n, user)
    ensures var at := At(Checker(ttl), s, actions, n);
            Searches(LoadKeys(Checker(ttl), at.loads[actions[n].t], actions[n].plan), verb, path) && !Uncached(at.db, user, verb, path)
            ==> !AnswerRightAt(ttl, s, actions, n + 1, user, verb, path)
  {
    AtNext(Checker(ttl), s, actions, n);
    StaleWriteShows(Checker(ttl), At(Checker(ttl), s, actions, n), actions[n], user);
  }

  lemma OvertakenIsUnsafe(ttl: int, s: State, actions: seq<Action>, n: nat, user: Id)
    requires Fresh(s) && HandlersOnly(actions) && n < |actions| && OvertakenAt(Checker(ttl), s, actions, n, user)
    ensures !SafeSchedule(ttl, s, actions, user)
  {
    var d0, own, shared := OneGrant({(user, 1)}, {(1, 1)}), OneGrant({}, {(1, 1)}), OneGrant({(user, 1)}, {});
    TablesDiffer(ttl, user);
    CheckerIsSteady(ttl);
    var s', actions', d1 := OvertakenCanBeStale(Checker(ttl), s, actions, n, user, d0, own, shared);
    StaleAnswer(ttl, s', actions', n, user, "GET", "/a");
    assert !AnswersRight(ttl, s', actions', user);
  }

  /**
   A schedule of split checks, handlers, evictions and ticks is safe for a user, whatever the
   tables, if and only if no check of the user is overtaken: no covering handler changes the tables
   between its read and its write with all covering handlers done invalidating by then.
   */
  lemma SafeScheduleIff(ttl: int, s: State, actions: seq<Action>, user: Id)
    requires Fresh(s) && HandlersOnly(actions)
    ensures SafeSchedule(ttl, s, actions, user) <==> NeverOvertaken(Checker(ttl), s, actions, user)
  {
    var cfg := Checker(ttl);
    if NeverOvertaken(cfg, s, actions, user) {
      forall s', actions' | Fresh(s') && HandlersOnly(actions') && SameSchedule(cfg, s, actions, s', actions')
        ensures AnswersRight(ttl, s', actions', user)
      {
        forall n | 0 <= n < |actions'| ensures !OvertakenAt(cfg, s', actions', n, user) {
          SameOvertaken(cfg, s, actions, s', actions', n, user);
        }
        NotOvertakenAnswersRight(ttl, s', actions', user);
      }
    } else {
      var n :| 0 <= n < |actions| && OvertakenAt(cfg, s, actions, n, user);
      OvertakenIsUnsafe(ttl, s, actions, n, user);
    }
  }
}
