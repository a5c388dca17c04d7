/**
 HasPermission behind its TTL cache (internal/modules/iam/service/permission_checker.go:36-57,
 81-91, with internal/modules/iam/cache/permission_cache.go), among table changes, handler
 invalidations and clock ticks.
 */
module PermissionCache {
  import opened Wrappers
  import opened PermissionTree
  import opened PermissionCheck
  import opened MemoryStore
  import opened PermissionReads
  import opened QueryPlans

  // The protocol does not depend on what is computed from the tables, so it takes the
  // computation as a parameter, on one state of them and on the states that the queries of one
  // check see; the theorems at the end put KeysOf and KeysRead in its place.
  datatype Config = Config(ttl: int, keysOf: (Database, Id) -> Keyset, keysRead: (seq<Database>, Plan, Id) -> Keyset)

  // A check that missed the cache and is to write it: the tables since it started, one entry for
  // each change, in which its queries find what they read.
  datatype Load = Load(user: Id, tables: seq<Database>, startedAt: int)

  // Which cached users a handler's tables change can affect, and will invalidate.
  datatype Scope = AllUsers | OneUser(user: Id)

  datatype State = State(
    now: int,
    db: Database,
    cache: map<Id, Entry<Keyset>>,
    loads: map<nat, Load>,
    handlers: map<nat, Scope>)     // handlers that changed the tables and have yet to invalidate

  datatype Action =
    | Pass(d: nat)
    | Drop(user: Id)                               // a delayed delete of an expired read
    | Change(db: Database)                           // any other writer of the tables
    | Handle(h: nat, scope: Scope, db: Database)     // a handler's service call succeeds
    | Invalidate(h: nat)                           // the same handler clears the cache
    | BeginLoad(t: nat, user: Id)
    | FinishLoad(t: nat, plan: Plan)               // its queries have run by this plan; it writes the cache
    | Check(user: Id)                              // a whole HasPermission as one step

  function Hit(s: State, user: Id): Option<Keyset> {
    Lookup(s.cache, user, s.now)
  }

  function Put(s: State, ttl: int, user: Id, keys: Keyset): map<Id, Entry<Keyset>> {
    Step(s.cache, if ttl > 0 then Call.SetWithTTL(user, keys, ttl) else SetForever(user, keys), s.now)
  }

  /** A handler may only touch what its invalidation covers. */
  predicate InScope(before: Database, after: Database, scope: Scope) {
    match scope
    case AllUsers => after.userRoles == before.userRoles
    case OneUser(u) =>
      && after == before.(userRoles := after.userRoles)
      && (forall link | link in before.userRoles + after.userRoles :: link.0 != u ==>
            (link in before.userRoles <==> link in after.userRoles))
  }

  predicate Covers(scope: Scope, user: Id) {
    scope == AllUsers || scope == OneUser(user)
  }

  /** The tables change while checks are under way. */
  function Changed(s: State, db: Database): State {
    s.(db := db, loads := map t | t in s.loads :: s.loads[t].(tables := s.loads[t].tables + [db]))
  }

  /** The keys that the write of a check stores. */
  function LoadKeys(cfg: Config, load: Load, plan: Plan): Keyset {
    cfg.keysRead(load.tables, plan, load.user)
  }

  function Next(cfg: Config, s: State, a: Action): (r: State)
    ensures r.now >= s.now
  {
    match a
    case Pass(d) => s.(now := s.now + d)
    case Drop(u) => s.(cache := s.cache - {u})
    case Change(db) => Changed(s, db)
    case Handle(h, scope, db) =>
      if h !in s.handlers && InScope(s.db, db, scope) then Changed(s, db).(handlers := s.handlers[h := scope]) else s
    case Invalidate(h) =>
      if h !in s.handlers then s else
      s.(handlers := s.handlers - {h},
         cache := match s.handlers[h] case AllUsers => map[] case OneUser(u) => s.cache - {u})
    case BeginLoad(t, u) =>
      if t !in s.loads && Hit(s, u).None? then s.(loads := s.loads[t := Load(u, [s.db], s.now)]) else s
    case FinishLoad(t, plan) =>
      if t in s.loads
      then s.(loads := s.loads - {t}, cache := Put(s, cfg.ttl, s.loads[t].user, LoadKeys(cfg, s.loads[t], plan)))
      else s
    case Check(u) =>
      if Hit(s, u).None? then s.(cache := Put(s, cfg.ttl, u, cfg.keysOf(s.db, u))) else s
  }

  function Run(cfg: Config, s: State, actions: seq<Action>): State
    decreases |actions|
  {
    if actions == [] then s else Next(cfg, Run(cfg, s, actions[..|actions| - 1]), actions[|actions| - 1])
  }

  ghost predicate Fresh(s: State) {
    s.cache == map[] && s.loads == map[] && s.handlers == map[]
  }

  /** A check that missed is answered from the cache for the whole time to live, and no longer, unless the entry is taken away. */
  lemma CheckIsCached(cfg: Config, s: State, user: Id, d: nat)
    requires cfg.ttl > 0 && Hit(s, user).None?
    ensures var checked := Next(cfg, s, Check(user));
            && checked.db == s.db && checked.loads == s.loads && checked.handlers == s.handlers
            && Hit(Next(cfg, checked, Action.Pass(d)), user) == (if d <= cfg.ttl then Some(cfg.keysOf(s.db, user)) else None)
            && Hit(Next(cfg, checked, Drop(user)), user) == None
  {
  }

  // ----- staleness -----

  /** No check takes longer than a bound from reading the tables to writing the cache. */
  ghost predicate LoadsWithin(cfg: Config, s: State, actions: seq<Action>, bound: int) {
    forall k :: 0 <= k < |actions| ==> FinishesWithin(cfg, s, actions, k, bound)
  }

  predicate FinishesWithin(cfg: Config, s: State, actions: seq<Action>, k: nat, bound: int)
    requires k < |actions|
  {
    var at := At(cfg, s, actions, k);
    actions[k].FinishLoad? && actions[k].t in at.loads ==> at.now <= at.loads[actions[k].t].startedAt + bound
  }

  /** The state before action n. */
  function At(cfg: Config, s: State, actions: seq<Action>, n: nat): State
    requires n <= |actions|
  {
    Run(cfg, s, actions[..n])
  }

  lemma AtNext(cfg: Config, s: State, actions: seq<Action>, n: nat)
    requires n < |actions|
    ensures At(cfg, s, actions, n + 1) == Next(cfg, At(cfg, s, actions, n), actions[n])
  {
    assert actions[..n + 1][..n] == actions[..n];
  }

  lemma RunSnoc(cfg: Config, s: State, actions: seq<Action>, a: Action)
    ensures Run(cfg, s, actions + [a]) == Next(cfg, Run(cfg, s, actions), a)
  {
    assert (actions + [a])[..|actions|] == actions;
  }

  lemma AtStart(cfg: Config, s: State, actions: seq<Action>)
    ensures At(cfg, s, actions, 0) == s
  {
  }

  /** The tables at instant k and after each change of them up to instant n. */
  function Versions(cfg: Config, s: State, actions: seq<Action>, k: nat, n: nat): (v: seq<Database>)
    requires k <= n <= |actions|
    ensures v != []
    decreases n
  {
    if k == n then [At(cfg, s, actions, n).db] else
    var before := Versions(cfg, s, actions, k, n - 1);
    if Writes(At(cfg, s, actions, n - 1), actions[n - 1]) then before + [At(cfg, s, actions, n).db] else before
  }

  /** The action changes the tables. */
  predicate Writes(s: State, a: Action) {
    a.Change? || (a.Handle? && a.h !in s.handlers && InScope(s.db, a.db, a.scope))
  }

  /** Each version is what the tables were at some instant of the window. */
  lemma {:induction false} VersionInstant(cfg: Config, s: State, actions: seq<Action>, k: nat, n: nat, i: nat) returns (m: nat)
    requires k <= n <= |actions| && i < |Versions(cfg, s, actions, k, n)|
    ensures k <= m <= n && Versions(cfg, s, actions, k, n)[i] == At(cfg, s, actions, m).db
    decreases n
  {
    m := n;
    if k < n && i < |Versions(cfg, s, actions, k, n - 1)| {
      m := VersionInstant(cfg, s, actions, k, n - 1, i);
    }
  }

  /** A pending check is an older one, with the new tables if they change, or has just started. */
  lemma LoadStep(cfg: Config, s: State, a: Action, t: nat)
    requires t in Next(cfg, s, a).loads
    ensures var load, next := Next(cfg, s, a).loads[t], Next(cfg, s, a);
            if t in s.loads then
              load == s.loads[t].(tables := if Writes(s, a) then s.loads[t].tables + [next.db] else s.loads[t].tables)
            else load == Load(load.user, [s.db], s.now) && !Writes(s, a)
  {}

  /** A cached set is either an older one, or one a check read now, or one a pending check has read. */
  lemma EntryStep(cfg: Config, s: State, a: Action, user: Id)
    requires cfg.ttl > 0 && user in Next(cfg, s, a).cache
    ensures var e := Next(cfg, s, a).cache[user];
            || (user in s.cache && s.cache[user] == e)
            || e == Entry(cfg.keysOf(s.db, user), Some(s.now + cfg.ttl))
            || (a.FinishLoad? && a.t in s.loads && s.loads[a.t].user == user
                && e == Entry(LoadKeys(cfg, s.loads[a.t], a.plan), Some(s.now + cfg.ttl)))
  {}

  /** What a pending check can see are the versions of the tables since an instant of the run. */
  lemma {:induction false} LoadOrigin(cfg: Config, s: State, actions: seq<Action>, t: nat, n: nat) returns (k: nat)
    requires Fresh(s) && n <= |actions| && t in At(cfg, s, actions, n).loads
    ensures k < n
    ensures var load := At(cfg, s, actions, n).loads[t];
            load.tables == Versions(cfg, s, actions, k, n) && load.startedAt == At(cfg, s, actions, k).now
    decreases n
  {
    AtStart(cfg, s, actions);
    AtNext(cfg, s, actions, n - 1);
    var before := At(cfg, s, actions, n - 1);
    LoadStep(cfg, before, actions[n - 1], t);
    if t in before.loads {
      k := LoadOrigin(cfg, s, actions, t, n - 1);
    } else {
      k := n - 1;
      assert Versions(cfg, s, actions, k, n - 1) == [before.db];
    }
  }

  /** A set that the user's check computes from the versions between two instants, or at one. */
  ghost predicate ReadWithin(cfg: Config, s: State, actions: seq<Action>, user: Id, keys: Keyset, k: nat, n: nat, plan: Plan)
    requires k <= n <= |actions|
  {
    || keys == cfg.keysRead(Versions(cfg, s, actions, k, n), plan, user)
    || (k == n && keys == cfg.keysOf(At(cfg, s, actions, n).db, user))
  }

  /** What a check that writes at an action stores was read since an instant that the bound reaches back to. */
  lemma WriteOrigin(cfg: Config, s: State, actions: seq<Action>, bound: nat, m: nat) returns (k: nat)
    requires Fresh(s) && LoadsWithin(cfg, s, actions, bound) && m < |actions|
    requires actions[m].FinishLoad? && actions[m].t in At(cfg, s, actions, m).loads
    ensures k <= m
    ensures var at := At(cfg, s, actions, m);
            var load := at.loads[actions[m].t];
            && ReadWithin(cfg, s, actions, load.user, LoadKeys(cfg, load, actions[m].plan), k, m, actions[m].plan)
            && at.now <= At(cfg, s, actions, k).now + bound
  {
    k := LoadOrigin(cfg, s, actions, actions[m].t, m);
    assert FinishesWithin(cfg, s, actions, m, bound);
  }

  /** The set was read within the window, which began not too long before the expiry. */
  ghost predicate EntryFrom(cfg: Config, s: State, actions: seq<Action>, user: Id, e: Entry<Keyset>, bound: nat, k: nat, n: nat, plan: Plan)
    requires k <= n <= |actions|
  {
    && ReadWithin(cfg, s, actions, user, e.value, k, n, plan)
    && e.expiresAt.Some? && e.expiresAt.value <= At(cfg, s, actions, k).now + bound + cfg.ttl
  }

  /** Every cached set was read within a window of the run that began not too long before its expiry. */
  lemma {:induction false} EntryOrigin(cfg: Config, s: State, actions: seq<Action>, user: Id, bound: nat, m: nat)
    returns (k: nat, n: nat, plan: Plan)
    requires cfg.ttl > 0 && Fresh(s) && LoadsWithin(cfg, s, actions, bound) && m <= |actions|
    requires user in At(cfg, s, actions, m).cache
    ensures k <= n <= m && EntryFrom(cfg, s, actions, user, At(cfg, s, actions, m).cache[user], bound, k, n, plan)
    decreases m
  {
    AtStart(cfg, s, actions);
    AtNext(cfg, s, actions, m - 1);
    var before, a := At(cfg, s, actions, m - 1), actions[m - 1];
    EntryStep(cfg, before, a, user);
    k, n, plan := m - 1, m - 1, [];
    if user in before.cache && before.cache[user] == At(cfg, s, actions, m).cache[user] {
      k, n, plan := EntryOrigin(cfg, s, actions, user, bound, m - 1);
    } else if a.FinishLoad? && a.t in before.loads {
      plan := a.plan;
      k := WriteOrigin(cfg, s, actions, bound, m - 1);
    }
  }

  /** The set HasPermission searches in a state, when it reads the tables there and then. */
  function Searched(cfg: Config, s: State, user: Id): Keyset {
    if Hit(s, user).Some? then Hit(s, user).value else cfg.keysOf(s.db, user)
  }

  lemma SearchedOrigin(cfg: Config, s: State, actions: seq<Action>, bound: nat, user: Id) returns (k: nat, n: nat, plan: Plan)
    requires cfg.ttl > 0 && Fresh(s) && LoadsWithin(cfg, s, actions, bound)
    ensures k <= n <= |actions|
    ensures var end := Run(cfg, s, actions);
            && ReadWithin(cfg, s, actions, user, Searched(cfg, end, user), k, n, plan)
            && end.now <= At(cfg, s, actions, k).now + bound + cfg.ttl
  {
    assert actions[..|actions|] == actions;
    var end := Run(cfg, s, actions);
    if Hit(end, user).Some? {
      k, n, plan := EntryOrigin(cfg, s, actions, user, bound, |actions|);
    } else {
      k, n, plan := |actions|, |actions|, [];
    }
  }

  // ----- the checker's own computation in the protocol -----

  function Checker(ttl: int): Config {
    Config(ttl, KeysOf, KeysRead)
  }

  /** The answer HasPermission gives in a state. */
  ghost predicate Answer(ttl: int, s: State, user: Id, verb: string, path: string) {
    Searches(Searched(Checker(ttl), s, user), verb, path)
  }

  /**
   Bounded staleness, for arbitrary table changes, invalidations, evictions and clock ticks: every
   answer is that of a check whose queries, each on its own, saw versions of the tables within a
   window of the run. The window began at most the time to live ago, plus the longest time a check
   takes from its first query to its write.
   */
  lemma BoundedStaleness(ttl: int, s: State, actions: seq<Action>, bound: nat, user: Id, verb: string, path: string)
    returns (k: nat, n: nat, plan: Plan)
    requires ttl > 0 && Fresh(s) && LoadsWithin(Checker(ttl), s, actions, bound)
    ensures k <= n <= |actions|
    ensures var end := Run(Checker(ttl), s, actions);
            var seen := Versions(Checker(ttl), s, actions, k, n);
            && (Answer(ttl, end, user, verb, path) <==> Searches(KeysRead(seen, plan, user), verb, path))
            && end.now <= At(Checker(ttl), s, actions, k).now + bound + ttl
  {
    var cfg := Checker(ttl);
    k, n, plan := SearchedOrigin(cfg, s, actions, bound, user);
    var seen := Versions(cfg, s, actions, k, n);
    var keys := Searched(cfg, Run(cfg, s, actions), user);
    if keys != KeysRead(seen, plan, user) {
      plan := [];
      AtOnceIsExact(seen, user);
    }
  }

  /** A check under way computes its keys from the tables since its start. */
  lemma SplitCheckAnswer(ttl: int, s: State, actions: seq<Action>, t: nat, plan: Plan) returns (k: nat)
    requires Fresh(s) && t in Run(Checker(ttl), s, actions).loads
    ensures k <= |actions|
    ensures var load := Run(Checker(ttl), s, actions).loads[t];
            && LoadKeys(Checker(ttl), load, plan) == KeysRead(Versions(Checker(ttl), s, actions, k, |actions|), plan, load.user)
            && At(Checker(ttl), s, actions, k).now == load.startedAt
  {
    assert actions[..|actions|] == actions;
    k := LoadOrigin(Checker(ttl), s, actions, t, |actions|);
  }

  /** The checker as it runs: the tables are read through the services, the cache is changed in place. */
  class PermissionChecker {
    const cache: Memory<Id, Keyset>

    constructor (ttl: int)
      ensures fresh(cache) && cache.m == map[] && cache.defaultTTL == ttl
    {
      cache := new Memory(ttl);
    }

    /** `readable` is whether the queries succeed; `readAt` and `now` are the clocks of Get and Set. */
    method HasPermission(db: Database, readable: bool, user: Id, verb: string, path: string, readAt: int, now: int)
      returns (r: Option<bool>)
      requires readAt <= now
      modifies cache`m
      ensures var hit := Lookup(old(cache.m), user, readAt);
              var read := Step(old(cache.m), Call.Get(user), readAt);
              if hit.Some? then
                r.Some? && (r.value <==> Searches(hit.value, verb, path)) && cache.m == read
              else if !readable then
                r.None? && cache.m == read
              else
                && r.Some? && (r.value <==> Uncached(db, user, verb, path))
                && cache.m == Step(read, if cache.defaultTTL > 0 then Call.SetWithTTL(user, KeysOf(db, user), cache.defaultTTL)
                                         else SetForever(user, KeysOf(db, user)), now)
    {
      var cached := cache.Get(user, readAt);
      if cached.Some? {
        var found := MatchPath(cached.value, verb, path);
        return Some(found);
      }
      if !readable {
        return None;
      }
      var permissions := GetUserAllPermissions(db, user);
      var keys := FillKeys(permissions);
      cache.Set(user, keys, now);
      var found := MatchPath(keys, verb, path);
      return Some(found);
    }

    method InvalidateUser(user: Id)
      modifies cache`m
      ensures cache.m == old(cache.m) - {user}
    {
      cache.Delete(user);
    }

    method InvalidateAll()
      modifies cache`m
      ensures cache.m == map[]
    {
      cache.Clear();
    }
  }
}
