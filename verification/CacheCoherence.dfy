/**
 When cached answers are exact (internal/modules/iam/service/permission_checker.go:36-57, 81-91,
 and the handlers of internal/modules/iam/handler that change the tables and then invalidate):
 checks read the tables and write the cache in separate steps, any number of them in flight.
 */
module CacheCoherence {
  import opened Wrappers
  import opened PermissionTree
  import opened PermissionCheck
  import MemoryStore
  import opened PermissionReads
  import opened QueryPlans
  import opened PermissionCache

  /** A handler that covers the user has changed the tables and has yet to invalidate. */
  ghost predicate InFlight(s: State, user: Id) {
    exists h :: h in s.handlers && Covers(s.handlers[h], user)
  }

  ghost predicate CoherentFor(cfg: Config, s: State, user: Id) {
    (user in s.cache ==> s.cache[user].value == cfg.keysOf(s.db, user)) || InFlight(s, user)
  }

  /** Unless a covering handler is in flight, a check would search the keys of the tables. */
  ghost predicate Right(cfg: Config, s: State, user: Id) {
    Searched(cfg, s, user) == cfg.keysOf(s.db, user) || InFlight(s, user)
  }

  /** A change outside a user's scope does not change what is computed for the user. */
  ghost predicate Local(cfg: Config) {
    forall before, after, scope, user: Id :: InScope(before, after, scope) && !Covers(scope, user)
      ==> cfg.keysOf(after, user) == cfg.keysOf(before, user)
  }

  /** The change cannot matter to the user. */
  ghost predicate Elsewhere(a: Database, b: Database, user: Id) {
    exists scope :: InScope(a, b, scope) && !Covers(scope, user)
  }

  ghost predicate Undisturbed(tables: seq<Database>, user: Id) {
    tables != [] && forall i, j :: 0 <= i && j == i + 1 && j < |tables| ==> Elsewhere(tables[i], tables[j], user)
  }

  /** Queries among changes that cannot matter to the user give what one reading of the last tables gives. */
  ghost predicate Steady(cfg: Config) {
    forall tables, plan, user :: Undisturbed(tables, user) ==> cfg.keysRead(tables, plan, user) == cfg.keysOf(tables[|tables| - 1], user)
  }

  /** All queries can run at the start. */
  ghost predicate ReadsAtOnce(cfg: Config) {
    forall tables, user :: tables != [] ==> cfg.keysRead(tables, [], user) == cfg.keysOf(tables[0], user)
  }

  /** The action is the write of a check whose keys are no longer those of the tables, with no covering handler left to remove them. */
  ghost predicate StaleWrite(cfg: Config, s: State, a: Action, user: Id) {
    && a.FinishLoad? && a.t in s.loads && s.loads[a.t].user == user
    && LoadKeys(cfg, s.loads[a.t], a.plan) != cfg.keysOf(s.db, user) && !InFlight(s, user)
  }

  lemma HandlerKeepsCoherence(cfg: Config, s: State, h: nat, scope: Scope, db: Database, user: Id)
    requires Local(cfg) && CoherentFor(cfg, s, user)
    ensures CoherentFor(cfg, Next(cfg, s, Handle(h, scope, db)), user)
  {
    var next := Next(cfg, s, Handle(h, scope, db));
    if next != s {
      if Covers(scope, user) {
        assert h in next.handlers && Covers(next.handlers[h], user);
      } else if g :| g in s.handlers && Covers(s.handlers[g], user) {
        assert g in next.handlers && Covers(next.handlers[g], user);
      }
    }
  }

  /** A write to the cache for the user: it is coherent unless it is stale, and a stale one shows at once. */
  lemma WriteIsRightIff(cfg: Config, s: State, a: Action, user: Id)
    requires CoherentFor(cfg, s, user) && a.FinishLoad?
    ensures !StaleWrite(cfg, s, a, user) ==> CoherentFor(cfg, Next(cfg, s, a), user)
    ensures StaleWrite(cfg, s, a, user) ==> !Right(cfg, Next(cfg, s, a), user)
  {
    if StaleWrite(cfg, s, a, user) {
      StaleWriteShows(cfg, s, a, user);
    } else {
      assert Next(cfg, s, a).handlers == s.handlers;
    }
  }

  lemma StaleWriteShows(cfg: Config, s: State, a: Action, user: Id)
    requires StaleWrite(cfg, s, a, user)
    ensures Next(cfg, s, a).db == s.db && Searched(cfg, Next(cfg, s, a), user) == LoadKeys(cfg, s.loads[a.t], a.plan)
    ensures !InFlight(Next(cfg, s, a), user)
  {
    assert Next(cfg, s, a).handlers == s.handlers;
  }

  lemma StepKeepsCoherence(cfg: Config, s: State, a: Action, user: Id)
    requires Local(cfg) && CoherentFor(cfg, s, user) && !a.Change? && !StaleWrite(cfg, s, a, user)
    ensures CoherentFor(cfg, Next(cfg, s, a), user)
  {
    var next := Next(cfg, s, a);
    if a.Handle? {
      HandlerKeepsCoherence(cfg, s, a.h, a.scope, a.db, user);
    } else if a.FinishLoad? {
      WriteIsRightIff(cfg, s, a, user);
    } else if g :| g in s.handlers && Covers(s.handlers[g], user) {
      assert g in next.handlers ==> Covers(next.handlers[g], user);
    }
  }

  /** The tables change only through handlers. */
  ghost predicate HandlersOnly(actions: seq<Action>) {
    forall k :: 0 <= k < |actions| ==> !actions[k].Change?
  }

  ghost predicate StaleWriteAt(cfg: Config, s: State, actions: seq<Action>, n: nat, user: Id)
    requires n < |actions|
  {
    StaleWrite(cfg, At(cfg, s, actions, n), actions[n], user)
  }

  ghost predicate RightAt(cfg: Config, s: State, actions: seq<Action>, n: nat, user: Id)
    requires n <= |actions|
  {
    Right(cfg, At(cfg, s, actions, n), user)
  }

  lemma {:induction false} CoherentAt(cfg: Config, s: State, actions: seq<Action>, n: nat, user: Id)
    requires Local(cfg) && Fresh(s) && HandlersOnly(actions) && n <= |actions|
    requires forall m :: 0 <= m < n ==> !StaleWriteAt(cfg, s, actions, m, user)
    ensures CoherentFor(cfg, At(cfg, s, actions, n), user) && RightAt(cfg, s, actions, n, user)
    decreases n
  {
    if n == 0 {
      AtStart(cfg, s, actions);
    } else {
      CoherentAt(cfg, s, actions, n - 1, user);
      AtNext(cfg, s, actions, n - 1);
      assert !StaleWriteAt(cfg, s, actions, n - 1, user);
      StepKeepsCoherence(cfg, At(cfg, s, actions, n - 1), actions[n - 1], user);
    }
  }

  lemma {:induction false} FirstStaleWrite(cfg: Config, s: State, actions: seq<Action>, n: nat, user: Id) returns (m: nat)
    requires n < |actions| && StaleWriteAt(cfg, s, actions, n, user)
    ensures m <= n && StaleWriteAt(cfg, s, actions, m, user)
    ensures forall k :: 0 <= k < m ==> !StaleWriteAt(cfg, s, actions, k, user)
    decreases n
  {
    m := n;
    if k :| 0 <= k < n && StaleWriteAt(cfg, s, actions, k, user) {
      m := FirstStaleWrite(cfg, s, actions, k, user);
    }
  }

  /**
   Checks whose read and write are separate steps, any number in flight among handlers,
   evictions and ticks: a user always gets the uncached answer if and only if no check writes
   stale keys.
   */
  lemma RightIffNoStaleWrite(cfg: Config, s: State, actions: seq<Action>, user: Id)
    requires Local(cfg) && Fresh(s) && HandlersOnly(actions)
    ensures (forall n :: 0 <= n <= |actions| ==> RightAt(cfg, s, actions, n, user)) <==>
            (forall n :: 0 <= n < |actions| ==> !StaleWriteAt(cfg, s, actions, n, user))
  {
    if forall n :: 0 <= n < |actions| ==> !StaleWriteAt(cfg, s, actions, n, user) {
      forall n | 0 <= n <= |actions| ensures RightAt(cfg, s, actions, n, user) {
        CoherentAt(cfg, s, actions, n, user);
      }
    } else {
      var n :| 0 <= n < |actions| && StaleWriteAt(cfg, s, actions, n, user);
      var m := FirstStaleWrite(cfg, s, actions, n, user);
      CoherentAt(cfg, s, actions, m, user);
      AtNext(cfg, s, actions, m);
      WriteIsRightIff(cfg, At(cfg, s, actions, m), actions[m], user);
      assert !RightAt(cfg, s, actions, m + 1, user);
    }
  }

  // ----- which schedules are safe, whatever is in the tables -----

  /** The load that is pending before action n has been so since action k. */
  ghost predicate Span(cfg: Config, s: State, actions: seq<Action>, t: nat, k: nat, n: nat)
    requires k < n <= |actions|
  {
    && t !in At(cfg, s, actions, k).loads
    && forall m :: k < m <= n ==> t in At(cfg, s, actions, m).loads
  }

  /** Action p is a handler's change, in scope for the user. */
  ghost predicate ChangesFor(cfg: Config, s: State, actions: seq<Action>, p: nat, user: Id)
    requires p < |actions|
  {
    var before, after := At(cfg, s, actions, p), At(cfg, s, actions, p + 1);
    exists h :: h !in before.handlers && h in after.handlers && Covers(after.handlers[h], user)
  }

  /** Between the read at k and the write at n of a check, at p, a covering handler changes the tables. */
  ghost predicate ChangedBetween(cfg: Config, s: State, actions: seq<Action>, t: nat, k: nat, p: nat, n: nat, user: Id)
    requires k < p < n <= |actions|
  {
    Span(cfg, s, actions, t, k, n) && ChangesFor(cfg, s, actions, p, user)
  }

  /**
   Action n is the write of a check of the user that was overtaken: some covering handler changed
   the tables after its read, and every covering handler has invalidated before its write.
   */
  ghost predicate OvertakenAt(cfg: Config, s: State, actions: seq<Action>, n: nat, user: Id)
    requires n < |actions|
  {
    var at := At(cfg, s, actions, n);
    && actions[n].FinishLoad? && actions[n].t in at.loads && at.loads[actions[n].t].user == user
    && !InFlight(at, user)
    && exists k, p :: 0 <= k < p < n && ChangedBetween(cfg, s, actions, actions[n].t, k, p, n, user)
  }

  lemma {:induction false} SpanStart(cfg: Config, s: State, actions: seq<Action>, t: nat, n: nat) returns (k: nat)
    requires Fresh(s) && n <= |actions| && t in At(cfg, s, actions, n).loads
    ensures k < n && Span(cfg, s, actions, t, k, n)
    decreases n
  {
    AtStart(cfg, s, actions);
    if t in At(cfg, s, actions, n - 1).loads {
      k := SpanStart(cfg, s, actions, t, n - 1);
    } else {
      k := n - 1;
    }
  }

  /** Over its span a load has seen the tables from its start on, and if no covering handler changes them, none that matter to the user. */
  lemma {:induction false} SpanTables(cfg: Config, s: State, actions: seq<Action>, t: nat, k: nat, n: nat, user: Id)
    requires HandlersOnly(actions) && k < n <= |actions| && Span(cfg, s, actions, t, k, n)
    ensures var tables := At(cfg, s, actions, n).loads[t].tables;
            && tables != [] && tables[0] == At(cfg, s, actions, k).db && tables[|tables| - 1] == At(cfg, s, actions, n).db
            && ((forall p :: k < p < n ==> !ChangesFor(cfg, s, actions, p, user)) ==> Undisturbed(tables, user))
    decreases n
  {
    var before, a := At(cfg, s, actions, n - 1), actions[n - 1];
    AtNext(cfg, s, actions, n - 1);
    LoadStep(cfg, before, a, t);
    if k < n - 1 {
      SpanTables(cfg, s, actions, t, k, n - 1, user);
      if !ChangesFor(cfg, s, actions, n - 1, user) {
        StepElsewhere(cfg, before, a, user);
        UndisturbedLonger(before.loads[t].tables, Next(cfg, before, a).db, user);
      }
    }
    WritesOnlyTables(cfg, before, a);
  }

  lemma UndisturbedLonger(tables: seq<Database>, db: Database, user: Id)
    requires tables != []
    ensures Undisturbed(tables, user) && Elsewhere(tables[|tables| - 1], db, user) ==> Undisturbed(tables + [db], user)
  {
    var longer := tables + [db];
    if Undisturbed(tables, user) && Elsewhere(tables[|tables| - 1], db, user) {
      forall i, j | 0 <= i && j == i + 1 && j < |longer| ensures Elsewhere(longer[i], longer[j], user) {
        assert j < |tables| ==> Elsewhere(tables[i], tables[j], user);
      }
    }
  }

  lemma WritesOnlyTables(cfg: Config, s: State, a: Action)
    ensures !Writes(s, a) ==> Next(cfg, s, a).db == s.db
  {
  }

  lemma StepElsewhere(cfg: Config, s: State, a: Action, user: Id)
    requires !a.Change?
    requires !exists h :: h !in s.handlers && h in Next(cfg, s, a).handlers && Covers(Next(cfg, s, a).handlers[h], user)
    ensures if Writes(s, a) then Elsewhere(s.db, Next(cfg, s, a).db, user) else Next(cfg, s, a).db == s.db
  {
    if Writes(s, a) {
      assert a.h !in s.handlers && Next(cfg, s, a).handlers[a.h] == a.scope;
      assert InScope(s.db, Next(cfg, s, a).db, a.scope);
    }
  }

  /** A stale write is one of an overtaken check. */
  lemma StaleWriteIsOvertaken(cfg: Config, s: State, actions: seq<Action>, n: nat, user: Id)
    requires Steady(cfg) && Fresh(s) && HandlersOnly(actions)
    requires n < |actions| && StaleWriteAt(cfg, s, actions, n, user)
    ensures OvertakenAt(cfg, s, actions, n, user)
  {
    var t := actions[n].t;
    var k := SpanStart(cfg, s, actions, t, n);
    SpanTables(cfg, s, actions, t, k, n, user);
    if p :| k < p < n && ChangesFor(cfg, s, actions, p, user) {
      assert ChangedBetween(cfg, s, actions, t, k, p, n, user);
    }
  }

  // What a schedule fixes of a state: everything but the tables and the key sets read from them.
  datatype Shape = Shape(now: int, cached: map<Id, Option<int>>, loads: map<nat, (Id, int)>, handlers: map<nat, Scope>)

  function ShapeOf(s: State): Shape {
    Shape(s.now, map u | u in s.cache :: s.cache[u].expiresAt, map t | t in s.loads :: (s.loads[t].user, s.loads[t].startedAt), s.handlers)
  }

  /**
   The same action, except that a handler may write other tables, or not run when it had no effect,
   and that a check's queries may run at other instants.
   */
  predicate SameAction(a: Action, b: Action) {
    || a == b
    || (a.Handle? && (b == Pass(0) || (b.Handle? && b.h == a.h && b.scope == a.scope)))
    || (a.FinishLoad? && b.FinishLoad? && b.t == a.t)
  }

  /** Two runs of one schedule, on other tables. */
  ghost predicate SameSchedule(cfg: Config, s: State, actions: seq<Action>, s': State, actions': seq<Action>) {
    && |actions'| == |actions|
    && (forall n :: 0 <= n < |actions| ==> SameAction(actions[n], actions'[n]))
    && forall n :: 0 <= n <= |actions| ==> ShapeOf(At(cfg, s', actions', n)) == ShapeOf(At(cfg, s, actions, n))
  }

  lemma SameHits(s: State, s': State, user: Id)
    requires ShapeOf(s) == ShapeOf(s')
    ensures user in s.cache <==> user in s'.cache
    ensures user in s.cache ==> s.cache[user].expiresAt == s'.cache[user].expiresAt
    ensures Hit(s, user).Some? <==> Hit(s', user).Some?
  {
    assert user in ShapeOf(s).cached <==> user in ShapeOf(s').cached;
    assert user in s.cache ==> ShapeOf(s).cached[user] == ShapeOf(s').cached[user];
  }

  lemma SameLoads(s: State, s': State, t: nat)
    requires ShapeOf(s) == ShapeOf(s')
    ensures t in s.loads <==> t in s'.loads
    ensures t in s.loads ==> s.loads[t].user == s'.loads[t].user && s.loads[t].startedAt == s'.loads[t].startedAt
  {
    assert t in ShapeOf(s).loads <==> t in ShapeOf(s').loads;
    assert t in s.loads ==> ShapeOf(s).loads[t] == ShapeOf(s').loads[t];
  }

  lemma SameShapes(s: State, s': State)
    requires s.now == s'.now && s.handlers == s'.handlers
    requires forall u :: u in s.cache <==> u in s'.cache
    requires forall u :: u in s.cache ==> s.cache[u].expiresAt == s'.cache[u].expiresAt
    requires forall t :: t in s.loads <==> t in s'.loads
    requires forall t :: t in s.loads ==> s.loads[t].user == s'.loads[t].user && s.loads[t].startedAt == s'.loads[t].startedAt
    ensures ShapeOf(s) == ShapeOf(s')
  {
    assert ShapeOf(s).cached == ShapeOf(s').cached;
    assert ShapeOf(s).loads == ShapeOf(s').loads;
  }

  ghost predicate SameCached(m: map<Id, MemoryStore.Entry<Keyset>>, m': map<Id, MemoryStore.Entry<Keyset>>) {
    && (forall u :: u in m <==> u in m')
    && (forall u :: u in m ==> m[u].expiresAt == m'[u].expiresAt)
  }

  ghost predicate SamePending(l: map<nat, Load>, l': map<nat, Load>) {
    && (forall t :: t in l <==> t in l')
    && (forall t :: t in l ==> l[t].user == l'[t].user && l[t].startedAt == l'[t].startedAt)
  }

  lemma ShapesAgreeIff(s: State, s': State)
    ensures ShapeOf(s) == ShapeOf(s') <==> Alike(s, s')
  {
    if ShapeOf(s) == ShapeOf(s') {
      forall u ensures (u in s.cache <==> u in s'.cache) && (u in s.cache ==> s.cache[u].expiresAt == s'.cache[u].expiresAt) {
        SameHits(s, s', u);
      }
      forall t ensures (t in s.loads <==> t in s'.loads)
                       && (t in s.loads ==> s.loads[t].user == s'.loads[t].user && s.loads[t].startedAt == s'.loads[t].startedAt) {
        SameLoads(s, s', t);
      }
    } else if Alike(s, s') {
      SameShapes(s, s');
    }
  }

  lemma PutShape(s: State, s': State, ttl: int, user: Id, keys: Keyset, keys': Keyset)
    requires s.now == s'.now && SameCached(s.cache, s'.cache)
    ensures SameCached(Put(s, ttl, user, keys), Put(s', ttl, user, keys'))
  {
  }

  lemma DropShape(m: map<Id, MemoryStore.Entry<Keyset>>, m': map<Id, MemoryStore.Entry<Keyset>>, user: Id)
    requires SameCached(m, m')
    ensures SameCached(m - {user}, m' - {user})
  {
  }

  lemma LoadsShape(l: map<nat, Load>, l': map<nat, Load>, t: nat, load: Load, load': Load)
    requires SamePending(l, l') && load.user == load'.user && load.startedAt == load'.startedAt
    ensures SamePending(l - {t}, l' - {t}) && SamePending(l[t := load], l'[t := load'])
  {
  }

  ghost predicate Alike(s: State, s': State) {
    s.now == s'.now && s.handlers == s'.handlers && SameCached(s.cache, s'.cache) && SamePending(s.loads, s'.loads)
  }

  lemma NextCached(cfg: Config, s: State, s': State, a: Action, a': Action)
    requires Alike(s, s') && !a.Handle? && !a.Change? && SameAction(a, a')
    ensures SameCached(Next(cfg, s', a').cache, Next(cfg, s, a).cache)
  {
    match a
    case FinishLoad(t, plan) =>
      if t in s.loads {
        PutShape(s', s, cfg.ttl, s.loads[t].user, LoadKeys(cfg, s'.loads[t], a'.plan), LoadKeys(cfg, s.loads[t], plan));
      }
    case Check(u) => PutShape(s', s, cfg.ttl, u, cfg.keysOf(s'.db, u), cfg.keysOf(s.db, u));
    case Drop(u) => DropShape(s'.cache, s.cache, u);
    case Invalidate(h) =>
      if h in s.handlers && s.handlers[h].OneUser? {
        DropShape(s'.cache, s.cache, s.handlers[h].user);
      }
    case _ =>
  }

  lemma NextPending(cfg: Config, s: State, s': State, a: Action, a': Action)
    requires Alike(s, s') && !a.Handle? && !a.Change? && SameAction(a, a')
    ensures SamePending(Next(cfg, s', a').loads, Next(cfg, s, a).loads)
  {
    match a
    case BeginLoad(t, u) => LoadsShape(s'.loads, s.loads, t, Load(u, [s'.db], s.now), Load(u, [s.db], s.now));
    case FinishLoad(t, _) =>
      if t in s.loads {
        LoadsShape(s'.loads, s.loads, t, s'.loads[t], s.loads[t]);
      }
    case _ =>
  }

  lemma NextFrame(cfg: Config, s: State, s': State, a: Action, a': Action)
    requires s.now == s'.now && s.handlers == s'.handlers && !a.Handle? && !a.Change? && SameAction(a, a')
    ensures Next(cfg, s', a').now == Next(cfg, s, a).now && Next(cfg, s', a').handlers == Next(cfg, s, a).handlers
    ensures Next(cfg, s', a').db == s'.db
  {
  }

  /** Every action but a change of the tables does the same to the shape of a state. */
  lemma NextShape(cfg: Config, s: State, s': State, a: Action, a': Action)
    requires ShapeOf(s) == ShapeOf(s') && !a.Handle? && !a.Change? && SameAction(a, a')
    ensures ShapeOf(Next(cfg, s', a')) == ShapeOf(Next(cfg, s, a)) && Next(cfg, s', a').db == s'.db
  {
    ShapesAgreeIff(s, s');
    NextCached(cfg, s, s', a, a');
    NextPending(cfg, s, s', a, a');
    NextFrame(cfg, s, s', a, a');
    ShapesAgreeIff(Next(cfg, s', a'), Next(cfg, s, a));
  }

  /** A handler's change took effect. */
  predicate TookEffect(cfg: Config, s: State, actions: seq<Action>, n: nat)
    requires n < |actions|
  {
    actions[n].Handle? && actions[n].h !in At(cfg, s, actions, n).handlers && actions[n].h in At(cfg, s, actions, n + 1).handlers
  }

  /** The schedule with one pair of tables, d0 until the handler's change at p and d1 from then on, and all queries of a check at its start. */
  function Retabled(cfg: Config, s: State, actions: seq<Action>, p: nat, d0: Database, d1: Database): seq<Action> {
    seq(|actions|, i requires 0 <= i < |actions| =>
      RetabledAction(actions[i], actions[i].Handle? && TookEffect(cfg, s, actions, i), if i < p then d0 else d1))
  }

  function RetabledAction(a: Action, took: bool, db: Database): Action {
    if a.FinishLoad? then FinishLoad(a.t, [])
    else if !a.Handle? then a
    else if !took then Pass(0)
    else Handle(a.h, a.scope, db)
  }

  lemma StayInScope(d: Database, scope: Scope)
    ensures InScope(d, d, scope)
  {
  }

  lemma ChangedShape(s: State, db: Database)
    ensures ShapeOf(Changed(s, db)) == ShapeOf(s)
  {
    ShapesAgreeIff(Changed(s, db), s);
  }

  /** One handler of the retabled run. */
  lemma NextHandle(cfg: Config, s: State, s': State, a: Action, scope: Scope, db: Database)
    requires ShapeOf(s) == ShapeOf(s') && a.Handle? && a.scope == scope && a.h !in s.handlers && InScope(s'.db, db, scope)
    requires a.h in Next(cfg, s, a).handlers
    ensures ShapeOf(Next(cfg, s', Handle(a.h, scope, db))) == ShapeOf(Next(cfg, s, a))
    ensures Next(cfg, s', Handle(a.h, scope, db)).db == db
  {
    assert ShapeOf(s').handlers == s.handlers;
    ChangedShape(s, a.db);
    ChangedShape(s', db);
    HandlerShape(Changed(s, a.db), Changed(s', db), s.handlers[a.h := scope]);
  }

  lemma HandlerShape(s: State, s': State, handlers: map<nat, Scope>)
    requires ShapeOf(s) == ShapeOf(s')
    ensures ShapeOf(s.(handlers := handlers)) == ShapeOf(s'.(handlers := handlers))
  {
    ShapesAgreeIff(s, s');
    ShapesAgreeIff(s.(handlers := handlers), s'.(handlers := handlers));
  }

  lemma {:induction false} RetabledShape(cfg: Config, s: State, actions: seq<Action>, p: nat, d0: Database, d1: Database, user: Id, n: nat)
    requires HandlersOnly(actions) && n <= |actions| && p < |actions|
    requires ChangesFor(cfg, s, actions, p, user) && actions[p].Handle? && InScope(d0, d1, actions[p].scope)
    ensures var at := At(cfg, s.(db := d0), Retabled(cfg, s, actions, p, d0, d1), n);
            ShapeOf(at) == ShapeOf(At(cfg, s, actions, n)) && at.db == if n <= p then d0 else d1
    decreases n
  {
    var s', actions' := s.(db := d0), Retabled(cfg, s, actions, p, d0, d1);
    if n == 0 {
      AtStart(cfg, s, actions);
      AtStart(cfg, s', actions');
    } else {
      var m := n - 1;
      RetabledShape(cfg, s, actions, p, d0, d1, user, m);
      AtNext(cfg, s, actions, m);
      AtNext(cfg, s', actions', m);
      RetabledStep(cfg, At(cfg, s, actions, m), At(cfg, s', actions', m), actions[m], actions'[m],
                   actions[m].Handle? && TookEffect(cfg, s, actions, m), m, p, d0, d1, user);
    }
  }

  lemma RetabledStep(cfg: Config, s: State, s': State, a: Action, a': Action, took: bool, m: nat, p: nat, d0: Database, d1: Database, user: Id)
    requires ShapeOf(s) == ShapeOf(s') && !a.Change? && (m == p ==> a.Handle? && InScope(d0, d1, a.scope))
    requires took == (a.Handle? && a.h !in s.handlers && a.h in Next(cfg, s, a).handlers)
    requires a' == RetabledAction(a, took, if m < p then d0 else d1)
    requires s'.db == if m <= p then d0 else d1
    requires m == p ==> exists h :: h !in s.handlers && h in Next(cfg, s, a).handlers && Covers(Next(cfg, s, a).handlers[h], user)
    ensures ShapeOf(Next(cfg, s', a')) == ShapeOf(Next(cfg, s, a)) && Next(cfg, s', a').db == if m < p then d0 else d1
  {
    if took {
      StayInScope(s'.db, a.scope);
      NextHandle(cfg, s, s', a, a.scope, if m < p then d0 else d1);
    } else if a.Handle? {
      assert Next(cfg, s, a) == s;
      assert Next(cfg, s', Pass(0)) == s';
    } else {
      NextShape(cfg, s, s', a, a');
    }
  }

  lemma SameInFlight(s: State, s': State, user: Id)
    requires ShapeOf(s) == ShapeOf(s')
    ensures InFlight(s, user) == InFlight(s', user)
  {
    assert ShapeOf(s).handlers == ShapeOf(s').handlers;
  }

  lemma SameSpan(cfg: Config, s: State, actions: seq<Action>, s': State, actions': seq<Action>, t: nat, k: nat, n: nat)
    requires SameSchedule(cfg, s, actions, s', actions') && k < n <= |actions|
    ensures Span(cfg, s, actions, t, k, n) == Span(cfg, s', actions', t, k, n)
  {
    forall m | 0 <= m <= |actions| ensures t in At(cfg, s, actions, m).loads <==> t in At(cfg, s', actions', m).loads {
      SameLoads(At(cfg, s, actions, m), At(cfg, s', actions', m), t);
    }
  }

  lemma SameChanges(cfg: Config, s: State, actions: seq<Action>, s': State, actions': seq<Action>, p: nat, user: Id)
    requires SameSchedule(cfg, s, actions, s', actions') && p < |actions|
    ensures ChangesFor(cfg, s, actions, p, user) == ChangesFor(cfg, s', actions', p, user)
  {
    assert ShapeOf(At(cfg, s, actions, p)).handlers == ShapeOf(At(cfg, s', actions', p)).handlers;
    assert ShapeOf(At(cfg, s, actions, p + 1)).handlers == ShapeOf(At(cfg, s', actions', p + 1)).handlers;
  }

  /** Being overtaken is a matter of the schedule alone. */
  lemma SameOvertaken(cfg: Config, s: State, actions: seq<Action>, s': State, actions': seq<Action>, n: nat, user: Id)
    requires SameSchedule(cfg, s, actions, s', actions') && n < |actions|
    ensures OvertakenAt(cfg, s', actions', n, user) ==> OvertakenAt(cfg, s, actions, n, user)
  {
    if OvertakenAt(cfg, s', actions', n, user) {
      var t := actions'[n].t;
      assert SameAction(actions[n], actions'[n]);
      SameLoads(At(cfg, s, actions, n), At(cfg, s', actions', n), t);
      SameInFlight(At(cfg, s, actions, n), At(cfg, s', actions', n), user);
      var k, p :| 0 <= k < p < n && ChangedBetween(cfg, s', actions', t, k, p, n, user);
      SameSpan(cfg, s, actions, s', actions', t, k, n);
      SameChanges(cfg, s, actions, s', actions', p, user);
      assert ChangedBetween(cfg, s, actions, t, k, p, n, user);
    }
  }

  /** The retabled run follows the same schedule. */
  lemma RetabledSchedule(cfg: Config, s: State, actions: seq<Action>, p: nat, d0: Database, d1: Database, user: Id)
    requires Fresh(s) && HandlersOnly(actions) && p < |actions|
    requires ChangesFor(cfg, s, actions, p, user) && actions[p].Handle? && InScope(d0, d1, actions[p].scope)
    ensures var s', actions' := s.(db := d0), Retabled(cfg, s, actions, p, d0, d1);
            Fresh(s') && HandlersOnly(actions') && SameSchedule(cfg, s, actions, s', actions')
  {
    var s', actions' := s.(db := d0), Retabled(cfg, s, actions, p, d0, d1);
    forall m | 0 <= m <= |actions| ensures ShapeOf(At(cfg, s', actions', m)) == ShapeOf(At(cfg, s, actions, m)) {
      RetabledShape(cfg, s, actions, p, d0, d1, user, m);
    }
  }

  lemma ChangesByHandler(cfg: Config, s: State, actions: seq<Action>, p: nat, user: Id)
    requires p < |actions| && ChangesFor(cfg, s, actions, p, user)
    ensures actions[p].Handle? && Covers(actions[p].scope, user)
  {
    AtNext(cfg, s, actions, p);
  }

  /** Tables that a handler of the scope may write one for the other, with different keys for the user. */
  ghost predicate Differ(cfg: Config, d0: Database, d1: Database, user: Id, scope: Scope) {
    InScope(d0, d1, scope) && cfg.keysOf(d0, user) != cfg.keysOf(d1, user)
  }

  /**
   For an overtaken check there are tables on which it writes stale keys. The handler that overtakes
   it changes the user's roles, if that is its scope, or else roles and permissions.
   */
  lemma OvertakenCanBeStale(cfg: Config, s: State, actions: seq<Action>, n: nat, user: Id, d0: Database, own: Database, shared: Database)
    returns (s': State, actions': seq<Action>, d1: Database)
    requires ReadsAtOnce(cfg) && Fresh(s) && HandlersOnly(actions) && n < |actions| && OvertakenAt(cfg, s, actions, n, user)
    requires Differ(cfg, d0, own, user, OneUser(user)) && Differ(cfg, d0, shared, user, AllUsers)
    ensures Fresh(s') && HandlersOnly(actions') && SameSchedule(cfg, s, actions, s', actions')
    ensures StaleWriteAt(cfg, s', actions', n, user) && d1 in {own, shared}
    ensures var at := At(cfg, s', actions', n);
            LoadKeys(cfg, at.loads[actions'[n].t], actions'[n].plan) == cfg.keysOf(d0, user) && at.db == d1
  {
    var t := actions[n].t;
    var k, p :| 0 <= k < p < n && ChangedBetween(cfg, s, actions, t, k, p, n, user);
    ChangesByHandler(cfg, s, actions, p, user);
    d1 := if actions[p].scope == AllUsers then shared else own;
    s', actions' := s.(db := d0), Retabled(cfg, s, actions, p, d0, d1);
    RetabledSchedule(cfg, s, actions, p, d0, d1, user);
    RetabledIsStale(cfg, s, actions, k, p, n, user, d0, d1);
  }

  lemma RetabledIsStale(cfg: Config, s: State, actions: seq<Action>, k: nat, p: nat, n: nat, user: Id, d0: Database, d1: Database)
    requires ReadsAtOnce(cfg) && HandlersOnly(actions) && k < p < n < |actions|
    requires actions[p].Handle? && Differ(cfg, d0, d1, user, actions[p].scope)
    ensures var s', actions' := s.(db := d0), Retabled(cfg, s, actions, p, d0, d1);
            var at := At(cfg, s', actions', n);
            && OvertakenAt(cfg, s, actions, n, user) && ChangedBetween(cfg, s, actions, actions[n].t, k, p, n, user)
            && SameSchedule(cfg, s, actions, s', actions') && HandlersOnly(actions')
            ==> && StaleWriteAt(cfg, s', actions', n, user)
                && LoadKeys(cfg, at.loads[actions'[n].t], actions'[n].plan) == cfg.keysOf(d0, user) && at.db == d1
  {
    var s', actions' := s.(db := d0), Retabled(cfg, s, actions, p, d0, d1);
    if OvertakenAt(cfg, s, actions, n, user) && ChangedBetween(cfg, s, actions, actions[n].t, k, p, n, user)
       && SameSchedule(cfg, s, actions, s', actions') && HandlersOnly(actions')
    {
      var t, at, at' := actions[n].t, At(cfg, s, actions, n), At(cfg, s', actions', n);
      RetabledShape(cfg, s, actions, p, d0, d1, user, k);
      RetabledShape(cfg, s, actions, p, d0, d1, user, n);
      SameSpan(cfg, s, actions, s', actions', t, k, n);
      SpanTables(cfg, s', actions', t, k, n, user);
      SameLoads(at, at', t);
      SameInFlight(at, at', user);
    }
  }

  ghost predicate NeverOvertaken(cfg: Config, s: State, actions: seq<Action>, user: Id) {
    forall n :: 0 <= n < |actions| ==> !OvertakenAt(cfg, s, actions, n, user)
  }

  lemma NotOvertakenIsRight(cfg: Config, s: State, actions: seq<Action>, n: nat, user: Id)
    requires Local(cfg) && Steady(cfg) && Fresh(s) && HandlersOnly(actions)
    requires NeverOvertaken(cfg, s, actions, user) && n <= |actions|
    ensures RightAt(cfg, s, actions, n, user)
  {
    forall m | 0 <= m < |actions| ensures !StaleWriteAt(cfg, s, actions, m, user) {
      if StaleWriteAt(cfg, s, actions, m, user) {
        StaleWriteIsOvertaken(cfg, s, actions, m, user);
      }
    }
    RightIffNoStaleWrite(cfg, s, actions, user);
  }
}
