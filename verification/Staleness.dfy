/**
 How stale a cached permission answer can be, query by query
 (internal/modules/iam/service/permission_checker.go:37-57, 94-123): the window of module
 PermissionCache with the calls of modules TornReads and SnapshotReads inside it.
 */
module Staleness {
  import opened PermissionTree
  import opened PermissionCheck
  import opened PermissionReads
  import opened QueryPlans
  import opened TornReads
  import opened SnapshotReads
  import opened PermissionCache

  /** The window's changes of the tables are calls of these kinds. */
  ghost predicate Calls(ttl: int, s: PermissionCache.State, actions: seq<Action>, k: nat, n: nat, kinds: seq<Kind>)
    requires k <= n <= |actions|
  {
    History(Versions(Checker(ttl), s, actions, k, n), kinds)
  }

  /** Answers of one snapshot: if no call tears the check, the answer is the uncached one at an instant of the window. */
  lemma SnapshotInWindow(ttl: int, s: PermissionCache.State, actions: seq<Action>, k: nat, n: nat, plan: Plan, kinds: seq<Kind>, user: Id, verb: string, path: string)
    returns (m: nat)
    requires k <= n <= |actions| && Calls(ttl, s, actions, k, n, kinds)
    requires !SplitRows(kinds, plan) && !Reordered(kinds, plan, user)
    ensures k <= m <= n
    ensures Searches(KeysRead(Versions(Checker(ttl), s, actions, k, n), plan, user), verb, path) <==>
            Uncached(At(Checker(ttl), s, actions, m).db, user, verb, path)
  {
    var seen := Versions(Checker(ttl), s, actions, k, n);
    NotTornIsSnapshot(seen, kinds, plan, user);
    var i :| 0 <= i < |seen| && KeysRead(seen, plan, user) == KeysOf(seen[i], user);
    m := VersionInstant(Checker(ttl), s, actions, k, n, i);
  }

  /** Allowed requests: if no call leaves the check a stale link, what it allows was allowed at an instant of the window. */
  lemma AllowedInWindow(ttl: int, s: PermissionCache.State, actions: seq<Action>, k: nat, n: nat, plan: Plan, kinds: seq<Kind>, user: Id, verb: string, path: string)
    returns (m: nat)
    requires k <= n <= |actions| && Calls(ttl, s, actions, k, n, kinds) && !StaleLink(kinds, plan, user)
    requires Searches(KeysRead(Versions(Checker(ttl), s, actions, k, n), plan, user), verb, path)
    ensures k <= m <= n && Uncached(At(Checker(ttl), s, actions, m).db, user, verb, path)
  {
    var seen := Versions(Checker(ttl), s, actions, k, n);
    NoStaleLinkGrantsOnlySeen(kinds, plan, user);
    assert AllowedSometime(seen, user, verb, path);
    var i :| 0 <= i < |seen| && Uncached(seen[i], user, verb, path);
    m := VersionInstant(Checker(ttl), s, actions, k, n, i);
  }

  /**
   A window with at most one call in it, of any kind, or with any number of changes of permission
   rows: whatever the cache allows, the tables allowed at an instant no older than the window.
   */
  lemma AllowedIsRecent(ttl: int, s: PermissionCache.State, actions: seq<Action>, bound: nat, user: Id, verb: string, path: string)
    returns (k: nat, n: nat, m: nat)
    requires ttl > 0 && Fresh(s) && LoadsWithin(Checker(ttl), s, actions, bound)
    ensures k <= m <= n <= |actions|
    ensures Run(Checker(ttl), s, actions).now <= At(Checker(ttl), s, actions, k).now + bound + ttl
    ensures Answer(ttl, Run(Checker(ttl), s, actions), user, verb, path)
            && (exists kinds :: Calls(ttl, s, actions, k, n, kinds) && Gentle(kinds)) ==>
              Uncached(At(Checker(ttl), s, actions, m).db, user, verb, path)
  {
    var plan;
    k, n, plan := BoundedStaleness(ttl, s, actions, bound, user, verb, path);
    m := k;
    if kinds :| Answer(ttl, Run(Checker(ttl), s, actions), user, verb, path) && Calls(ttl, s, actions, k, n, kinds) && Gentle(kinds) {
      m := AllowedInWindow(ttl, s, actions, k, n, plan, kinds, user, verb, path);
    }
  }

  predicate Gentle(kinds: seq<Kind>) {
    |kinds| <= 1 || forall i :: 0 <= i < |kinds| ==> kinds[i] == Rows
  }
}
