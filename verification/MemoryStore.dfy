/**
 The in-process TTL store of pkg/store/memory.go. Time is a clock reading; an entry without a
 deadline never expires, one with a deadline is gone strictly after it.
 */
module MemoryStore {
  import opened Wrappers

  datatype Entry<V> = Entry(value: V, expiresAt: Option<int>)

  predicate Expired<V>(e: Entry<V>, now: int) {
    e.expiresAt.Some? && now > e.expiresAt.value
  }

  /** What a caller can still see of a store. */
  function View<K(!new), V>(m: map<K, Entry<V>>, now: int): (r: map<K, Entry<V>>)
    ensures forall k :: k in r <==> k in m && !Expired(m[k], now)
    ensures forall k :: k in r ==> r[k] == m[k]
  {
    map k | k in m && !Expired(m[k], now) :: m[k]
  }

  function Lookup<K(!new), V>(m: map<K, Entry<V>>, key: K, now: int): Option<V> {
    if key in m && !Expired(m[key], now) then Some(m[key].value) else None
  }

  // ----- the store against a map that never cleans up -----

  /** The calls of the store, each with the clock it reads. */
  datatype Call<K, V> =
    | Get(key: K)
    | SetForever(key: K, value: V)
    | SetWithTTL(key: K, value: V, ttl: int)
    | Delete(key: K)
    | Clear

  /** The ideal store: a map in which nothing is ever cleaned up. */
  function Ideal<K(!new), V>(m: map<K, Entry<V>>, call: Call<K, V>, now: int): map<K, Entry<V>> {
    match call
    case Get(_) => m
    case SetForever(k, v) => m[k := Entry(v, None)]
    case SetWithTTL(k, v, ttl) => if ttl <= 0 then m - {k} else m[k := Entry(v, Some(now + ttl))]
    case Delete(k) => m - {k}
    case Clear => map[]
  }

  /** The code's store: reading an expired key deletes it, and every write sweeps. */
  function Step<K(!new), V>(m: map<K, Entry<V>>, call: Call<K, V>, now: int): map<K, Entry<V>> {
    match call
    case Get(k) => if k in m && Expired(m[k], now) then m - {k} else m
    case SetForever(_, _) => View(Ideal(m, call, now), now)
    case SetWithTTL(_, _, _) => View(Ideal(m, call, now), now)
    case Delete(k) => m - {k}
    case Clear => map[]
  }

  function Runs<K(!new), V>(m: map<K, Entry<V>>, calls: seq<(int, Call<K, V>)>): map<K, Entry<V>>
    decreases |calls|
  {
    if calls == [] then m else
    var n := |calls| - 1;
    Step(Runs(m, calls[..n]), calls[n].1, calls[n].0)
  }

  function IdealRuns<K(!new), V>(m: map<K, Entry<V>>, calls: seq<(int, Call<K, V>)>): map<K, Entry<V>>
    decreases |calls|
  {
    if calls == [] then m else
    var n := |calls| - 1;
    Ideal(IdealRuns(m, calls[..n]), calls[n].1, calls[n].0)
  }

  ghost predicate InOrder<K(!new), V>(calls: seq<(int, Call<K, V>)>) {
    forall i, j :: 0 <= i < j < |calls| ==> calls[i].0 <= calls[j].0
  }

  /**
   Run sequentially, the store is a map with expiry: after any calls, every lookup from then on
   answers as if nothing had ever been cleaned up.
   */
  lemma {:induction false} CleanupIsInvisible<K(!new), V>(m: map<K, Entry<V>>, calls: seq<(int, Call<K, V>)>, now: int)
    requires InOrder(calls) && (calls != [] ==> calls[|calls| - 1].0 <= now)
    ensures View(Runs(m, calls), now) == View(IdealRuns(m, calls), now)
    ensures forall key :: Lookup(Runs(m, calls), key, now) == Lookup(IdealRuns(m, calls), key, now)
    decreases |calls|
  {
    if calls != [] {
      var n := |calls| - 1;
      var (at, call) := calls[n];
      CleanupIsInvisible(m, calls[..n], at);
      StepMatchesIdeal(Runs(m, calls[..n]), IdealRuns(m, calls[..n]), call, at, now);
    }
    ViewDecidesLookup(Runs(m, calls), IdealRuns(m, calls), now);
  }

  lemma ViewDecidesLookup<K(!new), V>(a: map<K, Entry<V>>, b: map<K, Entry<V>>, now: int)
    requires View(a, now) == View(b, now)
    ensures forall key :: Lookup(a, key, now) == Lookup(b, key, now)
  {
    forall key ensures Lookup(a, key, now) == Lookup(b, key, now) {
      assert key in View(a, now) <==> key in View(b, now);
    }
  }

  lemma StepMatchesIdeal<K(!new), V>(actual: map<K, Entry<V>>, ideal: map<K, Entry<V>>, call: Call<K, V>, at: int, now: int)
    requires View(actual, at) == View(ideal, at) && at <= now
    ensures View(Step(actual, call, at), now) == View(Ideal(ideal, call, at), now)
  {
    var a, b := View(Step(actual, call, at), now), View(Ideal(ideal, call, at), now);
    forall key ensures key in a <==> key in b
               ensures key in a ==> a[key] == b[key]
    {
      assert key in View(actual, at) <==> key in View(ideal, at);
      assert key in actual && !Expired(actual[key], now) ==> key in View(actual, at);
      assert key in ideal && !Expired(ideal[key], now) ==> key in View(ideal, at);
    }
  }

  /** The latest call that writes a key, with its clock. */
  function LastOn<K(!new, ==), V>(calls: seq<(int, Call<K, V>)>, key: K): Option<(int, Call<K, V>)>
    decreases |calls|
  {
    if calls == [] then None else
    var last := calls[|calls| - 1];
    if last.1.Clear? || (!last.1.Get? && last.1.key == key) then Some(last) else LastOn(calls[..|calls| - 1], key)
  }

  /** What one call leaves a reader of its key to find at a time. */
  function Found<K, V>(call: Call<K, V>, at: int, now: int): Option<V> {
    match call
    case SetForever(_, v) => Some(v)
    case SetWithTTL(_, v, ttl) => if ttl > 0 && now - at <= ttl then Some(v) else None
    case _ => None
  }

  /**
   A key is what its latest write made it, whatever reads, sweeps and writes of other keys there
   were: set for ever, set until its time to live is over and not a moment less or more, or absent.
   */
  lemma LatestWriteDecides<K(!new), V>(calls: seq<(int, Call<K, V>)>, key: K, now: int)
    requires InOrder(calls) && (calls != [] ==> calls[|calls| - 1].0 <= now)
    ensures Lookup(Runs(map[], calls), key, now) ==
            match LastOn(calls, key) case None => None case Some((at, call)) => Found(call, at, now)
  {
    CleanupIsInvisible(map[], calls, now);
    IdealIsLatest(calls, key, now);
  }

  lemma {:induction false} IdealIsLatest<K(!new), V>(calls: seq<(int, Call<K, V>)>, key: K, now: int)
    ensures Lookup(IdealRuns(map[], calls), key, now) ==
            match LastOn(calls, key) case None => None case Some((at, call)) => Found(call, at, now)
    decreases |calls|
  {
    if calls != [] {
      IdealIsLatest(calls[..|calls| - 1], key, now);
    }
  }

  // ----- Get split at its lock boundary, interleaved with everything else -----

  // A Get that saw an expired entry has released the read lock and will delete the key later.
  datatype System<K, V> = System(
    now: int,
    m: map<K, Entry<V>>,
    pending: multiset<K>,
    latest: map<K, Entry<V>>)     // the latest Set of each key not deleted since, as a caller sees it

  datatype Event<K, V> =
    | Pass(d: nat)
    | ReadPhase(key: K)
    | DeletePhase(key: K)
    | Write(call: Call<K, V>)

  function Next<K(!new), V>(s: System<K, V>, e: Event<K, V>): (r: System<K, V>)
    ensures r.now >= s.now
  {
    match e
    case Pass(d) => s.(now := s.now + d)
    case ReadPhase(k) =>
      if k in s.m && Expired(s.m[k], s.now) then s.(pending := s.pending + multiset{k}) else s
    case DeletePhase(k) =>
      if k in s.pending then s.(pending := s.pending - multiset{k}, m := s.m - {k}) else s
    case Write(call) =>
      if call.Get? then s
      else s.(m := Step(s.m, call, s.now), latest := Ideal(s.latest, call, s.now))
  }

  function RunEvents<K(!new), V>(s: System<K, V>, events: seq<Event<K, V>>): System<K, V>
    decreases |events|
  {
    if events == [] then s else Next(RunEvents(s, events[..|events| - 1]), events[|events| - 1])
  }

  ghost predicate Initial<K(!new), V>(s: System<K, V>) {
    s.m == map[] && s.latest == map[] && s.pending == multiset{}
  }

  ghost predicate Within<K(!new), V>(s: System<K, V>) {
    forall k :: k in s.m ==> k in s.latest && s.m[k] == s.latest[k]
  }

  lemma StepWithin<K(!new), V>(s: System<K, V>, e: Event<K, V>)
    requires Within(s)
    ensures Within(Next(s, e))
  {}

  lemma {:induction false} StoreWithinLatest<K(!new), V>(s: System<K, V>, events: seq<Event<K, V>>)
    requires Initial(s)
    ensures Within(RunEvents(s, events))
    decreases |events|
  {
    if events != [] {
      StoreWithinLatest(s, events[..|events| - 1]);
      StepWithin(RunEvents(s, events[..|events| - 1]), events[|events| - 1]);
    }
  }

  /** In any interleaving a hit returns the latest value set for the key, unexpired and undeleted. */
  lemma HitsAreLatest<K(!new), V>(s: System<K, V>, events: seq<Event<K, V>>, key: K)
    requires Initial(s)
    ensures var end := RunEvents(s, events);
            Lookup(end.m, key, end.now).Some? ==> Lookup(end.m, key, end.now) == Lookup(end.latest, key, end.now)
  {
    StoreWithinLatest(s, events);
  }

  lemma PendingStep<K(!new), V>(s: System<K, V>, e: Event<K, V>, key: K)
    requires key in Next(s, e).pending && key !in s.pending
    ensures e == ReadPhase(key) && key in s.m && Expired(s.m[key], s.now)
  {
    match e
    case Pass(_) =>
    case ReadPhase(_) =>
    case DeletePhase(_) =>
    case Write(_) =>
  }

  /** A pending delete was scheduled by a read that saw the key expired. */
  lemma {:induction false} PendingSawExpired<K(!new), V>(s: System<K, V>, events: seq<Event<K, V>>, key: K) returns (i: nat)
    requires Initial(s) && key in RunEvents(s, events).pending
    ensures i < |events| && events[i] == ReadPhase(key)
    ensures var at := RunEvents(s, events[..i]); key in at.m && Expired(at.m[key], at.now)
    decreases |events|
  {
    var n := |events| - 1;
    var before := RunEvents(s, events[..n]);
    if key in before.pending {
      i := PendingSawExpired(s, events[..n], key);
      assert events[..n][..i] == events[..i];
    } else {
      PendingStep(before, events[n], key);
      i := n;
    }
  }

  /** The latest Set of the key is still good, but the store does not have it. */
  ghost predicate Lost<K(!new), V>(s: System<K, V>, key: K) {
    && key in s.latest && !Expired(s.latest[key], s.now)
    && (key !in s.m || Expired(s.m[key], s.now))
  }

  lemma LossStep<K(!new), V>(s: System<K, V>, e: Event<K, V>, key: K)
    requires Within(s) && Lost(Next(s, e), key) && !Lost(s, key)
    ensures e == DeletePhase(key) && key in s.pending && key in s.m && !Expired(s.m[key], s.now)
  {
    match e
    case Pass(_) =>
    case ReadPhase(_) =>
    case DeletePhase(_) =>
    case Write(_) =>
  }

  /** A live entry leaves the store only by a delayed delete; the delete is found in the run. */
  lemma {:induction false} LostToDelayedDelete<K(!new), V>(s: System<K, V>, events: seq<Event<K, V>>, key: K) returns (j: nat)
    requires Initial(s) && Lost(RunEvents(s, events), key)
    ensures j < |events| && events[j] == DeletePhase(key)
    ensures var at := RunEvents(s, events[..j]);
            key in at.pending && key in at.m && !Expired(at.m[key], at.now)
    decreases |events|
  {
    var n := |events| - 1;
    StoreWithinLatest(s, events[..n]);
    if Lost(RunEvents(s, events[..n]), key) {
      j := LostToDelayedDelete(s, events[..n], key);
      assert events[..n][..j] == events[..j];
    } else {
      LossStep(RunEvents(s, events[..n]), events[n], key);
      j := n;
    }
  }

  /**
   A spurious miss needs a Get that saw the key expired, then a new Set, then that Get's delete:
   at i the key was read as expired, at j > i it was live again and was deleted.
   */
  lemma SpuriousMissIsALateDelete<K(!new), V>(s: System<K, V>, events: seq<Event<K, V>>, key: K)
    requires Initial(s) && Lost(RunEvents(s, events), key)
    ensures exists i, j ::
              && 0 <= i < j < |events| && events[i] == ReadPhase(key) && events[j] == DeletePhase(key)
              && ExpiredAt(s, events, i, key) && LiveAt(s, events, j, key)
  {
    var j := LostToDelayedDelete(s, events, key);
    var i := PendingSawExpired(s, events[..j], key);
    assert events[..j][..i] == events[..i];
    assert ExpiredAt(s, events, i, key) && LiveAt(s, events, j, key);
  }

  lemma RunSnoc<K(!new), V>(s: System<K, V>, events: seq<Event<K, V>>, e: Event<K, V>)
    ensures RunEvents(s, events + [e]) == Next(RunEvents(s, events), e)
  {
    assert (events + [e])[..|events|] == events;
  }

  /** The only entry of a store after a write of its key. */
  lemma OnlyEntry<K(!new), V>(m: map<K, Entry<V>>, call: Call<K, V>, key: K, entry: Entry<V>, now: int)
    requires m.Keys <= {key} && !Expired(entry, now)
    requires match entry.expiresAt {
               case None => call == SetForever(key, entry.value)
               case Some(end) => end > now && call == Call.SetWithTTL(key, entry.value, end - now)
             }
    ensures Step(m, call, now) == Ideal(m, call, now) == map[key := entry]
  {
    assert m[key := entry] == map[key := entry];
    assert View(map[key := entry], now) == map[key := entry];
  }

  /** A read that sees the key expired. */
  function StaleRead<K, V>(key: K, value: V, ttl: nat): seq<Event<K, V>> {
    [Write(Call.SetWithTTL(key, value, ttl))] + [Pass(ttl + 1)] + [ReadPhase(key)]
  }

  lemma AfterStaleRead<K(!new), V>(s: System<K, V>, key: K, value: V, ttl: nat)
    requires Initial(s) && ttl > 0
    ensures var m := map[key := Entry(value, Some(s.now + ttl))];
            RunEvents(s, StaleRead(key, value, ttl)) == System(s.now + ttl + 1, m, multiset{key}, m)
  {
    var e: Event<K, V> := Write(Call.SetWithTTL(key, value, ttl));
    OnlyEntry(s.m, e.call, key, Entry(value, Some(s.now + ttl)), s.now);
    assert [] + [e] == [e];
    RunSnoc(s, [], e);
    RunSnoc(s, [e], Pass(ttl + 1));
    RunSnoc(s, [e] + [Pass(ttl + 1)], ReadPhase(key));
  }

  /** Such a miss does happen: a read sees the key expired, the key is set for ever, and the read's delete takes it away. */
  lemma LateDeleteLoses<K(!new), V>(s: System<K, V>, key: K, first: V, second: V, ttl: nat)
    requires Initial(s) && ttl > 0
    ensures var live := StaleRead(key, first, ttl) + [Write(SetForever(key, second))];
            && Lookup(RunEvents(s, live).m, key, RunEvents(s, live).now) == Some(second)
            && Lost(RunEvents(s, live + [DeletePhase(key)]), key)
  {
    var stale := StaleRead(key, first, ttl);
    var at := RunEvents(s, stale);
    AfterStaleRead(s, key, first, ttl);
    OnlyEntry(at.m, SetForever(key, second), key, Entry(second, None), at.now);
    RunSnoc(s, stale, Write(SetForever(key, second)));
    RunSnoc(s, stale + [Write(SetForever(key, second))], DeletePhase(key));
  }

  ghost predicate ExpiredAt<K(!new), V>(s: System<K, V>, events: seq<Event<K, V>>, i: int, key: K)
    requires 0 <= i <= |events|
  {
    var at := RunEvents(s, events[..i]);
    key in at.m && Expired(at.m[key], at.now)
  }

  ghost predicate LiveAt<K(!new), V>(s: System<K, V>, events: seq<Event<K, V>>, i: int, key: K)
    requires 0 <= i <= |events|
  {
    var at := RunEvents(s, events[..i]);
    key in at.m && !Expired(at.m[key], at.now)
  }

  /** The store as it runs, one call at a time; every method takes the clock it reads. */
  class Memory<K(==,!new), V> {
    const defaultTTL: int
    var m: map<K, Entry<V>>

    constructor (defaultTTL: int)
      ensures this.defaultTTL == defaultTTL && m == map[]
    {
      this.defaultTTL := defaultTTL;
      m := map[];
    }

    method Get(key: K, now: int) returns (r: Option<V>)
      modifies this`m
      ensures r == Lookup(old(m), key, now)
      ensures m == Step(old(m), Call.Get(key), now)
    {
      if key !in m {
        return None;
      }
      if Expired(m[key], now) {
        Delete(key);
        return None;
      }
      return Some(m[key].value);
    }

    method Has(key: K, now: int) returns (ok: bool)
      modifies this`m
      ensures ok == Lookup(old(m), key, now).Some?
      ensures m == Step(old(m), Call.Get(key), now)
    {
      var r := Get(key, now);
      ok := r.Some?;
    }

    method Set(key: K, value: V, now: int)
      modifies this`m
      ensures m == Step(old(m), if defaultTTL > 0 then Call.SetWithTTL(key, value, defaultTTL) else SetForever(key, value), now)
    {
      if defaultTTL > 0 {
        SetWithTTL(key, value, defaultTTL, now);
        return;
      }
      m := m[key := Entry(value, None)];
      Cleanup(now);
    }

    method SetWithTTL(key: K, value: V, ttl: int, now: int)
      modifies this`m
      ensures m == Step(old(m), Call.SetWithTTL(key, value, ttl), now)
    {
      if ttl <= 0 {
        m := m - {key};
        Cleanup(now);
        return;
      }
      m := m[key := Entry(value, Some(now + ttl))];
      Cleanup(now);
    }

    /** time.Until and time.Now are two readings, the second not before the first. */
    method SetUntil(key: K, value: V, expiresAt: int, readAt: int, now: int)
      requires readAt <= now
      modifies this`m
      ensures m == Step(old(m), Call.SetWithTTL(key, value, expiresAt - readAt), now)
      ensures expiresAt > readAt ==> key in m && m[key].expiresAt.Some? && m[key].expiresAt.value >= expiresAt
    {
      SetWithTTL(key, value, expiresAt - readAt, now);
    }

    method Delete(key: K)
      modifies this`m
      ensures m == old(m) - {key}
    {
      m := m - {key};
    }

    method Clear()
      modifies this`m
      ensures m == map[]
    {
      m := map[];
    }

    /** cleanupLocked: the map is ranged over in any order while entries are deleted from it. */
    method Cleanup(now: int)
      modifies this`m
      ensures m == View(old(m), now)
    {
      var rest := m.Keys;
      while rest != {}
        invariant rest <= m.Keys <= old(m).Keys
        invariant forall k :: k in m ==> m[k] == old(m)[k]
        invariant forall k :: k in old(m) && !Expired(old(m)[k], now) ==> k in m
        invariant forall k :: k in m && k !in rest ==> !Expired(m[k], now)
        decreases |rest|
      {
        var k :| k in rest;
        rest := rest - {k};
        if Expired(m[k], now) {
          m := m - {k};
        }
      }
    }
  }
}
