/**
 The token bucket Lua script of RedisClusterRateLimiter
 (internal/platform/middleware/sentinel/limiter.go:172-206): integer tokens and a timestamp in
 whole seconds, stored under two keys that expire together.
 */
module TokenBucket {
  import opened Wrappers

  // ARGV: rate and capacity in tokens, the caller's clock, and what the call asks for.
  datatype Config = Config(rate: nat, capacity: nat)

  datatype Bucket = Bucket(tokens: nat, refreshed: nat)

  // One call: the clock in milliseconds, and the tokens requested (the limiter always asks for 1).
  datatype Call = Call(ms: nat, requested: nat)

  function Seconds(ms: nat): nat { ms / 1000 }

  function Min(a: int, b: int): int { if a <= b then a else b }

  function Max(a: int, b: int): int { if a >= b then a else b }

  /** math.floor(capacity / rate * 2), in seconds */
  function Ttl(cfg: Config): nat
    requires cfg.rate > 0
  {
    2 * cfg.capacity / cfg.rate
  }

  /** Tokens available at a time; an absent bucket reads as full and last refreshed at 0. */
  function Filled(cfg: Config, b: Option<Bucket>, now: nat): (r: int)
    ensures r <= cfg.capacity
    ensures b.None? || b.value.tokens <= cfg.capacity ==> r >= 0
  {
    var last := if b.Some? then b.value.tokens else cfg.capacity;
    var refreshed := if b.Some? then b.value.refreshed else 0;
    FillBound(Max(0, now - refreshed), cfg.rate);
    Min(cfg.capacity, last + Max(0, now - refreshed) * cfg.rate)
  }

  lemma FillBound(delta: int, rate: nat)
    requires delta >= 0
    ensures delta * rate >= 0
  {}

  predicate Allows(cfg: Config, b: Option<Bucket>, call: Call) {
    Filled(cfg, b, Seconds(call.ms)) >= call.requested
  }

  predicate Sound(cfg: Config, b: Option<Bucket>) {
    b.Some? ==> b.value.tokens <= cfg.capacity
  }

  function After(cfg: Config, b: Option<Bucket>, call: Call): (r: Bucket)
    requires Sound(cfg, b)
    ensures Sound(cfg, Some(r)) && r.refreshed == Seconds(call.ms)
  {
    var filled := Filled(cfg, b, Seconds(call.ms));
    Bucket(if Allows(cfg, b, call) then filled - call.requested else filled, Seconds(call.ms))
  }

  // What Redis stores: the bucket and the instant from which both keys are gone.
  datatype Stored = Stored(bucket: Bucket, deadline: nat)

  /** The bucket a call reads at a time: nothing once the deadline is reached. */
  function Visible(s: Option<Stored>, ms: nat): Option<Bucket> {
    if s.Some? && ms < s.value.deadline then Some(s.value.bucket) else None
  }

  function AfterExpiring(cfg: Config, s: Option<Stored>, call: Call): (r: Stored)
    requires cfg.rate > 0 && (s.Some? ==> s.value.bucket.tokens <= cfg.capacity)
    ensures r.bucket.tokens <= cfg.capacity
  {
    Stored(After(cfg, Visible(s, call.ms), call), call.ms + Ttl(cfg) * 1000)
  }

  /** The decisions of a run of calls on one key, with Redis expiring the keys. */
  function Decisions(cfg: Config, s: Option<Stored>, calls: seq<Call>): (r: seq<bool>)
    requires cfg.rate > 0 && (s.Some? ==> s.value.bucket.tokens <= cfg.capacity)
    ensures |r| == |calls|
    decreases |calls|
  {
    if calls == [] then [] else
    [Allows(cfg, Visible(s, calls[0].ms), calls[0])]
    + Decisions(cfg, Some(AfterExpiring(cfg, s, calls[0])), calls[1..])
  }

  /** The decisions of the same run on a server that never expires a key. */
  function LastingDecisions(cfg: Config, b: Option<Bucket>, calls: seq<Call>): (r: seq<bool>)
    requires Sound(cfg, b)
    ensures |r| == |calls|
    decreases |calls|
  {
    if calls == [] then [] else
    [Allows(cfg, b, calls[0])] + LastingDecisions(cfg, Some(After(cfg, b, calls[0])), calls[1..])
  }

  ghost predicate Monotone(calls: seq<Call>) {
    forall i, j :: 0 <= i < j < |calls| ==> calls[i].ms <= calls[j].ms
  }

  // ----- the sliding-window bound -----

  function Granted(calls: seq<Call>, decisions: seq<bool>): nat
    requires |calls| == |decisions|
    decreases |calls|
  {
    if calls == [] then 0
    else (if decisions[0] then calls[0].requested else 0) + Granted(calls[1..], decisions[1..])
  }

  /** What the rate adds between two times in seconds. */
  function Inflow(cfg: Config, from: nat, to: nat): int {
    cfg.rate * (to - from)
  }

  lemma InflowAdds(cfg: Config, a: nat, b: nat, c: nat)
    ensures Inflow(cfg, a, b) + Inflow(cfg, b, c) == Inflow(cfg, a, c)
  {}

  lemma NothingFlows(cfg: Config, at: nat)
    ensures Inflow(cfg, at, at) == 0
  {}

  /** One call never grants more than was there, and leaves the rest. */
  lemma StepConserves(cfg: Config, b: Option<Bucket>, call: Call)
    requires Sound(cfg, b)
    ensures var granted := if Allows(cfg, b, call) then call.requested else 0;
            && granted + After(cfg, b, call).tokens <= cfg.capacity
            && (b.Some? && b.value.refreshed <= Seconds(call.ms) ==>
                  granted + After(cfg, b, call).tokens
                    <= b.value.tokens + Inflow(cfg, b.value.refreshed, Seconds(call.ms)))
  {}

  lemma GrantedCons(cfg: Config, b: Option<Bucket>, calls: seq<Call>)
    requires Sound(cfg, b) && calls != []
    ensures Granted(calls, LastingDecisions(cfg, b, calls))
         == (if Allows(cfg, b, calls[0]) then calls[0].requested else 0)
            + Granted(calls[1..], LastingDecisions(cfg, Some(After(cfg, b, calls[0])), calls[1..]))
  {
    assert LastingDecisions(cfg, b, calls)[1..]
        == LastingDecisions(cfg, Some(After(cfg, b, calls[0])), calls[1..]);
  }

  /** From a bucket, a run grants at most what is in it plus what flows in until the last call. */
  lemma {:induction false} GrantedWithinFlow(cfg: Config, b: Bucket, calls: seq<Call>)
    requires Sound(cfg, Some(b)) && Monotone(calls) && calls != []
    requires b.refreshed <= Seconds(calls[0].ms)
    ensures Granted(calls, LastingDecisions(cfg, Some(b), calls))
         <= b.tokens + Inflow(cfg, b.refreshed, Seconds(calls[|calls| - 1].ms))
    decreases |calls|
  {
    StepConserves(cfg, Some(b), calls[0]);
    GrantedCons(cfg, Some(b), calls);
    if |calls| > 1 {
      assert calls[1..][|calls| - 2] == calls[|calls| - 1];
      GrantedWithinFlow(cfg, After(cfg, Some(b), calls[0]), calls[1..]);
      InflowAdds(cfg, b.refreshed, Seconds(calls[0].ms), Seconds(calls[|calls| - 1].ms));
    } else {
      assert calls[1..] == [];
    }
  }

  /**
   Any window of a run, from its first to its last call, grants at most the capacity plus the
   rate times the seconds between them.
   */
  lemma WindowBound(cfg: Config, b: Option<Bucket>, calls: seq<Call>)
    requires Sound(cfg, b) && Monotone(calls) && calls != []
    ensures Granted(calls, LastingDecisions(cfg, b, calls))
         <= cfg.capacity + Inflow(cfg, Seconds(calls[0].ms), Seconds(calls[|calls| - 1].ms))
  {
    StepConserves(cfg, b, calls[0]);
    GrantedCons(cfg, b, calls);
    if |calls| > 1 {
      assert calls[1..][|calls| - 2] == calls[|calls| - 1];
      GrantedWithinFlow(cfg, After(cfg, b, calls[0]), calls[1..]);
    } else {
      NothingFlows(cfg, Seconds(calls[0].ms));
    }
  }

  // ----- which calls are refused -----

  /** The bucket before call n of a run on an absent one. */
  function BucketAt(cfg: Config, calls: seq<Call>, n: nat): (b: Option<Bucket>)
    requires n <= |calls|
    ensures Sound(cfg, b) && (b.None? <==> n == 0) && (n > 0 ==> b.value.refreshed == calls[n - 1].ms / 1000)
  {
    if n == 0 then None else Some(After(cfg, BucketAt(cfg, calls, n - 1), calls[n - 1]))
  }

  lemma {:induction false} DecisionsFrom(cfg: Config, calls: seq<Call>, n: nat)
    requires n <= |calls|
    ensures LastingDecisions(cfg, None, calls)[n..] == LastingDecisions(cfg, BucketAt(cfg, calls, n), calls[n..])
    decreases n
  {
    if n > 0 {
      DecisionsFrom(cfg, calls, n - 1);
      assert calls[n - 1..][0] == calls[n - 1] && calls[n - 1..][1..] == calls[n..];
      assert LastingDecisions(cfg, None, calls)[n..] == LastingDecisions(cfg, None, calls)[n - 1..][1..];
    }
  }

  /** What calls i to j - 1 of a run on an absent bucket are granted. */
  function GrantedBetween(cfg: Config, calls: seq<Call>, i: nat, j: nat): nat
    requires i <= j <= |calls|
  {
    Granted(calls[i..j], LastingDecisions(cfg, None, calls)[i..j])
  }

  lemma {:induction false} GrantedSnoc(calls: seq<Call>, decisions: seq<bool>, call: Call, decision: bool)
    requires |calls| == |decisions|
    ensures Granted(calls + [call], decisions + [decision])
         == Granted(calls, decisions) + if decision then call.requested else 0
    decreases |calls|
  {
    if calls == [] {
      assert (calls + [call])[1..] == [] && (decisions + [decision])[1..] == [];
    } else {
      assert (calls + [call])[1..] == calls[1..] + [call];
      assert (decisions + [decision])[1..] == decisions[1..] + [decision];
      GrantedSnoc(calls[1..], decisions[1..], call, decision);
    }
  }

  lemma GrantedLonger(cfg: Config, calls: seq<Call>, i: nat, j: nat)
    requires i <= j < |calls|
    ensures LastingDecisions(cfg, None, calls)[j] == Allows(cfg, BucketAt(cfg, calls, j), calls[j])
    ensures GrantedBetween(cfg, calls, i, j + 1)
         == GrantedBetween(cfg, calls, i, j) + if Allows(cfg, BucketAt(cfg, calls, j), calls[j]) then calls[j].requested else 0
  {
    var decisions := LastingDecisions(cfg, None, calls);
    DecisionsFrom(cfg, calls, j);
    assert decisions[j] == decisions[j..][0];
    assert calls[i..j + 1] == calls[i..j] + [calls[j]] && decisions[i..j + 1] == decisions[i..j] + [decisions[j]];
    GrantedSnoc(calls[i..j], decisions[i..j], calls[j], decisions[j]);
  }

  /** What is left at call j of a bucket that was full at call i and got nothing but the rate since. */
  function Remaining(cfg: Config, calls: seq<Call>, i: nat, j: nat): int
    requires i <= j < |calls|
  {
    cfg.capacity + Inflow(cfg, Seconds(calls[i].ms), Seconds(calls[j].ms)) - GrantedBetween(cfg, calls, i, j)
  }

  /** What call j adds to a bucket by its time, less what it takes. */
  function Change(cfg: Config, calls: seq<Call>, j: nat): int
    requires j + 1 < |calls|
  {
    Inflow(cfg, Seconds(calls[j].ms), Seconds(calls[j + 1].ms))
    - if Allows(cfg, BucketAt(cfg, calls, j), calls[j]) then calls[j].requested else 0
  }

  lemma RemainingNext(cfg: Config, calls: seq<Call>, i: nat, j: nat)
    requires i <= j && j + 1 < |calls|
    ensures Remaining(cfg, calls, i, j + 1) == Remaining(cfg, calls, i, j) + Change(cfg, calls, j)
  {
    GrantedLonger(cfg, calls, i, j);
    InflowAdds(cfg, Seconds(calls[i].ms), Seconds(calls[j].ms), Seconds(calls[j + 1].ms));
  }

  lemma RemainingAtOnce(cfg: Config, calls: seq<Call>, j: nat)
    requires j < |calls|
    ensures Remaining(cfg, calls, j, j) == cfg.capacity
  {
    assert calls[j..j] == [];
    NothingFlows(cfg, Seconds(calls[j].ms));
  }

  /** The tokens that call j finds. */
  function FilledAt(cfg: Config, calls: seq<Call>, j: nat): int
    requires j < |calls|
  {
    Filled(cfg, BucketAt(cfg, calls, j), Seconds(calls[j].ms))
  }

  lemma FilledAfter(cfg: Config, b: Option<Bucket>, call: Call, later: nat)
    requires Sound(cfg, b) && Seconds(call.ms) <= later
    ensures Filled(cfg, Some(After(cfg, b, call)), later)
         == Min(cfg.capacity, Filled(cfg, b, Seconds(call.ms)) + Inflow(cfg, Seconds(call.ms), later)
                              - if Allows(cfg, b, call) then call.requested else 0)
  {
    assert (later - Seconds(call.ms)) * cfg.rate == Inflow(cfg, Seconds(call.ms), later);
  }

  lemma FilledNext(cfg: Config, calls: seq<Call>, j: nat)
    requires Monotone(calls) && j + 1 < |calls|
    ensures FilledAt(cfg, calls, j + 1) == Min(cfg.capacity, FilledAt(cfg, calls, j) + Change(cfg, calls, j))
  {
    assert calls[j].ms <= calls[j + 1].ms;
    SecondsGrow(calls[j].ms, calls[j + 1].ms);
    FilledAfter(cfg, BucketAt(cfg, calls, j), calls[j], Seconds(calls[j + 1].ms));
  }

  lemma SecondsGrow(a: nat, b: nat)
    requires a <= b
    ensures Seconds(a) <= Seconds(b)
  {
  }

  lemma FilledFirst(cfg: Config, calls: seq<Call>)
    requires calls != []
    ensures FilledAt(cfg, calls, 0) == cfg.capacity
  {
    FillBound(Seconds(calls[0].ms), cfg.rate);
  }

  /** The bucket at call j is as full as the least of what is left since any call. */
  ghost predicate LeastSince(cfg: Config, calls: seq<Call>, since: nat, j: nat)
    requires since <= j < |calls|
  {
    && FilledAt(cfg, calls, j) == Remaining(cfg, calls, since, j)
    && forall i :: 0 <= i <= j ==> FilledAt(cfg, calls, j) <= Remaining(cfg, calls, i, j)
  }

  lemma {:induction false} FilledIsLeast(cfg: Config, calls: seq<Call>, j: nat) returns (since: nat)
    requires Monotone(calls) && j < |calls|
    ensures since <= j && LeastSince(cfg, calls, since, j)
    decreases j
  {
    since := j;
    RemainingAtOnce(cfg, calls, j);
    if j == 0 {
      FilledFirst(cfg, calls);
    } else {
      var before := FilledIsLeast(cfg, calls, j - 1);
      FilledNext(cfg, calls, j - 1);
      forall i | 0 <= i < j
        ensures Remaining(cfg, calls, i, j) == Remaining(cfg, calls, i, j - 1) + Change(cfg, calls, j - 1)
      {
        RemainingNext(cfg, calls, i, j - 1);
      }
      if FilledAt(cfg, calls, j) < cfg.capacity {
        since := before;
      }
    }
  }

  /**
   A call on a lasting bucket that was absent before the run is refused if and only if it would take
   some window that ends with it over the capacity plus the rate times the window's whole seconds.
   */
  lemma RefusedIff(cfg: Config, calls: seq<Call>, j: nat)
    requires Monotone(calls) && j < |calls|
    ensures !LastingDecisions(cfg, None, calls)[j] <==>
            exists i :: 0 <= i <= j && OverLimit(cfg, calls, LastingDecisions(cfg, None, calls), i, j)
  {
    GrantedLonger(cfg, calls, j, j);
    var since := FilledIsLeast(cfg, calls, j);
    forall i | 0 <= i <= j
      ensures OverLimit(cfg, calls, LastingDecisions(cfg, None, calls), i, j) <==> calls[j].requested > Remaining(cfg, calls, i, j)
    {
    }
  }

  /** The tokens that calls i to j - 1 got and those that call j asks for are more than the limit of the window. */
  predicate OverLimit(cfg: Config, calls: seq<Call>, decisions: seq<bool>, i: nat, j: nat)
    requires i <= j < |calls| == |decisions|
  {
    Granted(calls[i..j], decisions[i..j]) + calls[j].requested
      > cfg.capacity + cfg.rate * (calls[j].ms / 1000 - calls[i].ms / 1000)
  }

  // ----- expiry cannot be observed -----

  /** A bucket left alone for a whole time to live is full. */
  lemma FullAfterTtl(cfg: Config, b: Bucket, now: nat)
    requires cfg.rate > 0 && 2 * cfg.capacity >= cfg.rate
    requires now >= b.refreshed + Ttl(cfg)
    ensures Filled(cfg, Some(b), now) == cfg.capacity == Filled(cfg, None, now)
  {
    var ttl := Ttl(cfg);
    TtlRefills(cfg);
    assert (now - b.refreshed) * cfg.rate >= ttl * cfg.rate by {
      FillBound(now - b.refreshed - ttl, cfg.rate);
      assert (now - b.refreshed - ttl) * cfg.rate == (now - b.refreshed) * cfg.rate - ttl * cfg.rate;
    }
    FillBound(now, cfg.rate);
  }

  lemma TtlRefills(cfg: Config)
    requires cfg.rate > 0 && 2 * cfg.capacity >= cfg.rate
    ensures Ttl(cfg) * cfg.rate >= cfg.capacity
  {
    var ttl := Ttl(cfg);
    assert 2 * cfg.capacity == ttl * cfg.rate + 2 * cfg.capacity % cfg.rate;
    if cfg.capacity < cfg.rate {
      assert ttl >= 1;
      FillBound(ttl - 1, cfg.rate);
      assert ttl * cfg.rate == (ttl - 1) * cfg.rate + cfg.rate;
    }
  }

  /** The stored pair is one an earlier call at some instant wrote. */
  ghost predicate Consistent(cfg: Config, s: Option<Stored>, b: Option<Bucket>, ms: nat)
    requires cfg.rate > 0
  {
    && Sound(cfg, b)
    && (s.None? <==> b.None?)
    && (s.Some? ==>
          exists at: nat :: at <= ms && Consistent1(cfg, s.value, b.value, at))
  }

  ghost predicate Consistent1(cfg: Config, s: Stored, b: Bucket, at: nat)
    requires cfg.rate > 0
  {
    s.bucket == b && b.refreshed == Seconds(at) && s.deadline == at + Ttl(cfg) * 1000
  }

  lemma {:induction false} SameDecisions(cfg: Config, s: Option<Stored>, b: Option<Bucket>, calls: seq<Call>)
    requires cfg.rate > 0 && 2 * cfg.capacity >= cfg.rate
    requires Monotone(calls) && (calls != [] ==> Consistent(cfg, s, b, calls[0].ms))
    requires s.Some? ==> s.value.bucket.tokens <= cfg.capacity
    requires Sound(cfg, b)
    ensures Decisions(cfg, s, calls) == LastingDecisions(cfg, b, calls)
    decreases |calls|
  {
    if calls != [] {
      var call := calls[0];
      if s.Some? && call.ms >= s.value.deadline {
        var at: nat :| at <= call.ms && Consistent1(cfg, s.value, b.value, at);
        assert Seconds(call.ms) >= Seconds(at) + Ttl(cfg);
        FullAfterTtl(cfg, b.value, Seconds(call.ms));
      }
      FillBound(Seconds(call.ms), cfg.rate);
      assert Filled(cfg, Visible(s, call.ms), Seconds(call.ms)) == Filled(cfg, b, Seconds(call.ms));
      assert Consistent1(cfg, AfterExpiring(cfg, s, call), After(cfg, b, call), call.ms);
      SameDecisions(cfg, Some(AfterExpiring(cfg, s, call)), Some(After(cfg, b, call)), calls[1..]);
    }
  }

  /** capacity + 1 single requests at one instant */
  function Burst(n: nat): (r: seq<Call>)
    ensures |r| == n && forall i :: 0 <= i < n ==> r[i] == Call(0, 1)
  {
    if n == 0 then [] else [Call(0, 1)] + Burst(n - 1)
  }

  lemma {:induction false} LastingBurst(cfg: Config, b: Option<Bucket>, n: nat)
    requires Sound(cfg, b) && n > Filled(cfg, b, 0)
    ensures false in LastingDecisions(cfg, b, Burst(n))
    decreases n
  {
    if Allows(cfg, b, Call(0, 1)) {
      LastingBurst(cfg, Some(After(cfg, b, Call(0, 1))), n - 1);
      assert LastingDecisions(cfg, b, Burst(n))[1..]
          == LastingDecisions(cfg, Some(After(cfg, b, Call(0, 1))), Burst(n)[1..]);
      assert Burst(n)[1..] == Burst(n - 1);
    } else {
      assert !LastingDecisions(cfg, b, Burst(n))[0];
    }
  }

  lemma {:induction false} VanishingBurst(cfg: Config, s: Option<Stored>, n: nat)
    requires cfg.rate > 2 * cfg.capacity >= 2
    requires s.Some? ==> s.value.bucket.tokens <= cfg.capacity && s.value.deadline == 0
    ensures false !in Decisions(cfg, s, Burst(n))
    decreases n
  {
    if n > 0 {
      assert Ttl(cfg) == 0;
      VanishingBurst(cfg, Some(AfterExpiring(cfg, s, Call(0, 1))), n - 1);
      assert Burst(n)[1..] == Burst(n - 1);
    }
  }

  lemma {:induction false} ZeroCapacityDecides(cfg: Config, s: Option<Stored>, b: Option<Bucket>, calls: seq<Call>)
    requires cfg.rate > 0 && cfg.capacity == 0 && Sound(cfg, b)
    requires s.Some? ==> s.value.bucket.tokens <= cfg.capacity
    ensures Decisions(cfg, s, calls) == LastingDecisions(cfg, b, calls)
    decreases |calls|
  {
    if calls != [] {
      ZeroCapacityDecides(cfg, Some(AfterExpiring(cfg, s, calls[0])), Some(After(cfg, b, calls[0])), calls[1..]);
    }
  }

  ghost predicate ExpiryUnobservable(cfg: Config)
    requires cfg.rate > 0
  {
    forall calls :: Monotone(calls) ==> Decisions(cfg, None, calls) == LastingDecisions(cfg, None, calls)
  }

  /**
   The time to live can be observed exactly when it rounds down to zero seconds for a bucket
   that can hold a token: then both keys vanish at once and every single request is allowed.
   */
  lemma ExpiryUnobservableIff(cfg: Config)
    requires cfg.rate > 0
    ensures ExpiryUnobservable(cfg) <==> (2 * cfg.capacity >= cfg.rate || cfg.capacity == 0)
  {
    if 2 * cfg.capacity >= cfg.rate {
      forall calls | Monotone(calls) ensures Decisions(cfg, None, calls) == LastingDecisions(cfg, None, calls) {
        SameDecisions(cfg, None, None, calls);
      }
    } else if cfg.capacity == 0 {
      forall calls | Monotone(calls) ensures Decisions(cfg, None, calls) == LastingDecisions(cfg, None, calls) {
        ZeroCapacityDecides(cfg, None, None, calls);
      }
    } else {
      var calls := Burst(cfg.capacity + 1);
      assert Monotone(calls);
      LastingBurst(cfg, None, cfg.capacity + 1);
      VanishingBurst(cfg, None, cfg.capacity + 1);
    }
  }

  /** The window bound for the server as it is, expiry included. */
  lemma WindowBoundWithExpiry(cfg: Config, before: seq<Call>, window: seq<Call>)
    requires cfg.rate > 0 && (2 * cfg.capacity >= cfg.rate || cfg.capacity == 0)
    requires Monotone(before + window) && window != []
    ensures WithinBound(cfg, before, window)
  {
    if cfg.capacity == 0 {
      ZeroCapacityDecides(cfg, None, None, before + window);
    } else {
      SameDecisions(cfg, None, None, before + window);
    }
    var b := SplitRun(cfg, None, before, window);
    WindowBound(cfg, b, window);
  }

  /** The script with its expiring keys refuses exactly the calls over the limit, whenever expiry cannot be observed. */
  lemma ScriptRefusesIff(cfg: Config, calls: seq<Call>, j: nat)
    requires cfg.rate > 0 && (2 * cfg.capacity >= cfg.rate || cfg.capacity == 0)
    requires Monotone(calls) && j < |calls|
    ensures !Decisions(cfg, None, calls)[j] <==>
            exists i :: 0 <= i <= j && OverLimit(cfg, calls, Decisions(cfg, None, calls), i, j)
  {
    if cfg.capacity == 0 {
      ZeroCapacityDecides(cfg, None, None, calls);
    } else {
      SameDecisions(cfg, None, None, calls);
    }
    RefusedIff(cfg, calls, j);
  }

  /** What the window grants, after what came before it, is at most the capacity plus the inflow. */
  ghost predicate WithinBound(cfg: Config, before: seq<Call>, window: seq<Call>)
    requires cfg.rate > 0 && window != []
  {
    Granted(window, Decisions(cfg, None, before + window)[|before|..])
      <= cfg.capacity + Inflow(cfg, Seconds(window[0].ms), Seconds(window[|window| - 1].ms))
  }

  ghost predicate AlwaysWithinBound(cfg: Config)
    requires cfg.rate > 0
  {
    forall before, window :: Monotone(before + window) && window != [] ==> WithinBound(cfg, before, window)
  }

  lemma {:induction false} AllGranted(n: nat, decisions: seq<bool>)
    requires |decisions| == n && false !in decisions
    ensures Granted(Burst(n), decisions) == n
    decreases n
  {
    if n > 0 {
      assert Burst(n)[1..] == Burst(n - 1);
      assert forall d :: d in decisions[1..] ==> d in decisions;
      assert decisions[0] in decisions;
      AllGranted(n - 1, decisions[1..]);
    }
  }

  /** With a time to live of zero seconds the script limits nothing: a burst of any size is granted at one instant. */
  lemma NothingLimited(cfg: Config, n: nat)
    requires cfg.rate > 2 * cfg.capacity >= 2
    ensures Granted(Burst(n), Decisions(cfg, None, Burst(n))) == n
  {
    VanishingBurst(cfg, None, n);
    AllGranted(n, Decisions(cfg, None, Burst(n)));
  }

  /** The script keeps the window bound over all runs if and only if its expiry cannot be observed. */
  lemma WindowBoundIff(cfg: Config)
    requires cfg.rate > 0
    ensures AlwaysWithinBound(cfg) <==> (2 * cfg.capacity >= cfg.rate || cfg.capacity == 0)
  {
    if 2 * cfg.capacity >= cfg.rate || cfg.capacity == 0 {
      forall before, window | Monotone(before + window) && window != [] ensures WithinBound(cfg, before, window) {
        WindowBoundWithExpiry(cfg, before, window);
      }
    } else {
      BurstBreaksBound(cfg);
    }
  }

  lemma AtOneInstant(cfg: Config, window: seq<Call>)
    requires cfg.rate > 0 && window != [] && window[0].ms == window[|window| - 1].ms
    ensures WithinBound(cfg, [], window) <==> Granted(window, Decisions(cfg, None, window)) <= cfg.capacity
  {
    assert [] + window == window;
    NothingFlows(cfg, Seconds(window[0].ms));
    assert Decisions(cfg, None, window)[0..] == Decisions(cfg, None, window);
  }

  lemma BurstIsMonotone(n: nat)
    ensures Monotone([] + Burst(n))
  {
    assert [] + Burst(n) == Burst(n);
  }

  lemma BurstBreaksBound(cfg: Config)
    requires cfg.rate > 2 * cfg.capacity >= 2
    ensures !AlwaysWithinBound(cfg)
  {
    var n := cfg.capacity + 1;
    BurstIsMonotone(n);
    AtOneInstant(cfg, Burst(n));
    NothingLimited(cfg, n);
  }

  lemma {:induction false} SplitRun(cfg: Config, b: Option<Bucket>, before: seq<Call>, window: seq<Call>)
    returns (mid: Option<Bucket>)
    requires Sound(cfg, b) && Monotone(before + window)
    ensures Sound(cfg, mid) && Monotone(window)
    ensures LastingDecisions(cfg, b, before + window)[|before|..] == LastingDecisions(cfg, mid, window)
    decreases |before|
  {
    forall i, j | 0 <= i < j < |window| ensures window[i].ms <= window[j].ms {
      assert (before + window)[|before| + i] == window[i] && (before + window)[|before| + j] == window[j];
    }
    if before == [] {
      mid := b;
      assert before + window == window;
    } else {
      assert (before + window)[1..] == before[1..] + window;
      mid := SplitRun(cfg, Some(After(cfg, b, before[0])), before[1..], window);
    }
  }

  /** Redis as the script changes it: the key, its `:ts` companion, and their deadlines. */
  class Store {
    var tokens: Option<nat>
    var refreshed: Option<nat>
    var tokensDeadline: nat
    var refreshedDeadline: nat

    ghost predicate Valid(cfg: Config)
      reads this
    {
      && (tokens.Some? <==> refreshed.Some?)
      && tokensDeadline == refreshedDeadline
      && (tokens.Some? ==> tokens.value <= cfg.capacity)
    }

    ghost function Contents(): Option<Stored>
      reads this
    {
      if tokens.Some? && refreshed.Some?
      then Some(Stored(Bucket(tokens.value, refreshed.value), tokensDeadline)) else None
    }

    constructor (cfg: Config)
      ensures Valid(cfg) && Contents() == None
    {
      tokens, refreshed, tokensDeadline, refreshedDeadline := None, None, 0, 0;
    }

    /** One run of the script; `call.ms` is the server's clock and the caller's clock in seconds. */
    method Script(cfg: Config, call: Call) returns (allowed: bool)
      requires cfg.rate > 0 && Valid(cfg)
      modifies this
      ensures Valid(cfg)
      ensures allowed == Allows(cfg, Visible(old(Contents()), call.ms), call)
      ensures Contents() == Some(AfterExpiring(cfg, old(Contents()), call))
    {
      var now: int := Seconds(call.ms);
      var ttl := 2 * cfg.capacity / cfg.rate;
      var lastTokens := cfg.capacity;
      if tokens.Some? && call.ms < tokensDeadline {
        lastTokens := tokens.value;
      }
      var lastRefreshed: int := 0;
      if refreshed.Some? && call.ms < refreshedDeadline {
        lastRefreshed := refreshed.value;
      }
      var delta := Max(0, now - lastRefreshed);
      FillBound(delta, cfg.rate);
      var filledTokens := Min(cfg.capacity, lastTokens + delta * cfg.rate);
      allowed := filledTokens >= call.requested;
      var newTokens := filledTokens;
      if allowed {
        newTokens := filledTokens - call.requested;
      }
      tokens := Some(newTokens);
      refreshed := Some(now);
      tokensDeadline := call.ms + ttl * 1000;
      refreshedDeadline := call.ms + ttl * 1000;
    }
  }
}
