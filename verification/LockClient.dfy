/**
 The lock objects of pkg/redis/lock.go as they run: a Redis server whose keys the commands
 change in place, and the Lock methods that issue the commands. Each method is proved against
 the one-key specification of module RedisLock.
 */
module LockClient {
  import opened RedisLock

  datatype Error = NoError | NotObtained | NotHeld | Transport | InvalidTtl | FnError | Panicked | StillWaiting

  // What the network does to one command: the server answers, never sees it, or its answer is lost.
  datatype Link = Answered | RequestLost | ReplyLost

  const DEFAULT_TTL: int := 10_000_000_000
  const DEFAULT_RETRY_INTERVAL: int := 50_000_000
  const DEFAULT_KEY_PREFIX := "go_admin:lock:"
  const NANOS_PER_MILLI: int := 1_000_000

  /** A duration in nanoseconds as the client library sends it: whole milliseconds, and at least one. */
  function Millis(nanos: int): (ms: nat)
    requires nanos > 0
    ensures ms > 0 && (ms > 1 ==> ms * NANOS_PER_MILLI <= nanos) && nanos < (ms + 1) * NANOS_PER_MILLI
  {
    if nanos < NANOS_PER_MILLI then 1 else nanos / NANOS_PER_MILLI
  }

  /** Redis as a map from keys to slots, one clock for all. */
  class Server {
    var now: nat
    var slots: map<string, Slot>

    constructor ()
      ensures now == 0 && slots == map[]
    {
      now := 0;
      slots := map[];
    }

    ghost function CellOf(key: string): Cell
      reads this
    {
      Cell(now, if key in slots then slots[key] else Free)
    }

    /** The value of a key: absent once its deadline is reached. */
    function Get(key: string): (r: Slot)
      reads this
      ensures r == Live(CellOf(key))
    {
      if key in slots && slots[key].Held? && now < slots[key].deadline then slots[key] else Free
    }

    method Set(key: string, slot: Slot)
      modifies this`slots
      ensures CellOf(key) == Cell(now, slot)
      ensures forall k :: k != key ==> CellOf(k) == old(CellOf(k))
    {
      slots := slots[key := slot];
    }

    /** SET key token PX ttl NX */
    method SetNotExists(key: string, token: Token, ttl: nat) returns (ok: bool)
      modifies this`slots
      ensures ok == Accepts(old(CellOf(key)), SetNx(token, ttl))
      ensures CellOf(key) == Apply(old(CellOf(key)), SetNx(token, ttl))
      ensures forall k :: k != key ==> CellOf(k) == old(CellOf(k))
    {
      ok := Get(key).Free?;
      if ok {
        Set(key, Held(token, now + ttl));
      }
    }

    method UnlockScript(key: string, token: Token) returns (n: int)
      modifies this`slots
      ensures n == if Accepts(old(CellOf(key)), CompareDelete(token)) then 1 else 0
      ensures CellOf(key) == Apply(old(CellOf(key)), CompareDelete(token))
      ensures forall k :: k != key ==> CellOf(k) == old(CellOf(k))
    {
      var value := Get(key);
      if value.Held? && value.token == token {
        Set(key, Free);
        return 1;
      }
      return 0;
    }

    method RefreshScript(key: string, token: Token, ms: nat) returns (n: int)
      modifies this`slots
      ensures n == if Accepts(old(CellOf(key)), CompareExpire(token, ms)) then 1 else 0
      ensures CellOf(key) == Apply(old(CellOf(key)), CompareExpire(token, ms))
      ensures forall k :: k != key ==> CellOf(k) == old(CellOf(k))
    {
      var value := Get(key);
      if value.Held? && value.token == token {
        Set(key, Held(token, now + ms));
        return 1;
      }
      return 0;
    }

    /** Whatever the clock and other connections do to one key while a caller waits. */
    method Interfere(key: string, cmds: seq<Command>)
      modifies this
      ensures CellOf(key) == Run(old(CellOf(key)), cmds)
    {
      var i := 0;
      assert cmds[..0] == [];
      while i < |cmds|
        invariant 0 <= i <= |cmds|
        invariant CellOf(key) == Run(old(CellOf(key)), cmds[..i])
      {
        assert cmds[..i + 1][..i] == cmds[..i];
        match cmds[i] {
          case Tick(d) => now := now + d;
          case SetNx(t, ttl) => var _ := SetNotExists(key, t, ttl);
          case CompareDelete(t) => var _ := UnlockScript(key, t);
          case CompareExpire(t, ttl) => var _ := RefreshScript(key, t, ttl);
        }
        i := i + 1;
      }
      assert cmds[..i] == cmds;
    }
  }

  // One round of the Lock loop: how its TryLock travels, what happens to the key during the
  // retry interval, and whether the context ends before the timer fires.
  datatype Round = Round(link: Link, others: seq<Command>, cancelled: bool)

  /** What a Lock call does to the key, its result, and how many times it tried. */
  function LockOutcome(c: Cell, t: Token, ttl: nat, maxRetries: int, rounds: seq<Round>, attempts: nat): (Cell, Error, nat)
    decreases |rounds|
  {
    if rounds == [] then (c, StillWaiting, attempts) else
    var r := rounds[0];
    var cmd := SetNx(t, ttl);
    var c' := if r.link.RequestLost? then c else Apply(c, cmd);
    if !r.link.Answered? then (c', Transport, attempts + 1)
    else if Accepts(c, cmd) then (c', NoError, attempts + 1)
    else if maxRetries > 0 && attempts + 1 > maxRetries then (c', NotObtained, attempts + 1)
    else if r.cancelled then (Run(c', r.others), NotObtained, attempts + 1)
    else LockOutcome(Run(c', r.others), t, ttl, maxRetries, rounds[1..], attempts + 1)
  }

  /** With maxRetries > 0 a Lock call makes at most maxRetries + 1 tries. */
  lemma {:induction false} BoundedTries(c: Cell, t: Token, ttl: nat, maxRetries: int, rounds: seq<Round>, attempts: nat)
    requires maxRetries > 0 && attempts <= maxRetries
    ensures attempts <= LockOutcome(c, t, ttl, maxRetries, rounds, attempts).2 <= maxRetries + 1
    ensures |rounds| > maxRetries - attempts ==>
              !LockOutcome(c, t, ttl, maxRetries, rounds, attempts).1.StillWaiting?
    decreases |rounds|
  {
    if rounds != [] {
      var c' := if rounds[0].link.RequestLost? then c else Apply(c, SetNx(t, ttl));
      if attempts + 1 <= maxRetries {
        BoundedTries(Run(c', rounds[0].others), t, ttl, maxRetries, rounds[1..], attempts + 1);
      }
    }
  }

  /** A Lock call that returns nil leaves its own token on the key, with a full time to live. */
  lemma {:induction false} LockedByOwnToken(c: Cell, t: Token, ttl: nat, maxRetries: int, rounds: seq<Round>, attempts: nat)
    requires ttl > 0
    requires LockOutcome(c, t, ttl, maxRetries, rounds, attempts).1.NoError?
    ensures var (end, _, _) := LockOutcome(c, t, ttl, maxRetries, rounds, attempts);
            end.slot == Held(t, end.now + ttl) && HeldBy(end, t)
    decreases |rounds|
  {
    var c' := if rounds[0].link.RequestLost? then c else Apply(c, SetNx(t, ttl));
    if rounds[0].link.Answered? && !Accepts(c, SetNx(t, ttl)) {
      LockedByOwnToken(Run(c', rounds[0].others), t, ttl, maxRetries, rounds[1..], attempts + 1);
    }
  }

  /** The key just before try k: refused tries leave it to the others. */
  function BeforeTry(c: Cell, rounds: seq<Round>, k: nat): Cell
    requires k <= |rounds|
  {
    if k == 0 then c else Run(BeforeTry(c, rounds, k - 1), rounds[k - 1].others)
  }

  /** Try k is answered, the key is taken, and neither the retries nor the context have run out. */
  predicate GoesOn(c: Cell, maxRetries: int, rounds: seq<Round>, k: nat)
    requires k < |rounds|
  {
    && rounds[k].link.Answered? && Live(BeforeTry(c, rounds, k)).Held?
    && (maxRetries <= 0 || k < maxRetries) && !rounds[k].cancelled
  }

  lemma {:induction false} AfterTries(c: Cell, t: Token, ttl: nat, maxRetries: int, rounds: seq<Round>, n: nat)
    requires n <= |rounds| && forall k :: 0 <= k < n ==> GoesOn(c, maxRetries, rounds, k)
    ensures LockOutcome(c, t, ttl, maxRetries, rounds, 0)
         == LockOutcome(BeforeTry(c, rounds, n), t, ttl, maxRetries, rounds[n..], n)
    decreases n
  {
    if n > 0 {
      AfterTries(c, t, ttl, maxRetries, rounds, n - 1);
      assert GoesOn(c, maxRetries, rounds, n - 1);
      assert rounds[n - 1..][0] == rounds[n - 1] && rounds[n - 1..][1..] == rounds[n..];
    }
  }

  /**
   Lock ends at the first try that does not go on, and what it answers is decided there: nil with
   the key taken exactly when the try is answered and the key is free.
   */
  lemma LockEnds(c: Cell, t: Token, ttl: nat, maxRetries: int, rounds: seq<Round>) returns (n: nat)
    ensures n <= |rounds| && (forall k :: 0 <= k < n ==> GoesOn(c, maxRetries, rounds, k))
    ensures var (end, err, attempts) := LockOutcome(c, t, ttl, maxRetries, rounds, 0);
            var at := BeforeTry(c, rounds, n);
            if n == |rounds| then end == at && err == StillWaiting && attempts == n
            else
              var taken := Cell(at.now, Held(t, at.now + ttl));
              var (link, free) := (rounds[n].link, Live(at).Free?);
              && !GoesOn(c, maxRetries, rounds, n) && attempts == n + 1
              && err == (if !link.Answered? then Transport else if free then NoError else NotObtained)
              && end == (if free then if link.RequestLost? then at else taken
                         else if link.Answered? && (maxRetries <= 0 || n < maxRetries) then Run(at, rounds[n].others)
                         else at)
  {
    n := 0;
    while n < |rounds| && GoesOn(c, maxRetries, rounds, n)
      invariant n <= |rounds| && forall k :: 0 <= k < n ==> GoesOn(c, maxRetries, rounds, k)
    {
      n := n + 1;
    }
    AfterTries(c, t, ttl, maxRetries, rounds, n);
    assert n < |rounds| ==> rounds[n..][0] == rounds[n];
  }

  /** A lock object: created by NewLock, not yet held. Durations are in nanoseconds. */
  class Lock {
    const server: Server
    const key: string
    const token: Token
    const ttl: int
    const retryInterval: int
    const maxRetries: int

    constructor (server: Server, name: string, uuid: Token, ttl: int, retryInterval: int, maxRetries: int, keyPrefix: string)
      ensures this.server == server && token == uuid && this.maxRetries == maxRetries
      ensures this.ttl == (if ttl <= 0 then DEFAULT_TTL else ttl) && this.ttl > 0
      ensures this.retryInterval == (if retryInterval <= 0 then DEFAULT_RETRY_INTERVAL else retryInterval) > 0
      ensures key == (if keyPrefix == "" then DEFAULT_KEY_PREFIX else keyPrefix) + name
    {
      this.server := server;
      this.token := uuid;
      this.ttl := if ttl <= 0 then DEFAULT_TTL else ttl;
      this.retryInterval := if retryInterval <= 0 then DEFAULT_RETRY_INTERVAL else retryInterval;
      this.maxRetries := maxRetries;
      this.key := (if keyPrefix == "" then DEFAULT_KEY_PREFIX else keyPrefix) + name;
    }

    method TryLock(link: Link) returns (err: Error)
      requires ttl > 0
      modifies server`slots
      ensures var before := old(server.CellOf(key));
              var cmd := SetNx(token, Millis(ttl));
              && server.CellOf(key) == (if link.RequestLost? then before else Apply(before, cmd))
              && err == (if !link.Answered? then Transport else if Accepts(before, cmd) then NoError else NotObtained)
      ensures forall k :: k != key ==> server.CellOf(k) == old(server.CellOf(k))
    {
      if link.RequestLost? {
        return Transport;
      }
      var ok := server.SetNotExists(key, token, Millis(ttl));
      if link.ReplyLost? {
        return Transport;
      }
      err := if ok then NoError else NotObtained;
    }

    method Acquire(rounds: seq<Round>) returns (err: Error, attempts: nat)
      requires ttl > 0
      modifies server
      ensures (server.CellOf(key), err, attempts)
           == LockOutcome(old(server.CellOf(key)), token, Millis(ttl), maxRetries, rounds, 0)
    {
      attempts := 0;
      var i := 0;
      while i < |rounds|
        invariant 0 <= i <= |rounds| && attempts == i
        invariant LockOutcome(old(server.CellOf(key)), token, Millis(ttl), maxRetries, rounds, 0)
               == LockOutcome(server.CellOf(key), token, Millis(ttl), maxRetries, rounds[i..], attempts)
      {
        assert rounds[i..][0] == rounds[i] && rounds[i..][1..] == rounds[i + 1..];
        err := TryLock(rounds[i].link);
        attempts := attempts + 1;
        if err == NoError {
          return;
        }
        if err != NotObtained {
          return;
        }
        if maxRetries > 0 && attempts > maxRetries {
          return NotObtained, attempts;
        }
        server.Interfere(key, rounds[i].others);
        if rounds[i].cancelled {
          return NotObtained, attempts;
        }
        i := i + 1;
      }
      err := StillWaiting;
    }

    method Unlock(link: Link) returns (err: Error)
      modifies server`slots
      ensures var before := old(server.CellOf(key));
              var cmd := CompareDelete(token);
              && server.CellOf(key) == (if link.RequestLost? then before else Apply(before, cmd))
              && err == (if !link.Answered? then Transport else if HeldBy(before, token) then NoError else NotHeld)
      ensures forall k :: k != key ==> server.CellOf(k) == old(server.CellOf(k))
    {
      if link.RequestLost? {
        return Transport;
      }
      var n := server.UnlockScript(key, token);
      if link.ReplyLost? {
        return Transport;
      }
      err := if n == 0 then NotHeld else NoError;
    }

    method Refresh(link: Link) returns (err: Error)
      requires ttl > 0
      modifies server`slots
      ensures var before := old(server.CellOf(key));
              var cmd := CompareExpire(token, Millis(ttl));
              if ttl < NANOS_PER_MILLI then err == InvalidTtl && server.CellOf(key) == before
              else
                && server.CellOf(key) == (if link.RequestLost? then before else Apply(before, cmd))
                && err == (if !link.Answered? then Transport else if HeldBy(before, token) then NoError else NotHeld)
      ensures forall k :: k != key ==> server.CellOf(k) == old(server.CellOf(k))
    {
      var ms := ttl / NANOS_PER_MILLI;
      if ms <= 0 {
        return InvalidTtl;
      }
      if link.RequestLost? {
        return Transport;
      }
      var n := server.RefreshScript(key, token, ms);
      if link.ReplyLost? {
        return Transport;
      }
      err := if n == 0 then NotHeld else NoError;
    }
  }

  datatype FnOutcome = Succeeds | Fails | Panics

  /**
   Acquire, run fn, release. `during` is everything that happens to the key while fn runs; nobody
   else can set this call's fresh token. When the result is nil, fn ran and succeeded, and the
   token was the value of the key at every instant from acquisition to release. An error of fn is
   returned after the release, and goes before one of the release. A panic in fn passes through
   and skips the release, so the key is left to its time to live.
   */
  method WithLock(server: Server, name: string, uuid: Token, ttl: int, retryInterval: int, maxRetries: int, keyPrefix: string,
                  rounds: seq<Round>, during: seq<Command>, fn: FnOutcome, unlockLink: Link)
    returns (err: Error, ghost entered: Cell, key: string)
    requires NeverSets(during, uuid)
    modifies server
    ensures key == (if keyPrefix == "" then DEFAULT_KEY_PREFIX else keyPrefix) + name
    ensures var lease := if ttl <= 0 then DEFAULT_TTL else ttl;
            var (end, lockErr, _) := LockOutcome(old(server.CellOf(key)), uuid, Millis(lease), maxRetries, rounds, 0);
            var left := Run(end, during);
            && entered == end
            && err == (if !lockErr.NoError? then lockErr
                       else if fn.Panics? then Panicked
                       else if fn.Fails? then FnError
                       else if !unlockLink.Answered? then Transport
                       else if HeldBy(left, uuid) then NoError else NotHeld)
            && server.CellOf(key) == (if !lockErr.NoError? then end
                                      else if fn.Panics? then left
                                      else if unlockLink.RequestLost? || !HeldBy(left, uuid) then left
                                      else left.(slot := Free))
    ensures err.NoError? ==>
              && fn.Succeeds?
              && (forall k :: 0 <= k <= |during| ==> HeldBy(Run(entered, during[..k]), uuid))
              && server.Get(key).Free?
    ensures err.FnError? && !unlockLink.RequestLost? ==> !HeldBy(server.CellOf(key), uuid)
  {
    var lock := new Lock(server, name, uuid, ttl, retryInterval, maxRetries, keyPrefix);
    key := lock.key;
    ghost var start := server.CellOf(key);
    var attempts;
    err, attempts := lock.Acquire(rounds);
    entered := server.CellOf(key);
    if err != NoError {
      LockErrors(start, uuid, Millis(lock.ttl), maxRetries, rounds, 0);
      return;
    }
    server.Interfere(key, during);
    if fn.Panics? {
      return Panicked, entered, key;
    }
    var unlockErr := lock.Unlock(unlockLink);
    if fn.Fails? {
      return FnError, entered, key;
    }
    if unlockErr.NoError? {
      HeldThroughout(entered, during, uuid);
    }
    err := unlockErr;
  }

  /** A Lock call can only fail for want of the key, in transport, or by still waiting. */
  lemma {:induction false} LockErrors(c: Cell, t: Token, ttl: nat, maxRetries: int, rounds: seq<Round>, attempts: nat)
    ensures LockOutcome(c, t, ttl, maxRetries, rounds, attempts).1 in {NoError, NotObtained, Transport, StillWaiting}
    decreases |rounds|
  {
    if rounds != [] {
      var c' := if rounds[0].link.RequestLost? then c else Apply(c, SetNx(t, ttl));
      LockErrors(Run(c', rounds[0].others), t, ttl, maxRetries, rounds[1..], attempts + 1);
    }
  }
}
