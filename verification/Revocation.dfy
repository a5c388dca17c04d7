/**
 Logout over time: the in-process revocation list (internal/modules/iam/tokenstore/memory.go),
 AuthService.Logout (internal/modules/iam/service/auth_service.go:121-132) and the order in which
 the JWT middleware accepts or rejects (internal/platform/middleware/jwt.go:61-124), on the
 interleaved TTL store.
 */
module Revocation {
  import opened Wrappers
  import opened MemoryStore

  type Jti = string

  datatype Claims = Claims(id: Jti, exp: Option<int>)

  type Revocations = System<Jti, ()>
  type StoreEvent = Event<Jti, ()>

  const DAY: int := 24 * 3600

  /** Section 4.1.4 of RFC 7519: a token is refused from its expiration time on. */
  predicate ParseAccepts(claims: Claims, now: int) {
    claims.exp.Some? ==> now < claims.exp.value
  }

  predicate IsRevoked(s: Revocations, id: Jti) {
    id != "" && Lookup(s.m, id, s.now).Some?
  }

  /** What Logout revokes until: the token's own expiry, or a day from now. */
  function LogoutExpiry(claims: Claims, now: int): int {
    if claims.exp.Some? then claims.exp.value else now + DAY
  }

  /**
   The token store only ever writes revocations. SetUntil reads the clock before the write does,
   so the time to live it passes on is at least what is left until the expiry.
   */
  ghost predicate OnlyRevokes(s: Revocations, events: seq<StoreEvent>, id: Jti, exp: int) {
    forall k :: 0 <= k < |events| ==> RevokesAt(s, events, k, id, exp)
  }

  predicate RevokesAt(s: Revocations, events: seq<StoreEvent>, k: nat, id: Jti, exp: int)
    requires k < |events|
  {
    events[k].Write? ==> Revokes(RunEvents(s, events[..k]).now, events[k].call, id, exp)
  }

  /** The write that Logout makes for a token. */
  predicate LogsOut(e: StoreEvent, id: Jti) {
    e.Write? && e.call.SetWithTTL? && e.call.key == id
  }

  predicate Revokes(now: int, call: Call<Jti, ()>, id: Jti, exp: int) {
    call.SetWithTTL? && (call.key == id ==> call.ttl >= exp - now)
  }

  lemma OnlyRevokesPrefix(s: Revocations, events: seq<StoreEvent>, id: Jti, exp: int, n: nat)
    requires OnlyRevokes(s, events, id, exp) && n <= |events|
    ensures OnlyRevokes(s, events[..n], id, exp)
  {
    forall k | 0 <= k < n ensures RevokesAt(s, events[..n], k, id, exp) {
      assert RevokesAt(s, events, k, id, exp);
      assert events[..n][..k] == events[..k] && events[..n][k] == events[k];
    }
  }

  /** A stored revocation lasts to the expiry, and is only scheduled for deletion after it. */
  predicate LastsToExpiry(s: Revocations, id: Jti, exp: int) {
    && (id in s.m ==> s.m[id].expiresAt.Some? && s.m[id].expiresAt.value >= exp)
    && (id in s.pending ==> s.now > exp)
  }

  lemma StepLasts(s: Revocations, e: StoreEvent, id: Jti, exp: int)
    requires LastsToExpiry(s, id, exp) && (e.Write? ==> Revokes(s.now, e.call, id, exp))
    ensures LastsToExpiry(Next(s, e), id, exp)
  {}

  predicate Blocked(s: Revocations, id: Jti, exp: int) {
    s.now >= exp || id in s.m
  }

  lemma StepBlocks(s: Revocations, e: StoreEvent, id: Jti, exp: int)
    requires LastsToExpiry(s, id, exp) && (e.Write? ==> Revokes(s.now, e.call, id, exp))
    requires Blocked(s, id, exp) || LogsOut(e, id)
    ensures Blocked(Next(s, e), id, exp)
  {}

  lemma {:induction false} RevocationsLast(s: Revocations, events: seq<StoreEvent>, id: Jti, exp: int)
    requires Initial(s) && OnlyRevokes(s, events, id, exp)
    ensures LastsToExpiry(RunEvents(s, events), id, exp)
    decreases |events|
  {
    if events != [] {
      var n := |events| - 1;
      OnlyRevokesPrefix(s, events, id, exp, n);
      RevocationsLast(s, events[..n], id, exp);
      assert RevokesAt(s, events, n, id, exp);
      StepLasts(RunEvents(s, events[..n]), events[n], id, exp);
    }
  }

  ghost predicate BlockedAt(s: Revocations, events: seq<StoreEvent>, n: nat, id: Jti, exp: int)
    requires n <= |events|
  {
    Blocked(RunEvents(s, events[..n]), id, exp)
  }

  lemma BlockedStep(s: Revocations, events: seq<StoreEvent>, id: Jti, exp: int, n: nat, next: nat)
    requires Initial(s) && OnlyRevokes(s, events, id, exp) && next == n + 1 <= |events|
    requires BlockedAt(s, events, n, id, exp) || LogsOut(events[n], id)
    ensures BlockedAt(s, events, next, id, exp)
  {
    OnlyRevokesPrefix(s, events, id, exp, n);
    RevocationsLast(s, events[..n], id, exp);
    assert RevokesAt(s, events, n, id, exp);
    StepBlocks(RunEvents(s, events[..n]), events[n], id, exp);
    assert events[..next][..n] == events[..n];
  }

  /** From a revocation on, the entry is there until the expiry has come. */
  lemma {:induction false} StaysRevoked(s: Revocations, events: seq<StoreEvent>, id: Jti, exp: int, logout: nat, n: nat)
    requires Initial(s) && OnlyRevokes(s, events, id, exp)
    requires logout < n <= |events| && LogsOut(events[logout], id)
    ensures BlockedAt(s, events, n, id, exp)
    decreases n
  {
    if logout < n - 1 {
      StaysRevoked(s, events, id, exp, logout, n - 1);
    }
    BlockedStep(s, events, id, exp, n - 1, n);
  }

  /**
   A request that starts after Logout parses the token at one instant of the run and looks it up
   at a later one. Whatever revocations, checks, delayed deletes, cleanups and clock ticks come in
   between, it can only get through if the expiry falls between the two readings.
   */
  lemma AcceptedOnlyAcrossExpiry(s: Revocations, events: seq<StoreEvent>, claims: Claims, logout: nat, parse: nat, lookup: nat)
    requires Initial(s) && claims.id != "" && claims.exp.Some?
    requires OnlyRevokes(s, events, claims.id, claims.exp.value)
    requires logout < parse <= lookup <= |events|
    requires LogsOut(events[logout], claims.id)
    requires ParseAccepts(claims, RunEvents(s, events[..parse]).now)
    requires !IsRevoked(RunEvents(s, events[..lookup]), claims.id)
    ensures RunEvents(s, events[..parse]).now < claims.exp.value <= RunEvents(s, events[..lookup]).now
  {
    OnlyRevokesPrefix(s, events, claims.id, claims.exp.value, lookup);
    StaysRevoked(s, events, claims.id, claims.exp.value, logout, lookup);
    RevocationsLast(s, events[..lookup], claims.id, claims.exp.value);
  }

  /** At one instant of a run both the parse and the lookup would let the token through. */
  ghost predicate Open(s: Revocations, events: seq<StoreEvent>, claims: Claims, n: nat)
    requires n <= |events|
  {
    var at := RunEvents(s, events[..n]);
    ParseAccepts(claims, at.now) && !IsRevoked(at, claims.id)
  }

  /** A run of the token store with the write of a logout of the token at one event of it. */
  ghost predicate LoggedOut(s: Revocations, events: seq<StoreEvent>, claims: Claims, logout: nat) {
    && Initial(s) && logout < |events| && LogsOut(events[logout], claims.id)
    && OnlyRevokes(s, events, claims.id, LogoutExpiry(claims, RunEvents(s, events[..logout]).now))
  }

  /** Once logged out, the token is open at no later instant, whatever comes in between. */
  lemma LogoutIsFinal(s: Revocations, events: seq<StoreEvent>, claims: Claims, logout: nat, n: nat)
    requires LoggedOut(s, events, claims, logout) && logout < n <= |events|
    requires claims.id != "" && claims.exp.Some?
    ensures !Open(s, events, claims, n)
  {
    if Open(s, events, claims, n) {
      AcceptedOnlyAcrossExpiry(s, events, claims, logout, n, n);
    }
  }

  /** A token nobody logged out is never refused as revoked, whatever happens to other tokens. */
  lemma {:induction false} OthersUnaffected(s: Revocations, events: seq<StoreEvent>, id: Jti)
    requires Initial(s)
    requires forall k :: 0 <= k < |events| && events[k].Write? ==> events[k].call.SetWithTTL? && events[k].call.key != id
    ensures !IsRevoked(RunEvents(s, events), id) && id !in RunEvents(s, events).m
    decreases |events|
  {
    if events != [] {
      OthersUnaffected(s, events[..|events| - 1], id);
    }
  }

  /** It is open until its expiry and no longer, or for ever when it has none; so is a token without an id. */
  lemma NeverLoggedOutIsOpenIff(s: Revocations, events: seq<StoreEvent>, claims: Claims, n: nat)
    requires Initial(s) && n <= |events|
    requires claims.id == "" ||
             forall k :: 0 <= k < |events| && events[k].Write? ==> events[k].call.SetWithTTL? && events[k].call.key != claims.id
    ensures Open(s, events, claims, n) <==> claims.exp.None? || RunEvents(s, events[..n]).now < claims.exp.value
  {
    if claims.id != "" {
      OthersUnaffected(s, events[..n], claims.id);
    }
  }

  /** In every run every logout of the token is final. */
  ghost predicate LogoutAlwaysFinal(claims: Claims) {
    forall s, events, logout: nat, n: nat ::
      LoggedOut(s, events, claims, logout) && logout < n <= |events| ==> !Open(s, events, claims, n)
  }

  /**
   Logout is final if and only if the token has an expiry. GenerateToken always sets one, so only
   a token that was signed with the key elsewhere can come back.
   */
  lemma LogoutIsFinalIff(claims: Claims)
    requires claims.id != ""
    ensures LogoutAlwaysFinal(claims) <==> claims.exp.Some?
  {
    if claims.exp.Some? {
      forall s, events, logout: nat, n: nat | LoggedOut(s, events, claims, logout) && logout < n <= |events|
        ensures !Open(s, events, claims, n)
      {
        LogoutIsFinal(s, events, claims, logout, n);
      }
    } else {
      NoExpiryComesBack(claims);
    }
  }

  /** A token without an expiry comes back once the day that Logout gives it is over. */
  lemma NoExpiryComesBack(claims: Claims)
    requires claims.id != "" && claims.exp.None?
    ensures !LogoutAlwaysFinal(claims)
  {
    var s: Revocations := System(0, map[], multiset{}, map[]);
    var logout := Write(Call.SetWithTTL(claims.id, (), DAY));
    var events: seq<StoreEvent> := [logout, Pass(DAY + 1)];
    assert events[..0] == [] && events[..1] == [logout] && events[..2] == events;
    assert [logout][..0] == [] && events[..2][..1] == [logout];
    assert RunEvents(s, events[..0]) == s;
    assert RunEvents(s, [logout]) == Next(s, logout);
    assert RunEvents(s, events) == Next(Next(s, logout), Pass(DAY + 1));
    forall k | 0 <= k < |events| ensures RevokesAt(s, events, k, claims.id, DAY) {
      assert k == 0 || k == 1;
    }
    assert LoggedOut(s, events, claims, 0);
    assert Open(s, events, claims, 2);
  }

  datatype Outcome = NoToken | InvalidToken | CheckFailed | TokenRevoked | BadIdentity | PermissionError | Denied | Passed

  // What one request presents and what its collaborators answer.
  datatype Request = Request(
    hasHeader: bool,
    signed: Option<Claims>,
    userID: Option<nat>,
    excluded: bool,
    permission: Option<bool>)

  /** The revocation list as it runs, the logout that writes it, and the middleware that reads it. */
  class Gate {
    const store: Memory<Jti, ()>
    const permissionsEnabled: bool

    constructor (permissionsEnabled: bool)
      ensures fresh(store) && store.m == map[] && this.permissionsEnabled == permissionsEnabled
    {
      store := new Memory(0);
      this.permissionsEnabled := permissionsEnabled;
    }

    method Revoke(id: Jti, exp: int, readAt: int, now: int)
      requires readAt <= now
      modifies store`m
      ensures id == "" ==> store.m == old(store.m)
      ensures id != "" ==> store.m == Step(old(store.m), Call.SetWithTTL(id, (), exp - readAt), now)
      ensures id != "" && exp > readAt ==> id in store.m && store.m[id].expiresAt.Some? && store.m[id].expiresAt.value >= exp
    {
      if id == "" {
        return;
      }
      store.SetUntil(id, (), exp, readAt, now);
    }

    method Logout(claims: Option<Claims>, readAt: int, now: int)
      requires readAt <= now
      modifies store`m
      ensures claims.None? || claims.value.id == "" ==> store.m == old(store.m)
      ensures claims.Some? && claims.value.id != "" ==>
                var c := claims.value;
                && store.m == Step(old(store.m), Call.SetWithTTL(c.id, (), LogoutExpiry(c, readAt) - readAt), now)
                && (forall t :: t in store.m && t != c.id ==> t in old(store.m) && store.m[t] == old(store.m)[t])
      ensures claims.Some? && claims.value.id != "" ==>
                var left := if claims.value.exp.Some? then claims.value.exp.value - readAt else 24 * 3600;
                forall at :: at >= now ==> (Lookup(store.m, claims.value.id, at).Some? <==> left > 0 && at <= now + left)
    {
      if claims.None? || claims.value.id == "" {
        return;
      }
      var exp;
      if claims.value.exp.Some? {
        exp := claims.value.exp.value;
      } else {
        exp := readAt + DAY;
      }
      Revoke(claims.value.id, exp, readAt, now);
    }

    /** `storeOk` is whether the lookup succeeds; `parseAt` and `lookupAt` are the two clock readings. */
    method Handle(req: Request, storeOk: bool, parseAt: int, lookupAt: int) returns (r: Outcome)
      requires parseAt <= lookupAt
      modifies store`m
      ensures r == (if !req.hasHeader then NoToken
                    else if req.signed.None? || (req.signed.value.exp.Some? && parseAt >= req.signed.value.exp.value) then InvalidToken
                    else if req.signed.value.id != "" && !storeOk then CheckFailed
                    else if req.signed.value.id != "" && Lookup(old(store.m), req.signed.value.id, lookupAt).Some? then TokenRevoked
                    else if req.userID.None? then BadIdentity
                    else if !permissionsEnabled || req.excluded || req.permission == Some(true) then Passed
                    else if req.permission.None? then PermissionError else Denied)
      ensures r.Passed? <==>
                && req.hasHeader && req.signed.Some? && ParseAccepts(req.signed.value, parseAt)
                && (req.signed.value.id != "" ==> storeOk && Lookup(old(store.m), req.signed.value.id, lookupAt).None?)
                && req.userID.Some?
                && (permissionsEnabled && !req.excluded ==> req.permission == Some(true))
      ensures View(store.m, lookupAt) == View(old(store.m), lookupAt)
    {
      if !req.hasHeader {
        return NoToken;
      }
      if req.signed.None? || !ParseAccepts(req.signed.value, parseAt) {
        return InvalidToken;
      }
      var claims := req.signed.value;
      if claims.id != "" {
        if !storeOk {
          return CheckFailed;
        }
        var revoked := store.Has(claims.id, lookupAt);
        if revoked {
          return TokenRevoked;
        }
      }
      if req.userID.None? {
        return BadIdentity;
      }
      if permissionsEnabled {
        if req.excluded {
          return Passed;
        }
        if req.permission.None? {
          return PermissionError;
        }
        if !req.permission.value {
          return Denied;
        }
      }
      return Passed;
    }
  }
}
