/**
 One Redis key as the lock commands see it (pkg/redis/lock.go): a slot that is free or
 carries a token until a deadline, and the server clock in milliseconds.
 A key whose deadline has been reached reads as absent.
 */
module RedisLock {
  import opened Wrappers

  type Token = string

  datatype Slot = Free | Held(token: Token, deadline: nat)

  datatype Cell = Cell(now: nat, slot: Slot)

  // SetNx is SET key token PX ttl NX; the two Compare commands are the unlock and refresh scripts.
  datatype Command =
    | Tick(ms: nat)
    | SetNx(token: Token, ttl: nat)
    | CompareDelete(token: Token)
    | CompareExpire(token: Token, ttl: nat)

  function Live(c: Cell): Slot {
    if c.slot.Held? && c.now < c.slot.deadline then c.slot else Free
  }

  predicate HeldBy(c: Cell, t: Token) {
    Live(c).Held? && Live(c).token == t
  }

  /** True when the command does what it is for: SET answers OK, a script answers 1. */
  predicate Accepts(c: Cell, cmd: Command) {
    match cmd
    case Tick(_) => true
    case SetNx(_, _) => Live(c).Free?
    case CompareDelete(t) => HeldBy(c, t)
    case CompareExpire(t, _) => HeldBy(c, t)
  }

  function Apply(c: Cell, cmd: Command): Cell {
    if !Accepts(c, cmd) then c else
    match cmd
    case Tick(d) => c.(now := c.now + d)
    case SetNx(t, ttl) => c.(slot := Held(t, c.now + ttl))
    case CompareDelete(_) => c.(slot := Free)
    case CompareExpire(t, ttl) => c.(slot := Held(t, c.now + ttl))
  }

  function Run(c: Cell, cmds: seq<Command>): Cell
    decreases |cmds|
  {
    if cmds == [] then c else Apply(Run(c, cmds[..|cmds| - 1]), cmds[|cmds| - 1])
  }

  ghost predicate NeverSets(cmds: seq<Command>, t: Token) {
    forall k :: 0 <= k < |cmds| && cmds[k].SetNx? ==> cmds[k].token != t
  }

  /**
   A token that is not set again cannot come back: if it is the value at the end,
   it was the value at every instant before.
   */
  lemma {:induction false} HeldThroughout(c: Cell, cmds: seq<Command>, t: Token)
    requires NeverSets(cmds, t)
    requires HeldBy(Run(c, cmds), t)
    ensures forall k :: 0 <= k <= |cmds| ==> HeldBy(Run(c, cmds[..k]), t)
    decreases |cmds|
  {
    if cmds == [] {
      assert cmds[..0] == cmds;
    } else {
      var n := |cmds| - 1;
      HeldThroughout(c, cmds[..n], t);
      forall k | 0 <= k <= |cmds| ensures HeldBy(Run(c, cmds[..k]), t) {
        assert k <= n ==> cmds[..n][..k] == cmds[..k];
        assert k == |cmds| ==> cmds[..k] == cmds;
      }
    }
  }

  // ----- leases, as the clients' own replies define them -----

  /**
   The deadline the owner of a token may count on after a history of commands: what its last
   accepted acquire or refresh promised, and nothing once its release was accepted.
   */
  function Lease(c: Cell, cmds: seq<Command>, t: Token): Option<nat>
    decreases |cmds|
  {
    if cmds == [] then None else
    var n := |cmds| - 1;
    var before := Run(c, cmds[..n]);
    if !Accepts(before, cmds[n]) || cmds[n].Tick? || cmds[n].token != t then Lease(c, cmds[..n], t)
    else match cmds[n]
      case SetNx(_, ttl) => Some(before.now + ttl)
      case CompareExpire(_, ttl) => Some(before.now + ttl)
      case _ => None
  }

  ghost predicate Leased(c: Cell, cmds: seq<Command>, t: Token) {
    var lease := Lease(c, cmds, t);
    lease.Some? && Run(c, cmds).now < lease.value
  }

  /** From a free key, what the replies promise is exactly what the server stores. */
  lemma {:induction false} LeaseMatchesServer(c: Cell, cmds: seq<Command>, t: Token)
    requires Live(c).Free?
    ensures Leased(c, cmds, t) <==> HeldBy(Run(c, cmds), t)
    ensures Leased(c, cmds, t) ==> Live(Run(c, cmds)).deadline == Lease(c, cmds, t).value
    decreases |cmds|
  {
    if cmds != [] {
      var n := |cmds| - 1;
      LeaseMatchesServer(c, cmds[..n], t);
    }
  }

  /** At most one lock object has an unexpired, unreleased lease on a key. */
  lemma AtMostOneLease(c: Cell, cmds: seq<Command>, t: Token, u: Token)
    requires Live(c).Free?
    requires Leased(c, cmds, t) && Leased(c, cmds, u)
    ensures t == u
  {
    LeaseMatchesServer(c, cmds, t);
    LeaseMatchesServer(c, cmds, u);
  }

  /** Every acquire and refresh in a history stays within a bound on the time to live. */
  ghost predicate TtlAtMost(cmds: seq<Command>, bound: nat) {
    forall k :: 0 <= k < |cmds| && (cmds[k].SetNx? || cmds[k].CompareExpire?) ==> cmds[k].ttl <= bound
  }

  lemma {:induction false} DeadlineWithinTtl(c: Cell, cmds: seq<Command>, bound: nat)
    requires Live(c).Free? && TtlAtMost(cmds, bound)
    ensures Live(Run(c, cmds)).Held? ==> Live(Run(c, cmds)).deadline <= Run(c, cmds).now + bound
    decreases |cmds|
  {
    if cmds != [] {
      var n := |cmds| - 1;
      DeadlineWithinTtl(c, cmds[..n], bound);
      assert Run(c, cmds) == Apply(Run(c, cmds[..n]), cmds[n]);
    }
  }

  /** Every acquire and refresh under one token uses the time to live of its lock object. */
  ghost predicate OwnTtl(cmds: seq<Command>, t: Token, ttl: nat) {
    forall k :: 0 <= k < |cmds| && (cmds[k].SetNx? || cmds[k].CompareExpire?) && cmds[k].token == t
      ==> cmds[k].ttl == ttl
  }

  lemma {:induction false} OwnDeadline(c: Cell, cmds: seq<Command>, t: Token, ttl: nat)
    requires Live(c).Free? && OwnTtl(cmds, t, ttl)
    ensures HeldBy(Run(c, cmds), t) ==> Live(Run(c, cmds)).deadline <= Run(c, cmds).now + ttl
    decreases |cmds|
  {
    if cmds != [] {
      var n := |cmds| - 1;
      OwnDeadline(c, cmds[..n], t, ttl);
      assert Run(c, cmds) == Apply(Run(c, cmds[..n]), cmds[n]);
    }
  }

  /**
   Refresh in any reachable state: by the holder it never moves the deadline back and gives a
   full time to live from now, by anyone else it changes nothing.
   */
  lemma RefreshNeverShortens(c: Cell, cmds: seq<Command>, t: Token, ttl: nat)
    requires Live(c).Free? && OwnTtl(cmds, t, ttl) && ttl > 0
    ensures var before := Run(c, cmds);
            var after := Apply(before, CompareExpire(t, ttl));
            if HeldBy(before, t)
            then HeldBy(after, t) && Live(after).deadline == before.now + ttl >= Live(before).deadline
            else after == before
  {
    OwnDeadline(c, cmds, t, ttl);
  }

  /** No acquire and no refresh among the commands. */
  ghost predicate Quiet(cmds: seq<Command>) {
    forall k :: 0 <= k < |cmds| ==> cmds[k].Tick? || cmds[k].CompareDelete?
  }

  lemma {:induction false} QuietKeepsDeadline(c: Cell, cmds: seq<Command>)
    requires Quiet(cmds)
    ensures Run(c, cmds).now >= c.now
    ensures Live(Run(c, cmds)).Held? ==> Run(c, cmds).slot == c.slot
    decreases |cmds|
  {
    if cmds != [] {
      QuietKeepsDeadline(c, cmds[..|cmds| - 1]);
    }
  }

  /** Progress: once a full time to live passes without acquire or refresh, any TryLock succeeds. */
  lemma FreeAfterFullTtl(c: Cell, history: seq<Command>, bound: nat, quiet: seq<Command>, t: Token, ttl: nat)
    requires Live(c).Free? && TtlAtMost(history, bound) && Quiet(quiet)
    requires Run(Run(c, history), quiet).now >= Run(c, history).now + bound
    ensures Accepts(Run(Run(c, history), quiet), SetNx(t, ttl))
  {
    DeadlineWithinTtl(c, history, bound);
    QuietKeepsDeadline(Run(c, history), quiet);
  }
}
