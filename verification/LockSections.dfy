/**
 Any number of WithLock calls (pkg/redis/lock.go:183-195) on one key, interleaved with each
 other, with the clock and with other lock objects. Each section increments a shared counter
 by a separate load and store, so overlapping sections would lose updates.
 */
module LockSections {
  import opened RedisLock

  // A WithLock call: the token NewLock drew for it and its time to live.
  datatype Client = Client(token: Token, ttl: nat)

  datatype Phase =
    | Waiting
    | Entered
    | Loaded(seen: int)
    | Stored
    | GaveUp
    | Returned(ok: bool)

  datatype System = System(cell: Cell, phases: seq<Phase>, counter: int)

  datatype Action =
    | Outside(cmd: Command)                       // the clock, and lock objects outside the sections
    | TryEnter(i: nat)                            // one TryLock of the Lock loop
    | TryEnterUnanswered(i: nat, delivered: bool) // TryLock fails in transport, executed or not, and so does Lock
    | Abandon(i: nat)                             // Lock returns an error, fn is never called
    | Load(i: nat)
    | Store(i: nat)
    | Leave(i: nat, fnOk: bool)                   // Unlock is answered
    | LeaveUnanswered(i: nat, delivered: bool)    // Unlock fails in transport, executed or not

  predicate InSection(p: Phase) {
    p.Entered? || p.Loaded? || p.Stored?
  }

  predicate Foreign(clients: seq<Client>, cmd: Command) {
    cmd.Tick? || forall i | 0 <= i < |clients| :: clients[i].token != cmd.token
  }

  predicate Enabled(clients: seq<Client>, s: System, a: Action)
    requires |s.phases| == |clients|
  {
    match a
    case Outside(cmd) => Foreign(clients, cmd)
    case TryEnter(i) => i < |clients| && s.phases[i].Waiting?
    case TryEnterUnanswered(i, _) => i < |clients| && s.phases[i].Waiting?
    case Abandon(i) => i < |clients| && s.phases[i].Waiting?
    case Load(i) => i < |clients| && s.phases[i].Entered?
    case Store(i) => i < |clients| && s.phases[i].Loaded?
    case Leave(i, fnOk) => i < |clients| && InSection(s.phases[i]) && (fnOk ==> s.phases[i].Stored?)
    case LeaveUnanswered(i, _) => i < |clients| && InSection(s.phases[i])
  }

  /** One step; an action that is not enabled leaves the system as it is. */
  function Next(clients: seq<Client>, s: System, a: Action): (r: System)
    requires |s.phases| == |clients|
    ensures |r.phases| == |clients|
  {
    if !Enabled(clients, s, a) then s else
    match a
    case Outside(cmd) => s.(cell := Apply(s.cell, cmd))
    case TryEnter(i) =>
      var cmd := SetNx(clients[i].token, clients[i].ttl);
      if Accepts(s.cell, cmd)
      then s.(cell := Apply(s.cell, cmd), phases := s.phases[i := Entered])
      else s
    case TryEnterUnanswered(i, delivered) =>
      var cmd := SetNx(clients[i].token, clients[i].ttl);
      s.(cell := if delivered then Apply(s.cell, cmd) else s.cell, phases := s.phases[i := GaveUp])
    case Abandon(i) => s.(phases := s.phases[i := GaveUp])
    case Load(i) => s.(phases := s.phases[i := Loaded(s.counter)])
    case Store(i) => s.(phases := s.phases[i := Stored], counter := s.phases[i].seen + 1)
    case Leave(i, fnOk) =>
      var cmd := CompareDelete(clients[i].token);
      s.(cell := Apply(s.cell, cmd), phases := s.phases[i := Returned(fnOk && Accepts(s.cell, cmd))])
    case LeaveUnanswered(i, delivered) =>
      var cmd := CompareDelete(clients[i].token);
      s.(cell := if delivered then Apply(s.cell, cmd) else s.cell, phases := s.phases[i := Returned(false)])
  }

  function RunAll(clients: seq<Client>, s: System, actions: seq<Action>): (r: System)
    requires |s.phases| == |clients|
    ensures |r.phases| == |clients|
    decreases |actions|
  {
    if actions == [] then s else RunAll(clients, Next(clients, s, actions[0]), actions[1..])
  }

  lemma RunCons(clients: seq<Client>, s: System, a: Action, rest: seq<Action>)
    requires |s.phases| == |clients|
    ensures RunAll(clients, s, [a] + rest) == RunAll(clients, Next(clients, s, a), rest)
  {
    assert ([a] + rest)[1..] == rest;
  }

  lemma {:induction false} RunSplits(clients: seq<Client>, s: System, actions: seq<Action>, k: nat)
    requires |s.phases| == |clients| && k <= |actions|
    ensures RunAll(clients, s, actions) == RunAll(clients, RunAll(clients, s, actions[..k]), actions[k..])
    decreases k
  {
    if k == 0 {
      assert actions[..0] == [] && actions[0..] == actions;
    } else {
      RunSplits(clients, Next(clients, s, actions[0]), actions[1..], k - 1);
      assert actions[..k][1..] == actions[1..][..k - 1] && actions[1..][k - 1..] == actions[k..];
    }
  }

  /** The commands of an action that reach the server: none when a request is lost. */
  function Sent(clients: seq<Client>, s: System, a: Action): seq<Command>
    requires |s.phases| == |clients|
  {
    if !Enabled(clients, s, a) then [] else
    match a
    case Outside(cmd) => [cmd]
    case TryEnter(i) => [SetNx(clients[i].token, clients[i].ttl)]
    case TryEnterUnanswered(i, delivered) => if delivered then [SetNx(clients[i].token, clients[i].ttl)] else []
    case Leave(i, _) => [CompareDelete(clients[i].token)]
    case LeaveUnanswered(i, delivered) => if delivered then [CompareDelete(clients[i].token)] else []
    case _ => []
  }

  function SentAll(clients: seq<Client>, s: System, actions: seq<Action>): seq<Command>
    requires |s.phases| == |clients|
    decreases |actions|
  {
    if actions == [] then [] else Sent(clients, s, actions[0]) + SentAll(clients, Next(clients, s, actions[0]), actions[1..])
  }

  /**
   The key under any interleaving of sections is the key under the commands that they send, so
   everything that is known of leases and deadlines holds for the sections.
   */
  lemma {:induction false} CellIsRun(clients: seq<Client>, s: System, actions: seq<Action>)
    requires |s.phases| == |clients|
    ensures RunAll(clients, s, actions).cell == Run(s.cell, SentAll(clients, s, actions))
    decreases |actions|
  {
    if actions != [] {
      var next := Next(clients, s, actions[0]);
      CellIsRun(clients, next, actions[1..]);
      SentIsApplied(clients, s, actions[0]);
      RunConcat(s.cell, Sent(clients, s, actions[0]), SentAll(clients, next, actions[1..]));
    }
  }

  lemma SentIsApplied(clients: seq<Client>, s: System, a: Action)
    requires |s.phases| == |clients|
    ensures Next(clients, s, a).cell == Run(s.cell, Sent(clients, s, a))
  {
    var sent := Sent(clients, s, a);
    assert |sent| == 1 ==> sent[..0] == [];
  }

  lemma {:induction false} RunConcat(c: Cell, a: seq<Command>, b: seq<Command>)
    ensures Run(c, a + b) == Run(Run(c, a), b)
    decreases |b|
  {
    if b == [] {
      assert a + b == a;
    } else {
      RunConcat(c, a, b[..|b| - 1]);
      assert (a + b)[..|a + b| - 1] == a + b[..|b| - 1];
    }
  }

  /** uuid.NewString draws a different token for every lock object. */
  ghost predicate DistinctTokens(clients: seq<Client>) {
    forall i, j :: 0 <= i < j < |clients| ==> clients[i].token != clients[j].token
  }

  lemma {:induction false} ReturnedIsFinal(clients: seq<Client>, s: System, actions: seq<Action>, i: nat)
    requires |s.phases| == |clients| && i < |clients|
    requires s.phases[i].Returned? || s.phases[i].GaveUp?
    ensures RunAll(clients, s, actions).phases[i] == s.phases[i]
    decreases |actions|
  {
    if actions != [] {
      ReturnedIsFinal(clients, Next(clients, s, actions[0]), actions[1..], i);
    }
  }

  /** A call whose context ends or whose TryLock fails in transport never gets into its section. */
  lemma GivenUpIsFinal(clients: seq<Client>, s: System, a: Action, rest: seq<Action>, i: nat)
    requires |s.phases| == |clients| && i < |clients| && s.phases[i].Waiting?
    requires a == Abandon(i) || (a.TryEnterUnanswered? && a.i == i)
    ensures RunAll(clients, s, [a] + rest).phases[i] == GaveUp
  {
    RunCons(clients, s, a, rest);
    ReturnedIsFinal(clients, Next(clients, s, a), rest, i);
  }

  /** A step that leaves client i in its section cannot make its token the value of the key. */
  lemma StepCannotRegain(clients: seq<Client>, s: System, a: Action, i: nat)
    requires |s.phases| == |clients| && i < |clients| && DistinctTokens(clients)
    requires InSection(s.phases[i]) && HeldBy(Next(clients, s, a).cell, clients[i].token)
    ensures HeldBy(s.cell, clients[i].token)
  {
    if (a.TryEnter? || a.TryEnterUnanswered?) && a.i < |clients| && a.i != i {
      assert clients[a.i].token != clients[i].token;
    }
  }

  /** A section that will return nil holds the key now, and so at every instant until it returns. */
  lemma {:induction false} NilMeansHeld(clients: seq<Client>, s: System, actions: seq<Action>, i: nat)
    requires |s.phases| == |clients| && i < |clients| && DistinctTokens(clients)
    requires InSection(s.phases[i])
    requires RunAll(clients, s, actions).phases[i] == Returned(true)
    ensures HeldBy(s.cell, clients[i].token)
    decreases |actions|
  {
    var next := Next(clients, s, actions[0]);
    if InSection(next.phases[i]) {
      NilMeansHeld(clients, next, actions[1..], i);
      StepCannotRegain(clients, s, actions[0], i);
    } else {
      ReturnedIsFinal(clients, next, actions[1..], i);
    }
  }

  /**
   WithLock's promise, with no timing assumption: in any run, at no instant are two sections
   that both return nil open together, and while such a section is open its token is the value.
   */
  lemma NilSectionsAreDisjoint(clients: seq<Client>, s: System, actions: seq<Action>, k: nat, i: nat, j: nat)
    requires |s.phases| == |clients| && DistinctTokens(clients)
    requires i < |clients| && j < |clients| && i != j && k <= |actions|
    requires RunAll(clients, s, actions).phases[i] == Returned(true)
    requires RunAll(clients, s, actions).phases[j] == Returned(true)
    ensures var mid := RunAll(clients, s, actions[..k]);
            && (InSection(mid.phases[i]) ==> HeldBy(mid.cell, clients[i].token))
            && !(InSection(mid.phases[i]) && InSection(mid.phases[j]))
  {
    var mid := RunAll(clients, s, actions[..k]);
    RunSplits(clients, s, actions, k);
    if InSection(mid.phases[i]) {
      NilMeansHeld(clients, mid, actions[k..], i);
    }
    if InSection(mid.phases[j]) {
      NilMeansHeld(clients, mid, actions[k..], j);
    }
    assert clients[i].token != clients[j].token;
  }

  /** While a section that will return nil is open, the lease its Lock was promised has not run out. */
  lemma NilMeansLeased(clients: seq<Client>, s: System, actions: seq<Action>, k: nat, i: nat)
    requires |s.phases| == |clients| && i < |clients| && DistinctTokens(clients) && Live(s.cell).Free? && k <= |actions|
    requires InSection(RunAll(clients, s, actions[..k]).phases[i])
    requires RunAll(clients, s, actions).phases[i] == Returned(true)
    ensures Leased(s.cell, SentAll(clients, s, actions[..k]), clients[i].token)
  {
    RunSplits(clients, s, actions, k);
    NilMeansHeld(clients, RunAll(clients, s, actions[..k]), actions[k..], i);
    CellIsRun(clients, s, actions[..k]);
    LeaseMatchesServer(s.cell, SentAll(clients, s, actions[..k]), clients[i].token);
  }

  // ----- the counter -----

  function Completed(phases: seq<Phase>): nat {
    if phases == [] then 0
    else Completed(phases[1..]) + if phases[0].Stored? || phases[0] == Returned(true) then 1 else 0
  }

  function NilReturns(phases: seq<Phase>): nat {
    if phases == [] then 0
    else NilReturns(phases[1..]) + if phases[0] == Returned(true) then 1 else 0
  }

  lemma {:induction false} CompletedUpdate(phases: seq<Phase>, i: nat, p: Phase)
    requires i < |phases|
    ensures Completed(phases[i := p])
         == Completed(phases)
            - (if phases[i].Stored? || phases[i] == Returned(true) then 1 else 0)
            + (if p.Stored? || p == Returned(true) then 1 else 0)
  {
    if i == 0 {
      assert phases[0 := p][1..] == phases[1..];
    } else {
      CompletedUpdate(phases[1..], i - 1, p);
      assert phases[i := p][1..] == phases[1..][i - 1 := p];
    }
  }

  /** Every section that was entered has returned nil. */
  ghost predicate AllNil(phases: seq<Phase>) {
    forall i :: 0 <= i < |phases| ==> phases[i].Waiting? || phases[i].GaveUp? || phases[i] == Returned(true)
  }

  ghost predicate CounterExact(s: System, base: int) {
    && s.counter == base + Completed(s.phases)
    && forall i :: 0 <= i < |s.phases| && s.phases[i].Loaded? ==> s.phases[i].seen == s.counter
  }

  lemma {:induction false} OnlyOneOpen(clients: seq<Client>, s: System, actions: seq<Action>, i: nat, j: nat)
    requires |s.phases| == |clients| && DistinctTokens(clients) && AllNil(RunAll(clients, s, actions).phases)
    requires i < |clients| && j < |clients| && InSection(s.phases[i]) && InSection(s.phases[j])
    ensures i == j
    decreases |actions|
  {
    InSectionReturns(clients, s, actions, i);
    InSectionReturns(clients, s, actions, j);
    NilMeansHeld(clients, s, actions, i);
    NilMeansHeld(clients, s, actions, j);
  }

  /** A client in its section can only end in its section or returned. */
  lemma {:induction false} InSectionReturns(clients: seq<Client>, s: System, actions: seq<Action>, i: nat)
    requires |s.phases| == |clients| && i < |clients| && InSection(s.phases[i])
    ensures var p := RunAll(clients, s, actions).phases[i]; InSection(p) || p.Returned?
    decreases |actions|
  {
    if actions != [] {
      var next := Next(clients, s, actions[0]);
      if InSection(next.phases[i]) {
        InSectionReturns(clients, next, actions[1..], i);
      } else {
        ReturnedIsFinal(clients, next, actions[1..], i);
      }
    }
  }

  lemma CounterStep(clients: seq<Client>, s: System, actions: seq<Action>, base: int)
    requires |s.phases| == |clients| && DistinctTokens(clients) && actions != []
    requires AllNil(RunAll(clients, s, actions).phases) && CounterExact(s, base)
    ensures CounterExact(Next(clients, s, actions[0]), base)
  {
    var a := actions[0];
    var next := Next(clients, s, a);
    if Enabled(clients, s, a) && !a.Outside? {
      CompletedUpdate(s.phases, a.i, next.phases[a.i]);
      assert a.TryEnter? ==> next.phases == s.phases[a.i := next.phases[a.i]];
      if a.Store? {
        forall j | 0 <= j < |clients| && s.phases[j].Loaded? ensures j == a.i {
          OnlyOneOpen(clients, s, actions, a.i, j);
        }
      }
      if next.phases[a.i].Returned? {
        ReturnedIsFinal(clients, next, actions[1..], a.i);
      }
    }
  }

  lemma {:induction false} CounterKept(clients: seq<Client>, s: System, actions: seq<Action>, base: int)
    requires |s.phases| == |clients| && DistinctTokens(clients)
    requires AllNil(RunAll(clients, s, actions).phases) && CounterExact(s, base)
    ensures CounterExact(RunAll(clients, s, actions), base)
    decreases |actions|
  {
    if actions != [] {
      CounterStep(clients, s, actions, base);
      CounterKept(clients, Next(clients, s, actions[0]), actions[1..], base);
    }
  }

  lemma {:induction false} CompletedWhenAllNil(phases: seq<Phase>)
    requires AllNil(phases)
    ensures Completed(phases) == NilReturns(phases)
  {
    if phases != [] {
      assert AllNil(phases[1..]) by {
        forall i | 0 <= i < |phases[1..]|
          ensures phases[1..][i].Waiting? || phases[1..][i].GaveUp? || phases[1..][i] == Returned(true)
        {
          assert phases[1..][i] == phases[i + 1];
        }
      }
      CompletedWhenAllNil(phases[1..]);
    }
  }

  lemma {:induction false} AllWaitingCompletesNothing(phases: seq<Phase>)
    requires forall i :: 0 <= i < |phases| ==> phases[i].Waiting?
    ensures Completed(phases) == 0
  {
    if phases != [] {
      AllWaitingCompletesNothing(phases[1..]);
    }
  }

  /**
   No update is lost: if every section entered in a run returned nil, the counter grew by
   exactly the number of sections.
   */
  lemma NoLostUpdate(clients: seq<Client>, s: System, actions: seq<Action>)
    requires |s.phases| == |clients| && DistinctTokens(clients)
    requires forall i :: 0 <= i < |s.phases| ==> s.phases[i].Waiting?
    requires AllNil(RunAll(clients, s, actions).phases)
    ensures var end := RunAll(clients, s, actions); end.counter == s.counter + NilReturns(end.phases)
  {
    AllWaitingCompletesNothing(s.phases);
    CounterKept(clients, s, actions, s.counter);
    CompletedWhenAllNil(RunAll(clients, s, actions).phases);
  }

  /**
   The nil result is what carries the guarantee: when the first lease runs out inside its section,
   the two sections overlap, an update is lost, and the late Unlock reports it.
   */
  lemma ExpiredLeaseOverlaps(clients: seq<Client>, s: System, enter: seq<Action>, leave: seq<Action>)
    requires clients == [Client("a", 1), Client("b", 9)]
    requires s == System(Cell(0, Free), [Waiting, Waiting], 0)
    requires enter == [TryEnter(0)] + ([Load(0)] + ([Outside(Tick(1))] + ([TryEnter(1)] + ([Load(1)] + []))))
    requires leave == [Store(1)] + ([Store(0)] + ([Leave(0, true)] + ([Leave(1, true)] + [])))
    ensures RunAll(clients, s, enter).phases == [Loaded(0), Loaded(0)]
    ensures RunAll(clients, s, enter + leave).phases == [Returned(false), Returned(true)]
    ensures RunAll(clients, s, enter + leave).counter == 1
  {
    var s1 := System(Cell(0, Held("a", 1)), [Entered, Waiting], 0);
    var s2 := s1.(phases := [Loaded(0), Waiting]);
    var s3 := s2.(cell := Cell(1, Held("a", 1)));
    var s4 := System(Cell(1, Held("b", 10)), [Loaded(0), Entered], 0);
    var s5 := s4.(phases := [Loaded(0), Loaded(0)]);
    var r4 := [Load(1)] + [];
    var r3 := [TryEnter(1)] + r4;
    var r2 := [Outside(Tick(1))] + r3;
    var r1 := [Load(0)] + r2;
    RunCons(clients, s, TryEnter(0), r1);
    RunCons(clients, s1, Load(0), r2);
    RunCons(clients, s2, Outside(Tick(1)), r3);
    RunCons(clients, s3, TryEnter(1), r4);
    RunCons(clients, s4, Load(1), []);
    assert Next(clients, s, TryEnter(0)) == s1 && Next(clients, s1, Load(0)) == s2;
    assert Next(clients, s3, TryEnter(1)) == s4 && Next(clients, s4, Load(1)) == s5;
    assert RunAll(clients, s, enter) == s5;
    RunSplits(clients, s, enter + leave, |enter|);
    assert (enter + leave)[..|enter|] == enter && (enter + leave)[|enter|..] == leave;
    LateUnlock(clients, s5, leave);
  }

  lemma LateUnlock(clients: seq<Client>, s: System, leave: seq<Action>)
    requires clients == [Client("a", 1), Client("b", 9)]
    requires s == System(Cell(1, Held("b", 10)), [Loaded(0), Loaded(0)], 0)
    requires leave == [Store(1)] + ([Store(0)] + ([Leave(0, true)] + ([Leave(1, true)] + [])))
    ensures RunAll(clients, s, leave) == System(Cell(1, Free), [Returned(false), Returned(true)], 1)
  {
    var s1 := s.(phases := [Loaded(0), Stored], counter := 1);
    var s2 := s1.(phases := [Stored, Stored]);
    var s3 := s2.(phases := [Returned(false), Stored]);
    var r3 := [Leave(1, true)] + [];
    var r2 := [Leave(0, true)] + r3;
    var r1 := [Store(0)] + r2;
    RunCons(clients, s, Store(1), r1);
    RunCons(clients, s1, Store(0), r2);
    RunCons(clients, s2, Leave(0, true), r3);
    RunCons(clients, s3, Leave(1, true), []);
    assert Next(clients, s, Store(1)) == s1 && Next(clients, s1, Store(0)) == s2;
    assert Next(clients, s2, Leave(0, true)) == s3;
    assert Next(clients, s3, Leave(1, true)).phases == [Returned(false), Returned(true)];
  }
}
