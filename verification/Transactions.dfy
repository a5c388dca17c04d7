/**
 Nested transactions flattened onto one session (pkg/repository/db.go:60-114). A program is the
 tree of repository writes, returned errors, panics and Transaction calls that a closure makes.
 */
module Transactions {
  type Row = int

  datatype Outcome = Done | Failed | Panicked

  // What a caller does with an inner call: swallow its error, recover its panic.
  datatype Guard = Guard(swallowsError: bool, recovers: bool)

  datatype Stmt =
    | Write(row: Row, accepted: bool)      // a write the database takes, or one that returns an error
    | Raise
    | Panic
    | Helper(body: seq<Stmt>, guard: Guard)
    | Transaction(body: seq<Stmt>, beginOk: bool, commitOk: bool, guard: Guard)

  function Guarded(o: Outcome, g: Guard): Outcome {
    if (o.Failed? && g.swallowsError) || (o.Panicked? && g.recovers) then Done else o
  }

  // ----- the code's meaning: a context that carries a session or not -----

  // The committed rows, and the rows pending in the context's session when there is one.
  datatype Context = Plain(rows: seq<Row>) | InSession(rows: seq<Row>, pending: seq<Row>)

  function Exec(c: Context, body: seq<Stmt>): (r: (Context, Outcome))
    ensures r.0.InSession? <==> c.InSession?
    decreases body, 1
  {
    if body == [] then (c, Done) else
    var (c', o) := ExecOne(c, body[0]);
    if o.Done? then Exec(c', body[1..]) else (c', o)
  }

  function ExecOne(c: Context, s: Stmt): (r: (Context, Outcome))
    ensures r.0.InSession? <==> c.InSession?
    decreases s, 0
  {
    match s
    case Write(row, accepted) =>
      if !accepted then (c, Failed)
      else if c.InSession? then (c.(pending := c.pending + [row]), Done)
      else (Plain(c.rows + [row]), Done)
    case Raise => (c, Failed)
    case Panic => (c, Panicked)
    case Helper(body, guard) =>
      var (c', o) := Exec(c, body);
      (c', Guarded(o, guard))
    case Transaction(body, beginOk, commitOk, guard) =>
      if c.InSession? then
        var (c', o) := Exec(c, body);
        (c', Guarded(o, guard))
      else if !beginOk then (c, Guarded(Failed, guard))
      else
        var (c', o) := Exec(InSession(c.rows, []), body);
        if o.Done? && commitOk then (Plain(c.rows + c'.pending), Done)
        else (c, Guarded(if o.Done? then Failed else o, guard))
  }

  // ----- the intended meaning: no sessions at all -----

  /** The rows a program writes, in order, and how it ends, as if nothing were transactional. */
  function Effects(body: seq<Stmt>): (seq<Row>, Outcome)
    decreases body, 1
  {
    if body == [] then ([], Done) else
    var (rows, o) := EffectsOne(body[0]);
    if o.Done? then
      var (rest, o') := Effects(body[1..]);
      (rows + rest, o')
    else (rows, o)
  }

  function EffectsOne(s: Stmt): (seq<Row>, Outcome)
    decreases s, 0
  {
    match s
    case Write(row, accepted) => if accepted then ([row], Done) else ([], Failed)
    case Raise => ([], Failed)
    case Panic => ([], Panicked)
    case Helper(body, guard) => var (rows, o) := Effects(body); (rows, Guarded(o, guard))
    case Transaction(body, _, _, guard) => var (rows, o) := Effects(body); (rows, Guarded(o, guard))
  }

  /** Inside a transaction every inner Transaction is a plain call: the rows pile up in one session. */
  lemma {:induction false} SessionCollectsEffects(rows: seq<Row>, pending: seq<Row>, body: seq<Stmt>)
    ensures Exec(InSession(rows, pending), body)
         == (InSession(rows, pending + Effects(body).0), Effects(body).1)
    decreases body, 1
  {
    if body == [] {
      assert pending + [] == pending;
    } else {
      SessionCollectsEffectsOne(rows, pending, body[0]);
      var (first, o) := EffectsOne(body[0]);
      if o.Done? {
        SessionCollectsEffects(rows, pending + first, body[1..]);
        assert pending + first + Effects(body[1..]).0 == pending + (first + Effects(body[1..]).0);
      }
    }
  }

  lemma {:induction false} SessionCollectsEffectsOne(rows: seq<Row>, pending: seq<Row>, s: Stmt)
    ensures ExecOne(InSession(rows, pending), s)
         == (InSession(rows, pending + EffectsOne(s).0), EffectsOne(s).1)
    decreases s, 0
  {
    match s
    case Write(row, accepted) => assert !accepted ==> pending + [] == pending;
    case Raise => assert pending + [] == pending;
    case Panic => assert pending + [] == pending;
    case Helper(body, _) => SessionCollectsEffects(rows, pending, body);
    case Transaction(body, _, _, _) => SessionCollectsEffects(rows, pending, body);
  }

  /**
   All or nothing, for every program tree with swallowed errors and recovered panics anywhere
   inside: the outermost call commits all the rows in order, or leaves the database as it was.
   */
  lemma OutermostIsAtomic(rows: seq<Row>, body: seq<Stmt>, beginOk: bool, commitOk: bool, guard: Guard)
    ensures var (c, o) := ExecOne(Plain(rows), Transaction(body, beginOk, commitOk, guard));
            var (written, ended) := Effects(body);
            if beginOk && ended.Done? && commitOk
            then c == Plain(rows + written) && o == Done
            else c == Plain(rows) && o == Guarded(if beginOk && !ended.Done? then ended else Failed, guard)
  {
    SessionCollectsEffects(rows, [], body);
    assert [] + Effects(body).0 == Effects(body).0;
  }

  /** What the caller of an outermost transaction sees: a panic goes on unless it is recovered, an error unless it is swallowed. */
  lemma CallerSees(rows: seq<Row>, body: seq<Stmt>, beginOk: bool, commitOk: bool, guard: Guard)
    ensures var (_, o) := ExecOne(Plain(rows), Transaction(body, beginOk, commitOk, guard));
            && (o.Panicked? <==> beginOk && Effects(body).1.Panicked? && !guard.recovers)
            && (o.Failed? <==> !guard.swallowsError && (!beginOk || Effects(body).1.Failed? || (Effects(body).1.Done? && !commitOk)))
  {
    OutermostIsAtomic(rows, body, beginOk, commitOk, guard);
  }

  lemma {:induction false} EffectsConcat(body: seq<Stmt>, rest: seq<Stmt>)
    requires Effects(body).1.Done?
    ensures Effects(body + rest) == (Effects(body).0 + Effects(rest).0, Effects(rest).1)
    decreases |body|
  {
    if body == [] {
      assert body + rest == rest && [] + Effects(rest).0 == Effects(rest).0;
    } else {
      EffectsConcat(body[1..], rest);
      assert (body + rest)[1..] == body[1..] + rest && (body + rest)[0] == body[0];
      var first := EffectsOne(body[0]).0;
      assert first + (Effects(body[1..]).0 + Effects(rest).0) == first + Effects(body[1..]).0 + Effects(rest).0;
    }
  }

  /** The body stops at its first error or panic: nothing after it runs, and all that ran before it is undone. */
  lemma StopsAtFirst(rows: seq<Row>, body: seq<Stmt>, row: Row, rest: seq<Stmt>, commitOk: bool)
    requires Effects(body).1.Done?
    ensures var guard := Guard(false, false);
            && ExecOne(Plain(rows), Transaction(body + ([Raise] + rest), true, commitOk, guard)) == (Plain(rows), Failed)
            && ExecOne(Plain(rows), Transaction(body + ([Panic] + rest), true, commitOk, guard)) == (Plain(rows), Panicked)
            && ExecOne(Plain(rows), Transaction(body + ([Write(row, false)] + rest), true, commitOk, guard)) == (Plain(rows), Failed)
            && ExecOne(Plain(rows), Transaction(body + [Write(row, true)], true, true, guard))
               == (Plain(rows + Effects(body).0 + [row]), Done)
  {
    StopsWith(rows, body, Raise, rest, commitOk);
    StopsWith(rows, body, Panic, rest, commitOk);
    StopsWith(rows, body, Write(row, false), rest, commitOk);
    EffectsConcat(body, [Write(row, true)]);
    assert [Write(row, true)][1..] == [] && [row] + [] == [row];
    assert Effects([Write(row, true)]) == ([row], Done);
    OutermostIsAtomic(rows, body + [Write(row, true)], true, true, Guard(false, false));
    assert rows + (Effects(body).0 + [row]) == rows + Effects(body).0 + [row];
  }

  lemma StopsWith(rows: seq<Row>, body: seq<Stmt>, stop: Stmt, rest: seq<Stmt>, commitOk: bool)
    requires Effects(body).1.Done? && !EffectsOne(stop).1.Done?
    ensures ExecOne(Plain(rows), Transaction(body + ([stop] + rest), true, commitOk, Guard(false, false)))
         == (Plain(rows), EffectsOne(stop).1)
  {
    EffectsConcat(body, [stop] + rest);
    assert ([stop] + rest)[0] == stop;
    OutermostIsAtomic(rows, body + ([stop] + rest), true, commitOk, Guard(false, false));
  }

  // ----- programs without a session of their own -----

  /**
   What stays in the database when a program runs with no session: each write outside a
   transaction, and of each outermost transaction that succeeds all its writes.
   */
  function Stored(body: seq<Stmt>): (seq<Row>, Outcome)
    decreases body, 1
  {
    if body == [] then ([], Done) else
    var (rows, o) := StoredOne(body[0]);
    if o.Done? then
      var (rest, o') := Stored(body[1..]);
      (rows + rest, o')
    else (rows, o)
  }

  function StoredOne(s: Stmt): (seq<Row>, Outcome)
    decreases s, 0
  {
    match s
    case Helper(body, guard) => var (rows, o) := Stored(body); (rows, Guarded(o, guard))
    case Transaction(body, beginOk, commitOk, guard) =>
      var (rows, o) := Effects(body);
      if beginOk && commitOk && o.Done? then (rows, Done)
      else ([], Guarded(if beginOk && !o.Done? then o else Failed, guard))
    case _ => EffectsOne(s)
  }

  /** Without a session every write that the database takes is there at once and for good, whatever fails after it. */
  lemma {:induction false} PlainStores(rows: seq<Row>, body: seq<Stmt>)
    ensures Exec(Plain(rows), body) == (Plain(rows + Stored(body).0), Stored(body).1)
    decreases body, 1
  {
    if body == [] {
      assert rows + [] == rows;
    } else {
      PlainStoresOne(rows, body[0]);
      var (first, o) := StoredOne(body[0]);
      if o.Done? {
        PlainStores(rows + first, body[1..]);
        assert rows + first + Stored(body[1..]).0 == rows + (first + Stored(body[1..]).0);
      }
    }
  }

  lemma {:induction false} PlainStoresOne(rows: seq<Row>, s: Stmt)
    ensures ExecOne(Plain(rows), s) == (Plain(rows + StoredOne(s).0), StoredOne(s).1)
    decreases s, 0
  {
    assert rows + [] == rows;
    match s
    case Helper(body, _) => PlainStores(rows, body);
    case Transaction(body, beginOk, commitOk, guard) => OutermostIsAtomic(rows, body, beginOk, commitOk, guard);
    case _ =>
  }

  ghost predicate NoTransactions(body: seq<Stmt>)
    decreases body
  {
    body == [] || (match body[0]
                   case Transaction(_, _, _, _) => false
                   case Helper(inner, _) => NoTransactions(inner) && NoTransactions(body[1..])
                   case _ => NoTransactions(body[1..]))
  }

  /** With no transaction in it a program leaves every row that it writes before it ends, failed or not. */
  lemma WritesStay(rows: seq<Row>, body: seq<Stmt>)
    requires NoTransactions(body)
    ensures Exec(Plain(rows), body) == (Plain(rows + Effects(body).0), Effects(body).1)
  {
    PlainStores(rows, body);
    NothingToUndo(body);
  }

  lemma {:induction false} NothingToUndo(body: seq<Stmt>)
    requires NoTransactions(body)
    ensures Stored(body) == Effects(body)
    decreases body
  {
    if body != [] {
      match body[0]
      case Helper(inner, _) =>
        NothingToUndo(inner);
        NothingToUndo(body[1..]);
      case Transaction(_, _, _, _) => assert false;
      case _ => NothingToUndo(body[1..]);
    }
  }

  // ----- erasing the inner transactions -----

  function Erase(body: seq<Stmt>): (r: seq<Stmt>)
    ensures |r| == |body|
    decreases body, 1
  {
    if body == [] then [] else [EraseOne(body[0])] + Erase(body[1..])
  }

  function EraseOne(s: Stmt): Stmt
    decreases s, 0
  {
    match s
    case Helper(body, guard) => Helper(Erase(body), guard)
    case Transaction(body, _, _, guard) => Helper(Erase(body), guard)
    case _ => s
  }

  lemma {:induction false} ErasedEffects(body: seq<Stmt>)
    ensures Effects(Erase(body)) == Effects(body)
    decreases body, 1
  {
    if body != [] {
      ErasedEffectsOne(body[0]);
      ErasedEffects(body[1..]);
      assert Erase(body)[1..] == Erase(body[1..]);
    }
  }

  lemma {:induction false} ErasedEffectsOne(s: Stmt)
    ensures EffectsOne(EraseOne(s)) == EffectsOne(s)
    decreases s, 0
  {
    match s
    case Helper(body, _) => ErasedEffects(body);
    case Transaction(body, _, _, _) => ErasedEffects(body);
    case _ =>
  }

  lemma {:induction false} ErasureIsComplete(body: seq<Stmt>)
    ensures NoTransactions(Erase(body))
    decreases body
  {
    if body != [] {
      ErasureIsComplete(body[1..]);
      assert Erase(body)[1..] == Erase(body[1..]);
      match body[0]
      case Helper(inner, _) => ErasureIsComplete(inner);
      case Transaction(inner, _, _, _) => ErasureIsComplete(inner);
      case _ =>
    }
  }

  /** Nested calls mean the same program with the inner transactions erased. */
  lemma NestingIsErasable(rows: seq<Row>, body: seq<Stmt>, beginOk: bool, commitOk: bool, guard: Guard)
    ensures NoTransactions(Erase(body))
    ensures ExecOne(Plain(rows), Transaction(body, beginOk, commitOk, guard))
         == ExecOne(Plain(rows), Transaction(Erase(body), beginOk, commitOk, guard))
  {
    ErasureIsComplete(body);
    ErasedEffects(body);
    OutermostIsAtomic(rows, body, beginOk, commitOk, guard);
    OutermostIsAtomic(rows, Erase(body), beginOk, commitOk, guard);
  }

  /**
   Flattening has a price: an inner call leaves the session as it was if and only if its body
   writes no row before it ends, however it ends and whatever the caller does with the error.
   */
  lemma InnerIsUndoneIff(rows: seq<Row>, pending: seq<Row>, body: seq<Stmt>, beginOk: bool, commitOk: bool, guard: Guard)
    ensures ExecOne(InSession(rows, pending), Transaction(body, beginOk, commitOk, guard)).0 == InSession(rows, pending)
            <==> Effects(body).0 == []
  {
    SessionCollectsEffectsOne(rows, pending, Transaction(body, beginOk, commitOk, guard));
    assert |pending + Effects(body).0| == |pending| + |Effects(body).0|;
  }

  /**
   So when a caller swallows the error or recovers the panic of an inner call and nothing else goes
   wrong, the outermost call commits exactly what the inner one had written before it failed.
   */
  lemma SwallowedInnerIsCommitted(rows: seq<Row>, body: seq<Stmt>, innerBegin: bool, innerCommit: bool, guard: Guard, outer: Guard)
    requires Guarded(Effects(body).1, guard).Done?
    ensures ExecOne(Plain(rows), Transaction([Transaction(body, innerBegin, innerCommit, guard)], true, true, outer))
         == (Plain(rows + Effects(body).0), Done)
  {
    var inner := Transaction(body, innerBegin, innerCommit, guard);
    assert [inner][1..] == [] && Effects([]) == ([], Done);
    assert EffectsOne(inner) == (Effects(body).0, Done);
    assert Effects([inner]).0 == Effects(body).0 + [] == Effects(body).0;
    OutermostIsAtomic(rows, [inner], true, true, outer);
  }

  // ----- the code as it runs -----

  datatype Status = Idle | Begun | Committed | RolledBack

  class Session {
    var pending: seq<Row>
    var status: Status
    var closed: bool

    constructor ()
      ensures pending == [] && status == Idle && !closed
    {
      pending, status, closed := [], Idle, false;
    }

    /** Rolls back if the session is still open; after a commit it has no effect. */
    method Rollback()
      modifies this`status
      ensures status == if old(status).Begun? then RolledBack else old(status)
    {
      if status.Begun? {
        status := RolledBack;
      }
    }

    method Close()
      modifies this`closed
      ensures closed
    {
      closed := true;
    }
  }

  class DB {
    var rows: seq<Row>

    constructor ()
      ensures rows == []
    {
      rows := [];
    }

    ghost function ContextOf(session: Session?): Context
      reads this, session
    {
      if session == null then Plain(rows) else InSession(rows, session.pending)
    }

    method Commit(session: Session, ok: bool) returns (committed: bool)
      requires session.status.Begun?
      modifies this`rows, session`status
      ensures committed == ok
      ensures rows == (if ok then old(rows) + session.pending else old(rows))
      ensures session.status == if ok then Committed else RolledBack
    {
      if ok {
        rows := rows + session.pending;
        session.status := Committed;
      } else {
        session.status := RolledBack;
      }
      committed := ok;
    }

    /** `used` is the session this call opened, when it opened one. */
    method Transact(session: Session?, body: seq<Stmt>, beginOk: bool, commitOk: bool) returns (o: Outcome, used: Session?)
      requires session != null ==> session.status.Begun? && !session.closed
      modifies this, session
      ensures (ContextOf(session), o)
           == ExecOne(old(ContextOf(session)), Transaction(body, beginOk, commitOk, Guard(false, false)))
      ensures session != null ==> used == null && session.status.Begun? && !session.closed
      ensures session == null ==> used != null && fresh(used) && used.closed
      ensures session == null ==> used.status == if !beginOk then Idle else if o.Done? then Committed else RolledBack
      decreases body, 2
    {
      if session != null {
        o := RunBody(session, body);
        used := null;
        return;
      }
      var own := new Session();
      used := own;
      if !beginOk {
        own.Close();
        o := Failed;
        return;
      }
      own.status := Begun;
      var committed := false;
      SessionCollectsEffects(rows, [], body);
      o := RunBody(own, body);
      if o.Panicked? {
        own.Rollback();
        own.Close();
        return;
      }
      if o.Done? {
        committed := Commit(own, commitOk);
        if !committed {
          o := Failed;
        }
      }
      if !committed {
        own.Rollback();
      }
      own.Close();
    }

    method RunBody(session: Session?, body: seq<Stmt>) returns (o: Outcome)
      requires session != null ==> session.status.Begun? && !session.closed
      modifies this, session
      ensures (ContextOf(session), o) == Exec(old(ContextOf(session)), body)
      ensures session != null ==> session.status.Begun? && !session.closed
      decreases body, 1
    {
      if body == [] {
        return Done;
      }
      o := RunStmt(session, body[0]);
      if o.Done? {
        o := RunBody(session, body[1..]);
      }
    }

    method RunStmt(session: Session?, s: Stmt) returns (o: Outcome)
      requires session != null ==> session.status.Begun? && !session.closed
      modifies this, session
      ensures (ContextOf(session), o) == ExecOne(old(ContextOf(session)), s)
      ensures session != null ==> session.status.Begun? && !session.closed
      decreases s, 0
    {
      match s {
        case Write(row, accepted) =>
          if !accepted {
            return Failed;
          }
          if session != null {
            session.pending := session.pending + [row];
          } else {
            rows := rows + [row];
          }
          o := Done;
        case Raise => o := Failed;
        case Panic => o := Panicked;
        case Helper(body, guard) =>
          o := RunBody(session, body);
          o := Guarded(o, guard);
        case Transaction(body, beginOk, commitOk, guard) =>
          var used;
          o, used := Transact(session, body, beginOk, commitOk);
          o := Guarded(o, guard);
      }
    }
  }
}
