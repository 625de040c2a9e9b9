/**
 * Operations of any number of PostgreSQL stores on one client that is not a pool. Each operation
 * waits for the one before it, so the SQL on the connection is one operation's after another's.
 */
module ConnectionQueue {

  datatype Sql = Begin | Statement(text: string) | Commit | Rollback

  /** How SQL ends: well; with an error and no effect; or with an effect whose answer is an error or lost. */
  datatype Reply = Good | Bad | Lost

  /** What the connection sees, in order. */
  datatype Entry = Sent(sql: Sql) | Answered(sql: Sql, reply: Reply)

  datatype Phase = Waiting | InFlight(sql: Sql) | InBody | Settled

  /** What the caller has got: it waits, its signal fired first, or the operation settled first, well or badly. */
  datatype Caller = Waits | Abandoned | Told(ok: bool)

  /** One call of run: its slot, its own signal, its caller, and the SQL it has caused so far. */
  datatype Operation = Operation(store: nat, transaction: bool, phase: Phase, began: bool, aborted: bool,
                                 caller: Caller, trace: seq<Entry>)

  datatype State = State(ops: seq<Operation>, closed: set<nat>, log: seq<Entry>)

  datatype Event =
    | Call(store: nat, transaction: bool, signalled: bool)
    | Abort(op: nat)
    | Close(store: nat)
    | Start(op: nat)
    | Send(op: nat, text: string)
    | Answer(op: nat, reply: Reply)
    | Return(op: nat, ok: bool)

  const INITIAL := State([], {}, [])

  // ---- the steps ----

  predicate Enabled(s: State, e: Event) {
    match e
    case Call(_, _, _) => true
    case Abort(op) => op < |s.ops|
    case Close(_) => true
    case Start(op) => op < |s.ops| && s.ops[op].phase.Waiting? && (op > 0 ==> s.ops[op - 1].phase.Settled?)
    case Send(op, _) => op < |s.ops| && s.ops[op].phase.InBody? && !s.ops[op].aborted
    case Answer(op, _) => op < |s.ops| && s.ops[op].phase.InFlight?
    case Return(op, _) => op < |s.ops| && s.ops[op].phase.InBody?
  }

  /** The rest of the operation from a point where it goes on to its next piece of SQL, or settles. */
  function Next(o: Operation, sql: Sql): Operation {
    o.(phase := InFlight(sql), trace := o.trace + [Sent(sql)])
  }

  /** The race between the operation and its signal: the first of the two to settle answers the caller. */
  function Settle(o: Operation, ok: bool): Operation {
    o.(phase := Settled, caller := if o.caller.Waits? then Told(ok) else o.caller)
  }

  function Aborted(o: Operation): Operation {
    o.(aborted := true, caller := if o.caller.Waits? then Abandoned else o.caller)
  }

  /** The catch block: an acknowledged BEGIN that is still open is rolled back. */
  function Fail(o: Operation): Operation {
    if o.began then Next(o, Rollback) else Settle(o, false)
  }

  function Begun(o: Operation): Operation {
    if o.aborted then Settle(o, false)
    else if o.transaction then Next(o, Begin)
    else o.(phase := InBody)
  }

  function Replied(o: Operation, reply: Reply): Operation
    requires o.phase.InFlight?
  {
    var seen := o.(trace := o.trace + [Answered(o.phase.sql, reply)]);
    match o.phase.sql
    case Begin =>
      if !reply.Good? then Fail(seen)
      else if o.aborted then Fail(seen.(began := true))
      else seen.(began := true, phase := InBody)
    case Statement(_) => seen.(phase := InBody)
    case Commit => if reply.Good? then Settle(seen.(began := false), !o.aborted) else Fail(seen)
    case Rollback => Settle(seen, false)
  }

  function Returned(o: Operation, ok: bool): Operation {
    if !ok || o.aborted then Fail(o) else if o.began then Next(o, Commit) else Settle(o, true)
  }

  /** The operation moves on, and its new SQL reaches the connection. */
  function Move(s: State, op: nat, o: Operation): State
    requires op < |s.ops| && s.ops[op].trace <= o.trace
  {
    s.(ops := s.ops[op := o], log := s.log + o.trace[|s.ops[op].trace|..])
  }

  function AbortAll(ops: seq<Operation>, store: nat): (r: seq<Operation>)
    ensures |r| == |ops|
    ensures forall i | 0 <= i < |ops| :: r[i] == if ops[i].store == store then Aborted(ops[i]) else ops[i]
  {
    if ops == [] then []
    else
      var last := ops[|ops| - 1];
      AbortAll(ops[..|ops| - 1], store) + [if last.store == store then Aborted(last) else last]
  }

  function Do(s: State, e: Event): State
    requires Enabled(s, e)
  {
    match e
    case Call(store, transaction, signalled) =>
      if store in s.closed || signalled then s
      else s.(ops := s.ops + [Operation(store, transaction, Waiting, false, false, Waits, [])])
    case Abort(op) => s.(ops := s.ops[op := Aborted(s.ops[op])])
    case Close(store) => State(AbortAll(s.ops, store), s.closed + {store}, s.log)
    case Start(op) => Move(s, op, Begun(s.ops[op]))
    case Send(op, text) => Move(s, op, Next(s.ops[op], Statement(text)))
    case Answer(op, reply) => Move(s, op, Replied(s.ops[op], reply))
    case Return(op, ok) => Move(s, op, Returned(s.ops[op], ok))
  }

  /** Any interleaving: an event that cannot happen in a state is skipped. */
  function After(s: State, events: seq<Event>): State
  {
    if events == [] then s
    else
      var before := After(s, events[..|events| - 1]);
      var e := events[|events| - 1];
      if Enabled(before, e) then Do(before, e) else before
  }

  // ---- what one operation may cause ----

  ghost predicate OnlyStatements(t: seq<Entry>) {
    forall i | 0 <= i < |t| :: t[i].sql.Statement?
  }

  /**
   * SQL of an operation whose body is running: BEGIN acknowledged if it is a transaction, then the body's
   * statements.
   */
  ghost predicate Entered(transaction: bool, t: seq<Entry>) {
    if transaction then |t| >= 2 && t[0] == Sent(Begin) && t[1] == Answered(Begin, Good) && OnlyStatements(t[2..])
    else OnlyStatements(t)
  }

  ghost predicate BeginFailed(t: seq<Entry>) {
    |t| == 2 && t[0] == Sent(Begin) && t[1].Answered? && t[1].sql == Begin && !t[1].reply.Good?
  }

  ghost predicate CommitFailed(t: seq<Entry>) {
    && |t| >= 2 && t[|t| - 2] == Sent(Commit)
    && t[|t| - 1].Answered? && t[|t| - 1].sql == Commit && !t[|t| - 1].reply.Good?
    && Entered(true, t[..|t| - 2])
  }

  /** COMMIT was answered, and well. */
  ghost predicate Acknowledged(t: seq<Entry>) {
    |t| >= 2 && t[|t| - 2..] == [Sent(Commit), Answered(Commit, Good)] && Entered(true, t[..|t| - 2])
  }

  ghost predicate RolledBack(t: seq<Entry>) {
    && |t| >= 2 && t[|t| - 2] == Sent(Rollback) && t[|t| - 1].Answered? && t[|t| - 1].sql == Rollback
    && (Entered(true, t[..|t| - 2]) || CommitFailed(t[..|t| - 2]))
  }

  /** Everything an operation that has settled may have caused. */
  ghost predicate Complete(transaction: bool, t: seq<Entry>) {
    || t == []
    || (!transaction && Entered(false, t))
    || (transaction && BeginFailed(t))
    || (transaction && Acknowledged(t))
    || (transaction && RolledBack(t))
  }

  ghost predicate FitsInFlight(o: Operation, sql: Sql, t: seq<Entry>) {
    match sql
    case Begin => t == [] && o.transaction && !o.began
    case Statement(_) => Entered(o.transaction, t) && o.began == o.transaction
    case Commit => Entered(true, t) && o.began
    case Rollback => (Entered(true, t) || CommitFailed(t)) && o.began
  }

  ghost predicate Fits(o: Operation) {
    var t := o.trace;
    && (o.began ==> o.transaction)
    && match o.phase
       case Waiting => t == [] && !o.began
       case InBody => Entered(o.transaction, t) && o.began == o.transaction
       case Settled => Complete(o.transaction, t)
       case InFlight(sql) =>
         && t != [] && t[|t| - 1] == Sent(sql)
         && FitsInFlight(o, sql, t[..|t| - 1])
  }

  lemma BegunFits(o: Operation)
    requires Fits(o) && o.phase.Waiting?
    ensures Fits(Begun(o))
  {
  }

  lemma NextFits(o: Operation, sql: Sql)
    requires FitsInFlight(o, sql, o.trace) && (o.began ==> o.transaction)
    ensures Fits(Next(o, sql))
  {
    assert Next(o, sql).trace[..|o.trace|] == o.trace;
  }

  lemma FailFits(o: Operation)
    requires o.began ==> o.transaction && (Entered(true, o.trace) || CommitFailed(o.trace))
    requires !o.began ==> Complete(o.transaction, o.trace)
    ensures Fits(Fail(o))
  {
    if o.began {
      NextFits(o, Rollback);
    }
  }

  lemma ReturnedFits(o: Operation, ok: bool)
    requires Fits(o) && o.phase.InBody?
    ensures Fits(Returned(o, ok))
  {
    if !ok || o.aborted {
      FailFits(o);
    } else if o.began {
      NextFits(o, Commit);
    }
  }

  lemma StatementAnswered(transaction: bool, t: seq<Entry>, sql: Sql, reply: Reply)
    requires Entered(transaction, t) && sql.Statement?
    ensures Entered(transaction, t + [Sent(sql)] + [Answered(sql, reply)])
  {
    var u := t + [Sent(sql)] + [Answered(sql, reply)];
    if transaction {
      assert u[2..] == t[2..] + [Sent(sql)] + [Answered(sql, reply)];
    }
  }

  /** The two last entries, and what came before them. */
  lemma LastTwo(trace: seq<Entry>, reply: Reply) returns (t: seq<Entry>, u: seq<Entry>)
    requires trace != [] && trace[|trace| - 1].Sent?
    ensures t == trace[..|trace| - 1] && u == trace + [Answered(trace[|trace| - 1].sql, reply)]
    ensures u == t + [Sent(trace[|trace| - 1].sql)] + [Answered(trace[|trace| - 1].sql, reply)] && u[..|u| - 2] == t
    ensures u[|u| - 2..] == [Sent(trace[|trace| - 1].sql), Answered(trace[|trace| - 1].sql, reply)]
  {
    t, u := trace[..|trace| - 1], trace + [Answered(trace[|trace| - 1].sql, reply)];
    assert trace == t + [trace[|trace| - 1]];
  }

  lemma BeginAnswered(o: Operation, reply: Reply)
    requires Fits(o) && o.phase == InFlight(Begin)
    ensures Fits(Replied(o, reply))
  {
    var t, u := LastTwo(o.trace, reply);
    if !reply.Good? || o.aborted {
      FailFits(o.(trace := u, began := reply.Good?));
    }
  }

  lemma BodyAnswered(o: Operation, reply: Reply)
    requires Fits(o) && o.phase.InFlight? && o.phase.sql.Statement?
    ensures Fits(Replied(o, reply))
  {
    var t, u := LastTwo(o.trace, reply);
    StatementAnswered(o.transaction, t, o.phase.sql, reply);
  }

  lemma CommitAnswered(o: Operation, reply: Reply)
    requires Fits(o) && o.phase == InFlight(Commit)
    ensures Fits(Replied(o, reply))
  {
    var t, u := LastTwo(o.trace, reply);
    if reply.Good? {
      assert Acknowledged(u);
    } else {
      FailFits(o.(trace := u));
    }
  }

  lemma RollbackAnswered(o: Operation, reply: Reply)
    requires Fits(o) && o.phase == InFlight(Rollback)
    ensures Fits(Replied(o, reply))
  {
    var t, u := LastTwo(o.trace, reply);
    assert RolledBack(u);
  }

  // ---- one slot at a time ----

  ghost predicate OneAtATime(ops: seq<Operation>) {
    forall i, j | 0 <= i < j < |ops| && !ops[j].phase.Waiting? :: ops[i].phase.Settled?
  }

  /** The operations' SQL, one operation after another in the order run was called. */
  function InCallOrder(ops: seq<Operation>): seq<Entry>
  {
    if ops == [] then [] else InCallOrder(ops[..|ops| - 1]) + ops[|ops| - 1].trace
  }

  lemma {:induction false} LastActiveAppends(ops: seq<Operation>, op: nat, o: Operation)
    requires op < |ops| && ops[op].trace <= o.trace
    requires forall i | op < i < |ops| :: ops[i].trace == []
    ensures InCallOrder(ops[op := o]) == InCallOrder(ops) + o.trace[|ops[op].trace|..]
  {
    var n := |ops| - 1;
    var after := ops[op := o];
    if op == n {
      assert after[..n] == ops[..n];
      assert o.trace == ops[op].trace + o.trace[|ops[op].trace|..];
    } else {
      LastActiveAppends(ops[..n], op, o);
      assert after[..n] == ops[..n][op := o];
      assert after[n].trace == [] && ops[n].trace == [];
    }
  }

  ghost predicate Sound(s: State) {
    && (forall i | 0 <= i < |s.ops| :: Fits(s.ops[i]))
    && OneAtATime(s.ops)
    && s.log == InCallOrder(s.ops)
  }

  lemma WaitingIsSilent(o: Operation)
    requires Fits(o) && o.phase.Waiting?
    ensures o.trace == []
  {
  }

  lemma MoveKeepsSound(s: State, op: nat, o: Operation)
    requires Sound(s) && op < |s.ops| && s.ops[op].trace <= o.trace && Fits(o) && !o.phase.Waiting?
    requires !s.ops[op].phase.Settled?
    requires forall i | 0 <= i < op :: s.ops[i].phase.Settled?
    ensures Sound(Move(s, op, o))
  {
    hide Fits;
    forall i | op < i < |s.ops|
      ensures s.ops[i].trace == [] && s.ops[i].phase.Waiting?
    {
      assert s.ops[i].phase.Waiting?;
      WaitingIsSilent(s.ops[i]);
    }
    LastActiveAppends(s.ops, op, o);
  }

  lemma AbortFits(o: Operation)
    requires Fits(o)
    ensures Fits(Aborted(o))
  {
  }

  lemma {:induction false} SameTraces(a: seq<Operation>, b: seq<Operation>)
    requires |a| == |b| && forall i | 0 <= i < |a| :: a[i].trace == b[i].trace
    ensures InCallOrder(a) == InCallOrder(b)
  {
    if a != [] {
      SameTraces(a[..|a| - 1], b[..|b| - 1]);
    }
  }

  lemma SignalKeepsSound(s: State, e: Event)
    requires Sound(s) && Enabled(s, e) && (e.Abort? || e.Close?)
    ensures Sound(Do(s, e))
  {
    hide Fits;
    var after := Do(s, e).ops;
    forall i | 0 <= i < |s.ops|
      ensures Fits(after[i]) && after[i].trace == s.ops[i].trace && after[i].phase == s.ops[i].phase
    {
      AbortFits(s.ops[i]);
    }
    SameTraces(s.ops, after);
  }

  lemma CallKeepsSound(s: State, e: Event)
    requires Sound(s) && e.Call?
    ensures Sound(Do(s, e))
  {
    var after := Do(s, e).ops;
    if after != s.ops {
      assert after[..|s.ops|] == s.ops;
      assert InCallOrder(after) == InCallOrder(s.ops) + [];
    }
  }

  lemma EarlierSettled(s: State, op: nat)
    requires Sound(s) && op < |s.ops| && (!s.ops[op].phase.Waiting? || (op > 0 ==> s.ops[op - 1].phase.Settled?))
    ensures forall i | 0 <= i < op :: s.ops[i].phase.Settled?
  {
    hide Fits;
  }

  lemma FitsAt(s: State, op: nat)
    requires Sound(s) && op < |s.ops|
    ensures Fits(s.ops[op])
  {
  }

  lemma StartKeepsSound(s: State, op: nat)
    requires Sound(s) && Enabled(s, Start(op))
    ensures Sound(Do(s, Start(op)))
  {
    EarlierSettled(s, op);
    BegunFits(s.ops[op]);
    MoveKeepsSound(s, op, Begun(s.ops[op]));
  }

  lemma SendKeepsSound(s: State, op: nat, text: string)
    requires Sound(s) && Enabled(s, Send(op, text))
    ensures Sound(Do(s, Send(op, text)))
  {
    EarlierSettled(s, op);
    NextFits(s.ops[op], Statement(text));
    MoveKeepsSound(s, op, Next(s.ops[op], Statement(text)));
  }

  lemma AnswerKeepsSound(s: State, op: nat, reply: Reply)
    requires Sound(s) && Enabled(s, Answer(op, reply))
    ensures Sound(Do(s, Answer(op, reply)))
  {
    EarlierSettled(s, op);
    FitsAt(s, op);
    match s.ops[op].phase.sql {
      case Begin => BeginAnswered(s.ops[op], reply);
      case Statement(_) => BodyAnswered(s.ops[op], reply);
      case Commit => CommitAnswered(s.ops[op], reply);
      case Rollback => RollbackAnswered(s.ops[op], reply);
    }
    hide Fits, Sound, OneAtATime, InCallOrder;
    MoveKeepsSound(s, op, Replied(s.ops[op], reply));
  }

  lemma ReturnKeepsSound(s: State, op: nat, ok: bool)
    requires Sound(s) && Enabled(s, Return(op, ok))
    ensures Sound(Do(s, Return(op, ok)))
  {
    EarlierSettled(s, op);
    ReturnedFits(s.ops[op], ok);
    MoveKeepsSound(s, op, Returned(s.ops[op], ok));
  }

  lemma StepKeepsSound(s: State, e: Event)
    requires Sound(s) && Enabled(s, e)
    ensures Sound(Do(s, e))
  {
    hide Fits, Sound, OneAtATime, InCallOrder;
    match e {
      case Call(_, _, _) => CallKeepsSound(s, e);
      case Abort(_) => SignalKeepsSound(s, e);
      case Close(_) => SignalKeepsSound(s, e);
      case Start(op) => StartKeepsSound(s, op);
      case Send(op, text) => SendKeepsSound(s, op, text);
      case Answer(op, reply) => AnswerKeepsSound(s, op, reply);
      case Return(op, ok) => ReturnKeepsSound(s, op, ok);
    }
  }

  lemma {:induction false} EveryRunIsSound(events: seq<Event>)
    ensures Sound(After(INITIAL, events))
  {
    if events != [] {
      hide Sound;
      EveryRunIsSound(events[..|events| - 1]);
      var before := After(INITIAL, events[..|events| - 1]);
      if Enabled(before, events[|events| - 1]) {
        StepKeepsSound(before, events[|events| - 1]);
      }
    } else {
      assert Sound(INITIAL);
    }
  }

  // ---- what that means for callers ----

  /**
   * In every interleaving the SQL on the connection is one operation's after another's, in the
   * order run was called, and each operation that has settled caused one complete piece of SQL.
   */
  lemma OperationsRunInCallOrder(events: seq<Event>)
    ensures var s := After(INITIAL, events);
            && s.log == InCallOrder(s.ops)
            && (forall i | 0 <= i < |s.ops| && s.ops[i].phase.Settled? ::
                Complete(s.ops[i].transaction, s.ops[i].trace))
            && (forall i, j | 0 <= i < j < |s.ops| && !s.ops[j].phase.Waiting? :: s.ops[i].phase.Settled?)
  {
    EveryRunIsSound(events);
    var s := After(INITIAL, events);
    forall i | 0 <= i < |s.ops| && s.ops[i].phase.Settled?
      ensures Complete(s.ops[i].transaction, s.ops[i].trace)
    {
      FitsAt(s, i);
    }
  }

  lemma BegunAndSettled(o: Operation)
    requires Fits(o) && o.phase.Settled? && Answered(Begin, Good) in o.trace
    ensures o.transaction && (Acknowledged(o.trace) || RolledBack(o.trace))
  {
    hide RolledBack, Acknowledged;
    var k :| 0 <= k < |o.trace| && o.trace[k] == Answered(Begin, Good);
    assert !o.trace[k].sql.Statement?;
  }

  /** An answered COMMIT or ROLLBACK is the end of the trace. */
  ghost predicate Closed(t: seq<Entry>) {
    && |t| >= 2 && (t[|t| - 2] == Sent(Commit) || t[|t| - 2] == Sent(Rollback))
    && t[|t| - 1].Answered? && t[|t| - 1].sql == t[|t| - 2].sql
  }

  lemma ClosedWasBegun(o: Operation)
    requires Fits(o) && o.phase.Settled? && Closed(o.trace)
    ensures Answered(Begin, Good) in o.trace
  {
    var t := o.trace;
    var u := t[..|t| - 2];
    assert t[|t| - 2] == t[|t| - 2..][0];
    if CommitFailed(u) {
      assert u[..|u| - 2][1] == t[1];
    } else if Entered(true, u) {
      assert u[1] == t[1];
    }
  }

  /**
   * Once an operation has settled, and by the time a later one has sent SQL, its transaction is
   * closed by an answered COMMIT or ROLLBACK exactly when its BEGIN was acknowledged.
   */
  lemma EveryBeginIsClosed(events: seq<Event>, i: nat)
    requires var ops := After(INITIAL, events).ops;
             && i < |ops|
             && (ops[i].phase.Settled? || exists j | i < j < |ops| :: ops[j].trace != [])
    ensures var t := After(INITIAL, events).ops[i].trace;
            Answered(Begin, Good) in t <==> Closed(t)
  {
    var s := After(INITIAL, events);
    EveryRunIsSound(events);
    FitsAt(s, i);
    hide Sound, Fits, Entered;
    if Answered(Begin, Good) in s.ops[i].trace {
      BegunAndSettled(s.ops[i]);
    }
    if Closed(s.ops[i].trace) {
      ClosedWasBegun(s.ops[i]);
    }
  }

  // ---- what the caller is told ----

  /** A caller that is told the outcome of a transaction is told how its COMMIT was answered. */
  ghost predicate Honest(o: Operation) {
    && (o.caller.Waits? ==> !o.aborted && !o.phase.Settled?)
    && (o.caller.Abandoned? ==> o.aborted)
    && (o.caller.Told? ==> o.phase.Settled? && (o.transaction ==> (o.caller.ok <==> Acknowledged(o.trace))))
  }

  lemma ReplyIsHonest(o: Operation, reply: Reply)
    requires Fits(o) && Honest(o) && o.phase.InFlight?
    ensures Honest(Replied(o, reply))
  {
    var t, u := LastTwo(o.trace, reply);
    assert u[|u| - 2] == u[|u| - 2..][0];
  }

  lemma StepIsHonest(o: Operation, ok: bool, reply: Reply)
    requires Fits(o) && Honest(o)
    ensures Honest(Aborted(o))
    ensures o.phase.Waiting? ==> Honest(Begun(o))
    ensures o.phase.InBody? ==> Honest(Returned(o, ok))
    ensures o.phase.InFlight? ==> Honest(Replied(o, reply))
  {
    if o.phase.InFlight? {
      ReplyIsHonest(o, reply);
    }
  }

  ghost predicate AllHonest(s: State) {
    forall i | 0 <= i < |s.ops| :: Honest(s.ops[i])
  }

  lemma SendIsHonest(o: Operation, text: string)
    requires Honest(o)
    ensures o.phase.InBody? ==> Honest(Next(o, Statement(text)))
  {
  }

  lemma OperationStaysHonest(s: State, e: Event, i: nat)
    requires Sound(s) && Enabled(s, e) && i < |s.ops| && Honest(s.ops[i])
    ensures i < |Do(s, e).ops| && Honest(Do(s, e).ops[i])
  {
    FitsAt(s, i);
    hide Sound, Fits, Honest, Begun, Next, Replied, Returned, Aborted;
    var ok := match e case Return(_, ok) => ok case _ => true;
    var reply := match e case Answer(_, reply) => reply case _ => Good;
    StepIsHonest(s.ops[i], ok, reply);
    SendIsHonest(s.ops[i], match e case Send(_, text) => text case _ => "");
  }

  lemma NewcomerIsHonest(store: nat, transaction: bool)
    ensures Honest(Operation(store, transaction, Waiting, false, false, Waits, []))
  {
  }

  lemma StepKeepsHonest(s: State, e: Event)
    requires Sound(s) && AllHonest(s) && Enabled(s, e)
    ensures AllHonest(Do(s, e))
  {
    hide Sound, Fits, Honest, Begun, Next, Replied, Returned, Aborted;
    var after := Do(s, e).ops;
    forall i | 0 <= i < |after|
      ensures Honest(after[i])
    {
      if i < |s.ops| {
        OperationStaysHonest(s, e, i);
      } else {
        NewcomerIsHonest(e.store, e.transaction);
      }
    }
  }

  lemma {:induction false} EveryRunIsHonest(events: seq<Event>)
    ensures AllHonest(After(INITIAL, events))
  {
    if events != [] {
      hide Sound, AllHonest;
      EveryRunIsHonest(events[..|events| - 1]);
      EveryRunIsSound(events[..|events| - 1]);
      var before := After(INITIAL, events[..|events| - 1]);
      if Enabled(before, events[|events| - 1]) {
        StepKeepsHonest(before, events[|events| - 1]);
      }
    }
  }

  /** The SQL took effect, whatever its answer. */
  predicate Took(t: seq<Entry>, sql: Sql) {
    Answered(sql, Good) in t || Answered(sql, Lost) in t
  }

  lemma EnteredHas(t: seq<Entry>, e: Entry)
    requires Entered(true, t) && e in t
    ensures e.sql.Statement? || e == Sent(Begin) || e == Answered(Begin, Good)
  {
    var k :| 0 <= k < |t| && t[k] == e;
    if k >= 2 {
      assert t[2..][k - 2] == e;
    }
  }

  lemma InLastTwo(t: seq<Entry>, e: Entry)
    requires |t| >= 2
    ensures e in t <==> e in t[..|t| - 2] || e == t[|t| - 2] || e == t[|t| - 1]
  {
    assert t == t[..|t| - 2] + [t[|t| - 2]] + [t[|t| - 1]];
  }

  lemma NoCommitEntered(t: seq<Entry>, reply: Reply)
    requires Entered(true, t)
    ensures Answered(Commit, reply) !in t
  {
    if Answered(Commit, reply) in t {
      EnteredHas(t, Answered(Commit, reply));
    }
  }

  lemma AcknowledgedAnswers(t: seq<Entry>)
    requires Acknowledged(t)
    ensures Answered(Commit, Good) in t && Answered(Commit, Lost) !in t
  {
    hide Entered;
    assert t[|t| - 2] == t[|t| - 2..][0] && t[|t| - 1] == t[|t| - 2..][1];
    NoCommitEntered(t[..|t| - 2], Lost);
    InLastTwo(t, Answered(Commit, Lost));
  }

  lemma FailedCommitAnswers(t: seq<Entry>)
    requires CommitFailed(t)
    ensures Answered(Commit, Good) !in t
  {
    hide Entered;
    NoCommitEntered(t[..|t| - 2], Good);
    InLastTwo(t, Answered(Commit, Good));
  }

  lemma RolledBackAnswers(t: seq<Entry>)
    requires RolledBack(t)
    ensures Answered(Commit, Good) !in t && !Acknowledged(t)
  {
    hide Entered, CommitFailed;
    var u := t[..|t| - 2];
    if Entered(true, u) {
      NoCommitEntered(u, Good);
    } else {
      FailedCommitAnswers(u);
    }
    InLastTwo(t, Answered(Commit, Good));
    assert t[|t| - 2] == t[|t| - 2..][0];
  }

  lemma FailedBeginAnswers(t: seq<Entry>)
    requires BeginFailed(t) || t == []
    ensures Answered(Commit, Good) !in t && !Acknowledged(t)
  {
  }

  /** Which COMMIT answers a settled transaction's trace holds. */
  lemma CommitAnswers(o: Operation)
    requires Fits(o) && o.phase.Settled? && o.transaction
    ensures Answered(Commit, Good) in o.trace <==> Acknowledged(o.trace)
    ensures Acknowledged(o.trace) ==> Answered(Commit, Lost) !in o.trace
  {
    hide Acknowledged, RolledBack, BeginFailed;
    if Acknowledged(o.trace) {
      AcknowledgedAnswers(o.trace);
    } else if RolledBack(o.trace) {
      RolledBackAnswers(o.trace);
    } else {
      FailedBeginAnswers(o.trace);
    }
  }

  /**
   * What a caller that gets its transaction's outcome is told: success means that COMMIT took effect, and
   * failure that it did not, exactly unless a COMMIT took effect whose answer was an error or lost.
   */
  lemma CallersAreToldTheTruth(events: seq<Event>, i: nat)
    requires var ops := After(INITIAL, events).ops;
             i < |ops| && ops[i].transaction && ops[i].caller.Told?
    ensures var o := After(INITIAL, events).ops[i];
            && (o.caller.ok ==> Took(o.trace, Commit))
            && ((o.caller.ok <==> Took(o.trace, Commit)) <==> Answered(Commit, Lost) !in o.trace)
  {
    EveryRunIsHonest(events);
    EveryRunIsSound(events);
    FitsAt(After(INITIAL, events), i);
    var o := After(INITIAL, events).ops[i];
    assert Honest(o);
    CommitAnswers(o);
  }

  // ---- whether the connection is inside a transaction ----

  /** Whether a transaction is open after SQL has had its effects. */
  function Open(open: bool, t: seq<Entry>): bool
  {
    if t == [] then open
    else
      var before := Open(open, t[..|t| - 1]);
      match t[|t| - 1]
      case Answered(Begin, reply) => before || !reply.Bad?
      case Answered(Commit, reply) => before && reply.Bad?
      case Answered(Rollback, reply) => before && reply.Bad?
      case _ => before
  }

  lemma {:induction false} OpenConcat(open: bool, a: seq<Entry>, b: seq<Entry>)
    ensures Open(open, a + b) == Open(Open(open, a), b)
  {
    if b == [] {
      assert a + b == a;
    } else {
      OpenConcat(open, a, b[..|b| - 1]);
      assert (a + b)[..|a + b| - 1] == a + b[..|b| - 1];
    }
  }

  lemma {:induction false} StatementsKeepOpen(open: bool, t: seq<Entry>)
    requires OnlyStatements(t)
    ensures Open(open, t) == open
  {
    if t != [] {
      StatementsKeepOpen(open, t[..|t| - 1]);
    }
  }

  lemma OpenTwo(open: bool, sql: Sql, reply: Reply)
    ensures Open(open, [Sent(sql), Answered(sql, reply)]) ==
            if reply.Bad? then open
            else match sql case Begin => true case Commit => false case Rollback => false case Statement(_) => open
  {
    var t := [Sent(sql), Answered(sql, reply)];
    assert t[..1] == [Sent(sql)] && [Sent(sql)][..0] == [];
    assert Open(open, [Sent(sql)]) == open;
  }

  lemma EnteredIsOpen(t: seq<Entry>)
    requires Entered(true, t)
    ensures Open(false, t)
  {
    assert t == [Sent(Begin), Answered(Begin, Good)] + t[2..];
    OpenTwo(false, Begin, Good);
    OpenConcat(false, [Sent(Begin), Answered(Begin, Good)], t[2..]);
    StatementsKeepOpen(true, t[2..]);
  }

  /** The last SQL decides about what came before it. */
  lemma LastSql(t: seq<Entry>, sql: Sql, reply: Reply)
    requires |t| >= 2 && t[|t| - 2] == Sent(sql) && t[|t| - 1] == Answered(sql, reply) && !sql.Begin? && !sql.Statement?
    ensures Open(false, t) == (Open(false, t[..|t| - 2]) && reply.Bad?)
  {
    var u := t[..|t| - 2];
    assert t == u + [Sent(sql), Answered(sql, reply)];
    OpenTwo(Open(false, u), sql, reply);
    OpenConcat(false, u, [Sent(sql), Answered(sql, reply)]);
  }

  /** A BEGIN whose answer was lost, or a ROLLBACK that had no effect after no COMMIT had. */
  predicate Dirty(t: seq<Entry>) {
    Answered(Begin, Lost) in t || (Answered(Rollback, Bad) in t && !Took(t, Commit))
  }

  lemma EnteredIsClean(t: seq<Entry>, sql: Sql, reply: Reply)
    requires Entered(true, t) && !(sql == Begin && reply.Good?) && !sql.Statement?
    ensures Answered(sql, reply) !in t
  {
    if Answered(sql, reply) in t {
      EnteredHas(t, Answered(sql, reply));
    }
  }

  /** What a trace holds besides its last SQL. */
  lemma HeldBefore(t: seq<Entry>, sql: Sql, reply: Reply)
    requires |t| >= 2 && t[|t| - 2].Sent?
    ensures Answered(sql, reply) in t <==> Answered(sql, reply) in t[..|t| - 2] || t[|t| - 1] == Answered(sql, reply)
  {
    InLastTwo(t, Answered(sql, reply));
  }

  lemma AcknowledgedLeavesClosed(t: seq<Entry>)
    requires Acknowledged(t)
    ensures !Open(false, t) && !Dirty(t)
  {
    var u := t[..|t| - 2];
    assert t[|t| - 2] == t[|t| - 2..][0] && t[|t| - 1] == t[|t| - 2..][1];
    LastSql(t, Commit, Good);
    HeldBefore(t, Begin, Lost);
    EnteredIsClean(u, Begin, Lost);
    HeldBefore(t, Commit, Good);
  }

  lemma FailedCommitLeaves(t: seq<Entry>)
    requires CommitFailed(t)
    ensures Open(false, t) <==> !Took(t, Commit)
    ensures Answered(Begin, Lost) !in t && forall reply :: Answered(Rollback, reply) !in t
  {
    var u := t[..|t| - 2];
    EnteredIsOpen(u);
    LastSql(t, Commit, t[|t| - 1].reply);
    HeldBefore(t, Begin, Lost);
    EnteredIsClean(u, Begin, Lost);
    HeldBefore(t, Commit, Good);
    HeldBefore(t, Commit, Lost);
    EnteredIsClean(u, Commit, Good);
    EnteredIsClean(u, Commit, Lost);
    forall reply
      ensures Answered(Rollback, reply) !in t
    {
      HeldBefore(t, Rollback, reply);
      EnteredIsClean(u, Rollback, reply);
    }
  }

  lemma EnteredLeaves(t: seq<Entry>)
    requires Entered(true, t)
    ensures Open(false, t) && !Took(t, Commit)
    ensures Answered(Begin, Lost) !in t && forall reply :: Answered(Rollback, reply) !in t
  {
    EnteredIsOpen(t);
    EnteredIsClean(t, Begin, Lost);
    EnteredIsClean(t, Commit, Good);
    EnteredIsClean(t, Commit, Lost);
    forall reply
      ensures Answered(Rollback, reply) !in t
    {
      EnteredIsClean(t, Rollback, reply);
    }
  }

  lemma RolledBackLeaves(t: seq<Entry>)
    requires RolledBack(t)
    ensures Open(false, t) <==> Dirty(t)
  {
    var u := t[..|t| - 2];
    hide Open, Entered, CommitFailed;
    if Entered(true, u) {
      EnteredLeaves(u);
    } else {
      FailedCommitLeaves(u);
    }
    LastSql(t, Rollback, t[|t| - 1].reply);
    HeldBefore(t, Begin, Lost);
    HeldBefore(t, Commit, Good);
    HeldBefore(t, Commit, Lost);
    HeldBefore(t, Rollback, Bad);
  }

  lemma BodyLeavesClosed(t: seq<Entry>)
    requires OnlyStatements(t)
    ensures !Open(false, t) && !Dirty(t)
  {
    StatementsKeepOpen(false, t);
    assert forall sql: Sql, reply: Reply | !sql.Statement? :: Answered(sql, reply) !in t;
  }

  lemma FailedBeginLeaves(t: seq<Entry>)
    requires BeginFailed(t)
    ensures Open(false, t) <==> Dirty(t)
  {
    assert t == [Sent(Begin), Answered(Begin, t[1].reply)];
    OpenTwo(false, Begin, t[1].reply);
  }

  /** A settled operation that found no transaction open leaves one open exactly when it is dirty. */
  lemma LeavesOpenWhenDirty(o: Operation)
    requires Fits(o) && o.phase.Settled?
    ensures Open(false, o.trace) <==> Dirty(o.trace)
  {
    hide Open, Dirty, RolledBack, Acknowledged;
    var t := o.trace;
    if t == [] || !o.transaction {
      BodyLeavesClosed(t);
    } else if Acknowledged(t) {
      AcknowledgedLeavesClosed(t);
    } else if RolledBack(t) {
      RolledBackLeaves(t);
    } else {
      FailedBeginLeaves(t);
    }
  }

  lemma NothingIsOpen()
    ensures !Open(false, [])
  {
  }

  lemma {:induction false} CleanUpTo(ops: seq<Operation>)
    requires forall j | 0 <= j < |ops| :: Fits(ops[j]) && ops[j].phase.Settled? && !Dirty(ops[j].trace)
    ensures !Open(false, InCallOrder(ops))
  {
    hide Open, Dirty, Fits;
    if ops == [] {
      NothingIsOpen();
    } else {
      var k := |ops| - 1;
      CleanUpTo(ops[..k]);
      LeavesOpenWhenDirty(ops[k]);
      OpenConcat(false, InCallOrder(ops[..k]), ops[k].trace);
    }
  }

  /**
   * Operations do not run inside one another's transactions. In every run, after the first i operations
   * have settled, the first i - 1 of them clean, the connection is inside a transaction exactly when the
   * last of them was dirty.
   */
  lemma NextRunsOutsideTransaction(events: seq<Event>, i: nat)
    requires var ops := After(INITIAL, events).ops;
             && 0 < i <= |ops| && ops[i - 1].phase.Settled?
             && forall j | 0 <= j < i - 1 :: !Dirty(ops[j].trace)
    ensures var ops := After(INITIAL, events).ops;
            Open(false, InCallOrder(ops[..i])) <==> Dirty(ops[i - 1].trace)
  {
    EveryRunIsSound(events);
    var s := After(INITIAL, events);
    var ops := s.ops;
    EarlierSettled(s, i - 1);
    var before := ops[..i - 1];
    forall j | 0 <= j < |before|
      ensures Fits(before[j]) && before[j].phase.Settled?
    {
      FitsAt(s, j);
    }
    FitsAt(s, i - 1);
    hide Open, Dirty, Fits, Sound;
    CleanUpTo(before);
    LeavesOpenWhenDirty(ops[i - 1]);
    assert ops[..i][..i - 1] == before;
    OpenConcat(false, InCallOrder(before), ops[i - 1].trace);
  }

  lemma MovesKeepAnswer(o: Operation)
    requires !o.caller.Waits?
    ensures Begun(o).caller == Aborted(o).caller == o.caller
    ensures forall text :: Next(o, Statement(text)).caller == o.caller
    ensures o.phase.InFlight? ==> forall reply :: Replied(o, reply).caller == o.caller
    ensures forall ok :: Returned(o, ok).caller == o.caller
  {
  }

  lemma StepKeepsAnswer(s: State, e: Event, i: nat)
    requires Enabled(s, e) && i < |s.ops| && !s.ops[i].caller.Waits?
    ensures i < |Do(s, e).ops| && Do(s, e).ops[i].caller == s.ops[i].caller
  {
    MovesKeepAnswer(s.ops[i]);
    hide Begun, Next, Replied, Returned, Aborted;
  }

  /** What a caller has got stays what it got. */
  lemma {:induction false} CallerIsAnsweredOnce(s: State, more: seq<Event>, i: nat)
    requires i < |s.ops| && !s.ops[i].caller.Waits?
    ensures var after := After(s, more);
            i < |after.ops| && after.ops[i].caller == s.ops[i].caller
  {
    if more != [] {
      hide Do, Enabled;
      var earlier := more[..|more| - 1];
      CallerIsAnsweredOnce(s, earlier, i);
      if Enabled(After(s, earlier), more[|more| - 1]) {
        StepKeepsAnswer(After(s, earlier), more[|more| - 1], i);
      }
    }
  }

  lemma {:induction false} AfterAppended(s: State, events: seq<Event>, more: seq<Event>)
    ensures After(s, events + more) == After(After(s, events), more)
  {
    if more == [] {
      assert events + more == events;
    } else {
      AfterAppended(s, events, more[..|more| - 1]);
      assert (events + more)[..|events + more| - 1] == events + more[..|more| - 1];
    }
  }

  /**
   * An operation whose caller has gone keeps its slot: whatever happens next, no later operation
   * sends SQL before it has settled and all of its own SQL is complete.
   */
  lemma SlotOutlivesCaller(events: seq<Event>, more: seq<Event>, i: nat, j: nat)
    requires var ops := After(INITIAL, events).ops; i < |ops| && ops[i].caller.Abandoned?
    requires i < j < |After(INITIAL, events + more).ops|
    ensures var ops := After(INITIAL, events + more).ops;
            && ops[i].caller.Abandoned?
            && (ops[j].trace != [] ==> ops[i].phase.Settled? && Complete(ops[i].transaction, ops[i].trace))
  {
    var s := After(INITIAL, events);
    AfterAppended(INITIAL, events, more);
    CallerIsAnsweredOnce(s, more, i);
    EveryRunIsSound(events + more);
    FitsAt(After(s, more), i);
    FitsAt(After(s, more), j);
  }

  lemma Prefixes(run: seq<Event>)
    ensures run[..0] == [] && run[..|run|] == run
    ensures forall k | 0 <= k < |run| ::
              After(INITIAL, run[..k + 1]) ==
              var before := After(INITIAL, run[..k]); if Enabled(before, run[k]) then Do(before, run[k]) else before
  {
    forall k | 0 <= k < |run|
      ensures run[..k + 1][..k] == run[..k]
    {
    }
  }

  /** The first caller's signal fires while its BEGIN is in flight; the second operation cannot start. */
  const ABANDONED := [Call(0, true, false), Call(1, false, false), Start(0), Abort(0), Start(1)]

  lemma AbandonedHoldsTheSlot()
    ensures var s := After(INITIAL, ABANDONED);
            && |s.ops| == 2
            && s.ops[0].caller == Abandoned && s.ops[0].phase == InFlight(Begin) && s.log == [Sent(Begin)]
            && s.ops[1].phase == Waiting && !Enabled(s, Start(1))
  {
    Prefixes(ABANDONED);
    var call := Operation(0, true, Waiting, false, false, Waits, []);
    var other := Operation(1, false, Waiting, false, false, Waits, []);
    assert After(INITIAL, ABANDONED[..1]) == State([call], {}, []);
    assert After(INITIAL, ABANDONED[..2]) == State([call, other], {}, []);
    assert After(INITIAL, ABANDONED[..3]) == State([Next(call, Begin), other], {}, [Sent(Begin)]);
    assert After(INITIAL, ABANDONED[..4]) == State([Aborted(Next(call, Begin)), other], {}, [Sent(Begin)]);
  }

  // Runs of one operation alone.

  ghost predicate Alone(events: seq<Event>, o: Operation) {
    After(INITIAL, events).ops == [o]
  }

  /** What an event makes of the operation. */
  function Acted(o: Operation, e: Event): Operation
    requires e.Answer? ==> o.phase.InFlight?
  {
    match e
    case Start(_) => Begun(o)
    case Abort(_) => Aborted(o)
    case Answer(_, reply) => Replied(o, reply)
    case Return(_, ok) => Returned(o, ok)
    case _ => o
  }

  lemma ActAlone(events: seq<Event>, o: Operation, e: Event)
    requires Alone(events, o)
    requires match e
             case Start(op) => op == 0 && o.phase.Waiting?
             case Abort(op) => op == 0
             case Answer(op, _) => op == 0 && o.phase.InFlight?
             case Return(op, _) => op == 0 && o.phase.InBody?
             case _ => false
    ensures Alone(events + [e], Acted(o, e))
  {
    hide Begun, Replied, Returned, Aborted;
    assert (events + [e])[..|events|] == events;
  }

  /** A transaction whose body has returned, so that its COMMIT is in flight. */
  const COMMITTING := [Call(0, true, false)] + [Start(0)] + [Answer(0, Good)] + [Return(0, true)]

  const IN_COMMIT: Operation := Operation(0, true, InFlight(Commit), true, false, Waits,
                                          [Sent(Begin), Answered(Begin, Good), Sent(Commit)])

  lemma CommitInFlight()
    ensures Alone(COMMITTING, IN_COMMIT)
  {
    var call := Operation(0, true, Waiting, false, false, Waits, []);
    assert [Call(0, true, false)][..0] == [];
    assert Alone([Call(0, true, false)], call);
    hide Alone;
    ActAlone([Call(0, true, false)], call, Start(0));
    var begin := Next(call, Begin);
    ActAlone([Call(0, true, false)] + [Start(0)], begin, Answer(0, Good));
    var begun := Replied(begin, Good);
    ActAlone([Call(0, true, false)] + [Start(0)] + [Answer(0, Good)], begun, Return(0, true));
    assert Returned(begun, true) == IN_COMMIT;
  }

  /** The signal fires while COMMIT is in flight: the caller is told of the abort, the database commits. */
  lemma AbandonedMayCommit()
    ensures var s := After(INITIAL, COMMITTING + [Abort(0)] + [Answer(0, Good)]);
            |s.ops| == 1 && s.ops[0].caller == Abandoned && Acknowledged(s.ops[0].trace)
  {
    CommitInFlight();
    ActAlone(COMMITTING, IN_COMMIT, Abort(0));
    ActAlone(COMMITTING + [Abort(0)], Aborted(IN_COMMIT), Answer(0, Good));
    var t := Replied(Aborted(IN_COMMIT), Good).trace;
    assert t == [Sent(Begin), Answered(Begin, Good), Sent(Commit), Answered(Commit, Good)];
    assert t[2..] == [Sent(Commit), Answered(Commit, Good)] && t[..2] == [Sent(Begin), Answered(Begin, Good)];
  }

  /** COMMIT takes effect, its answer is lost, and nothing is left to roll back: the caller is told of a failure. */
  lemma FailureMayHaveCommitted()
    ensures var s := After(INITIAL, COMMITTING + [Answer(0, Lost)] + [Answer(0, Bad)]);
            |s.ops| == 1 && s.ops[0].caller == Told(false) && Took(s.ops[0].trace, Commit)
  {
    CommitInFlight();
    ActAlone(COMMITTING, IN_COMMIT, Answer(0, Lost));
    var failing := Replied(IN_COMMIT, Lost);
    ActAlone(COMMITTING + [Answer(0, Lost)], failing, Answer(0, Bad));
    assert failing.trace[3] == Answered(Commit, Lost) && Replied(failing, Bad).trace[3] == failing.trace[3];
  }

  // ---- progress ----

  lemma {:induction false} FirstUnsettled(ops: seq<Operation>) returns (i: nat)
    requires exists k | 0 <= k < |ops| :: !ops[k].phase.Settled?
    ensures i < |ops| && !ops[i].phase.Settled? && forall k | 0 <= k < i :: ops[k].phase.Settled?
  {
    var n := |ops| - 1;
    if k :| 0 <= k < n && !ops[k].phase.Settled? {
      assert ops[..n][k] == ops[k];
      i := FirstUnsettled(ops[..n]);
      assert forall k | 0 <= k < i :: ops[..n][k] == ops[k];
    } else {
      i := n;
    }
  }

  /** While an operation has not settled, the first such one can start, be answered or return. */
  lemma SomethingCanHappen(events: seq<Event>, reply: Reply, ok: bool) returns (e: Event)
    requires exists i | 0 <= i < |After(INITIAL, events).ops| :: !After(INITIAL, events).ops[i].phase.Settled?
    ensures Enabled(After(INITIAL, events), e)
    ensures e.Start? || (e.Answer? && e.reply == reply) || (e.Return? && e.ok == ok)
  {
    var s := After(INITIAL, events);
    var i := FirstUnsettled(s.ops);
    e := match s.ops[i].phase
         case Waiting => Start(i)
         case InFlight(_) => Answer(i, reply)
         case _ => Return(i, ok);
  }

  /** How many more starts, answers and returns an operation can have if its body sends nothing more. */
  function Ahead(p: Phase): nat {
    match p
    case Waiting => 6
    case InFlight(Begin) => 5
    case InFlight(Statement(_)) => 4
    case InBody => 3
    case InFlight(Commit) => 2
    case InFlight(Rollback) => 1
    case Settled => 0
  }

  function AllAhead(ops: seq<Operation>): nat
  {
    if ops == [] then 0 else AllAhead(ops[..|ops| - 1]) + Ahead(ops[|ops| - 1].phase)
  }

  lemma {:induction false} AheadAt(ops: seq<Operation>, op: nat, o: Operation)
    requires op < |ops|
    ensures AllAhead(ops[op := o]) + Ahead(ops[op].phase) == AllAhead(ops) + Ahead(o.phase)
  {
    hide Ahead;
    var k := |ops| - 1;
    if op == k {
      assert ops[op := o][..k] == ops[..k];
    } else {
      AheadAt(ops[..k], op, o);
      assert ops[op := o][..k] == ops[..k][op := o];
    }
  }

  /** Each of those steps brings the operations nearer to being settled, and each statement sent puts it off by one. */
  lemma StepsAreNearer(s: State, e: Event)
    requires Enabled(s, e) && (e.Start? || e.Answer? || e.Return? || e.Send?)
    ensures if e.Send? then AllAhead(Do(s, e).ops) == AllAhead(s.ops) + 1 else AllAhead(Do(s, e).ops) < AllAhead(s.ops)
  {
    hide AllAhead;
    AheadAt(s.ops, e.op, Do(s, e).ops[e.op]);
  }

  /** Once a store is closed and its operations have settled, it never causes SQL again. */
  ghost predicate Drained(s: State, store: nat) {
    store in s.closed && forall i | 0 <= i < |s.ops| && s.ops[i].store == store :: s.ops[i].phase.Settled?
  }

  ghost predicate Quiet(s: State, after: State, store: nat) {
    && Drained(after, store) && |s.ops| <= |after.ops|
    && (forall i | 0 <= i < |s.ops| :: after.ops[i].store == s.ops[i].store)
    && (forall i | 0 <= i < |s.ops| && s.ops[i].store == store :: after.ops[i].trace == s.ops[i].trace)
    && (forall i | |s.ops| <= i < |after.ops| :: after.ops[i].store != store)
  }

  lemma MovesKeepStore(o: Operation)
    ensures Begun(o).store == o.store
    ensures forall text :: Next(o, Statement(text)).store == o.store
    ensures o.phase.InFlight? ==> forall reply :: Replied(o, reply).store == o.store
    ensures forall ok :: Returned(o, ok).store == o.store
  {
  }

  lemma StepIsQuiet(s: State, e: Event, store: nat)
    requires Drained(s, store) && Enabled(s, e)
    ensures Quiet(s, Do(s, e), store)
  {
    if e.Start? || e.Send? || e.Answer? || e.Return? {
      MovesKeepStore(s.ops[e.op]);
      hide Begun, Next, Replied, Returned;
    }
  }

  lemma {:induction false} DrainedIsFinal(s: State, events: seq<Event>, store: nat)
    requires Drained(s, store)
    ensures Quiet(s, After(s, events), store)
  {
    if events != [] {
      DrainedIsFinal(s, events[..|events| - 1], store);
      var before := After(s, events[..|events| - 1]);
      if Enabled(before, events[|events| - 1]) {
        StepIsQuiet(before, events[|events| - 1], store);
      }
    }
  }
}
