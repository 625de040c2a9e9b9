/**
 * Operations on one connection in terms of the events of a run: which operations there are, which of
 * them have been aborted, what SQL each sends and why, and what its caller is told.
 */
module QueueFacts {
  import opened ConnectionQueue

  /** What an event makes of one operation. */
  ghost function Became(o: Operation, e: Event, i: nat): Operation
    requires match e
             case Answer(op, _) => op == i ==> o.phase.InFlight?
             case _ => true
  {
    match e
    case Call(_, _, _) => o
    case Abort(op) => if op == i then Aborted(o) else o
    case Close(store) => if o.store == store then Aborted(o) else o
    case Start(op) => if op == i then Begun(o) else o
    case Send(op, text) => if op == i then Next(o, Statement(text)) else o
    case Answer(op, reply) => if op == i then Replied(o, reply) else o
    case Return(op, ok) => if op == i then Returned(o, ok) else o
  }

  lemma StepOfOne(s: State, e: Event, i: nat)
    requires Enabled(s, e)
    ensures |s.ops| <= |Do(s, e).ops|
    ensures i < |s.ops| ==> Do(s, e).ops[i] == Became(s.ops[i], e, i)
    ensures |s.ops| <= i < |Do(s, e).ops| ==>
              i == |s.ops| && e.Call? && !e.signalled && e.store !in s.closed
              && Do(s, e).ops[i] == Operation(e.store, e.transaction, Waiting, false, false, Waits, [])
  {
    hide Begun, Replied, Returned, Aborted, Next;
  }

  /** The state a run is in before its k-th event. */
  ghost function Until(events: seq<Event>, k: nat): State
    requires k <= |events|
  {
    After(INITIAL, events[..k])
  }

  lemma Whole(events: seq<Event>)
    ensures Until(events, |events|) == After(INITIAL, events)
    ensures events != [] ==>
              var s := Until(events, |events| - 1);
              After(INITIAL, events) == if Enabled(s, events[|events| - 1]) then Do(s, events[|events| - 1]) else s
  {
    assert events[..|events|] == events;
  }

  lemma UntilPrefix(events: seq<Event>, n: nat, k: nat)
    requires k <= n <= |events|
    ensures Until(events[..n], k) == Until(events, k)
  {
    assert events[..n][..k] == events[..k];
  }

  // ---- which operations there are ----

  /** The calls that are not refused at once: without a fired signal, and to a store not closed before. */
  function AcceptedCalls(events: seq<Event>): seq<(nat, bool)>
  {
    if events == [] then []
    else
      var earlier := events[..|events| - 1];
      AcceptedCalls(earlier)
      + match events[|events| - 1]
        case Call(store, transaction, signalled) =>
          if signalled || Close(store) in earlier then [] else [(store, transaction)]
        case _ => []
  }

  lemma {:induction false} ClosedWhen(events: seq<Event>, store: nat)
    ensures store in After(INITIAL, events).closed <==> Close(store) in events
  {
    if events != [] {
      ClosedWhen(events[..|events| - 1], store);
      Whole(events);
      hide Begun, Replied, Returned, Aborted;
      assert Close(store) in events <==>
             Close(store) in events[..|events| - 1] || events[|events| - 1] == Close(store);
    }
  }

  lemma BecameKeeps(o: Operation, e: Event, i: nat)
    requires match e
             case Answer(op, _) => op == i ==> o.phase.InFlight?
             case _ => true
    ensures Became(o, e, i).store == o.store && Became(o, e, i).transaction == o.transaction
    ensures o.trace <= Became(o, e, i).trace
  {
  }

  lemma OnlyCallsAdd(s: State, e: Event)
    requires Enabled(s, e)
    ensures if e.Call? && !e.signalled && e.store !in s.closed
            then && |Do(s, e).ops| == |s.ops| + 1
                 && Do(s, e).ops[|s.ops|].store == e.store && Do(s, e).ops[|s.ops|].transaction == e.transaction
            else |Do(s, e).ops| == |s.ops|
  {
    hide Begun, Replied, Returned, Aborted;
  }

  /** There is one operation for each accepted call, in the order of the calls. */
  lemma {:induction false} OperationsAreCalls(events: seq<Event>)
    ensures var ops, calls := After(INITIAL, events).ops, AcceptedCalls(events);
            |ops| == |calls| && forall i | 0 <= i < |ops| :: (ops[i].store, ops[i].transaction) == calls[i]
  {
    if events != [] {
      var n := |events| - 1;
      OperationsAreCalls(events[..n]);
      Whole(events);
      var s, e := Until(events, n), events[n];
      if e.Call? {
        ClosedWhen(events[..n], e.store);
      }
      hide Until, Begun, Replied, Returned, Aborted, Became;
      if Enabled(s, e) {
        forall i: nat | i < |s.ops|
          ensures var o := Do(s, e).ops[i]; o.store == s.ops[i].store && o.transaction == s.ops[i].transaction
        {
          StepOfOne(s, e, i);
          BecameKeeps(s.ops[i], e, i);
        }
        OnlyCallsAdd(s, e);
      }
    }
  }

  // ---- which have been aborted ----

  /** Its own signal fired, or its store was closed, once it had been called. */
  ghost predicate AbortsAt(events: seq<Event>, k: nat, i: nat)
    requires k < |events|
  {
    var s := Until(events, k);
    i < |s.ops| && (events[k] == Abort(i) || events[k] == Close(s.ops[i].store))
  }

  lemma BecameAborted(o: Operation, e: Event, i: nat)
    requires match e
             case Answer(op, _) => op == i ==> o.phase.InFlight?
             case _ => true
    ensures Became(o, e, i).aborted <==> o.aborted || e == Abort(i) || e == Close(o.store)
  {
  }

  /** An operation counts as aborted exactly when its signal fired or its store was closed. */
  lemma {:induction false} AbortedExactlyWhen(events: seq<Event>, i: nat)
    ensures var ops := After(INITIAL, events).ops;
            i < |ops| && ops[i].aborted <==> exists k | 0 <= k < |events| :: AbortsAt(events, k, i)
  {
    if events != [] {
      var n := |events| - 1;
      AbortedExactlyWhen(events[..n], i);
      Whole(events);
      forall k | 0 <= k < n
        ensures AbortsAt(events[..n], k, i) == AbortsAt(events, k, i)
      {
        UntilPrefix(events, n, k);
      }
      var s, e := Until(events, n), events[n];
      if Enabled(s, e) {
        StepOfOne(s, e, i);
        if i < |s.ops| {
          BecameAborted(s.ops[i], e, i);
        }
      }
      hide Until, Became;
      assert AbortsAt(events, n, i) || !AbortsAt(events, n, i);
    }
  }

  // ---- what is sent, and why ----

  /**
   * The events that make an operation send a piece of SQL: BEGIN when its turn comes, a statement when its
   * body asks for it, COMMIT when its body has returned well, all of them only without an abort; ROLLBACK
   * when the body failed, when an abort was seen after BEGIN or after the body, and when COMMIT failed.
   */
  ghost predicate Prompts(o: Operation, e: Event, i: nat, sql: Sql) {
    match sql
    case Begin => e == Start(i) && o.transaction && !o.aborted
    case Statement(text) => e == Send(i, text)
    case Commit => e == Return(i, true) && o.transaction && !o.aborted
    case Rollback =>
      && o.transaction
      && (|| e == Return(i, false)
          || (e == Return(i, true) && o.aborted)
          || (e == Answer(i, Good) && o.phase == InFlight(Begin) && o.aborted)
          || (o.phase == InFlight(Commit) && (e == Answer(i, Bad) || e == Answer(i, Lost))))
  }

  ghost predicate PromptsAt(events: seq<Event>, k: nat, i: nat, sql: Sql)
    requires k < |events|
  {
    var s := Until(events, k);
    i < |s.ops| && Enabled(s, events[k]) && Prompts(s.ops[i], events[k], i, sql)
  }

  lemma SentNext(t: seq<Entry>, e: Entry, sql: Sql)
    ensures Sent(sql) in t + [e] <==> Sent(sql) in t || e == Sent(sql)
  {
  }

  /** Whether a transaction was begun, by where the operation is. */
  ghost predicate KnowsItsTransaction(o: Operation) {
    match o.phase
    case InBody => o.began == o.transaction
    case InFlight(Begin) => o.transaction && !o.began
    case InFlight(Commit) => o.transaction && o.began
    case _ => true
  }

  lemma FittingKnows(o: Operation)
    requires Fits(o)
    ensures KnowsItsTransaction(o)
  {
  }

  lemma AnswerSends(o: Operation, reply: Reply, sql: Sql)
    requires o.phase.InFlight? && KnowsItsTransaction(o)
    ensures Sent(sql) in Replied(o, reply).trace
            <==> || Sent(sql) in o.trace
                 || (sql == Rollback && ((o.phase.sql == Begin && reply.Good? && o.aborted)
                     || (o.phase.sql == Commit && !reply.Good?)))
  {
    SentNext(o.trace, Answered(o.phase.sql, reply), sql);
    SentNext(o.trace + [Answered(o.phase.sql, reply)], Sent(Rollback), sql);
  }

  lemma TransactionInFlight(o: Operation)
    requires KnowsItsTransaction(o)
    ensures o.phase == InFlight(Begin) || o.phase == InFlight(Commit) ==> o.transaction
  {
  }

  lemma BecameSends(s: State, e: Event, i: nat, sql: Sql)
    requires Enabled(s, e) && i < |s.ops| && KnowsItsTransaction(s.ops[i])
    ensures Sent(sql) in Became(s.ops[i], e, i).trace
            <==> Sent(sql) in s.ops[i].trace || Prompts(s.ops[i], e, i, sql)
  {
    hide Replied;
    if e.Answer? && e.op == i {
      AnswerSends(s.ops[i], e.reply, sql);
      TransactionInFlight(s.ops[i]);
    }
  }

  /** What the last event of a run adds to what an operation has sent. */
  lemma LastSends(events: seq<Event>, i: nat, sql: Sql)
    requires events != []
    ensures var before, after := Until(events, |events| - 1).ops, After(INITIAL, events).ops;
            i < |after| && Sent(sql) in after[i].trace
            <==> (i < |before| && Sent(sql) in before[i].trace) || PromptsAt(events, |events| - 1, i, sql)
  {
    hide Fits, Became, Prompts, Do, Sound, KnowsItsTransaction;
    var n := |events| - 1;
    Whole(events);
    EveryRunIsSound(events[..n]);
    var s, e := Until(events, n), events[n];
    if Enabled(s, e) {
      StepOfOne(s, e, i);
      if i < |s.ops| {
        FitsAt(s, i);
        FittingKnows(s.ops[i]);
        BecameSends(s, e, i, sql);
      }
    }
  }

  /** In every run an operation has sent a piece of SQL exactly when something prompted it. */
  lemma {:induction false} SentExactlyWhen(events: seq<Event>, i: nat, sql: Sql)
    ensures var ops := After(INITIAL, events).ops;
            i < |ops| && Sent(sql) in ops[i].trace <==> exists k | 0 <= k < |events| :: PromptsAt(events, k, i, sql)
  {
    hide Prompts, Enabled, Do;
    if events != [] {
      var n := |events| - 1;
      SentExactlyWhen(events[..n], i, sql);
      forall k | 0 <= k < n
        ensures PromptsAt(events[..n], k, i, sql) == PromptsAt(events, k, i, sql)
      {
        UntilPrefix(events, n, k);
      }
      LastSends(events, i, sql);
      assert PromptsAt(events, n, i, sql) || !PromptsAt(events, n, i, sql);
    }
  }

  /** All that is sent from a point of the trace on is ROLLBACK. */
  ghost predicate OnlyRollback(t: seq<Entry>, from: nat) {
    from <= |t| && forall k | from <= k < |t| && t[k].Sent? :: t[k].sql == Rollback
  }

  lemma BecameAfterAbort(s: State, e: Event, i: nat)
    requires Enabled(s, e) && i < |s.ops| && s.ops[i].aborted
    ensures Became(s.ops[i], e, i).aborted
    ensures OnlyRollback(Became(s.ops[i], e, i).trace, |s.ops[i].trace|)
    ensures s.ops[i].phase.Waiting? || s.ops[i].phase.Settled? ==>
              Became(s.ops[i], e, i).trace == s.ops[i].trace
              && (Became(s.ops[i], e, i).phase.Waiting? || Became(s.ops[i], e, i).phase.Settled?)
  {
  }

  lemma StillEnabled(s: State, e: Event, i: nat)
    requires Enabled(s, e) && i < |s.ops|
    ensures match e
            case Answer(op, _) => op == i ==> s.ops[i].phase.InFlight?
            case _ => true
  {
  }

  lemma NoCommitAfter(t: seq<Entry>, u: seq<Entry>)
    requires t <= u && OnlyRollback(u, |t|)
    ensures Sent(Commit) in u ==> Sent(Commit) in t
  {
    if Sent(Commit) in u {
      var k :| 0 <= k < |u| && u[k] == Sent(Commit);
      assert k < |t| && t[k] == Sent(Commit);
    }
  }

  /**
   * Once an operation has been aborted it sends nothing but ROLLBACK, whatever happens next; in
   * particular no COMMIT that was not sent before. One that had not started never sends anything.
   */
  lemma {:induction false} OnlyRollbackAfterAbort(s: State, more: seq<Event>, i: nat)
    requires i < |s.ops| && s.ops[i].aborted
    ensures var ops := After(s, more).ops;
            && i < |ops| && ops[i].aborted && s.ops[i].trace <= ops[i].trace
            && OnlyRollback(ops[i].trace, |s.ops[i].trace|)
            && (Sent(Commit) in ops[i].trace ==> Sent(Commit) in s.ops[i].trace)
            && (s.ops[i].phase.Waiting? || s.ops[i].phase.Settled? ==>
                ops[i].trace == s.ops[i].trace && (ops[i].phase.Waiting? || ops[i].phase.Settled?))
  {
    if more != [] {
      var n := |more| - 1;
      OnlyRollbackAfterAbort(s, more[..n], i);
      var before := After(s, more[..n]);
      hide Fits, Became, Do, Enabled;
      if Enabled(before, more[n]) {
        StepOfOne(before, more[n], i);
        StillEnabled(before, more[n], i);
        BecameAfterAbort(before, more[n], i);
        BecameKeeps(before.ops[i], more[n], i);
      }
      NoCommitAfter(s.ops[i].trace, After(s, more).ops[i].trace);
    }
  }

  // ---- what the caller is told ----

  /** The race between an operation and its signal, and what it means to have won. */
  ghost predicate Fair(o: Operation) {
    && (o.caller.Waits? <==> !o.aborted && !o.phase.Settled?)
    && (o.caller.Abandoned? ==> o.aborted)
    && (o.caller.Told? ==> o.phase.Settled?)
  }

  lemma BecameFair(s: State, e: Event, i: nat)
    requires Enabled(s, e) && i < |s.ops| && Fair(s.ops[i])
    ensures Fair(Became(s.ops[i], e, i))
  {
  }

  /** A caller waits exactly as long as its operation has neither been aborted nor settled. */
  lemma {:induction false} TheFirstAnswers(events: seq<Event>, i: nat)
    requires i < |After(INITIAL, events).ops|
    ensures Fair(After(INITIAL, events).ops[i])
  {
    if events != [] {
      var n := |events| - 1;
      Whole(events);
      var s, e := Until(events, n), events[n];
      if Enabled(s, e) {
        StepOfOne(s, e, i);
      }
      if i < |s.ops| {
        TheFirstAnswers(events[..n], i);
        if Enabled(s, e) {
          BecameFair(s, e, i);
        }
      }
    }
  }

  /** How a body ended. */
  ghost predicate ReturnsAt(events: seq<Event>, k: nat, i: nat, ok: bool)
    requires k < |events|
  {
    var s := Until(events, k);
    events[k] == Return(i, ok) && Enabled(s, events[k])
  }

  ghost predicate Reported(events: seq<Event>, i: nat, o: Operation) {
    o.caller.Told? ==>
      if o.caller.ok then exists k | 0 <= k < |events| :: ReturnsAt(events, k, i, true)
      else o.transaction || exists k | 0 <= k < |events| :: ReturnsAt(events, k, i, false)
  }

  lemma ReportedLater(events: seq<Event>, i: nat, o: Operation)
    requires events != [] && Reported(events[..|events| - 1], i, o)
    ensures Reported(events, i, o)
  {
    var n := |events| - 1;
    forall k | 0 <= k < n
      ensures ReturnsAt(events[..n], k, i, true) == ReturnsAt(events, k, i, true)
      ensures ReturnsAt(events[..n], k, i, false) == ReturnsAt(events, k, i, false)
    {
      UntilPrefix(events, n, k);
    }
  }

  /** An operation whose COMMIT is in flight got there by a body that returned well. */
  lemma CommitAfterReturn(events: seq<Event>, i: nat)
    requires i < |After(INITIAL, events).ops| && Sent(Commit) in After(INITIAL, events).ops[i].trace
    ensures exists k | 0 <= k < |events| :: ReturnsAt(events, k, i, true)
  {
    SentExactlyWhen(events, i, Commit);
    var k :| 0 <= k < |events| && PromptsAt(events, k, i, Commit);
    assert ReturnsAt(events, k, i, true);
  }

  lemma BecameTold(s: State, e: Event, i: nat)
    requires Enabled(s, e) && i < |s.ops| && Fits(s.ops[i]) && Fair(s.ops[i])
    requires !s.ops[i].caller.Told? && Became(s.ops[i], e, i).caller.Told?
    ensures var told := Became(s.ops[i], e, i).caller.ok;
            && (told ==> (e == Return(i, true) || Sent(Commit) in s.ops[i].trace))
            && (!told ==> s.ops[i].transaction || e == Return(i, false))
  {
  }

  lemma StaysTold(s: State, e: Event, i: nat)
    requires Enabled(s, e) && i < |s.ops| && s.ops[i].caller.Told?
    ensures Became(s.ops[i], e, i).caller == s.ops[i].caller
  {
  }

  lemma ToldNow(events: seq<Event>, i: nat)
    requires events != [] && Enabled(Until(events, |events| - 1), events[|events| - 1])
    requires i < |Until(events, |events| - 1).ops|
    requires Reported(events, i, Until(events, |events| - 1).ops[i])
    ensures Reported(events, i, Became(Until(events, |events| - 1).ops[i], events[|events| - 1], i))
  {
    var n := |events| - 1;
    var s, e := Until(events, n), events[n];
    var o := s.ops[i];
    EveryRunIsSound(events[..n]);
    FitsAt(s, i);
    TheFirstAnswers(events[..n], i);
    BecameKeeps(o, e, i);
    if o.caller.Told? {
      StaysTold(s, e, i);
    } else if Became(o, e, i).caller.Told? {
      BecameTold(s, e, i);
      if Sent(Commit) in o.trace {
        CommitAfterReturn(events[..n], i);
        var k :| 0 <= k < n && ReturnsAt(events[..n], k, i, true);
        UntilPrefix(events, n, k);
        assert ReturnsAt(events, k, i, true);
      }
      assert e == Return(i, true) ==> ReturnsAt(events, n, i, true);
      assert e == Return(i, false) ==> ReturnsAt(events, n, i, false);
    }
  }

  /**
   * A caller is told of success only if the body returned well; one whose operation is no transaction is
   * told of failure only if the body failed.
   */
  lemma {:induction false} CallersHearOfTheBody(events: seq<Event>, i: nat)
    requires i < |After(INITIAL, events).ops|
    ensures Reported(events, i, After(INITIAL, events).ops[i])
  {
    if events != [] {
      var n := |events| - 1;
      Whole(events);
      var s, e := Until(events, n), events[n];
      if Enabled(s, e) {
        StepOfOne(s, e, i);
      }
      if i < |s.ops| {
        CallersHearOfTheBody(events[..n], i);
        ReportedLater(events, i, s.ops[i]);
        if Enabled(s, e) {
          ToldNow(events, i);
        }
      }
    }
  }
}
