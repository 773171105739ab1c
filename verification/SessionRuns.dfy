/**
  Every interleaving of Charge and CloseSession calls on one session
  (server/paymentsession.go). CloseSession drops the lock around the settle call, so one
  call is several events; a trace is any order of events of any number of calls, with any
  outcomes.
*/
module SessionRuns {
  import opened Wrappers
  import opened Amounts
  import opened Credentials
  import opened SessionCap
  import opened PaymentSessions

  /** Where one CloseSession call is; `snap` is what it will settle, `at` when it took that. */
  datatype Closer =
    | Looking(snap: Amount, at: nat)
    | Aborting(snap: Amount, at: nat)
    | Calling(snap: Amount, at: nat)
    | Answering(snap: Amount, at: nat, outcome: SettleOutcome)
    | Returned

  datatype Event =
    | Charged(cost: Amount, ok: bool)
    | NoOp(id: nat)
    | Began(id: nat, amount: Amount)
    | LookupFailed(id: nat)
    | Aborted(id: nat)
    | Reached(id: nat, amount: Amount)
    | Answered(id: nat, outcome: SettleOutcome)
    | Finished(id: nat, amount: Amount, err: Option<CloseError>)

  datatype System = System(s: State, closers: map<nat, Closer>)

  type Trace = seq<Event>

  /** One event in a system whose trace so far has length `now`; None when it cannot happen. */
  function Step(sys: System, e: Event, now: nat): Option<System> {
    var s, cs := sys.s, sys.closers;
    match e
    case Charged(cost, ok) =>
      if ok == ChargeAccepted(s, cost) then Some(System(AfterCharge(s, cost), cs)) else None
    case NoOp(id) =>
      if id !in cs && CloseIsNoOp(s) then Some(System(s, cs[id := Returned])) else None
    case Began(id, amount) =>
      if id !in cs && !CloseIsNoOp(s) && amount == s.spent
      then Some(System(AfterBegin(s), cs[id := Looking(s.spent, now)])) else None
    case LookupFailed(id) =>
      if id in cs && cs[id].Looking? then Some(System(s, cs[id := Aborting(cs[id].snap, cs[id].at)])) else None
    case Aborted(id) =>
      if id in cs && cs[id].Aborting? then Some(System(AfterAbort(s), cs[id := Returned])) else None
    case Reached(id, amount) =>
      if id in cs && cs[id].Looking? && amount == cs[id].snap
      then Some(System(s, cs[id := Calling(cs[id].snap, cs[id].at)])) else None
    case Answered(id, outcome) =>
      if id in cs && cs[id].Calling?
      then Some(System(s, cs[id := Answering(cs[id].snap, cs[id].at, outcome)])) else None
    case Finished(id, amount, err) =>
      if id in cs && cs[id].Answering? && amount == cs[id].snap && err == FinishError(cs[id].snap, cs[id].outcome)
      then Some(System(AfterFinish(s, cs[id].outcome), cs[id := Returned])) else None
  }

  /** The system a trace leads to from a newly opened session; None when it is not a run. */
  function Run(init: State, trace: Trace): Option<System> {
    if trace == [] then Some(System(init, map[]))
    else
      var n := |trace| - 1;
      var before := Run(init, trace[..n]);
      if before.None? then None else Step(before.value, trace[n], n)
  }

  predicate Fresh(s: State) {
    s.spent == 0 && !s.settled && !s.settling && s.result == None
  }

  lemma OpenedIsFresh(protocol: Protocol, c: Credential, sctx: SettlementContext)
    ensures Fresh(Opened(protocol, c, sctx))
  {
  }

  /* ----- what a trace records ---------------------------------------------------- */

  /** The sum of the accepted charges. */
  function Accepted(trace: Trace): Amount {
    if trace == [] then 0
    else
      var n := |trace| - 1;
      Accepted(trace[..n]) + if trace[n].Charged? && trace[n].ok then trace[n].cost else 0
  }

  /** How often Settle was reached. */
  function Reaches(trace: Trace): nat {
    if trace == [] then 0
    else
      var n := |trace| - 1;
      Reaches(trace[..n]) + if trace[n].Reached? then 1 else 0
  }

  predicate IsCleanAnswer(e: Event) {
    e.Answered? && e.outcome.SettleAnswered?
  }

  /* ----- the invariant ------------------------------------------------------------ */

  predicate Active(sys: System, id: nat) {
    id in sys.closers && !sys.closers[id].Returned?
  }

  predicate InSettle(sys: System, id: nat) {
    id in sys.closers && (sys.closers[id].Calling? || sys.closers[id].Answering?)
  }

  ghost predicate Flags(sys: System) {
    && (sys.s.settling <==> exists id :: Active(sys, id))
    && (forall i, j :: Active(sys, i) && Active(sys, j) ==> i == j)
    && !(sys.s.settled && sys.s.settling)
    && (sys.s.result.Some? ==> sys.s.settled)
  }

  ghost predicate Ledger(init: State, trace: Trace, sys: System) {
    && sys.s == sys.s.(requiresClose := init.requiresClose, cap := init.cap, capUnlimited := init.capUnlimited)
    && sys.s.spent == Accepted(trace)
    && (sys.s.capUnlimited || sys.s.spent <= sys.s.cap)
  }

  /** Each active close settles the sum accepted before the event at which it began. */
  ghost predicate Snapshots(trace: Trace, sys: System) {
    forall id :: Active(sys, id) ==> IsSnapshot(trace, id, sys.closers[id].snap, sys.closers[id].at)
  }

  ghost predicate IsSnapshot(trace: Trace, id: nat, amount: Amount, at: nat) {
    at < |trace| && trace[at] == Began(id, amount) && amount == Accepted(trace[..at])
  }

  /** Every amount that reached Settle is covered by the total, and by any snapshot taken since. */
  ghost predicate CoveredSoFar(trace: Trace, sys: System) {
    forall k :: 0 <= k < |trace| && trace[k].Reached? ==>
      && trace[k].amount <= sys.s.spent
      && forall id :: Active(sys, id) ==> trace[k].amount <= sys.closers[id].snap
  }

  predicate AnsweredCleanly(sys: System, id: nat) {
    id in sys.closers && sys.closers[id].Answering? && sys.closers[id].outcome.SettleAnswered?
  }

  /** A one-shot session has reached Settle once if it is settled or settling, else never. */
  ghost predicate ReachesOnce(trace: Trace, sys: System) {
    !sys.s.requiresClose ==> Reaches(trace) == if sys.s.settled || exists id :: InSettle(sys, id) then 1 else 0
  }

  /** An error-free answer has settled the session, or is about to. */
  ghost predicate CleanIsKept(trace: Trace, sys: System) {
    (exists k :: 0 <= k < |trace| && IsCleanAnswer(trace[k])) ==> sys.s.settled || exists id :: AnsweredCleanly(sys, id)
  }

  ghost predicate Answers(trace: Trace, sys: System) {
    ReachesOnce(trace, sys) && CleanIsKept(trace, sys)
  }

  ghost predicate Inv(init: State, trace: Trace, sys: System) {
    Flags(sys) && Ledger(init, trace, sys) && Snapshots(trace, sys) && CoveredSoFar(trace, sys) && Answers(trace, sys)
  }

  lemma {:induction false} Invariant(init: State, trace: Trace)
    requires Fresh(init) && Run(init, trace).Some?
    ensures Inv(init, trace, Run(init, trace).value)
  {
    if trace != [] {
      var n := |trace| - 1;
      Invariant(init, trace[..n]);
      StepKeeps(init, trace[..n], Run(init, trace[..n]).value, trace[n]);
      assert trace == trace[..n] + [trace[n]];
    }
  }

  lemma StepKeeps(init: State, trace: Trace, sys: System, e: Event)
    requires Inv(init, trace, sys) && Step(sys, e, |trace|).Some?
    ensures Inv(init, trace + [e], Step(sys, e, |trace|).value)
  {
    var next := Step(sys, e, |trace|).value;
    StepFlags(sys, e, |trace|);
    StepLedger(init, trace, sys, e);
    StepSnapshots(trace, sys, e);
    StepReached(trace, sys, e);
    StepAnswers(trace, sys, e);
  }

  lemma StepFlags(sys: System, e: Event, now: nat)
    requires Flags(sys) && Step(sys, e, now).Some?
    ensures Flags(Step(sys, e, now).value)
  {
    var next := Step(sys, e, now).value;
    if !e.Charged? {
      assert forall id :: id != e.id ==> (Active(next, id) <==> Active(sys, id));
      assert Active(next, e.id) || !Active(next, e.id);
      assert Active(sys, e.id) || !Active(sys, e.id);
    } else {
      assert forall id :: Active(next, id) <==> Active(sys, id);
    }
  }

  lemma StepLedger(init: State, trace: Trace, sys: System, e: Event)
    requires Ledger(init, trace, sys) && Step(sys, e, |trace|).Some?
    ensures Ledger(init, trace + [e], Step(sys, e, |trace|).value)
  {
    assert (trace + [e])[..|trace|] == trace;
  }

  lemma StepSnapshots(trace: Trace, sys: System, e: Event)
    requires Snapshots(trace, sys) && sys.s.spent == Accepted(trace) && Step(sys, e, |trace|).Some?
    ensures Snapshots(trace + [e], Step(sys, e, |trace|).value)
  {
    var t, next := trace + [e], Step(sys, e, |trace|).value;
    assert t[..|trace|] == trace;
    forall id | Active(next, id) ensures IsSnapshot(t, id, next.closers[id].snap, next.closers[id].at) {
      StepCloser(sys, e, |trace|, id);
      if Active(sys, id) {
        SnapshotKept(trace, e, id, sys.closers[id].snap, sys.closers[id].at);
      }
    }
  }

  /** An active close either was active before, with the same snapshot, or has just begun. */
  lemma StepCloser(sys: System, e: Event, now: nat, id: nat)
    requires Step(sys, e, now).Some? && Active(Step(sys, e, now).value, id)
    ensures var c := Step(sys, e, now).value.closers[id];
      if Active(sys, id) then c.snap == sys.closers[id].snap && c.at == sys.closers[id].at
      else e == Began(id, sys.s.spent) && c.snap == sys.s.spent && c.at == now
  {
  }

  lemma SnapshotKept(trace: Trace, e: Event, id: nat, amount: Amount, at: nat)
    requires IsSnapshot(trace, id, amount, at)
    ensures IsSnapshot(trace + [e], id, amount, at)
  {
    assert (trace + [e])[..at] == trace[..at];
  }

  lemma StepReached(trace: Trace, sys: System, e: Event)
    requires Flags(sys) && Snapshots(trace, sys) && CoveredSoFar(trace, sys) && sys.s.spent == Accepted(trace)
    requires Step(sys, e, |trace|).Some?
    ensures CoveredSoFar(trace + [e], Step(sys, e, |trace|).value)
  {
    var t, next := trace + [e], Step(sys, e, |trace|).value;
    forall k | 0 <= k < |t| && t[k].Reached?
      ensures t[k].amount <= next.s.spent && forall id :: Active(next, id) ==> t[k].amount <= next.closers[id].snap
    {
      if k < |trace| {
        assert t[k] == trace[k];
        OldReachCovered(trace, sys, e, k);
      } else {
        NewReachCovered(trace, sys, e);
      }
    }
  }

  lemma OldReachCovered(trace: Trace, sys: System, e: Event, k: nat)
    requires CoveredSoFar(trace, sys) && Step(sys, e, |trace|).Some?
    requires k < |trace| && trace[k].Reached?
    ensures var next := Step(sys, e, |trace|).value;
      trace[k].amount <= next.s.spent && forall id :: Active(next, id) ==> trace[k].amount <= next.closers[id].snap
  {
    var next := Step(sys, e, |trace|).value;
    forall id | Active(next, id) ensures trace[k].amount <= next.closers[id].snap {
      StepCloser(sys, e, |trace|, id);
    }
  }

  lemma NewReachCovered(trace: Trace, sys: System, e: Event)
    requires Flags(sys) && Snapshots(trace, sys) && sys.s.spent == Accepted(trace)
    requires Step(sys, e, |trace|).Some? && e.Reached?
    ensures var next := Step(sys, e, |trace|).value;
      e.amount <= next.s.spent && forall id :: Active(next, id) ==> e.amount <= next.closers[id].snap
  {
    var next := Step(sys, e, |trace|).value;
    assert Active(sys, e.id) && IsSnapshot(trace, e.id, e.amount, sys.closers[e.id].at);
    AcceptedGrows(trace, sys.closers[e.id].at);
    forall id | Active(next, id) ensures e.amount <= next.closers[id].snap {
      StepCloser(sys, e, |trace|, id);
    }
  }

  lemma {:induction false} AcceptedGrows(trace: Trace, k: nat)
    requires k <= |trace|
    ensures Accepted(trace[..k]) <= Accepted(trace)
  {
    if k == |trace| {
      assert trace[..k] == trace;
    } else {
      var n := |trace| - 1;
      AcceptedGrows(trace[..n], k);
      assert trace[..n][..k] == trace[..k];
    }
  }

  /** What an event does to the places of the calls: only its own call moves. */
  lemma OthersStay(sys: System, e: Event, now: nat, id: nat)
    requires Step(sys, e, now).Some? && (e.Charged? || e.id != id)
    ensures id in Step(sys, e, now).value.closers <==> id in sys.closers
    ensures id in sys.closers ==> Step(sys, e, now).value.closers[id] == sys.closers[id]
  {
  }

  lemma StepAnswers(trace: Trace, sys: System, e: Event)
    requires Flags(sys) && Answers(trace, sys) && Step(sys, e, |trace|).Some?
    ensures Answers(trace + [e], Step(sys, e, |trace|).value)
  {
    var t, next := trace + [e], Step(sys, e, |trace|).value;
    assert t[..|trace|] == trace;
    forall id | e.Charged? || e.id != id
      ensures InSettle(next, id) <==> InSettle(sys, id)
      ensures AnsweredCleanly(next, id) <==> AnsweredCleanly(sys, id)
    {
      OthersStay(sys, e, |trace|, id);
    }
    StepReaches(trace, sys, e);
    StepClean(trace, sys, e);
  }

  /** Settle is reached by the one active call, and left only when it finishes. */
  lemma StepReaches(trace: Trace, sys: System, e: Event)
    requires Flags(sys) && Answers(trace, sys) && Step(sys, e, |trace|).Some?
    requires forall id :: (e.Charged? || e.id != id) ==>
      (InSettle(Step(sys, e, |trace|).value, id) <==> InSettle(sys, id))
    ensures ReachesOnce(trace + [e], Step(sys, e, |trace|).value)
  {
    var t, next := trace + [e], Step(sys, e, |trace|).value;
    assert t[..|trace|] == trace;
    assert forall id :: InSettle(sys, id) ==> Active(sys, id);
    if e.Charged? {
      assert (exists id :: InSettle(next, id)) <==> (exists id :: InSettle(sys, id));
    } else {
      assert e.Reached? ==> Active(sys, e.id) && InSettle(next, e.id);
      assert e.Answered? ==> InSettle(sys, e.id) && InSettle(next, e.id);
      assert e.Finished? ==> InSettle(sys, e.id) && !InSettle(next, e.id);
      assert !e.Reached? && !e.Answered? && !e.Finished? ==> !InSettle(next, e.id) && !InSettle(sys, e.id);
    }
  }

  lemma StepClean(trace: Trace, sys: System, e: Event)
    requires Flags(sys) && Answers(trace, sys) && Step(sys, e, |trace|).Some?
    requires forall id :: (e.Charged? || e.id != id) ==>
      (AnsweredCleanly(Step(sys, e, |trace|).value, id) <==> AnsweredCleanly(sys, id))
    ensures CleanIsKept(trace + [e], Step(sys, e, |trace|).value)
  {
    var t, next := trace + [e], Step(sys, e, |trace|).value;
    if k :| 0 <= k < |t| && IsCleanAnswer(t[k]) {
      if k < |trace| {
        assert IsCleanAnswer(trace[k]);
        if !sys.s.settled {
          var id :| AnsweredCleanly(sys, id);
          assert Active(sys, id);
          if e.Charged? || e.id != id {
            assert AnsweredCleanly(next, id);
          } else {
            assert e.Finished?;
          }
        }
      } else {
        assert AnsweredCleanly(next, e.id);
      }
    }
  }

  /* ----- theorems over every run ---------------------------------------------------- */

  lemma {:induction false} PrefixRuns(init: State, trace: Trace, k: nat)
    requires Run(init, trace).Some? && k <= |trace|
    ensures Run(init, trace[..k]).Some?
  {
    if k == |trace| {
      assert trace[..k] == trace;
    } else {
      var n := |trace| - 1;
      PrefixRuns(init, trace[..n], k);
      assert trace[..n][..k] == trace[..k];
    }
  }

  /** The event at k happened, from a state that satisfies the invariant. */
  lemma StepAt(init: State, trace: Trace, k: nat)
    requires Fresh(init) && Run(init, trace).Some? && k < |trace|
    ensures Run(init, trace[..k]).Some? && Run(init, trace[..k + 1]).Some?
    ensures Step(Run(init, trace[..k]).value, trace[k], k) == Run(init, trace[..k + 1])
    ensures Inv(init, trace[..k], Run(init, trace[..k]).value)
  {
    PrefixRuns(init, trace, k + 1);
    assert trace[..k + 1][..k] == trace[..k];
    Invariant(init, trace[..k]);
  }

  /**
    Conservation: on every run the total is the sum of the accepted charges and within the
    cap; a charge is declined only when it would have taken the total past the cap.
  */
  lemma LedgerConserved(init: State, trace: Trace)
    requires Fresh(init) && Run(init, trace).Some?
    ensures var s := Run(init, trace).value.s;
      && s.spent == Accepted(trace)
      && s.cap == init.cap && s.capUnlimited == init.capUnlimited
      && (s.capUnlimited || Accepted(trace) <= s.cap)
    ensures forall k :: 0 <= k < |trace| && trace[k].Charged? ==>
      (trace[k].ok <==> init.capUnlimited || Accepted(trace[..k]) + trace[k].cost <= init.cap)
  {
    Invariant(init, trace);
    forall k | 0 <= k < |trace| && trace[k].Charged?
      ensures trace[k].ok <==> init.capUnlimited || Accepted(trace[..k]) + trace[k].cost <= init.cap
    {
      StepAt(init, trace, k);
    }
  }

  /**
    Mutual exclusion: `settling` holds exactly while one close is between its two critical
    sections, never together with `settled`; no two settles are in flight at once.
  */
  lemma AtMostOneSettling(init: State, trace: Trace)
    requires Fresh(init) && Run(init, trace).Some?
    ensures var sys := Run(init, trace).value;
      && (sys.s.settling <==> exists id :: Active(sys, id))
      && (forall i, j :: Active(sys, i) && Active(sys, j) ==> i == j)
      && !(sys.s.settled && sys.s.settling)
      && (forall i, j :: InSettle(sys, i) && InSettle(sys, j) ==> i == j)
  {
    Invariant(init, trace);
    var sys := Run(init, trace).value;
    assert forall id :: InSettle(sys, id) ==> Active(sys, id);
  }

  /** A one-shot credential reaches Settle at most once on any run. */
  lemma OneShotSettlesOnce(init: State, trace: Trace)
    requires Fresh(init) && Run(init, trace).Some? && !init.requiresClose
    ensures Reaches(trace) <= 1
  {
    Invariant(init, trace);
  }

  /** After an answer without error, no call reaches Settle again, channels included. */
  lemma NoSettleAfterCleanAnswer(init: State, trace: Trace, j: nat, k: nat)
    requires Fresh(init) && Run(init, trace).Some?
    requires j < k < |trace| && IsCleanAnswer(trace[j])
    ensures !trace[k].Reached?
  {
    StepAt(init, trace, k);
    assert IsCleanAnswer(trace[..k][j]);
    CleanExcludesReached(trace[..k], Run(init, trace[..k]).value, trace[k]);
  }

  lemma CleanExcludesReached(trace: Trace, sys: System, e: Event)
    requires Flags(sys) && CleanIsKept(trace, sys) && Step(sys, e, |trace|).Some?
    requires exists k :: 0 <= k < |trace| && IsCleanAnswer(trace[k])
    ensures !e.Reached?
  {
    assert forall id :: AnsweredCleanly(sys, id) ==> Active(sys, id);
    assert forall id :: id in sys.closers && sys.closers[id].Looking? ==> Active(sys, id);
  }

  /** A close that takes its first critical section while another settles does nothing. */
  lemma BeginExcludesBegin(init: State, trace: Trace, k: nat)
    requires Fresh(init) && Run(init, trace).Some? && k < |trace| && trace[k].Began?
    ensures Run(init, trace[..k]).Some?
    ensures forall id :: !Active(Run(init, trace[..k]).value, id)
    ensures !Run(init, trace[..k]).value.s.settled
    ensures Accepted(trace[..k]) > 0 || init.requiresClose
  {
    StepAt(init, trace, k);
  }

  /**
    The amount passed to Settle is exactly the sum of the charges accepted before that
    call took its snapshot.
  */
  lemma SettlesItsSnapshot(init: State, trace: Trace, k: nat) returns (at: nat)
    requires Fresh(init) && Run(init, trace).Some? && k < |trace|
    requires trace[k].Reached? || trace[k].Finished?
    ensures at < k && trace[at] == Began(trace[k].id, trace[k].amount)
    ensures trace[k].amount == Accepted(trace[..at])
  {
    StepAt(init, trace, k);
    var sys := Run(init, trace[..k]).value;
    assert Active(sys, trace[k].id);
    at := sys.closers[trace[k].id].at;
    assert IsSnapshot(trace[..k], trace[k].id, trace[k].amount, at);
    assert trace[..k][..at] == trace[..at];
  }

  /** Successive settles of one session pass amounts that never go down. */
  lemma RetriesDoNotDecrease(init: State, trace: Trace, j: nat, k: nat)
    requires Fresh(init) && Run(init, trace).Some?
    requires j < k < |trace| && trace[j].Reached? && trace[k].Reached?
    ensures trace[j].amount <= trace[k].amount
  {
    StepAt(init, trace, k);
    var sys := Run(init, trace[..k]).value;
    assert Active(sys, trace[k].id) && trace[..k][j].Reached?;
  }

  /** The sum accepted from a point on. */
  function AcceptedFrom(trace: Trace, at: nat): Amount
    requires at <= |trace|
  {
    Accepted(trace[at..])
  }

  lemma {:induction false} AcceptedSplits(trace: Trace, at: nat)
    requires at <= |trace|
    ensures Accepted(trace) == Accepted(trace[..at]) + AcceptedFrom(trace, at)
  {
    if at == |trace| {
      assert trace[..at] == trace;
    } else {
      var n := |trace| - 1;
      AcceptedSplits(trace[..n], at);
      assert trace[..n][..at] == trace[..at];
      assert trace[at..][..|trace[at..]| - 1] == trace[..n][at..];
    }
  }

  /**
    When the call that ran Settle returns without error, the amount the response reports
    covers its snapshot; the session is settled with that response recorded, for good; and what
    remains uncovered of the total is exactly the charges accepted after the snapshot.
  */
  lemma CleanCloseCovers(init: State, trace: Trace, k: nat) returns (at: nat, result: SettleResult)
    requires Fresh(init) && Run(init, trace).Some? && k < |trace|
    requires trace[k].Finished? && trace[k].err == None
    ensures at < k && trace[at] == Began(trace[k].id, trace[k].amount)
    ensures ParseAmount(result.settledAmount).Ok? && Accepted(trace[..at]) <= ParseAmount(result.settledAmount).value
    ensures Run(init, trace).value.s.settled && Run(init, trace).value.s.result == Some(result)
    ensures Accepted(trace) - trace[k].amount == AcceptedFrom(trace, at)
  {
    at := SettlesItsSnapshot(init, trace, k);
    StepAt(init, trace, k);
    result := Run(init, trace[..k]).value.closers[trace[k].id].outcome.result;
    SettledForGood(init, trace, k + 1);
    AcceptedSplits(trace, at);
  }

  /** Once settled, a session stays settled and its stored result is never written again. */
  lemma {:induction false} SettledForGood(init: State, trace: Trace, k: nat)
    requires Fresh(init) && Run(init, trace).Some? && k <= |trace|
    requires Run(init, trace[..k]).Some? && Run(init, trace[..k]).value.s.settled
    ensures Run(init, trace).value.s.settled
    ensures Run(init, trace).value.s.result == Run(init, trace[..k]).value.s.result
    decreases |trace|
  {
    if k == |trace| {
      assert trace[..k] == trace;
    } else {
      var n := |trace| - 1;
      assert trace[..n][..k] == trace[..k];
      SettledForGood(init, trace[..n], k);
      StepAt(init, trace, n);
      assert trace[..n + 1] == trace;
      SettledStep(Run(init, trace[..n]).value, trace[n], n);
    }
  }

  lemma SettledStep(sys: System, e: Event, now: nat)
    requires Flags(sys) && sys.s.settled && Step(sys, e, now).Some?
    ensures Step(sys, e, now).value.s.settled && Step(sys, e, now).value.s.result == sys.s.result
    ensures e.Charged? || e.NoOp?
  {
    OthersActOnActive(sys, e, now);
  }

  /** Every event but a charge or the start of a call moves a close that has begun and not returned. */
  lemma OthersActOnActive(sys: System, e: Event, now: nat)
    requires Step(sys, e, now).Some?
    ensures e.Charged? || e.NoOp? || e.Began? || Active(sys, e.id)
    ensures e.Began? ==> !sys.s.settled && !sys.s.settling
  {
  }

  /**
    A finished settle leaves the session settled exactly when the credential is one-shot or the
    answer was without error: only a channel whose settle failed can be closed again.
  */
  lemma FinishSettlesUnlessChannelFailed(init: State, trace: Trace, k: nat)
    requires Fresh(init) && Run(init, trace).Some? && k < |trace| && trace[k].Finished?
    ensures Run(init, trace[..k + 1]).Some?
    ensures Run(init, trace[..k + 1]).value.s.settled
       <==> !init.requiresClose || !(trace[k].err.Some? && trace[k].err.value.SettleError?)
    ensures !Run(init, trace[..k + 1]).value.s.settling
  {
    StepAt(init, trace, k);
    assert Active(Run(init, trace[..k]).value, trace[k].id);
  }

  /** Once settled, every later close returns at once without error, whatever the first one returned. */
  lemma ClosesAfterSettledAreNoOps(init: State, trace: Trace, j: nat, k: nat)
    requires Fresh(init) && Run(init, trace).Some? && j <= k < |trace|
    requires Run(init, trace[..j]).Some? && Run(init, trace[..j]).value.s.settled
    ensures !trace[k].Began? && !trace[k].Reached? && !trace[k].Finished?
  {
    StepAt(init, trace, k);
    assert trace[..k][..j] == trace[..j];
    SettledForGood(init, trace[..k], j);
    SettledStep(Run(init, trace[..k]).value, trace[k], k);
  }

  /** The stored result is written at most once, and only when the session becomes settled. */
  lemma ResultWrittenOnce(init: State, trace: Trace, j: nat, k: nat)
    requires Fresh(init) && Run(init, trace).Some? && j <= k <= |trace|
    ensures Run(init, trace[..j]).Some? && Run(init, trace[..k]).Some?
    ensures var before, after := Run(init, trace[..j]).value.s, Run(init, trace[..k]).value.s;
      && (before.result.Some? ==> before.settled && after.result == before.result)
  {
    PrefixRuns(init, trace, j);
    PrefixRuns(init, trace, k);
    assert trace[..k][..j] == trace[..j];
    Invariant(init, trace[..j]);
    if Run(init, trace[..j]).value.s.settled {
      SettledForGood(init, trace[..k], j);
    }
  }

  /* ----- what a run does not give -------------------------------------------------------- */

  /**
    An accepted charge is inside the amount a call settles, its own cost included, exactly when
    it came before that call's first critical section.
  */
  lemma ChargeSettledIffBeforeSnapshot(init: State, trace: Trace, j: nat, k: nat) returns (at: nat)
    requires Fresh(init) && Run(init, trace).Some? && j < |trace| && k < |trace|
    requires trace[j].Charged? && trace[j].ok && trace[j].cost > 0
    requires trace[k].Reached?
    ensures at < k && trace[at] == Began(trace[k].id, trace[k].amount)
    ensures Accepted(trace[..j + 1]) <= trace[k].amount <==> j < at
  {
    at := SettlesItsSnapshot(init, trace, k);
    assert trace[..j + 1][..j] == trace[..j];
    if j < at {
      AcceptedGrows(trace[..at], j + 1);
      assert trace[..at][..j + 1] == trace[..j + 1];
    } else {
      AcceptedGrows(trace[..j], at);
      assert trace[..j][..at] == trace[..at];
    }
  }

  /**
    A close that finds the session settled returns nil; what was settled covers the settling
    call's snapshot exactly when that call itself returned nil.
  */
  lemma LaterNilIsPaidIffFirstWas(init: State, trace: Trace, j: nat, k: nat)
    requires Fresh(init) && Run(init, trace).Some? && j < k < |trace|
    requires trace[j].Finished? && trace[k].NoOp?
    requires Run(init, trace[..j + 1]).Some? && Run(init, trace[..j + 1]).value.s.settled
    ensures Run(init, trace[..k]).Some? && Run(init, trace[..k]).value.s.settled
    ensures var s := Run(init, trace[..k]).value.s;
      s.result.Some? && Covers(s.result.value, trace[j].amount) <==> trace[j].err == None
  {
    StepAt(init, trace, j);
    StepAt(init, trace, k);
    assert Active(Run(init, trace[..j]).value, trace[j].id);
    assert trace[..k][..j + 1] == trace[..j + 1];
    SettledForGood(init, trace[..k], j + 1);
  }

  /** One more event of a run. */
  lemma Extend(init: State, trace: Trace, e: Event)
    requires Run(init, trace).Some?
    ensures Run(init, trace + [e]) == Step(Run(init, trace).value, e, |trace|)
  {
    assert (trace + [e])[..|trace|] == trace;
  }

  /** A run in which one charge is accepted and settled by one call with this answer. */
  lemma ChargeAndSettle(init: State, cost: Amount, r: SettleResult) returns (trace: Trace)
    requires Fresh(init) && cost > 0 && (init.capUnlimited || cost <= init.cap)
    ensures |trace| == 5 && trace[4] == Finished(0, cost, FinishError(cost, SettleAnswered(r)))
    ensures trace[0] == Charged(cost, true) && trace[1] == Began(0, cost)
    ensures trace[2] == Reached(0, cost) && trace[3] == Answered(0, SettleAnswered(r))
    ensures Run(init, trace)
      == Some(System(init.(spent := cost, settled := true, result := Some(r)), map[0 := Returned]))
  {
    trace := ChargeAndReach(init, cost);
    var s := init.(spent := cost, settling := true);
    var e, f := Answered(0, SettleAnswered(r)), Finished(0, cost, FinishError(cost, SettleAnswered(r)));
    Extend(init, trace, e);
    var answered := map[0 := Calling(cost, 1)][0 := Answering(cost, 1, SettleAnswered(r))];
    assert Run(init, trace + [e]) == Some(System(s, answered));
    Extend(init, trace + [e], f);
    assert answered[0 := Returned] == map[0 := Returned];
    trace := trace + [e] + [f];
  }

  lemma ChargeAndReach(init: State, cost: Amount) returns (trace: Trace)
    requires Fresh(init) && cost > 0 && (init.capUnlimited || cost <= init.cap)
    ensures trace == [Charged(cost, true), Began(0, cost), Reached(0, cost)]
    ensures Run(init, trace) == Some(System(init.(spent := cost, settling := true), map[0 := Calling(cost, 1)]))
  {
    var charged, began, reached := Charged(cost, true), Began(0, cost), Reached(0, cost);
    Extend(init, [], charged);
    assert Run(init, [charged]) == Some(System(init.(spent := cost), map[])) by { assert [] + [charged] == [charged]; }
    Extend(init, [charged], began);
    var s := init.(spent := cost, settling := true);
    assert [charged] + [began] == [charged, began];
    assert Run(init, [charged, began]) == Some(System(s, map[0 := Looking(cost, 1)]));
    Extend(init, [charged, began], reached);
    assert [charged, began] + [reached] == [charged, began, reached];
    assert map[0 := Looking(cost, 1)][0 := Calling(cost, 1)] == map[0 := Calling(cost, 1)];
    trace := [charged, began, reached];
  }

  /**
    An accepted charge need not be settled: after a paid close with no error a further charge is
    accepted, and no continuation of the run reaches Settle again.
  */
  lemma AcceptedChargeNeverSettled(init: State, cost: Amount, late: Amount) returns (trace: Trace)
    requires Fresh(init) && cost > 0 && (init.capUnlimited || cost + late <= init.cap)
    ensures |trace| == 6 && trace[4] == Finished(0, cost, None) && trace[5] == Charged(late, true)
    ensures Run(init, trace).Some? && Run(init, trace).value.s.spent == cost + late
    ensures forall longer: Trace, k: nat :: trace <= longer && Run(init, longer).Some? && 6 <= k < |longer| ==>
      !longer[k].Reached?
  {
    ParseInvertsFormat(cost);
    var before := ChargeAndSettle(init, cost, SettleResult(None, FormatAmount(cost), false));
    Extend(init, before, Charged(late, true));
    trace := before + [Charged(late, true)];
    forall longer: Trace, k: nat | trace <= longer && Run(init, longer).Some? && 6 <= k < |longer|
      ensures !longer[k].Reached?
    {
      assert longer[3] == trace[3];
      NoSettleAfterCleanAnswer(init, longer, 3, k);
    }
  }

  /** Nor does a nil from a close mean the session was paid: the one before it may have found too little settled. */
  lemma NilAfterUnderpayment(init: State, cost: Amount) returns (trace: Trace)
    requires Fresh(init) && cost > 0 && (init.capUnlimited || cost <= init.cap)
    ensures |trace| == 6 && trace[4] == Finished(0, cost, Some(Underpayment(cost, 0, None))) && trace[5] == NoOp(1)
    ensures Run(init, trace).Some? && Run(init, trace).value.s.settled
  {
    ParseInvertsFormat(0);
    var before := ChargeAndSettle(init, cost, SettleResult(None, FormatAmount(0), false));
    Extend(init, before, NoOp(1));
    trace := before + [NoOp(1)];
  }

  /** The session was settled by this call's last critical section. */
  ghost predicate SettledBy(init: State, trace: Trace, j: nat) {
    j < |trace| && trace[j].Finished? && Run(init, trace[..j + 1]).Some? && Run(init, trace[..j + 1]).value.s.settled
  }

  /** Some call has settled the session, and the result stored covers what that call settled. */
  ghost predicate CoveringResultStored(init: State, trace: Trace)
    requires Run(init, trace).Some?
  {
    var result := Run(init, trace).value.s.result;
    result.Some? && exists j: nat :: SettledBy(init, trace, j) && Covers(result.value, trace[j].amount)
  }

  /**
    Whatever guard made a close return nil at once, a covering result is stored exactly when some
    close that ran Settle has itself returned nil. Unless the session is settled there is no result
    at all: another close is still settling, or nothing was accepted that would need one.
  */
  lemma NilIsPaidIff(init: State, trace: Trace, k: nat)
    requires Fresh(init) && Run(init, trace).Some? && k < |trace| && trace[k].NoOp?
    ensures Run(init, trace[..k]).Some?
    ensures CoveringResultStored(init, trace[..k])
       <==> exists j :: 0 <= j < k && trace[j].Finished? && trace[j].err == None
    ensures var s := Run(init, trace[..k]).value.s;
      !s.settled ==> s.result == None && (s.settling || (Accepted(trace[..k]) == 0 && !init.requiresClose))
  {
    StepAt(init, trace, k);
    var before := trace[..k];
    if CoveringResultStored(init, before) {
      var j: nat :| SettledBy(init, before, j) && Covers(Run(init, before).value.s.result.value, before[j].amount);
      assert before[..j + 1] == trace[..j + 1] && before[j] == trace[j];
      LaterNilIsPaidIffFirstWas(init, trace, j, k);
    }
    if j :| 0 <= j < k && trace[j].Finished? && trace[j].err == None {
      NilFinishStores(init, trace, j, k);
    }
  }

  lemma NilFinishStores(init: State, trace: Trace, j: nat, k: nat)
    requires Fresh(init) && Run(init, trace).Some? && j < k < |trace| && trace[k].NoOp?
    requires trace[j].Finished? && trace[j].err == None
    ensures Run(init, trace[..k]).Some? && CoveringResultStored(init, trace[..k])
  {
    FinishSettlesUnlessChannelFailed(init, trace, j);
    LaterNilIsPaidIffFirstWas(init, trace, j, k);
    assert trace[..k][..j + 1] == trace[..j + 1] && trace[..k][j] == trace[j];
    assert SettledBy(init, trace[..k], j);
  }

  /** A nil, too, for a close that arrives while another is in Settle, with nothing settled or stored. */
  lemma NilWhileSettling(init: State, cost: Amount) returns (trace: Trace)
    requires Fresh(init) && cost > 0 && (init.capUnlimited || cost <= init.cap)
    ensures |trace| == 4 && trace[3] == NoOp(1) && Run(init, trace).Some?
    ensures var s := Run(init, trace).value.s; s.spent == cost && !s.settled && s.result == None
  {
    trace := ChargeAndReach(init, cost);
    Extend(init, trace, NoOp(1));
    trace := trace + [NoOp(1)];
  }

  /**
    A call that never comes back from Settle holds the session for good: nothing but charges and
    closes that return nil at once can follow, and nothing is settled. A null entry among the options
    of an ATXP credential makes building the settle request panic and so leaves a session like this.
  */
  lemma UnansweredSettleBlocks(init: State, trace: Trace, longer: Trace, id: nat)
    requires Fresh(init) && trace <= longer && Run(init, longer).Some?
    requires Run(init, trace).Some? && InSettle(Run(init, trace).value, id)
    requires NoEventOf(longer, |trace|, id)
    ensures InSettle(Run(init, longer).value, id)
    ensures Run(init, longer).value.s.settling && !Run(init, longer).value.s.settled
    ensures forall k :: |trace| <= k < |longer| ==> longer[k].Charged? || longer[k].NoOp?
  {
    StaysInSettle(init, trace, longer, id);
    Invariant(init, longer);
    assert Active(Run(init, longer).value, id);
  }

  lemma UnansweredReachBlocks(init: State, trace: Trace, k: nat)
    requires Fresh(init) && Run(init, trace).Some? && k < |trace| && trace[k].Reached?
    requires NoEventOf(trace, k + 1, trace[k].id)
    ensures Run(init, trace).value.s.settling && !Run(init, trace).value.s.settled
    ensures forall j :: k < j < |trace| ==> trace[j].Charged? || trace[j].NoOp?
  {
    StepAt(init, trace, k);
    assert InSettle(Run(init, trace[..k + 1]).value, trace[k].id);
    UnansweredSettleBlocks(init, trace[..k + 1], trace, trace[k].id);
  }

  predicate NoEventOf(trace: Trace, from: nat, id: nat) {
    forall k :: from <= k < |trace| && !trace[k].Charged? ==> trace[k].id != id
  }

  lemma {:induction false} StaysInSettle(init: State, trace: Trace, longer: Trace, id: nat)
    requires Fresh(init) && trace <= longer && Run(init, longer).Some?
    requires Run(init, trace).Some? && InSettle(Run(init, trace).value, id)
    requires NoEventOf(longer, |trace|, id)
    ensures InSettle(Run(init, longer).value, id)
    ensures forall k :: |trace| <= k < |longer| ==> longer[k].Charged? || longer[k].NoOp?
    decreases |longer|
  {
    if longer != trace {
      var n := |longer| - 1;
      assert forall k :: 0 <= k < n ==> longer[..n][k] == longer[k];
      StaysInSettle(init, trace, longer[..n], id);
      Invariant(init, longer[..n]);
      OthersWaitOnSettle(Run(init, longer[..n]).value, longer[n], n, id);
    }
  }

  lemma OthersWaitOnSettle(sys: System, e: Event, now: nat, id: nat)
    requires Flags(sys) && InSettle(sys, id) && Step(sys, e, now).Some? && (!e.Charged? ==> e.id != id)
    ensures InSettle(Step(sys, e, now).value, id) && (e.Charged? || e.NoOp?)
  {
    assert Active(sys, id);
    OthersActOnActive(sys, e, now);
    OthersStay(sys, e, now, id);
  }

  /* ----- progress ------------------------------------------------------------------------- */

  /** How many events a close may still have. */
  function Remaining(sys: System, id: nat): nat {
    if id !in sys.closers then 4
    else match sys.closers[id]
      case Looking(_, _) => 3
      case Calling(_, _) => 2
      case Aborting(_, _) => 1
      case Answering(_, _, _) => 1
      case Returned => 0
  }

  /** How many events of a trace belong to one close. */
  function EventsOf(trace: Trace, id: nat): nat {
    if trace == [] then 0
    else
      var e := trace[|trace| - 1];
      EventsOf(trace[..|trace| - 1], id) + if !e.Charged? && e.id == id then 1 else 0
  }

  /** The next event of a close in progress, whatever the settlement lookup and the endpoint answer. */
  function NextEvent(sys: System, id: nat, found: bool, outcome: SettleOutcome): Event
    requires Active(sys, id)
  {
    match sys.closers[id]
    case Looking(snap, _) => if found then Reached(id, snap) else LookupFailed(id)
    case Aborting(_, _) => Aborted(id)
    case Calling(_, _) => Answered(id, outcome)
    case Answering(snap, _, o) => Finished(id, snap, FinishError(snap, o))
  }

  /** No close is ever stuck, and no charge is ever refused a turn. */
  lemma SessionCanStep(sys: System, id: nat, found: bool, outcome: SettleOutcome, cost: Amount, now: nat)
    ensures Active(sys, id) ==> Step(sys, NextEvent(sys, id, found, outcome), now).Some?
    ensures Step(sys, Charged(cost, ChargeAccepted(sys.s, cost)), now).Some?
    ensures id !in sys.closers ==>
      Step(sys, if CloseIsNoOp(sys.s) then NoOp(id) else Began(id, sys.s.spent), now).Some?
  {
  }

  lemma StepUsesUp(sys: System, e: Event, now: nat, id: nat)
    requires Step(sys, e, now).Some?
    ensures Remaining(Step(sys, e, now).value, id) + (if !e.Charged? && e.id == id then 1 else 0) <= Remaining(sys, id)
  {
  }

  lemma {:induction false} EventsAndRemaining(init: State, trace: Trace, id: nat)
    requires Run(init, trace).Some?
    ensures EventsOf(trace, id) + Remaining(Run(init, trace).value, id) <= 4
  {
    if trace != [] {
      var n := |trace| - 1;
      EventsAndRemaining(init, trace[..n], id);
      StepUsesUp(Run(init, trace[..n]).value, trace[n], n, id);
    }
  }

  /**
    Progress: every close has at most four events, one that has not returned always has a next
    one, and when all have returned the session is no longer settling.
  */
  lemma ClosesFinish(init: State, trace: Trace, id: nat)
    requires Fresh(init) && Run(init, trace).Some?
    ensures EventsOf(trace, id) <= 4
    ensures forall found, outcome :: Active(Run(init, trace).value, id) ==>
      Run(init, trace + [NextEvent(Run(init, trace).value, id, found, outcome)]).Some?
    ensures (forall i :: i in Run(init, trace).value.closers ==> Run(init, trace).value.closers[i].Returned?) ==>
      !Run(init, trace).value.s.settling
  {
    EventsAndRemaining(init, trace, id);
    Invariant(init, trace);
    var sys := Run(init, trace).value;
    forall found, outcome | Active(sys, id) ensures Run(init, trace + [NextEvent(sys, id, found, outcome)]).Some? {
      SessionCanStep(sys, id, found, outcome, 0, |trace|);
      Extend(init, trace, NextEvent(sys, id, found, outcome));
    }
  }

  /* ----- whether what was charged can still be settled ---------------------------------- */

  /**
    The session is settled, or the call now in Settle is bound to settle it: its credential is
    one-shot, or its answer is in and without error.
  */
  ghost predicate SettleIsOver(sys: System) {
    sys.s.settled || exists id :: InSettle(sys, id) && (!sys.s.requiresClose || AnsweredCleanly(sys, id))
  }

  lemma StepOver(sys: System, e: Event, now: nat)
    requires Flags(sys) && SettleIsOver(sys) && Step(sys, e, now).Some?
    ensures SettleIsOver(Step(sys, e, now).value) && !e.Reached?
  {
    var next := Step(sys, e, now).value;
    if sys.s.settled {
      SettledStep(sys, e, now);
    } else {
      var id :| InSettle(sys, id) && (!sys.s.requiresClose || AnsweredCleanly(sys, id));
      assert Active(sys, id);
      OthersActOnActive(sys, e, now);
      assert InSettle(next, id) || next.s.settled;
    }
  }

  lemma {:induction false} OverStaysOver(init: State, trace: Trace, longer: Trace)
    requires Fresh(init) && trace <= longer && Run(init, longer).Some?
    requires Run(init, trace).Some? && SettleIsOver(Run(init, trace).value)
    ensures SettleIsOver(Run(init, longer).value)
    ensures forall k :: |trace| <= k < |longer| ==> !longer[k].Reached?
    decreases |longer|
  {
    if longer != trace {
      var n := |longer| - 1;
      OverStaysOver(init, trace, longer[..n]);
      Invariant(init, longer[..n]);
      StepOver(Run(init, longer[..n]).value, longer[n], n);
      assert forall k :: 0 <= k < n ==> longer[..n][k] == longer[k];
    }
  }

  /** The next event of a close that lets it return without settling the session. */
  function GiveUp(sys: System, id: nat): Event
    requires Active(sys, id)
  {
    NextEvent(sys, id, false, SettleFailed(""))
  }

  lemma GiveUpStep(sys: System, id: nat, now: nat)
    requires Flags(sys) && Active(sys, id) && !SettleIsOver(sys)
    ensures Step(sys, GiveUp(sys, id), now).Some?
    ensures var next := Step(sys, GiveUp(sys, id), now).value;
      && !SettleIsOver(next) && next.s.spent == sys.s.spent && Remaining(next, id) < Remaining(sys, id)
      && forall i :: Active(next, i) ==> Active(sys, i)
  {
    var next := Step(sys, GiveUp(sys, id), now).value;
    assert sys.closers[id].Calling? || sys.closers[id].Answering? ==> InSettle(sys, id);
    forall i | i != id ensures !InSettle(next, i) && (Active(next, i) ==> Active(sys, i)) {
      OthersStay(sys, GiveUp(sys, id), now, i);
      assert InSettle(sys, i) ==> Active(sys, i);
    }
    assert InSettle(next, id) ==> sys.closers[id].Calling?;
  }

  /** The close in progress, if any, can return with the session unsettled. */
  lemma {:induction false} AllReturn(init: State, trace: Trace, id: nat) returns (longer: Trace)
    requires Fresh(init) && Run(init, trace).Some? && !SettleIsOver(Run(init, trace).value)
    requires forall i :: Active(Run(init, trace).value, i) ==> i == id
    ensures trace <= longer && Run(init, longer).Some? && !SettleIsOver(Run(init, longer).value)
    ensures forall i :: !Active(Run(init, longer).value, i)
    ensures Run(init, longer).value.s.spent == Run(init, trace).value.s.spent
    decreases Remaining(Run(init, trace).value, id)
  {
    var sys := Run(init, trace).value;
    longer := trace;
    if Active(sys, id) {
      var e := GiveUp(sys, id);
      Invariant(init, trace);
      GiveUpStep(sys, id, |trace|);
      Extend(init, trace, e);
      Invariant(init, trace + [e]);
      longer := AllReturn(init, trace + [e], id);
    }
  }

  lemma FreshId(closers: map<nat, Closer>) returns (id: nat)
    ensures id !in closers
  {
    id := Above(closers.Keys);
  }

  lemma {:induction false} Above(ids: set<nat>) returns (n: nat)
    ensures forall id :: id in ids ==> id < n
  {
    n := 0;
    if ids != {} {
      var id :| id in ids;
      var m := Above(ids - {id});
      n := if id < m then m else id + 1;
      forall i | i in ids ensures i < n {
        assert i == id || i in ids - {id};
      }
    }
  }

  /** The continuation reaches Settle, for no less than all that was accepted so far. */
  ghost predicate SettlesAll(init: State, trace: Trace, longer: Trace) {
    && trace <= longer && Run(init, longer).Some?
    && exists k :: |trace| <= k < |longer| && longer[k].Reached? && Accepted(trace) <= longer[k].amount
  }

  lemma BeginAndReach(init: State, trace: Trace) returns (longer: Trace)
    requires Fresh(init) && Run(init, trace).Some? && Run(init, trace).value.s.spent > 0
    requires !CloseIsNoOp(Run(init, trace).value.s)
    ensures |longer| == |trace| + 2 && trace <= longer && Run(init, longer).Some?
    ensures longer[|trace| + 1].Reached? && longer[|trace| + 1].amount == Run(init, trace).value.s.spent
  {
    var sys := Run(init, trace).value;
    var id := FreshId(sys.closers);
    var began, reached := Began(id, sys.s.spent), Reached(id, sys.s.spent);
    Extend(init, trace, began);
    Extend(init, trace + [began], reached);
    longer := trace + [began] + [reached];
  }

  /**
    A call that has yet to reach Settle can still settle all that was accepted exactly while the
    session is not settled and no call in Settle is bound to settle it. After that, charges are
    accepted that never will be.
  */
  lemma CanStillSettleIff(init: State, trace: Trace)
    requires Fresh(init) && Run(init, trace).Some? && Accepted(trace) > 0
    ensures (exists longer :: SettlesAll(init, trace, longer)) <==> !SettleIsOver(Run(init, trace).value)
  {
    var sys := Run(init, trace).value;
    Invariant(init, trace);
    if SettleIsOver(sys) {
      forall longer ensures !SettlesAll(init, trace, longer) {
        if trace <= longer && Run(init, longer).Some? {
          OverStaysOver(init, trace, longer);
        }
      }
    } else {
      var id := if i :| Active(sys, i) then i else 0;
      var idle := AllReturn(init, trace, id);
      Invariant(init, idle);
      var longer := BeginAndReach(init, idle);
      assert longer[|idle| + 1].Reached?;
      assert SettlesAll(init, trace, longer);
    }
  }

  /** A call already in Settle carries all that was accepted, and is not known to have failed. */
  ghost predicate AllInSettle(sys: System) {
    exists id :: InSettle(sys, id) && sys.closers[id].snap == sys.s.spent
      && (sys.closers[id].Answering? ==> FinishError(sys.closers[id].snap, sys.closers[id].outcome) == None)
  }

  /** The continuation has a close return nil after settling no less than all that was accepted so far. */
  ghost predicate PaysAll(init: State, trace: Trace, longer: Trace) {
    && trace <= longer && Run(init, longer).Some?
    && exists k :: |trace| <= k < |longer| && longer[k].Finished? && longer[k].err == None
                   && Accepted(trace) <= longer[k].amount
  }

  /** The same call with the same snapshot, and the same answer once it has one. */
  ghost predicate SameCall(was: Closer, now: Closer)
  {
    && (was.Calling? || was.Answering?) && (now.Calling? || now.Answering?) && now.snap == was.snap
    && (was.Answering? ==> now == was)
  }

  /** While the call bound to settle the session has not returned, no other settles; then nothing does. */
  lemma {:induction false} OnlyItFinishes(init: State, trace: Trace, longer: Trace, id: nat)
    requires Fresh(init) && trace <= longer && Run(init, longer).Some?
    requires Run(init, trace).Some? && SettleIsOver(Run(init, trace).value) && InSettle(Run(init, trace).value, id)
    ensures var sys := Run(init, longer).value;
      sys.s.settled || (InSettle(sys, id) && SameCall(Run(init, trace).value.closers[id], sys.closers[id]))
    ensures var was := Run(init, trace).value.closers[id];
      forall k :: |trace| <= k < |longer| && longer[k].Finished? && longer[k].err == None ==>
        longer[k].amount == was.snap && (was.Answering? ==> FinishError(was.snap, was.outcome) == None)
    decreases |longer|
  {
    if longer != trace {
      var n := |longer| - 1;
      var before := longer[..n];
      OnlyItFinishes(init, trace, before, id);
      OverStaysOver(init, trace, before);
      Invariant(init, before);
      ItFinishes(Run(init, before).value, longer[n], n, id, Run(init, trace).value.closers[id]);
      assert forall k :: 0 <= k < n ==> before[k] == longer[k];
    }
  }

  lemma ItFinishes(sys: System, e: Event, now: nat, id: nat, was: Closer)
    requires Flags(sys) && SettleIsOver(sys) && Step(sys, e, now).Some? && (was.Calling? || was.Answering?)
    requires sys.s.settled || (InSettle(sys, id) && SameCall(was, sys.closers[id]))
    ensures var next := Step(sys, e, now).value;
      next.s.settled || (InSettle(next, id) && SameCall(was, next.closers[id]))
    ensures e.Finished? ==> e.amount == was.snap && (was.Answering? ==> e.err == FinishError(was.snap, was.outcome))
  {
    OthersActOnActive(sys, e, now);
    if sys.s.settled {
      SettledStep(sys, e, now);
    } else {
      assert Active(sys, id);
      assert forall i :: InSettle(sys, i) ==> Active(sys, i);
      if e.Charged? || e.id != id { OthersStay(sys, e, now, id); }
    }
  }

  /** A call in Settle that is not known to have failed can return nil for its snapshot. */
  lemma PayCall(init: State, trace: Trace, id: nat) returns (longer: Trace)
    requires Fresh(init) && Run(init, trace).Some? && InSettle(Run(init, trace).value, id)
    requires var c := Run(init, trace).value.closers[id]; c.Answering? ==> FinishError(c.snap, c.outcome) == None
    ensures |longer| > |trace| && trace <= longer && Run(init, longer).Some?
    ensures longer[|longer| - 1] == Finished(id, Run(init, trace).value.closers[id].snap, None)
  {
    longer := trace;
    if Run(init, trace).value.closers[id].Calling? {
      longer := CoveringAnswer(init, trace, id);
    }
    longer := FinishCall(init, longer, id);
  }

  lemma CoveringResult(snap: Amount)
    ensures FinishError(snap, SettleAnswered(SettleResult(None, FormatAmount(snap), false))) == None
  {
    ParseInvertsFormat(snap);
  }

  lemma CoveringAnswer(init: State, trace: Trace, id: nat) returns (longer: Trace)
    requires Run(init, trace).Some? && id in Run(init, trace).value.closers
    requires Run(init, trace).value.closers[id].Calling?
    ensures |longer| == |trace| + 1 && trace <= longer && Run(init, longer).Some?
    ensures id in Run(init, longer).value.closers
    ensures var c := Run(init, longer).value.closers[id];
      c.Answering? && c.snap == Run(init, trace).value.closers[id].snap && FinishError(c.snap, c.outcome) == None
  {
    var snap := Run(init, trace).value.closers[id].snap;
    CoveringResult(snap);
    var answer := Answered(id, SettleAnswered(SettleResult(None, FormatAmount(snap), false)));
    Extend(init, trace, answer);
    longer := trace + [answer];
  }

  lemma FinishCall(init: State, trace: Trace, id: nat) returns (longer: Trace)
    requires Run(init, trace).Some? && id in Run(init, trace).value.closers
    requires var c := Run(init, trace).value.closers[id]; c.Answering? && FinishError(c.snap, c.outcome) == None
    ensures |longer| == |trace| + 1 && trace <= longer && Run(init, longer).Some?
    ensures longer[|trace|] == Finished(id, Run(init, trace).value.closers[id].snap, None)
  {
    var e := Finished(id, Run(init, trace).value.closers[id].snap, None);
    Extend(init, trace, e);
    longer := trace + [e];
  }

  /**
    What a session has accepted can still be paid for in full, a close returning nil for all of it,
    exactly while a call yet to reach Settle can still settle it or one in Settle carries it all.
  */
  lemma CanStillBePaidIff(init: State, trace: Trace)
    requires Fresh(init) && Run(init, trace).Some? && Accepted(trace) > 0
    ensures (exists longer :: PaysAll(init, trace, longer))
       <==> !SettleIsOver(Run(init, trace).value) || AllInSettle(Run(init, trace).value)
  {
    var sys := Run(init, trace).value;
    Invariant(init, trace);
    if AllInSettle(sys) {
      var id :| InSettle(sys, id) && sys.closers[id].snap == sys.s.spent
        && (sys.closers[id].Answering? ==> FinishError(sys.closers[id].snap, sys.closers[id].outcome) == None);
      var longer := PayCall(init, trace, id);
      assert PaysAll(init, trace, longer);
    } else if !SettleIsOver(sys) {
      var longer := SettleAndPay(init, trace);
      assert PaysAll(init, trace, longer);
    } else {
      forall longer ensures !PaysAll(init, trace, longer) {
        NeverPaid(init, trace, longer);
      }
    }
  }

  lemma NeverPaid(init: State, trace: Trace, longer: Trace)
    requires Fresh(init) && Run(init, trace).Some?
    requires SettleIsOver(Run(init, trace).value) && !AllInSettle(Run(init, trace).value)
    ensures !PaysAll(init, trace, longer)
  {
    var sys := Run(init, trace).value;
    Invariant(init, trace);
    if PaysAll(init, trace, longer) {
      var k :| |trace| <= k < |longer| && longer[k].Finished? && longer[k].err == None
               && Accepted(trace) <= longer[k].amount;
      if sys.s.settled {
        assert longer[..|trace|] == trace;
        ClosesAfterSettledAreNoOps(init, longer, |trace|, k);
      } else {
        var id :| InSettle(sys, id);
        OnlyItFinishes(init, trace, longer, id);
        assert Active(sys, id) && IsSnapshot(trace, id, sys.closers[id].snap, sys.closers[id].at);
        AcceptedGrows(trace, sys.closers[id].at);
      }
    }
  }

  /** Any close in progress gives up, and a new one settles and is paid. */
  lemma SettleAndPay(init: State, trace: Trace) returns (longer: Trace)
    requires Fresh(init) && Run(init, trace).Some? && Accepted(trace) > 0 && !SettleIsOver(Run(init, trace).value)
    ensures PaysAll(init, trace, longer)
  {
    var sys := Run(init, trace).value;
    Invariant(init, trace);
    var active := if i :| Active(sys, i) then i else 0;
    var idle := AllReturn(init, trace, active);
    Invariant(init, idle);
    var reached := BeginAndReach(init, idle);
    var n := |reached| - 1;
    StepAt(init, reached, n);
    assert reached[..n + 1] == reached;
    var id := reached[n].id;
    longer := PayCall(init, reached, id);
    assert longer[|longer| - 1].amount == sys.s.spent;
  }

  /* ----- charges of one price ------------------------------------------------------------ */

  function Attempts(trace: Trace): nat {
    if trace == [] then 0
    else Attempts(trace[..|trace| - 1]) + if trace[|trace| - 1].Charged? then 1 else 0
  }

  function Admitted(trace: Trace): nat {
    if trace == [] then 0
    else
      var e := trace[|trace| - 1];
      Admitted(trace[..|trace| - 1]) + if e.Charged? && e.ok then 1 else 0
  }

  /**
    N charges of one positive price against a finite cap, in any interleaving with each other
    and with any number of closes: exactly min(N, cap / price) are admitted, and the total is
    that many times the price.
  */
  lemma {:induction false} UniformChargesFillTheCap(init: State, trace: Trace, price: Amount)
    requires Fresh(init) && !init.capUnlimited && Run(init, trace).Some? && price > 0
    requires forall k :: 0 <= k < |trace| && trace[k].Charged? ==> trace[k].cost == price
    ensures Admitted(trace) == Min(Attempts(trace), init.cap / price)
    ensures Run(init, trace).value.s.spent == Admitted(trace) * price
  {
    if trace != [] {
      var n := |trace| - 1;
      UniformChargesFillTheCap(init, trace[..n], price);
      Invariant(init, trace[..n]);
      NextFits(Attempts(trace[..n]), price, init.cap);
    }
  }

  /** After i tries there is room for one more exactly while i is below cap / price. */
  lemma NextFits(i: nat, price: Amount, cap: Amount)
    requires price > 0
    ensures Min(i, cap / price) * price + price <= cap <==> i < cap / price
    ensures Min(i + 1, cap / price) * price == Min(i, cap / price) * price + if i < cap / price then price else 0
  {
    OneMoreFits(Min(i, cap / price), price, cap);
  }

  lemma OneMoreFits(k: nat, price: nat, cap: nat)
    requires price > 0
    ensures k * price + price <= cap <==> k + 1 <= cap / price
    ensures (k + 1) * price == k * price + price
  {
    var q, r := cap / price, cap % price;
    assert cap == q * price + r;
    MultipleFits(k, q, price, r);
  }

  lemma MultipleFits(k: nat, q: nat, price: nat, r: nat)
    requires r < price
    ensures k * price + price <= q * price + r <==> k + 1 <= q
  {
    var e := k + 1 - q;
    Distribute(k + 1, q, price);
    Distribute(k + 1, 1, price);
    SignedMultiple(e, price);
  }

  lemma Distribute(a: int, b: int, p: int)
    ensures (a - b) * p == a * p - b * p
  {
  }

  lemma SignedMultiple(e: int, p: int)
    requires p > 0
    ensures e >= 1 ==> e * p >= p
    ensures e <= 0 ==> e * p <= 0
  {
  }
}
