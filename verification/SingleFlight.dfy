/**
  Any number of concurrent clientCredentials calls (server/oauthresource.go), with the
  re-registrations introspectToken makes outside the protocol. A trace is any order of their
  atomic steps, with any answers from the registration endpoint.
*/
module SingleFlight {
  import opened Wrappers
  import opened TokenStore
  import opened Registration

  /** Where a call is. Registering to Closed lead a registration; Waiting follows one. */
  datatype Pc =
    | Start
    | Missed
    | Waiting(reg: nat)
    | Registering(reg: nat)
    | Answered(reg: nat, outcome: Outcome)
    | Wrote(reg: nat, outcome: Outcome)
    | Closed(reg: nat, outcome: Outcome)
    | Retired(reg: nat, outcome: Outcome)
    | Done(via: Option<nat>, outcome: Outcome)

  datatype Caller = Caller(issuer: string, pc: Pc)

  /**
    `outside` counts the registrations in flight that introspectToken started, per issuer, and
    `retried` are the calls whose introspection has started its one.
  */
  datatype System = System(client: Client, callers: seq<Caller>, outside: multiset<string>, retried: set<nat>)

  /** `answer` is what the endpoint replies, where the step is that reply. */
  datatype Event =
    | CallerStep(i: nat, answer: Outcome)
    | OutsideBegins(issuer: string, i: nat)
    | OutsideEnds(issuer: string, answer: Outcome)

  function AfterCaller(c: Client, i: nat, who: Caller, answer: Outcome): Option<(Client, Pc)> {
    match who.pc
    case Start =>
      if who.issuer in c.store then Some((c, Done(None, Registered(c.store[who.issuer])))) else Some((c, Missed))
    case Missed =>
      var next := AfterJoin(c, who.issuer, i);
      var r := next.credReg[who.issuer];
      Some((next, if who.issuer in c.credReg then Waiting(r) else Registering(r)))
    case Waiting(r) =>
      if r < |c.regs| && c.regs[r].done && c.regs[r].outcome.Some?
      then Some((c, Done(Some(r), c.regs[r].outcome.value))) else None
    case Registering(r) => Some((c, Answered(r, answer)))
    case Answered(r, o) => if r < |c.regs| then Some((AfterWrite(c, r, o), Wrote(r, o))) else None
    case Wrote(r, o) => if r < |c.regs| && !c.regs[r].done then Some((AfterClose(c, r), Closed(r, o))) else None
    case Closed(r, o) =>
      Some((AfterRetire(c, who.issuer), if o.RegistrationFailed? then Done(Some(r), o) else Retired(r, o)))
    case Retired(r, o) =>
      if o.Registered? then Some((AfterSaveCredentials(c, who.issuer, o.cc), Done(Some(r), o))) else None
    case Done(_, _) => None
  }

  function AfterMove(sys: System, i: nat, client: Client, pc: Pc): System
    requires i < |sys.callers|
  {
    sys.(client := client, callers := sys.callers[i := Caller(sys.callers[i].issuer, pc)])
  }

  /** introspectToken registers once, when the credentials its own call returned have been refused. */
  predicate MayReRegister(sys: System, issuer: string, i: nat) {
    && i < |sys.callers| && sys.callers[i].issuer == issuer && i !in sys.retried
    && sys.callers[i].pc.Done? && sys.callers[i].pc.outcome.Registered?
  }

  function Step(sys: System, e: Event): Option<System> {
    match e
    case CallerStep(i, answer) =>
      if i >= |sys.callers| then None
      else
        var next := AfterCaller(sys.client, i, sys.callers[i], answer);
        if next.None? then None
        else Some(AfterMove(sys, i, next.value.0, next.value.1))
    case OutsideBegins(issuer, i) =>
      if !MayReRegister(sys, issuer, i) then None
      else Some(sys.(outside := sys.outside + multiset{issuer}, retried := sys.retried + {i}))
    case OutsideEnds(issuer, answer) =>
      if issuer !in sys.outside then None
      else
        var ended := sys.(outside := sys.outside - multiset{issuer});
        Some(if answer.Registered? then ended.(client := AfterSaveCredentials(sys.client, issuer, answer.cc))
             else ended)
  }

  function Run(init: System, trace: seq<Event>): Option<System> {
    if trace == [] then Some(init)
    else
      var n := |trace| - 1;
      var before := Run(init, trace[..n]);
      if before.None? then None else Step(before.value, trace[n])
  }

  /** Calls about to start against a client with no registration in flight, whatever is stored. */
  predicate Initial(sys: System) {
    && sys.client.credReg == map[] && sys.client.regs == [] && sys.outside == multiset{} && sys.retried == {}
    && forall i :: 0 <= i < |sys.callers| ==> sys.callers[i].pc.Start?
  }

  /* ----- ownership --------------------------------------------------------------------- */

  predicate Leads(pc: Pc) {
    pc.Registering? || pc.Answered? || pc.Wrote? || pc.Closed?
  }

  /** Caller i leads, and the issuer's entry is its own. */
  predicate Owns(sys: System, i: nat) {
    i < |sys.callers| && Leads(sys.callers[i].pc)
  }

  /** Each leader owns its issuer's entry and its record, in the state its progress says. */
  predicate LeaderOk(c: Client, i: nat, who: Caller) {
    Leads(who.pc) ==> (
      && who.issuer in c.credReg && c.credReg[who.issuer] == who.pc.reg
      && who.pc.reg < |c.regs| && c.regs[who.pc.reg].leader == i && c.regs[who.pc.reg].issuer == who.issuer
      && c.regs[who.pc.reg].done == who.pc.Closed?
      && c.regs[who.pc.reg].outcome == (if who.pc.Wrote? || who.pc.Closed? then Some(who.pc.outcome) else None))
  }

  /** What a caller past its registration returns is what the closed record holds. */
  predicate ResultOk(c: Client, i: nat, who: Caller) {
    && (who.pc.Retired? ==>
          && who.pc.outcome.Registered? && IsClosed(c, who.pc.reg, who.issuer, who.pc.outcome)
          && c.regs[who.pc.reg].leader == i)
    && (who.pc.Done? && who.pc.via.Some? ==> IsClosed(c, who.pc.via.value, who.issuer, who.pc.outcome))
    && (who.pc.Waiting? ==>
        who.pc.reg < |c.regs| && c.regs[who.pc.reg].issuer == who.issuer && c.regs[who.pc.reg].leader != i)
  }

  predicate IsClosed(c: Client, r: nat, issuer: string, o: Outcome) {
    r < |c.regs| && c.regs[r].issuer == issuer && c.regs[r].done && c.regs[r].outcome == Some(o)
  }

  /** A record is done and read-only, or still led by the call that created it. */
  predicate RecordOk(sys: System, r: nat) {
    r < |sys.client.regs| ==> (
      var rec := sys.client.regs[r];
      && rec.leader < |sys.callers| && sys.callers[rec.leader].issuer == rec.issuer
      && (if rec.done then rec.outcome.Some? && LeaderReturns(sys.callers[rec.leader].pc, r, rec.outcome.value)
          else Leads(sys.callers[rec.leader].pc) && sys.callers[rec.leader].pc.reg == r))
  }

  /** The leader has closed r with this outcome and returns, or has returned, it. */
  predicate LeaderReturns(pc: Pc, r: nat, o: Outcome) {
    pc == Closed(r, o) || pc == Retired(r, o) || pc == Done(Some(r), o)
  }

  ghost predicate Inv(sys: System) {
    && (forall i :: 0 <= i < |sys.callers| ==>
        LeaderOk(sys.client, i, sys.callers[i]) && ResultOk(sys.client, i, sys.callers[i]))
    && (forall r :: 0 <= r < |sys.client.regs| ==> RecordOk(sys, r))
    && (forall s :: s in sys.client.credReg ==> EntryOwned(sys, s))
  }

  /** A present entry belongs to the one active leader of its record. */
  predicate EntryOwned(sys: System, s: string) {
    s in sys.client.credReg ==> (
      var r := sys.client.credReg[s];
      && r < |sys.client.regs| && sys.client.regs[r].issuer == s
      && Owns(sys, sys.client.regs[r].leader) && sys.callers[sys.client.regs[r].leader].pc.reg == r)
  }

  lemma {:induction false} Invariant(init: System, trace: seq<Event>)
    requires Initial(init) && Run(init, trace).Some?
    ensures Inv(Run(init, trace).value)
    ensures |Run(init, trace).value.callers| == |init.callers|
  {
    if trace != [] {
      var n := |trace| - 1;
      Invariant(init, trace[..n]);
      StepKeeps(Run(init, trace[..n]).value, trace[n]);
    }
  }

  lemma StepKeeps(sys: System, e: Event)
    requires Inv(sys) && Step(sys, e).Some?
    ensures Inv(Step(sys, e).value)
  {
    var next := Step(sys, e).value;
    forall j | 0 <= j < |next.callers|
      ensures LeaderOk(next.client, j, next.callers[j]) && ResultOk(next.client, j, next.callers[j])
    {
      StepKeepsCaller(sys, e, j);
    }
    forall r | 0 <= r < |next.client.regs| ensures RecordOk(next, r) {
      StepKeepsRecord(sys, e, r);
    }
    forall s | s in next.client.credReg ensures EntryOwned(next, s) {
      StepKeepsEntry(sys, e, s);
    }
  }

  lemma StepKeepsCaller(sys: System, e: Event, j: nat)
    requires Inv(sys) && Step(sys, e).Some? && j < |sys.callers|
    ensures var next := Step(sys, e).value;
      && |next.callers| == |sys.callers|
      && LeaderOk(next.client, j, next.callers[j]) && ResultOk(next.client, j, next.callers[j])
  {
    assert LeaderOk(sys.client, j, sys.callers[j]) && ResultOk(sys.client, j, sys.callers[j]);
    if e.CallerStep? {
      assert LeaderOk(sys.client, e.i, sys.callers[e.i]);
      assert EntryOwned(sys, sys.callers[e.i].issuer);
      var next := AfterCaller(sys.client, e.i, sys.callers[e.i], e.answer).value;
      if j == e.i {
        MoverKeeps(sys.client, j, sys.callers[j], e.answer, next.0, next.1);
      } else {
        OthersKept(sys.client, e.i, sys.callers[e.i], e.answer, next.0, next.1, j, sys.callers[j]);
      }
    }
  }

  /** The caller that steps still owns what it leads, or holds what was closed. */
  lemma MoverKeeps(c: Client, i: nat, who: Caller, answer: Outcome, next: Client, pc: Pc)
    requires AfterCaller(c, i, who, answer) == Some((next, pc))
    requires LeaderOk(c, i, who) && ResultOk(c, i, who)
    requires who.issuer in c.credReg ==>
      c.credReg[who.issuer] < |c.regs| && c.regs[c.credReg[who.issuer]].issuer == who.issuer
    requires who.issuer in c.credReg && who.pc.Missed? ==> c.regs[c.credReg[who.issuer]].leader != i
    ensures LeaderOk(next, i, Caller(who.issuer, pc)) && ResultOk(next, i, Caller(who.issuer, pc))
  {
  }

  /** And what another caller leads or read is untouched, since each leads its own issuer's one record. */
  lemma OthersKept(c: Client, i: nat, who: Caller, answer: Outcome, next: Client, pc: Pc, j: nat, other: Caller)
    requires i != j && AfterCaller(c, i, who, answer) == Some((next, pc))
    requires LeaderOk(c, i, who) && LeaderOk(c, j, other) && ResultOk(c, j, other)
    ensures LeaderOk(next, j, other) && ResultOk(next, j, other)
  {
  }

  lemma StepKeepsRecord(sys: System, e: Event, r: nat)
    requires Inv(sys) && Step(sys, e).Some?
    ensures RecordOk(Step(sys, e).value, r)
  {
    assert RecordOk(sys, r);
    if e.CallerStep? {
      var i, who := e.i, sys.callers[e.i];
      assert LeaderOk(sys.client, i, who) && ResultOk(sys.client, i, who);
      var next := AfterCaller(sys.client, i, who, e.answer).value;
      RecordKept(sys, i, e.answer, next.0, next.1, r);
    }
  }

  lemma RecordKept(sys: System, i: nat, answer: Outcome, next: Client, pc: Pc, r: nat)
    requires i < |sys.callers| && AfterCaller(sys.client, i, sys.callers[i], answer) == Some((next, pc))
    requires LeaderOk(sys.client, i, sys.callers[i]) && ResultOk(sys.client, i, sys.callers[i]) && RecordOk(sys, r)
    ensures RecordOk(AfterMove(sys, i, next, pc), r)
  {
    if Leads(sys.callers[i].pc) {
      RecordKeptByLeader(sys, i, answer, next, pc, r);
    } else if sys.callers[i].pc.Missed? {
      RecordKeptByJoin(sys, i, answer, next, pc, r);
    } else {
      RecordKeptByReader(sys, i, answer, next, pc, r);
    }
  }

  lemma RecordKeptByLeader(sys: System, i: nat, answer: Outcome, next: Client, pc: Pc, r: nat)
    requires i < |sys.callers| && AfterCaller(sys.client, i, sys.callers[i], answer) == Some((next, pc))
    requires LeaderOk(sys.client, i, sys.callers[i]) && RecordOk(sys, r) && Leads(sys.callers[i].pc)
    ensures RecordOk(AfterMove(sys, i, next, pc), r)
  {
  }

  lemma RecordKeptByJoin(sys: System, i: nat, answer: Outcome, next: Client, pc: Pc, r: nat)
    requires i < |sys.callers| && AfterCaller(sys.client, i, sys.callers[i], answer) == Some((next, pc))
    requires RecordOk(sys, r) && sys.callers[i].pc.Missed?
    ensures RecordOk(AfterMove(sys, i, next, pc), r)
  {
  }

  lemma RecordKeptByReader(sys: System, i: nat, answer: Outcome, next: Client, pc: Pc, r: nat)
    requires i < |sys.callers| && AfterCaller(sys.client, i, sys.callers[i], answer) == Some((next, pc))
    requires ResultOk(sys.client, i, sys.callers[i]) && RecordOk(sys, r)
    requires !Leads(sys.callers[i].pc) && !sys.callers[i].pc.Missed?
    ensures RecordOk(AfterMove(sys, i, next, pc), r)
  {
  }

  /** The delete removes the stepping leader's own entry, and no one else's. */
  lemma StepKeepsEntry(sys: System, e: Event, s: string)
    requires Inv(sys) && Step(sys, e).Some?
    ensures EntryOwned(Step(sys, e).value, s)
  {
    assert EntryOwned(sys, s);
    if e.CallerStep? {
      var i, who := e.i, sys.callers[e.i];
      assert LeaderOk(sys.client, i, who);
      var next := AfterCaller(sys.client, i, who, e.answer).value;
      EntryKept(sys, i, e.answer, next.0, next.1, s);
    }
  }

  lemma EntryKept(sys: System, i: nat, answer: Outcome, next: Client, pc: Pc, s: string)
    requires i < |sys.callers| && AfterCaller(sys.client, i, sys.callers[i], answer) == Some((next, pc))
    requires LeaderOk(sys.client, i, sys.callers[i]) && EntryOwned(sys, s)
    ensures EntryOwned(AfterMove(sys, i, next, pc), s)
  {
    if Leads(sys.callers[i].pc) {
      EntryKeptByLeader(sys, i, answer, next, pc, s);
    } else if sys.callers[i].pc.Missed? {
      EntryKeptByJoin(sys, i, answer, next, pc, s);
    } else {
      EntryKeptByReader(sys, i, answer, next, pc, s);
    }
  }

  lemma EntryKeptByLeader(sys: System, i: nat, answer: Outcome, next: Client, pc: Pc, s: string)
    requires i < |sys.callers| && AfterCaller(sys.client, i, sys.callers[i], answer) == Some((next, pc))
    requires LeaderOk(sys.client, i, sys.callers[i]) && EntryOwned(sys, s) && Leads(sys.callers[i].pc)
    ensures EntryOwned(AfterMove(sys, i, next, pc), s)
  {
  }

  lemma EntryKeptByJoin(sys: System, i: nat, answer: Outcome, next: Client, pc: Pc, s: string)
    requires i < |sys.callers| && AfterCaller(sys.client, i, sys.callers[i], answer) == Some((next, pc))
    requires EntryOwned(sys, s) && sys.callers[i].pc.Missed?
    ensures EntryOwned(AfterMove(sys, i, next, pc), s)
  {
  }

  lemma EntryKeptByReader(sys: System, i: nat, answer: Outcome, next: Client, pc: Pc, s: string)
    requires i < |sys.callers| && AfterCaller(sys.client, i, sys.callers[i], answer) == Some((next, pc))
    requires EntryOwned(sys, s) && !Leads(sys.callers[i].pc) && !sys.callers[i].pc.Missed?
    ensures EntryOwned(AfterMove(sys, i, next, pc), s)
  {
  }

  /* ----- safety -------------------------------------------------------------------------- */

  /** The clientCredentials calls whose registration request for this issuer is in flight. */
  function InFlight(sys: System, issuer: string): set<nat> {
    set i: nat | i < |sys.callers| && sys.callers[i].issuer == issuer && sys.callers[i].pc.Registering?
  }

  /**
    At most one registration that clientCredentials started is in flight per issuer, and a
    present entry always belongs to the one call leading it.
  */
  lemma OneRegistrationInFlight(init: System, trace: seq<Event>, issuer: string)
    requires Initial(init) && Run(init, trace).Some?
    ensures var sys := Run(init, trace).value;
      && (forall i: nat, j: nat ::
            Owns(sys, i) && Owns(sys, j) && sys.callers[i].issuer == sys.callers[j].issuer ==> i == j)
      && |InFlight(sys, issuer)| <= 1
      && (issuer in sys.client.credReg ==> exists i: nat :: Owns(sys, i) && sys.callers[i].issuer == issuer)
  {
    Invariant(init, trace);
    var sys := Run(init, trace).value;
    forall i: nat, j: nat | Owns(sys, i) && Owns(sys, j) && sys.callers[i].issuer == sys.callers[j].issuer
      ensures i == j
    {
      assert LeaderOk(sys.client, i, sys.callers[i]) && LeaderOk(sys.client, j, sys.callers[j]);
    }
    AtMostOne(InFlight(sys, issuer));
    assert EntryOwned(sys, issuer);
  }

  /** Every registration for an issuer that is in flight, those introspectToken started included. */
  function Pending(sys: System, issuer: string): nat {
    |InFlight(sys, issuer)| + sys.outside[issuer]
  }

  /** Stepping now, the call finds no entry and leads a registration of its own. */
  predicate WouldLead(sys: System, i: nat) {
    i < |sys.callers| && sys.callers[i].pc.Missed? && sys.callers[i].issuer !in sys.client.credReg
  }

  /** The event starts a registration beside one in flight: one guard is never consulted for the other. */
  predicate Overlaps(sys: System, e: Event, issuer: string) {
    match e
    case CallerStep(i, _) => WouldLead(sys, i) && sys.callers[i].issuer == issuer && sys.outside[issuer] > 0
    case OutsideBegins(s, _) => s == issuer && Pending(sys, issuer) > 0
    case OutsideEnds(_, _) => false
  }

  /** What an event does to the registrations in flight for an issuer. */
  lemma StepPending(sys: System, e: Event, issuer: string)
    requires Inv(sys) && Step(sys, e).Some?
    ensures var next := Step(sys, e).value;
      match e
      case CallerStep(i, _) =>
        && i < |sys.callers| && next.outside == sys.outside
        && (WouldLead(sys, i) && sys.callers[i].issuer == issuer ==>
              InFlight(sys, issuer) == {} && InFlight(next, issuer) == {i})
        && (!(WouldLead(sys, i) && sys.callers[i].issuer == issuer) ==> InFlight(next, issuer) <= InFlight(sys, issuer))
      case OutsideBegins(s, _) =>
        InFlight(next, issuer) == InFlight(sys, issuer)
        && next.outside[issuer] == sys.outside[issuer] + if s == issuer then 1 else 0
      case OutsideEnds(_, _) =>
        InFlight(next, issuer) == InFlight(sys, issuer) && next.outside[issuer] <= sys.outside[issuer]
  {
    var next := Step(sys, e).value;
    if e.CallerStep? {
      forall j | j in InFlight(sys, issuer) ensures issuer in sys.client.credReg {
        assert LeaderOk(sys.client, j, sys.callers[j]);
      }
      assert forall j :: 0 <= j < |sys.callers| && j != e.i ==> next.callers[j] == sys.callers[j];
    }
  }

  lemma SubsetIsNoLarger(s: set<nat>, t: set<nat>)
    requires s <= t
    ensures |s| <= |t|
  {
    assert t == s + (t - s);
  }

  /**
    From a reachable state with at most one registration in flight for an issuer, an event keeps
    it at most one exactly when it starts none beside one in flight.
  */
  lemma OneStaysOneIff(init: System, trace: seq<Event>, e: Event, issuer: string)
    requires Initial(init) && Run(init, trace).Some? && Step(Run(init, trace).value, e).Some?
    requires Pending(Run(init, trace).value, issuer) <= 1
    ensures Pending(Step(Run(init, trace).value, e).value, issuer) <= 1
      <==> !Overlaps(Run(init, trace).value, e, issuer)
  {
    Invariant(init, trace);
    var sys := Run(init, trace).value;
    StepPending(sys, e, issuer);
    if e.CallerStep? && !(WouldLead(sys, e.i) && sys.callers[e.i].issuer == issuer) {
      SubsetIsNoLarger(InFlight(Step(sys, e).value, issuer), InFlight(sys, issuer));
    }
  }

  /** No event of the run started a registration for the issuer beside one in flight. */
  predicate NeverOverlaps(init: System, trace: seq<Event>, issuer: string)
    requires Run(init, trace).Some?
  {
    trace == [] || (
      var before := trace[..|trace| - 1];
      NeverOverlaps(init, before, issuer) && !Overlaps(Run(init, before).value, trace[|trace| - 1], issuer))
  }

  /** At no point of the run were two registrations for the issuer in flight. */
  predicate AlwaysAtMostOne(init: System, trace: seq<Event>, issuer: string)
    requires Run(init, trace).Some?
  {
    && Pending(Run(init, trace).value, issuer) <= 1
    && (trace != [] ==> AlwaysAtMostOne(init, trace[..|trace| - 1], issuer))
  }

  /**
    Over a whole run, at most one registration for an issuer was ever in flight exactly when no
    event started one beside another; in particular whenever introspectToken started none for it.
  */
  lemma {:induction false} AtMostOneIffNeverOverlaps(init: System, trace: seq<Event>, issuer: string)
    requires Initial(init) && Run(init, trace).Some?
    ensures AlwaysAtMostOne(init, trace, issuer) <==> NeverOverlaps(init, trace, issuer)
  {
    if trace == [] {
      assert InFlight(init, issuer) == {};
    } else {
      var before := trace[..|trace| - 1];
      AtMostOneIffNeverOverlaps(init, before, issuer);
      if AlwaysAtMostOne(init, before, issuer) {
        OneStaysOneIff(init, before, trace[|trace| - 1], issuer);
      }
    }
  }

  lemma {:induction false} AtMostOneWithoutOutside(init: System, trace: seq<Event>, issuer: string)
    requires Initial(init) && Run(init, trace).Some?
    requires forall e :: e in trace ==> !(e.OutsideBegins? && e.issuer == issuer)
    ensures Run(init, trace).value.outside[issuer] == 0
    ensures AlwaysAtMostOne(init, trace, issuer)
  {
    if trace == [] {
      assert InFlight(init, issuer) == {};
    } else {
      var n := |trace| - 1;
      AtMostOneWithoutOutside(init, trace[..n], issuer);
      assert trace[n] in trace;
      Invariant(init, trace[..n]);
      StepPending(Run(init, trace[..n]).value, trace[n], issuer);
      OneStaysOneIff(init, trace[..n], trace[n], issuer);
    }
  }

  lemma RunAppend(init: System, trace: seq<Event>, e: Event)
    requires Run(init, trace).Some?
    ensures Run(init, trace + [e]) == Step(Run(init, trace).value, e)
  {
    assert (trace + [e])[..|trace|] == trace;
  }

  lemma AtMostOne(s: set<nat>)
    requires forall i, j :: i in s && j in s ==> i == j
    ensures |s| <= 1
  {
    if s != {} {
      var i :| i in s;
      assert s == {i};
    }
  }

  /** When a leader deletes the issuer's entry, the entry it deletes is its own. */
  lemma DeleteRemovesOwnEntry(init: System, trace: seq<Event>, i: nat)
    requires Initial(init) && Run(init, trace).Some?
    requires i < |init.callers|
    ensures |Run(init, trace).value.callers| == |init.callers|
    ensures var sys := Run(init, trace).value; var who := sys.callers[i];
      who.pc.Closed? ==> who.issuer in sys.client.credReg && sys.client.credReg[who.issuer] == who.pc.reg
                         && who.pc.reg < |sys.client.regs| && sys.client.regs[who.pc.reg].leader == i
  {
    Invariant(init, trace);
    var sys := Run(init, trace).value;
    assert LeaderOk(sys.client, i, sys.callers[i]);
  }

  /**
    Whoever returns through a record returns exactly what that record's leader returns or
    has returned, for the same issuer, and the record's channel was closed before it was read.
  */
  lemma FollowersReturnLeadersResult(init: System, trace: seq<Event>, i: nat)
    requires Initial(init) && Run(init, trace).Some? && i < |init.callers|
    ensures |Run(init, trace).value.callers| == |init.callers|
    ensures var sys := Run(init, trace).value; var pc := sys.callers[i].pc;
      pc.Done? && pc.via.Some? ==> (
        && IsClosed(sys.client, pc.via.value, sys.callers[i].issuer, pc.outcome)
        && var leader := sys.client.regs[pc.via.value].leader;
           leader < |sys.callers| && LeaderReturns(sys.callers[leader].pc, pc.via.value, pc.outcome))
  {
    Invariant(init, trace);
    var sys := Run(init, trace).value;
    var pc := sys.callers[i].pc;
    assert ResultOk(sys.client, i, sys.callers[i]);
    if pc.Done? && pc.via.Some? {
      assert RecordOk(sys, pc.via.value);
    }
  }

  /** A record whose channel is closed is never written again. */
  lemma ClosedRecordsAreFrozen(sys: System, e: Event, r: nat)
    requires Inv(sys) && Step(sys, e).Some? && r < |sys.client.regs| && sys.client.regs[r].done
    ensures r < |Step(sys, e).value.client.regs| && Step(sys, e).value.client.regs[r] == sys.client.regs[r]
  {
    if e.CallerStep? {
      assert LeaderOk(sys.client, e.i, sys.callers[e.i]);
    }
  }

  /* ----- where credentials come from ------------------------------------------------------- */

  /** The credentials each issuer's registration has answered with, and those stored at the start. */
  function Given(init: System, trace: seq<Event>): set<(string, ClientCredentials)>
    requires Run(init, trace).Some?
  {
    if trace == [] then set s | s in init.client.store :: (s, init.client.store[s])
    else
      var before := trace[..|trace| - 1];
      Given(init, before) + AnsweredBy(Run(init, before).value, trace[|trace| - 1])
  }

  /** What the event brings in, if it is the endpoint's answer to a registration in flight. */
  function AnsweredBy(sys: System, e: Event): set<(string, ClientCredentials)> {
    match e
    case CallerStep(i, Registered(cc)) =>
      if i < |sys.callers| && sys.callers[i].pc.Registering? then {(sys.callers[i].issuer, cc)} else {}
    case OutsideEnds(issuer, Registered(cc)) => {(issuer, cc)}
    case _ => {}
  }

  /** Credentials only ever reach the issuer they were given for. */
  predicate FromGiven(given: set<(string, ClientCredentials)>, issuer: string, o: Outcome) {
    o.Registered? ==> (issuer, o.cc) in given
  }

  predicate PcFromGiven(given: set<(string, ClientCredentials)>, who: Caller) {
    match who.pc
    case Answered(_, o) => FromGiven(given, who.issuer, o)
    case Wrote(_, o) => FromGiven(given, who.issuer, o)
    case Closed(_, o) => FromGiven(given, who.issuer, o)
    case Retired(_, o) => FromGiven(given, who.issuer, o)
    case Done(_, o) => FromGiven(given, who.issuer, o)
    case _ => true
  }

  predicate RegFromGiven(given: set<(string, ClientCredentials)>, r: Record) {
    r.outcome.Some? ==> FromGiven(given, r.issuer, r.outcome.value)
  }

  predicate AllFromGiven(given: set<(string, ClientCredentials)>, sys: System) {
    && (forall s :: s in sys.client.store ==> (s, sys.client.store[s]) in given)
    && (forall i :: 0 <= i < |sys.callers| ==> PcFromGiven(given, sys.callers[i]))
    && (forall r :: 0 <= r < |sys.client.regs| ==> RegFromGiven(given, sys.client.regs[r]))
  }

  lemma {:induction false} NothingInvented(init: System, trace: seq<Event>)
    requires Initial(init) && Run(init, trace).Some?
    ensures AllFromGiven(Given(init, trace), Run(init, trace).value)
  {
    if trace != [] {
      var before := trace[..|trace| - 1];
      NothingInvented(init, before);
      Invariant(init, before);
      StepFromGiven(Given(init, before), Run(init, before).value, trace[|trace| - 1]);
    }
  }

  lemma StepFromGiven(given: set<(string, ClientCredentials)>, sys: System, e: Event)
    requires Inv(sys) && AllFromGiven(given, sys) && Step(sys, e).Some?
    ensures AllFromGiven(given + AnsweredBy(sys, e), Step(sys, e).value)
  {
    var next, more := Step(sys, e).value, given + AnsweredBy(sys, e);
    if e.CallerStep? {
      var i, who := e.i, sys.callers[e.i];
      assert LeaderOk(sys.client, i, who) && ResultOk(sys.client, i, who);
      MoveFromGiven(given, more, sys.client, i, who, e.answer, next.client, next.callers[i].pc);
      forall j | 0 <= j < |next.callers| ensures PcFromGiven(more, next.callers[j]) {
        assert j != i ==> next.callers[j] == sys.callers[j] && PcFromGiven(given, sys.callers[j]);
      }
    } else {
      assert forall j :: 0 <= j < |next.callers| ==> PcFromGiven(given, sys.callers[j]);
      assert forall r :: 0 <= r < |next.client.regs| ==> RegFromGiven(given, sys.client.regs[r]);
    }
  }

  lemma MoveFromGiven(given: set<(string, ClientCredentials)>, more: set<(string, ClientCredentials)>,
                      c: Client, i: nat, who: Caller, answer: Outcome, next: Client, pc: Pc)
    requires AfterCaller(c, i, who, answer) == Some((next, pc)) && given <= more
    requires LeaderOk(c, i, who) && ResultOk(c, i, who) && PcFromGiven(given, who)
    requires forall s :: s in c.store ==> (s, c.store[s]) in given
    requires forall r :: 0 <= r < |c.regs| ==> RegFromGiven(given, c.regs[r])
    requires who.pc.Registering? ==> FromGiven(more, who.issuer, answer)
    ensures PcFromGiven(more, Caller(who.issuer, pc))
    ensures forall s :: s in next.store ==> (s, next.store[s]) in more
    ensures forall r :: 0 <= r < |next.regs| ==> RegFromGiven(more, next.regs[r])
  {
    forall r | 0 <= r < |next.regs| ensures RegFromGiven(more, next.regs[r]) {
      assert r < |c.regs| ==> RegFromGiven(given, c.regs[r]);
    }
    if who.pc.Waiting? && who.pc.reg < |c.regs| {
      assert RegFromGiven(given, c.regs[who.pc.reg]);
    }
  }

  /** What a call returns was stored at the start or answered by a registration, for its own issuer. */
  lemma ReturnsGivenCredentials(init: System, trace: seq<Event>, i: nat)
    requires Initial(init) && Run(init, trace).Some? && i < |Run(init, trace).value.callers|
    ensures var who := Run(init, trace).value.callers[i];
      who.pc.Done? && who.pc.outcome.Registered? ==> (who.issuer, who.pc.outcome.cc) in Given(init, trace)
  {
    NothingInvented(init, trace);
    assert PcFromGiven(Given(init, trace), Run(init, trace).value.callers[i]);
  }

  /** The store changes only by a save, the leader's or introspectToken's, and the last one stands. */
  lemma StoreChangesBySaves(sys: System, e: Event)
    requires Step(sys, e).Some?
    ensures var before, after := sys.client.store, Step(sys, e).value.client.store;
      match e
      case CallerStep(i, _) =>
        && i < |sys.callers|
        && (if sys.callers[i].pc.Retired? && sys.callers[i].pc.outcome.Registered?
            then after == before[sys.callers[i].issuer := sys.callers[i].pc.outcome.cc] else after == before)
      case OutsideBegins(_, _) => after == before
      case OutsideEnds(issuer, Registered(cc)) => after == before[issuer := cc]
      case OutsideEnds(issuer, RegistrationFailed(_)) => after == before
  {
  }

  lemma {:induction false} PrefixRuns(init: System, trace: seq<Event>, k: nat)
    requires Run(init, trace).Some? && k <= |trace|
    ensures Run(init, trace[..k]).Some?
  {
    if k == |trace| {
      assert trace[..k] == trace;
    } else {
      var n := |trace| - 1;
      PrefixRuns(init, trace[..n], k);
      assert trace[..n][..k] == trace[..k];
    }
  }

  /** The event at k happened. */
  lemma StepAt(init: System, trace: seq<Event>, k: nat)
    requires Run(init, trace).Some? && k < |trace|
    ensures Run(init, trace[..k]).Some? && Step(Run(init, trace[..k]).value, trace[k]).Some?
  {
    PrefixRuns(init, trace, k + 1);
    assert trace[..k + 1][..k] == trace[..k];
  }

  /** The calls whose introspection has registered again so far. */
  lemma {:induction false} RetriedSoFar(init: System, trace: seq<Event>, j: nat)
    requires Initial(init) && Run(init, trace).Some? && j < |trace| && trace[j].OutsideBegins?
    ensures trace[j].i in Run(init, trace).value.retried
  {
    var n := |trace| - 1;
    LastEvent(init, trace, trace[..n], trace[n]);
    RetriedGrows(Run(init, trace[..n]).value, trace[n]);
    if j < n {
      RetriedSoFar(init, trace[..n], j);
    }
  }

  lemma RetriedGrows(sys: System, e: Event)
    requires Step(sys, e).Some?
    ensures sys.retried <= Step(sys, e).value.retried
    ensures e.OutsideBegins? ==> e.i in Step(sys, e).value.retried
  {
  }

  /**
    An introspection registers again only after its own call returned credentials, which some
    registration gave for that issuer or the store held at the start; and it does so once.
  */
  lemma ReRegistersOnce(init: System, trace: seq<Event>, k: nat)
    requires Initial(init) && Run(init, trace).Some? && k < |trace| && trace[k].OutsideBegins?
    ensures Run(init, trace[..k]).Some? && trace[k].i < |Run(init, trace[..k]).value.callers|
    ensures var who := Run(init, trace[..k]).value.callers[trace[k].i];
      && who.issuer == trace[k].issuer && who.pc.Done? && who.pc.outcome.Registered?
      && (trace[k].issuer, who.pc.outcome.cc) in Given(init, trace[..k])
    ensures forall j :: 0 <= j < k && trace[j].OutsideBegins? ==> trace[j].i != trace[k].i
  {
    StepAt(init, trace, k);
    forall j | 0 <= j < k && trace[j].OutsideBegins? ensures trace[j].i != trace[k].i {
      RetriedSoFar(init, trace[..k], j);
    }
    ReturnsGivenCredentials(init, trace[..k], trace[k].i);
  }

  /** A call that led a successful registration has saved it when it returns. */
  predicate SavedIfLed(sys: System, i: nat) {
    i < |sys.callers| ==>
      var pc := sys.callers[i].pc;
      (&& pc.Done? && pc.via.Some? && pc.outcome.Registered? && pc.via.value < |sys.client.regs|
       && sys.client.regs[pc.via.value].leader == i) ==> sys.callers[i].issuer in sys.client.store
  }

  lemma {:induction false} LeaderHasSaved(init: System, trace: seq<Event>, i: nat)
    requires Initial(init) && Run(init, trace).Some?
    ensures SavedIfLed(Run(init, trace).value, i)
  {
    if trace != [] {
      var n := |trace| - 1;
      LeaderHasSaved(init, trace[..n], i);
      Invariant(init, trace[..n]);
      StepKeepsSaved(Run(init, trace[..n]).value, trace[n], i);
    }
  }

  lemma StepKeepsSaved(sys: System, e: Event, i: nat)
    requires Inv(sys) && Step(sys, e).Some? && SavedIfLed(sys, i)
    ensures SavedIfLed(Step(sys, e).value, i)
  {
    StoreChangesBySaves(sys, e);
    if i < |sys.callers| {
      assert ResultOk(sys.client, i, sys.callers[i]);
      if e.CallerStep? && e.i != i {
        assert Step(sys, e).value.callers[i] == sys.callers[i];
        LeadersStay(sys, e);
      }
    }
  }

  /** No event changes who leads a record there is. */
  lemma LeadersStay(sys: System, e: Event)
    requires Step(sys, e).Some?
    ensures |sys.client.regs| <= |Step(sys, e).value.client.regs|
    ensures forall r :: 0 <= r < |sys.client.regs| ==>
      Step(sys, e).value.client.regs[r].leader == sys.client.regs[r].leader
  {
  }

  /* ----- progress ---------------------------------------------------------------------------- */

  function Rank(pc: Pc): nat {
    match pc
    case Start => 8
    case Missed => 7
    case Registering(_) => 6
    case Answered(_, _) => 5
    case Wrote(_, _) => 4
    case Closed(_, _) => 3
    case Retired(_, _) => 2
    case Waiting(_) => 1
    case Done(_, _) => 0
  }

  function Total(callers: seq<Caller>): nat {
    if callers == [] then 0 else Rank(callers[0].pc) + Total(callers[1..])
  }

  lemma {:induction false} TotalUpdate(callers: seq<Caller>, i: nat, c: Caller)
    requires i < |callers|
    ensures Total(callers[i := c]) == Total(callers) - Rank(callers[i].pc) + Rank(c.pc)
  {
    if i == 0 {
      assert callers[i := c][1..] == callers[1..];
    } else {
      TotalUpdate(callers[1..], i - 1, c);
      assert callers[i := c][1..] == callers[1..][i - 1 := c];
    }
  }

  /** Every step of a call brings the calls strictly closer to done; other events do not set them back. */
  lemma StepsDescend(sys: System, e: Event)
    requires Step(sys, e).Some?
    ensures e.CallerStep? ==> Total(Step(sys, e).value.callers) < Total(sys.callers)
    ensures !e.CallerStep? ==> Step(sys, e).value.callers == sys.callers
  {
    if e.CallerStep? {
      TotalUpdate(sys.callers, e.i, Step(sys, e).value.callers[e.i]);
    }
  }

  predicate Finished(sys: System) {
    forall i :: 0 <= i < |sys.callers| ==> sys.callers[i].pc.Done?
  }

  /** No deadlock: while some call is unfinished, some call can step, whatever the endpoint answers. */
  lemma SomeCallCanStep(init: System, trace: seq<Event>, answer: Outcome) returns (i: nat)
    requires Initial(init) && Run(init, trace).Some?
    requires !Finished(Run(init, trace).value)
    ensures Step(Run(init, trace).value, CallerStep(i, answer)).Some?
  {
    Invariant(init, trace);
    var sys := Run(init, trace).value;
    i :| 0 <= i < |sys.callers| && !sys.callers[i].pc.Done?;
    var pc := sys.callers[i].pc;
    assert LeaderOk(sys.client, i, sys.callers[i]) && ResultOk(sys.client, i, sys.callers[i]);
    if pc.Waiting? {
      assert RecordOk(sys, pc.reg);
      var rec := sys.client.regs[pc.reg];
      if !rec.done {
        i := rec.leader;
        assert LeaderOk(sys.client, i, sys.callers[i]);
      }
    }
  }

  function CallerSteps(trace: seq<Event>): nat {
    if trace == [] then 0
    else CallerSteps(trace[..|trace| - 1]) + if trace[|trace| - 1].CallerStep? then 1 else 0
  }

  lemma {:induction false} TotalBound(callers: seq<Caller>)
    ensures Total(callers) <= 8 * |callers|
  {
    if callers != [] { TotalBound(callers[1..]); }
  }

  lemma {:induction false} StepsAndTotal(init: System, trace: seq<Event>)
    requires Run(init, trace).Some?
    ensures Total(Run(init, trace).value.callers) + CallerSteps(trace) <= Total(init.callers)
  {
    if trace != [] {
      var n := |trace| - 1;
      StepsAndTotal(init, trace[..n]);
      StepsDescend(Run(init, trace[..n]).value, trace[n]);
    }
  }

  /**
    Every run takes at most eight steps per call, and one that can take no further step has
    finished every call and left no issuer with an entry, failed registrations included.
  */
  lemma RunsFinish(init: System, trace: seq<Event>)
    requires Initial(init) && Run(init, trace).Some?
    ensures CallerSteps(trace) <= 8 * |init.callers|
    ensures (forall i, answer :: Step(Run(init, trace).value, CallerStep(i, answer)).None?) ==>
      Finished(Run(init, trace).value) && Run(init, trace).value.client.credReg == map[]
    ensures Finished(Run(init, trace).value) ==> Run(init, trace).value.client.credReg == map[]
  {
    StepsAndTotal(init, trace);
    TotalBound(init.callers);
    Invariant(init, trace);
    var sys := Run(init, trace).value;
    if !Finished(sys) {
      var i := SomeCallCanStep(init, trace, RegistrationFailed("timeout"));
    } else {
      forall s ensures s !in sys.client.credReg {
        assert EntryOwned(sys, s);
      }
    }
  }

  /* ----- what single flight does not give ---------------------------------------------------- */

  /** The call is still to read the store, or was served from it. */
  predicate Served(sys: System, i: nat, issuer: string) {
    && i < |sys.callers| && sys.callers[i].issuer == issuer && issuer in sys.client.store
    && (sys.callers[i].pc.Start?
        || (sys.callers[i].pc.Done? && sys.callers[i].pc.via.None? && sys.callers[i].pc.outcome.Registered?))
  }

  lemma ServedKept(sys: System, e: Event, i: nat, issuer: string)
    requires Served(sys, i, issuer) && Step(sys, e).Some?
    ensures Served(Step(sys, e).value, i, issuer)
  {
    if e.CallerStep? && e.i != i {
      assert Step(sys, e).value.callers[i] == sys.callers[i];
    }
  }

  /** A call that has not read the store when credentials are in it never registers: it gets stored ones. */
  lemma {:induction false} NoRegistrationAfterSave(saved: System, trace: seq<Event>, i: nat, issuer: string)
    requires Served(saved, i, issuer) && Run(saved, trace).Some?
    ensures Served(Run(saved, trace).value, i, issuer)
  {
    if trace != [] {
      var n := |trace| - 1;
      NoRegistrationAfterSave(saved, trace[..n], i, issuer);
      ServedKept(Run(saved, trace[..n]).value, trace[n], i, issuer);
    }
  }

  /** The issuer's credentials are stored, and the call is neither past its lookup unserved nor registering. */
  predicate PastRegistering(sys: System, i: nat, issuer: string) {
    && i < |sys.callers| && sys.callers[i].issuer == issuer && issuer in sys.client.store
    && !sys.callers[i].pc.Missed? && !sys.callers[i].pc.Registering?
  }

  /** Waiting, served, answered or returned, no call comes back to registering. */
  lemma {:induction false} NeverRegisters(sys: System, more: seq<Event>, i: nat, issuer: string)
    requires PastRegistering(sys, i, issuer) && Run(sys, more).Some?
    ensures PastRegistering(Run(sys, more).value, i, issuer)
  {
    if more != [] {
      var n := |more| - 1;
      NeverRegisters(sys, more[..n], i, issuer);
      StaysPast(Run(sys, more[..n]).value, more[n], i, issuer);
    }
  }

  lemma StaysPast(sys: System, e: Event, i: nat, issuer: string)
    requires PastRegistering(sys, i, issuer) && Step(sys, e).Some?
    ensures PastRegistering(Step(sys, e).value, i, issuer)
  {
    if e.CallerStep? && e.i != i {
      assert Step(sys, e).value.callers[i] == sys.callers[i];
    }
  }

  lemma {:induction false} RunFrom(sys: System, e: Event, more: seq<Event>)
    requires Step(sys, e).Some?
    ensures Run(sys, [e] + more) == Run(Step(sys, e).value, more)
  {
    var all := [e] + more;
    if more == [] {
      assert all == [] + [e];
      LastEvent(sys, all, [], e);
    } else {
      var n := |more| - 1;
      RunFrom(sys, e, more[..n]);
      LastEvent(sys, all, [e] + more[..n], more[n]);
      LastEvent(Step(sys, e).value, more, more[..n], more[n]);
    }
  }

  /** A run is a run without its last event, then that event. */
  lemma LastEvent(sys: System, all: seq<Event>, before: seq<Event>, last: Event)
    requires all == before + [last]
    ensures Run(sys, all) == if Run(sys, before).None? then None else Step(Run(sys, before).value, last)
  {
    assert all[..|all| - 1] == before;
  }

  predicate Registers(sys: System, more: seq<Event>, i: nat) {
    Run(sys, more).Some? && i < |Run(sys, more).value.callers| && Run(sys, more).value.callers[i].pc.Registering?
  }

  /** How far the leader of the issuer's entry still is from deleting it. */
  function StepsToRetire(sys: System, issuer: string): nat {
    if issuer !in sys.client.credReg || sys.client.credReg[issuer] >= |sys.client.regs| then 0
    else
      var leader := sys.client.regs[sys.client.credReg[issuer]].leader;
      if leader < |sys.callers| then Rank(sys.callers[leader].pc) else 0
  }

  /** A call that has missed the store registers once the entry it would follow is gone. */
  lemma {:induction false} MissedCanRegister(sys: System, i: nat) returns (more: seq<Event>)
    requires Inv(sys) && i < |sys.callers| && sys.callers[i].pc.Missed?
    ensures Registers(sys, more, i)
    decreases StepsToRetire(sys, sys.callers[i].issuer)
  {
    var issuer := sys.callers[i].issuer;
    var failed := RegistrationFailed("");
    if issuer !in sys.client.credReg {
      more := [CallerStep(i, failed)];
      assert [] + [CallerStep(i, failed)] == more;
      RunAppend(sys, [], CallerStep(i, failed));
    } else {
      var j := LeaderMoves(sys, i);
      var e := CallerStep(j, failed);
      StepKeeps(sys, e);
      var rest := MissedCanRegister(Step(sys, e).value, i);
      RunFrom(sys, e, rest);
      more := [e] + rest;
    }
  }

  /** The leader of the entry can step, which brings its deletion nearer and leaves the waiting call where it was. */
  lemma LeaderMoves(sys: System, i: nat) returns (j: nat)
    requires Inv(sys) && i < |sys.callers| && sys.callers[i].pc.Missed?
    requires sys.callers[i].issuer in sys.client.credReg
    ensures Step(sys, CallerStep(j, RegistrationFailed(""))).Some?
    ensures var next := Step(sys, CallerStep(j, RegistrationFailed(""))).value;
      && |next.callers| == |sys.callers| && next.callers[i] == sys.callers[i]
      && StepsToRetire(next, sys.callers[i].issuer) < StepsToRetire(sys, sys.callers[i].issuer)
  {
    var issuer := sys.callers[i].issuer;
    assert EntryOwned(sys, issuer);
    j := sys.client.regs[sys.client.credReg[issuer]].leader;
    assert LeaderOk(sys.client, j, sys.callers[j]);
  }

  /**
    Once the issuer's credentials are stored, a call that is not registering can still come to
    register exactly when it has missed the store and not yet joined: never if it has still to
    read the store, follows another call, or has been answered.
  */
  lemma RegistersAgainIffMissed(init: System, trace: seq<Event>, i: nat)
    requires Initial(init) && Run(init, trace).Some? && i < |Run(init, trace).value.callers|
    requires var sys := Run(init, trace).value;
      sys.callers[i].issuer in sys.client.store && !sys.callers[i].pc.Registering?
    ensures (exists more :: Registers(Run(init, trace).value, more, i))
      <==> Run(init, trace).value.callers[i].pc.Missed?
  {
    var sys := Run(init, trace).value;
    if sys.callers[i].pc.Missed? {
      Invariant(init, trace);
      var more := MissedCanRegister(sys, i);
    } else {
      forall more ensures !Registers(sys, more, i) {
        if Run(sys, more).Some? {
          NeverRegisters(sys, more, i, sys.callers[i].issuer);
        }
      }
    }
  }

  /** Two calls for one issuer, in the given places, against the given shared state. */
  function Pair(issuer: string, c: Client, p: Pc, q: Pc): System {
    System(c, [Caller(issuer, p), Caller(issuer, q)], multiset{}, {})
  }

  lemma FirstMoves(init: System, trace: seq<Event>, issuer: string, c: Client, p: Pc, q: Pc, answer: Outcome,
                   c': Client, p': Pc)
    returns (longer: seq<Event>)
    requires Run(init, trace) == Some(Pair(issuer, c, p, q))
    requires AfterCaller(c, 0, Caller(issuer, p), answer) == Some((c', p'))
    ensures Run(init, longer) == Some(Pair(issuer, c', p', q))
  {
    longer := trace + [CallerStep(0, answer)];
    assert longer[..|trace|] == trace;
    assert [Caller(issuer, p), Caller(issuer, q)][0 := Caller(issuer, p')] == [Caller(issuer, p'), Caller(issuer, q)];
  }

  lemma SecondMoves(init: System, trace: seq<Event>, issuer: string, c: Client, p: Pc, q: Pc, answer: Outcome,
                    c': Client, q': Pc)
    returns (longer: seq<Event>)
    requires Run(init, trace) == Some(Pair(issuer, c, p, q))
    requires AfterCaller(c, 1, Caller(issuer, q), answer) == Some((c', q'))
    ensures Run(init, longer) == Some(Pair(issuer, c', p, q'))
  {
    longer := trace + [CallerStep(1, answer)];
    assert longer[..|trace|] == trace;
    assert [Caller(issuer, p), Caller(issuer, q)][1 := Caller(issuer, q')] == [Caller(issuer, p), Caller(issuer, q')];
  }

  /**
    One at a time is not one ever: the entry is deleted before the credentials are saved, so a
    call that read the store earlier can lead a second registration after a successful first.
  */
  lemma SecondRegistrationCanFollowASuccess(issuer: string, cc: ClientCredentials)
    returns (init: System, trace: seq<Event>)
    ensures Initial(init) && Run(init, trace).Some?
    ensures |Run(init, trace).value.callers| == 2
    ensures var cs := Run(init, trace).value.callers;
      cs[0].pc == Retired(0, Registered(cc)) && cs[1].pc == Registering(1) && cs[0].issuer == cs[1].issuer == issuer
  {
    var ok := Registered(cc);
    var retired;
    init, trace, retired := FirstRetires(issuer, ok);
    var again := AfterJoin(retired, issuer, 1);
    trace := SecondMoves(init, trace, issuer, retired, Retired(0, ok), Missed, ok, again, Registering(1));
  }

  /**
    And two can be in flight at once: of two calls that missed the store, the first registers,
    saves and returns; its introspection is refused and registers again; and the second call,
    finding no entry, leads a registration beside that one.
  */
  lemma TwoInFlight(issuer: string, cc: ClientCredentials) returns (init: System, trace: seq<Event>)
    ensures Initial(init) && Run(init, trace).Some? && Pending(Run(init, trace).value, issuer) == 2
    ensures OutsideBegins(issuer, 0) in trace && InFlight(Run(init, trace).value, issuer) == {1}
  {
    var ok := Registered(cc);
    var retired;
    init, trace, retired := FirstRetires(issuer, ok);
    trace := FirstSaves(init, trace, issuer, retired, cc);
    trace := JoinsBesideOutside(init, trace, issuer, AfterSaveCredentials(retired, issuer, cc), Done(Some(0), ok), ok);
  }

  lemma FirstSaves(init: System, before: seq<Event>, issuer: string, c: Client, cc: ClientCredentials)
    returns (trace: seq<Event>)
    requires Run(init, before) == Some(Pair(issuer, c, Retired(0, Registered(cc)), Missed))
    ensures Run(init, trace)
         == Some(Pair(issuer, AfterSaveCredentials(c, issuer, cc), Done(Some(0), Registered(cc)), Missed))
  {
    trace := FirstMoves(init, before, issuer, c, Retired(0, Registered(cc)), Missed, Registered(cc),
                        AfterSaveCredentials(c, issuer, cc), Done(Some(0), Registered(cc)));
  }

  /** Both calls miss the store, and the first registers and deletes its entry. */
  lemma FirstRetires(issuer: string, ok: Outcome) returns (init: System, trace: seq<Event>, retired: Client)
    requires ok.Registered?
    ensures Initial(init) && Run(init, trace) == Some(Pair(issuer, retired, Retired(0, ok), Missed))
    ensures issuer !in retired.credReg && |retired.regs| == 1
  {
    var open := AfterJoin(IDLE, issuer, 0);
    var written := AfterWrite(open, 0, ok);
    var closed := AfterClose(written, 0);
    init := Pair(issuer, IDLE, Start, Start);
    trace := BothMissFirstLeads(issuer, ok);
    trace := LeaderRetires(issuer, init, trace, open, written, closed, ok);
    retired := AfterRetire(closed, issuer);
  }

  /** One introspection of the first call re-registers; the second call then leads. */
  lemma JoinsBesideOutside(init: System, before: seq<Event>, issuer: string, c: Client, p: Pc, ok: Outcome)
    returns (trace: seq<Event>)
    requires Run(init, before) == Some(Pair(issuer, c, p, Missed))
    requires p.Done? && p.outcome.Registered? && issuer !in c.credReg
    ensures Run(init, trace).Some? && Pending(Run(init, trace).value, issuer) == 2
    ensures OutsideBegins(issuer, 0) in trace && InFlight(Run(init, trace).value, issuer) == {1}
  {
    var again, joins := OutsideBegins(issuer, 0), CallerStep(1, ok);
    RunAppend(init, before, again);
    RunAppend(init, before + [again], joins);
    trace := before + [again] + [joins];
    assert again == trace[|before|];
    var sys := Run(init, trace).value;
    assert sys.callers == [Caller(issuer, p), Caller(issuer, Registering(|c.regs|))];
    assert InFlight(sys, issuer) == {1};
  }

  const IDLE := Client(map[], map[], [])

  lemma BothMissFirstLeads(issuer: string, ok: Outcome) returns (trace: seq<Event>)
    ensures Run(Pair(issuer, IDLE, Start, Start), trace)
         == Some(Pair(issuer, AfterJoin(IDLE, issuer, 0), Registering(0), Missed))
  {
    var init := Pair(issuer, IDLE, Start, Start);
    trace := [];
    trace := FirstMoves(init, trace, issuer, IDLE, Start, Start, ok, IDLE, Missed);
    trace := SecondMoves(init, trace, issuer, IDLE, Missed, Start, ok, IDLE, Missed);
    trace := FirstMoves(init, trace, issuer, IDLE, Missed, Missed, ok, AfterJoin(IDLE, issuer, 0), Registering(0));
  }

  /** The four steps of a leader whose registration succeeds, on the shared state. */
  lemma LeaderSteps(issuer: string, open: Client, written: Client, closed: Client, ok: Outcome)
    requires |open.regs| == 1 && !open.regs[0].done && ok.Registered?
    requires written == AfterWrite(open, 0, ok) && |written.regs| == 1 && closed == AfterClose(written, 0)
    ensures AfterCaller(open, 0, Caller(issuer, Registering(0)), ok) == Some((open, Answered(0, ok)))
    ensures AfterCaller(open, 0, Caller(issuer, Answered(0, ok)), ok) == Some((written, Wrote(0, ok)))
    ensures AfterCaller(written, 0, Caller(issuer, Wrote(0, ok)), ok) == Some((closed, Closed(0, ok)))
    ensures AfterCaller(closed, 0, Caller(issuer, Closed(0, ok)), ok)
      == Some((AfterRetire(closed, issuer), Retired(0, ok)))
  {
  }

  lemma LeaderRetires(issuer: string, init: System, before: seq<Event>, open: Client, written: Client, closed: Client,
                      ok: Outcome)
    returns (trace: seq<Event>)
    requires |open.regs| == 1 && !open.regs[0].done && ok.Registered?
    requires written == AfterWrite(open, 0, ok) && |written.regs| == 1 && closed == AfterClose(written, 0)
    requires Run(init, before) == Some(Pair(issuer, open, Registering(0), Missed))
    ensures Run(init, trace) == Some(Pair(issuer, AfterRetire(closed, issuer), Retired(0, ok), Missed))
  {
    LeaderSteps(issuer, open, written, closed, ok);
    trace := FirstMoves(init, before, issuer, open, Registering(0), Missed, ok, open, Answered(0, ok));
    trace := FirstMoves(init, trace, issuer, open, Answered(0, ok), Missed, ok, written, Wrote(0, ok));
    trace := FirstMoves(init, trace, issuer, written, Wrote(0, ok), Missed, ok, closed, Closed(0, ok));
    trace := FirstMoves(init, trace, issuer, closed, Closed(0, ok), Missed, ok, AfterRetire(closed, issuer),
                        Retired(0, ok));
  }
}
