/**
  Any number of RequirePayment calls on one session (server/requirepayment.go): one after
  another on the merchant itself, and interleaved with each other and with closes. A call on a
  session issues no network charge; its steps are the check, the lookup of the destination
  (server/server.go, which drops its lock around the account call) and the session charge.
*/
module GateRuns {
  import opened Wrappers
  import opened Amounts
  import opened PaymentSessions
  import opened SessionRuns
  import opened RequirePayment

  datatype Call = Call(pr: PaymentRequest, world: World)

  /* ----- one call after another --------------------------------------------------------- */

  function Proceeds(results: seq<GateResult>): nat {
    if results == [] then 0
    else Proceeds(results[..|results| - 1]) + if results[|results| - 1].Proceed? then 1 else 0
  }

  /** A call that is told to proceed, to pay this price, or which outside party failed it. */
  predicate IsAnswer(r: GateResult, price: Amount) {
    match r
    case Proceed => true
    case PaymentRequired(c) => c.chargeAmount == FormatAmount(price)
    case Failed(e) => e in {ExistingLookupFailed, CreateFailed, BadServerUrl}
  }

  /** Every call is on this session, at this effective price. */
  predicate AtOnePrice(minimum: Amount, session: PaymentSession, calls: seq<Call>, price: Amount) {
    forall k :: 0 <= k < |calls| ==> calls[k].pr.session == session && Max(minimum, calls[k].pr.price) == price
  }

  predicate AllReach(minimum: Amount, cached: string, calls: seq<Call>) {
    forall k :: 0 <= k < |calls| ==> ReachesGate(minimum, cached, calls[k].pr, calls[k].world)
  }

  /** One call that reaches the gate on a session: the session decides it, and nothing is charged elsewhere. */
  method Serve(m: Merchant, session: PaymentSession, call: Call, price: Amount)
    returns (r: GateResult, networkCharges: nat)
    requires call.pr.session == session && Max(m.minimum, call.pr.price) == price
    requires ReachesGate(m.minimum, m.cachedDestination, call.pr, call.world)
    modifies m, session
    ensures networkCharges == 0 && IsAnswer(r, price)
    ensures r.Proceed? <==> ChargeAccepted(old(session.Value()), price)
    ensures session.Value() == AfterCharge(old(session.Value()), price)
    ensures m.cachedDestination == CachedAfter(m.minimum, old(m.cachedDestination), call.pr, call.world)
  {
    r, networkCharges := m.RequirePayment(call.pr, call.world);
  }

  /**
    N calls at one effective price on a fresh session with a finite cap: the first cap / price of
    them proceed, the others are asked for that price or told what failed, no network charge is
    issued, and the session has been charged for exactly those that proceeded.
  */
  method ServeAll(m: Merchant, session: PaymentSession, calls: seq<Call>, price: Amount)
    returns (results: seq<GateResult>, networkCharges: nat)
    requires Fresh(session.Value()) && !session.capUnlimited && price > 0
    requires AtOnePrice(m.minimum, session, calls, price) && AllReach(m.minimum, m.cachedDestination, calls)
    modifies m, session
    ensures |results| == |calls| && networkCharges == 0
    ensures Proceeds(results) == Min(|calls|, session.cap / price)
    ensures forall k :: 0 <= k < |calls| ==>
      IsAnswer(results[k], price) && (results[k].Proceed? <==> k < session.cap / price)
    ensures session.Value() == old(session.Value()).(spent := Proceeds(results) * price)
  {
    results, networkCharges := [], 0;
    ghost var fits := session.cap / price;
    for i := 0 to |calls|
      invariant |results| == i && networkCharges == 0
      invariant Proceeds(results) == Min(i, fits)
      invariant session.Value() == old(session.Value()).(spent := Min(i, fits) * price)
      invariant forall k :: 0 <= k < i ==> IsAnswer(results[k], price) && (results[k].Proceed? <==> k < fits)
      invariant AllReach(m.minimum, m.cachedDestination, calls)
    {
      NextFits(i, price, session.cap);
      StillReaches(m.minimum, m.cachedDestination, calls, i);
      var r, charges := Serve(m, session, calls[i], price);
      ProceedsAppend(results, r);
      results, networkCharges := results + [r], networkCharges + charges;
    }
  }

  lemma ProceedsAppend(results: seq<GateResult>, r: GateResult)
    ensures Proceeds(results + [r]) == Proceeds(results) + if r.Proceed? then 1 else 0
  {
    assert (results + [r])[..|results|] == results;
  }

  /** What one call leaves cached lets through every call that would have passed before it. */
  lemma StillReaches(minimum: Amount, cached: string, calls: seq<Call>, i: nat)
    requires i < |calls| && AllReach(minimum, cached, calls)
    ensures AllReach(minimum, CachedAfter(minimum, cached, calls[i].pr, calls[i].world), calls)
  {
  }

  /* ----- any interleaving ------------------------------------------------------------------ */

  /** Where one call is; Told and Refused have returned. */
  datatype Place = Arrived | Asking | Identified(id: string) | Told(proceed: bool) | Refused

  /** The destination the merchant has cached, the calls, and all that happened to the session. */
  datatype Gate = Gate(cached: string, places: seq<Place>, history: Trace)

  datatype GateEvent = Moves(i: nat) | Closes(e: Event)

  /** The session, its calls and the merchant's floor: what a run is a run of. */
  datatype Setting = Setting(minimum: Amount, init: State, calls: seq<Call>)

  function PriceOf(w: Setting, i: nat): Amount
    requires i < |w.calls|
  {
    Max(w.minimum, w.calls[i].pr.price)
  }

  function AfterMove(w: Setting, g: Gate, i: nat): Option<Gate>
    requires i < |w.calls| == |g.places|
  {
    var pr, world := w.calls[i].pr, w.calls[i].world;
    match g.places[i]
    case Arrived =>
      Some(g.(places := g.places[i :=
        if pr.user == "" || (pr.price == 0 && w.minimum == 0) then Refused
        else if g.cached != "" then Identified(g.cached)
        else Asking]))
    case Asking =>
      if world.accountId.None? || world.accountId.value == "" then Some(g.(places := g.places[i := Refused]))
      else Some(g.(cached := world.accountId.value, places := g.places[i := Identified(world.accountId.value)]))
    case Identified(id) =>
      var sys := Run(w.init, g.history);
      if SplitAccountId(id).None? then Some(g.(places := g.places[i := Refused]))
      else if sys.None? then None
      else
        var ok := ChargeAccepted(sys.value.s, PriceOf(w, i));
        Some(g.(places := g.places[i := Told(ok)], history := g.history + [Charged(PriceOf(w, i), ok)]))
    case _ => None
  }

  function GateStep(w: Setting, g: Gate, e: GateEvent): Option<Gate>
    requires |w.calls| == |g.places|
  {
    match e
    case Moves(i) => if i < |w.calls| then AfterMove(w, g, i) else None
    case Closes(c) =>
      if c.Charged? || Run(w.init, g.history + [c]).None? then None else Some(g.(history := g.history + [c]))
  }

  /** How many steps a call may still take. */
  function StepsLeft(p: Place): nat {
    match p
    case Arrived => 3
    case Asking => 2
    case Identified(_) => 1
    case _ => 0
  }

  /** Where call i ends up when nothing comes between its steps. */
  function Alone(w: Setting, g: Gate, i: nat): (end: Gate)
    requires i < |w.calls| == |g.places|
    ensures |end.places| == |g.places|
    decreases StepsLeft(g.places[i])
  {
    var next := AfterMove(w, g, i);
    if next.None? then g else Alone(w, next.value, i)
  }

  /**
    The steps are those of RequirePayment: a call that runs them uninterrupted is refused, or charges
    the session its effective price and is told what the session answers, exactly as the contract of
    one call on the merchant says, and leaves the same destination cached.
  */
  lemma AloneMatchesContract(w: Setting, g: Gate, i: nat)
    requires i < |w.calls| == |g.places| && g.places[i] == Arrived && Run(w.init, g.history).Some?
    ensures var pr, world, end := w.calls[i].pr, w.calls[i].world, Alone(w, g, i);
      && end.cached == CachedAfter(w.minimum, g.cached, pr, world)
      && if ReachesGate(w.minimum, g.cached, pr, world)
         then var ok := ChargeAccepted(Run(w.init, g.history).value.s, PriceOf(w, i));
              end.places[i] == Told(ok) && end.history == g.history + [Charged(PriceOf(w, i), ok)]
         else end.places[i] == Refused && end.history == g.history
  {
    var pr, world := w.calls[i].pr, w.calls[i].world;
    if pr.user != "" && (pr.price > 0 || w.minimum > 0) {
      var asked := AfterMove(w, g, i).value;
      if g.cached == "" && Destination(g.cached, world).Some? {
        var found := AfterMove(w, asked, i).value;
        EndsFrom(w, found, i, world.accountId.value);
      } else if g.cached != "" {
        EndsFrom(w, asked, i, g.cached);
      }
    }
  }

  lemma EndsFrom(w: Setting, g: Gate, i: nat, id: string)
    requires i < |w.calls| == |g.places| && g.places[i] == Identified(id) && Run(w.init, g.history).Some?
    ensures var end := Alone(w, g, i);
      && end.cached == g.cached
      && if SplitAccountId(id).Some?
         then var ok := ChargeAccepted(Run(w.init, g.history).value.s, PriceOf(w, i));
              end.places[i] == Told(ok) && end.history == g.history + [Charged(PriceOf(w, i), ok)]
         else end.places[i] == Refused && end.history == g.history
  {
    var next := AfterMove(w, g, i).value;
    assert AfterMove(w, next, i).None?;
  }

  function GateRun(w: Setting, cached: string, trace: seq<GateEvent>): (g: Option<Gate>)
    ensures g.Some? ==> |g.value.places| == |w.calls|
  {
    if trace == [] then Some(Gate(cached, seq(|w.calls|, _ => Arrived), []))
    else
      var before := GateRun(w, cached, trace[..|trace| - 1]);
      if before.None? then None else GateStep(w, before.value, trace[|trace| - 1])
  }

  function Count(g: Gate, p: Place): nat {
    multiset(g.places)[p]
  }

  /** The session went through a run of its own, with one charge for each call that was answered. */
  ghost predicate GateInv(g: Gate, init: State, price: Amount) {
    && Run(init, g.history).Some?
    && Admitted(g.history) == Count(g, Told(true))
    && Attempts(g.history) == Count(g, Told(true)) + Count(g, Told(false))
    && forall k :: 0 <= k < |g.history| && g.history[k].Charged? ==> g.history[k].cost == price
  }

  lemma {:induction false} GateInvariant(w: Setting, cached: string, trace: seq<GateEvent>, price: Amount)
    requires Fresh(w.init) && GateRun(w, cached, trace).Some?
    requires forall i :: 0 <= i < |w.calls| ==> PriceOf(w, i) == price
    ensures GateInv(GateRun(w, cached, trace).value, w.init, price)
  {
    if trace == [] {
      var none := seq(|w.calls|, _ => Arrived);
      assert Told(true) !in none && Told(false) !in none;
    } else {
      var n := |trace| - 1;
      GateInvariant(w, cached, trace[..n], price);
      GateStepKeeps(w, GateRun(w, cached, trace[..n]).value, trace[n], price);
    }
  }

  lemma GateStepKeeps(w: Setting, g: Gate, e: GateEvent, price: Amount)
    requires |g.places| == |w.calls| && GateInv(g, w.init, price) && GateStep(w, g, e).Some?
    requires forall i :: 0 <= i < |w.calls| ==> PriceOf(w, i) == price
    ensures GateInv(GateStep(w, g, e).value, w.init, price)
  {
    var next := GateStep(w, g, e).value;
    if e.Moves? {
      MoveShape(w, g, e.i);
      CountMoved(g.places, e.i, next.places[e.i], Told(true));
      CountMoved(g.places, e.i, next.places[e.i], Told(false));
    }
    if next.history != g.history {
      HistoryGrows(w.init, g.history, next.history[|g.history|], price);
    }
  }

  /** A move changes the one call's place, and answers it exactly when it charges the session. */
  lemma MoveShape(w: Setting, g: Gate, i: nat)
    requires i < |w.calls| == |g.places| && AfterMove(w, g, i).Some?
    ensures var next := AfterMove(w, g, i).value;
      && |next.places| == |g.places| && next.places == g.places[i := next.places[i]] && !g.places[i].Told?
      && if next.places[i].Told?
         then next.history == g.history + [Charged(PriceOf(w, i), next.places[i].proceed)]
              && Run(w.init, g.history).Some?
              && next.places[i].proceed == ChargeAccepted(Run(w.init, g.history).value.s, PriceOf(w, i))
         else next.history == g.history
  {
  }

  lemma CountMoved(places: seq<Place>, i: nat, p: Place, q: Place)
    requires i < |places|
    ensures multiset(places[i := p])[q]
         == multiset(places)[q] - (if places[i] == q then 1 else 0) + if p == q then 1 else 0
  {
  }

  lemma HistoryGrows(init: State, history: Trace, e: Event, price: Amount)
    requires Run(init, history).Some? && (e.Charged? ==> e.cost == price)
    requires e.Charged? ==> e.ok == ChargeAccepted(Run(init, history).value.s, e.cost)
    requires forall k :: 0 <= k < |history| && history[k].Charged? ==> history[k].cost == price
    ensures Admitted(history + [e]) == Admitted(history) + if e.Charged? && e.ok then 1 else 0
    ensures Attempts(history + [e]) == Attempts(history) + if e.Charged? then 1 else 0
    ensures forall k :: 0 <= k < |history + [e]| && (history + [e])[k].Charged? ==> (history + [e])[k].cost == price
    ensures e.Charged? ==> Run(init, history + [e]).Some?
  {
    assert (history + [e])[..|history|] == history;
    Extend(init, history, e);
  }

  /** A destination that splits; one already cached is never replaced. */
  predicate CacheOk(now: string, cached: string) {
    (now != "" ==> SplitAccountId(now).Some?) && (cached != "" ==> now == cached)
  }

  /** Not refused, holding an identifier that splits, and asking for one only if none was cached. */
  predicate PlaceOk(p: Place, cached: string) {
    match p
    case Asking => cached == ""
    case Identified(id) => SplitAccountId(id).Some?
    case Refused => false
    case _ => true
  }

  predicate AllPass(g: Gate, cached: string) {
    CacheOk(g.cached, cached) && forall i :: 0 <= i < |g.places| ==> PlaceOk(g.places[i], cached)
  }

  /** Against this cached destination no call is turned away before it charges the session. */
  predicate WellFormedCalls(w: Setting, cached: string) {
    && (cached != "" ==> SplitAccountId(cached).Some?)
    && forall i :: 0 <= i < |w.calls| ==> (
      && w.calls[i].pr.user != "" && PriceOf(w, i) > 0
      && (cached == "" ==>
            && w.calls[i].world.accountId.Some? && w.calls[i].world.accountId.value != ""
            && SplitAccountId(w.calls[i].world.accountId.value).Some?))
  }

  lemma {:induction false} NoneRefused(w: Setting, cached: string, trace: seq<GateEvent>)
    requires WellFormedCalls(w, cached) && GateRun(w, cached, trace).Some?
    ensures AllPass(GateRun(w, cached, trace).value, cached)
  {
    if trace != [] {
      var n := |trace| - 1;
      var g, e := GateRun(w, cached, trace[..n]).value, trace[n];
      NoneRefused(w, cached, trace[..n]);
      if e.Moves? {
        MoveShape(w, g, e.i);
        MovePasses(w, cached, g, e.i);
      }
    }
  }

  lemma MovePasses(w: Setting, cached: string, g: Gate, i: nat)
    requires i < |w.calls| == |g.places| && WellFormedCalls(w, cached) && AfterMove(w, g, i).Some?
    requires CacheOk(g.cached, cached) && PlaceOk(g.places[i], cached)
    ensures var next := AfterMove(w, g, i).value;
      |next.places| == |g.places| && CacheOk(next.cached, cached) && PlaceOk(next.places[i], cached)
  {
    assert PriceOf(w, i) > 0;
  }

  predicate AllReturned(g: Gate) {
    forall i :: 0 <= i < |g.places| ==> g.places[i].Told? || g.places[i].Refused?
  }

  lemma {:induction false} CountsAdd(places: seq<Place>)
    requires forall i :: 0 <= i < |places| ==> places[i].Told?
    ensures multiset(places)[Told(true)] + multiset(places)[Told(false)] == |places|
  {
    if places != [] {
      CountsAdd(places[1..]);
      assert places == [places[0]] + places[1..];
    }
  }

  /**
    Calls at one effective price on a fresh session with a finite cap, in any interleaving with
    each other and with closes: of those that got as far as the session, exactly
    min(how many, cap / price) proceed, and the session has been charged for exactly those. Once
    all N have returned, and none was malformed, exactly min(N, cap / price) have proceeded.
  */
  lemma CallsFillTheCap(w: Setting, cached: string, trace: seq<GateEvent>, price: Amount)
    requires Fresh(w.init) && !w.init.capUnlimited && price > 0 && GateRun(w, cached, trace).Some?
    requires forall i :: 0 <= i < |w.calls| ==> PriceOf(w, i) == price
    ensures var g := GateRun(w, cached, trace).value;
      && Count(g, Told(true)) == Min(Count(g, Told(true)) + Count(g, Told(false)), w.init.cap / price)
      && Run(w.init, g.history).Some?
      && Run(w.init, g.history).value.s.spent == Count(g, Told(true)) * price
    ensures WellFormedCalls(w, cached) && AllReturned(GateRun(w, cached, trace).value) ==>
      Count(GateRun(w, cached, trace).value, Told(true)) == Min(|w.calls|, w.init.cap / price)
  {
    GateInvariant(w, cached, trace, price);
    var g := GateRun(w, cached, trace).value;
    HistoryFillsTheCap(w.init, g, price);
    if WellFormedCalls(w, cached) && AllReturned(g) {
      NoneRefused(w, cached, trace);
      CountsAdd(g.places);
    }
  }

  lemma HistoryFillsTheCap(init: State, g: Gate, price: Amount)
    requires Fresh(init) && !init.capUnlimited && price > 0 && GateInv(g, init, price)
    ensures Count(g, Told(true)) == Min(Count(g, Told(true)) + Count(g, Told(false)), init.cap / price)
    ensures Run(init, g.history).value.s.spent == Count(g, Told(true)) * price
  {
    UniformChargesFillTheCap(init, g.history, price);
  }
}
