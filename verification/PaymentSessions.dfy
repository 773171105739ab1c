/**
  A payment session (server/paymentsession.go). The class holds the fields the mutex guards
  and has one method per critical section; each is stated against a function on the state's
  value, which the concurrent runs in SessionRuns are built from.
*/
module PaymentSessions {
  import opened Wrappers
  import opened Amounts
  import opened Credentials
  import opened SessionCap
  import opened Settlement

  datatype SettleResult = SettleResult(txHash: Option<string>, settledAmount: string, alreadySettled: bool)

  /** What the call to Settle gave back. */
  datatype SettleOutcome = SettleFailed(error: string) | SettleAnswered(result: SettleResult)

  datatype CloseError =
    | LookupError(error: string)
    | SettleError(error: string)
    | Underpayment(spent: Amount, settled: Amount, parseError: Option<AmountError>)

  datatype State = State(
    requiresClose: bool,
    cap: Amount,
    capUnlimited: bool,
    spent: Amount,
    settled: bool,
    settling: bool,
    result: Option<SettleResult>)

  function ChargeAccepted(s: State, cost: Amount): bool {
    s.capUnlimited || s.spent + cost <= s.cap
  }

  function AfterCharge(s: State, cost: Amount): State {
    if ChargeAccepted(s, cost) then s.(spent := s.spent + cost) else s
  }

  /** CloseSession returns at once, with no error, under exactly this guard. */
  predicate CloseIsNoOp(s: State) {
    s.settled || s.settling || (s.spent == 0 && !s.requiresClose)
  }

  function AfterBegin(s: State): State {
    if CloseIsNoOp(s) then s else s.(settling := true)
  }

  function AfterAbort(s: State): State {
    s.(settling := false)
  }

  /** The settled amount covers what was charged when the close began. */
  predicate Covers(r: SettleResult, spent: Amount) {
    ParseAmount(r.settledAmount).Ok? && spent <= ParseAmount(r.settledAmount).value
  }

  function FinishError(spent: Amount, outcome: SettleOutcome): Option<CloseError> {
    match outcome
    case SettleFailed(e) => Some(SettleError(e))
    case SettleAnswered(r) =>
      if Covers(r, spent) then None
      else match ParseAmount(r.settledAmount)
        case Ok(v) => Some(Underpayment(spent, v, None))
        case Err(e) => Some(Underpayment(spent, 0, Some(e)))
  }

  /** How the call that ran Settle returns: nil exactly on a covering answer, else what went wrong and by how much. */
  lemma FinishErrorMeans(spent: Amount, outcome: SettleOutcome)
    ensures FinishError(spent, outcome) == None <==> outcome.SettleAnswered? && Covers(outcome.result, spent)
    ensures outcome.SettleFailed? ==> FinishError(spent, outcome) == Some(SettleError(outcome.error))
    ensures outcome.SettleAnswered? && !Covers(outcome.result, spent) ==>
      var e := FinishError(spent, outcome).value; var settled := ParseAmount(outcome.result.settledAmount);
      && e.Underpayment? && e.spent == spent
      && (settled.Ok? ==> e.settled == settled.value && e.settled < e.spent && e.parseError == None)
      && (settled.Err? ==> e.settled == 0 && e.parseError == Some(settled.error))
  {
  }

  function AfterFinish(s: State, outcome: SettleOutcome): State {
    match outcome
    case SettleFailed(_) => s.(settling := false, settled := s.settled || !s.requiresClose)
    case SettleAnswered(r) => s.(settling := false, settled := true, result := Some(r))
  }

  function Opened(protocol: Protocol, c: Credential, sctx: SettlementContext): State {
    var cap := DeriveSessionCap(protocol, c, sctx);
    State(RequiresClose(protocol, c), cap.amount, cap.unlimited, 0, false, false, None)
  }

  /** What opening a session reads off the credential: a close is required of an MPP channel and of nothing else. */
  lemma OpenedMeans(protocol: Protocol, c: Credential, sctx: SettlementContext)
    ensures var s := Opened(protocol, c, sctx); var cap := DeriveSessionCap(protocol, c, sctx);
      && (s.requiresClose <==> protocol.ProtocolMpp? && IsMppSession(c))
      && s.capUnlimited == cap.unlimited && (!cap.unlimited ==> s.cap == cap.amount)
      && s.spent == 0 && !s.settled && !s.settling && s.result == None
  {
  }

  /** How the settle endpoint replied; `body` is the decoded response, if it decodes. */
  datatype HttpReply = TransportError(error: string) | Reply(status: int, body: Option<SettleResult>)

  function BodySent(protocol: Protocol, c: Credential, sctx: SettlementContext, destination: string,
                    actual: Option<Amount>): Option<Object> {
    match Body(protocol, c, sctx, destination, actual)
    case Ok(b) => Some(b)
    case Err(_) => None
  }

  /**
    What a call to Settle gives back: a result exactly when a body was sent and answered by a 2xx
    status with a decodable one. None is a panic: the write to a nil map, on building the body.
  */
  function OutcomeOf(body: Result<Object, BodyError>, reply: HttpReply): Option<SettleOutcome> {
    match body
    case Err(NilOptionEntry) => None
    case Err(InvalidCredential) => Some(SettleFailed("request body"))
    case Ok(_) =>
      match reply
      case TransportError(e) => Some(SettleFailed(e))
      case Reply(status, result) =>
        if !(200 <= status < 300) then Some(SettleFailed("settlement failed"))
        else if result.None? then Some(SettleFailed("decode settle response"))
        else Some(SettleAnswered(result.value))
  }

  /** A 2xx reply whose body decodes. */
  predicate IsSuccess(reply: HttpReply) {
    reply.Reply? && reply.status / 100 == 2 && reply.body.Some?
  }

  /** ProtocolSettlement.Settle */
  method Settle(protocol: Protocol, c: Credential, sctx: SettlementContext, destination: string, actual: Option<Amount>,
                reply: HttpReply)
    returns (outcome: Option<SettleOutcome>, sent: Option<Object>)
    ensures sent == BodySent(protocol, c, sctx, destination, actual)
    ensures outcome == OutcomeOf(Body(protocol, c, sctx, destination, actual), reply)
    ensures outcome.Some? && outcome.value.SettleAnswered? <==> sent.Some? && IsSuccess(reply)
    ensures outcome.Some? && outcome.value.SettleAnswered? ==> outcome.value.result == reply.body.value
  {
    sent := None;
    var body := BuildRequestBody(protocol, c, sctx, destination, actual);
    if body.Err? {
      return if body.error.NilOptionEntry? then None else Some(SettleFailed("request body")), None;
    }
    sent := Some(body.value);
    if reply.TransportError? {
      return Some(SettleFailed(reply.error)), sent;
    }
    if reply.status < 200 || reply.status >= 300 {
      return Some(SettleFailed("settlement failed")), sent;
    }
    if reply.body.None? {
      return Some(SettleFailed("decode settle response")), sent;
    }
    outcome := Some(SettleAnswered(reply.body.value));
  }

  class PaymentSession {
    const protocol: Protocol
    const credential: Credential
    const sctx: SettlementContext
    const requiresClose: bool
    const cap: Amount
    const capUnlimited: bool

    var spent: Amount
    var settled: bool
    var settling: bool
    var settleResult: SettleResult
    var settleResultSet: bool

    function Value(): State
      reads this
    {
      State(requiresClose, cap, capUnlimited, spent, settled, settling,
            if settleResultSet then Some(settleResult) else None)
    }

    /** OpenPaymentSession */
    constructor (protocol: Protocol, credential: Credential, sctx: SettlementContext)
      ensures this.protocol == protocol && this.credential == credential && this.sctx == sctx
      ensures Value() == Opened(protocol, credential, sctx)
    {
      var derived := DeriveSessionCap(protocol, credential, sctx);
      this.protocol := protocol;
      this.credential := credential;
      this.sctx := sctx;
      requiresClose := protocol == ProtocolMpp && IsMppSession(credential);
      cap, capUnlimited := derived.amount, derived.unlimited;
      spent, settled, settling := 0, false, false;
      settleResult, settleResultSet := SettleResult(None, "", false), false;
    }

    method Charge(cost: Amount) returns (ok: bool)
      modifies this
      ensures ok == ChargeAccepted(old(Value()), cost)
      ensures Value() == AfterCharge(old(Value()), cost)
    {
      var next := spent + cost;
      if !capUnlimited && GreaterThan(next, cap) {
        return false;
      }
      spent := next;
      ok := true;
    }

    method GetSettleResult() returns (r: SettleResult, set_: bool)
      ensures set_ == Value().result.Some?
      ensures set_ ==> r == Value().result.value
    {
      r, set_ := settleResult, settleResultSet;
    }

    /** The first critical section of CloseSession: the guard, then the snapshot to settle. */
    method BeginClose() returns (snapshot: Option<Amount>)
      modifies this
      ensures Value() == AfterBegin(old(Value()))
      ensures snapshot == if CloseIsNoOp(old(Value())) then None else Some(old(spent))
    {
      if settled || settling {
        return None;
      }
      if spent == 0 && !requiresClose {
        return None;
      }
      settling := true;
      snapshot := Some(spent);
    }

    /** The critical section taken when the settlement client cannot be resolved. */
    method AbortClose()
      modifies this
      ensures Value() == AfterAbort(old(Value()))
    {
      settling := false;
    }

    /** The last critical section of CloseSession, once Settle has returned. */
    method FinishClose(snapshot: Amount, outcome: SettleOutcome) returns (err: Option<CloseError>)
      modifies this
      ensures Value() == AfterFinish(old(Value()), outcome)
      ensures err == FinishError(snapshot, outcome)
    {
      if outcome.SettleFailed? {
        if !requiresClose {
          settled := true;
        }
        settling := false;
        return Some(SettleError(outcome.error));
      }
      var result := outcome.result;
      var parsed := ParseAmount(result.settledAmount);
      var amount := if parsed.Ok? then parsed.value else 0;
      settled := true;
      settleResult := result;
      settleResultSet := true;
      settling := false;
      if parsed.Err? || GreaterThan(snapshot, amount) {
        return Some(Underpayment(snapshot, amount, if parsed.Err? then Some(parsed.error) else None));
      }
      err := None;
    }
  }

  /**
    CloseSession run with no other call in between. `destination` is None when the settlement
    client cannot be resolved; `reply` is what the settle endpoint answers. A panic in Settle skips
    the last critical section, and leaves the session settling.
  */
  method CloseSession(session: PaymentSession?, destination: Option<string>, reply: HttpReply)
    returns (err: Option<CloseError>, sent: Option<Object>, panicked: bool)
    modifies session
    ensures session == null || CloseIsNoOp(old(session.Value())) ==> err == None && sent == None && !panicked
    ensures session != null && CloseIsNoOp(old(session.Value())) ==> session.Value() == old(session.Value())
    ensures session != null && !CloseIsNoOp(old(session.Value())) && destination.None? ==>
      && err == Some(LookupError("settlement")) && sent == None && !panicked
      && session.Value() == old(session.Value())
    ensures session != null && !CloseIsNoOp(old(session.Value())) && destination.Some? ==>
      var actual := Some(old(session.spent));
      var body := Body(session.protocol, session.credential, session.sctx, destination.value, actual);
      && sent == BodySent(session.protocol, session.credential, session.sctx, destination.value, actual)
      && (panicked <==> body == Err(NilOptionEntry))
      && (panicked ==> session.Value() == AfterBegin(old(session.Value())) && session.settling)
      && (!panicked ==>
            && OutcomeOf(body, reply).Some?
            && err == FinishError(old(session.spent), OutcomeOf(body, reply).value)
            && session.Value() == AfterFinish(AfterBegin(old(session.Value())), OutcomeOf(body, reply).value))
    ensures session != null && !CloseIsNoOp(old(session.Value())) && destination.Some? && !panicked ==>
      && (err == None <==> sent.Some? && IsSuccess(reply) && Covers(reply.body.value, old(session.spent)))
      && (sent.Some? && IsSuccess(reply) ==> session.settled && session.Value().result == Some(reply.body.value))
      && (!(sent.Some? && IsSuccess(reply)) ==>
            session.settled == !session.requiresClose && session.Value().result == old(session.Value()).result)
  {
    panicked := false;
    if session == null {
      return None, None, false;
    }
    var snapshot := session.BeginClose();
    if snapshot.None? {
      return None, None, false;
    }
    if destination.None? {
      session.AbortClose();
      return Some(LookupError("settlement")), None, false;
    }
    var outcome;
    outcome, sent := Settle(session.protocol, session.credential, session.sctx, destination.value, snapshot, reply);
    if outcome.None? {
      return None, sent, true;
    }
    err := session.FinishClose(snapshot.value, outcome.value);
  }
}
