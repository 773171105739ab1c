/**
  What each rail settles when a session closes: the amounts of SessionRuns carried into the
  request bodies of Settlement.
*/
module SettledAmounts {
  import opened Wrappers
  import opened Amounts
  import opened Credentials
  import opened X402
  import opened SessionCap
  import opened Settlement
  import opened PaymentSessions
  import opened SessionRuns

  /** Cap derivation and settlement select the same accept, readable payload or not. */
  lemma SameRequirement(c: Credential, reqs: Option<Requirements>)
    ensures SelectX402Accept(X402Payload(c), reqs) == SelectX402Accept(ParsedOrEmpty(c), reqs)
  {
    SelectionReadsOnlyAccepted(X402Payload(c), ParsedOrEmpty(c), reqs);
  }

  /**
    Whenever a run of an x402 session reaches Settle, the body overrides the amount exactly
    when the selected accept is of the "upto" scheme, and then with the sum accepted before the
    snapshot: the clamp to the cap never changes it.
  */
  lemma X402SettlesSnapshot(c: Credential, sctx: SettlementContext, destination: string, trace: Trace, k: nat)
    returns (at: nat)
    requires Run(Opened(ProtocolX402, c, sctx), trace).Some?
    requires k < |trace| && trace[k].Reached?
    ensures at < k && trace[at] == Began(trace[k].id, trace[k].amount)
    ensures
      var requirement := SelectX402Accept(ParsedOrEmpty(c), sctx.paymentRequirements);
      var body := Body(ProtocolX402, c, sctx, destination, Some(trace[k].amount));
      && body.Ok?
      && ("settlementOverrides" in body.value <==> requirement.Some? && requirement.value.scheme == "upto")
      && ("settlementOverrides" in body.value ==>
            body.value["settlementOverrides"] == Obj(map["amount" := Str(MicroString(Accepted(trace[..at])))]))
      && (requirement.Some? ==> Get(body.value, "paymentRequirements") == Obj(AcceptJson(requirement.value)))
  {
    OpenedIsFresh(ProtocolX402, c, sctx);
    at := SettlesItsSnapshot(Opened(ProtocolX402, c, sctx), trace, k);
    SameRequirement(c, sctx.paymentRequirements);
    StepAt(Opened(ProtocolX402, c, sctx), trace, k);
    LedgerConserved(Opened(ProtocolX402, c, sctx), trace[..k]);
    AcceptedGrows(trace[..k], at);
    assert trace[..k][..at] == trace[..at];
    X402Body(c, sctx, destination, trace[k].amount);
  }

  lemma X402Body(c: Credential, sctx: SettlementContext, destination: string, amount: Amount)
    requires var cap := DeriveSessionCap(ProtocolX402, c, sctx); cap.unlimited || amount <= cap.amount
    ensures
      var requirement := SelectX402Accept(ParsedOrEmpty(c), sctx.paymentRequirements);
      var body := Body(ProtocolX402, c, sctx, destination, Some(amount));
      && body.Ok?
      && ("settlementOverrides" in body.value <==> requirement.Some? && requirement.value.scheme == "upto")
      && ("settlementOverrides" in body.value ==>
            body.value["settlementOverrides"] == Obj(map["amount" := Str(MicroString(amount))]))
      && (requirement.Some? ==> Get(body.value, "paymentRequirements") == Obj(AcceptJson(requirement.value)))
  {
    X402Override(c, sctx, amount);
    SameRequirement(c, sctx.paymentRequirements);
    var requirement := SelectX402Accept(ParsedOrEmpty(c), sctx.paymentRequirements);
    X402BodyFields(X402Payload(c), requirement,
                   if requirement.Some? && requirement.value.scheme == "upto" then Some(amount) else None,
                   sctx, destination);
  }

  /** The fields of a body assembled as the x402 branch assembles it. */
  lemma X402BodyFields(payload: Object, requirement: Option<X402Option>, metered: Option<Amount>,
                       sctx: SettlementContext, destination: string)
    ensures
      var out := map["payload" := Obj(payload)];
      var out := if requirement.Some? then out["paymentRequirements" := Obj(AcceptJson(requirement.value))] else out;
      var body := WithIds(WithOverride(out, metered), sctx, destination);
      && ("settlementOverrides" in body <==> metered.Some?)
      && (metered.Some? ==> body["settlementOverrides"] == Obj(map["amount" := Str(MicroString(metered.value))]))
      && (requirement.Some? ==> Get(body, "paymentRequirements") == Obj(AcceptJson(requirement.value)))
  {
    var start := map["payload" := Obj(payload)];
    var out := if requirement.Some? then start["paymentRequirements" := Obj(AcceptJson(requirement.value))] else start;
    BodyKeys();
    WithIdsKeeps(WithOverride(out, metered), sctx, destination, "settlementOverrides");
    WithIdsKeeps(WithOverride(out, metered), sctx, destination, "paymentRequirements");
  }

  /** Within the derived cap, the metered amount is the amount itself. */
  lemma X402Override(c: Credential, sctx: SettlementContext, amount: Amount)
    requires var cap := DeriveSessionCap(ProtocolX402, c, sctx); cap.unlimited || amount <= cap.amount
    ensures
      var requirement := SelectX402Accept(ParsedOrEmpty(c), sctx.paymentRequirements);
      MeteredAmount(ProtocolX402, c, sctx, Some(amount))
        == if requirement.Some? && requirement.value.scheme == "upto" then Some(amount) else None
  {
    SameRequirement(c, sctx.paymentRequirements);
  }

  /** An MPP channel settles the snapshot; a one-shot MPP charge carries no override. */
  lemma MppSettlesSnapshot(c: Credential, sctx: SettlementContext, destination: string, trace: Trace, k: nat)
    returns (at: nat)
    requires Run(Opened(ProtocolMpp, c, sctx), trace).Some?
    requires k < |trace| && trace[k].Reached?
    ensures at < k && trace[at] == Began(trace[k].id, trace[k].amount)
    ensures
      var body := Body(ProtocolMpp, c, sctx, destination, Some(trace[k].amount));
      && (body.Ok? <==> ParseCredentialJson(c).Some?)
      && (body.Ok? ==> (
            && ("settlementOverrides" in body.value <==> RequiresClose(ProtocolMpp, c))
            && ("settlementOverrides" in body.value ==>
                  body.value["settlementOverrides"] == Obj(map["amount" := Str(MicroString(Accepted(trace[..at])))]))))
  {
    OpenedIsFresh(ProtocolMpp, c, sctx);
    at := SettlesItsSnapshot(Opened(ProtocolMpp, c, sctx), trace, k);
    MppBody(c, sctx, destination, trace[k].amount);
  }

  lemma MppBody(c: Credential, sctx: SettlementContext, destination: string, amount: Amount)
    ensures
      var body := Body(ProtocolMpp, c, sctx, destination, Some(amount));
      && (body.Ok? <==> ParseCredentialJson(c).Some?)
      && (body.Ok? ==> (
            && ("settlementOverrides" in body.value <==> RequiresClose(ProtocolMpp, c))
            && ("settlementOverrides" in body.value ==>
                  body.value["settlementOverrides"] == Obj(map["amount" := Str(MicroString(amount))]))))
  {
    if ParseCredentialJson(c).Some? {
      var start := map["credential" := Obj(ParseCredentialJson(c).value)];
      BodyKeys();
      WithIdsKeeps(WithOverride(start, if IsMppSession(c) then Some(amount) else None), sctx, destination,
                   "settlementOverrides");
    }
  }

  predicate AllObjects(options: Json) {
    options.Arr? && forall i :: 0 <= i < |options.items| ==> options.items[i].Obj?
  }

  /** A null among objects: writing the amount into it is the write to a nil map. */
  predicate HasNilEntry(options: Json) {
    && options.Arr? && (forall i :: 0 <= i < |options.items| ==> options.items[i].Obj? || options.items[i].Null?)
    && exists i :: 0 <= i < |options.items| && options.items[i].Null?
  }

  /** What an ATXP body makes of its options: the amount in every one if all are objects, else left as they were. */
  predicate OptionsSettle(options: Json, sent: Json, amount: Amount) {
    if AllObjects(options)
    then sent.Arr? && |sent.items| == |options.items|
         && forall i :: 0 <= i < |sent.items| ==>
              sent.items[i] == Obj(options.items[i].fields["amount" := Str(FormatAmount(amount))])
    else sent == options
  }

  /**
    Whatever options an ATXP session settles with: the body fails exactly on a null among
    objects; made of objects alone, each carries the snapshot; and anything else is sent as it
    came, still asking for the cap.
  */
  lemma AtxpSettlesSnapshot(c: Credential, sctx: SettlementContext, destination: string, trace: Trace, k: nat)
    returns (at: nat)
    requires Run(Opened(ProtocolAtxp, c, sctx), trace).Some?
    requires k < |trace| && trace[k].Reached?
    ensures at < k && trace[at] == Began(trace[k].id, trace[k].amount)
    ensures
      var options := AtxpOptions(c, sctx);
      var body := Body(ProtocolAtxp, c, sctx, destination, Some(trace[k].amount));
      && (body.Err? <==> HasNilEntry(options))
      && (body.Ok? ==> (
            && "settlementOverrides" !in body.value
            && OptionsSettle(options, Get(body.value, "options"), Accepted(trace[..at]))))
  {
    OpenedIsFresh(ProtocolAtxp, c, sctx);
    at := SettlesItsSnapshot(Opened(ProtocolAtxp, c, sctx), trace, k);
    AtxpBody(c, sctx, destination, trace[k].amount);
  }

  /**
    So on a null among objects the call that reaches Settle panics, whatever the endpoint would have
    answered, and from then on nothing but charges and closes that do nothing can happen.
  */
  lemma NilEntryHoldsSession(c: Credential, sctx: SettlementContext, destination: string, reply: HttpReply,
                             trace: Trace, k: nat)
    requires Run(Opened(ProtocolAtxp, c, sctx), trace).Some? && HasNilEntry(AtxpOptions(c, sctx))
    requires k < |trace| && trace[k].Reached? && NoEventOf(trace, k + 1, trace[k].id)
    ensures OutcomeOf(Body(ProtocolAtxp, c, sctx, destination, Some(trace[k].amount)), reply) == None
    ensures var s := Run(Opened(ProtocolAtxp, c, sctx), trace).value.s; s.settling && !s.settled
    ensures forall j :: k < j < |trace| ==> trace[j].Charged? || trace[j].NoOp?
  {
    OpenedIsFresh(ProtocolAtxp, c, sctx);
    AtxpBody(c, sctx, destination, trace[k].amount);
    UnansweredReachBlocks(Opened(ProtocolAtxp, c, sctx), trace, k);
  }

  lemma AtxpBody(c: Credential, sctx: SettlementContext, destination: string, amount: Amount)
    ensures
      var options := AtxpOptions(c, sctx);
      var body := Body(ProtocolAtxp, c, sctx, destination, Some(amount));
      && (body.Err? <==> HasNilEntry(options))
      && (body.Ok? ==> (
            && "settlementOverrides" !in body.value
            && OptionsSettle(options, Get(body.value, "options"), amount)))
  {
    var out := Overridden(AtxpOptions(c, sctx), FormatAmount(amount));
    OverriddenSettles(AtxpOptions(c, sctx), amount);
    if out.Ok? {
      var parsed := if c.raw.Some? then c.raw.value else map[];
      AtxpBodyFields(FirstNonEmptyAny(Get(parsed, "sourceAccountId"), sctx.sourceAccountId),
                     Str(FirstNonEmptyStr(destination, sctx.destinationAccountId)),
                     FirstNonEmptyAny(Get(parsed, "sourceAccountToken"), c.text), out.value, sctx.paymentRequestId);
    }
  }

  lemma OverriddenSettles(options: Json, amount: Amount)
    requires options != Null
    ensures var out := Overridden(options, FormatAmount(amount));
      && (out.Err? <==> HasNilEntry(options))
      && (out.Ok? ==> OptionsSettle(options, out.value, amount))
  {
    if AllObjects(options) {
      AllOverridden(options.items, FormatAmount(amount));
    }
  }

  lemma AllOverridden(items: seq<Json>, amount: string)
    requires forall i :: 0 <= i < |items| ==> items[i].Obj?
    ensures Overridden(Arr(items), amount)
      == Ok(Arr(seq(|items|, i requires 0 <= i < |items| => WithAmount(items[i], amount))))
  {
  }

  /** The fields of a body assembled as the ATXP branch assembles it. */
  lemma AtxpBodyFields(source: Json, destination: Json, token: Json, options: Json, paymentRequestId: string)
    ensures
      var body := AddIf(map["sourceAccountId" := source, "destinationAccountId" := destination,
                            "sourceAccountToken" := token, "options" := options], "paymentRequestId", paymentRequestId);
      Get(body, "options") == options && "settlementOverrides" !in body
  {
    assert |"options"| == 7 && |"settlementOverrides"| == 19 && |"sourceAccountToken"| == 18
      && |"sourceAccountId"| == 15;
    assert |"destinationAccountId"| == 20 && |"paymentRequestId"| == 16;
  }

  /**
    The ATXP cap is read from whichever decoding yields an object; the ATXP body starts from the
    context's options, else from the raw text alone. They speak of the same options exactly when
    the context's are those, or it has none and the raw text itself is the JSON object. So a
    base64-wrapped credential is capped by options its settle body does not carry. (The text of a
    JSON object is not base64.)
  */
  lemma AtxpBodyUsesCredentialOptions(c: Credential, sctx: SettlementContext)
    requires c.raw.Some? ==> c.base64.None? && c.base64Url.None?
    ensures var options := Get(ParsedOrEmpty(c), "options");
      AtxpOptions(c, sctx) == options <==>
        if sctx.options != Null then sctx.options == options
        else options == Arr([]) || (options != Null && c.raw.Some?)
  {
  }

  /** Such a credential, whatever its text: capped at the options' amount, settled with no options at all. */
  lemma WrappedAtxpCredentialLosesOptions(text: string, amount: Amount) returns (c: Credential, sctx: SettlementContext)
    ensures c.text == text && c.base64.Some? && c.raw.None?
    ensures DeriveSessionCap(ProtocolAtxp, c, sctx) == Cap(amount, false)
    ensures Body(ProtocolAtxp, c, sctx, "atxp:m", Some(amount)).Ok?
    ensures Get(Body(ProtocolAtxp, c, sctx, "atxp:m", Some(amount)).value, "options") == Arr([])
  {
    var option := ChargeOption("base", "USDC", "0x1", amount);
    var wrapped: Object := map["options" := OptionsJson([option])];
    c := Credential(text, Some(wrapped), None, None);
    sctx := SettlementContext(None, "", "", "", Null);
    AtxpEchoCap([option], amount, c, sctx);
    assert AtxpOptions(c, sctx) == Arr([]);
    AtxpBody(c, sctx, "atxp:m", amount);
  }
}
