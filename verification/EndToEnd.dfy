/**
  From a price to the money moved: what the merchant advertises, the payer signs and echoes,
  the merchant reads back, caps, meters and settles are the same amount.
*/
module EndToEnd {
  import opened Wrappers
  import opened Amounts
  import opened Credentials
  import opened X402
  import opened X402Challenge
  import opened MppChallenge
  import opened SessionCap
  import opened Settlement
  import opened PaymentSessions
  import opened SessionRuns
  import opened SettledAmounts
  import opened Signer
  import opened Transport
  import opened RequirePayment
  import opened GateRuns
  import opened Networks
  import RoundTrips

  /** The x402 requirements in a challenge, and the options they were built from. */
  lemma ChallengeX402(paymentId: string, price: Amount, sources: seq<Source>, pr: PaymentRequest, world: World,
                      ch: Challenge)
    requires ChallengeFor(paymentId, price, sources, pr, world) == Some(ch)
    ensures ch.x402
         == Requirements(2, Advertised(OptionsAt(sources, price, "USDC"), Terms(pr.resource, "", world.facilitators)))
  {
  }

  /**
    x402 agreement. A payer answering a challenge for a price signs a transfer of exactly that
    price to the first eligible address listed for its network; its credential, sent in the retry,
    is detected as x402; the accept the merchant re-selects from it is the one signed; and the
    session opened on it is one-shot and capped at exactly the price.
  */
  lemma X402Agreement(paymentId: string, price: Amount, sources: seq<Source>, pr: PaymentRequest, world: World,
                      ch: Challenge, address: string, pinnedNetwork: string, now: int, nonce: string,
                      sign: SignFunction, signed: Signed, c: Credential, sctx: SettlementContext,
                      h: Header, bearer: Option<string>)
    returns (i: int, accept: X402Option)
    requires ChallengeFor(paymentId, price, sources, pr, world) == Some(ch)
    requires Authorize(Some(ch.x402), address, pinnedNetwork, now, nonce, sign) == Ok(signed)
    requires ParseCredentialJson(c) == Some(signed.credential) && c.text != ""
    requires sctx.paymentRequirements == Some(ch.x402)
    requires DetectProtocol(h) == None && REQUEST_ID !in h
    ensures 0 <= i < |sources| && Eligible(Evm, ChargeOption(sources[i].chain, "USDC", sources[i].address, price))
    ensures forall j :: 0 <= j < i && sources[j].chain == sources[i].chain ==> !("0x" <= sources[j].address)
    ensures signed.transfer.value == price && signed.transfer.to == sources[i].address == accept.payTo
    ensures SelectExactAccept(ch.x402, pinnedNetwork) == Some(accept)
    ensures DetectProtocol(AttemptHeader(PaidHeader(h, AuthorizeResult("x402", c.text), paymentId), bearer))
         == Some(Detection(ProtocolX402, c.text, paymentId))
    ensures SelectX402Accept(ParsedOrEmpty(c), sctx.paymentRequirements) == Some(accept)
    ensures Opened(ProtocolX402, c, sctx) == State(false, price, false, 0, false, false, None)
  {
    i, accept := SignedAccept(paymentId, price, sources, pr, world, ch, address, pinnedNetwork, now, nonce, sign,
                              signed);
    FirstEligibleSource(sources, price, i);
    OpensAtPrice(ch.x402, pinnedNetwork, ChargeOption(sources[i].chain, "USDC", sources[i].address, price),
                 Terms(pr.resource, "", world.facilitators), signed.credential, c, sctx);
    PaymentHeaderRoundTripOnCleanRequest(h, AuthorizeResult("x402", c.text), paymentId, bearer);
  }

  /** What the payer signs is the exact accept of the source that represents its network, and it echoes that accept. */
  lemma SignedAccept(paymentId: string, price: Amount, sources: seq<Source>, pr: PaymentRequest, world: World,
                     ch: Challenge, address: string, pinnedNetwork: string, now: int, nonce: string,
                     sign: SignFunction, signed: Signed)
    returns (i: int, accept: X402Option)
    requires ChallengeFor(paymentId, price, sources, pr, world) == Some(ch)
    requires Authorize(Some(ch.x402), address, pinnedNetwork, now, nonce, sign) == Ok(signed)
    ensures Represents(Evm, OptionsAt(sources, price, "USDC"), i) && 0 <= i < |sources|
    ensures SelectExactAccept(ch.x402, pinnedNetwork) == Some(accept)
    ensures accept == ExactAccept(ChargeOption(sources[i].chain, "USDC", sources[i].address, price),
                                  Terms(pr.resource, "", world.facilitators))
    ensures signed.transfer.value == price && signed.transfer.to == sources[i].address == accept.payTo
    ensures AcceptedField(signed.credential, "scheme") == accept.scheme
    ensures AcceptedField(signed.credential, "network") == accept.network
  {
    ChallengeX402(paymentId, price, sources, pr, world, ch);
    var options := OptionsAt(sources, price, "USDC");
    i := AuthorizeBuilt(options, Terms(pr.resource, "", world.facilitators), price, address, pinnedNetwork, now, nonce,
                        sign);
    accept := SelectExactAccept(ch.x402, pinnedNetwork).value;
  }

  lemma FirstEligibleSource(sources: seq<Source>, price: Amount, i: int)
    requires Represents(Evm, OptionsAt(sources, price, "USDC"), i)
    ensures 0 <= i < |sources| && Eligible(Evm, ChargeOption(sources[i].chain, "USDC", sources[i].address, price))
    ensures forall j :: 0 <= j < i && sources[j].chain == sources[i].chain ==> !("0x" <= sources[j].address)
  {
    var options := OptionsAt(sources, price, "USDC");
    forall j | 0 <= j < i && sources[j].chain == sources[i].chain ensures !("0x" <= sources[j].address) {
      assert options[j].network == options[i].network;
    }
  }

  /** A credential echoing the payable accept opens a one-shot session capped at its price. */
  lemma OpensAtPrice(reqs: Requirements, pinnedNetwork: string, o: ChargeOption, terms: Terms, payload: Object,
                     c: Credential, sctx: SettlementContext)
    requires SelectExactAccept(reqs, pinnedNetwork) == Some(ExactAccept(o, terms))
    requires AcceptedField(payload, "scheme") == SelectExactAccept(reqs, pinnedNetwork).value.scheme
    requires AcceptedField(payload, "network") == SelectExactAccept(reqs, pinnedNetwork).value.network
    requires ParseCredentialJson(c) == Some(payload) && sctx.paymentRequirements == Some(reqs)
    ensures SelectX402Accept(ParsedOrEmpty(c), sctx.paymentRequirements) == Some(ExactAccept(o, terms))
    ensures Opened(ProtocolX402, c, sctx) == State(false, o.amount, false, 0, false, false, None)
  {
    EchoReselects(reqs, pinnedNetwork, payload);
    MicroRoundTrip(o.amount);
  }

  /**
    What is settled is what was signed: whenever a run of the session opened on the credential
    reaches Settle, the request names the very accept the payer signed, at the price, with no
    override of its amount, and the metered total it stands for is no more than the price.
  */
  lemma SettlesWhatWasSigned(paymentId: string, price: Amount, sources: seq<Source>, pr: PaymentRequest, world: World,
                             ch: Challenge, address: string, pinnedNetwork: string, now: int, nonce: string,
                             sign: SignFunction, signed: Signed, c: Credential, sctx: SettlementContext,
                             destination: string, trace: Trace, k: nat)
    returns (i: int, accept: X402Option)
    requires ChallengeFor(paymentId, price, sources, pr, world) == Some(ch)
    requires Authorize(Some(ch.x402), address, pinnedNetwork, now, nonce, sign) == Ok(signed)
    requires ParseCredentialJson(c) == Some(signed.credential) && sctx.paymentRequirements == Some(ch.x402)
    requires Run(Opened(ProtocolX402, c, sctx), trace).Some? && k < |trace| && trace[k].Reached?
    ensures SelectExactAccept(ch.x402, pinnedNetwork) == Some(accept)
    ensures 0 <= i < |sources| && signed.transfer.to == sources[i].address == accept.payTo
    ensures signed.transfer.value == price && accept.amount == MicroString(price)
    ensures Accepted(trace[..k]) <= price && trace[k].amount <= price
    ensures var body := Body(ProtocolX402, c, sctx, destination, Some(trace[k].amount));
      && body.Ok? && "settlementOverrides" !in body.value
      && Get(body.value, "paymentRequirements") == Obj(AcceptJson(accept))
    ensures NamesTransfer(AcceptJson(accept), sources[i], price) && AcceptOf(AcceptJson(accept)) == accept
  {
    i, accept := SignedAccept(paymentId, price, sources, pr, world, ch, address, pinnedNetwork, now, nonce, sign,
                              signed);
    var o := ChargeOption(sources[i].chain, "USDC", sources[i].address, price);
    var terms := Terms(pr.resource, "", world.facilitators);
    OpensAtPrice(ch.x402, pinnedNetwork, o, terms, signed.credential, c, sctx);
    ExactAtPrice(o, terms);
    SnapshotWithinCap(Opened(ProtocolX402, c, sctx), trace, k);
    var _ := X402SettlesSnapshot(c, sctx, destination, trace, k);
    FirstEligibleSource(sources, price, i);
    AcceptRoundTrip(accept);
    ExactNamesTransfer(sources[i], price, terms);
  }

  /** In the wire's own fields: an exact transfer of the price to this source, in its network's USDC. */
  predicate NamesTransfer(m: Object, source: Source, price: Amount) {
    && Get(m, "scheme") == Str("exact") && Get(m, "network") == Str(Caip2(source.chain))
    && Get(m, "payTo") == Str(source.address) && Get(m, "amount") == Str(MicroString(price))
    && LookupUsdc(source.chain).Some? && Get(m, "asset") == Str(LookupUsdc(source.chain).value)
  }

  lemma ExactNamesTransfer(source: Source, price: Amount, terms: Terms)
    requires Eligible(Evm, ChargeOption(source.chain, "USDC", source.address, price))
    ensures NamesTransfer(AcceptJson(ExactAccept(ChargeOption(source.chain, "USDC", source.address, price), terms)),
                          source, price)
  {
    var o := ChargeOption(source.chain, "USDC", source.address, price);
    EvmAcceptDescribes(o, terms);
    AcceptPlainFields(ExactAccept(o, terms));
    AcceptOptionalFields(ExactAccept(o, terms));
    AssetIsNamed(source.chain);
  }

  lemma AssetIsNamed(network: string)
    ensures LookupUsdc(network).Some? ==> LookupUsdc(network).value != ""
  {
    assert |BASE_USDC| == 42 && |BASE_SEPOLIA_USDC| == 42 && |SOLANA_USDC| == 44 && |SOLANA_DEVNET_USDC| == 44;
  }

  lemma ExactAtPrice(o: ChargeOption, terms: Terms)
    ensures ExactAccept(o, terms).amount == MicroString(o.amount) && ExactAccept(o, terms).scheme == "exact" != "upto"
  {
  }

  /** What a call settles is within a finite cap. */
  lemma SnapshotWithinCap(init: State, trace: Trace, k: nat)
    requires Fresh(init) && !init.capUnlimited && Run(init, trace).Some? && k < |trace| && trace[k].Reached?
    ensures Accepted(trace[..k]) <= init.cap && trace[k].amount <= init.cap
  {
    StepAt(init, trace, k);
    var at := SettlesItsSnapshot(init, trace, k);
    AcceptedGrows(trace[..k], at);
    assert trace[..k][..at] == trace[..at];
  }

  /**
    And on every run of a session capped at a positive price, charges of that price are accepted
    at most once, the first one always, however many charges and closes interleave.
  */
  lemma OnePaymentBuysOneCharge(init: State, price: Amount, trace: Trace)
    requires init == State(false, price, false, 0, false, false, None) && price > 0
    requires Run(init, trace).Some?
    requires forall k :: 0 <= k < |trace| && trace[k].Charged? ==> trace[k].cost == price
    ensures Admitted(trace) == Min(Attempts(trace), 1)
    ensures Run(init, trace).value.s.spent == Admitted(trace) * price
    ensures Reaches(trace) <= 1
  {
    UniformChargesFillTheCap(init, trace, price);
    OneShotSettlesOnce(init, trace);
    assert price / price == 1;
  }

  /**
    So of any number of well-formed RequirePayment calls at that price, in any interleaving with
    each other and with closes, exactly one proceeds once all have returned, and one settle at
    most is asked for.
  */
  lemma OnePaymentBuysOneCall(w: Setting, cached: string, trace: seq<GateEvent>, price: Amount)
    requires w.init == State(false, price, false, 0, false, false, None) && price > 0
    requires forall i :: 0 <= i < |w.calls| ==> PriceOf(w, i) == price
    requires WellFormedCalls(w, cached) && GateRun(w, cached, trace).Some?
      && AllReturned(GateRun(w, cached, trace).value)
    ensures Count(GateRun(w, cached, trace).value, Told(true)) == Min(|w.calls|, 1)
    ensures Reaches(GateRun(w, cached, trace).value.history) <= 1
  {
    CallsFillTheCap(w, cached, trace, price);
    OneShotSettlesOnce(w.init, GateRun(w, cached, trace).value.history);
    assert price / price == 1;
  }

  /** A challenge as the client reads it off the wire. */
  function Wire(ch: Challenge): RoundTrips.ChallengeData {
    RoundTrips.ChallengeData(
      ch.chargeAmount, "", "",
      Some(RoundTrips.WireX402(Some(seq(|ch.x402.accepts|, i requires 0 <= i < |ch.x402.accepts| =>
        RoundTrips.WireAccept(ch.x402.accepts[i].network, ch.x402.accepts[i].payTo, ch.x402.accepts[i].amount))))),
      if ch.mpp == [] then None
      else Some(Arr(seq(|ch.mpp|, i requires 0 <= i < |ch.mpp| => Obj(ChallengeJson(ch.mpp[i]))))),
      ch.paymentRequestUrl, ch.paymentRequestId)
  }

  /** The reply carries the challenge as an MCP error under the merchant's code. */
  predicate Carries(resp: RoundTrips.Response, ch: Challenge) {
    && resp.status == 200 && resp.contentType == "application/json"
    && resp.messages == [Some(RoundTrips.RpcError(-30402, Some(Wire(ch))))]
  }

  /**
    A client answered with the merchant's challenge authorizes it: for exactly the price, on every
    rail the challenge offers, before it does anything else.
  */
  lemma ChallengeIsAuthorized(paymentId: string, price: Amount, sources: seq<Source>, pr: PaymentRequest, world: World,
                              ch: Challenge, client: RoundTrips.World, o: RoundTrips.Original,
                              actions: seq<RoundTrips.Action>,
                              r: Result<RoundTrips.Response, RoundTrips.TransportError>, resp: RoundTrips.Response)
    requires ChallengeFor(paymentId, price, sources, pr, world) == Some(ch) && Carries(resp, ch)
    requires client.accountId.Some? && client.bodyReadable && client.replies(0) == Some(resp)
    requires RoundTrips.Legal(client, o, actions) && RoundTrips.Ends(client, actions, r)
    ensures |actions| > 1 && actions[1].Authorized? && actions[1].params.amount == FormatAmount(price)
    ensures actions[1].params.paymentRequirements == Wire(ch).x402 && actions[1].params.challenges == Wire(ch).mpp
    ensures "x402" in actions[1].params.protocols && ("mpp" in actions[1].params.protocols <==> ch.mpp != [])
  {
    FormatNonEmpty(price);
    ReplyIsRead(resp, ch);
    var pay := RoundTrips.DetectPayment(resp).value;
    ParamsOfChallenge(ch, pay, client.fetched);
    RoundTrips.AskedIsAuthorized(client, o, actions, r, resp);
  }

  lemma ParamsOfChallenge(ch: Challenge, pay: RoundTrips.PaymentChallenge, fetched: (string, string))
    requires RoundTrips.ReadsAs(pay, Some(Wire(ch))) && ch.chargeAmount != ""
    ensures var p := RoundTrips.ParamsFor(pay, fetched);
      && p.amount == ch.chargeAmount && p.paymentRequirements == Wire(ch).x402 && p.challenges == Wire(ch).mpp
      && "x402" in p.protocols && ("mpp" in p.protocols <==> ch.mpp != [])
  {
    RoundTrips.ParamsAuthorize(pay, fetched);
    var p := RoundTrips.ParamsFor(pay, fetched);
    ProtocolNames();
    assert p.protocols == ["atxp"] + ["x402"] + (if pay.mpp.Some? then ["mpp"] else []);
    assert p.protocols[1] == "x402" && (pay.mpp.Some? ==> p.protocols[2] == "mpp");
  }

  lemma ProtocolNames()
    ensures "atxp" != "mpp" && "x402" != "mpp"
  {
    assert |"atxp"| == 4 && |"x402"| == 4 && |"mpp"| == 3;
  }

  lemma ReplyIsRead(resp: RoundTrips.Response, ch: Challenge)
    requires Carries(resp, ch) && ch.chargeAmount != ""
    ensures RoundTrips.DetectPayment(resp).Some?
    ensures RoundTrips.ReadsAs(RoundTrips.DetectPayment(resp).value, Some(Wire(ch)))
  {
    assert "application/json" <= resp.contentType[0..];
    assert RoundTrips.HasPart(resp.contentType, "application/json");
    assert RoundTrips.FirstAsk(resp.messages, 0);
    RoundTrips.DetectsExactly(resp);
    var d :| RoundTrips.SaysOfPayment(resp, d) && RoundTrips.ReadsAs(RoundTrips.DetectPayment(resp).value, d);
    var i :| RoundTrips.FirstAsk(resp.messages, i) && d == resp.messages[i].value.data;
  }

  /**
    Rail independence: whichever rail a credential answers a challenge on, its session is
    capped at exactly the challenge's price.
  */
  lemma RailIndependentCap(paymentId: string, price: Amount, sources: seq<Source>, pr: PaymentRequest, world: World,
                           ch: Challenge, currency: string, c: Credential, parsed: Object, sctx: SettlementContext)
    requires ChallengeFor(paymentId, price, sources, pr, world) == Some(ch)
    requires ParseCredentialJson(c) == Some(parsed) && sources != []
    ensures forall m :: m in ch.mpp && EchoesMpp(parsed, m) ==>
      Opened(ProtocolMpp, c, sctx)
        == State(m.intent == "session" || HasDescriptor(parsed), price, false, 0, false, false, None)
    ensures Get(parsed, "options") == OptionsJson(OptionsAt(sources, price, currency)) ==>
      Opened(ProtocolAtxp, c, sctx) == State(false, price, false, 0, false, false, None)
    ensures sctx.paymentRequirements == Some(ch.x402) && ch.x402.accepts != [] ==>
      Opened(ProtocolX402, c, sctx) == State(false, price, false, 0, false, false, None)
  {
    forall m | m in ch.mpp && EchoesMpp(parsed, m)
      ensures Opened(ProtocolMpp, c, sctx)
           == State(m.intent == "session" || HasDescriptor(parsed), price, false, 0, false, false, None)
    {
      SignedIsPriced(paymentId, price, sources, pr, world, ch, m);
      PricedEchoCap(price, m, c, sctx);
    }
    if Get(parsed, "options") == OptionsJson(OptionsAt(sources, price, currency)) {
      AtxpEchoCap(OptionsAt(sources, price, currency), price, c, sctx);
    }
    if sctx.paymentRequirements == Some(ch.x402) && ch.x402.accepts != [] {
      X402AnyAcceptCap(paymentId, price, sources, pr, world, ch, c, sctx);
    }
  }

  /** Whatever accept an x402 credential selects, and even when it selects none of its own, the cap is the price. */
  lemma X402AnyAcceptCap(paymentId: string, price: Amount, sources: seq<Source>, pr: PaymentRequest, world: World,
                         ch: Challenge, c: Credential, sctx: SettlementContext)
    requires ChallengeFor(paymentId, price, sources, pr, world) == Some(ch)
    requires sctx.paymentRequirements == Some(ch.x402) && ch.x402.accepts != []
    ensures DeriveSessionCap(ProtocolX402, c, sctx) == Cap(price, false)
  {
    ChallengeX402(paymentId, price, sources, pr, world, ch);
    AdvertisedAtPrice(OptionsAt(sources, price, "USDC"), Terms(pr.resource, "", world.facilitators), price);
    MicroRoundTrip(price);
  }

  lemma SignedIsPriced(paymentId: string, price: Amount, sources: seq<Source>, pr: PaymentRequest, world: World,
                       ch: Challenge, m: MppChallengeData)
    requires ChallengeFor(paymentId, price, sources, pr, world) == Some(ch) && m in ch.mpp
    ensures PricedAt(m, price)
  {
    var options := OptionsAt(sources, price, "USDC");
    var unsigned := SolanaPart(paymentId, options, pr.resource, world.solanaSession)
                  + TempoPart(paymentId, options, pr.resource, world.expires, world.tempoSession);
    var k :| 0 <= k < |ch.mpp| && ch.mpp[k] == m;
    assert unsigned[k] in unsigned;
    MppChallengeShape(paymentId, options, pr.resource, world.expires, world.tempoSession, world.solanaSession, price,
                      unsigned[k]);
    OpaqueKeepsPrice(unsigned[k], price, world.sign(pr.user, unsigned[k].id));
  }

  lemma OpaqueKeepsPrice(m: MppChallengeData, price: Amount, id: Object)
    requires PricedAt(m, price)
    ensures PricedAt(m.(opaque_ := id), price)
  {
  }
}
