/**
  The gate (server/requirepayment.go): charge the session or the network, or answer with a
  challenge for the same amount.
*/
module RequirePayment {
  import opened Wrappers
  import opened Text
  import opened Amounts
  import opened Credentials
  import opened Networks
  import opened X402
  import opened X402Challenge
  import opened MppChallenge
  import opened PaymentSessions

  datatype GateError =
    | NoUser
    | NoPrice
    | NoDestination
    | InvalidAccountId
    | ChargeFailed
    | ExistingLookupFailed
    | CreateFailed
    | BadServerUrl

  /** What the payment server answers to an on-demand charge. */
  datatype ChargeReply = Settled | Unpaid | ChargeError

  /** The caller's lookup of an in-flight payment: none given, failed, or an id, "" for none. */
  datatype ExistingPayment = NoLookup | LookupFailed | Existing(id: string)

  datatype PaymentRequest = PaymentRequest(price: Amount, user: string, resource: string, session: PaymentSession?)

  datatype Challenge = Challenge(
    paymentRequestId: string, paymentRequestUrl: string, chargeAmount: string,
    x402: Requirements, mpp: seq<MppChallengeData>)

  datatype GateResult = Proceed | PaymentRequired(challenge: Challenge) | Failed(error: GateError)

  /** Everything outside the merchant that one call may consult. */
  datatype World = World(
    accountId: Option<string>,
    charge: ChargeReply,
    existing: ExistingPayment,
    sources: Option<seq<Source>>,
    created: Option<string>,
    origin: Option<string>,
    facilitators: map<string, string>,
    tempoSession: Option<TempoSession>,
    solanaSession: Option<SolanaSession>,
    expires: string,
    sign: (string, string) -> Object)

  /** splitAccountID: exactly one colon, network before it and address after. */
  function SplitAccountId(id: string): Option<Source> {
    var i := IndexOrLength(id, ':');
    if i == |id| || IndexOrLength(id[i + 1..], ':') < |id[i + 1..]| then None
    else Some(Source(id[..i], id[i + 1..]))
  }

  /** An account id is a network and an address, neither holding a colon, with one between. */
  predicate IsAccountId(id: string, network: string, address: string) {
    id == network + ":" + address && ':' !in network && ':' !in address
  }

  lemma SplitAccountIdExact(id: string)
    ensures SplitAccountId(id).Some? <==> exists n, a :: IsAccountId(id, n, a)
    ensures SplitAccountId(id).Some? ==>
      IsAccountId(id, SplitAccountId(id).value.chain, SplitAccountId(id).value.address)
    ensures forall n, a :: IsAccountId(id, n, a) ==> SplitAccountId(id) == Some(Source(n, a))
  {
    var r := SplitAccountId(id);
    if r.Some? {
      var i := IndexOrLength(id, ':');
      assert id == id[..i] + ":" + id[i + 1..];
      var rest := id[i + 1..];
      assert ':' !in rest;
      assert IsAccountId(id, r.value.chain, r.value.address);
    }
    forall n, a | IsAccountId(id, n, a) ensures r == Some(Source(n, a)) {
      SplitsAt(id, n, a);
    }
  }

  lemma SplitsAt(id: string, n: string, a: string)
    requires IsAccountId(id, n, a)
    ensures SplitAccountId(id) == Some(Source(n, a))
  {
    var i := IndexOrLength(id, ':');
    assert id[|n|] == ':' && forall k :: 0 <= k < |n| ==> id[k] == n[k];
    assert i == |n|;
    assert id[..i] == n && id[i + 1..] == a;
  }

  /** sourcesToOptions at a fixed amount. */
  function OptionsAt(sources: seq<Source>, amount: Amount, currency: string): seq<ChargeOption> {
    seq(|sources|, i requires 0 <= i < |sources| =>
      ChargeOption(sources[i].chain, if currency == "" then "USDC" else currency, sources[i].address, amount))
  }

  method SourcesToOptions(sources: seq<Source>, amount: Amount, currency: string) returns (options: seq<ChargeOption>)
    ensures options == OptionsAt(sources, amount, currency)
  {
    var c := if currency == "" then "USDC" else currency;
    options := [];
    for i := 0 to |sources|
      invariant options == OptionsAt(sources[..i], amount, currency)
    {
      options := options + [ChargeOption(sources[i].chain, c, sources[i].address, amount)];
    }
    assert sources[..|sources|] == sources;
  }

  /** The primary address first, then whatever else the destination lists. */
  function AllSources(primary: Source, fetched: Option<seq<Source>>): seq<Source> {
    [primary] + if fetched.Some? then fetched.value else []
  }

  function SignAll(challenges: seq<MppChallengeData>, user: string,
                   sign: (string, string) -> Object): seq<MppChallengeData> {
    seq(|challenges|, i requires 0 <= i < |challenges| => challenges[i].(opaque_ := sign(user, challenges[i].id)))
  }

  /** The challenge for an amount, from the sources it can be received at. */
  function ChallengeFor(paymentId: string, amount: Amount, sources: seq<Source>, pr: PaymentRequest,
                        world: World): Option<Challenge> {
    var options := OptionsAt(sources, amount, "USDC");
    if world.origin.None? then None
    else Some(Challenge(
      paymentId, world.origin.value + "/payment-request/" + paymentId, FormatAmount(amount),
      Requirements(2, Advertised(options, Terms(pr.resource, "", world.facilitators))),
      SignAll(SolanaPart(paymentId, options, pr.resource, world.solanaSession)
              + TempoPart(paymentId, options, pr.resource, world.expires, world.tempoSession), pr.user, world.sign)))
  }

  /* ----- what a challenge asks ----------------------------------------------------- */

  /** The addresses it can be paid at: the destination's own, then whatever else was fetched. */
  function PayableAt(primary: Source, fetched: seq<Source>, price: Amount): seq<ChargeOption> {
    seq(|fetched| + 1, i requires 0 <= i <= |fetched| =>
      if i == 0 then ChargeOption(primary.chain, "USDC", primary.address, price)
      else ChargeOption(fetched[i - 1].chain, "USDC", fetched[i - 1].address, price))
  }

  function WithoutIdentity(challenges: seq<MppChallengeData>): seq<MppChallengeData> {
    seq(|challenges|, i requires 0 <= i < |challenges| => challenges[i].(opaque_ := map[]))
  }

  /**
    The challenge asks for this price under this payment id, at the destination's own address and
    the fetched ones, on every rail they can be paid on; and each MPP challenge carries the caller's
    identity bound to its id.
  */
  ghost predicate Asks(c: Challenge, paymentId: string, primary: Source, fetched: seq<Source>, price: Amount,
                       pr: PaymentRequest, world: World)
  {
    var options := PayableAt(primary, fetched, price);
    && c.paymentRequestId == paymentId && c.chargeAmount == FormatAmount(price)
    && world.origin.Some? && c.paymentRequestUrl == world.origin.value + "/payment-request/" + paymentId
    && c.x402.version == 2 && IsAdvertisement(c.x402.accepts, options, Terms(pr.resource, "", world.facilitators))
    && IsOffer(WithoutIdentity(c.mpp), options,
               Quote(paymentId, pr.resource, world.expires, world.tempoSession, world.solanaSession))
    && forall i :: 0 <= i < |c.mpp| ==> c.mpp[i].opaque_ == world.sign(pr.user, paymentId)
  }

  function Fetched(world: World): seq<Source> {
    if world.sources.Some? then world.sources.value else []
  }

  lemma ChallengeAsks(paymentId: string, primary: Source, price: Amount, pr: PaymentRequest, world: World, c: Challenge)
    requires ChallengeFor(paymentId, price, AllSources(primary, world.sources), pr, world) == Some(c)
    ensures Asks(c, paymentId, primary, Fetched(world), price, pr, world)
  {
    OptionsArePayable(primary, price, world);
    AdvertisedMeans(PayableAt(primary, Fetched(world), price), Terms(pr.resource, "", world.facilitators));
    SignedOffer(paymentId, PayableAt(primary, Fetched(world), price), pr, world);
  }

  lemma OptionsArePayable(primary: Source, price: Amount, world: World)
    ensures OptionsAt(AllSources(primary, world.sources), price, "USDC") == PayableAt(primary, Fetched(world), price)
  {
  }

  lemma SignedOffer(paymentId: string, options: seq<ChargeOption>, pr: PaymentRequest, world: World)
    ensures
      var unsigned := SolanaPart(paymentId, options, pr.resource, world.solanaSession)
                      + TempoPart(paymentId, options, pr.resource, world.expires, world.tempoSession);
      var signed := SignAll(unsigned, pr.user, world.sign);
      && IsOffer(WithoutIdentity(signed), options,
                 Quote(paymentId, pr.resource, world.expires, world.tempoSession, world.solanaSession))
      && forall i :: 0 <= i < |signed| ==> signed[i].opaque_ == world.sign(pr.user, paymentId)
  {
    var unsigned := SolanaPart(paymentId, options, pr.resource, world.solanaSession)
                    + TempoPart(paymentId, options, pr.resource, world.expires, world.tempoSession);
    MppOffer(paymentId, options, pr.resource, world.expires, world.tempoSession, world.solanaSession);
    UnsignedHaveNoIdentity(paymentId, options, pr, world);
    assert WithoutIdentity(SignAll(unsigned, pr.user, world.sign)) == unsigned;
  }

  lemma UnsignedHaveNoIdentity(paymentId: string, options: seq<ChargeOption>, pr: PaymentRequest, world: World)
    ensures
      var unsigned := SolanaPart(paymentId, options, pr.resource, world.solanaSession)
                      + TempoPart(paymentId, options, pr.resource, world.expires, world.tempoSession);
      forall i :: 0 <= i < |unsigned| ==> unsigned[i].opaque_ == map[] && unsigned[i].id == paymentId
  {
    SolanaHasNoIdentity(paymentId, options, pr.resource, world.solanaSession);
    TempoHasNoIdentity(paymentId, options, pr.resource, world.expires, world.tempoSession);
  }

  lemma SolanaHasNoIdentity(id: string, options: seq<ChargeOption>, resource: string, session: Option<SolanaSession>)
    ensures forall c :: c in SolanaPart(id, options, resource, session) ==> c.opaque_ == map[] && c.id == id
  {
  }

  lemma TempoHasNoIdentity(id: string, options: seq<ChargeOption>, resource: string, expires: string,
                           session: Option<TempoSession>)
    ensures forall c :: c in TempoPart(id, options, resource, expires, session) ==> c.opaque_ == map[] && c.id == id
  {
  }

  /** An exact accept for the price, to this source's address on its network, for the resource. */
  predicate PaysAt(a: X402Option, source: Source, price: Amount, pr: PaymentRequest) {
    && a.scheme == "exact" && a.network == Caip2(source.chain) && a.payTo == source.address
    && a.amount == MicroString(price) && a.resource == pr.resource
  }

  /** In particular it can always be paid at the destination's own address, when that is an EVM one. */
  lemma DestinationCanBePaid(accepts: seq<X402Option>, primary: Source, fetched: seq<Source>, price: Amount,
                             pr: PaymentRequest, facilitators: map<string, string>)
    requires IsAdvertisement(accepts, PayableAt(primary, fetched, price), Terms(pr.resource, "", facilitators))
    requires primary.chain in {"base", "base_sepolia"} && "0x" <= primary.address
    ensures exists a :: a in accepts && PaysAt(a, primary, price, pr)
  {
    var options := PayableAt(primary, fetched, price);
    assert Represents(Evm, options, 0);
    AdvertisesFirst(accepts, options, 0, Terms(pr.resource, "", facilitators));
  }

  /** And at a fetched EVM address that is the first on its network that can be paid. */
  lemma FetchedCanBePaid(accepts: seq<X402Option>, primary: Source, fetched: seq<Source>, price: Amount,
                         pr: PaymentRequest, facilitators: map<string, string>, k: nat)
    requires IsAdvertisement(accepts, PayableAt(primary, fetched, price), Terms(pr.resource, "", facilitators))
    requires k < |fetched| && fetched[k].chain in {"base", "base_sepolia"} && "0x" <= fetched[k].address
    requires primary.chain == fetched[k].chain ==> !("0x" <= primary.address)
    requires forall j :: 0 <= j < k && fetched[j].chain == fetched[k].chain ==> !("0x" <= fetched[j].address)
    ensures exists a :: a in accepts && PaysAt(a, fetched[k], price, pr)
  {
    FetchedRepresents(primary, fetched, price, k);
    AdvertisesFirst(accepts, PayableAt(primary, fetched, price), k + 1, Terms(pr.resource, "", facilitators));
  }

  lemma FetchedRepresents(primary: Source, fetched: seq<Source>, price: Amount, k: nat)
    requires k < |fetched| && fetched[k].chain in {"base", "base_sepolia"} && "0x" <= fetched[k].address
    requires primary.chain == fetched[k].chain ==> !("0x" <= primary.address)
    requires forall j :: 0 <= j < k && fetched[j].chain == fetched[k].chain ==> !("0x" <= fetched[j].address)
    ensures Represents(Evm, PayableAt(primary, fetched, price), k + 1)
  {
    var options := PayableAt(primary, fetched, price);
    forall j | 0 <= j < k + 1 && options[j].network == options[k + 1].network ensures !Eligible(Evm, options[j]) {
      assert j > 0 ==> options[j].address == fetched[j - 1].address && options[j].network == fetched[j - 1].chain;
    }
  }

  lemma AdvertisesFirst(accepts: seq<X402Option>, options: seq<ChargeOption>, i: nat, terms: Terms)
    requires IsAdvertisement(accepts, options, terms) && Represents(Evm, options, i)
    ensures exists a :: (
      && a in accepts && a.scheme == "exact" && a.network == Caip2(options[i].network)
      && a.payTo == options[i].address && a.amount == MicroString(options[i].amount) && a.resource == terms.resource)
  {
    assert HasAccept(accepts, Evm, "exact", options[i], terms);
  }

  /** The loop of buildOmniError that sets each challenge's opaque identity. */
  method SignChallenges(challenges: seq<MppChallengeData>, user: string, sign: (string, string) -> Object)
    returns (mpp: seq<MppChallengeData>)
    ensures mpp == SignAll(challenges, user, sign)
  {
    mpp := challenges;
    for i := 0 to |mpp|
      invariant |mpp| == |challenges|
      invariant forall k :: 0 <= k < |mpp| ==>
        mpp[k] == if k < i then challenges[k].(opaque_ := sign(user, challenges[k].id)) else challenges[k]
    {
      mpp := mpp[i := mpp[i].(opaque_ := sign(user, mpp[i].id))];
    }
    assert mpp == SignAll(challenges, user, sign);
  }

  method BuildOmniError(paymentId: string, amount: Amount, sources: seq<Source>, pr: PaymentRequest, world: World)
    returns (r: GateResult)
    ensures r == match ChallengeFor(paymentId, amount, sources, pr, world)
                 case Some(c) => PaymentRequired(c)
                 case None => Failed(BadServerUrl)
  {
    var options := SourcesToOptions(sources, amount, "USDC");
    var x402 := BuildX402Requirements(options, Terms(pr.resource, "", world.facilitators));
    var mpp := BuildMppChallenges(paymentId, options, pr.resource, world.expires, world.tempoSession,
                                  world.solanaSession);
    mpp := SignChallenges(mpp, pr.user, world.sign);
    if world.origin.None? {
      return Failed(BadServerUrl);
    }
    var url := world.origin.value + "/payment-request/" + paymentId;
    r := PaymentRequired(Challenge(paymentId, url, FormatAmount(amount), x402, mpp));
  }

  class Merchant {
    const minimum: Amount
    var cachedDestination: string

    constructor (minimum: Amount)
      ensures this.minimum == minimum && cachedDestination == ""
    {
      this.minimum := minimum;
      cachedDestination := "";
    }

    /** destinationAccountID, cached once resolved. */
    method DestinationAccountId(world: World) returns (id: Option<string>)
      modifies this
      ensures id == Destination(old(cachedDestination), world)
      ensures cachedDestination == if id.Some? then id.value else old(cachedDestination)
      ensures old(cachedDestination) != "" ==> cachedDestination == old(cachedDestination)
    {
      if cachedDestination != "" {
        return Some(cachedDestination);
      }
      if world.accountId.None? || world.accountId.value == "" {
        return None;
      }
      cachedDestination := world.accountId.value;
      id := world.accountId;
    }

    /**
      RequirePayment. The caller may proceed exactly when the call reaches the gate and the
      session accepts the effective price, or, without a session, the network charge settles;
      the session is charged that price and nothing else happens to it; no network charge is
      issued when there is a session; and a challenge asks for the effective price.
    */
    method RequirePayment(pr: PaymentRequest, world: World) returns (r: GateResult, networkCharges: nat)
      modifies this, pr.session
      ensures
        var price := Max(minimum, pr.price);
        var reached := ReachesGate(minimum, old(cachedDestination), pr, world);
        && (!reached ==> r.Failed? && networkCharges == 0)
        && (pr.session != null ==> (
              && networkCharges == 0
              && pr.session.Value()
                == (if reached then AfterCharge(old(pr.session.Value()), price) else old(pr.session.Value()))
              && (r.Proceed? <==> reached && ChargeAccepted(old(pr.session.Value()), price))))
        && (pr.session == null && reached ==> networkCharges == 1 && (r.Proceed? <==> world.charge.Settled?))
        && (reached && !r.Proceed? ==>
              r == if pr.session == null && world.charge.ChargeError? then Failed(ChargeFailed)
                   else Refusal(SplitAccountId(Destination(old(cachedDestination), world).value).value,
                                price, pr, world))
      ensures cachedDestination == CachedAfter(minimum, old(cachedDestination), pr, world)
      ensures !ReachesGate(minimum, old(cachedDestination), pr, world) ==>
        r == Failed(WhyNot(minimum, AccountIdAt(old(cachedDestination), world), pr))
      ensures r.PaymentRequired? ==>
        IsPaymentRequest(r.challenge, AccountIdAt(old(cachedDestination), world), Max(minimum, pr.price), pr, world)
    {
      networkCharges := 0;
      if pr.user == "" {
        return Failed(NoUser), 0;
      }
      if pr.price == 0 && minimum == 0 {
        return Failed(NoPrice), 0;
      }
      var price := Max(minimum, pr.price);
      var id := DestinationAccountId(world);
      if id.None? {
        return Failed(NoDestination), 0;
      }
      var primary := SplitAccountId(id.value);
      if primary.None? {
        return Failed(InvalidAccountId), 0;
      }
      if pr.session != null {
        var ok := pr.session.Charge(price);
        if ok {
          return Proceed, 0;
        }
      } else {
        networkCharges := 1;
        if world.charge.ChargeError? {
          return Failed(ChargeFailed), 1;
        }
        if world.charge.Settled? {
          return Proceed, 1;
        }
      }
      r := AnswerUnpaid(id.value, primary.value, price, pr, world);
    }
  }

  /** What the caller still owes: the second half of RequirePayment, for a payment in flight or a new one. */
  method AnswerUnpaid(id: string, primary: Source, price: Amount, pr: PaymentRequest, world: World)
    returns (r: GateResult)
    requires SplitAccountId(id) == Some(primary)
    ensures r == Refusal(primary, price, pr, world)
    ensures r.PaymentRequired? ==> IsPaymentRequest(r.challenge, id, price, pr, world)
  {
    var sources := AllSources(primary, world.sources);
    if world.existing.LookupFailed? {
      return Failed(ExistingLookupFailed);
    }
    if world.existing.Existing? && world.existing.id != "" {
      r := BuildOmniError(world.existing.id, price, sources, pr, world);
    } else if world.created.None? {
      return Failed(CreateFailed);
    } else {
      r := BuildOmniError(world.created.value, price, sources, pr, world);
    }
    if r.PaymentRequired? {
      SplitAccountIdExact(id);
      ChallengeAsks(PaymentId(world).value, primary, price, pr, world, r.challenge);
    }
  }

  /** The account id a call uses, empty when there is none. */
  function AccountIdAt(cached: string, world: World): string {
    if cached != "" then cached else if world.accountId.Some? then world.accountId.value else ""
  }

  /** The first of the checks before the gate that a call fails. */
  function WhyNot(minimum: Amount, id: string, pr: PaymentRequest): GateError {
    if pr.user == "" then NoUser
    else if pr.price == 0 && minimum == 0 then NoPrice
    else if id == "" then NoDestination
    else InvalidAccountId
  }

  /** A call gets as far as charging exactly when it passes all four checks, the last on a well-formed account id. */
  lemma ReachesGateIff(minimum: Amount, cached: string, pr: PaymentRequest, world: World)
    ensures ReachesGate(minimum, cached, pr, world) <==>
      && pr.user != "" && pr.price + minimum > 0
      && exists n, a :: IsAccountId(AccountIdAt(cached, world), n, a)
  {
    SplitAccountIdExact(AccountIdAt(cached, world));
    forall n, a ensures !IsAccountId("", n, a) {
      assert |n + ":" + a| > 0;
    }
  }

  /** A challenge for the price, payable at the account this id names and at the fetched sources. */
  ghost predicate IsPaymentRequest(c: Challenge, id: string, price: Amount, pr: PaymentRequest, world: World) {
    exists n, a ::
      IsAccountId(id, n, a) && Asks(c, CurrentPayment(world), Source(n, a), Fetched(world), price, pr, world)
  }

  /** The payment in flight the caller knows of, else the one created. */
  function CurrentPayment(world: World): string {
    match world.existing
    case Existing(id) => if id != "" then id else CreatedPayment(world)
    case _ => CreatedPayment(world)
  }

  function CreatedPayment(world: World): string {
    if world.created.Some? then world.created.value else ""
  }

  /** The in-flight payment the caller knows of, else a newly created one. */
  function PaymentId(world: World): Option<string> {
    if world.existing.Existing? && world.existing.id != "" then Some(world.existing.id) else world.created
  }

  function Destination(cached: string, world: World): Option<string> {
    if cached != "" then Some(cached)
    else if world.accountId.None? || world.accountId.value == "" then None
    else world.accountId
  }

  /** What a call that may not proceed is answered: a challenge for the price, or what kept it from making one. */
  function Refusal(primary: Source, price: Amount, pr: PaymentRequest, world: World): GateResult {
    if world.existing.LookupFailed? then Failed(ExistingLookupFailed)
    else if PaymentId(world).None? then Failed(CreateFailed)
    else match ChallengeFor(PaymentId(world).value, price, AllSources(primary, world.sources), pr, world)
      case Some(c) => PaymentRequired(c)
      case None => Failed(BadServerUrl)
  }

  /**
    A call that may not proceed fails closed: on a lookup of the payment in flight that failed, else
    when none is in flight and none could be made, else on a bad server URL; otherwise it is challenged.
  */
  lemma RefusalMeans(primary: Source, price: Amount, pr: PaymentRequest, world: World)
    ensures
      var r := Refusal(primary, price, pr, world);
      var inFlight := world.existing.Existing? && world.existing.id != "";
      var failed := world.existing.LookupFailed?;
      && (r == Failed(ExistingLookupFailed) <==> failed)
      && (r == Failed(CreateFailed) <==> !failed && !inFlight && world.created.None?)
      && (r == Failed(BadServerUrl) <==> !failed && (inFlight || world.created.Some?) && world.origin.None?)
      && (r.PaymentRequired? <==> !failed && (inFlight || world.created.Some?) && world.origin.Some?)
  {
  }

  /** The destination the merchant remembers after a call: the first one a well-formed call resolved. */
  function CachedAfter(minimum: Amount, cached: string, pr: PaymentRequest, world: World): (after: string)
    ensures after == cached || Some(after) == Destination(cached, world)
    ensures cached != "" ==> after == cached
  {
    if pr.user == "" || (pr.price == 0 && minimum == 0) || Destination(cached, world).None? then cached
    else Destination(cached, world).value
  }

  /** The call is authenticated, priced, and made on a merchant whose destination is well formed. */
  predicate ReachesGate(minimum: Amount, cached: string, pr: PaymentRequest, world: World) {
    && pr.user != ""
    && (pr.price > 0 || minimum > 0)
    && Destination(cached, world).Some?
    && SplitAccountId(Destination(cached, world).value).Some?
  }
}
