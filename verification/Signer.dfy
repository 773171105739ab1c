/**
  The self-custodial payer (x402signer/account.go): pick an accept, sign a transfer of its
  amount, echo it. The signature, the nonce and the clock are inputs.
*/
module Signer {
  import opened Wrappers
  import opened Digits
  import opened Amounts
  import opened Credentials
  import opened Networks
  import opened X402
  import opened X402Challenge
  import opened Settlement

  datatype TransferAuthorization = TransferAuthorization(
    from_: string, to: string, value: int, validAfter: int, validBefore: int, nonce: string)

  datatype Eip712Domain = Eip712Domain(name: string, version: string, chainId: int, verifyingContract: string)

  datatype SignerError = NoRequirements | NoAccept | BadAmount | MissingDomain | BadChainId | SigningFailed

  datatype Signed = Signed(credential: Object, domain: Eip712Domain, transfer: TransferAuthorization)

  type SignFunction = (Eip712Domain, TransferAuthorization) -> Option<string>

  /** caip2ChainID: the decimal int64 after "eip155:". */
  function Caip2ChainId(network: string): Option<int> {
    if !("eip155:" <= network) then None
    else
      var n := BigIntFromString(network[7..]);
      if n.Some? && -0x8000_0000_0000_0000 <= n.value < 0x8000_0000_0000_0000 then n else None
  }

  datatype Prepared = Prepared(domain: Eip712Domain, transfer: TransferAuthorization)

  /** What is to be signed for an accept. */
  function Prepare(accept: X402Option, address: string, now: int, nonce: string): Result<Prepared, SignerError> {
    var value := BigIntFromString(accept.amount);
    var name, version := AsString(Get(accept.extra, "name")), AsString(Get(accept.extra, "version"));
    var chainId := Caip2ChainId(accept.network);
    if value.None? then Err(BadAmount)
    else if name == "" || version == "" then Err(MissingDomain)
    else if chainId.None? then Err(BadChainId)
    else
      var timeout := if accept.maxTimeoutSeconds <= 0 then 300 else accept.maxTimeoutSeconds;
      Ok(Prepared(
        Eip712Domain(name, version, chainId.value, accept.asset),
        TransferAuthorization(address, accept.payTo, value.value, now - 60, now + timeout, nonce)))
  }

  function Authorize(reqs: Option<Requirements>, address: string, pinnedNetwork: string, now: int, nonce: string,
                     sign: SignFunction)
    : Result<Signed, SignerError>
  {
    if reqs.None? then Err(NoRequirements)
    else
      var accept := SelectExactAccept(reqs.value, pinnedNetwork);
      if accept.None? then Err(NoAccept)
      else
        var p := Prepare(accept.value, address, now, nonce);
        if p.Err? then Err(p.error)
        else
          var signature := sign(p.value.domain, p.value.transfer);
          if signature.None? then Err(SigningFailed)
          else Ok(Signed(PaymentPayload(reqs.value.version, accept.value, signature.value, p.value.transfer),
                         p.value.domain, p.value.transfer))
  }

  /** The x402 v2 payload: the signature data, and the accept echoed in full. */
  function PaymentPayload(x402Version: int, accept: X402Option, signature: string, t: TransferAuthorization): Object {
    map["x402Version" := Num(IntText(x402Version)),
        "accepted" := Obj(EchoJson(accept)),
        "payload" := Obj(map["signature" := Str(signature), "authorization" := Obj(TransferJson(t))])]
  }

  function EchoJson(accept: X402Option): Object {
    map["scheme" := Str(accept.scheme), "network" := Str(accept.network), "asset" := Str(accept.asset),
        "amount" := Str(accept.amount), "payTo" := Str(accept.payTo),
        "maxTimeoutSeconds" := Num(IntText(accept.maxTimeoutSeconds)), "extra" := Obj(accept.extra)]
  }

  function TransferJson(t: TransferAuthorization): Object {
    map["from" := Str(t.from_), "to" := Str(t.to), "value" := Str(IntText(t.value)),
        "validAfter" := Str(IntText(t.validAfter)), "validBefore" := Str(IntText(t.validBefore)),
        "nonce" := Str(t.nonce)]
  }

  /** The payload says what was signed, by whom and with what signature, and echoes the whole accept. */
  predicate CarriesTransfer(credential: Object, accept: X402Option, t: TransferAuthorization, signature: string) {
    var payload, accepted := Get(credential, "payload"), Get(credential, "accepted");
    && payload.Obj? && accepted.Obj?
    && Get(payload.fields, "signature") == Str(signature)
    && Get(payload.fields, "authorization").Obj?
    && IsTransfer(Get(payload.fields, "authorization").fields, t)
    && IsEcho(accepted.fields, accept)
  }

  predicate IsTransfer(m: Object, t: TransferAuthorization) {
    && Get(m, "from") == Str(t.from_) && Get(m, "to") == Str(t.to) && Get(m, "nonce") == Str(t.nonce)
    && Get(m, "value") == Str(IntText(t.value))
    && Get(m, "validAfter") == Str(IntText(t.validAfter)) && Get(m, "validBefore") == Str(IntText(t.validBefore))
  }

  predicate IsEcho(m: Object, a: X402Option) {
    && Get(m, "scheme") == Str(a.scheme) && Get(m, "network") == Str(a.network) && Get(m, "asset") == Str(a.asset)
    && Get(m, "amount") == Str(a.amount) && Get(m, "payTo") == Str(a.payTo) && Get(m, "extra") == Obj(a.extra)
    && Get(m, "maxTimeoutSeconds") == Num(IntText(a.maxTimeoutSeconds))
  }

  lemma PayloadCarries(x402Version: int, accept: X402Option, signature: string, t: TransferAuthorization)
    ensures CarriesTransfer(PaymentPayload(x402Version, accept, signature, t), accept, t, signature)
  {
    PayloadParts(x402Version, accept, signature, t);
    SignatureParts(signature, t);
    TransferCarried(t);
    EchoCarried(accept);
  }

  lemma PayloadParts(x402Version: int, accept: X402Option, signature: string, t: TransferAuthorization)
    ensures var m := PaymentPayload(x402Version, accept, signature, t);
      && Get(m, "x402Version") == Num(IntText(x402Version)) && Get(m, "accepted") == Obj(EchoJson(accept))
      && Get(m, "payload") == Obj(map["signature" := Str(signature), "authorization" := Obj(TransferJson(t))])
  {
    assert |"x402Version"| == 11 && |"accepted"| == 8 && |"payload"| == 7;
  }

  lemma SignatureParts(signature: string, t: TransferAuthorization)
    ensures var m := map["signature" := Str(signature), "authorization" := Obj(TransferJson(t))];
      Get(m, "signature") == Str(signature) && Get(m, "authorization") == Obj(TransferJson(t))
  {
    assert |"signature"| == 9 && |"authorization"| == 13;
  }

  lemma TransferCarried(t: TransferAuthorization)
    ensures IsTransfer(TransferJson(t), t)
  {
    assert |"from"| == 4 && |"to"| == 2 && |"value"| == 5 && |"validAfter"| == 10 && |"validBefore"| == 11;
    assert "value"[0] == 'v' && "nonce"[0] == 'n' && |"nonce"| == 5;
  }

  lemma EchoCarried(a: X402Option)
    ensures IsEcho(EchoJson(a), a)
  {
    assert |"scheme"| == 6 && |"network"| == 7 && |"asset"| == 5 && |"amount"| == 6 && |"payTo"| == 5;
    assert |"maxTimeoutSeconds"| == 17 && |"extra"| == 5;
    assert "scheme"[0] == 's' && "amount"[0] == 'a' && "asset"[0] == 'a' && "payTo"[0] == 'p' && "extra"[0] == 'e';
  }

  /**
    On any accept, what is signed: its amount to its payee in its token, from the payer, for its
    time or five minutes. It is refused on an amount that is no integer, a domain without a name or
    version, or a network that is no eip155 chain id, in that order.
  */
  lemma PrepareMeans(a: X402Option, address: string, now: int, nonce: string)
    ensures
      var r := Prepare(a, address, now, nonce);
      var amount, chain := BigIntFromString(a.amount), Caip2ChainId(a.network);
      var name, version := AsString(Get(a.extra, "name")), AsString(Get(a.extra, "version"));
      && (r == Err(BadAmount) <==> amount.None?)
      && (r == Err(MissingDomain) <==> amount.Some? && (name == "" || version == ""))
      && (r == Err(BadChainId) <==> amount.Some? && name != "" && version != "" && chain.None?)
      && (r.Err? ==> r.error in {BadAmount, MissingDomain, BadChainId})
      && (r.Ok? ==>
            && r.value.domain.name == name && r.value.domain.version == version
            && Some(r.value.domain.chainId) == chain && r.value.domain.verifyingContract == a.asset
            && r.value.transfer.from_ == address && r.value.transfer.to == a.payTo
            && Some(r.value.transfer.value) == amount && r.value.transfer.nonce == nonce
            && r.value.transfer.validAfter == now - 60
            && (a.maxTimeoutSeconds > 0 ==> r.value.transfer.validBefore == now + a.maxTimeoutSeconds)
            && (a.maxTimeoutSeconds <= 0 ==> r.value.transfer.validBefore == now + 300))
  {
  }

  lemma PayloadEchoes(x402Version: int, accept: X402Option, signature: string, t: TransferAuthorization)
    ensures var credential := PaymentPayload(x402Version, accept, signature, t);
      && AcceptedField(credential, "scheme") == accept.scheme && AcceptedField(credential, "network") == accept.network
      && CarriesTransfer(credential, accept, t, signature)
  {
    PayloadCarries(x402Version, accept, signature, t);
  }

  /** An advertised accept the payer can pay is the exact accept of some network's first source. */
  lemma PayableIsExactAccept(options: seq<ChargeOption>, terms: Terms, a: X402Option, pinnedNetwork: string)
    returns (i: int)
    requires a in Advertised(options, terms) && IsPayable(a, pinnedNetwork)
    ensures Represents(Evm, options, i) && a == ExactAccept(options[i], terms)
  {
    AdvertisedExactly(options, terms, a);
    var fam, j :| Represents(fam, options, j) && a in Accepts(fam, options[j], terms);
    i := j;
    SvmIsNotEip155(options[j].network);
  }

  lemma SvmIsNotEip155(network: string)
    ensures IsSvm(network) ==> Caip2(network)[0] == 's'
  {
  }

  /** A chain id is read back from its own identifier exactly while it fits sixty-four signed bits. */
  lemma ChainIdReadsBack(n: nat)
    ensures Caip2ChainId("eip155:" + ToDigits(n)) == if n <= 9_223_372_036_854_775_807 then Some(n) else None
  {
    BigIntOfDigits(n);
    assert ("eip155:" + ToDigits(n))[7..] == ToDigits(n);
  }

  lemma ChainIds()
    ensures Caip2ChainId(BASE) == Some(8453) && Caip2ChainId(BASE_SEPOLIA) == Some(84532)
  {
    assert BASE[7..] == "8453" && BASE_SEPOLIA[7..] == "84532";
    DigitsOf8453();
    ValueAppend("8453", "2");
    assert "8453" + "2" == "84532" && "2"[..0] == "";
  }

  lemma DigitsOf8453()
    ensures AllDigits("8453") && Value("8453") == 8453
  {
    assert "8453"[..3] == "845" && "845"[..2] == "84" && "84"[..1] == "8" && "8"[..0] == "";
    assert Value("8") == 8 && Value("84") == 84 && Value("845") == 845;
  }

  /** What the payer is to sign for an accept the merchant built. */
  function Terms3009(o: ChargeOption, address: string, now: int, nonce: string): Prepared {
    Prepared(
      Eip712Domain("USD Coin", "2", if o.network == "base" then 8453 else 84532,
                   if o.network == "base" then BASE_USDC else BASE_SEPOLIA_USDC),
      TransferAuthorization(address, o.address, o.amount, now - 60, now + 300, nonce))
  }

  lemma PrepareExact(o: ChargeOption, terms: Terms, address: string, now: int, nonce: string)
    requires Eligible(Evm, o)
    ensures Prepare(ExactAccept(o, terms), address, now, nonce) == Ok(Terms3009(o, address, now, nonce))
  {
    ChainIds();
    BigIntOfDigits(o.amount);
    var a := ExactAccept(o, terms);
    assert a.asset == if o.network == "base" then BASE_USDC else BASE_SEPOLIA_USDC;
    assert Get(a.extra, "name") == Str("USD Coin") && Get(a.extra, "version") == Str("2");
  }

  /**
    Facing requirements built by the merchant at a price, the payer fails only when no accept
    suits it or the signer refuses; otherwise it signs exactly the price, to the first eligible
    address on that network, in the token contract and chain of that network, and echoes the
    scheme and network of the accept.
  */
  lemma AuthorizeBuilt(options: seq<ChargeOption>, terms: Terms, price: Amount,
                       address: string, pinnedNetwork: string, now: int, nonce: string, sign: SignFunction)
    returns (i: int)
    requires forall k :: 0 <= k < |options| ==> options[k].amount == price
    ensures
      var reqs := Requirements(2, Advertised(options, terms));
      var found := SelectExactAccept(reqs, pinnedNetwork);
      var r := Authorize(Some(reqs), address, pinnedNetwork, now, nonce, sign);
      && (r.Err? ==> r.error == if found.None? then NoAccept else SigningFailed)
      && (found.Some? ==> Represents(Evm, options, i) && found.value == ExactAccept(options[i], terms))
      && (r.Ok? ==> (
            && found.Some?
            && Prepared(r.value.domain, r.value.transfer) == Terms3009(options[i], address, now, nonce)
            && r.value.transfer.value == price
            && AcceptedField(r.value.credential, "scheme") == found.value.scheme
            && AcceptedField(r.value.credential, "network") == found.value.network
            && sign(r.value.domain, r.value.transfer).Some?
            && CarriesTransfer(r.value.credential, found.value, r.value.transfer,
                               sign(r.value.domain, r.value.transfer).value)))
  {
    var reqs := Requirements(2, Advertised(options, terms));
    var found := SelectExactAccept(reqs, pinnedNetwork);
    i := -1;
    if found.Some? {
      i := PayableIsExactAccept(options, terms, found.value, pinnedNetwork);
      PrepareExact(options[i], terms, address, now, nonce);
      AuthorizePrepared(reqs, found.value, Terms3009(options[i], address, now, nonce), address, pinnedNetwork, now,
                        nonce, sign);
    }
  }

  /** Some option, the first that can be paid on its network, is on an EVM network the payer accepts. */
  ghost predicate CanPay(options: seq<ChargeOption>, pinnedNetwork: string) {
    exists i :: Represents(Evm, options, i) && pinnedNetwork in {"", Caip2(options[i].network)}
  }

  /** The payer finds an accept in the merchant's requirements exactly when it can pay one of the options. */
  lemma FindsAcceptIff(options: seq<ChargeOption>, terms: Terms, pinnedNetwork: string)
    ensures SelectExactAccept(Requirements(2, Advertised(options, terms)), pinnedNetwork).Some?
       <==> CanPay(options, pinnedNetwork)
  {
    var reqs := Requirements(2, Advertised(options, terms));
    var k := SelectsFirstPayable(reqs, pinnedNetwork);
    var found := SelectExactAccept(reqs, pinnedNetwork);
    if found.Some? {
      var i := PayableIsExactAccept(options, terms, found.value, pinnedNetwork);
      assert Represents(Evm, options, i) && pinnedNetwork in {"", Caip2(options[i].network)};
    }
    if i :| Represents(Evm, options, i) && pinnedNetwork in {"", Caip2(options[i].network)} {
      AdvertisedExactly(options, terms, ExactAccept(options[i], terms));
      assert ExactAccept(options[i], terms) in Accepts(Evm, options[i], terms);
      ExactIsPayable(options[i], terms, pinnedNetwork);
    }
  }

  lemma ExactIsPayable(o: ChargeOption, terms: Terms, pinnedNetwork: string)
    requires Eligible(Evm, o) && pinnedNetwork in {"", Caip2(o.network)}
    ensures IsPayable(ExactAccept(o, terms), pinnedNetwork)
  {
    assert BASE[..7] == "eip155:" && BASE_SEPOLIA[..7] == "eip155:";
  }

  /** On any requirements, which error comes first: none given, none payable, none preparable, no signature. */
  lemma AuthorizeFailsOn(reqs: Option<Requirements>, address: string, pinnedNetwork: string, now: int, nonce: string,
                         sign: SignFunction)
    ensures
      var r := Authorize(reqs, address, pinnedNetwork, now, nonce, sign);
      && (reqs.None? <==> r == Err(NoRequirements))
      && (reqs.Some? ==>
            var found := SelectExactAccept(reqs.value, pinnedNetwork);
            && (found.None? <==> r == Err(NoAccept))
            && (found.Some? ==>
                  var p := Prepare(found.value, address, now, nonce);
                  && (p.Err? ==> r == Err(p.error))
                  && (p.Ok? ==> if sign(p.value.domain, p.value.transfer).None? then r == Err(SigningFailed)
                                else r.Ok? && Prepared(r.value.domain, r.value.transfer) == p.value)))
  {
    if reqs.Some? && SelectExactAccept(reqs.value, pinnedNetwork).Some? {
      PrepareMeans(SelectExactAccept(reqs.value, pinnedNetwork).value, address, now, nonce);
    }
  }

  lemma AuthorizePrepared(reqs: Requirements, accept: X402Option, p: Prepared,
                          address: string, pinnedNetwork: string, now: int, nonce: string, sign: SignFunction)
    requires SelectExactAccept(reqs, pinnedNetwork) == Some(accept)
    requires Prepare(accept, address, now, nonce) == Ok(p)
    ensures
      var r := Authorize(Some(reqs), address, pinnedNetwork, now, nonce, sign);
      && (r.Err? ==> r.error == SigningFailed)
      && (r.Ok? ==> (
            && Prepared(r.value.domain, r.value.transfer) == p
            && AcceptedField(r.value.credential, "scheme") == accept.scheme
            && AcceptedField(r.value.credential, "network") == accept.network
            && sign(p.domain, p.transfer).Some?
            && CarriesTransfer(r.value.credential, accept, p.transfer, sign(p.domain, p.transfer).value)))
  {
    var signature := sign(p.domain, p.transfer);
    if signature.Some? {
      PayloadEchoes(reqs.version, accept, signature.value, p.transfer);
    }
  }
}
