/**
  The ceiling a credential authorises (server/paymentsession.go, deriveSessionCap): three
  rails, three encodings of the same amount.
*/
module SessionCap {
  import opened Wrappers
  import opened Amounts
  import opened Credentials
  import opened X402
  import opened MppChallenge

  datatype SettlementContext = SettlementContext(
    paymentRequirements: Option<Requirements>,
    paymentRequestId: string,
    sourceAccountId: string,
    destinationAccountId: string,
    options: Json)

  /** The cap, or no limit when the amount cannot be read. */
  datatype Cap = Cap(amount: Amount, unlimited: bool)

  function CapOf(r: Result<Amount, AmountError>): Cap {
    if r.Ok? then Cap(r.value, false) else Cap(0, true)
  }

  /** The first options entry with a readable decimal amount. */
  function FirstOptionAmount(items: seq<Json>): Option<Amount> {
    if items == [] then None
    else
      var amount := if items[0].Obj? then AmountString(Get(items[0].fields, "amount")) else "";
      if amount != "" && ParseAmount(amount).Ok? then Some(ParseAmount(amount).value)
      else FirstOptionAmount(items[1..])
  }

  /** mppChallengeAmount: challenge.request.amount, else challenge.amount. */
  function MppAmountText(challenge: Object): string {
    var request := Get(challenge, "request");
    var inner := if request.Obj? then AmountString(Get(request.fields, "amount")) else "";
    if inner != "" then inner else AmountString(Get(challenge, "amount"))
  }

  function DeriveSessionCap(protocol: Protocol, c: Credential, sctx: SettlementContext): Cap {
    match protocol
    case ProtocolX402 =>
      var accept := SelectX402Accept(ParsedOrEmpty(c), sctx.paymentRequirements);
      if accept.Some? then CapOf(AmountFromMicroString(accept.value.amount)) else Cap(0, true)
    case ProtocolMpp =>
      var challenge := Get(ParsedOrEmpty(c), "challenge");
      var amount := if challenge.Obj? then MppAmountText(challenge.fields) else "";
      if amount == "" then Cap(0, true)
      else if AsString(Get(challenge.fields, "method")) == "solana" then CapOf(AmountFromMicroString(amount))
      else CapOf(ParseAmount(amount))
    case ProtocolAtxp =>
      var parsed := ParsedOrEmpty(c);
      var options := Get(parsed, "options");
      var first := if options.Arr? then FirstOptionAmount(options.items) else None;
      if first.Some? then Cap(first.value, false)
      else if AmountString(Get(parsed, "amount")) == "" then Cap(0, true)
      else CapOf(ParseAmount(AmountString(Get(parsed, "amount"))))
  }

  /** requiresClose: the credential holds an on-chain channel that must be closed. */
  predicate RequiresClose(protocol: Protocol, c: Credential) {
    protocol == ProtocolMpp && IsMppSession(c)
  }

  /* ----- what the cap is read from ----------------------------------------------- */

  /** The text of a JSON string or number. */
  function TextOf(v: Json): string {
    if v.Str? then v.s else if v.Num? then v.text else ""
  }

  /** A cap with this text's value, or none when it has none. */
  predicate IsCapOf(cap: Cap, r: Result<Amount, AmountError>) {
    if r.Ok? then cap.amount == r.value && !cap.unlimited else cap.unlimited
  }

  function EntryAmount(entry: Json): Result<Amount, AmountError> {
    ParseAmount(if entry.Obj? then TextOf(Get(entry.fields, "amount")) else "")
  }

  /** Entry i is the first with a readable amount. */
  predicate FirstPriced(items: seq<Json>, i: int) {
    0 <= i < |items| && EntryAmount(items[i]).Ok? && forall j :: 0 <= j < i ==> EntryAmount(items[j]).Err?
  }

  lemma HeadAmount(items: seq<Json>)
    requires items != []
    ensures FirstOptionAmount(items)
         == if EntryAmount(items[0]).Ok? then Some(EntryAmount(items[0]).value) else FirstOptionAmount(items[1..])
  {
    NoEmptyAmount();
    AmountStringIsText(if items[0].Obj? then Get(items[0].fields, "amount") else Null);
  }

  lemma AmountStringIsText(v: Json)
    ensures AmountString(v) == TextOf(v)
  {
  }

  lemma {:induction false} FirstOptionAmountExact(items: seq<Json>) returns (i: int)
    ensures FirstOptionAmount(items).None? ==> forall j :: 0 <= j < |items| ==> EntryAmount(items[j]).Err?
    ensures FirstOptionAmount(items).Some? ==>
      FirstPriced(items, i) && EntryAmount(items[i]) == Ok(FirstOptionAmount(items).value)
  {
    i := 0;
    if items != [] {
      HeadAmount(items);
      if EntryAmount(items[0]).Err? {
        var k := FirstOptionAmountExact(items[1..]);
        i := k + 1;
        assert forall j :: 0 < j < |items| ==> items[j] == items[1..][j - 1];
      }
    }
  }

  lemma NoEmptyAmount()
    ensures ParseAmount("") == Err(EmptyAmount) && AmountFromMicroString("") == Err(NotMicroCount)
  {
  }

  /** An ATXP cap is the first readable option's amount, else the credential's own; a number reads as its text. */
  lemma AtxpCapExact(c: Credential, sctx: SettlementContext, parsed: Object, items: seq<Json>)
    requires ParsedOrEmpty(c) == parsed
    requires items == if Get(parsed, "options").Arr? then Get(parsed, "options").items else []
    ensures forall i :: FirstPriced(items, i) ==>
      IsCapOf(DeriveSessionCap(ProtocolAtxp, c, sctx), EntryAmount(items[i]))
    ensures (forall i :: !FirstPriced(items, i)) ==>
      IsCapOf(DeriveSessionCap(ProtocolAtxp, c, sctx), ParseAmount(TextOf(Get(parsed, "amount"))))
  {
    var first := FirstOptionAmountExact(items);
    AtxpCapFrom(c, sctx, parsed, items);
  }

  lemma AtxpCapFrom(c: Credential, sctx: SettlementContext, parsed: Object, items: seq<Json>)
    requires ParsedOrEmpty(c) == parsed
    requires items == if Get(parsed, "options").Arr? then Get(parsed, "options").items else []
    ensures var first := FirstOptionAmount(items);
      if first.Some? then DeriveSessionCap(ProtocolAtxp, c, sctx) == Cap(first.value, false)
      else IsCapOf(DeriveSessionCap(ProtocolAtxp, c, sctx), ParseAmount(TextOf(Get(parsed, "amount"))))
  {
    NoEmptyAmount();
    AmountStringIsText(Get(parsed, "amount"));
  }

  /** An MPP cap is the amount in the challenge's request, else beside it: micro-units on Solana, else decimal. */
  lemma MppCapExact(c: Credential, sctx: SettlementContext, ch: Object, text: string)
    requires Get(ParsedOrEmpty(c), "challenge") == Obj(ch)
    requires var request := Get(ch, "request");
      var asked := if request.Obj? then TextOf(Get(request.fields, "amount")) else "";
      text == if asked != "" then asked else TextOf(Get(ch, "amount"))
    ensures IsCapOf(DeriveSessionCap(ProtocolMpp, c, sctx),
                    if Get(ch, "method") == Str("solana") then AmountFromMicroString(text) else ParseAmount(text))
  {
    NoEmptyAmount();
    MppAmountTextIs(ch, text);
  }

  lemma MppAmountTextIs(ch: Object, text: string)
    requires var request := Get(ch, "request");
      var asked := if request.Obj? then TextOf(Get(request.fields, "amount")) else "";
      text == if asked != "" then asked else TextOf(Get(ch, "amount"))
    ensures MppAmountText(ch) == text
  {
    AmountStringIsText(Get(ch, "amount"));
  }

  /** And without a challenge object there is none. */
  lemma MppCapNeedsChallenge(c: Credential, sctx: SettlementContext)
    requires !Get(ParsedOrEmpty(c), "challenge").Obj?
    ensures DeriveSessionCap(ProtocolMpp, c, sctx).unlimited
  {
  }

  /** An x402 cap is the amount of the accept that fits the credential best; without a readable one there is none. */
  lemma X402CapExact(c: Credential, sctx: SettlementContext)
    ensures
      var cap := DeriveSessionCap(ProtocolX402, c, sctx);
      var none := sctx.paymentRequirements.None? || sctx.paymentRequirements.value.accepts == [];
      && (none ==> cap.unlimited)
      && (!none ==>
            var accepts := sctx.paymentRequirements.value.accepts;
            exists i :: 0 <= i < |accepts| && IsCapOf(cap, AmountFromMicroString(accepts[i].amount))
                        && forall j :: 0 <= j < |accepts| ==>
                             Fit(ParsedOrEmpty(c), accepts[j]) <= Fit(ParsedOrEmpty(c), accepts[i])
                             && (j < i ==> Fit(ParsedOrEmpty(c), accepts[j]) < Fit(ParsedOrEmpty(c), accepts[i])))
  {
    if sctx.paymentRequirements.Some? && sctx.paymentRequirements.value.accepts != [] {
      var i := SelectsFirstBest(ParsedOrEmpty(c), sctx.paymentRequirements.value);
    }
  }

  /* ----- the same cap on every rail -------------------------------------------- */

  /** What of an MPP challenge an echoing credential must preserve for its amount to be read back. */
  predicate EchoesMpp(credential: Object, c: MppChallengeData) {
    var ch := Get(credential, "challenge");
    && ch.Obj?
    && Get(ch.fields, "method") == Str(c.method_)
    && Get(ch.fields, "intent") == Str(c.intent)
    && (Get(ch.fields, "request") == Obj(c.request)
        || (!Get(ch.fields, "request").Obj? && Get(ch.fields, "amount") == Str(c.amount)))
  }

  predicate HasDescriptor(credential: Object) {
    var payload := Get(credential, "payload");
    payload.Obj? && "descriptor" in payload.fields
  }

  /** The wire form of a challenge, echoed whole, is an echo in that sense. */
  lemma WireEchoIsEcho(credential: Object, c: MppChallengeData)
    requires Get(credential, "challenge") == Obj(ChallengeJson(c))
    ensures EchoesMpp(credential, c)
  {
    WireFields(c);
  }

  /**
    A credential echoing any MPP challenge built at a price is capped at exactly that price,
    whichever chain and intent it is for; without a channel descriptor it needs a close
    exactly when the echoed intent is "session".
  */
  lemma MppEchoCap(id: string, options: seq<ChargeOption>, resource: string, expires: string,
                   tempoSession: Option<TempoSession>, solanaSession: Option<SolanaSession>,
                   price: Amount, c: MppChallengeData, cred: Credential, sctx: SettlementContext)
    requires forall k :: 0 <= k < |options| ==> options[k].amount == price
    requires c in SolanaPart(id, options, resource, solanaSession)
      + TempoPart(id, options, resource, expires, tempoSession)
    requires ParseCredentialJson(cred).Some? && EchoesMpp(ParseCredentialJson(cred).value, c)
    ensures DeriveSessionCap(ProtocolMpp, cred, sctx) == Cap(price, false)
    ensures c.intent == "charge" || c.intent == "session"
    ensures RequiresClose(ProtocolMpp, cred)
       <==> c.intent == "session" || HasDescriptor(ParseCredentialJson(cred).value)
  {
    MppChallengeShape(id, options, resource, expires, tempoSession, solanaSession, price, c);
    PricedEchoCap(price, c, cred, sctx);
  }

  lemma PricedEchoCap(price: Amount, c: MppChallengeData, cred: Credential, sctx: SettlementContext)
    requires PricedAt(c, price)
    requires ParseCredentialJson(cred).Some? && EchoesMpp(ParseCredentialJson(cred).value, c)
    ensures DeriveSessionCap(ProtocolMpp, cred, sctx) == Cap(price, false)
    ensures IsMppSession(cred) <==> c.intent == "session" || HasDescriptor(ParseCredentialJson(cred).value)
  {
    FormatNonEmpty(price);
    var ch := Get(ParseCredentialJson(cred).value, "challenge").fields;
    assert MppAmountText(ch) == c.amount;
    if c.method_ == "solana" {
      MicroRoundTrip(price);
    } else {
      ParseInvertsFormat(price);
    }
  }

  lemma FormatNonEmpty(a: Amount)
    ensures FormatAmount(a) != "" && MicroString(a) != ""
  {
  }

  lemma MppChallengeShape(id: string, options: seq<ChargeOption>, resource: string, expires: string,
                          tempoSession: Option<TempoSession>, solanaSession: Option<SolanaSession>,
                          price: Amount, c: MppChallengeData)
    requires forall k :: 0 <= k < |options| ==> options[k].amount == price
    requires c in SolanaPart(id, options, resource, solanaSession)
      + TempoPart(id, options, resource, expires, tempoSession)
    ensures PricedAt(c, price)
  {
    MppOffer(id, options, resource, expires, tempoSession, solanaSession);
  }

  /** The options array of a payment request, as RequirePayment sends it and an ATXP payer echoes it. */
  function OptionsJson(options: seq<ChargeOption>): Json {
    Arr(seq(|options|, i requires 0 <= i < |options| => Obj(OptionJson(options[i]))))
  }

  function OptionJson(o: ChargeOption): Object {
    map["network" := Str(o.network), "currency" := Str(o.currency), "address" := Str(o.address),
        "amount" := Str(FormatAmount(o.amount))]
  }

  /** An ATXP credential echoing the options offered at a price is capped at exactly that price. */
  lemma AtxpEchoCap(options: seq<ChargeOption>, price: Amount, cred: Credential, sctx: SettlementContext)
    requires options != [] && options[0].amount == price
    requires ParseCredentialJson(cred).Some?
    requires Get(ParseCredentialJson(cred).value, "options") == OptionsJson(options)
    ensures DeriveSessionCap(ProtocolAtxp, cred, sctx) == Cap(price, false)
    ensures !RequiresClose(ProtocolAtxp, cred)
  {
    var items := OptionsJson(options).items;
    assert items[0] == Obj(OptionJson(options[0]));
    OptionAmount(options[0]);
    FirstReadable(items, price);
  }

  lemma OptionAmount(o: ChargeOption)
    ensures Get(OptionJson(o), "amount") == Str(FormatAmount(o.amount))
  {
  }

  lemma FirstReadable(items: seq<Json>, price: Amount)
    requires items != [] && items[0].Obj? && Get(items[0].fields, "amount") == Str(FormatAmount(price))
    ensures FirstOptionAmount(items) == Some(price)
  {
    ParseInvertsFormat(price);
    FormatNonEmpty(price);
  }
}
