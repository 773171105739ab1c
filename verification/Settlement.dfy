/**
  What a settle call asks for (server/settlement.go): the protocol-specific request body and
  the amount each rail settles.
*/
module Settlement {
  import opened Wrappers
  import opened Digits
  import opened Amounts
  import opened Credentials
  import opened X402
  import opened SessionCap

  /** InvalidCredential is the returned error; NilOptionEntry is Go's write to a nil map. */
  datatype BodyError = InvalidCredential | NilOptionEntry

  function AddIf(m: Object, key: string, val: string): Object {
    if val != "" then m[key := Str(val)] else m
  }

  function FirstNonEmptyAny(a: Json, fallback: string): Json {
    if a.Str? && a.s != "" then a
    else if a != Null then a
    else Str(fallback)
  }

  function FirstNonEmptyStr(a: string, b: string): string {
    if a != "" then a else b
  }

  /** The JSON an accept is sent as; empty optional fields are left out. */
  function AcceptJson(a: X402Option): Object {
    var m := AddIf(AddIf(PlainAcceptJson(a), "mimeType", a.mimeType), "asset", a.asset);
    var m := if a.maxTimeoutSeconds != 0 then m["maxTimeoutSeconds" := Num(IntText(a.maxTimeoutSeconds))] else m;
    if a.extra != map[] then m["extra" := Obj(a.extra)] else m
  }

  function IntText(i: int): string {
    if i < 0 then "-" + ToDigits(-i) else ToDigits(i)
  }

  /** The accept a settle request's JSON stands for: an absent field is empty. */
  function AcceptOf(m: Object): X402Option {
    var timeout := Get(m, "maxTimeoutSeconds");
    X402Option(AsString(Get(m, "scheme")), AsString(Get(m, "network")), AsString(Get(m, "amount")),
               AsString(Get(m, "resource")), AsString(Get(m, "description")), AsString(Get(m, "mimeType")),
               AsString(Get(m, "payTo")), if timeout.Num? then IntOf(timeout.text) else 0,
               AsString(Get(m, "asset")), if Get(m, "extra").Obj? then Get(m, "extra").fields else map[])
  }

  function IntOf(text: string): int {
    if BigIntFromString(text).Some? then BigIntFromString(text).value else 0
  }

  lemma IntRoundTrip(i: int)
    ensures IntOf(IntText(i)) == i
  {
    if i < 0 {
      BigIntOfDigits(-i);
      assert ("-" + ToDigits(-i))[1..] == ToDigits(-i);
    } else {
      BigIntOfDigits(i);
    }
  }

  predicate IsPlainKey(k: string) {
    k == "scheme" || k == "network" || k == "amount" || k == "resource" || k == "description" || k == "payTo"
  }

  lemma AcceptKeysDiffer()
    ensures !IsPlainKey("mimeType") && !IsPlainKey("asset") && !IsPlainKey("maxTimeoutSeconds") && !IsPlainKey("extra")
    ensures "mimeType" != "asset" && "maxTimeoutSeconds" != "extra" && "mimeType" != "extra" && "asset" != "extra"
    ensures "mimeType" != "maxTimeoutSeconds" && "asset" != "maxTimeoutSeconds"
  {
    assert |"mimeType"| == 8 && |"asset"| == 5 && |"maxTimeoutSeconds"| == 17 && |"extra"| == 5;
    assert |"scheme"| == 6 && |"network"| == 7 && |"amount"| == 6 && |"description"| == 11 && |"payTo"| == 5;
    assert "resource"[0] == 'r' && "mimeType"[0] == 'm' && "asset"[0] == 'a' && "extra"[0] == 'e' && "payTo"[0] == 'p';
    assert |"resource"| == 8;
  }

  lemma PlainKeysDiffer()
    ensures "scheme" != "network" && "scheme" != "amount" && "scheme" != "resource" && "scheme" != "description"
    ensures "scheme" != "payTo" && "network" != "amount" && "network" != "resource" && "network" != "description"
    ensures "network" != "payTo" && "amount" != "resource" && "amount" != "description" && "amount" != "payTo"
    ensures "resource" != "description" && "resource" != "payTo" && "description" != "payTo"
  {
    assert |"scheme"| == 6 && |"network"| == 7 && |"amount"| == 6 && |"description"| == 11 && |"payTo"| == 5;
    assert |"resource"| == 8 && "scheme"[0] == 's' && "amount"[0] == 'a';
  }

  function PlainAcceptJson(a: X402Option): Object {
    map["scheme" := Str(a.scheme), "network" := Str(a.network), "amount" := Str(a.amount),
        "resource" := Str(a.resource), "description" := Str(a.description), "payTo" := Str(a.payTo)]
  }

  /** Nothing of an accept is lost or exchanged on the way into a settle request. */
  lemma AcceptRoundTrip(a: X402Option)
    ensures AcceptOf(AcceptJson(a)) == a
  {
    AcceptKeysDiffer();
    IntRoundTrip(a.maxTimeoutSeconds);
    AcceptPlainFields(a);
    AcceptOptionalFields(a);
  }

  lemma AcceptPlainFields(a: X402Option)
    ensures var m := AcceptJson(a);
      && Get(m, "scheme") == Str(a.scheme) && Get(m, "network") == Str(a.network) && Get(m, "amount") == Str(a.amount)
      && Get(m, "resource") == Str(a.resource) && Get(m, "description") == Str(a.description)
      && Get(m, "payTo") == Str(a.payTo)
  {
    PlainFields(a);
    AcceptKeysDiffer();
    OtherKeysKept(a, "scheme");
    OtherKeysKept(a, "network");
    OtherKeysKept(a, "amount");
    OtherKeysKept(a, "resource");
    OtherKeysKept(a, "description");
    OtherKeysKept(a, "payTo");
  }

  lemma PlainFields(a: X402Option)
    ensures var m := PlainAcceptJson(a);
      && Get(m, "scheme") == Str(a.scheme) && Get(m, "network") == Str(a.network) && Get(m, "amount") == Str(a.amount)
      && Get(m, "resource") == Str(a.resource) && Get(m, "description") == Str(a.description)
      && Get(m, "payTo") == Str(a.payTo)
  {
    PlainKeysDiffer();
  }

  lemma OtherKeysKept(a: X402Option, k: string)
    requires k != "mimeType" && k != "asset" && k != "maxTimeoutSeconds" && k != "extra"
    ensures Get(AcceptJson(a), k) == Get(PlainAcceptJson(a), k)
  {
  }

  lemma AcceptOptionalFields(a: X402Option)
    ensures var m := AcceptJson(a);
      && Get(m, "mimeType") == (if a.mimeType != "" then Str(a.mimeType) else Null)
      && Get(m, "asset") == (if a.asset != "" then Str(a.asset) else Null)
      && Get(m, "maxTimeoutSeconds") == (if a.maxTimeoutSeconds != 0 then Num(IntText(a.maxTimeoutSeconds)) else Null)
      && Get(m, "extra") == (if a.extra != map[] then Obj(a.extra) else Null)
  {
    AcceptKeysDiffer();
  }

  /* ----- overriding the amounts of an options array ------------------------------ */

  function Overridden(options: Json, amount: string): Result<Json, BodyError> {
    match options
    case Null => Ok(Arr([]))
    case Arr(items) =>
      if exists i :: 0 <= i < |items| && !items[i].Obj? && !items[i].Null? then Ok(options)
      else if exists i :: 0 <= i < |items| && items[i].Null? then Err(NilOptionEntry)
      else Ok(Arr(seq(|items|, i requires 0 <= i < |items| => WithAmount(items[i], amount))))
    case _ => Ok(options)
  }

  function WithAmount(item: Json, amount: string): Json {
    if item.Obj? then Obj(item.fields["amount" := Str(amount)]) else item
  }

  /**
    overrideOptionsAmount. Decoding into a slice of objects fails on any entry that is neither
    an object nor null, and the options are then returned as they were.
  */
  method OverrideOptionsAmount(options: Json, amount: string) returns (r: Result<Json, BodyError>)
    ensures r == Overridden(options, amount)
  {
    if !options.Null? && !options.Arr? {
      return Ok(options);
    }
    var arr := if options.Arr? then options.items else [];
    for i := 0 to |arr|
      invariant forall j :: 0 <= j < i ==> arr[j].Obj? || arr[j].Null?
    {
      if !arr[i].Obj? && !arr[i].Null? { return Ok(options); }
    }
    var out: seq<Json> := [];
    for i := 0 to |arr|
      invariant |out| == i
      invariant forall j :: 0 <= j < i ==> arr[j].Obj? && out[j] == WithAmount(arr[j], amount)
    {
      if arr[i].Null? { return Err(NilOptionEntry); }
      out := out + [Obj(arr[i].fields["amount" := Str(amount)])];
    }
    assert out == seq(|arr|, i requires 0 <= i < |arr| => WithAmount(arr[i], amount));
    r := Ok(Arr(out));
  }

  /**
    On an array of objects: same length and order, every other field kept, every amount the
    one given; and the ATXP cap read back from the non-empty result is exactly that amount.
  */
  lemma OverriddenOptions(items: seq<Json>, spent: Amount, cred: Credential, sctx: SettlementContext)
    requires forall i :: 0 <= i < |items| ==> items[i].Obj?
    ensures Overridden(Arr(items), FormatAmount(spent)).Ok?
    ensures var out := Overridden(Arr(items), FormatAmount(spent)).value;
      && out.Arr? && |out.items| == |items|
      && (forall i :: 0 <= i < |items| ==> (
            && out.items[i].Obj?
            && out.items[i].fields - {"amount"} == items[i].fields - {"amount"}
            && Get(out.items[i].fields, "amount") == Str(FormatAmount(spent))))
      && (items != [] && ParseCredentialJson(cred).Some? && Get(ParseCredentialJson(cred).value, "options") == out ==>
            DeriveSessionCap(ProtocolAtxp, cred, sctx) == Cap(spent, false))
  {
    OverriddenEntries(items, FormatAmount(spent));
    var out := Overridden(Arr(items), FormatAmount(spent)).value;
    if items != [] {
      FirstReadable(out.items, spent);
    }
  }

  lemma OverriddenEntries(items: seq<Json>, amount: string)
    requires forall i :: 0 <= i < |items| ==> items[i].Obj?
    ensures Overridden(Arr(items), amount).Ok?
    ensures var out := Overridden(Arr(items), amount).value;
      && out.Arr? && |out.items| == |items|
      && (forall i :: 0 <= i < |items| ==> (
            && out.items[i].Obj?
            && out.items[i].fields - {"amount"} == items[i].fields - {"amount"}
            && Get(out.items[i].fields, "amount") == Str(amount)))
  {
    var out := Overridden(Arr(items), amount).value;
    forall i | 0 <= i < |items| ensures out.items[i] == WithAmount(items[i], amount) {
    }
  }

  /* ----- the request body ---------------------------------------------------------- */

  function X402Payload(c: Credential): Object {
    var p := ParseCredentialJson(c);
    if p.Some? then p.value else map["raw" := Str(c.text)]
  }

  /** The overriding amount in micro-units, when the rail meters: x402 upto and MPP channels. */
  function MeteredAmount(protocol: Protocol, c: Credential, sctx: SettlementContext,
                         actual: Option<Amount>): Option<Amount> {
    match protocol
    case ProtocolX402 =>
      var requirement := SelectX402Accept(X402Payload(c), sctx.paymentRequirements);
      if actual.None? || requirement.None? || requirement.value.scheme != "upto" then None
      else
        var cap := AmountFromMicroString(requirement.value.amount);
        Some(if cap.Ok? then Min(actual.value, cap.value) else actual.value)
    case ProtocolMpp =>
      if IsMppSession(c) then actual else None
    case ProtocolAtxp => None
  }

  function WithOverride(m: Object, metered: Option<Amount>): Object {
    if metered.None? then m
    else m["settlementOverrides" := Obj(map["amount" := Str(MicroString(metered.value))])]
  }

  function WithIds(m: Object, sctx: SettlementContext, destination: string): Object {
    AddIf(AddIf(AddIf(m, "paymentRequestId", sctx.paymentRequestId),
                "sourceAccountId", sctx.sourceAccountId),
          "destinationAccountId", destination)
  }

  predicate IsIdKey(key: string) {
    key == "paymentRequestId" || key == "sourceAccountId" || key == "destinationAccountId"
  }

  /** The identifiers added at the end leave the rest of a body as it was. */
  lemma WithIdsKeeps(m: Object, sctx: SettlementContext, destination: string, key: string)
    requires !IsIdKey(key)
    ensures key in WithIds(m, sctx, destination) <==> key in m
    ensures Get(WithIds(m, sctx, destination), key) == Get(m, key)
  {
  }

  lemma BodyKeys()
    ensures !IsIdKey("settlementOverrides") && !IsIdKey("paymentRequirements")
    ensures "settlementOverrides" != "paymentRequirements" && "settlementOverrides" != "payload"
      && "settlementOverrides" != "credential"
  {
    assert |"settlementOverrides"| == 19 && |"paymentRequirements"| == 19 && |"payload"| == 7 && |"credential"| == 10;
    assert |"paymentRequestId"| == 16 && |"sourceAccountId"| == 15 && |"destinationAccountId"| == 20;
    assert "settlementOverrides"[0] == 's' && "paymentRequirements"[0] == 'p';
  }

  /** The options an ATXP body starts from. */
  function AtxpOptions(c: Credential, sctx: SettlementContext): Json {
    var parsed := if c.raw.Some? then c.raw.value else map[];
    if sctx.options != Null then sctx.options
    else if Get(parsed, "options") != Null then Get(parsed, "options")
    else Arr([])
  }

  function Body(protocol: Protocol, c: Credential, sctx: SettlementContext, destination: string, actual: Option<Amount>)
    : Result<Object, BodyError>
  {
    var metered := MeteredAmount(protocol, c, sctx, actual);
    match protocol
    case ProtocolX402 =>
      var requirement := SelectX402Accept(X402Payload(c), sctx.paymentRequirements);
      var out := map["payload" := Obj(X402Payload(c))];
      var out := if requirement.Some? then out["paymentRequirements" := Obj(AcceptJson(requirement.value))] else out;
      Ok(WithIds(WithOverride(out, metered), sctx, destination))
    case ProtocolMpp =>
      if ParseCredentialJson(c).None? then Err(InvalidCredential)
      else Ok(WithIds(WithOverride(map["credential" := Obj(ParseCredentialJson(c).value)], metered), sctx, destination))
    case ProtocolAtxp =>
      var parsed := if c.raw.Some? then c.raw.value else map[];
      var options := if actual.Some? then Overridden(AtxpOptions(c, sctx), FormatAmount(actual.value))
        else Ok(AtxpOptions(c, sctx));
      if options.Err? then Err(options.error)
      else Ok(AddIf(map[
        "sourceAccountId" := FirstNonEmptyAny(Get(parsed, "sourceAccountId"), sctx.sourceAccountId),
        "destinationAccountId" := Str(FirstNonEmptyStr(destination, sctx.destinationAccountId)),
        "sourceAccountToken" := FirstNonEmptyAny(Get(parsed, "sourceAccountToken"), c.text),
        "options" := options.value], "paymentRequestId", sctx.paymentRequestId))
  }

  /** buildRequestBody, filling the body field by field. */
  method BuildRequestBody(protocol: Protocol, c: Credential, sctx: SettlementContext, destination: string,
                          actual: Option<Amount>)
    returns (r: Result<Object, BodyError>)
    ensures r == Body(protocol, c, sctx, destination, actual)
  {
    var out: Object;
    match protocol {
    case ProtocolX402 =>
      var p := ParseCredentialJson(c);
      var payload := if p.Some? then p.value else map["raw" := Str(c.text)];
      var requirement := SelectX402Accept(payload, sctx.paymentRequirements);
      out := map["payload" := Obj(payload)];
      if requirement.Some? {
        out := out["paymentRequirements" := Obj(AcceptJson(requirement.value))];
      }
      if actual.Some? && requirement.Some? && requirement.value.scheme == "upto" {
        var settleAmount := actual.value;
        var cap := AmountFromMicroString(requirement.value.amount);
        if cap.Ok? {
          settleAmount := Min(settleAmount, cap.value);
        }
        out := out["settlementOverrides" := Obj(map["amount" := Str(MicroString(settleAmount))])];
      }
    case ProtocolMpp =>
      var parsed := ParseCredentialJson(c);
      if parsed.None? {
        return Err(InvalidCredential);
      }
      out := map["credential" := Obj(parsed.value)];
      if actual.Some? && IsMppSession(c) {
        out := out["settlementOverrides" := Obj(map["amount" := Str(MicroString(actual.value))])];
      }
    case ProtocolAtxp =>
      var parsed := if c.raw.Some? then c.raw.value else map[];
      var options := sctx.options;
      if options == Null { options := Get(parsed, "options"); }
      if options == Null { options := Arr([]); }
      if actual.Some? {
        var o := OverrideOptionsAmount(options, FormatAmount(actual.value));
        if o.Err? { return Err(o.error); }
        options := o.value;
      }
      out := map[
        "sourceAccountId" := FirstNonEmptyAny(Get(parsed, "sourceAccountId"), sctx.sourceAccountId),
        "destinationAccountId" := Str(FirstNonEmptyStr(destination, sctx.destinationAccountId)),
        "sourceAccountToken" := FirstNonEmptyAny(Get(parsed, "sourceAccountToken"), c.text),
        "options" := options];
      return Ok(AddIf(out, "paymentRequestId", sctx.paymentRequestId));
    }
    out := AddIf(out, "paymentRequestId", sctx.paymentRequestId);
    out := AddIf(out, "sourceAccountId", sctx.sourceAccountId);
    out := AddIf(out, "destinationAccountId", destination);
    r := Ok(out);
  }

  /* ----- what a body says ------------------------------------------------------------ */

  function OptionalStr(s: string): Json {
    if s != "" then Str(s) else Null
  }

  /** The request names the payment, the payer's account and the merchant's, where they are known. */
  predicate CarriesIds(body: Object, sctx: SettlementContext, destination: string) {
    && Get(body, "paymentRequestId") == OptionalStr(sctx.paymentRequestId)
    && Get(body, "sourceAccountId") == OptionalStr(sctx.sourceAccountId)
    && Get(body, "destinationAccountId") == OptionalStr(destination)
  }

  lemma WithIdsAdds(m: Object, sctx: SettlementContext, destination: string)
    requires forall k :: k in m ==> !IsIdKey(k)
    ensures CarriesIds(WithIds(m, sctx, destination), sctx, destination)
  {
    assert IsIdKey("paymentRequestId") && IsIdKey("sourceAccountId") && IsIdKey("destinationAccountId");
    assert |"paymentRequestId"| == 16 && |"sourceAccountId"| == 15 && |"destinationAccountId"| == 20;
  }

  /** The accept that fits the credential is sent so that it reads back as itself. */
  predicate SendsAccept(body: Object, requirement: Option<X402Option>) {
    match requirement
    case None => "paymentRequirements" !in body
    case Some(a) =>
      Get(body, "paymentRequirements").Obj? && AcceptOf(Get(body, "paymentRequirements").fields) == a
  }

  /** The amount to settle in place of the accept's, in micro-units; none leaves the accept's. */
  predicate Overrides(body: Object, amount: Option<Amount>) {
    match amount
    case None => "settlementOverrides" !in body
    case Some(a) => Get(body, "settlementOverrides") == Obj(map["amount" := Str(MicroString(a))])
  }

  /** An upto accept settles what was metered, but never more than it authorizes; nothing else is overridden. */
  function ClampedOverride(requirement: Option<X402Option>, actual: Option<Amount>): (r: Option<Amount>)
    ensures r.Some? <==> actual.Some? && requirement.Some? && requirement.value.scheme == "upto"
    ensures r.Some? ==>
      var cap := AmountFromMicroString(requirement.value.amount);
      && (cap.Err? ==> r == actual)
      && (cap.Ok? ==> r.value <= cap.value && r.value <= actual.value && r.value in {cap.value, actual.value})
  {
    if actual.None? || requirement.None? || requirement.value.scheme != "upto" then None
    else
      var cap := AmountFromMicroString(requirement.value.amount);
      if cap.Ok? && cap.value < actual.value then Some(cap.value) else actual
  }

  /** An x402 body: the credential as decoded or as it came, the accept that fits it, the identifiers. */
  lemma X402BodyMeans(c: Credential, sctx: SettlementContext, destination: string, actual: Option<Amount>)
    ensures
      var r := Body(ProtocolX402, c, sctx, destination, actual);
      && r.Ok? && CarriesIds(r.value, sctx, destination)
      && Get(r.value, "payload")
           == Obj(if ParseCredentialJson(c).Some? then ParseCredentialJson(c).value else map["raw" := Str(c.text)])
      && SendsAccept(r.value, SelectX402Accept(X402Payload(c), sctx.paymentRequirements))
      && Overrides(r.value, ClampedOverride(SelectX402Accept(X402Payload(c), sctx.paymentRequirements), actual))
  {
    var requirement := SelectX402Accept(X402Payload(c), sctx.paymentRequirements);
    var metered := MeteredAmount(ProtocolX402, c, sctx, actual);
    X402Parts(X402Payload(c), requirement, metered, sctx, destination);
  }

  lemma X402Parts(payload: Object, requirement: Option<X402Option>, metered: Option<Amount>,
                  sctx: SettlementContext, destination: string)
    ensures
      var start := map["payload" := Obj(payload)];
      var out := if requirement.None? then start
                 else start["paymentRequirements" := Obj(AcceptJson(requirement.value))];
      var body := WithIds(WithOverride(out, metered), sctx, destination);
      && CarriesIds(body, sctx, destination) && SendsAccept(body, requirement)
      && Get(body, "payload") == Obj(payload) && Overrides(body, metered)
  {
    var start := map["payload" := Obj(payload)];
    var out := if requirement.Some? then start["paymentRequirements" := Obj(AcceptJson(requirement.value))] else start;
    BodyKeys();
    OtherBodyKeys();
    WithIdsAdds(WithOverride(out, metered), sctx, destination);
    WithIdsKeeps(WithOverride(out, metered), sctx, destination, "payload");
    WithIdsKeeps(WithOverride(out, metered), sctx, destination, "paymentRequirements");
    WithIdsKeeps(WithOverride(out, metered), sctx, destination, "settlementOverrides");
    if requirement.Some? { AcceptRoundTrip(requirement.value); }
    assert Get(WithOverride(out, metered), "settlementOverrides") == Get(
      WithIds(WithOverride(out, metered), sctx, destination), "settlementOverrides");
  }

  lemma OtherBodyKeys()
    ensures !IsIdKey("payload") && !IsIdKey("credential") && "payload" != "paymentRequirements"
  {
    assert |"payload"| == 7 && |"credential"| == 10 && |"paymentRequirements"| == 19;
    assert |"paymentRequestId"| == 16 && |"sourceAccountId"| == 15 && |"destinationAccountId"| == 20;
  }

  /** An MPP body: the credential as decoded, and the identifiers; an undecodable one is an error. */
  lemma MppBodyMeans(c: Credential, sctx: SettlementContext, destination: string, actual: Option<Amount>)
    ensures
      var r := Body(ProtocolMpp, c, sctx, destination, actual);
      && (ParseCredentialJson(c).None? ==> r == Err(InvalidCredential))
      && (ParseCredentialJson(c).Some? ==>
            && r.Ok? && CarriesIds(r.value, sctx, destination)
            && Get(r.value, "credential") == Obj(ParseCredentialJson(c).value)
            && (actual.None? ==> "settlementOverrides" !in r.value))
  {
    if ParseCredentialJson(c).Some? {
      var m := WithOverride(map["credential" := Obj(ParseCredentialJson(c).value)],
                            MeteredAmount(ProtocolMpp, c, sctx, actual));
      BodyKeys();
      OtherBodyKeys();
      WithIdsAdds(m, sctx, destination);
      WithIdsKeeps(m, sctx, destination, "credential");
      WithIdsKeeps(m, sctx, destination, "settlementOverrides");
    }
  }

  /** A field of the credential's own JSON, if it has one. */
  function Own(c: Credential, key: string): Json {
    if c.raw.Some? then Get(c.raw.value, key) else Null
  }

  /**
    An ATXP body: the payer's account and token as the credential gives them, else the context's
    account and the credential itself; the merchant's account, else the context's; and the payment.
  */
  lemma AtxpBodyMeans(c: Credential, sctx: SettlementContext, destination: string, actual: Option<Amount>)
    requires Body(ProtocolAtxp, c, sctx, destination, actual).Ok?
    ensures
      var body := Body(ProtocolAtxp, c, sctx, destination, actual).value;
      && Get(body, "sourceAccountId")
           == (if Own(c, "sourceAccountId") != Null then Own(c, "sourceAccountId") else Str(sctx.sourceAccountId))
      && Get(body, "sourceAccountToken")
           == (if Own(c, "sourceAccountToken") != Null then Own(c, "sourceAccountToken") else Str(c.text))
      && Get(body, "destinationAccountId") == Str(if destination != "" then destination else sctx.destinationAccountId)
      && Get(body, "paymentRequestId") == OptionalStr(sctx.paymentRequestId)
      && (actual.None? ==> Get(body, "options") == AtxpOptions(c, sctx))
  {
    AtxpKeys();
  }

  lemma AtxpKeys()
    ensures "sourceAccountId" != "sourceAccountToken" && "sourceAccountId" != "destinationAccountId"
    ensures "sourceAccountId" != "options" && "sourceAccountId" != "paymentRequestId"
    ensures "sourceAccountToken" != "destinationAccountId" && "sourceAccountToken" != "options"
    ensures "sourceAccountToken" != "paymentRequestId" && "destinationAccountId" != "options"
    ensures "destinationAccountId" != "paymentRequestId" && "options" != "paymentRequestId"
  {
    assert |"sourceAccountId"| == 15 && |"sourceAccountToken"| == 18 && |"destinationAccountId"| == 20;
    assert |"options"| == 7 && |"paymentRequestId"| == 16;
  }
}
