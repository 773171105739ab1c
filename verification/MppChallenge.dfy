/**
  Assembling the MPP part of a challenge (server/omnichallenge.go). The amount encoding
  differs by chain: micro-units on Solana, a decimal on Tempo.
*/
module MppChallenge {
  import opened Wrappers
  import opened Amounts
  import opened Credentials
  import opened Search
  import opened Networks
  import opened X402

  datatype MppChallengeData = MppChallengeData(
    id: string,
    method_: string,
    intent: string,
    amount: string,
    currency: string,
    network: string,
    recipient: string,
    expires: string,
    resource: string,
    request: Object,
    opaque_: Object)

  datatype TempoSession = TempoSession(chainId: Json, escrowContract: string, authorizedSigner: string,
                                       operator: string)

  datatype SolanaSession = SolanaSession(authorizedSigner: string)

  /** findOption: the first option on one of two networks. */
  function FindOption(options: seq<ChargeOption>, a: string, b: string): Option<ChargeOption> {
    FirstWhere(options, (o: ChargeOption) => o.network == a || o.network == b)
  }

  function RequestBody(amount: string, currency: string, recipient: string, resource: string): Object {
    map["amount" := Str(amount), "currency" := Str(currency), "recipient" := Str(recipient)]
    + (if resource != "" then map["resource" := Obj(map["url" := Str(resource)])] else map[])
  }

  function SolanaDetails(s: SolanaSession): Object {
    map["authorizedSigner" := Str(s.authorizedSigner)]
  }

  function TempoDetails(s: TempoSession): Object {
    map["chainId" := s.chainId, "escrowContract" := Str(s.escrowContract),
        "authorizedSigner" := Str(s.authorizedSigner), "operator" := Str(s.operator)]
  }

  function WithDetails(request: Object, details: Object): Object {
    request["methodDetails" := Obj(details)]
  }

  function SolanaChallenge(id: string, o: ChargeOption, resource: string,
                           session: Option<SolanaSession>): MppChallengeData {
    var devnet := o.network == "solana_devnet";
    var currency := if devnet then SOLANA_DEVNET_USDC else SOLANA_USDC;
    var micro := MicroString(o.amount);
    var req := RequestBody(micro, currency, o.address, resource);
    MppChallengeData(id, "solana", if session.Some? then "session" else "charge", micro, currency,
                     if devnet then "devnet" else "mainnet-beta", o.address, "", resource,
                     if session.Some? then WithDetails(req, SolanaDetails(session.value)) else req, map[])
  }

  function TempoChallenge(id: string, o: ChargeOption, resource: string, expires: string,
                          session: Option<TempoSession>): MppChallengeData {
    var currency := if o.currency == "" then "USDC" else o.currency;
    var human := FormatAmount(o.amount);
    var req := RequestBody(human, currency, o.address, resource);
    MppChallengeData(id, "tempo", if session.Some? then "session" else "charge", human, currency,
                     o.network, o.address, expires, resource,
                     if session.Some? then WithDetails(req, TempoDetails(session.value)) else req, map[])
  }

  function SolanaPart(id: string, options: seq<ChargeOption>, resource: string,
                      session: Option<SolanaSession>): seq<MppChallengeData> {
    match FindOption(options, "solana", "solana_devnet")
    case None => []
    case Some(o) =>
      [SolanaChallenge(id, o, resource, None)]
      + (if session.Some? then [SolanaChallenge(id, o, resource, session)] else [])
  }

  function TempoPart(id: string, options: seq<ChargeOption>, resource: string, expires: string,
                     session: Option<TempoSession>): seq<MppChallengeData> {
    match FindOption(options, "tempo", "tempo_moderato")
    case None => []
    case Some(o) =>
      [TempoChallenge(id, o, resource, expires, None)]
      + (if session.Some? then [TempoChallenge(id, o, resource, expires, session)] else [])
  }

  /* ----- what a list of challenges offers ---------------------------------------------- */

  /** The chain a network belongs to, as an MPP method names it. */
  function MethodOf(network: string): string {
    if network == "solana" || network == "solana_devnet" then "solana"
    else if network == "tempo" || network == "tempo_moderato" then "tempo"
    else ""
  }

  /** Option k is the first on that chain. */
  predicate FirstOn(options: seq<ChargeOption>, chain: string, k: int) {
    && 0 <= k < |options| && MethodOf(options[k].network) == chain
    && forall j :: 0 <= j < k ==> MethodOf(options[j].network) != chain
  }

  /** The intent is known, and the amount the price in its chain's encoding, in the request and beside it. */
  predicate PricedAt(c: MppChallengeData, price: Amount) {
    && (c.intent == "charge" || c.intent == "session")
    && (if c.method_ == "solana" then c.amount == MicroString(price) else c.amount == FormatAmount(price))
    && Get(c.request, "amount") == Str(c.amount)
  }

  /** What a list of challenges is made for: the payment, the resource, and the channels on offer. */
  datatype Quote = Quote(
    id: string, resource: string, expires: string, tempo: Option<TempoSession>, solana: Option<SolanaSession>)

  /** The challenge asks for what option o asks, to o's address, in its chain's token, for this payment and resource. */
  predicate AsksFor(c: MppChallengeData, q: Quote, o: ChargeOption) {
    && c.id == q.id && c.resource == q.resource
    && Get(c.request, "resource") == (if q.resource != "" then Obj(map["url" := Str(q.resource)]) else Null)
    && c.recipient == o.address && Get(c.request, "recipient") == Str(o.address)
    && PricedAt(c, o.amount)
    && Get(c.request, "currency") == Str(c.currency)
    && (if c.method_ == "solana" then OnSolana(c, o) else OnTempo(c, q, o))
    && Get(c.request, "methodDetails") == Details(c, q)
  }

  predicate OnSolana(c: MppChallengeData, o: ChargeOption) {
    && Some(c.currency) == LookupUsdc(o.network) && c.expires == ""
    && (o.network == "solana" ==> c.network == "mainnet-beta")
    && (o.network == "solana_devnet" ==> c.network == "devnet")
  }

  predicate OnTempo(c: MppChallengeData, q: Quote, o: ChargeOption) {
    && c.network == o.network && c.expires == q.expires
    && c.currency == if o.currency == "" then "USDC" else o.currency
  }

  /** A session carries its channel's own parameters, a charge none. */
  function Details(c: MppChallengeData, q: Quote): Json {
    if c.intent != "session" then Null
    else if c.method_ == "solana" then
      if q.solana.None? then Null else Obj(map["authorizedSigner" := Str(q.solana.value.authorizedSigner)])
    else if q.tempo.None? then Null
    else Obj(map["operator" := Str(q.tempo.value.operator), "chainId" := q.tempo.value.chainId,
                 "escrowContract" := Str(q.tempo.value.escrowContract),
                 "authorizedSigner" := Str(q.tempo.value.authorizedSigner)])
  }

  predicate Channels(q: Quote, chain: string) {
    if chain == "solana" then q.solana.Some? else q.tempo.Some?
  }

  predicate Offers(challenges: seq<MppChallengeData>, chain: string, intent: string) {
    exists i :: 0 <= i < |challenges| && challenges[i].method_ == chain && challenges[i].intent == intent
  }

  /**
    Every challenge asks for what the first option on its chain asks; a charge is offered on a
    chain exactly when some option is on it, and a session exactly when channels are offered there
    too; each once, Solana before Tempo and a charge before its session.
  */
  ghost predicate IsOffer(challenges: seq<MppChallengeData>, options: seq<ChargeOption>, q: Quote) {
    && EachAsks(challenges, options, q)
    && InOrder(challenges)
    && OffersOn(challenges, "solana", options, q)
    && OffersOn(challenges, "tempo", options, q)
  }

  ghost predicate EachAsks(challenges: seq<MppChallengeData>, options: seq<ChargeOption>, q: Quote) {
    forall i :: 0 <= i < |challenges| ==> (
      && challenges[i].method_ in {"solana", "tempo"}
      && exists k :: FirstOn(options, challenges[i].method_, k) && AsksFor(challenges[i], q, options[k]))
  }

  predicate InOrder(challenges: seq<MppChallengeData>) {
    forall i, j :: 0 <= i < j < |challenges| ==>
      if challenges[i].method_ == challenges[j].method_
      then challenges[i].intent == "charge" && challenges[j].intent == "session"
      else challenges[i].method_ == "solana" && challenges[j].method_ == "tempo"
  }

  ghost predicate OffersOn(challenges: seq<MppChallengeData>, chain: string, options: seq<ChargeOption>, q: Quote) {
    && (Offers(challenges, chain, "charge") <==> exists k :: FirstOn(options, chain, k))
    && (Offers(challenges, chain, "session") <==> Channels(q, chain) && exists k :: FirstOn(options, chain, k))
  }

  /** One chain's challenges: none without an option on it, a charge, then a session if channels are offered. */
  ghost predicate IsChainOffer(part: seq<MppChallengeData>, chain: string, options: seq<ChargeOption>, q: Quote) {
    && (part == [] <==> forall k :: !FirstOn(options, chain, k))
    && (part != [] ==> |part| == if Channels(q, chain) then 2 else 1)
    && (forall i :: 0 <= i < |part| ==> (
          && part[i].method_ == chain && part[i].intent == (if i == 0 then "charge" else "session")
          && exists k :: FirstOn(options, chain, k) && AsksFor(part[i], q, options[k])))
  }

  /** What findOption finds on a chain's two networks is the first option on it. */
  lemma FindsFirstOn(options: seq<ChargeOption>, a: string, b: string, chain: string) returns (k: int)
    requires forall network :: MethodOf(network) == chain <==> network == a || network == b
    ensures FindOption(options, a, b).Some? ==>
      FirstOn(options, chain, k) && options[k] == FindOption(options, a, b).value
    ensures FindOption(options, a, b).None? ==> forall j :: !FirstOn(options, chain, j)
  {
    k := -1;
    var found := FindOption(options, a, b);
    if found.Some? {
      k :| 0 <= k < |options| && options[k] == found.value
        && forall j :: 0 <= j < k ==> !(options[j].network == a || options[j].network == b);
    }
  }

  lemma RequestFields(amount: string, currency: string, recipient: string, resource: string, details: Object)
    ensures var plain := RequestBody(amount, currency, recipient, resource);
      && IsRequest(plain, amount, currency, recipient, resource, Null)
      && IsRequest(WithDetails(plain, details), amount, currency, recipient, resource, Obj(details))
  {
    assert |"amount"| == 6 && |"currency"| == 8 && |"recipient"| == 9 && |"resource"| == 8 && |"methodDetails"| == 13;
    assert "currency"[0] == 'c' && "resource"[0] == 'r';
  }

  predicate IsRequest(r: Object, amount: string, currency: string, recipient: string, resource: string, details: Json) {
    && Get(r, "amount") == Str(amount) && Get(r, "currency") == Str(currency) && Get(r, "recipient") == Str(recipient)
    && Get(r, "resource") == (if resource != "" then Obj(map["url" := Str(resource)]) else Null)
    && Get(r, "methodDetails") == details
  }

  lemma SolanaAsks(q: Quote, o: ChargeOption, session: Option<SolanaSession>)
    requires MethodOf(o.network) == "solana" && (session.Some? ==> session == q.solana)
    ensures AsksFor(SolanaChallenge(q.id, o, q.resource, session), q, o)
  {
    IntentsDiffer();
    var c := SolanaChallenge(q.id, o, q.resource, session);
    RequestFields(c.amount, c.currency, o.address, q.resource,
                  if session.Some? then SolanaDetails(session.value) else map[]);
    NamesDiffer();
  }

  lemma TempoRequest(q: Quote, o: ChargeOption, session: Option<TempoSession>)
    ensures var c := TempoChallenge(q.id, o, q.resource, q.expires, session);
      IsRequest(c.request, c.amount, c.currency, o.address, q.resource,
                if session.Some? then Obj(TempoDetails(session.value)) else Null)
  {
    var c := TempoChallenge(q.id, o, q.resource, q.expires, session);
    RequestFields(c.amount, c.currency, o.address, q.resource,
                  if session.Some? then TempoDetails(session.value) else map[]);
  }

  lemma TempoAsks(q: Quote, o: ChargeOption, session: Option<TempoSession>)
    requires session.Some? ==> session == q.tempo
    ensures AsksFor(TempoChallenge(q.id, o, q.resource, q.expires, session), q, o)
  {
    IntentsDiffer();
    TempoRequest(q, o, session);
  }

  lemma SolanaOffer(q: Quote, options: seq<ChargeOption>)
    ensures IsChainOffer(SolanaPart(q.id, options, q.resource, q.solana), "solana", options, q)
  {
    var k := FindsFirstOn(options, "solana", "solana_devnet", "solana");
    if FindOption(options, "solana", "solana_devnet").Some? {
      SolanaAsks(q, options[k], None);
      SolanaAsks(q, options[k], q.solana);
    }
  }

  lemma TempoOffer(q: Quote, options: seq<ChargeOption>)
    ensures IsChainOffer(TempoPart(q.id, options, q.resource, q.expires, q.tempo), "tempo", options, q)
  {
    IntentsDiffer();
    var k := FindsFirstOn(options, "tempo", "tempo_moderato", "tempo");
    if FindOption(options, "tempo", "tempo_moderato").Some? {
      TempoAsks(q, options[k], None);
      TempoAsks(q, options[k], q.tempo);
    }
  }

  /** Which pairs the challenges of one chain offer. */
  lemma ChainOffers(part: seq<MppChallengeData>, chain: string, options: seq<ChargeOption>, q: Quote)
    requires IsChainOffer(part, chain, options, q)
    ensures OffersOn(part, chain, options, q)
    ensures forall other, intent :: other != chain ==> !Offers(part, other, intent)
  {
    IntentsDiffer();
    if part != [] {
      assert Offers(part, chain, part[0].intent);
    }
    if |part| > 1 {
      assert Offers(part, chain, part[1].intent);
    }
  }

  lemma ChainAsks(part: seq<MppChallengeData>, chain: string, options: seq<ChargeOption>, q: Quote)
    requires IsChainOffer(part, chain, options, q) && chain in {"solana", "tempo"}
    ensures InOrder(part) && EachAsks(part, options, q)
    ensures forall i :: 0 <= i < |part| ==> part[i].method_ == chain
  {
  }

  lemma IntentsDiffer()
    ensures "charge" != "session" && "solana" != "tempo"
  {
    assert "charge"[0] == 'c' && "session"[0] == 's' && |"solana"| == 6 && |"tempo"| == 5;
  }

  lemma JoinOffers(s: seq<MppChallengeData>, t: seq<MppChallengeData>, chain: string, intent: string)
    ensures Offers(s + t, chain, intent) <==> Offers(s, chain, intent) || Offers(t, chain, intent)
  {
    if i :| 0 <= i < |s| && s[i].method_ == chain && s[i].intent == intent {
      assert (s + t)[i] == s[i];
    }
    if i :| 0 <= i < |t| && t[i].method_ == chain && t[i].intent == intent {
      assert (s + t)[|s| + i] == t[i];
    }
  }

  lemma OffersJoin(s: seq<MppChallengeData>, t: seq<MppChallengeData>, options: seq<ChargeOption>, q: Quote)
    requires IsChainOffer(s, "solana", options, q) && IsChainOffer(t, "tempo", options, q)
    ensures IsOffer(s + t, options, q)
  {
    IntentsDiffer();
    ChainOffers(s, "solana", options, q);
    ChainOffers(t, "tempo", options, q);
    ChainAsks(s, "solana", options, q);
    ChainAsks(t, "tempo", options, q);
    OffersOnJoin(s, t, "solana", options, q);
    OffersOnJoin(s, t, "tempo", options, q);
    OrderJoin(s, t);
    AsksJoin(s, t, options, q);
  }

  lemma OffersOnJoin(s: seq<MppChallengeData>, t: seq<MppChallengeData>, chain: string,
                     options: seq<ChargeOption>, q: Quote)
    requires OffersOn(s, chain, options, q) || OffersOn(t, chain, options, q)
    requires !OffersOn(s, chain, options, q) ==> forall intent :: !Offers(s, chain, intent)
    requires !OffersOn(t, chain, options, q) ==> forall intent :: !Offers(t, chain, intent)
    ensures OffersOn(s + t, chain, options, q)
  {
    JoinOffers(s, t, chain, "charge");
    JoinOffers(s, t, chain, "session");
  }

  lemma OrderJoin(s: seq<MppChallengeData>, t: seq<MppChallengeData>)
    requires InOrder(s) && InOrder(t)
    requires forall i :: 0 <= i < |s| ==> s[i].method_ == "solana"
    requires forall i :: 0 <= i < |t| ==> t[i].method_ == "tempo"
    ensures InOrder(s + t)
  {
    IntentsDiffer();
  }

  lemma AsksJoin(s: seq<MppChallengeData>, t: seq<MppChallengeData>, options: seq<ChargeOption>, q: Quote)
    requires EachAsks(s, options, q) && EachAsks(t, options, q)
    ensures EachAsks(s + t, options, q)
  {
    forall i | 0 <= i < |s + t|
      ensures (s + t)[i].method_ in {"solana", "tempo"}
      ensures exists k :: FirstOn(options, (s + t)[i].method_, k) && AsksFor((s + t)[i], q, options[k])
    {
      assert (s + t)[i] == if i < |s| then s[i] else t[i - |s|];
    }
  }

  /** All challenges together offer exactly what the options and the channels on hand allow. */
  lemma MppOffer(id: string, options: seq<ChargeOption>, resource: string, expires: string,
                 tempoSession: Option<TempoSession>, solanaSession: Option<SolanaSession>)
    ensures IsOffer(SolanaPart(id, options, resource, solanaSession)
                      + TempoPart(id, options, resource, expires, tempoSession),
                    options, Quote(id, resource, expires, tempoSession, solanaSession))
  {
    var q := Quote(id, resource, expires, tempoSession, solanaSession);
    SolanaOffer(q, options);
    TempoOffer(q, options);
    OffersJoin(SolanaPart(id, options, resource, solanaSession),
               TempoPart(id, options, resource, expires, tempoSession), options, q);
  }

  /**
    One challenge per supported chain, and one more of intent "session" where the
    authorization server supports channels. `expires` is the rendered time five minutes on.
  */
  method BuildMppChallenges(id: string, options: seq<ChargeOption>, resource: string, expires: string,
                            tempoSession: Option<TempoSession>, solanaSession: Option<SolanaSession>)
    returns (challenges: seq<MppChallengeData>)
    ensures challenges == SolanaPart(id, options, resource, solanaSession)
                          + TempoPart(id, options, resource, expires, tempoSession)
    ensures IsOffer(challenges, options, Quote(id, resource, expires, tempoSession, solanaSession))
  {
    MppOffer(id, options, resource, expires, tempoSession, solanaSession);
    var solana := SolanaChallenges(id, options, resource, solanaSession);
    var tempo := TempoChallenges(id, options, resource, expires, tempoSession);
    challenges := solana + tempo;
  }

  /** The Solana half. */
  method SolanaChallenges(id: string, options: seq<ChargeOption>, resource: string, session: Option<SolanaSession>)
    returns (challenges: seq<MppChallengeData>)
    ensures challenges == SolanaPart(id, options, resource, session)
  {
    challenges := [];
    var sol := FindOption(options, "solana", "solana_devnet");
    if sol.Some? {
      challenges := challenges + [SolanaChallenge(id, sol.value, resource, None)];
      if session.Some? {
        challenges := challenges + [SolanaChallenge(id, sol.value, resource, session)];
      }
    }
  }

  /** The Tempo half. */
  method TempoChallenges(id: string, options: seq<ChargeOption>, resource: string, expires: string,
                         session: Option<TempoSession>)
    returns (challenges: seq<MppChallengeData>)
    ensures challenges == TempoPart(id, options, resource, expires, session)
  {
    challenges := [];
    var tempo := FindOption(options, "tempo", "tempo_moderato");
    if tempo.Some? {
      challenges := challenges + [TempoChallenge(id, tempo.value, resource, expires, None)];
      if session.Some? {
        challenges := challenges + [TempoChallenge(id, tempo.value, resource, expires, session)];
      }
    }
  }

  function Optionally(m: Object, key: string, present: bool, value: Json): Object {
    if present then m[key := value] else m
  }

  /** The wire form of a challenge, as a payer sees it and echoes it. */
  function ChallengeJson(c: MppChallengeData): Object {
    var m := map["id" := Str(c.id), "currency" := Str(c.currency), "network" := Str(c.network),
                 "recipient" := Str(c.recipient)];
    var m := Optionally(m, "expires", c.expires != "", Str(c.expires));
    var m := Optionally(m, "resource", c.resource != "", Obj(map["url" := Str(c.resource)]));
    var m := Optionally(m, "opaque", c.opaque_ != map[], Obj(c.opaque_));
    var m := Optionally(m, "request", c.request != map[], Obj(c.request));
    m["amount" := Str(c.amount)]["intent" := Str(c.intent)]["method" := Str(c.method_)]
  }

  /** Every field of a challenge can be read off its wire form, and what is empty is left out. */
  lemma WireFields(c: MppChallengeData)
    ensures var m := ChallengeJson(c);
      && Get(m, "method") == Str(c.method_) && Get(m, "intent") == Str(c.intent) && Get(m, "amount") == Str(c.amount)
      && (c.request != map[] ==> Get(m, "request") == Obj(c.request))
      && (c.request == map[] ==> Get(m, "request") == Null)
  {
    assert "method"[0] == 'm' && "intent"[0] == 'i' && "amount"[0] == 'a' && |"request"| == 7 && |"id"| == 2;
    assert |"currency"| == 8 && |"network"| == 7 && "network"[0] == 'n' && "request"[0] == 'r' && |"recipient"| == 9;
    assert "expires"[0] == 'e' && |"resource"| == 8 && |"opaque"| == 6;
  }

  lemma WirePlainFields(c: MppChallengeData)
    ensures var m := ChallengeJson(c);
      && Get(m, "id") == Str(c.id) && Get(m, "currency") == Str(c.currency)
      && Get(m, "network") == Str(c.network) && Get(m, "recipient") == Str(c.recipient)
  {
    assert |"id"| == 2 && |"currency"| == 8 && |"network"| == 7 && |"recipient"| == 9 && |"amount"| == 6;
    assert |"expires"| == 7 && |"resource"| == 8 && |"opaque"| == 6 && |"request"| == 7 && |"intent"| == 6;
    assert |"method"| == 6 && "network"[0] == 'n' && "currency"[0] == 'c';
    assert "expires"[0] == 'e' && "request"[0] == 'r' && "resource"[0] == 'r';
  }

  lemma WireOptionalFields(c: MppChallengeData)
    ensures var m := ChallengeJson(c);
      && Get(m, "expires") == (if c.expires != "" then Str(c.expires) else Null)
      && Get(m, "resource") == (if c.resource != "" then Obj(map["url" := Str(c.resource)]) else Null)
      && Get(m, "opaque") == (if c.opaque_ != map[] then Obj(c.opaque_) else Null)
  {
    assert "expires"[0] == 'e' && "opaque"[0] == 'o' && "resource"[0] == 'r' && |"resource"| == 8;
    assert "id"[0] == 'i' && "currency"[0] == 'c' && "network"[0] == 'n' && |"recipient"| == 9;
    assert |"request"| == 7 && "amount"[0] == 'a' && "intent"[0] == 'i' && "method"[0] == 'm' && "recipient"[0] == 'r';
  }
}
