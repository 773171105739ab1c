/**
  The client transport's state machine (transport.go, RoundTrip): at most one OAuth leg,
  then at most one payment leg, against any server.
*/
module RoundTrips {
  import opened Wrappers
  import opened Credentials
  import opened Search
  import opened Transport

  /* ----- reading a challenge ------------------------------------------------------ */

  datatype WireAccept = WireAccept(network: string, payTo: string, amount: string)

  /** The x402 object of a challenge; its accepts when they decode. */
  datatype WireX402 = WireX402(accepts: Option<seq<WireAccept>>)

  datatype ChallengeData = ChallengeData(
    chargeAmount: string, payeeName: string, iss: string,
    x402: Option<WireX402>, mpp: Option<Json>,
    paymentRequestUrl: string, paymentRequestId: string)

  datatype PaymentChallenge = PaymentChallenge(
    chargeAmount: string, memo: string, x402: Option<WireX402>, mpp: Option<Json>,
    paymentRequestUrl: string, paymentRequestId: string)

  const EMPTY_CHALLENGE := PaymentChallenge("", "", None, None, "", "")

  /** A JSON-RPC message, by its error if it has one. */
  datatype RpcError = RpcError(code: int, data: Option<ChallengeData>)

  /** A response body by what it decodes to: challenge data, or the messages of an MCP reply. */
  datatype Response = Response(
    status: int, contentType: string, resourceUrl: string,
    data: Option<ChallengeData>, messages: seq<Option<RpcError>>)

  predicate Contains(s: string, t: string) {
    t <= s || (s != "" && Contains(s[1..], t))
  }

  /** parseChallengeData: nothing usable reads as no challenge. */
  function ParseChallengeData(d: Option<ChallengeData>): Option<PaymentChallenge> {
    if d.None? then None
    else
      var c := d.value;
      if c.chargeAmount == "" && c.x402.None? && c.mpp.None?
        && c.paymentRequestUrl == "" && c.paymentRequestId == "" then None
      else Some(PaymentChallenge(c.chargeAmount, if c.iss != "" then c.iss else c.payeeName, c.x402, c.mpp,
                                 c.paymentRequestUrl, c.paymentRequestId))
  }

  predicate IsPaymentCode(m: Option<RpcError>) {
    m.Some? && (m.value.code == -30402 || m.value.code == -32042)
  }

  function OrEmpty(c: Option<PaymentChallenge>): PaymentChallenge {
    if c.Some? then c.value else EMPTY_CHALLENGE
  }

  function DetectPayment(resp: Response): Option<PaymentChallenge> {
    if resp.status == 402 then Some(OrEmpty(ParseChallengeData(resp.data)))
    else if resp.status == 200
      && (Contains(resp.contentType, "application/json") || Contains(resp.contentType, "text/event-stream")) then
      match FirstWhere(resp.messages, (m: Option<RpcError>) => IsPaymentCode(m))
      case None => None
      case Some(m) => if m.Some? then Some(OrEmpty(ParseChallengeData(m.value.data))) else None
    else None
  }

  /* ----- which replies ask for payment ------------------------------------------- */

  ghost predicate HasPart(s: string, t: string) {
    exists i :: 0 <= i <= |s| - |t| && t <= s[i..]
  }

  lemma {:induction false} ContainsIff(s: string, t: string)
    ensures Contains(s, t) <==> HasPart(s, t)
  {
    if s == "" {
      assert Contains(s, t) ==> t <= s[0..];
    } else {
      ContainsIff(s[1..], t);
      if t <= s { assert t <= s[0..]; }
      if i :| 0 <= i <= |s[1..]| - |t| && t <= s[1..][i..] {
        assert s[1..][i..] == s[i + 1..];
      }
      if i :| 0 <= i <= |s| - |t| && t <= s[i..] {
        if i > 0 { assert s[1..][i - 1..] == s[i..]; } else { assert s[0..] == s; }
      }
    }
  }

  /** Message i is the first that is a payment error, by either code. */
  predicate FirstAsk(messages: seq<Option<RpcError>>, i: int) {
    && 0 <= i < |messages| && messages[i].Some? && messages[i].value.code in {-30402, -32042}
    && forall j :: 0 <= j < i && messages[j].Some? ==> messages[j].value.code !in {-30402, -32042}
  }

  /** A 402, or a JSON or event-stream 200 one of whose messages is a payment error. */
  ghost predicate AsksPayment(resp: Response) {
    || resp.status == 402
    || (resp.status == 200
        && (HasPart(resp.contentType, "application/json") || HasPart(resp.contentType, "text/event-stream"))
        && exists i :: FirstAsk(resp.messages, i))
  }

  /** What the reply says of the payment: its own data, or that of its first payment error. */
  ghost predicate SaysOfPayment(resp: Response, d: Option<ChallengeData>) {
    if resp.status == 402 then d == resp.data
    else exists i :: FirstAsk(resp.messages, i) && d == resp.messages[i].value.data
  }

  /** The challenge is what the data says, and empty where it says nothing usable. */
  predicate ReadsAs(pay: PaymentChallenge, d: Option<ChallengeData>) {
    if d.None? then pay == EMPTY_CHALLENGE
    else
      var c := d.value;
      var usable := c.chargeAmount != "" || c.x402.Some? || c.mpp.Some?
                    || c.paymentRequestUrl != "" || c.paymentRequestId != "";
      && pay.chargeAmount == c.chargeAmount && pay.x402 == c.x402 && pay.mpp == c.mpp
      && pay.paymentRequestUrl == c.paymentRequestUrl && pay.paymentRequestId == c.paymentRequestId
      && (usable ==> if c.iss != "" then pay.memo == c.iss else pay.memo == c.payeeName)
      && (!usable ==> pay.memo == "")
  }

  lemma DetectsExactly(resp: Response)
    ensures DetectPayment(resp).Some? <==> AsksPayment(resp)
    ensures DetectPayment(resp).Some? ==>
      exists d :: SaysOfPayment(resp, d) && ReadsAs(DetectPayment(resp).value, d)
  {
    ContainsIff(resp.contentType, "application/json");
    ContainsIff(resp.contentType, "text/event-stream");
    if resp.status == 402 {
      assert SaysOfPayment(resp, resp.data) && ReadsAs(DetectPayment(resp).value, resp.data);
    } else {
      var i := FindsFirstAsk(resp.messages);
      if DetectPayment(resp).Some? {
        assert SaysOfPayment(resp, resp.messages[i].value.data);
        assert ReadsAs(DetectPayment(resp).value, resp.messages[i].value.data);
      }
    }
  }

  lemma FindsFirstAsk(messages: seq<Option<RpcError>>) returns (i: int)
    ensures var found := FirstWhere(messages, (m: Option<RpcError>) => IsPaymentCode(m));
      if found.Some? then FirstAsk(messages, i) && found.value == messages[i] else forall j :: !FirstAsk(messages, j)
  {
    i := -1;
    var found := FirstWhere(messages, (m: Option<RpcError>) => IsPaymentCode(m));
    if found.Some? {
      i :| 0 <= i < |messages| && messages[i] == found.value && forall j :: 0 <= j < i ==> !IsPaymentCode(messages[j]);
    }
  }

  /* ----- what is sent to /authorize/auto --------------------------------------------- */

  datatype AuthorizeParams = AuthorizeParams(
    protocols: seq<string>, amount: string, destination: string, memo: string,
    paymentRequirements: Option<WireX402>, challenges: Option<Json>)

  function FirstX402(x: WireX402): (string, string) {
    if x.accepts.None? then ("", "")
    else match FirstWhere(x.accepts.value, (a: WireAccept) => a.network != "atxp")
      case None => ("", "")
      case Some(a) => (a.payTo, a.amount)
  }

  /**
    Whom to pay, and what it asks: the first non-ATXP x402 accept if it has an address, else what
    the payment request URL answers, which is asked only then.
  */
  function Recipient(pay: PaymentChallenge, fetched: (string, string)): (string, string) {
    var first := if pay.x402.Some? then FirstX402(pay.x402.value) else ("", "");
    if first.0 != "" then first
    else if pay.paymentRequestUrl != "" && fetched.0 != "" then fetched
    else ("", "")
  }

  /** What a challenge is authorized for; its own amount outranks the recipient's. */
  function ParamsFor(pay: PaymentChallenge, fetched: (string, string)): AuthorizeParams {
    var (destination, asked) := Recipient(pay, fetched);
    AuthorizeParams(
      ["atxp"] + (if pay.x402.Some? then ["x402"] else []) + (if pay.mpp.Some? then ["mpp"] else []),
      if pay.chargeAmount != "" then pay.chargeAmount else asked,
      destination, pay.memo, pay.x402, pay.mpp)
  }

  /** Accept i is the first that is not ATXP's own. */
  predicate FirstForeign(accepts: seq<WireAccept>, i: int) {
    0 <= i < |accepts| && accepts[i].network != "atxp" && forall j :: 0 <= j < i ==> accepts[j].network == "atxp"
  }

  /**
    What is authorized: everything the challenge offers, to the address and for the amount of its
    first foreign accept if that has an address, else of its payment request; its own amount comes
    first.
  */
  ghost predicate AuthorizesFor(p: AuthorizeParams, pay: PaymentChallenge, fetched: (string, string)) {
    && p.memo == pay.memo && p.paymentRequirements == pay.x402 && p.challenges == pay.mpp
    && p.protocols == ["atxp"] + (if pay.x402.Some? then ["x402"] else []) + (if pay.mpp.Some? then ["mpp"] else [])
    && (pay.chargeAmount != "" ==> p.amount == pay.chargeAmount)
    && (forall i :: pay.x402.Some? && pay.x402.value.accepts.Some? && FirstForeign(pay.x402.value.accepts.value, i) ==>
          var a := pay.x402.value.accepts.value[i];
          if a.payTo != "" then p.destination == a.payTo && (pay.chargeAmount == "" ==> p.amount == a.amount)
          else FromRequest(p, pay, fetched))
    && ((forall i :: !(pay.x402.Some? && pay.x402.value.accepts.Some?
                       && FirstForeign(pay.x402.value.accepts.value, i))) ==> FromRequest(p, pay, fetched))
  }

  predicate FromRequest(p: AuthorizeParams, pay: PaymentChallenge, fetched: (string, string)) {
    if pay.paymentRequestUrl != "" && fetched.0 != ""
    then p.destination == fetched.0 && (pay.chargeAmount == "" ==> p.amount == fetched.1)
    else p.destination == "" && p.amount == pay.chargeAmount
  }

  lemma ParamsAuthorize(pay: PaymentChallenge, fetched: (string, string))
    ensures AuthorizesFor(ParamsFor(pay, fetched), pay, fetched)
  {
    if pay.x402.Some? && pay.x402.value.accepts.Some? {
      FirstX402Exact(pay.x402.value.accepts.value);
    }
  }

  lemma FirstX402Exact(accepts: seq<WireAccept>)
    ensures forall i :: FirstForeign(accepts, i) ==>
      FirstX402(WireX402(Some(accepts))) == (accepts[i].payTo, accepts[i].amount)
    ensures (forall i :: !FirstForeign(accepts, i)) ==> FirstX402(WireX402(Some(accepts))) == ("", "")
  {
    var found := FirstWhere(accepts, (a: WireAccept) => a.network != "atxp");
    if found.Some? {
      var k :| 0 <= k < |accepts| && accepts[k] == found.value
        && forall j :: 0 <= j < k ==> !(accepts[j].network != "atxp");
      assert FirstForeign(accepts, k);
    }
  }

  /**
    buildAuthorizeParams, filling the parameters field by field; `fetched` is what the
    payment request URL answers, when it is asked. None is the "no amount" error.
  */
  method BuildAuthorizeParams(pay: PaymentChallenge, fetched: (string, string)) returns (r: Option<AuthorizeParams>)
    ensures var p := ParamsFor(pay, fetched); r == if p.amount == "" then None else Some(p)
  {
    var p := AuthorizeParams(["atxp"], "", "", pay.memo, None, None);
    if pay.chargeAmount != "" {
      p := p.(amount := pay.chargeAmount);
    }
    if pay.x402.Some? {
      p := p.(paymentRequirements := pay.x402, protocols := p.protocols + ["x402"]);
      var (d, a) := FirstX402(pay.x402.value);
      if d != "" {
        p := p.(destination := d);
        if p.amount == "" { p := p.(amount := a); }
      }
    }
    if pay.mpp.Some? {
      p := p.(challenges := pay.mpp, protocols := p.protocols + ["mpp"]);
    }
    if p.destination == "" && pay.paymentRequestUrl != "" {
      var (d, a) := fetched;
      if d != "" {
        p := p.(destination := d);
        if p.amount == "" { p := p.(amount := a); }
      }
    }
    assert ["atxp"] + [] == ["atxp"] && p.protocols + [] == p.protocols;
    if p.amount == "" {
      return None;
    }
    r := Some(p);
  }

  /* ----- the state machine -------------------------------------------------------------- */

  datatype TransportError = NoAccountId | UnreadableBody | SendFailed | OAuthFailed | NoAmount | AuthorizeFailed

  /** One thing the transport does that the world can see. */
  datatype Action =
    | Sent(header: Header, body: Option<string>)
    | Handshook(resourceUrl: string)
    | Authorized(params: AuthorizeParams)

  /** Everything the world decides: every reply, and the token stored at each attempt. */
  datatype World = World(
    accountId: Option<string>,
    bodyReadable: bool,
    replies: nat -> Option<Response>,
    bearers: nat -> Option<string>,
    oauthSucceeds: bool,
    fetched: (string, string),
    authorized: Option<AuthorizeResult>)

  function Attempts(actions: seq<Action>): nat {
    if actions == [] then 0 else Attempts(actions[..|actions| - 1]) + if actions[|actions| - 1].Sent? then 1 else 0
  }

  function Payments(actions: seq<Action>): nat {
    if actions == [] then 0
    else Payments(actions[..|actions| - 1]) + if actions[|actions| - 1].Authorized? then 1 else 0
  }

  /** The payment challenge in the reply to the last of so many attempts, if there is one. */
  function ChallengedBy(world: World, attempts: nat): Option<PaymentChallenge> {
    if attempts == 0 || world.replies(attempts - 1).None? then None
    else DetectPayment(world.replies(attempts - 1).value)
  }

  /** The request as the caller gave it; `resource` is its URL as trimToPath leaves it. */
  datatype Original = Original(header: Header, resource: string, body: Option<string>)

  /** What may come next after `done`, for this request. */
  ghost predicate Allowed(world: World, o: Original, done: seq<Action>, next: Action) {
    var n := Attempts(done);
    match next
    case Handshook(url) =>
      && |done| == 1 && done[0].Sent? && world.replies(0).Some? && world.replies(0).value.status == 401
      && url == if world.replies(0).value.resourceUrl != "" then world.replies(0).value.resourceUrl else o.resource
    case Authorized(p) =>
      && done != [] && done[|done| - 1].Sent? && Payments(done) == 0 && ChallengedBy(world, n).Some?
      && p == ParamsFor(ChallengedBy(world, n).value, world.fetched) && p.amount != ""
    case Sent(h, b) =>
      && b == o.body
      && if done == [] then h == AttemptHeader(o.header, world.bearers(n))
         else if done[|done| - 1].Handshook? then world.oauthSucceeds && h == AttemptHeader(o.header, world.bearers(n))
         else
           && done[|done| - 1].Authorized? && world.authorized.Some? && ChallengedBy(world, n).Some?
           && h == AttemptHeader(PaidHeader(o.header, world.authorized.value,
                                            ChallengedBy(world, n).value.paymentRequestId),
                                 world.bearers(n))
  }

  /** A run in which every action was allowed when it was taken. */
  ghost predicate Legal(world: World, o: Original, actions: seq<Action>) {
    actions == [] || (
      && Legal(world, o, actions[..|actions| - 1])
      && Allowed(world, o, actions[..|actions| - 1], actions[|actions| - 1]))
  }

  /**
    When a run may end, and with what: with the reply to its last attempt once that is neither
    an unanswered 401 nor an unpaid challenge, or with an error where the world failed it.
  */
  ghost predicate Ends(world: World, actions: seq<Action>, r: Result<Response, TransportError>) {
    var n := Attempts(actions);
    match r
    case Ok(resp) => EndsWith(world, actions, Some(resp)) && (Payments(actions) == 0 ==> DetectPayment(resp).None?)
                     && (|actions| == 1 ==> resp.status != 401)
    case Err(SendFailed) => EndsWith(world, actions, None)
    case Err(OAuthFailed) => actions != [] && actions[|actions| - 1].Handshook? && !world.oauthSucceeds
    case Err(NoAmount) =>
      && actions != [] && actions[|actions| - 1].Sent? && Payments(actions) == 0
      && ChallengedBy(world, n).Some? && ParamsFor(ChallengedBy(world, n).value, world.fetched).amount == ""
    case Err(AuthorizeFailed) => actions != [] && actions[|actions| - 1].Authorized? && world.authorized.None?
    case Err(NoAccountId) => actions == [] && world.accountId.None?
    case Err(UnreadableBody) => actions == [] && !world.bodyReadable
  }

  /** The last action was an attempt, and this is the reply to it. */
  ghost predicate EndsWith(world: World, actions: seq<Action>, reply: Option<Response>) {
    actions != [] && actions[|actions| - 1].Sent? && Attempts(actions) > 0
      && world.replies(Attempts(actions) - 1) == reply
  }

  lemma LegalExtend(world: World, o: Original, done: seq<Action>, next: Action)
    requires Legal(world, o, done) && Allowed(world, o, done, next)
    ensures Legal(world, o, done + [next])
    ensures Attempts(done + [next]) == Attempts(done) + if next.Sent? then 1 else 0
    ensures Payments(done + [next]) == Payments(done) + if next.Authorized? then 1 else 0
  {
    assert (done + [next])[..|done|] == done;
  }

  /**
    Every legal run is a prefix of attempt, handshake, attempt, authorization, attempt with
    either leg left out: at most three attempts, one handshake and one authorization, and
    nothing after the attempt that follows an authorization.
  */
  lemma {:induction false} LegalShape(world: World, o: Original, actions: seq<Action>)
    requires Legal(world, o, actions)
    ensures Attempts(actions) <= 3 && Payments(actions) <= 1 && |actions| <= 5
    ensures forall k :: 0 <= k < |actions| ==>
      match actions[k]
      case Sent(_, b) => b == o.body && k % 2 == 0
      case Handshook(_) => k == 1
      case Authorized(_) => (k == 1 || k == 3) && |actions| <= k + 2
    ensures Attempts(actions) == (|actions| + 1) / 2
    ensures Payments(actions) == 1 <==>
      (|actions| > 1 && actions[1].Authorized?) || (|actions| > 3 && actions[3].Authorized?)
  {
    if actions != [] {
      var n := |actions| - 1;
      LegalShape(world, o, actions[..n]);
      assert forall k :: 0 <= k < n ==> actions[..n][k] == actions[k];
    }
  }

  /** No payment was made. */
  predicate NonePaid(actions: seq<Action>) {
    forall k :: 0 <= k < |actions| ==> !actions[k].Authorized?
  }

  class Request {
    var header: Header
    const resource: string
    const body: Option<string>

    constructor (o: Original)
      ensures Value() == o
    {
      header, resource, body := o.header, o.resource, o.body;
    }

    function Value(): Original
      reads this
    {
      Original(header, resource, body)
    }
  }

  /** The stored token goes onto an attempt unless an MPP payment holds the Authorization header. */
  method AttachBearer(header: Header, token: Option<string>) returns (h: Header)
    ensures h == AttemptHeader(header, token)
  {
    h := header;
    var existing := GetHeader(h, AUTHORIZATION);
    if !IsPaymentAuthorization(existing) {
      if token.Some? {
        h := h[AUTHORIZATION := BEARER_PREFIX + token.value];
      }
    }
  }

  class RoundTripper {
    /** What the current round trip has done. */
    var actions: seq<Action>

    constructor ()
      ensures actions == []
    {
      actions := [];
    }

    /** attempt: one request with a fresh body and the current access token. */
    method Attempt(req: Request, world: World, n: nat, ghost o: Original) returns (resp: Option<Response>)
      requires Legal(world, o, actions) && n == Attempts(actions)
      requires Allowed(world, o, actions, Sent(AttemptHeader(req.header, world.bearers(n)), req.body))
      modifies this
      ensures Legal(world, o, actions)
      ensures actions == old(actions) + [Sent(AttemptHeader(req.header, world.bearers(n)), req.body)]
      ensures Attempts(actions) == n + 1 && Payments(actions) == Payments(old(actions))
      ensures resp == world.replies(n)
    {
      var h := AttachBearer(req.header, world.bearers(n));
      LegalExtend(world, o, actions, Sent(h, req.body));
      actions := actions + [Sent(h, req.body)];
      resp := world.replies(n);
    }

    /** settle: authorize the payment and write its header onto the request. */
    method Settle(req: Request, pay: PaymentChallenge, world: World, ghost o: Original)
      returns (err: Option<TransportError>)
      requires Legal(world, o, actions) && req.Value() == o
      requires actions != [] && actions[|actions| - 1].Sent? && Payments(actions) == 0
      requires ChallengedBy(world, Attempts(actions)) == Some(pay)
      modifies this, req
      ensures Legal(world, o, actions) && Attempts(actions) == Attempts(old(actions))
      ensures err.None? ==> (
        && world.authorized.Some?
        && actions != [] && actions[|actions| - 1].Authorized? && Payments(actions) == 1
        && req.header == PaidHeader(o.header, world.authorized.value, pay.paymentRequestId))
      ensures err.Some? ==> Ends(world, actions, Err(err.value)) && req.header == old(req.header)
    {
      var params := BuildAuthorizeParams(pay, world.fetched);
      if params.None? {
        return Some(NoAmount);
      }
      LegalExtend(world, o, actions, Authorized(params.value));
      actions := actions + [Authorized(params.value)];
      if world.authorized.None? {
        return Some(AuthorizeFailed);
      }
      req.header := ApplyPaymentHeader(req.header, world.authorized.value);
      if pay.paymentRequestId != "" {
        req.header := req.header[REQUEST_ID := pay.paymentRequestId];
      }
      err := None;
    }

    /** The OAuth leg: one handshake for the resource the 401 names, then one more attempt. */
    method Authenticate(req: Request, world: World, refused: Response) returns (resp: Result<Response, TransportError>)
      requires Legal(world, req.Value(), actions)
      requires |actions| == 1 && actions[0].Sent? && world.replies(0) == Some(refused) && refused.status == 401
      modifies this
      ensures Legal(world, req.Value(), actions) && Payments(actions) == 0
      ensures resp.Ok? ==> Attempts(actions) == 2 && |actions| == 3 && EndsWith(world, actions, Some(resp.value))
      ensures resp.Err? ==> Ends(world, actions, resp)
    {
      CountsOfOne(actions);
      var resource := if refused.resourceUrl != "" then refused.resourceUrl else req.resource;
      LegalExtend(world, req.Value(), actions, Handshook(resource));
      actions := actions + [Handshook(resource)];
      if !world.oauthSucceeds {
        return Err(OAuthFailed);
      }
      var r := Attempt(req, world, 1, req.Value());
      resp := if r.None? then Err(SendFailed) else Ok(r.value);
    }

    /** The payment leg: settle the challenge in the last reply, then one last attempt. */
    method Pay(req: Request, pay: PaymentChallenge, world: World, n: nat, ghost o: Original)
      returns (r: Result<Response, TransportError>)
      requires Legal(world, o, actions) && req.Value() == o
      requires actions != [] && actions[|actions| - 1].Sent? && n == Attempts(actions) && Payments(actions) == 0
      requires ChallengedBy(world, n) == Some(pay)
      modifies this, req
      ensures Legal(world, o, actions) && Ends(world, actions, r)
      ensures r.Ok? ==> !NonePaid(actions)
    {
      var err := Settle(req, pay, world, o);
      if err.Some? {
        return Err(err.value);
      }
      var last := Attempt(req, world, n, o);
      r := if last.None? then Err(SendFailed) else Ok(last.value);
    }

    /**
      RoundTrip. Against any world the actions taken form a legal run, and it ends only where
      a run may end, with what it may end with.
    */
    method RoundTrip(req: Request, world: World) returns (r: Result<Response, TransportError>)
      modifies this, req
      ensures Legal(world, old(req.Value()), actions) && Ends(world, actions, r)
      ensures world.accountId.None? || !world.bodyReadable ==> actions == []
      ensures r.Ok? && NonePaid(actions) ==> !AsksPayment(r.value)
    {
      actions := [];
      if world.accountId.None? {
        return Err(NoAccountId);
      }
      if !world.bodyReadable {
        return Err(UnreadableBody);
      }
      var first := Attempt(req, world, 0, req.Value());
      if first.None? {
        return Err(SendFailed);
      }
      var resp, n := first.value, 1;
      if resp.status == 401 {
        var retried := Authenticate(req, world, resp);
        if retried.Err? {
          return retried;
        }
        resp, n := retried.value, 2;
      }
      DetectsExactly(resp);
      var pay := DetectPayment(resp);
      if pay.None? {
        return Ok(resp);
      }
      r := Pay(req, pay.value, world, n, req.Value());
    }
  }

  lemma CountsOfOne(actions: seq<Action>)
    requires |actions| == 1
    ensures Attempts(actions) == (if actions[0].Sent? then 1 else 0)
    ensures Payments(actions) == (if actions[0].Authorized? then 1 else 0)
  {
    assert actions[..0] == [];
  }

  /* ----- what is paid is what was asked -------------------------------------------- */

  /** A handshake follows a first reply of 401, and is for the resource that names, else the request's own. */
  lemma HandshakeIsForRefused(world: World, o: Original, actions: seq<Action>, k: nat)
    requires Legal(world, o, actions) && k < |actions| && actions[k].Handshook?
    ensures k == 1 && world.replies(0).Some? && world.replies(0).value.status == 401
    ensures world.replies(0).value.resourceUrl != "" ==> actions[1].resourceUrl == world.replies(0).value.resourceUrl
    ensures world.replies(0).value.resourceUrl == "" ==> actions[1].resourceUrl == o.resource
  {
    LegalPrefix(world, o, actions, k);
  }

  /** Every authorization follows a reply that asks for payment, and is for what that reply says. */
  lemma AuthorizedIsAsked(world: World, o: Original, actions: seq<Action>, k: nat)
    requires Legal(world, o, actions) && k < |actions| && actions[k].Authorized?
    ensures k > 0 && actions[k - 1].Sent? && Attempts(actions[..k]) > 0
    ensures var reply := world.replies(Attempts(actions[..k]) - 1);
      && reply.Some? && AsksPayment(reply.value)
      && exists d, pay :: SaysOfPayment(reply.value, d) && ReadsAs(pay, d)
                          && AuthorizesFor(actions[k].params, pay, world.fetched)
  {
    LegalPrefix(world, o, actions, k);
    var reply := world.replies(Attempts(actions[..k]) - 1).value;
    DetectsExactly(reply);
    ParamsAuthorize(DetectPayment(reply).value, world.fetched);
  }

  /**
    When the first reply asks for payment and an amount can be found, every run that has ended has
    authorized it, right after the first attempt.
  */
  lemma AskedIsAuthorized(world: World, o: Original, actions: seq<Action>, r: Result<Response, TransportError>,
                          resp: Response)
    requires world.accountId.Some? && world.bodyReadable && Legal(world, o, actions) && Ends(world, actions, r)
    requires world.replies(0) == Some(resp) && DetectPayment(resp).Some?
    requires ParamsFor(DetectPayment(resp).value, world.fetched).amount != ""
    ensures |actions| > 1 && actions[1] == Authorized(ParamsFor(DetectPayment(resp).value, world.fetched))
  {
    LegalPrefix(world, o, actions, 0);
    assert actions != [] && actions[..0] == [] && actions[0].Sent?;
    if |actions| == 1 {
      CountsOfOne(actions);
    } else {
      LegalPrefix(world, o, actions, 1);
      CountsOfOne(actions[..1]);
    }
  }

  /* ----- the world decides the run ---------------------------------------------------- */

  /** At most one thing may come next, and nothing once the run has ended. */
  lemma NextIsUnique(world: World, o: Original, done: seq<Action>, x: Action, y: Action)
    requires Allowed(world, o, done, x) && Allowed(world, o, done, y)
    ensures x == y
  {
    if |done| == 1 { CountsOfOne(done); }
  }

  lemma EndedHasNoNext(world: World, o: Original, done: seq<Action>, r: Result<Response, TransportError>, x: Action)
    requires world.accountId.Some? && world.bodyReadable && Ends(world, done, r)
    ensures !Allowed(world, o, done, x)
  {
    if |done| == 1 { CountsOfOne(done); }
  }

  lemma EndIsUnique(world: World, done: seq<Action>,
                    r: Result<Response, TransportError>, q: Result<Response, TransportError>)
    requires world.accountId.Some? && world.bodyReadable && Ends(world, done, r) && Ends(world, done, q)
    ensures r == q
  {
  }

  lemma {:induction false} LegalPrefix(world: World, o: Original, actions: seq<Action>, k: nat)
    requires Legal(world, o, actions) && k <= |actions|
    ensures Legal(world, o, actions[..k])
    ensures k < |actions| ==> Allowed(world, o, actions[..k], actions[k])
  {
    var n := |actions| - 1;
    if k < n {
      LegalPrefix(world, o, actions[..n], k);
      assert actions[..n][..k] == actions[..k];
    } else {
      assert actions[..|actions|] == actions;
    }
  }

  lemma {:induction false} SameSoFar(world: World, o: Original, a: seq<Action>, b: seq<Action>)
    requires Legal(world, o, a) && Legal(world, o, b) && |a| <= |b|
    ensures b[..|a|] == a
  {
    if a != [] {
      var n := |a| - 1;
      SameSoFar(world, o, a[..n], b);
      LegalPrefix(world, o, b, n);
      NextIsUnique(world, o, a[..n], a[n], b[n]);
      OneLonger(a, b, n);
    }
  }

  lemma OneLonger(a: seq<Action>, b: seq<Action>, n: nat)
    requires n + 1 == |a| <= |b| && a[..n] == b[..n] && a[n] == b[n]
    ensures b[..n + 1] == a
  {
    assert b[..n + 1] == b[..n] + [b[n]] && a == a[..n] + [a[n]];
  }

  lemma EndedIsNoShorter(world: World, o: Original, a: seq<Action>, b: seq<Action>, r: Result<Response, TransportError>)
    requires world.accountId.Some? && world.bodyReadable
    requires Legal(world, o, a) && Legal(world, o, b) && Ends(world, a, r)
    ensures |b| <= |a|
  {
    if |a| < |b| {
      SameSoFar(world, o, a, b);
      LegalPrefix(world, o, b, |a|);
      EndedHasNoNext(world, o, a, r, b[|a|]);
    }
  }

  /**
    A world fixes its round trip: two legal runs of one request that have ended are the same
    run, with the same result. So what RoundTrip does and returns is the only thing it could.
  */
  lemma EndedRunsAgree(world: World, o: Original, a: seq<Action>, b: seq<Action>,
                       r: Result<Response, TransportError>, q: Result<Response, TransportError>)
    requires world.accountId.Some? && world.bodyReadable
    requires Legal(world, o, a) && Legal(world, o, b) && Ends(world, a, r) && Ends(world, b, q)
    ensures a == b && r == q
  {
    EndedIsNoShorter(world, o, a, b, r);
    EndedIsNoShorter(world, o, b, a, q);
    SameSoFar(world, o, a, b);
    assert b[..|a|] == b;
    EndIsUnique(world, a, r, q);
  }

  /**
    The attempt that follows an authorization is read back by the server as that payment,
    whenever the original request carried no payment header of its own.
  */
  lemma PaidAttemptIsDetected(world: World, o: Original, actions: seq<Action>, k: nat)
    requires Legal(world, o, actions)
    requires 0 < k < |actions| && actions[k - 1].Authorized? && actions[k].Sent?
    requires DetectProtocol(o.header) == None && REQUEST_ID !in o.header
    ensures k == |actions| - 1 && world.authorized.Some? && ChallengedBy(world, Attempts(actions[..k])).Some?
    ensures var res := world.authorized.value;
      KnownProtocol(res.protocol).Some? && res.credential != "" ==>
        DetectProtocol(actions[k].header)
          == Some(Detection(KnownProtocol(res.protocol).value, res.credential,
                            ChallengedBy(world, Attempts(actions[..k])).value.paymentRequestId))
  {
    LegalShape(world, o, actions);
    var n := Attempts(actions[..k]);
    var res := world.authorized.value;
    var id := ChallengedBy(world, n).value.paymentRequestId;
    if KnownProtocol(res.protocol).Some? && res.credential != "" {
      PaymentHeaderRoundTripOnCleanRequest(o.header, res, id, world.bearers(n));
    }
  }
}
