/**
  The client's retry protocol (transport.go) and the server's reading of the headers it
  sends (server/protocol.go, DetectProtocol).
*/
module Transport {
  import opened Wrappers
  import opened Credentials

  /* ----- headers -------------------------------------------------------------- */

  /** A header set. net/http identifies names up to case; these are the lower-case names. */
  type Header = map<string, string>

  const ATXP_PAYMENT := "x-atxp-payment"
  const X402_SIGNATURE := "payment-signature"
  const X402_PAYMENT := "x-payment"
  const AUTHORIZATION := "authorization"
  const REQUEST_ID := "x-atxp-payment-request-id"
  const EXPOSE := "access-control-expose-headers"

  lemma NamesDistinct()
    ensures ATXP_PAYMENT != X402_SIGNATURE && ATXP_PAYMENT != X402_PAYMENT && ATXP_PAYMENT != AUTHORIZATION
    ensures ATXP_PAYMENT != REQUEST_ID && ATXP_PAYMENT != EXPOSE
    ensures X402_SIGNATURE != X402_PAYMENT && X402_SIGNATURE != AUTHORIZATION && X402_SIGNATURE != REQUEST_ID
    ensures X402_SIGNATURE != EXPOSE && X402_PAYMENT != AUTHORIZATION && X402_PAYMENT != REQUEST_ID
    ensures X402_PAYMENT != EXPOSE && AUTHORIZATION != REQUEST_ID && AUTHORIZATION != EXPOSE && REQUEST_ID != EXPOSE
  {
    assert |ATXP_PAYMENT| == 14 && |X402_SIGNATURE| == 17 && |X402_PAYMENT| == 9;
    assert |AUTHORIZATION| == 13 && |REQUEST_ID| == 25 && |EXPOSE| == 29;
  }

  function GetHeader(h: Header, name: string): string {
    if name in h then h[name] else ""
  }

  const PAYMENT_PREFIX := "Payment "
  const BEARER_PREFIX := "Bearer "

  predicate IsPaymentAuthorization(auth: string) {
    PAYMENT_PREFIX <= auth
  }

  /** The server's reading of a request's payment headers. */
  function DetectProtocol(h: Header): Option<Detection> {
    var id := GetHeader(h, REQUEST_ID);
    var sig := if GetHeader(h, X402_SIGNATURE) != "" then GetHeader(h, X402_SIGNATURE) else GetHeader(h, X402_PAYMENT);
    var auth := GetHeader(h, AUTHORIZATION);
    if GetHeader(h, ATXP_PAYMENT) != "" then Some(Detection(ProtocolAtxp, GetHeader(h, ATXP_PAYMENT), id))
    else if sig != "" then Some(Detection(ProtocolX402, sig, id))
    else if IsPaymentAuthorization(auth) then Some(Detection(ProtocolMpp, auth[|PAYMENT_PREFIX|..], id))
    else None
  }

  /* ----- the retry's headers ----------------------------------------------------- */

  datatype AuthorizeResult = AuthorizeResult(protocol: string, credential: string)

  /** The protocol names /authorize/auto answers with. */
  function KnownProtocol(name: string): Option<Protocol> {
    if name == "atxp" then Some(ProtocolAtxp)
    else if name == "x402" then Some(ProtocolX402)
    else if name == "mpp" then Some(ProtocolMpp)
    else None
  }

  function ApplyPaymentHeader(h: Header, res: AuthorizeResult): Header {
    match KnownProtocol(res.protocol)
    case Some(ProtocolX402) => h[X402_PAYMENT := res.credential][EXPOSE := "X-PAYMENT-RESPONSE"]
    case Some(ProtocolMpp) => h[AUTHORIZATION := PAYMENT_PREFIX + res.credential]
    case Some(ProtocolAtxp) => h[ATXP_PAYMENT := res.credential]
    case None => h
  }

  /** What settle leaves on the request: the payment header, and the payment request id if there is one. */
  function PaidHeader(h: Header, res: AuthorizeResult, paymentRequestId: string): Header {
    var paid := ApplyPaymentHeader(h, res);
    if paymentRequestId != "" then paid[REQUEST_ID := paymentRequestId] else paid
  }

  /** What attempt sends: the stored bearer token is attached unless an MPP payment is there. */
  function AttemptHeader(h: Header, bearer: Option<string>): Header {
    if bearer.Some? && !IsPaymentAuthorization(GetHeader(h, AUTHORIZATION))
    then h[AUTHORIZATION := BEARER_PREFIX + bearer.value]
    else h
  }

  lemma BearerIsNotPayment(token: string)
    ensures !IsPaymentAuthorization(BEARER_PREFIX + token)
  {
    assert (BEARER_PREFIX + token)[0] == 'B' && PAYMENT_PREFIX[0] == 'P';
  }

  /** The retry carries the credential in its protocol's own header, and the payment's id in its own. */
  lemma PaymentIsWritten(h: Header, res: AuthorizeResult, paymentRequestId: string)
    ensures var paid := PaidHeader(h, res, paymentRequestId);
      && (res.protocol == "atxp" ==> GetHeader(paid, "x-atxp-payment") == res.credential)
      && (res.protocol == "x402" ==>
            && GetHeader(paid, "x-payment") == res.credential
            && GetHeader(paid, "access-control-expose-headers") == "X-PAYMENT-RESPONSE")
      && (res.protocol == "mpp" ==> GetHeader(paid, "authorization") == "Payment " + res.credential)
      && (paymentRequestId != "" ==> GetHeader(paid, "x-atxp-payment-request-id") == paymentRequestId)
  {
    NamesDistinct();
    assert |"atxp"| == 4 && |"x402"| == 4 && |"mpp"| == 3 && "atxp"[0] == 'a' && "x402"[0] == 'x';
  }

  /** Nothing else on the request is touched. */
  lemma RestIsKept(h: Header, res: AuthorizeResult, paymentRequestId: string, name: string)
    requires name != "x-atxp-payment" && name != "x-payment" && name != "access-control-expose-headers"
    requires name != "authorization" && name != "x-atxp-payment-request-id"
    ensures GetHeader(PaidHeader(h, res, paymentRequestId), name) == GetHeader(h, name)
  {
  }

  /** An attempt carries the stored token as its bearer, unless an MPP payment is there; nothing else changes. */
  lemma BearerIsSent(h: Header, bearer: Option<string>, name: string)
    ensures var sent := AttemptHeader(h, bearer); var auth := GetHeader(h, "authorization");
      && GetHeader(sent, "authorization")
           == (if bearer.Some? && !("Payment " <= auth) then "Bearer " + bearer.value else auth)
      && (name != "authorization" ==> GetHeader(sent, name) == GetHeader(h, name))
  {
  }

  /** What the server reads, and in which order of precedence. */
  lemma DetectionOrder(h: Header)
    ensures
      var atxp, mpp := GetHeader(h, "x-atxp-payment"), GetHeader(h, "authorization");
      var x402 := if GetHeader(h, "payment-signature") != "" then GetHeader(h, "payment-signature")
                  else GetHeader(h, "x-payment");
      var d := DetectProtocol(h);
      && (d.Some? ==> d.value.paymentRequestId == GetHeader(h, "x-atxp-payment-request-id"))
      && (atxp != "" <==> d.Some? && d.value.protocol.ProtocolAtxp?)
      && (atxp == "" && x402 != "" <==> d.Some? && d.value.protocol.ProtocolX402?)
      && (atxp == "" && x402 == "" && "Payment " <= mpp <==> d.Some? && d.value.protocol.ProtocolMpp?)
      && (d.Some? ==> match d.value.protocol
                      case ProtocolAtxp => d.value.credential == atxp
                      case ProtocolX402 => d.value.credential == x402
                      case ProtocolMpp => mpp == "Payment " + d.value.credential)
  {
    var mpp := GetHeader(h, "authorization");
    if "Payment " <= mpp {
      assert mpp == mpp[..8] + mpp[8..] && "Payment " == mpp[..8];
    }
  }

  /** No header of the request outranks a payment of this protocol, and none supplies an id of its own. */
  predicate NothingOutranks(h: Header, protocol: Protocol, credential: string, paymentRequestId: string) {
    && (paymentRequestId == "" ==> GetHeader(h, REQUEST_ID) == "")
    && match protocol
       case ProtocolAtxp => credential != ""
       case ProtocolX402 =>
         && GetHeader(h, ATXP_PAYMENT) == ""
         && (if GetHeader(h, X402_SIGNATURE) != "" then GetHeader(h, X402_SIGNATURE) == credential
             else credential != "")
       case ProtocolMpp =>
         GetHeader(h, ATXP_PAYMENT) == "" && GetHeader(h, X402_SIGNATURE) == "" && GetHeader(h, X402_PAYMENT) == ""
  }

  /**
    Round trip: the retry after a payment is read back by the server as the same protocol,
    credential and payment request id exactly when no header already on the request outranks
    the payment, whatever bearer token is stored.
  */
  lemma PaymentHeaderRoundTrip(h: Header, res: AuthorizeResult, paymentRequestId: string, bearer: Option<string>)
    requires KnownProtocol(res.protocol).Some?
    ensures DetectProtocol(AttemptHeader(PaidHeader(h, res, paymentRequestId), bearer))
              == Some(Detection(KnownProtocol(res.protocol).value, res.credential, paymentRequestId))
       <==> NothingOutranks(h, KnownProtocol(res.protocol).value, res.credential, paymentRequestId)
  {
    NamesDistinct();
    if bearer.Some? { BearerIsNotPayment(bearer.value); }
    var sent := AttemptHeader(PaidHeader(h, res, paymentRequestId), bearer);
    assert (PAYMENT_PREFIX + res.credential)[|PAYMENT_PREFIX|..] == res.credential;
  }

  /** In particular on a request that carried no payment header, for any non-empty credential. */
  lemma PaymentHeaderRoundTripOnCleanRequest(h: Header, res: AuthorizeResult, paymentRequestId: string,
                                             bearer: Option<string>)
    requires KnownProtocol(res.protocol).Some? && res.credential != ""
    requires DetectProtocol(h) == None && REQUEST_ID !in h
    ensures DetectProtocol(AttemptHeader(PaidHeader(h, res, paymentRequestId), bearer))
              == Some(Detection(KnownProtocol(res.protocol).value, res.credential, paymentRequestId))
  {
    PaymentHeaderRoundTrip(h, res, paymentRequestId, bearer);
  }

  /**
    An unknown protocol pays nothing: the server then sees the payment the original request
    carried, if any, under the challenge's request id where it had one.
  */
  lemma UnknownProtocolPaysNothing(h: Header, res: AuthorizeResult, paymentRequestId: string, bearer: Option<string>)
    requires KnownProtocol(res.protocol).None?
    ensures DetectProtocol(AttemptHeader(PaidHeader(h, res, paymentRequestId), bearer))
         == match DetectProtocol(h)
            case None => None
            case Some(d) => Some(if paymentRequestId != "" then d.(paymentRequestId := paymentRequestId) else d)
  {
    NamesDistinct();
    if bearer.Some? { BearerIsNotPayment(bearer.value); }
  }
}
