/**
  x402 requirements: how the merchant assembles them (server/omnichallenge.go), how the
  merchant re-selects one from a credential (server/protocol.go), and how the payer picks
  and echoes one (x402signer/account.go).
*/
module X402 {
  import opened Wrappers
  import opened Amounts
  import opened Credentials
  import opened Search

  datatype Source = Source(chain: string, address: string)

  datatype ChargeOption = ChargeOption(network: string, currency: string, address: string, amount: Amount)

  datatype X402Option = X402Option(
    scheme: string,
    network: string,
    amount: string,
    resource: string,
    description: string,
    mimeType: string,
    payTo: string,
    maxTimeoutSeconds: int,
    asset: string,
    extra: Object)

  datatype Requirements = Requirements(version: int, accepts: seq<X402Option>)

  /* ----- selection: the merchant's side -------------------------------------- */

  /** What a credential says it accepted: scheme and network, empty when it does not say. */
  function AcceptedField(payload: Object, field: string): string {
    var acc := Get(payload, "accepted");
    if acc.Obj? then AsString(Get(acc.fields, field)) else ""
  }

  function SelectX402Accept(payload: Object, reqs: Option<Requirements>): (r: Option<X402Option>)
    ensures r.Some? <==> reqs.Some? && reqs.value.accepts != []
    ensures r.Some? ==> r.value in reqs.value.accepts
  {
    if reqs.None? || reqs.value.accepts == [] then None
    else
      var accepts := reqs.value.accepts;
      var network, scheme := AcceptedField(payload, "network"), AcceptedField(payload, "scheme");
      if network != "" then
        var both := FirstWhere(accepts,
          (a: X402Option) => a.network == network && (scheme == "" || a.scheme == scheme));
        if both.Some? then both
        else
          var chain := FirstWhere(accepts, (a: X402Option) => a.network == network);
          if chain.Some? then chain else Some(accepts[0])
      else
        var evm := FirstWhere(accepts, (a: X402Option) => "eip155" <= a.network);
        if evm.Some? then evm else Some(accepts[0])
  }

  /** How well an accept meets a credential: by network and scheme, then by network; by EVM when it names none. */
  function Fit(payload: Object, a: X402Option): nat {
    var network, scheme := AcceptedField(payload, "network"), AcceptedField(payload, "scheme");
    if network == "" then if "eip155" <= a.network then 1 else 0
    else if a.network != network then 0
    else if scheme == "" || a.scheme == scheme then 2
    else 1
  }

  /** What is selected is the first of the accepts that fit the credential best. */
  lemma SelectsFirstBest(payload: Object, reqs: Requirements) returns (i: nat)
    requires reqs.accepts != []
    ensures i < |reqs.accepts| && SelectX402Accept(payload, Some(reqs)) == Some(reqs.accepts[i])
    ensures forall j :: 0 <= j < |reqs.accepts| ==> Fit(payload, reqs.accepts[j]) <= Fit(payload, reqs.accepts[i])
    ensures forall j :: 0 <= j < i ==> Fit(payload, reqs.accepts[j]) < Fit(payload, reqs.accepts[i])
  {
    var network, scheme := AcceptedField(payload, "network"), AcceptedField(payload, "scheme");
    if network == "" {
      i := BestIs(payload, reqs.accepts, (a: X402Option) => "eip155" <= a.network, 1);
    } else {
      var both := (a: X402Option) => a.network == network && (scheme == "" || a.scheme == scheme);
      i := BestIs(payload, reqs.accepts, both, 2);
      if FirstWhere(reqs.accepts, both).None? {
        i := BestIs(payload, reqs.accepts, (a: X402Option) => a.network == network, 1);
      }
    }
  }

  /** The search for the accepts of the best fit there is finds the first of them, else all fit worse. */
  lemma BestIs(payload: Object, accepts: seq<X402Option>, p: X402Option -> bool, fit: nat) returns (i: nat)
    requires accepts != []
    requires forall j :: 0 <= j < |accepts| ==>
      Fit(payload, accepts[j]) <= fit && (p(accepts[j]) <==> Fit(payload, accepts[j]) == fit)
    ensures i < |accepts|
    ensures FirstWhere(accepts, p).Some? ==>
      && FirstWhere(accepts, p) == Some(accepts[i]) && Fit(payload, accepts[i]) == fit
      && forall j :: 0 <= j < i ==> Fit(payload, accepts[j]) < fit
    ensures FirstWhere(accepts, p).None? ==> i == 0 && forall j :: 0 <= j < |accepts| ==> Fit(payload, accepts[j]) < fit
  {
    i := 0;
    var first := FirstWhere(accepts, p);
    if first.Some? {
      var k :| 0 <= k < |accepts| && accepts[k] == first.value && forall j :: 0 <= j < k ==> !p(accepts[j]);
      i := k;
    }
  }

  /** Selection reads nothing of a payload but its `accepted` scheme and network. */
  lemma SelectionReadsOnlyAccepted(p: Object, q: Object, reqs: Option<Requirements>)
    requires AcceptedField(p, "network") == AcceptedField(q, "network")
    requires AcceptedField(p, "scheme") == AcceptedField(q, "scheme")
    ensures SelectX402Accept(p, reqs) == SelectX402Accept(q, reqs)
  {
  }

  /* ----- selection: the payer's side ----------------------------------------- */

  predicate IsPayable(a: X402Option, pinnedNetwork: string) {
    a.scheme == "exact" && "eip155:" <= a.network && (pinnedNetwork == "" || a.network == pinnedNetwork)
  }

  function SelectExactAccept(reqs: Requirements, pinnedNetwork: string): Option<X402Option> {
    FirstWhere(reqs.accepts, (a: X402Option) => IsPayable(a, pinnedNetwork))
  }

  /** The payer picks the first accept of the exact scheme on an eip155 network, the pinned one if there is one. */
  lemma SelectsFirstPayable(reqs: Requirements, pinnedNetwork: string) returns (i: nat)
    ensures forall j :: 0 <= j < (if SelectExactAccept(reqs, pinnedNetwork).Some? then i else |reqs.accepts|) ==>
      && j < |reqs.accepts|
      && !(reqs.accepts[j].scheme == "exact" && "eip155:" <= reqs.accepts[j].network
           && pinnedNetwork in {"", reqs.accepts[j].network})
    ensures SelectExactAccept(reqs, pinnedNetwork).Some? ==>
      && i < |reqs.accepts| && SelectExactAccept(reqs, pinnedNetwork) == Some(reqs.accepts[i])
      && reqs.accepts[i].scheme == "exact" && "eip155:" <= reqs.accepts[i].network
      && pinnedNetwork in {"", reqs.accepts[i].network}
  {
    i := 0;
    var r := SelectExactAccept(reqs, pinnedNetwork);
    if r.Some? {
      var k :| 0 <= k < |reqs.accepts| && reqs.accepts[k] == r.value
        && forall j :: 0 <= j < k ==> !IsPayable(reqs.accepts[j], pinnedNetwork);
      i := k;
    }
  }

  /**
    Whatever requirements are on the wire, the accept the payer picks is the one the merchant
    re-selects from the scheme and network the payer echoes.
  */
  lemma EchoReselects(reqs: Requirements, pinnedNetwork: string, payload: Object)
    requires SelectExactAccept(reqs, pinnedNetwork).Some?
    requires AcceptedField(payload, "scheme") == SelectExactAccept(reqs, pinnedNetwork).value.scheme
    requires AcceptedField(payload, "network") == SelectExactAccept(reqs, pinnedNetwork).value.network
    ensures SelectX402Accept(payload, Some(reqs)) == SelectExactAccept(reqs, pinnedNetwork)
  {
    var network := AcceptedField(payload, "network");
    SameFirst(reqs.accepts,
      (a: X402Option) => IsPayable(a, pinnedNetwork),
      (a: X402Option) => a.network == network && ("exact" == "" || a.scheme == "exact"));
    assert FirstWhere(reqs.accepts, (a: X402Option) => a.network == network && ("exact" == "" || a.scheme == "exact"))
      == SelectExactAccept(reqs, pinnedNetwork);
  }
}
