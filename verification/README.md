# chit: the money path of an ATXP/x402 merchant, verified

A Dafny model of the parts of chit that decide how much money is asked for, authorised, metered
and settled, and of the three concurrent or looping pieces around them, with proofs about every
input, every run and every interleaving.

- **Amounts** (`Digits`, `Amounts`): exact micro-unit values, the decimal parser with its
  rational divisibility test, the canonical printer, the micro-unit codec.
- **Challenges and selection** (`Networks`, `X402`, `X402Challenge`, `MppChallenge`, `Signer`):
  what the merchant advertises, what the payer picks, signs and echoes, what the merchant
  re-selects.
- **Sessions** (`SessionCap`, `PaymentSessions`, `SessionRuns`): cap derivation on three rails,
  the session object with one method per critical section, and every interleaving of charges
  and closes. `CloseSession` drops its lock around the settle call, so one call is up to four
  events of a trace; the trace theorems hold for any number of calls and any settle outcomes.
- **Settlement** (`Settlement`, `SettledAmounts`): the settle request body, and the amount each
  rail settles on every run.
- **The gate** (`RequirePayment`, `GateRuns`): one call, N calls one after another, and any
  interleaving of them with each other and with closes.
- **The whole path** (`EndToEnd`): from a price, through what is signed, echoed and capped, to the
  accept and amount that are settled.
- **Client registration** (`Registration`, `SingleFlight`): the leader/follower protocol of
  `clientCredentials`, with an ownership invariant, freedom from deadlock and termination.
- **Token store** (`TokenStore`): the parent-path walk against "longest saved ancestor".
- **Client transport** (`Transport`, `RoundTrips`): the retry state machine and the payment
  header round trip into the server's `DetectProtocol`.

Network replies, clocks, nonces, signatures, base64 and JSON decoding are inputs: a credential
is its text together with what each decoding of it yields, and a reply is an arbitrary value.
The model uses unbounded integers where the code uses `math/big`.

Where the code and its own prose differ, the model follows the code:

- The comment on `credRegistration` (server/oauthresource.go:89-92) speaks of one registration
  call in flight at a time. That holds of the calls `clientCredentials` makes; `introspectToken`
  registers on its own, once its call's credentials are refused. `TwoInFlight` is a run with two,
  `OneStaysOneIff` and `AtMostOneIffNeverOverlaps` say exactly which events bring it about. Nor is it
  one ever: the entry is deleted before the credentials are saved, so
  `SecondRegistrationCanFollowASuccess` gives a second registration after a successful first, and
  `RegistersAgainIffMissed` says exactly which calls can still make one.
- An ATXP cap is read from whichever decoding of the credential yields an object, the settle body
  from the raw text only. `AtxpBodyUsesCredentialOptions` states when the two agree;
  `WrappedAtxpCredentialLosesOptions` gives a credential for which they do not.
- A close that finds the session settled or settling returns no error, whatever was or will be
  settled (`NilAfterUnderpayment`, `NilWhileSettling`; `NilIsPaidIff` says exactly when a nil stands
  for a covering settlement), and charges are accepted after a settle (`AcceptedChargeNeverSettled`;
  `ChargeSettledIffBeforeSnapshot`, `CanStillSettleIff` and `CanStillBePaidIff` say which charges a
  settle carries and until when). The other theorems speak of the call that ran the settle and of the
  charges before its snapshot.
- Building an ATXP settle request panics on a null among its options, and the session is left
  settling (`PaymentSessions.CloseSession`, `NilEntryHoldsSession`).
- A user name that holds the separator of the store's keys can share a key with another user
  (`TwoUsersOneKey`; exactly when, `KeysEqualIff`).

## Model

| member | source | states |
|---|---|---|
| Text.SpacesAre | server/amount.go:41 | the spaces are the 25 code points of Unicode's White_Space property |
| Text.TrimSpaceExact | server/amount.go:41 | what is kept is the text between its first and last characters that are not spaces, in Go's sense, and only spaces are removed |
| Text.TrimRight | store.go:135 | the prefix left by stripping a trailing character |
| Text.TrimRightUnique | store.go:135 | that prefix is the only one not ending in the character with nothing else removed |
| Digits.ToDigits | server/amount.go:124 | the digit string of a number denotes it and has no spare leading zero |
| Digits.ToDigitsShortest | server/amount.go:124 | it is the shortest digit string of its value, and any other spelling starts with a spare zero |
| Digits.DivisibleIffTrailingZeros | server/amount.go:53-57 | divisibility by a power of ten is exactly trailing zeros, for digit strings of any length |
| Amounts.ParseAmountExact | server/amount.go:40-59 | accepted exactly when the trimmed text is a decimal whose digits after the sixth are zero; the value, and which error otherwise |
| Amounts.ParseInvertsFormat | server/amount.go:126-139 | parsing a printed amount gives the amount back, for every amount |
| Amounts.FormatNormalises | server/amount.go:126-139 | printing a parsed amount gives the normal form, never longer, equal to the input exactly when the input was normal |
| Amounts.SameFormatIffSameAmount | server/amount.go:126-139 | two spellings print alike exactly when they have the same value |
| Amounts.WholeUnits | server/amount.go:13 | a whole number of units is a million times as many micro-units, printed and parsed |
| Amounts.MicroRoundTrip | server/amount.go:73-80 | the micro-unit text of an amount reads back as it |
| Amounts.AmountFromMicroStringExact | server/amount.go:73-80 | accepted exactly when the trimmed text is digits with an optional sign, a minus only before zeros; the value, and the error otherwise |
| Amounts.Max | server/amount.go:101-106 | the larger of the two |
| Amounts.Min | server/amount.go:109-114 | the smaller of the two |
| Credentials.ParseCredentialJson | server/protocol.go:162-184 | a credential decodes exactly when one of its three readings is an object, and to one of those |
| Credentials.SessionCredentialIff | server/protocol.go:190-208 | a session credential is one whose challenge has intent "session" or whose payload has a descriptor |
| X402.SelectsFirstBest | server/protocol.go:214-257 | what is selected is the first of the accepts that fit best: by network and scheme, then network; by EVM when no network is named; else the first |
| X402.SelectionReadsOnlyAccepted | server/protocol.go:220-224 | selection depends on nothing of a payload but its accepted scheme and network |
| X402.SelectsFirstPayable | x402signer/account.go:44-61 | the payer picks the first exact accept on an eip155 network, the pinned one if there is one, and none exactly when there is none |
| X402.EchoReselects | x402signer/account.go:44-61 | on any requirements, the merchant re-selects the accept the payer picked from the echoed scheme and network |
| Networks.NetworkTable | server/constants.go:27-62 | the identifier, USDC contract and fee payer of each supported network, and every other name its own identifier |
| Networks.UsdcByEitherName | server/constants.go:27-36 | every supported network has a USDC contract, the same by name and by identifier |
| Networks.Base58Alphabet | server/omnichallenge.go:18 | the pattern accepts 32 to 44 letters and digits other than the four that look alike |
| Networks.Caip2Distinct | server/constants.go:44-49 | different supported networks have different CAIP-2 names |
| X402Challenge.BuildX402Requirements | server/omnichallenge.go:50-116 | the three loops yield the declarative list: first eligible source per network, EVM first, exact then upto; and each accept's fields say so |
| X402Challenge.EvmAccepts | server/omnichallenge.go:52-78 | the EVM loop contributes, for each eligible source in order, exact and then upto exactly when its network has a facilitator |
| X402Challenge.SvmAccepts | server/omnichallenge.go:79-98 | the Solana loop contributes one exact accept for each eligible source in order |
| X402Challenge.DedupeAccepts | server/omnichallenge.go:104-113 | keeps the first accept of each key |
| X402Challenge.DedupeAfterExpand | server/omnichallenge.go:51-113 | expand-then-dedupe equals dedupe-by-network-then-expand |
| X402Challenge.AdvertisedExactly | server/omnichallenge.go:50-116 | an accept is advertised exactly when the first eligible source of some network yields it |
| X402Challenge.AdvertisedKeysDistinct | server/omnichallenge.go:100-113 | no (scheme, network) key is advertised twice |
| X402Challenge.AdvertisedMeans | server/omnichallenge.go:50-116 | in wire terms: each accept pays the first eligible source of a network its amount in its USDC, each such source has an exact accept, an upto one exactly when its network has a facilitator, whose address it names; Solana ones name the fee payer |
| X402Challenge.AdvertisedOrder | server/omnichallenge.go:37-38 | EVM accepts precede Solana ones, and a network's exact accept its upto one |
| X402Challenge.EligibleMeans | server/omnichallenge.go:53-80 | which networks and addresses can be paid on x402 |
| X402Challenge.AdvertisedAtPrice | server/omnichallenge.go:59 | every advertised amount is the price in micro-units |
| MppChallenge.BuildMppChallenges | server/omnichallenge.go:126-263 | every challenge asks for the amount, recipient and token of the first option on its chain, under the given id, resource and expiry, a session with its channel's own parameters; a charge exactly on the chains with an option, a session exactly where channels are offered too; each once and in order |
| MppChallenge.WireFields | server/protocol.go:43-55 | method, intent, amount and request read off the wire form |
| MppChallenge.WirePlainFields | server/protocol.go:43-55 | id, currency, network and recipient read off it |
| MppChallenge.WireOptionalFields | server/protocol.go:43-55 | expiry, resource and identity read off it, absent exactly when empty |
| SessionCap.WireEchoIsEcho | server/protocol.go:43-55 | echoing a challenge's wire form preserves what cap derivation reads |
| SessionCap.MppEchoCap | server/paymentsession.go:246-266 | echoing any MPP challenge built at a price gives exactly that cap; a close is required exactly for the session intent or a channel descriptor |
| SessionCap.PricedEchoCap | server/paymentsession.go:299-307 | the same from the challenge's own amount, micro-units or decimal by method |
| SessionCap.AtxpEchoCap | server/paymentsession.go:268-287 | echoing the offered options gives exactly the cap they were offered at |
| SessionCap.AtxpCapExact | server/paymentsession.go:268-287 | for any credential: the first readable option's amount, else the top-level one, else no limit; numbers read as their text |
| SessionCap.MppCapExact | server/paymentsession.go:246-266 | for any challenge: the amount in its request, else beside it, in micro-units on solana and decimal otherwise, else no limit |
| SessionCap.MppCapNeedsChallenge | server/paymentsession.go:246-248 | no challenge object, no limit |
| SessionCap.X402CapExact | server/paymentsession.go:233-244 | for any credential and requirements: the amount of the accept that fits best, no limit when none or unreadable |
| Settlement.OverrideOptionsAmount | server/settlement.go:254-271 | the array loop: unchanged on non-objects, the nil-map write on a null entry, else every amount replaced |
| Settlement.OverriddenOptions | server/settlement.go:245-271 | length, order and other fields kept, every amount the spent one, and the ATXP cap read back from the result is the spent amount |
| Settlement.AcceptRoundTrip | server/protocol.go:63-74 | the JSON an accept is settled with reads back as that accept, field by field |
| Settlement.BuildRequestBody | server/settlement.go:158-243 | the body filled field by field is the one Body describes, errors included |
| Settlement.X402BodyMeans | server/settlement.go:163-191 | that body's payload, accept and identifiers on x402 |
| Settlement.ClampedOverride | server/settlement.go:180-186 | an upto accept settles the metered amount but never more than it authorizes; nothing else is overridden |
| Settlement.MppBodyMeans | server/settlement.go:193-211 | its credential and identifiers on MPP, and the error when nothing decodes |
| Settlement.AtxpBodyMeans | server/settlement.go:213-242 | its account, token, destination and payment on ATXP, each from the credential or else the context |
| PaymentSessions.Settle | server/settlement.go:112-130 | a result exactly when a body was sent and answered by a 2xx status with a decodable one, and then that one; a panic exactly on a null option entry |
| PaymentSessions.FinishErrorMeans | server/paymentsession.go:186-226 | nil exactly on a covering answer, else the failure or the shortfall |
| PaymentSessions.PaymentSession.constructor | server/paymentsession.go:133-143 | a new session has the derived cap and close rule, nothing spent or settled |
| PaymentSessions.OpenedMeans | server/paymentsession.go:133-143 | a close is required of an MPP channel and of nothing else; the cap is the derived one; nothing is spent or settled |
| PaymentSessions.PaymentSession.Charge | server/paymentsession.go:102-111 | accepted exactly within the cap or without one; a declined charge changes nothing |
| PaymentSessions.PaymentSession.GetSettleResult | server/paymentsession.go:91-95 | the stored result and whether there is one |
| PaymentSessions.PaymentSession.BeginClose | server/paymentsession.go:162-173 | the guard, the flag and the snapshot of the first critical section |
| PaymentSessions.PaymentSession.AbortClose | server/paymentsession.go:175-181 | a failed settlement lookup only clears the flag |
| PaymentSessions.PaymentSession.FinishClose | server/paymentsession.go:185-226 | the last critical section: what becomes settled and stored, and the error returned |
| PaymentSessions.CloseSession | server/paymentsession.go:157-227 | one uninterrupted close: nil exactly on a 2xx reply that covers the snapshot; settled and stored exactly on a 2xx reply, settled without one only if one-shot; body sent; on a panic in Settle the session stays settling |
| SessionRuns.StepKeeps | server/paymentsession.go:102-227 | every step of every call keeps the session invariant |
| SessionRuns.Invariant | server/paymentsession.go:102-227 | the invariant holds after every run |
| SessionRuns.LedgerConserved | server/paymentsession.go:102-111 | on every run the total is the sum of accepted charges and within the cap; a charge is declined only when it would pass the cap |
| SessionRuns.AtMostOneSettling | server/paymentsession.go:162-189 | settling holds exactly while one close is between its critical sections, never with settled; never two settles in flight |
| SessionRuns.OneShotSettlesOnce | server/paymentsession.go:153-156 | a one-shot session reaches Settle at most once on any run |
| SessionRuns.NoSettleAfterCleanAnswer | server/paymentsession.go:145-147 | after an error-free response no call reaches Settle again, channels included |
| SessionRuns.BeginExcludesBegin | server/paymentsession.go:163-166 | a close begins only when no other is active and the session is not settled |
| SessionRuns.SettlesItsSnapshot | server/paymentsession.go:171-183 | the amount passed to Settle is exactly the sum accepted before that call's snapshot |
| SessionRuns.RetriesDoNotDecrease | server/paymentsession.go:153-156 | successive settles pass amounts that never go down |
| SessionRuns.CleanCloseCovers | server/paymentsession.go:208-226 | if the call that ran Settle returns nil, the settled amount covers its snapshot, the result is stored for good, and only the charges after the snapshot are uncovered |
| SessionRuns.SettledForGood | server/paymentsession.go:163-166 | a settled session stays settled and its result is never rewritten |
| SessionRuns.ResultWrittenOnce | server/paymentsession.go:209-220 | a stored result implies settled and never changes |
| SessionRuns.FinishSettlesUnlessChannelFailed | server/paymentsession.go:190-196 | only a channel whose settle failed is left unsettled |
| SessionRuns.ClosesAfterSettledAreNoOps | server/paymentsession.go:145-147 | later closes of a settled session do nothing |
| SessionRuns.NilIsPaidIff | server/paymentsession.go:163-169 | whichever guard made a close return nil at once, a covering result is stored exactly when some close that ran Settle returned nil; unless the session is settled there is none |
| SessionRuns.LaterNilIsPaidIffFirstWas | server/paymentsession.go:163-166 | once a call has settled the session, the result stored covers what that call settled exactly when it returned nil |
| SessionRuns.NilAfterUnderpayment | server/paymentsession.go:163-166 | a run in which an underpaid close is followed by one that returns nil |
| SessionRuns.NilWhileSettling | server/paymentsession.go:163-166 | a run in which a close returns nil while another is in Settle, with nothing settled or stored |
| SessionRuns.AcceptedChargeNeverSettled | server/paymentsession.go:102-111 | a run in which a charge is accepted after a paid close and no continuation reaches Settle |
| SessionRuns.ChargeSettledIffBeforeSnapshot | server/paymentsession.go:171-173 | an accepted charge is inside the amount a call settles exactly when it came before that call's first critical section |
| SessionRuns.CanStillSettleIff | server/paymentsession.go:157-227 | from any reachable state a call that has yet to reach Settle can still settle all that was accepted exactly while the session is unsettled and no call in Settle is bound to settle it |
| SessionRuns.CanStillBePaidIff | server/paymentsession.go:157-227 | and a close can still return nil for all that was accepted exactly then, or while a call in Settle that has not failed carries it all |
| SessionRuns.UnansweredSettleBlocks | server/paymentsession.go:163-183 | after a call that never comes back from Settle, only charges and closes that return nil at once can follow, and nothing is settled |
| SessionRuns.SessionCanStep | server/paymentsession.go:102-227 | a close in progress always has a next step, whatever it is answered, and no charge or close waits for its turn |
| SessionRuns.ClosesFinish | server/paymentsession.go:157-227 | a close has at most four events, is never stuck, and leaves the session not settling once all have returned |
| SessionRuns.UniformChargesFillTheCap | server/paymentsession.go:102-111 | N charges of one price admit exactly min(N, cap / price), in any interleaving with closes |
| SettledAmounts.SameRequirement | server/settlement.go:164-168 | cap derivation and settlement select the same accept, also for unreadable payloads |
| SettledAmounts.X402SettlesSnapshot | server/settlement.go:163-191 | on every run an upto body overrides with exactly the snapshot, an exact body has no override |
| SettledAmounts.X402Override | server/settlement.go:180-186 | within the derived cap the clamp changes nothing |
| SettledAmounts.MppSettlesSnapshot | server/settlement.go:193-211 | on every run a channel settles exactly the snapshot, a one-shot charge has no override |
| SettledAmounts.AtxpSettlesSnapshot | server/settlement.go:213-271 | on every run and for any options: the body fails exactly on a null among objects, objects each carry the snapshot, and anything else is sent unchanged |
| SettledAmounts.NilEntryHoldsSession | server/settlement.go:266-269 | on a null among ATXP options the call that reaches Settle panics, and only charges and closes that do nothing can follow it |
| SettledAmounts.AtxpBodyUsesCredentialOptions | server/settlement.go:214-225 | cap and body speak of the same options exactly when the context carries those, or carries none and the raw text is the JSON object or the options are empty |
| SettledAmounts.WrappedAtxpCredentialLosesOptions | server/settlement.go:214-225 | a base64-wrapped credential capped by options its body lacks |
| Signer.AuthorizeBuilt | x402signer/account.go:145-236 | on built requirements the payer signs exactly the price, to the first eligible address, in that network's token domain, and its credential carries that transfer, its signature and the accept |
| Signer.PrepareExact | x402signer/account.go:158-194 | the domain and transfer derived from an exact accept |
| Signer.PrepareMeans | x402signer/account.go:158-194 | on any accept what is signed, its validity and which error comes first |
| Signer.ChainIdReadsBack | x402signer/account.go:238-252 | a chain id reads back from its identifier exactly while it fits sixty-four signed bits |
| Signer.PayloadCarries | x402signer/account.go:204-228 | the credential carries the signature, the signed transfer and the whole accept |
| Signer.AuthorizeFailsOn | x402signer/account.go:145-200 | on any requirements, which error comes first |
| Signer.FindsAcceptIff | x402signer/account.go:44-61 | facing built requirements the payer finds an accept exactly when some network it accepts has an eligible source |
| RequirePayment.SourcesToOptions | server/omnichallenge.go:298-312 | one option per source at the amount |
| RequirePayment.SplitAccountIdExact | server/protocol.go:270-279 | an id splits exactly when it is a network, one colon and an address, into those |
| RequirePayment.SignChallenges | server/requirepayment.go:199-202 | every MPP challenge gets the opaque identity of its own id, in place, and nothing else of it changes |
| RequirePayment.BuildOmniError | server/requirepayment.go:172-205 | the challenge for the amount, or the error of a bad server URL |
| RequirePayment.Merchant.DestinationAccountId | server/server.go:237-257 | resolved once, never cached empty |
| RequirePayment.Merchant.RequirePayment | server/requirepayment.go:60-155 | proceeds exactly on an accepted session charge or a settled network charge; charges the session the effective price only; no network charge with a session; otherwise the exact failure or a challenge payable at the destination's own address and the fetched ones on every rail; and what destination is remembered |
| RequirePayment.ReachesGateIff | server/requirepayment.go:60-85 | which calls get as far as charging |
| RequirePayment.RefusalMeans | server/requirepayment.go:122-155 | a call that may not proceed is challenged, or fails on the failed lookup, the failed creation or the bad URL, exactly in that order |
| RequirePayment.ChallengeAsks | server/requirepayment.go:157-205 | a challenge's payment, URL, amount, x402 accepts and MPP challenges, in wire terms, with the identity bound to its id |
| RequirePayment.DestinationCanBePaid | server/requirepayment.go:161-168 | an EVM destination's own address always has its exact accept |
| RequirePayment.FetchedCanBePaid | server/requirepayment.go:161-168 | a fetched EVM address has one when it is the first eligible on its network |
| GateRuns.Serve | server/requirepayment.go:104-109 | a call that reaches the gate on a session proceeds exactly when the session accepts its price |
| GateRuns.ServeAll | server/requirepayment.go:60-155 | N calls one after another on a fresh session: the first cap / price proceed, the others are challenged for the price or told what failed, no network charge, spent is their number times the price |
| GateRuns.AloneMatchesContract | server/requirepayment.go:60-109 | the steps of a call, uninterrupted, do what the contract of RequirePayment says |
| GateRuns.CallsFillTheCap | server/requirepayment.go:60-155 | the same count for N calls in any interleaving with each other and with closes, on every run |
| GateRuns.GateInvariant | server/requirepayment.go:104-109 | on every run of concurrent calls the session goes through a run of its own, with one charge per answered call |
| GateRuns.NoneRefused | server/server.go:238-257 | whichever call resolves and caches the destination, no well-formed call is turned away |
| EndToEnd.X402Agreement | server/paymentsession.go:233-244 | the signed transfer, the re-selected accept and the opened session's cap are all the challenge's price |
| EndToEnd.SignedAccept | x402signer/account.go:145-236 | what is signed and echoed is the exact accept of the source that represents its network, at the price |
| EndToEnd.SettlesWhatWasSigned | server/settlement.go:163-191 | at every settle of the session opened on the signed credential the body names the accept that was signed, field by field: exact, to the source's address, the price, its network and token; with no override |
| EndToEnd.OnePaymentBuysOneCharge | server/paymentsession.go:102-111 | a session capped at the price accepts exactly one charge of it on any run |
| EndToEnd.OnePaymentBuysOneCall | server/requirepayment.go:60-155 | of any number of well-formed calls at the price, interleaved in any way, exactly one proceeds on a session capped at it, and Settle is reached at most once |
| EndToEnd.RailIndependentCap | server/paymentsession.go:133-294 | the session opened on any rail's credential answering a challenge is capped at exactly its price, and requires a close exactly for a channel |
| EndToEnd.ChallengeIsAuthorized | transport.go:72-78 | a client answered with the merchant's challenge authorizes exactly its price, on every rail it offers, before anything else |
| EndToEnd.X402AnyAcceptCap | server/paymentsession.go:233-244 | on x402 even a credential that selects nothing of its own is capped at the price |
| Registration.ResourceClient.Join | server/oauthresource.go:166-177 | follow the issuer's entry if present, else create and lead one |
| Registration.ResourceClient.Write | server/oauthresource.go:180 | the leader's result into its record |
| Registration.ResourceClient.Close | server/oauthresource.go:181 | the record's channel closed, once |
| Registration.ResourceClient.Retire | server/oauthresource.go:183-185 | the issuer's entry removed |
| Registration.ResourceClient.SaveCredentials | store.go:81-85 | the credentials stored |
| SingleFlight.StepKeeps | server/oauthresource.go:157-192 | every atomic step keeps entry ownership and record integrity |
| SingleFlight.Invariant | server/oauthresource.go:157-192 | they hold after every run |
| SingleFlight.OneRegistrationInFlight | server/oauthresource.go:89-103 | at most one registration by clientCredentials in flight per issuer, and a present entry belongs to the one call leading it |
| SingleFlight.OneStaysOneIff | server/oauthresource.go:157-177 | with introspectToken's counted, an event keeps at most one in flight exactly when it does not start one beside another |
| SingleFlight.AtMostOneIffNeverOverlaps | server/oauthresource.go:157-192 | the same over whole runs |
| SingleFlight.AtMostOneWithoutOutside | server/oauthresource.go:89-92 | so it holds of every run in which introspectToken registers nothing for the issuer |
| SingleFlight.TwoInFlight | server/oauthresource.go:255-267 | a run with two registrations for one issuer in flight: an introspection re-registers after its call returned, and a call that had missed the store leads one beside it |
| SingleFlight.DeleteRemovesOwnEntry | server/oauthresource.go:183-185 | the entry a leader deletes is its own |
| SingleFlight.FollowersReturnLeadersResult | server/oauthresource.go:167-174 | a follower returns exactly what its leader returns, read after the close |
| SingleFlight.ClosedRecordsAreFrozen | server/oauthresource.go:180-181 | a closed record is never written again |
| SingleFlight.ReturnsGivenCredentials | server/oauthresource.go:157-192 | what a call returns was stored at the start or answered by a registration, for its own issuer |
| SingleFlight.LeaderHasSaved | server/oauthresource.go:187-191 | a call that led a successful registration has saved when it returns |
| SingleFlight.StoreChangesBySaves | server/oauthresource.go:190 | the store changes only by those saves, and the last one stands |
| SingleFlight.ReRegistersOnce | server/oauthresource.go:255-267 | an introspection registers again only after its own call returned given credentials, and once |
| SingleFlight.SomeCallCanStep | server/oauthresource.go:166-192 | no deadlock: while a call is unfinished some call can step |
| SingleFlight.StepsDescend | server/oauthresource.go:157-192 | every step of a call lowers the measure |
| SingleFlight.RunsFinish | server/oauthresource.go:157-192 | at most eight steps per call; when all finish no entry is left, failures included |
| SingleFlight.NoRegistrationAfterSave | server/oauthresource.go:162-164 | a call that reads the store after a save is served from it |
| SingleFlight.RegistersAgainIffMissed | server/oauthresource.go:157-192 | once credentials are stored, a call not registering can still come to register exactly when it has missed the store and not yet joined |
| SingleFlight.SecondRegistrationCanFollowASuccess | server/oauthresource.go:183-190 | a run in which a second registration follows a success |
| TokenStore.ParseRender | store.go:130-137 | rendering a plain URL parses back to it |
| TokenStore.WalkStep | store.go:140-165 | one turn of the walk strips the last segment and trims, on strings |
| TokenStore.MemoryStore.SaveAccessToken | store.go:94-98 | the token stored under the user and trimmed URL |
| TokenStore.MemoryStore.GetAccessToken | store.go:102-125 | the loop terminates and computes the lookup |
| TokenStore.UpIsNextAncestor | store.go:140-165 | no ancestor lies between a path and the next one tried |
| TokenStore.LookupFindsLongestAncestor | store.go:100-125 | the token at the longest saved ancestor, nothing exactly when none is saved |
| TokenStore.KeysEqualIff | store.go:94-98 | two saves use one key exactly when user and URL agree, or one user name runs past the separator into the other's URL |
| TokenStore.NoSeparatorNoSharing | store.go:94-98 | user names without the separator never share a key |
| TokenStore.SharedKeyAnswersForOther | store.go:94-110 | where two share a key, one user's lookup yields what the other saved last |
| TokenStore.TwoUsersOneKey | store.go:94-110 | two users and URLs that do share one |
| TokenStore.StoreRemembersLast | store.go:94-98 | after any saves a key no other user shares holds that user's latest token |
| TokenStore.LookupAfterSaves | store.go:94-125 | over any history, the latest token at the longest ancestor the user ever saved |
| Transport.PaymentHeaderRoundTrip | transport.go:86-118 | the retry decodes to the same protocol, credential and id exactly when nothing on the request outranks it, whatever bearer is stored |
| Transport.PaymentIsWritten | transport.go:174-184 | each protocol's credential in its own header, and the payment's id in its own |
| Transport.RestIsKept | transport.go:174-184 | no other header is touched |
| Transport.BearerIsSent | transport.go:94-98 | the stored token is sent unless an MPP payment is there, and nothing else changes |
| Transport.DetectionOrder | server/protocol.go:106-127 | which header the server reads, in which order, and the credential it finds there |
| Transport.PaymentHeaderRoundTripOnCleanRequest | server/protocol.go:106-127 | so always on a request without payment headers, for a non-empty credential |
| Transport.UnknownProtocolPaysNothing | transport.go:104-118 | an unknown protocol adds no payment: the server sees the original one, if any, under the challenge's id where it has one |
| RoundTrips.BuildAuthorizeParams | transport.go:123-154 | filling field by field yields the recipient, the amount by precedence and the protocols offered; no amount is an error |
| RoundTrips.DetectsExactly | transport.go:200-254 | a reply asks for payment exactly when it is a 402, or a JSON or event-stream 200 with a -30402 or -32042 error, and the challenge is what the first of them says |
| RoundTrips.ParamsAuthorize | transport.go:123-154 | what is authorized: all the challenge offers, to and for what its first foreign accept or its payment request asks, its own amount first |
| RoundTrips.LegalShape | transport.go:32-84 | every legal run has at most three attempts, one handshake, one authorization, one body, and nothing after the paid attempt |
| RoundTrips.RoundTripper.Attempt | transport.go:88-100 | one request with the bearer unless an MPP payment is set |
| RoundTrips.RoundTripper.Settle | transport.go:104-118 | authorizes once and writes the payment header and id |
| RoundTrips.RoundTripper.Pay | transport.go:72-78 | settles the challenge of the last reply, then makes the last attempt |
| RoundTrips.RoundTripper.Authenticate | transport.go:52-65 | one handshake, then one more attempt |
| RoundTrips.RoundTripper.RoundTrip | transport.go:32-84 | against any world the actions form a legal run that ends where a run may end, on the reply to its last attempt or on the error the world caused; and a reply handed back unpaid does not ask for payment |
| RoundTrips.EndedRunsAgree | transport.go:32-84 | one world allows only one ended run of a request, with one result, so RoundTrip does and returns the only thing it could |
| RoundTrips.AuthorizedIsAsked | transport.go:66-78 | every authorization follows a reply that asks for payment and is for what that reply says |
| RoundTrips.AskedIsAuthorized | transport.go:66-78 | a first reply that asks for payment with an amount is authorized in every run that has ended |
| RoundTrips.HandshakeIsForRefused | transport.go:52-60 | a handshake follows a 401 and is for the resource it names, else the request's own |
| RoundTrips.PaidAttemptIsDetected | transport.go:72-78 | the attempt after an authorization is detected by the server as that payment |

## Left out

- HTTP sending, URL joining, discovery and its cache, time limits and logging: each network call
  is an arbitrary outcome, and a registration call starts with its issuer known.
- base64, JSON, hex, SHA-256, HMAC, secp256k1 and EIP-712 hashing: credentials start decoded and
  a signature is an opaque function's value; decoding a requirements object is the identity on
  the fields the payer reads.
- Header bytes on the wire: net/http trims blanks around a header value and identifies names up
  to case; header names are modelled in lower case.
- server/opaqueidentity.go, server/token.go, hybrid.go, client.go, account.go, oauth.go and
  server/supported.go: facilitator addresses, channel support and the opaque signature are
  inputs; the rest would add only easy members.
- Splitting an event stream into lines, response size limits and trimming of the request URL in
  the transport: a reply carries its decoded messages and a request its trimmed resource.
- The bodies posted to /charge and /payment-request: the gate models what they answer.
- A panic is a call with no further event: the trace theorems allow any answer to a call in Settle,
  so the progress theorems speak of calls that are answered.
- TokenStore.Parse: URLs with percent, query or fragment characters, user information, upper-case
  schemes or bracketed hosts are not plain, and the store's members are stated for plain ones,
  on which parsing, decoding and rendering are the identity.
- TokenStore.MemoryStore.SaveAccessToken: stated for plain URLs, as above.
- TokenStore.MemoryStore.GetAccessToken: stated for plain URLs, as above.
- TokenStore.LookupFindsLongestAncestor: stated for plain URLs, as above.
- TokenStore.StoreRemembersLast: stated for plain URLs, and for a key no other user's save shares
  (`KeysEqualIff` says exactly when two do; `NoSeparatorNoSharing`, that none do while no user name
  holds "|").
- TokenStore.LookupAfterSaves: stated for plain URLs and unshared keys, as above.
- Numbers in credentials are carried as their shortest decimal text, which is what the code
  renders them to before reading them as amounts.
- PaymentSessions.CloseSession: states one close without interruption; its interleavings with
  other calls are the subject of SessionRuns, whose events take the same state functions.
- SingleFlight: that the registration endpoint eventually answers is assumed, as a step that is
  always enabled.
