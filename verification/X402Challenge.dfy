/**
  Assembling the x402 part of a challenge (server/omnichallenge.go): expand every source
  into its accepts, then drop repeated (scheme, network) keys.
*/
module X402Challenge {
  import opened Wrappers
  import opened Amounts
  import opened Credentials
  import opened Networks
  import opened Search
  import opened X402

  datatype Family = Evm | Svm

  datatype Terms = Terms(resource: string, payeeName: string, facilitators: map<string, string>)

  predicate Eligible(fam: Family, o: ChargeOption) {
    match fam
    case Evm => IsEvm(o.network) && "0x" <= o.address
    case Svm => IsSvm(o.network) && IsBase58Address(o.address)
  }

  function BaseAccept(o: ChargeOption, terms: Terms, scheme: string, asset: string, extra: Object): X402Option {
    X402Option(scheme, Caip2(o.network), MicroString(o.amount), terms.resource, terms.payeeName,
               "application/json", o.address, 300, asset, extra)
  }

  function Facilitator(network: string, terms: Terms): string {
    if Caip2(network) in terms.facilitators then terms.facilitators[Caip2(network)] else ""
  }

  function ExactAccept(o: ChargeOption, terms: Terms): X402Option {
    BaseAccept(o, terms, "exact", UsdcAsset(o.network, "base"),
               map["name" := Str("USD Coin"), "version" := Str("2")])
  }

  function UptoAccept(o: ChargeOption, terms: Terms): X402Option {
    BaseAccept(o, terms, "upto", UsdcAsset(o.network, "base"),
               map["name" := Str("USD Coin"), "version" := Str("2"),
                   "facilitatorAddress" := Str(Facilitator(o.network, terms))])
  }

  function SvmAccept(o: ChargeOption, terms: Terms): X402Option {
    BaseAccept(o, terms, "exact", UsdcAsset(o.network, "solana"),
               map["feePayer" := Str(FeePayer(o.network))])
  }

  /** What one eligible source advertises: exact, then upto when a facilitator is known. */
  function Accepts(fam: Family, o: ChargeOption, terms: Terms): seq<X402Option> {
    match fam
    case Evm =>
      [ExactAccept(o, terms)] + (if Facilitator(o.network, terms) != "" then [UptoAccept(o, terms)] else [])
    case Svm => [SvmAccept(o, terms)]
  }

  function Contribution(fam: Family, o: ChargeOption, terms: Terms): seq<X402Option> {
    if Eligible(fam, o) then Accepts(fam, o, terms) else []
  }

  /** Every eligible source expanded, in order. */
  function Expand(fam: Family, options: seq<ChargeOption>, terms: Terms): seq<X402Option> {
    FlatMap(options, (o: ChargeOption) => Contribution(fam, o, terms))
  }

  /** The first eligible source of each network not yet in `seen`, in order. */
  function FirstPerNetwork(fam: Family, options: seq<ChargeOption>, seen: set<string>): seq<ChargeOption> {
    if options == [] then []
    else if Eligible(fam, options[0]) && options[0].network !in seen then
      [options[0]] + FirstPerNetwork(fam, options[1..], seen + {options[0].network})
    else FirstPerNetwork(fam, options[1..], seen)
  }

  function Key(a: X402Option): string {
    a.scheme + ":" + a.network
  }

  function Keys(accepts: seq<X402Option>): set<string> {
    set a | a in accepts :: Key(a)
  }

  /** The accepts whose key is not in `seen`, first of each key, in order. */
  function Dedupe(accepts: seq<X402Option>, seen: set<string>): seq<X402Option> {
    if accepts == [] then []
    else if Key(accepts[0]) in seen then Dedupe(accepts[1..], seen)
    else [accepts[0]] + Dedupe(accepts[1..], seen + {Key(accepts[0])})
  }

  /** What is advertised: one source per network, EVM networks before Solana ones. */
  function Advertised(options: seq<ChargeOption>, terms: Terms): seq<X402Option> {
    Expand(Evm, FirstPerNetwork(Evm, options, {}), terms) + Expand(Svm, FirstPerNetwork(Svm, options, {}), terms)
  }

  method BuildX402Requirements(options: seq<ChargeOption>, terms: Terms) returns (r: Requirements)
    ensures r == Requirements(2, Advertised(options, terms))
    ensures IsAdvertisement(r.accepts, options, terms)
  {
    AdvertisedMeans(options, terms);
    var evm := EvmAccepts(options, terms);
    var svm := SvmAccepts(options, terms);
    var deduped := DedupeAccepts(evm + svm);
    DedupeAfterExpand(options, terms);
    r := Requirements(2, deduped);
  }

  /** The first loop: both schemes of every eligible EVM option. */
  method EvmAccepts(options: seq<ChargeOption>, terms: Terms) returns (accepts: seq<X402Option>)
    ensures accepts == Expand(Evm, options, terms)
  {
    accepts := [];
    for i := 0 to |options|
      invariant accepts == Expand(Evm, options[..i], terms)
    {
      var o := options[i];
      FlatMapStep(options, i, (o: ChargeOption) => Contribution(Evm, o, terms));
      if !IsEvm(o.network) || !("0x" <= o.address) { continue; }
      var exact := ExactAccept(o, terms);
      if Facilitator(o.network, terms) == "" {
        accepts := accepts + [exact];
      } else {
        accepts := accepts + [exact, UptoAccept(o, terms)];
      }
    }
    assert options[..|options|] == options;
  }

  /** The second loop: every eligible Solana option. */
  method SvmAccepts(options: seq<ChargeOption>, terms: Terms) returns (accepts: seq<X402Option>)
    ensures accepts == Expand(Svm, options, terms)
  {
    accepts := [];
    for i := 0 to |options|
      invariant accepts == Expand(Svm, options[..i], terms)
    {
      FlatMapStep(options, i, (o: ChargeOption) => Contribution(Svm, o, terms));
      if IsSvm(options[i].network) && IsBase58Address(options[i].address) {
        accepts := accepts + [SvmAccept(options[i], terms)];
      }
    }
    assert options[..|options|] == options;
  }

  /** The last loop of BuildX402Requirements: keep the first accept per key. */
  method DedupeAccepts(accepts: seq<X402Option>) returns (deduped: seq<X402Option>)
    ensures deduped == Dedupe(accepts, {})
  {
    var seen: set<string> := {};
    deduped := [];
    for i := 0 to |accepts|
      invariant deduped + Dedupe(accepts[i..], seen) == Dedupe(accepts, {})
    {
      var key := Key(accepts[i]);
      assert accepts[i..][1..] == accepts[i + 1..];
      if key in seen { continue; }
      seen := seen + {key};
      deduped := deduped + [accepts[i]];
    }
  }

  /* ----- expand-then-dedupe is dedupe-by-network-then-expand ------------------ */

  /** The keys a network contributes: they do not depend on which of its sources is used. */
  function NetworkKeys(fam: Family, network: string, terms: Terms): set<string> {
    {"exact:" + Caip2(network)}
    + (if fam.Evm? && Facilitator(network, terms) != "" then {"upto:" + Caip2(network)} else {})
  }

  predicate InFamily(fam: Family, network: string) {
    match fam
    case Evm => IsEvm(network)
    case Svm => IsSvm(network)
  }

  /** `keys` are the keys of the networks in `nets`, as far as `fam` is concerned. */
  ghost predicate Covers(fam: Family, nets: set<string>, keys: set<string>, terms: Terms) {
    forall n | InFamily(fam, n) ::
      if n in nets then NetworkKeys(fam, n, terms) <= keys else NetworkKeys(fam, n, terms) !! keys
  }

  lemma SchemeKeys(n: string)
    ensures "exact" + ":" + n == "exact:" + n && "upto" + ":" + n == "upto:" + n
    ensures "exact:" + n != "upto:" + n
  {
    assert ("exact:" + n)[0] == 'e' && ("upto:" + n)[0] == 'u';
  }

  lemma KeysOfOne(a: X402Option)
    ensures Keys([a]) == {Key(a)}
  {
    assert a in [a];
  }

  lemma KeysOfTwo(a: X402Option, b: X402Option)
    ensures Keys([a, b]) == {Key(a), Key(b)}
  {
    assert a in [a, b] && b in [a, b];
  }

  lemma AcceptKeys(fam: Family, o: ChargeOption, terms: Terms)
    requires Eligible(fam, o)
    ensures Keys(Accepts(fam, o, terms)) == NetworkKeys(fam, o.network, terms)
    ensures |Accepts(fam, o, terms)| == 2 ==> Key(Accepts(fam, o, terms)[0]) != Key(Accepts(fam, o, terms)[1])
  {
    SchemeKeys(Caip2(o.network));
    var accepts := Accepts(fam, o, terms);
    if |accepts| == 2 {
      assert accepts == [ExactAccept(o, terms), UptoAccept(o, terms)];
      KeysOfTwo(accepts[0], accepts[1]);
    } else {
      assert accepts == [accepts[0]];
      KeysOfOne(accepts[0]);
    }
  }

  lemma NetworkKeysDisjoint(f: Family, m: string, g: Family, n: string, terms: Terms)
    requires InFamily(f, m) && InFamily(g, n) && m != n
    ensures NetworkKeys(f, m, terms) !! NetworkKeys(g, n, terms)
  {
    Caip2Distinct(m, n);
    var a, b := Caip2(m), Caip2(n);
    assert ("exact:" + a)[6..] == a && ("exact:" + b)[6..] == b;
    assert ("upto:" + a)[5..] == a && ("upto:" + b)[5..] == b;
    assert ("exact:" + a)[0] == ("exact:" + b)[0] == 'e' && ("upto:" + a)[0] == ("upto:" + b)[0] == 'u';
  }

  lemma {:induction false} DedupeConcat(a: seq<X402Option>, b: seq<X402Option>, seen: set<string>)
    ensures Dedupe(a + b, seen) == Dedupe(a, seen) + Dedupe(b, seen + Keys(a))
  {
    if a == [] {
      assert a + b == b && seen + Keys(a) == seen;
    } else {
      assert (a + b)[1..] == a[1..] + b;
      assert Keys(a) == {Key(a[0])} + Keys(a[1..]) by {
        assert forall x | x in a :: x == a[0] || x in a[1..];
      }
      if Key(a[0]) in seen {
        DedupeConcat(a[1..], b, seen);
        assert seen + Keys(a) == seen + Keys(a[1..]);
      } else {
        DedupeConcat(a[1..], b, seen + {Key(a[0])});
        assert seen + Keys(a) == seen + {Key(a[0])} + Keys(a[1..]);
      }
    }
  }

  /** A source contributes all of its accepts, or none when its network came before. */
  lemma DedupeOne(fam: Family, o: ChargeOption, terms: Terms, seen: set<string>)
    requires Eligible(fam, o)
    ensures NetworkKeys(fam, o.network, terms) <= seen ==> Dedupe(Accepts(fam, o, terms), seen) == []
    ensures NetworkKeys(fam, o.network, terms) !! seen ==>
      Dedupe(Accepts(fam, o, terms), seen) == Accepts(fam, o, terms)
  {
    AcceptKeys(fam, o, terms);
    var accepts := Accepts(fam, o, terms);
    if |accepts| == 2 {
      assert accepts == [accepts[0], accepts[1]];
      DedupePair(accepts[0], accepts[1], seen);
    } else {
      assert accepts == [accepts[0]];
      DedupeSingle(accepts[0], seen);
    }
  }

  lemma DedupeSingle(a: X402Option, seen: set<string>)
    ensures Dedupe([a], seen) == if Key(a) in seen then [] else [a]
    ensures Key(a) in Keys([a])
  {
    assert a in [a];
  }

  lemma DedupePair(a: X402Option, b: X402Option, seen: set<string>)
    requires Key(a) != Key(b)
    ensures Dedupe([a, b], seen) == (if Key(a) in seen then [] else [a]) + (if Key(b) in seen then [] else [b])
    ensures Key(a) in Keys([a, b]) && Key(b) in Keys([a, b])
  {
    DedupeSingle(b, seen);
    DedupeSingle(b, seen + {Key(a)});
    assert [a, b][1..] == [b];
    assert a in [a, b] && b in [a, b];
  }

  lemma {:induction false} DedupeFamily(fam: Family, options: seq<ChargeOption>, terms: Terms, nets: set<string>,
                                        seen: set<string>)
    requires Covers(fam, nets, seen, terms)
    ensures Dedupe(Expand(fam, options, terms), seen) == Expand(fam, FirstPerNetwork(fam, options, nets), terms)
  {
    if options != [] {
      var o, rest := options[0], options[1..];
      if Eligible(fam, o) {
        assert options == [o] + rest;
        DedupeHead(fam, o, rest, terms, nets, seen);
        KeptHead(fam, o, rest, terms, nets);
        CoversNext(fam, o.network, terms, nets, seen);
        DedupeFamily(fam, rest, terms, nets + {o.network}, seen + NetworkKeys(fam, o.network, terms));
      } else {
        assert Expand(fam, options, terms) == Expand(fam, rest, terms);
        DedupeFamily(fam, rest, terms, nets, seen);
      }
    }
  }

  /** The same step on the declarative side. */
  lemma KeptHead(fam: Family, o: ChargeOption, rest: seq<ChargeOption>, terms: Terms, nets: set<string>)
    requires Eligible(fam, o)
    ensures Expand(fam, FirstPerNetwork(fam, [o] + rest, nets), terms)
         == (if o.network in nets then [] else Accepts(fam, o, terms))
            + Expand(fam, FirstPerNetwork(fam, rest, nets + {o.network}), terms)
  {
    assert ([o] + rest)[1..] == rest;
    var next := FirstPerNetwork(fam, rest, nets + {o.network});
    if o.network in nets {
      assert nets + {o.network} == nets;
    } else {
      assert FirstPerNetwork(fam, [o] + rest, nets) == [o] + next;
      assert ([o] + next)[1..] == next;
    }
  }

  /** What one eligible source adds after deduplication, given the networks and keys before it. */
  lemma DedupeHead(fam: Family, o: ChargeOption, rest: seq<ChargeOption>, terms: Terms, nets: set<string>,
                   seen: set<string>)
    requires Covers(fam, nets, seen, terms) && Eligible(fam, o)
    ensures Dedupe(Expand(fam, [o] + rest, terms), seen)
         == (if o.network in nets then [] else Accepts(fam, o, terms))
            + Dedupe(Expand(fam, rest, terms), seen + NetworkKeys(fam, o.network, terms))
  {
    assert ([o] + rest)[1..] == rest;
    AcceptKeys(fam, o, terms);
    DedupeOne(fam, o, terms, seen);
    DedupeConcat(Accepts(fam, o, terms), Expand(fam, rest, terms), seen);
    assert InFamily(fam, o.network);
  }

  lemma CoversNext(fam: Family, network: string, terms: Terms, nets: set<string>, seen: set<string>)
    requires Covers(fam, nets, seen, terms) && InFamily(fam, network)
    ensures Covers(fam, nets + {network}, seen + NetworkKeys(fam, network, terms), terms)
  {
    forall n | InFamily(fam, n) && n != network
      ensures NetworkKeys(fam, n, terms) !! NetworkKeys(fam, network, terms)
    {
      NetworkKeysDisjoint(fam, n, fam, network, terms);
    }
  }

  /** The keys of a family's expansion all belong to networks of that family. */
  lemma {:induction false} ExpandKeys(fam: Family, options: seq<ChargeOption>, terms: Terms)
    ensures forall k | k in Keys(Expand(fam, options, terms)) ::
      exists n :: InFamily(fam, n) && k in NetworkKeys(fam, n, terms)
  {
    if options != [] {
      ExpandKeys(fam, options[1..], terms);
      if Eligible(fam, options[0]) { AcceptKeys(fam, options[0], terms); }
      var head := if Eligible(fam, options[0]) then Accepts(fam, options[0], terms) else [];
      var tail := Expand(fam, options[1..], terms);
      forall k | k in Keys(head + tail) ensures exists n :: InFamily(fam, n) && k in NetworkKeys(fam, n, terms) {
        assert k in Keys(head) || k in Keys(tail);
        assert k in Keys(head) ==> k in NetworkKeys(fam, options[0].network, terms);
      }
    }
  }

  lemma DedupeAfterExpand(options: seq<ChargeOption>, terms: Terms)
    ensures Dedupe(Expand(Evm, options, terms) + Expand(Svm, options, terms), {}) == Advertised(options, terms)
  {
    var evm, svm := Expand(Evm, options, terms), Expand(Svm, options, terms);
    DedupeConcat(evm, svm, {});
    DedupeFamily(Evm, options, terms, {}, {});
    ExpandKeys(Evm, options, terms);
    forall n | InFamily(Svm, n) ensures NetworkKeys(Svm, n, terms) !! {} + Keys(evm) {
      forall m | InFamily(Evm, m) ensures NetworkKeys(Svm, n, terms) !! NetworkKeys(Evm, m, terms) {
        NetworkKeysDisjoint(Svm, n, Evm, m, terms);
      }
    }
    DedupeFamily(Svm, options, terms, {}, {} + Keys(evm));
  }

  /* ----- what the advertised list contains ------------------------------------ */

  /** options[i] is the source its network is represented by. */
  ghost predicate Represents(fam: Family, options: seq<ChargeOption>, i: int) {
    && 0 <= i < |options| && Eligible(fam, options[i])
    && forall j :: 0 <= j < i && options[j].network == options[i].network ==> !Eligible(fam, options[j])
  }

  /** Some source equal to o represents its network. */
  ghost predicate Represented(fam: Family, options: seq<ChargeOption>, o: ChargeOption) {
    exists i :: Represents(fam, options, i) && options[i] == o
  }

  lemma RepresentedCons(fam: Family, h: ChargeOption, rest: seq<ChargeOption>, o: ChargeOption)
    ensures Represented(fam, [h] + rest, o)
       <==> (Eligible(fam, h) && o == h)
            || (Represented(fam, rest, o) && (o.network == h.network ==> !Eligible(fam, h)))
  {
    if Represented(fam, [h] + rest, o) {
      RepresentedDown(fam, h, rest, o);
    } else if (Eligible(fam, h) && o == h)
      || (Represented(fam, rest, o) && (o.network == h.network ==> !Eligible(fam, h))) {
      RepresentedUp(fam, h, rest, o);
    }
  }

  lemma RepresentedUp(fam: Family, h: ChargeOption, rest: seq<ChargeOption>, o: ChargeOption)
    requires (Eligible(fam, h) && o == h)
      || (Represented(fam, rest, o) && (o.network == h.network ==> !Eligible(fam, h)))
    ensures Represented(fam, [h] + rest, o)
  {
    var options := [h] + rest;
    if Eligible(fam, h) && o == h {
      assert Represents(fam, options, 0);
    } else {
      var i :| Represents(fam, rest, i) && rest[i] == o;
      assert options[i + 1] == o && forall j :: 0 < j < i + 1 ==> options[j] == rest[j - 1];
      assert Represents(fam, options, i + 1);
    }
  }

  lemma RepresentedDown(fam: Family, h: ChargeOption, rest: seq<ChargeOption>, o: ChargeOption)
    requires Represented(fam, [h] + rest, o)
    ensures (Eligible(fam, h) && o == h)
      || (Represented(fam, rest, o) && (o.network == h.network ==> !Eligible(fam, h)))
  {
    var options := [h] + rest;
    var i :| Represents(fam, options, i) && options[i] == o;
    if i > 0 {
      assert options[0] == h;
      assert rest[i - 1] == o && forall j :: 0 <= j < i - 1 ==> rest[j] == options[j + 1];
      assert Represents(fam, rest, i - 1);
    }
  }

  lemma {:induction false} FirstPerNetworkExactly(fam: Family, options: seq<ChargeOption>, seen: set<string>,
                                                  o: ChargeOption)
    ensures o in FirstPerNetwork(fam, options, seen) <==> o.network !in seen && Represented(fam, options, o)
  {
    if options != [] {
      var h, rest := options[0], options[1..];
      var head := Eligible(fam, h) && h.network !in seen;
      FirstPerNetworkExactly(fam, rest, if head then seen + {h.network} else seen, o);
      RepresentedCons(fam, h, rest, o);
      assert options == [h] + rest;
    }
  }

  lemma ExpandExactly(fam: Family, options: seq<ChargeOption>, terms: Terms, a: X402Option)
    requires forall o | o in options :: Eligible(fam, o)
    ensures a in Expand(fam, options, terms) <==> exists o :: o in options && a in Accepts(fam, o, terms)
  {
    FlatMapContains(options, (o: ChargeOption) => Contribution(fam, o, terms), a);
  }

  lemma FamilyExactly(fam: Family, options: seq<ChargeOption>, terms: Terms, a: X402Option)
    ensures a in Expand(fam, FirstPerNetwork(fam, options, {}), terms)
       <==> exists i :: Represents(fam, options, i) && a in Accepts(fam, options[i], terms)
  {
    var kept := FirstPerNetwork(fam, options, {});
    forall o ensures o in kept <==> Represented(fam, options, o) {
      FirstPerNetworkExactly(fam, options, {}, o);
    }
    ExpandExactly(fam, kept, terms, a);
  }

  /**
    An accept is advertised exactly when the first eligible source of some network yields it:
    later sources of the network contribute nothing, and no network with one is left out.
  */
  lemma AdvertisedExactly(options: seq<ChargeOption>, terms: Terms, a: X402Option)
    ensures a in Advertised(options, terms)
       <==> exists fam, i :: Represents(fam, options, i) && a in Accepts(fam, options[i], terms)
  {
    FamilyExactly(Evm, options, terms, a);
    FamilyExactly(Svm, options, terms, a);
  }

  /* ----- what an accept says ------------------------------------------------------ */

  /** Which options can be paid on x402, by name and address. */
  lemma EligibleMeans(fam: Family, o: ChargeOption)
    ensures Eligible(fam, o) <==>
      match fam
      case Evm => o.network in {"base", "base_sepolia"} && |o.address| >= 2 && o.address[..2] == "0x"
      case Svm => o.network in {"solana", "solana_devnet"} && IsBase58Address(o.address)
  {
  }

  /** The accept pays option o what it asks, in its network's USDC. */
  predicate PaysOption(a: X402Option, o: ChargeOption, terms: Terms) {
    && a.network == Caip2(o.network) && a.payTo == o.address && a.amount == MicroString(o.amount)
    && Some(a.asset) == LookupUsdc(o.network)
    && a.resource == terms.resource && a.description == terms.payeeName
    && a.mimeType == "application/json" && a.maxTimeoutSeconds == 300
  }

  /** What an EVM accept adds: the token's signing domain, and for upto the facilitator that may settle. */
  predicate EvmExtra(a: X402Option, terms: Terms) {
    && Get(a.extra, "name") == Str("USD Coin") && Get(a.extra, "version") == Str("2")
    && (a.scheme == "exact" || a.scheme == "upto")
    && (a.scheme == "exact" ==> a.extra.Keys == {"name", "version"})
    && (a.scheme == "upto" ==>
          && a.network in terms.facilitators && terms.facilitators[a.network] != ""
          && Get(a.extra, "facilitatorAddress") == Str(terms.facilitators[a.network]))
  }

  predicate SvmExtra(a: X402Option, o: ChargeOption) {
    a.scheme == "exact" && a.extra == map["feePayer" := Str(FeePayer(o.network))]
  }

  ghost predicate Describes(fam: Family, a: X402Option, o: ChargeOption, terms: Terms) {
    PaysOption(a, o, terms) && if fam.Evm? then EvmExtra(a, terms) else SvmExtra(a, o)
  }

  lemma EvmAcceptDescribes(o: ChargeOption, terms: Terms)
    requires Eligible(Evm, o)
    ensures Describes(Evm, ExactAccept(o, terms), o, terms) && ExactAccept(o, terms).scheme == "exact"
    ensures Facilitator(o.network, terms) != "" ==>
      Describes(Evm, UptoAccept(o, terms), o, terms) && UptoAccept(o, terms).scheme == "upto"
  {
    UsdcByEitherName(o.network);
    assert |"name"| == 4 && |"version"| == 7 && |"facilitatorAddress"| == 18 && "exact"[0] != "upto"[0];
  }

  lemma SvmAcceptDescribes(o: ChargeOption, terms: Terms)
    requires Eligible(Svm, o)
    ensures Describes(Svm, SvmAccept(o, terms), o, terms)
  {
    UsdcByEitherName(o.network);
  }

  /**
    What is advertised, in the wire's own terms. Every accept pays the first eligible source of a
    network; every such source has an exact accept; and an EVM one has an upto accept exactly when
    its network has a facilitator. EVM comes before Solana and exact before upto, each once.
  */
  ghost predicate IsAdvertisement(accepts: seq<X402Option>, options: seq<ChargeOption>, terms: Terms) {
    && (forall a :: a in accepts ==> IsOfFirstSource(a, options, terms))
    && (forall fam, i :: Represents(fam, options, i) ==> HasAccept(accepts, fam, "exact", options[i], terms))
    && (forall i :: Represents(Evm, options, i) ==>
          (HasFacilitator(options[i], terms) <==> HasAccept(accepts, Evm, "upto", options[i], terms)))
    && ExactFirst(accepts) && EvmFirst(accepts)
    && (forall i, j :: 0 <= i < j < |accepts| ==>
          accepts[i].scheme != accepts[j].scheme || accepts[i].network != accepts[j].network)
  }

  lemma AdvertisedMeans(options: seq<ChargeOption>, terms: Terms)
    ensures IsAdvertisement(Advertised(options, terms), options, terms)
  {
    var accepts := Advertised(options, terms);
    forall a | a in accepts ensures IsOfFirstSource(a, options, terms) {
      OfFirstSource(options, terms, a);
    }
    forall fam, i | Represents(fam, options, i) ensures HasAccept(accepts, fam, "exact", options[i], terms) {
      FirstSourceExact(fam, options, i, terms);
    }
    forall i | Represents(Evm, options, i)
      ensures HasFacilitator(options[i], terms) <==> HasAccept(accepts, Evm, "upto", options[i], terms)
    {
      FirstSourceUpto(options, i, terms);
    }
    AdvertisedOrder(options, terms);
    NoPairTwice(options, terms);
  }

  lemma NoPairTwice(options: seq<ChargeOption>, terms: Terms)
    ensures var accepts := Advertised(options, terms);
      forall i, j :: 0 <= i < j < |accepts| ==>
        accepts[i].scheme != accepts[j].scheme || accepts[i].network != accepts[j].network
  {
    AdvertisedKeysDistinct(options, terms);
    var accepts := Advertised(options, terms);
    forall i, j | 0 <= i < j < |accepts|
      ensures accepts[i].scheme != accepts[j].scheme || accepts[i].network != accepts[j].network
    {
      assert Key(accepts[i]) != Key(accepts[j]);
    }
  }

  ghost predicate IsOfFirstSource(a: X402Option, options: seq<ChargeOption>, terms: Terms) {
    exists fam, i :: Represents(fam, options, i) && Describes(fam, a, options[i], terms)
  }

  /** One of the accepts is of this scheme, and pays option o. */
  ghost predicate HasAccept(accepts: seq<X402Option>, fam: Family, scheme: string, o: ChargeOption, terms: Terms) {
    exists a :: a in accepts && a.scheme == scheme && Describes(fam, a, o, terms)
  }

  lemma OfFirstSource(options: seq<ChargeOption>, terms: Terms, a: X402Option)
    requires a in Advertised(options, terms)
    ensures IsOfFirstSource(a, options, terms)
  {
    AdvertisedExactly(options, terms, a);
    var fam, i :| Represents(fam, options, i) && a in Accepts(fam, options[i], terms);
    AcceptDescribes(fam, options[i], terms, a);
  }

  lemma FirstSourceExact(fam: Family, options: seq<ChargeOption>, i: int, terms: Terms)
    requires Represents(fam, options, i)
    ensures HasAccept(Advertised(options, terms), fam, "exact", options[i], terms)
  {
    var a := if fam.Evm? then ExactAccept(options[i], terms) else SvmAccept(options[i], terms);
    AdvertisedExactly(options, terms, a);
    if fam.Evm? { EvmAcceptDescribes(options[i], terms); } else { SvmAcceptDescribes(options[i], terms); }
  }

  lemma FirstSourceUpto(options: seq<ChargeOption>, i: int, terms: Terms)
    requires Represents(Evm, options, i)
    ensures HasFacilitator(options[i], terms) <==> HasAccept(Advertised(options, terms), Evm, "upto", options[i], terms)
  {
    assert "upto"[0] != "exact"[0];
    if HasFacilitator(options[i], terms) {
      var a := UptoAccept(options[i], terms);
      EvmAcceptDescribes(options[i], terms);
      AdvertisedExactly(options, terms, a);
      assert a in Accepts(Evm, options[i], terms);
    }
  }

  /** A network's exact accept is listed before its upto one. */
  predicate ExactFirst(accepts: seq<X402Option>) {
    forall i, j :: 0 <= i < j < |accepts| && accepts[i].network == accepts[j].network ==>
      accepts[i].scheme == "exact" || accepts[j].scheme == "upto"
  }

  predicate EvmFirst(accepts: seq<X402Option>) {
    forall i, j :: 0 <= i < j < |accepts| && IsEvmAccept(accepts[j]) ==> IsEvmAccept(accepts[i])
  }

  predicate IsEvmAccept(a: X402Option) {
    "eip155:" <= a.network
  }

  /** Every EVM accept precedes every Solana one, and a network's exact accept its upto one. */
  lemma AdvertisedOrder(options: seq<ChargeOption>, terms: Terms)
    ensures ExactFirst(Advertised(options, terms)) && EvmFirst(Advertised(options, terms))
  {
    var evm := Expand(Evm, FirstPerNetwork(Evm, options, {}), terms);
    var svm := Expand(Svm, FirstPerNetwork(Svm, options, {}), terms);
    FamilyOrder(Evm, options, {}, terms);
    FamilyOrder(Svm, options, {}, terms);
    assert forall a :: a in evm ==> IsEvmAccept(a);
    assert forall a :: a in svm ==> !IsEvmAccept(a);
    ExactFirstJoin(evm, svm);
  }

  lemma ExactFirstJoin(xs: seq<X402Option>, ys: seq<X402Option>)
    requires ExactFirst(xs) && ExactFirst(ys)
    requires forall a, b :: a in xs && b in ys ==> a.network != b.network
    ensures ExactFirst(xs + ys)
  {
  }

  lemma {:induction false} FamilyOrder(fam: Family, options: seq<ChargeOption>, seen: set<string>, terms: Terms)
    ensures var list := Expand(fam, FirstPerNetwork(fam, options, seen), terms);
      && ExactFirst(list)
      && forall a :: a in list ==>
           (IsEvmAccept(a) <==> fam.Evm?)
           && exists n :: InFamily(fam, n) && n !in seen && a.network == Caip2(n)
  {
    if options != [] {
      var o, rest := options[0], options[1..];
      if Eligible(fam, o) && o.network !in seen {
        var next := seen + {o.network};
        FamilyOrder(fam, rest, next, terms);
        var tail := Expand(fam, FirstPerNetwork(fam, rest, next), terms);
        assert ([o] + FirstPerNetwork(fam, rest, next))[1..] == FirstPerNetwork(fam, rest, next);
        AcceptsOrder(fam, o, terms);
        forall a, b | a in Accepts(fam, o, terms) && b in tail ensures a.network != b.network {
          var n :| InFamily(fam, n) && n !in next && b.network == Caip2(n);
          Caip2Distinct(o.network, n);
        }
        ExactFirstJoin(Accepts(fam, o, terms), tail);
      } else {
        FamilyOrder(fam, rest, seen, terms);
      }
    }
  }

  lemma AcceptsOrder(fam: Family, o: ChargeOption, terms: Terms)
    requires Eligible(fam, o)
    ensures ExactFirst(Accepts(fam, o, terms))
    ensures forall a :: a in Accepts(fam, o, terms) ==> a.network == Caip2(o.network) && (IsEvmAccept(a) <==> fam.Evm?)
  {
    assert BASE[..7] == "eip155:" && BASE_SEPOLIA[..7] == "eip155:" && SOLANA[0] == SOLANA_DEVNET[0] == 's';
  }

  predicate HasFacilitator(o: ChargeOption, terms: Terms) {
    Caip2(o.network) in terms.facilitators && terms.facilitators[Caip2(o.network)] != ""
  }

  lemma AcceptDescribes(fam: Family, o: ChargeOption, terms: Terms, a: X402Option)
    requires Eligible(fam, o) && a in Accepts(fam, o, terms)
    ensures Describes(fam, a, o, terms)
  {
    if fam.Evm? { EvmAcceptDescribes(o, terms); } else { SvmAcceptDescribes(o, terms); }
  }

  predicate DistinctKeysOutside(d: seq<X402Option>, seen: set<string>) {
    && (forall k :: 0 <= k < |d| ==> Key(d[k]) !in seen)
    && (forall j, k :: 0 <= j < k < |d| ==> Key(d[j]) != Key(d[k]))
  }

  lemma {:induction false} DedupeDistinct(accepts: seq<X402Option>, seen: set<string>)
    ensures DistinctKeysOutside(Dedupe(accepts, seen), seen)
  {
    if accepts != [] {
      var a := accepts[0];
      if Key(a) in seen {
        DedupeDistinct(accepts[1..], seen);
      } else {
        DedupeDistinct(accepts[1..], seen + {Key(a)});
        ConsDistinct(a, Dedupe(accepts[1..], seen + {Key(a)}), seen);
      }
    }
  }

  lemma ConsDistinct(a: X402Option, d: seq<X402Option>, seen: set<string>)
    requires Key(a) !in seen && DistinctKeysOutside(d, seen + {Key(a)})
    ensures DistinctKeysOutside([a] + d, seen)
  {
  }

  /** No (scheme, network) key is advertised twice. */
  lemma AdvertisedKeysDistinct(options: seq<ChargeOption>, terms: Terms)
    ensures DistinctKeysOutside(Advertised(options, terms), {})
  {
    DedupeAfterExpand(options, terms);
    DedupeDistinct(Expand(Evm, options, terms) + Expand(Svm, options, terms), {});
  }

  /** At one price, every advertised accept asks for that price, in micro-units. */
  lemma AdvertisedAtPrice(options: seq<ChargeOption>, terms: Terms, price: Amount)
    requires forall k :: 0 <= k < |options| ==> options[k].amount == price
    ensures forall a | a in Advertised(options, terms) :: a.amount == MicroString(price)
  {
    forall a | a in Advertised(options, terms) ensures a.amount == MicroString(price) {
      AdvertisedExactly(options, terms, a);
    }
  }
}
