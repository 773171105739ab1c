/**
  Decoded JSON values and payment credentials (server/protocol.go).

  Base64 and JSON decoding are foreign code: a credential is its text together with what
  each of the three decodings of that text yields.
*/
module Credentials {
  import opened Wrappers

  /** A decoded JSON value. A number is carried as its shortest plain decimal text. */
  datatype Json =
    | Null
    | Bool(b: bool)
    | Num(text: string)
    | Str(s: string)
    | Arr(items: seq<Json>)
    | Obj(fields: Object)

  type Object = map<string, Json>

  /** m[key] on a Go map: the nil value when the key is absent. */
  function Get(o: Object, key: string): Json {
    if key in o then o[key] else Null
  }

  /** s, _ := v.(string) */
  function AsString(v: Json): string {
    if v.Str? then v.s else ""
  }

  /** anyToAmountString: a string or a number, the empty string for anything else. */
  function AmountString(v: Json): string {
    match v
    case Str(s) => s
    case Num(t) => t
    case _ => ""
  }

  datatype Protocol = ProtocolAtxp | ProtocolX402 | ProtocolMpp

  datatype Credential = Credential(
    text: string,
    base64: Option<Object>,
    base64Url: Option<Object>,
    raw: Option<Object>)

  /** The first decoding that yields a JSON object, in the order the code tries them. */
  function ParseCredentialJson(c: Credential): (r: Option<Object>)
    ensures r.Some? <==> c.base64.Some? || c.base64Url.Some? || c.raw.Some?
    ensures r.Some? ==> r in {c.base64, c.base64Url, c.raw}
  {
    if c.base64.Some? then c.base64
    else if c.base64Url.Some? then c.base64Url
    else c.raw
  }

  function ParsedOrEmpty(c: Credential): Object {
    var p := ParseCredentialJson(c);
    if p.Some? then p.value else map[]
  }

  /** A TIP-1034 session credential: by its challenge's intent, or by a channel descriptor. */
  predicate IsMppSession(c: Credential) {
    var parsed := ParsedOrEmpty(c);
    var challenge, payload := Get(parsed, "challenge"), Get(parsed, "payload");
    || (challenge.Obj? && Get(challenge.fields, "intent") == Str("session"))
    || (payload.Obj? && "descriptor" in payload.fields)
  }

  /** Read off the credential: intent "session" in its challenge, or else a descriptor in its payload. */
  lemma SessionCredentialIff(c: Credential, parsed: Object)
    requires ParsedOrEmpty(c) == parsed
    ensures IsMppSession(c) <==>
      || (exists ch: Object :: "challenge" in parsed && parsed["challenge"] == Obj(ch)
                               && "intent" in ch && ch["intent"] == Str("session"))
      || (exists p: Object :: "payload" in parsed && parsed["payload"] == Obj(p) && "descriptor" in p)
  {
    assert Str("session") != Null;
    if Get(parsed, "challenge").Obj? { assert parsed["challenge"] == Obj(parsed["challenge"].fields); }
    if Get(parsed, "payload").Obj? { assert parsed["payload"] == Obj(parsed["payload"].fields); }
  }

  datatype Detection = Detection(protocol: Protocol, credential: string, paymentRequestId: string)
}
