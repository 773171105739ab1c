/**
  The in-memory OAuth store (store.go): tokens are saved per user and trimmed URL, and looked
  up along the parent paths of a URL down to its origin.

  URLs are plain ones: a lower-case scheme, a host with an optional port, and a path free of
  percent, query and fragment characters, so that parsing is splitting.
*/
module TokenStore {
  import opened Wrappers
  import opened Text
  import opened Digits

  datatype ClientCredentials = ClientCredentials(clientId: string, clientSecret: string, redirectUri: string)

  datatype AccessToken = AccessToken(resourceUrl: string, accessToken: string, refreshToken: string, expiresAt: int)

  /* ----- plain URLs ----------------------------------------------------------------- */

  datatype Url = Url(scheme: string, host: string, path: string)

  predicate IsScheme(s: string) {
    s != "" && forall i :: 0 <= i < |s| ==> 'a' <= s[i] <= 'z'
  }

  predicate IsHost(s: string) {
    var port := IndexOrLength(s, ':');
    && (forall i :: 0 <= i < port ==>
          'a' <= s[i] <= 'z' || 'A' <= s[i] <= 'Z' || IsDigit(s[i]) || s[i] == '.' || s[i] == '-')
    && (port < |s| ==> AllDigits(s[port + 1..]))
  }

  predicate IsPath(s: string) {
    && (s != "" ==> s[0] == '/')
    && forall i :: 0 <= i < |s| ==> s[i] != '%' && s[i] != '?' && s[i] != '#' && ' ' <= s[i] && s[i] as int != 0x7F
  }

  const SEPARATOR := "://"

  function Parse(raw: string): Option<Url> {
    var i := IndexOrLength(raw, ':');
    if !(SEPARATOR <= raw[i..]) then None
    else
      var rest := raw[i + 3..];
      var h := IndexOrLength(rest, '/');
      Some(Url(raw[..i], rest[..h], rest[h..]))
  }

  predicate WellFormed(u: Url) {
    IsScheme(u.scheme) && IsHost(u.host) && IsPath(u.path)
  }

  predicate IsPlain(raw: string) {
    Parse(raw).Some? && WellFormed(Parse(raw).value)
  }

  function Origin(u: Url): string {
    u.scheme + SEPARATOR + u.host
  }

  lemma IndexAt(s: string, c: char, i: nat)
    requires i <= |s| && (i < |s| ==> s[i] == c)
    requires forall k :: 0 <= k < i ==> s[k] != c
    ensures IndexOrLength(s, c) == i
  {
  }

  lemma HostHasNoSlash(h: string)
    requires IsHost(h)
    ensures forall k :: 0 <= k < |h| ==> h[k] != '/'
  {
    var port := IndexOrLength(h, ':');
    if port < |h| {
      assert forall k :: port < k < |h| ==> h[k] == h[port + 1..][k - port - 1];
    }
  }

  lemma ParseRender(u: Url)
    requires WellFormed(u)
    ensures Parse(Origin(u) + u.path) == Some(u) && IsPlain(Origin(u) + u.path)
  {
    PartsOf(u);
    ParseParts(u.scheme, u.host, u.path);
  }

  lemma PartsOf(u: Url)
    requires WellFormed(u)
    ensures ':' !in u.scheme && '/' !in u.host && (u.path != "" ==> u.path[0] == '/')
  {
    HostHasNoSlash(u.host);
  }

  lemma ParseParts(scheme: string, host: string, path: string)
    requires ':' !in scheme && '/' !in host && (path != "" ==> path[0] == '/')
    ensures Parse(scheme + SEPARATOR + host + path) == Some(Url(scheme, host, path))
  {
    var tail := SEPARATOR + (host + path);
    SplitAt(scheme, ':', tail);
    SplitAt(host, '/', path);
    assert scheme + SEPARATOR + host + path == scheme + tail;
    assert (scheme + tail)[|scheme| + 3..] == host + path;
  }

  /** Splitting at the first occurrence of a character that the first part does not contain. */
  lemma SplitAt(a: string, c: char, b: string)
    requires c !in a && (b != "" ==> b[0] == c)
    ensures var i := IndexOrLength(a + b, c);
      i == |a| && (a + b)[..i] == a && (a + b)[i..] == b
  {
    IndexAt(a + b, c, |a|);
  }

  /** The parts of a URL with its path replaced by one of its prefixes. */
  lemma PrefixWellFormed(u: Url, q: string)
    requires WellFormed(u) && q <= u.path
    ensures WellFormed(u.(path := q))
  {
  }

  /* ----- trimToPath and parentPath ----------------------------------------------------- */

  function TrimToPath(raw: string): string
    requires IsPlain(raw)
  {
    var u := Parse(raw).value;
    Origin(u) + TrimRight(u.path, '/')
  }

  /** The URL without its last segment, "" at the root. */
  function ParentPath(raw: string): string
    requires IsPlain(raw)
  {
    var u := Parse(raw).value;
    var p := TrimRight(u.path, '/');
    var idx := LastIndex(p, '/');
    if idx <= 0 && (u.path == "" || u.path == "/") then ""
    else
      var res := Origin(u) + if idx <= 0 then "/" else p[..idx];
      if res == raw then "" else res
  }

  /** The next path the walk tries after q. */
  function Up(q: string): (p: string)
    requires q != "" && q[0] == '/'
    ensures p <= q && |p| < |q|
  {
    TrimRight(q[..LastIndex(q, '/')], '/')
  }

  lemma ParseAt(u: Url, q: string)
    requires WellFormed(u) && q <= u.path
    ensures var raw := Origin(u) + q;
      IsPlain(raw) && Parse(raw).value.path == q && Origin(Parse(raw).value) == Origin(u)
  {
    PrefixWellFormed(u, q);
    ParseRender(u.(path := q));
  }

  /** What parentPath cuts a trimmed path down to, before it is trimmed again. */
  function CutLast(q: string): string
    requires q != "" && q[0] == '/'
  {
    if LastIndex(q, '/') == 0 then "/" else q[..LastIndex(q, '/')]
  }

  lemma CutLastShortens(q: string)
    requires q != "" && q[0] == '/' && TrimRight(q, '/') == q
    ensures q != "/" && CutLast(q) <= q && |CutLast(q)| < |q|
  {
    assert q[|q| - 1] != '/';
  }

  lemma CutLastTrimsToUp(q: string)
    requires q != "" && q[0] == '/' && TrimRight(q, '/') == q
    ensures CutLast(q) <= q && |CutLast(q)| < |q| && TrimRight(CutLast(q), '/') == Up(q)
  {
    CutLastShortens(q);
    assert "/"[..0] == "" && q[..0] == "";
    assert TrimRight("/", '/') == TrimRight("/"[..0], '/');
  }

  lemma ParentOf(u: Url, q: string)
    requires WellFormed(u) && q <= u.path && TrimRight(q, '/') == q
    ensures IsPlain(Origin(u) + q)
    ensures ParentPath(Origin(u) + q) == if q == "" then "" else Origin(u) + CutLast(q)
  {
    ParseAt(u, q);
    if q != "" {
      CutLastShortens(q);
      LengthDiffers(Origin(u), CutLast(q), q);
    }
  }

  lemma LengthDiffers(origin: string, p: string, q: string)
    requires |p| < |q|
    ensures origin + p != origin + q
  {
    assert |origin + p| < |origin + q|;
  }

  /** One turn of the walk, on strings: strip the last segment, trim again. */
  lemma WalkStep(u: Url, q: string)
    requires WellFormed(u) && q <= u.path && TrimRight(q, '/') == q
    ensures IsPlain(Origin(u) + q)
    ensures q == "" ==> ParentPath(Origin(u) + q) == ""
    ensures q != "" ==> (
      && ParentPath(Origin(u) + q) != "" && IsPlain(ParentPath(Origin(u) + q))
      && TrimToPath(ParentPath(Origin(u) + q)) == Origin(u) + Up(q))
  {
    ParentOf(u, q);
    if q != "" {
      CutLastTrimsToUp(q);
      ParseAt(u, CutLast(q));
    }
  }

  /* ----- the lookup -------------------------------------------------------------------- */

  type Tokens = map<string, AccessToken>

  function Key(user: string, u: Url, path: string): string {
    user + "|" + (Origin(u) + path)
  }

  /** The walk from path q up. */
  function Walk(tokens: Tokens, user: string, u: Url, q: string): Option<AccessToken>
    requires q != "" ==> q[0] == '/'
    decreases |q|
  {
    if Key(user, u, q) in tokens then Some(tokens[Key(user, u, q)])
    else if q == "" then None
    else Walk(tokens, user, u, Up(q))
  }

  function Lookup(tokens: Tokens, user: string, url: string): Option<AccessToken>
    requires IsPlain(url)
  {
    var u := Parse(url).value;
    Walk(tokens, user, u, TrimRight(u.path, '/'))
  }

  class MemoryStore {
    var tokens: Tokens

    constructor ()
      ensures tokens == map[]
    {
      tokens := map[];
    }

    method SaveAccessToken(user: string, url: string, t: AccessToken)
      requires IsPlain(url)
      modifies this`tokens
      ensures tokens == AfterSave(old(tokens), user, url, t)
    {
      tokens := tokens[user + "|" + TrimToPath(url) := t];
    }

    method GetAccessToken(user: string, url: string) returns (r: Option<AccessToken>)
      requires IsPlain(url)
      ensures r == Lookup(tokens, user, url)
    {
      ghost var u := Parse(url).value;
      ghost var q := TrimRight(u.path, '/');
      var p := TrimToPath(url);
      while true
        invariant p == Origin(u) + q && q <= u.path && TrimRight(q, '/') == q
        invariant Walk(tokens, user, u, q) == Lookup(tokens, user, url)
        decreases |p|
      {
        assert user + "|" + p == Key(user, u, q);
        if user + "|" + p in tokens {
          return Some(tokens[user + "|" + p]);
        }
        WalkStep(u, q);
        var parent := ParentPath(p);
        if parent != "" {
          parent := TrimToPath(parent);
        }
        if parent == "" || parent == p {
          return None;
        }
        p, q := parent, Up(q);
      }
    }
  }

  /* ----- the longest saved ancestor ------------------------------------------------------- */

  /** An ancestor of a path: the path cut at its end or just before a slash, less trailing slashes. */
  ghost predicate IsAncestor(path: string, a: string) {
    exists k :: 0 <= k <= |path| && (k == |path| || path[k] == '/') && a == TrimRight(path[..k], '/')
  }

  /** Cutting earlier never leaves a longer trimmed path. */
  lemma TrimMonotone(path: string, j: nat, k: nat)
    requires j <= k <= |path|
    ensures |TrimRight(path[..j], '/')| <= |TrimRight(path[..k], '/')|
  {
    var a, b := TrimRight(path[..j], '/'), TrimRight(path[..k], '/');
    assert a != "" ==> a[|a| - 1] == path[|a| - 1] == path[..k][|a| - 1];
  }

  lemma AncestorIsPrefix(path: string, a: string)
    requires IsAncestor(path, a)
    ensures a <= path
    ensures TrimRight(a, '/') == a
  {
    var k :| 0 <= k <= |path| && (k == |path| || path[k] == '/') && a == TrimRight(path[..k], '/');
    assert a <= path[..k] <= path;
  }

  /** Up is the next ancestor: no ancestor lies strictly between q and Up(q). */
  lemma UpIsNextAncestor(path: string, q: string, b: string)
    requires path != "" ==> path[0] == '/'
    requires IsAncestor(path, q) && q != "" && q[0] == '/'
    ensures IsAncestor(path, Up(q))
    ensures IsAncestor(path, b) && |b| < |q| ==> |b| <= |Up(q)|
  {
    AncestorIsPrefix(path, q);
    var idx := LastIndex(q, '/');
    assert path[idx] == '/' && q[..idx] == path[..idx];
    if IsAncestor(path, b) && |b| < |q| {
      var k :| 0 <= k <= |path| && (k == |path| || path[k] == '/') && b == TrimRight(path[..k], '/');
      if k < |q| {
        assert q[k] == '/';
        TrimMonotone(path, k, idx);
      } else {
        CutAbove(path, q, k);
      }
    }
  }

  /** A cut at or after the end of a trimmed prefix keeps all of it. */
  lemma CutAbove(path: string, q: string, k: nat)
    requires q <= path && TrimRight(q, '/') == q && |q| <= k <= |path|
    ensures |TrimRight(path[..k], '/')| >= |q|
  {
    assert path[..|q|] == q;
    TrimMonotone(path, |q|, k);
  }

  lemma {:induction false} WalkFindsLongest(tokens: Tokens, user: string, u: Url, q: string)
    requires (u.path != "" ==> u.path[0] == '/') && (q != "" ==> q[0] == '/') && IsAncestor(u.path, q)
    ensures var r := Walk(tokens, user, u, q);
      && (r.None? ==> forall b :: IsAncestor(u.path, b) && |b| <= |q| ==> Key(user, u, b) !in tokens)
      && (r.Some? ==> exists a :: IsLongestSaved(tokens, user, u, a, |q|) && r.value == tokens[Key(user, u, a)])
    decreases |q|
  {
    AncestorIsPrefix(u.path, q);
    forall b | IsAncestor(u.path, b) && |b| == |q| ensures b == q {
      AncestorIsPrefix(u.path, b);
    }
    if Key(user, u, q) in tokens {
      assert IsLongestSaved(tokens, user, u, q, |q|);
    } else if q != "" {
      forall b ensures IsAncestor(u.path, Up(q)) && (IsAncestor(u.path, b) && |b| < |q| ==> |b| <= |Up(q)|) {
        UpIsNextAncestor(u.path, q, b);
      }
      WalkFindsLongest(tokens, user, u, Up(q));
      var r := Walk(tokens, user, u, Up(q));
      if r.Some? {
        var a :| IsLongestSaved(tokens, user, u, a, |Up(q)|) && r.value == tokens[Key(user, u, a)];
        assert IsLongestSaved(tokens, user, u, a, |q|);
      }
    }
  }

  /** a is the longest ancestor, of length at most `limit`, with a saved token. */
  ghost predicate IsLongestSaved(tokens: Tokens, user: string, u: Url, a: string, limit: nat) {
    && IsAncestor(u.path, a) && |a| <= limit && Key(user, u, a) in tokens
    && forall b :: IsAncestor(u.path, b) && |b| <= limit && Key(user, u, b) in tokens ==> |b| <= |a|
  }

  /**
    The lookup returns the token at the longest saved ancestor of the URL, and nothing exactly
    when no ancestor, the bare origin included, was saved.
  */
  lemma LookupFindsLongestAncestor(tokens: Tokens, user: string, url: string)
    requires IsPlain(url)
    ensures var u := Parse(url).value; var r := Lookup(tokens, user, url);
      && (r.None? <==> forall b :: IsAncestor(u.path, b) ==> Key(user, u, b) !in tokens)
      && (r.Some? ==> exists a :: IsLongestSaved(tokens, user, u, a, |u.path|) && r.value == tokens[Key(user, u, a)])
  {
    var u := Parse(url).value;
    var q := TrimRight(u.path, '/');
    assert u.path[..|u.path|] == u.path;
    assert IsAncestor(u.path, q);
    forall b | IsAncestor(u.path, b) ensures |b| <= |q| {
      var k :| 0 <= k <= |u.path| && (k == |u.path| || u.path[k] == '/') && b == TrimRight(u.path[..k], '/');
      TrimMonotone(u.path, k, |u.path|);
    }
    WalkFindsLongest(tokens, user, u, q);
    var r := Lookup(tokens, user, url);
    if r.Some? {
      var a :| IsLongestSaved(tokens, user, u, a, |q|) && r.value == tokens[Key(user, u, a)];
      assert IsLongestSaved(tokens, user, u, a, |u.path|);
    }
  }

  /* ----- over any history of saves ----------------------------------------------------------- */

  datatype Save = Save(user: string, url: string, token: AccessToken)

  function AfterSave(tokens: Tokens, user: string, url: string, t: AccessToken): Tokens
    requires IsPlain(url)
  {
    tokens[user + "|" + TrimToPath(url) := t]
  }

  predicate PlainSaves(saves: seq<Save>) {
    forall k :: 0 <= k < |saves| ==> IsPlain(saves[k].url)
  }

  function AfterSaves(saves: seq<Save>): Tokens
    requires PlainSaves(saves)
  {
    if saves == [] then map[]
    else
      var last := saves[|saves| - 1];
      AfterSave(AfterSaves(saves[..|saves| - 1]), last.user, last.url, last.token)
  }

  /** The most recent token the user saved under a trimmed URL. */
  function LastSaved(saves: seq<Save>, user: string, trimmed: string): Option<AccessToken>
    requires PlainSaves(saves)
  {
    if saves == [] then None
    else
      var last := saves[|saves| - 1];
      if last.user == user && TrimToPath(last.url) == trimmed then Some(last.token)
      else LastSaved(saves[..|saves| - 1], user, trimmed)
  }

  /** The longer user name is the shorter one, the separator, and what the other URL starts with. */
  ghost predicate SharesKey(longer: string, a: string, shorter: string, b: string) {
    exists w :: longer == shorter + "|" + w && b == w + "|" + a
  }

  /** Two saves use one key exactly when they agree, or one user name runs into the other's URL. */
  lemma KeysEqualIff(user: string, a: string, other: string, b: string)
    ensures user + "|" + a == other + "|" + b
       <==> (user == other && a == b) || SharesKey(user, a, other, b) || SharesKey(other, b, user, a)
  {
    var s, t := user + "|" + a, other + "|" + b;
    if s == t {
      if |user| == |other| {
        assert user == s[..|user|] && other == t[..|user|] && a == s[|user| + 1..] && b == t[|user| + 1..];
      } else if |user| > |other| {
        RunsInto(user, a, other, b);
      } else {
        RunsInto(other, b, user, a);
      }
    } else {
      forall w
        ensures !(user == other + "|" + w && b == w + "|" + a)
        ensures !(other == user + "|" + w && a == w + "|" + b)
      {
        assert (other + "|" + w) + "|" + a == other + "|" + (w + "|" + a);
        assert (user + "|" + w) + "|" + b == user + "|" + (w + "|" + b);
      }
    }
  }

  lemma RunsInto(longer: string, a: string, shorter: string, b: string)
    requires longer + "|" + a == shorter + "|" + b && |longer| > |shorter|
    ensures SharesKey(longer, a, shorter, b)
  {
    var s, n := longer + "|" + a, |shorter|;
    var w := longer[n + 1..];
    assert s[n] == '|' && s[..n] == shorter && s[..|longer|] == longer && s[n + 1..] == b;
    assert longer == longer[..n] + [longer[n]] + w;
    assert longer[n] == s[n] && longer[..n] == s[..n];
    assert b == w + "|" + a;
  }

  /** No save so far uses this user's key for this URL under another user's name. */
  ghost predicate KeyIsOwn(saves: seq<Save>, user: string, trimmed: string)
    requires PlainSaves(saves)
  {
    forall k :: 0 <= k < |saves| ==>
      && !SharesKey(saves[k].user, TrimToPath(saves[k].url), user, trimmed)
      && !SharesKey(user, trimmed, saves[k].user, TrimToPath(saves[k].url))
  }

  /** So it is, in particular, whenever no user name holds the separator. */
  lemma NoSeparatorNoSharing(saves: seq<Save>, user: string, trimmed: string)
    requires PlainSaves(saves) && '|' !in user && forall k :: 0 <= k < |saves| ==> '|' !in saves[k].user
    ensures KeyIsOwn(saves, user, trimmed)
  {
    forall s: string, w: string ensures '|' in s + "|" + w {
      assert (s + "|" + w)[|s|] == '|';
    }
  }

  /** Where a key is shared, one user's lookup yields what the other saved last. */
  lemma SharedKeyAnswersForOther(saves: seq<Save>, user: string, url: string,
                                 other: string, otherUrl: string, t: AccessToken)
    requires PlainSaves(saves) && IsPlain(url) && IsPlain(otherUrl)
    requires SharesKey(user, TrimToPath(url), other, TrimToPath(otherUrl))
          || SharesKey(other, TrimToPath(otherUrl), user, TrimToPath(url))
    ensures PlainSaves(saves + [Save(other, otherUrl, t)])
    ensures Lookup(AfterSaves(saves + [Save(other, otherUrl, t)]), user, url) == Some(t)
  {
    KeysEqualIff(user, TrimToPath(url), other, TrimToPath(otherUrl));
    var all := saves + [Save(other, otherUrl, t)];
    assert all[..|all| - 1] == saves;
    assert Key(user, Parse(url).value, TrimRight(Parse(url).value.path, '/')) == user + "|" + TrimToPath(url);
  }

  const SHORT_URL := "https://" + "h" + "/p"
  const BETWEEN := "https://" + "x" + "/"
  const LONG_URL := BETWEEN + "|" + SHORT_URL

  /** A user "u|https://x/" looking up https://h/p is answered with what "u" saved at https://x/|https://h/p. */
  lemma TwoUsersOneKey(t: AccessToken)
    ensures IsPlain(SHORT_URL) && IsPlain(LONG_URL) && PlainSaves([Save("u", LONG_URL, t)])
    ensures Lookup(AfterSaves([Save("u", LONG_URL, t)]), "u" + "|" + BETWEEN, SHORT_URL) == Some(t)
  {
    PlainExamples();
    assert SharesKey("u" + "|" + BETWEEN, SHORT_URL, "u", LONG_URL);
    SharedKeyAnswersForOther([], "u" + "|" + BETWEEN, SHORT_URL, "u", LONG_URL, t);
    assert [] + [Save("u", LONG_URL, t)] == [Save("u", LONG_URL, t)];
  }

  lemma PlainExamples()
    ensures IsPlain(SHORT_URL) && TrimToPath(SHORT_URL) == SHORT_URL
    ensures IsPlain(LONG_URL) && TrimToPath(LONG_URL) == LONG_URL
  {
    ShortPath();
    PlainHttps("h", "/p", SHORT_URL);
    LongPath("/" + ("|" + SHORT_URL));
    Regroup("https://", "x", "/", "|", SHORT_URL);
    PlainHttps("x", "/" + ("|" + SHORT_URL), LONG_URL);
  }

  lemma Regroup(a: string, b: string, c: string, d: string, e: string)
    ensures a + b + c + d + e == a + b + (c + (d + e))
  {
  }

  lemma ShortPath()
    ensures IsPath("/p") && "/p"[1] == 'p'
  {
  }

  lemma LongPath(path: string)
    requires path == "/" + ("|" + SHORT_URL)
    ensures IsPath(path) && path != "" && path[|path| - 1] != '/'
  {
    assert IsPath("/" + "|") && IsPath("/https://") && IsPath("/h") && IsPath("/p");
    assert |path| == 13 && path[12] == 'p';
  }

  lemma PlainHttps(host: string, path: string, raw: string)
    requires |host| == 1 && 'a' <= host[0] <= 'z' && IsPath(path) && path != "" && path[|path| - 1] != '/'
    requires raw == "https://" + host + path
    ensures IsPlain(raw) && TrimToPath(raw) == raw
  {
    IndexAt(host, ':', 1);
    assert "https" + SEPARATOR == "https://";
    PlainText(Url("https", host, path), raw);
  }

  /** The text of a plain URL with no trailing slash is its own trimmed form. */
  lemma PlainText(u: Url, raw: string)
    requires WellFormed(u) && raw == Origin(u) + u.path && u.path != "" && u.path[|u.path| - 1] != '/'
    ensures IsPlain(raw) && TrimToPath(raw) == raw
  {
    ParseRender(u);
  }

  lemma {:induction false} StoreRemembersLast(saves: seq<Save>, user: string, trimmed: string)
    requires PlainSaves(saves) && KeyIsOwn(saves, user, trimmed)
    ensures var key := user + "|" + trimmed;
      && (key in AfterSaves(saves) <==> LastSaved(saves, user, trimmed).Some?)
      && (key in AfterSaves(saves) ==> AfterSaves(saves)[key] == LastSaved(saves, user, trimmed).value)
  {
    if saves != [] {
      var last := saves[|saves| - 1];
      StoreRemembersLast(saves[..|saves| - 1], user, trimmed);
      KeysEqualIff(user, trimmed, last.user, TrimToPath(last.url));
    }
  }

  /**
    After any history of saves, a lookup yields the most recent token that user saved at the
    longest ancestor of the URL the user ever saved; other users' saves play no part, as long as
    none of them shares the key of such an ancestor.
  */
  lemma LookupAfterSaves(saves: seq<Save>, user: string, url: string)
    requires PlainSaves(saves) && IsPlain(url)
    requires forall b :: IsAncestor(Parse(url).value.path, b) ==> KeyIsOwn(saves, user, Origin(Parse(url).value) + b)
    ensures var u := Parse(url).value; var r := Lookup(AfterSaves(saves), user, url);
      && (r.None? <==> forall b :: IsAncestor(u.path, b) ==> LastSaved(saves, user, Origin(u) + b).None?)
      && (r.Some? ==> exists a ::
            && IsAncestor(u.path, a) && r == LastSaved(saves, user, Origin(u) + a)
            && forall b :: IsAncestor(u.path, b) && LastSaved(saves, user, Origin(u) + b).Some? ==> |b| <= |a|)
  {
    var u := Parse(url).value;
    forall b | IsAncestor(u.path, b)
      ensures Key(user, u, b) in AfterSaves(saves) <==> LastSaved(saves, user, Origin(u) + b).Some?
    {
      StoreRemembersLast(saves, user, Origin(u) + b);
    }
    LookupFindsLongestAncestor(AfterSaves(saves), user, url);
    var r := Lookup(AfterSaves(saves), user, url);
    if r.Some? {
      var a :| IsLongestSaved(AfterSaves(saves), user, u, a, |u.path|) && r.value == AfterSaves(saves)[Key(user, u, a)];
      LongestSavedIsLatest(saves, user, u, a);
    }
  }

  lemma LongestSavedIsLatest(saves: seq<Save>, user: string, u: Url, a: string)
    requires PlainSaves(saves) && IsLongestSaved(AfterSaves(saves), user, u, a, |u.path|)
    requires forall b :: IsAncestor(u.path, b) ==> KeyIsOwn(saves, user, Origin(u) + b)
    ensures LastSaved(saves, user, Origin(u) + a) == Some(AfterSaves(saves)[Key(user, u, a)])
    ensures forall b :: IsAncestor(u.path, b) && LastSaved(saves, user, Origin(u) + b).Some? ==> |b| <= |a|
  {
    StoreRemembersLast(saves, user, Origin(u) + a);
    forall b | IsAncestor(u.path, b) && LastSaved(saves, user, Origin(u) + b).Some? ensures |b| <= |a| {
      StoreRemembersLast(saves, user, Origin(u) + b);
      AncestorIsPrefix(u.path, b);
    }
  }
}
