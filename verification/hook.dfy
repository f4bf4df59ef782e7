/** The client side of a collaborative editing session: which WebSocket
    server to talk to, which room to join with which token, and the colour
    and name the user announces. Environment values and the signed-in
    session are parameters. */
module Hook {
  import opened Wrappers
  import opened Strings
  import Gate
  import Colors
  import AuthStore

  const LocalServer: string := "ws://localhost:3000"
  const RenderDomain: string := ".onrender.com"

  /** JavaScript truthiness of an optional string. */
  predicate Given(v: Option<string>) {
    v.Some? && v.value != ""
  }

  /** `url.replace(/^http/, 'ws')`. */
  function HttpToWs(url: string): (r: string)
    ensures StartsWith(url, "http") ==> r == "ws" + url[4..] && StartsWith(r, "ws")
    ensures !StartsWith(url, "http") ==> r == url
  {
    if StartsWith(url, "http") then
      PrefixOfAppend("ws", url[4..], "ws");
      "ws" + url[4..]
    else url
  }

  /** `getWsUrl()` as written: the collaboration URL when set; otherwise the
      API URL, completed to a Render host name when it is a bare name,
      given a secure scheme when it does not begin with "http" or "ws", and
      switched from http to ws. */
  function WsUrl(collabUrl: Option<string>, apiUrl: Option<string>): (r: string)
    ensures Given(collabUrl) ==> r == collabUrl.value
    ensures !Given(collabUrl) && !Given(apiUrl) ==> r == LocalServer
    ensures !Given(collabUrl) && Given(apiUrl) ==> StartsWith(r, "ws")
  {
    if Given(collabUrl) then collabUrl.value
    else if !Given(apiUrl) then LocalServer
    else
      var url := apiUrl.value;
      var host := if !Contains(url, ".") && !Contains(url, ":") && !StartsWith(url, "http")
        then url + RenderDomain else url;
      HttpToWs(AddScheme(host))
  }

  /** The second step as written: a secure scheme unless the text already
      begins with "http" or "ws". */
  function AddScheme(host: string): (r: string)
    ensures StartsWith(r, "http") || StartsWith(r, "ws")
    ensures StartsWith(host, "http") || StartsWith(host, "ws") ==> r == host
    ensures !StartsWith(host, "http") && !StartsWith(host, "ws") ==> r == "https://" + host
  {
    if !StartsWith(host, "http") && !StartsWith(host, "ws") then
      PrefixOfAppend("https://", host, "http");
      "https://" + host
    else host
  }

  lemma {:induction false} PrefixOfAppend(a: string, b: string, q: string)
    requires StartsWith(a, q)
    ensures StartsWith(a + b, q)
  {
    assert (a + b)[..|q|] == a[..|q|];
  }

  /** The URL of a server written with a scheme. */
  predicate HasScheme(url: string) {
    StartsWith(url, "http://") || StartsWith(url, "https://")
    || StartsWith(url, "ws://") || StartsWith(url, "wss://")
  }

  predicate WebSocketUrl(url: string) {
    StartsWith(url, "ws://") || StartsWith(url, "wss://")
  }

  /** `getWsUrl()` with the scheme tests the comments describe: a URL is
      completed and given a scheme unless it already has one. */
  function WsUrlCorrected(collabUrl: Option<string>, apiUrl: Option<string>): (r: string)
    ensures Given(collabUrl) ==> r == collabUrl.value
    ensures !Given(collabUrl) && !Given(apiUrl) ==> r == LocalServer
    ensures !Given(collabUrl) && Given(apiUrl) ==> WebSocketUrl(r)
  {
    if Given(collabUrl) then collabUrl.value
    else if !Given(apiUrl) then LocalServer
    else
      var url := apiUrl.value;
      var host := if !Contains(url, ".") && !Contains(url, ":") && !HasScheme(url)
        then url + RenderDomain else url;
      var full := if !HasScheme(host) then "https://" + host else host;
      assert HasScheme(full) by {
        if !HasScheme(host) { PrefixOfAppend("https://", host, "https://"); }
      }
      SchemeToWs(full);
      HttpToWs(full)
  }

  /** Switching the scheme of a URL with a scheme gives a WebSocket URL. */
  lemma {:induction false} SchemeToWs(url: string)
    requires HasScheme(url)
    ensures WebSocketUrl(HttpToWs(url))
  {
    var r := HttpToWs(url);
    if StartsWith(url, "http://") {
      assert url[..4] == "http";
      assert r[..5] == "ws" + url[4..7];
    } else if StartsWith(url, "https://") {
      assert url[..4] == "http";
      assert r[..6] == "ws" + url[4..8];
    } else if StartsWith(url, "ws://") {
      assert url[1] == "ws://"[1] == 's';
    } else {
      assert url[1] == "wss://"[1] == 's';
    }
  }

  /** The scheme mapping of both versions: http becomes ws and https becomes
      wss, the rest of the URL kept. */
  lemma {:induction false} SchemesMapped(rest: string)
    ensures WsUrl(None, Some("http://" + rest)) == "ws://" + rest
    ensures WsUrl(None, Some("https://" + rest)) == "wss://" + rest
    ensures WsUrlCorrected(None, Some("http://" + rest)) == "ws://" + rest
    ensures WsUrlCorrected(None, Some("https://" + rest)) == "wss://" + rest
  {
    HttpMapped(rest);
    HttpsMapped(rest);
  }

  lemma {:induction false} HttpMapped(rest: string)
    ensures WsUrl(None, Some("http://" + rest)) == "ws://" + rest
    ensures WsUrlCorrected(None, Some("http://" + rest)) == "ws://" + rest
  {
    var h := "http://" + rest;
    assert StartsWith(h, "http://") && OccursAt(h, ":", 4) && StartsWith(h, "http");
    assert h[4..] == "://" + rest;
  }

  lemma {:induction false} HttpsMapped(rest: string)
    ensures WsUrl(None, Some("https://" + rest)) == "wss://" + rest
    ensures WsUrlCorrected(None, Some("https://" + rest)) == "wss://" + rest
  {
    var s := "https://" + rest;
    assert StartsWith(s, "https://") && OccursAt(s, ":", 5) && StartsWith(s, "http");
    assert s[4..] == "s://" + rest;
  }

  /** A bare Render service name whose first letters are not a scheme's
      becomes the secure WebSocket URL of its Render host, in both versions. */
  lemma {:induction false} BareName(name: string)
    requires !Contains(name, ".") && !Contains(name, ":")
    requires !StartsWith(name, "http") && !StartsWith(name, "ws")
    ensures name != "" ==> WsUrl(None, Some(name)) == "wss://" + name + RenderDomain
    ensures name != "" ==> WsUrlCorrected(None, Some(name)) == "wss://" + name + RenderDomain
  {
    if name != "" {
      var host := name + RenderDomain;
      NotPrefixAppend(name, "http", RenderDomain);
      NotPrefixAppend(name, "ws", RenderDomain);
      assert AddScheme(host) == "https://" + host;
      assert ("https://" + host)[..4] == "http";
      assert ("https://" + host)[4..] == "s://" + host;
      NotLonger(name, "http", "http://"); NotLonger(name, "http", "https://");
      NotLonger(name, "ws", "ws://"); NotLonger(name, "ws", "wss://");
      CorrectedBare(name);
    }
  }

  /** The corrected version sends every bare name without a scheme to its
      Render host over a secure connection. */
  lemma {:induction false} CorrectedBare(name: string)
    requires name != "" && !Contains(name, ".") && !Contains(name, ":") && !HasScheme(name)
    ensures WsUrlCorrected(None, Some(name)) == "wss://" + name + RenderDomain
  {
    var host := name + RenderDomain;
    NotPrefixAppend(name, "http://", RenderDomain);
    NotPrefixAppend(name, "https://", RenderDomain);
    NotPrefixAppend(name, "ws://", RenderDomain);
    NotPrefixAppend(name, "wss://", RenderDomain);
    var full := "https://" + host;
    assert full[..4] == "http";
    assert full[4..] == "s://" + host;
  }

  /** As written, a bare name that begins with "ws" only gets the Render
      domain, and one that begins with "http" has it replaced by "ws". */
  lemma {:induction false} WsNameAsWritten(name: string)
    requires !Contains(name, ".") && !Contains(name, ":") && StartsWith(name, "ws")
    ensures WsUrl(None, Some(name)) == name + RenderDomain
  {
    DiffersAt(name, "http", 1);
    var host := name + RenderDomain;
    PrefixOfAppend(name, RenderDomain, "ws");
    DiffersAt(host, "http", 1);
  }

  lemma {:induction false} HttpNameAsWritten(name: string)
    requires !Contains(name, ".") && !Contains(name, ":") && StartsWith(name, "http")
    ensures WsUrl(None, Some(name)) == "ws" + name[4..]
  {
  }

  /** If `s` does not start with `p`, it does not start with anything that
      starts with `p`. */
  lemma {:induction false} NotLonger(s: string, p: string, q: string)
    requires !StartsWith(s, p) && |p| <= |q| && q[..|p|] == p
    ensures !StartsWith(s, q)
  {
    if |q| <= |s| {
      assert s[..|q|][..|p|] == s[..|p|];
    }
  }

  /** Appending text that starts with a character `p` lacks cannot make
      a string start with `p`. */
  lemma {:induction false} NotPrefixAppend(s: string, p: string, extra: string)
    requires !StartsWith(s, p) && extra != [] && extra[0] !in p
    ensures !StartsWith(s + extra, p)
  {
    if |p| <= |s| {
      assert (s + extra)[..|p|] == s[..|p|];
    } else if |p| <= |s + extra| {
      assert (s + extra)[..|p|][|s|] == extra[0];
    }
  }

  /** Strings that differ at a position inside `q` do not start alike. */
  lemma {:induction false} DiffersAt(s: string, q: string, i: nat)
    requires i < |q| && i < |s| && s[i] != q[i]
    ensures !StartsWith(s, q)
  {
    if |q| <= |s| {
      assert s[..|q|][i] == s[i];
    }
  }

  /** The discrepancy: a bare service name that happens to begin with "ws"
      is taken for a URL with a scheme, and the result has none at all; one
      that begins with "http" loses its first four letters. */
  lemma {:induction false} NameTakenForScheme()
    ensures WsUrl(None, Some("wsapi")) == "wsapi" + RenderDomain
    ensures !WebSocketUrl(WsUrl(None, Some("wsapi")))
    ensures WsUrl(None, Some("httpapi")) == "wsapi"
  {
    WsApiAsWritten();
    HttpApiAsWritten();
  }

  lemma {:induction false} WsApiAsWritten()
    ensures WsUrl(None, Some("wsapi")) == "wsapi" + RenderDomain
    ensures !WebSocketUrl("wsapi" + RenderDomain)
  {
    var w := "wsapi";
    NoOccurrenceIn(w, ".");
    NoOccurrenceIn(w, ":");
    assert StartsWith(w, "ws");
    WsNameAsWritten(w);
    var wh := w + RenderDomain;
    assert wh[2] == 'a';
    DiffersAt(wh, "ws://", 2);
    DiffersAt(wh, "wss://", 2);
  }

  lemma {:induction false} HttpApiAsWritten()
    ensures WsUrl(None, Some("httpapi")) == "wsapi"
  {
    var h := "http" + "api";
    assert h == "httpapi";
    NoOccurrenceIn(h, ".");
    NoOccurrenceIn(h, ":");
    PrefixOfAppend("http", "api", "http");
    HttpNameAsWritten(h);
    assert h[4..] == "api";
  }

  /** The corrected version gives both names their Render host. */
  lemma {:induction false} NamesCorrected()
    ensures WsUrlCorrected(None, Some("wsapi")) == "wss://" + "wsapi" + RenderDomain
    ensures WsUrlCorrected(None, Some("httpapi")) == "wss://" + "httpapi" + RenderDomain
  {
    WsApiCorrected();
    HttpApiCorrected();
  }

  lemma {:induction false} WsApiCorrected()
    ensures WsUrlCorrected(None, Some("wsapi")) == "wss://" + "wsapi" + RenderDomain
  {
    var w := "wsapi";
    NoOccurrenceIn(w, ".");
    NoOccurrenceIn(w, ":");
    assert w[2] == 'a';
    DiffersAt(w, "http://", 0); DiffersAt(w, "https://", 0);
    DiffersAt(w, "ws://", 2); DiffersAt(w, "wss://", 2);
    CorrectedBare(w);
  }

  lemma {:induction false} HttpApiCorrected()
    ensures WsUrlCorrected(None, Some("httpapi")) == "wss://" + "httpapi" + RenderDomain
  {
    var h := "httpapi";
    NoOccurrenceIn(h, ".");
    NoOccurrenceIn(h, ":");
    assert h[4] == 'a';
    DiffersAt(h, "http://", 4); DiffersAt(h, "https://", 4);
    DiffersAt(h, "ws://", 0); DiffersAt(h, "wss://", 0);
    CorrectedBare(h);
  }

  /** A one-character needle that no character of `s` equals. */
  lemma {:induction false} NoOccurrenceIn(s: string, c: string)
    requires |c| == 1 && forall i :: 0 <= i < |s| ==> s[i] != c[0]
    ensures !Contains(s, c)
  {
    forall j: nat
      ensures !OccursAt(s, c, j)
    {
      NoCharNoOccurrence(s, c, 0, j);
    }
  }

  // ---- the avatar colour of the hook ----

  const TwoTo32: int := 0x1_0000_0000
  const TwoTo31: int := 0x8000_0000

  /** ECMAScript `ToInt32` on an integral number: the value modulo 2^32,
      read as a signed 32-bit integer. */
  function ToInt32(x: int): (r: int)
    ensures -TwoTo31 <= r < TwoTo31
    ensures (r - x) % TwoTo32 == 0
  {
    var m := x % TwoTo32;
    if m >= TwoTo31 then m - TwoTo32 else m
  }

  /** One round of the loop: `hash = unit + ((hash << 5) - hash)`. The shift
      works on the 32-bit value of `hash` and wraps; the subtraction and the
      addition are on unwrapped numbers. */
  function HashStep(hash: int, unit: int): (r: int)
    ensures (r - (31 * hash + unit)) % TwoTo32 == 0
    ensures -TwoTo31 <= r - (unit - hash) < TwoTo31
  {
    var t := ToInt32(hash);
    var w := ToInt32(t * 32);
    // r - (31 hash + unit) = (w - 32 t) + 32 (t - hash)
    MultipleScaled(t - hash, 32);
    MultipleSum(w - t * 32, 32 * (t - hash), 0);
    unit + (w - hash)
  }

  /** The hash after the loop has read `units`: congruent modulo 2^32 to the
      polynomial reference below. */
  function Hash(units: seq<int>): (r: int)
    ensures (r - PolyHash(units)) % TwoTo32 == 0
    decreases |units|
  {
    if |units| == 0 then 0
    else
      var prefix := units[..|units| - 1];
      var h := Hash(prefix);
      StepCongruent(h, PolyHash(prefix), units[|units| - 1]);
      HashStep(h, units[|units| - 1])
  }

  /** The reference: the polynomial hash with multiplier 31 (Java's
      `String.hashCode` before wrapping). */
  function PolyHash(units: seq<int>): int
    decreases |units|
  {
    if |units| == 0 then 0 else 31 * PolyHash(units[..|units| - 1]) + units[|units| - 1]
  }

  /** The loop computes the polynomial hash modulo 2^32: read as a 32-bit
      integer, the hash is Java's `String.hashCode` of the id. */
  lemma {:induction false} HashIsPolynomial(units: seq<int>)
    ensures (Hash(units) - PolyHash(units)) % TwoTo32 == 0
    ensures ToInt32(Hash(units)) == ToInt32(PolyHash(units))
  {
    SameInt32(Hash(units), PolyHash(units));
  }

  /** One round keeps the hash congruent to the polynomial modulo 2^32. */
  lemma {:induction false} StepCongruent(h: int, p: int, u: int)
    requires (h - p) % TwoTo32 == 0
    ensures (HashStep(h, u) - (31 * p + u)) % TwoTo32 == 0
  {
    var t := ToInt32(h);
    var w := ToInt32(t * 32);
    // HashStep - (31 p + u) = (w - 32t) + 32 (t - h) + 31 (h - p)
    var a, b, c := w - t * 32, 32 * (t - h), 31 * (h - p);
    assert HashStep(h, u) - (31 * p + u) == a + b + c;
    MultipleScaled(t - h, 32);
    MultipleScaled(h - p, 31);
    MultipleSum(a, b, c);
  }

  lemma {:induction false} MultipleSum(a: int, b: int, c: int)
    requires a % TwoTo32 == 0 && b % TwoTo32 == 0 && c % TwoTo32 == 0
    ensures (a + b + c) % TwoTo32 == 0
  {
  }

  lemma {:induction false} MultipleScaled(a: int, k: nat)
    requires a % TwoTo32 == 0 && k <= 32
    ensures (k * a) % TwoTo32 == 0
  {
    var q := a / TwoTo32;
    assert a == TwoTo32 * q;
    assert k * a == TwoTo32 * (k * q);
  }

  lemma {:induction false} SameInt32(a: int, b: int)
    requires (a - b) % TwoTo32 == 0
    ensures ToInt32(a) == ToInt32(b)
  {
    var q := (a - b) / TwoTo32;
    assert a == b + TwoTo32 * q;
  }

  /** Each round moves the hash by less than 2^31 + 2^16, so for ids of up
      to 4,194,000 code units every intermediate value stays below 2^53 and
      the double arithmetic of the source is exact: the integers here are the
      numbers the browser computes. */
  lemma {:induction false} HashBound(units: seq<int>)
    requires forall i :: 0 <= i < |units| ==> 0 <= units[i] < 0x1_0000
    ensures -|units| * (TwoTo31 + 0xFFFF) <= Hash(units) <= |units| * (TwoTo31 + 0xFFFF)
    ensures |units| <= 4_194_000 ==> -0x20_0000_0000_0000 < Hash(units) - TwoTo31 - 0xFFFF
    ensures |units| <= 4_194_000 ==> Hash(units) + TwoTo31 + 0xFFFF < 0x20_0000_0000_0000
    decreases |units|
  {
    if |units| > 0 {
      HashBound(units[..|units| - 1]);
    }
  }

  function Abs(x: int): nat {
    if x < 0 then -x else x
  }

  /** `getColorForUser(id)` of the hook: the palette entry at the absolute
      hash modulo eight, over the UTF-16 code units of the id. */
  function HookColor(id: string): (r: string)
    ensures r in Colors.Palette
  {
    Colors.Palette[Abs(Hash(CodeUnits(id))) % |Colors.Palette|]
  }

  // ---- the user announced to the room ----

  datatype PresenceUser = PresenceUser(id: string, name: string, color: string)

  /** The local awareness field: the signed-in user's id, display name (or
      e-mail when there is none) and colour; without a user, "anonymous"
      with a colour chosen by the document. */
  function LocalPresence(user: Option<AuthStore.User>, slug: string): (r: PresenceUser)
    ensures r.color in Colors.Palette
    ensures user.None? ==> r == PresenceUser("anonymous", "Anonymous", HookColor(slug))
    ensures user.Some? ==> r.id == user.value.id && r.color == HookColor(user.value.id)
    ensures user.Some? && user.value.displayName.Some? ==> r.name == user.value.displayName.value
    ensures user.Some? && user.value.displayName.None? ==> r.name == user.value.email
  {
    var color := HookColor(if user.Some? then user.value.id else slug);
    var id := if user.Some? then user.value.id else "anonymous";
    var name := if user.None? then "Anonymous"
      else if user.value.displayName.Some? then user.value.displayName.value
      else user.value.email;
    PresenceUser(id, name, color)
  }

  /** A user keeps one colour in every document and under every name; only
      the anonymous colour depends on the document. */
  lemma {:induction false} PresenceColorStable(u: AuthStore.User, v: AuthStore.User, slug1: string, slug2: string)
    requires u.id == v.id
    ensures LocalPresence(Some(u), slug1).color == LocalPresence(Some(v), slug2).color
    ensures LocalPresence(None, slug1).color == HookColor(slug1)
  {
  }

  // ---- the room and the request target ----

  /** `collab/<slug>`: the room the provider joins. */
  function RoomName(slug: string): (r: string)
    ensures |r| == |slug| + 7 && r[7..] == slug
  {
    "collab/" + slug
  }

  /** The request target the provider opens for a room: the room under the
      server root, then the token as the only query parameter. */
  function RequestTarget(room: string, token: string): (r: string)
    ensures |r| == |room| + |token| + 8
    ensures r[..|room| + 1] == "/" + room
    ensures r[|room| + 1..] == "?token=" + token
  {
    "/" + room + "?token=" + token
  }

  /** The effect of the hook: nothing without a slug or without a token;
      otherwise a connection to the room of the slug. */
  function Join(slug: string, token: Option<string>): (r: Option<string>)
    ensures r.Some? <==> slug != "" && Given(token)
    ensures r.Some? ==> r.value == RequestTarget(RoomName(slug), token.value)
  {
    if slug == "" || !Given(token) then None
    else Some(RequestTarget(RoomName(slug), token.value))
  }

  /** Signed out, the hook joins no room; signed in with a non-empty token,
      it joins the room of every non-empty slug. */
  lemma {:induction false} JoinNeedsSession(s: AuthStore.AuthState, slug: string, token: string, refresh: string, user: AuthStore.User)
    ensures Join(slug, AuthStore.Logout(s).token).None?
    ensures Join(slug, AuthStore.SetAuth(s, token, refresh, user).token).Some? <==> slug != "" && token != ""
  {
  }

  /** The room round-trips through the server's parsing: the server reads
      the slug back as the document name and the token as `token`, and a
      verifying token is admitted to that document. */
  lemma {:induction false} RoomRoundTrip(slug: string, token: string)
    requires slug != "" && Gate.SlugSafe(slug) && Gate.TokenSafe(token)
    ensures Gate.DocName(RequestTarget(RoomName(slug), token)) == slug
    ensures Gate.TokenOf(RequestTarget(RoomName(slug), token)) == Some(token)
    ensures token != "" ==> Gate.Upgrade(RequestTarget(RoomName(slug), token), true, true) == Gate.Admit(slug)
  {
    var url := RequestTarget(RoomName(slug), token);
    TargetSpelled(slug, token);
    TargetParsed(slug, token);
    if token != "" {
      ParsedAdmitted(url, slug, token);
    }
  }

  lemma {:induction false} TargetSpelled(slug: string, token: string)
    ensures RequestTarget(RoomName(slug), token) == "/collab/" + slug + "?token=" + token
  {
  }

  /** A request whose name and token parse is admitted to that name once the
      token verifies. */
  lemma {:induction false} ParsedAdmitted(url: string, name: string, token: string)
    requires Gate.DocName(url) == name && Gate.TokenOf(url) == Some(token) && token != ""
    ensures Gate.Upgrade(url, true, true) == Gate.Admit(name)
  {
  }

  lemma {:induction false} TargetParsed(slug: string, token: string)
    requires slug != "" && Gate.SlugSafe(slug) && Gate.TokenSafe(token)
    ensures Gate.DocName("/collab/" + slug + "?token=" + token) == slug
    ensures Gate.TokenOf("/collab/" + slug + "?token=" + token) == Some(token)
  {
    TargetPath(slug, token);
    RoomSegment(slug);
    TargetQuery(slug, token);
    TokenPair(token);
  }

  /** The path of the target is everything before its only '?'. */
  lemma {:induction false} TargetPath(slug: string, token: string)
    requires Gate.SlugSafe(slug)
    ensures Gate.PathOf("/collab/" + slug + "?token=" + token) == "/collab/" + slug
  {
    var url := "/collab/" + slug + "?token=" + token;
    var q := 8 + |slug|;
    assert url[q] == '?';
    forall j: nat | j < q
      ensures !OccursAt(url, "?", j)
    {
      if j < 8 {
        assert url[j] == "/collab/"[j];
      } else {
        assert url[j] == slug[j - 8];
      }
    }
    assert OccursAt(url, "?", q);
    assert url[..q] == "/collab/" + slug;
  }

  /** The document segment of a room path is the slug. */
  lemma {:induction false} RoomSegment(slug: string)
    requires Gate.SlugSafe(slug)
    ensures Gate.DocSegment("/collab/" + slug) == Some(slug)
  {
    var path := "/collab/" + slug;
    assert OccursAt(path, Gate.CollabPrefix, 0);
    assert path[8..] == slug;
    forall j: nat
      ensures !OccursAt(slug, Gate.CollabPrefix, j)
    {
      NoCharNoOccurrence(slug, Gate.CollabPrefix, 0, j);
    }
  }

  /** With no '#' anywhere, the query is the text after the '?'. */
  lemma {:induction false} TargetQuery(slug: string, token: string)
    requires Gate.SlugSafe(slug) && Gate.TokenSafe(token)
    ensures Gate.QueryOf("/collab/" + slug + "?token=" + token) == "token=" + token
  {
    var url := "/collab/" + slug + "?token=" + token;
    var q := 8 + |slug|;
    forall i | 0 <= i < |url|
      ensures url[i] != '#'
    {
      if i < 8 {
        assert url[i] == "/collab/"[i];
      } else if i < q {
        assert url[i] == slug[i - 8];
      } else if i < q + 7 {
        assert url[i] == "?token="[i - q];
      } else {
        assert url[i] == token[i - q - 7];
      }
    }
    NoOccurrenceIn(url, "#");
    assert Before(url, "#") == url;
    TargetPath(slug, token);
    assert url[q] == '?' && url[q + 1..] == "token=" + token;
  }

  /** The single pair `token=<token>` yields the token. */
  lemma {:induction false} TokenPair(token: string)
    requires Gate.TokenSafe(token)
    ensures Gate.QueryParam("token=" + token, "token") == Some(token)
  {
    var query := "token=" + token;
    forall i | 0 <= i < |query|
      ensures query[i] != '&'
    {
      if i >= 6 {
        assert query[i] == token[i - 6];
      }
    }
    NoOccurrenceIn(query, "&");
    assert OccursAt(query, "=", 5);
    forall j: nat | j < 5
      ensures !OccursAt(query, "=", j)
    {
      assert query[j] == "token"[j];
    }
    assert Before(query, "=") == "token";
    assert Gate.PlusToSpace("token") == "token";
    assert query[6..] == token;
    assert Gate.PlusToSpace(token) == token;
  }
}
