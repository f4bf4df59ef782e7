/** The upgrade gate and the document-name extraction of the collaboration
    server. An upgrade request is admitted only when its URL carries a
    non-empty `token` query parameter that verifies; the document name is the
    path segment after `/collab/`. Token verification (`jwt.verify`) is an
    oracle: the model receives its verdict. */
module Gate {
  import opened Wrappers
  import opened Strings

  const CollabPrefix: string := "/collab/"
  const DefaultDocName: string := "default"

  /** `url.split('?')[0]`. */
  function PathOf(url: string): string {
    Before(url, "?")
  }

  /** `path.split('/collab/')[1]`: the text between the first `/collab/` and
      the next one (or the end); `None` when the path has no `/collab/`. */
  function DocSegment(path: string): (r: Option<string>)
    ensures r.None? <==> !Contains(path, CollabPrefix)
  {
    match IndexOf(path, CollabPrefix)
    case None => None
    case Some(i) =>
      var rest := path[i + |CollabPrefix|..];
      Some(Before(rest, CollabPrefix))
  }

  /** The document name of a connection: the segment after `/collab/` in the
      part of the URL before `?`, or `default` when it is absent or empty. */
  function DocName(url: string): (r: string)
    ensures r != ""
    ensures DocSegment(PathOf(url)).Some? && DocSegment(PathOf(url)).value != "" ==>
      r == DocSegment(PathOf(url)).value
    ensures DocSegment(PathOf(url)).None? || DocSegment(PathOf(url)).value == "" ==>
      r == DefaultDocName
  {
    var seg := DocSegment(PathOf(url));
    if seg.Some? && seg.value != "" then seg.value else DefaultDocName
  }

  /** The query of a request target: after the first `?` and before any `#`. */
  function QueryOf(url: string): string {
    var beforeFragment := Before(url, "#");
    match IndexOf(beforeFragment, "?")
    case None => ""
    case Some(i) => beforeFragment[i + 1..]
  }

  /** `application/x-www-form-urlencoded` turns `+` into a space. */
  function PlusToSpace(s: string): (r: string)
    ensures |r| == |s|
    ensures forall i :: 0 <= i < |s| ==> r[i] == (if s[i] == '+' then ' ' else s[i])
  {
    seq(|s|, i requires 0 <= i < |s| => if s[i] == '+' then ' ' else s[i])
  }

  /** Name and value of one `name=value` pair (value empty without `=`). */
  function PairName(piece: string): string {
    PlusToSpace(Before(piece, "="))
  }

  function PairValue(piece: string): string {
    match IndexOf(piece, "=")
    case None => ""
    case Some(i) => PlusToSpace(piece[i + 1..])
  }

  /** `URLSearchParams.get(key)` over a query: the value of the first
      non-empty `&`-separated pair whose name is `key`. */
  function QueryParam(query: string, key: string): (r: Option<string>)
    ensures !Contains(query, "&") ==>
      r == (if query != "" && PairName(query) == key then Some(PairValue(query)) else None)
    decreases |query|
  {
    var amp := IndexOf(query, "&");
    var piece := if amp.Some? then query[..amp.value] else query;
    if piece != "" && PairName(piece) == key then Some(PairValue(piece))
    else if amp.None? then None
    else QueryParam(query[amp.value + 1..], key)
  }

  /** The first `&` of `a + "&" + b` is the one after `a` when `a` holds
      none: the pair `a` is looked at first, and `b` only when it misses. */
  lemma {:induction false} QueryParamSplit(a: string, b: string, key: string)
    requires !Contains(a, "&")
    ensures QueryParam(a + "&" + b, key) ==
      (if a != "" && PairName(a) == key then Some(PairValue(a)) else QueryParam(b, key))
  {
    var q := a + "&" + b;
    assert q[|a|..|a| + 1] == "&";
    assert OccursAt(q, "&", |a|);
    forall j: nat | j < |a|
      ensures !OccursAt(q, "&", j)
    {
      assert !OccursAt(a, "&", j);
      if j + 1 <= |q| {
        assert q[j..j + 1] == [q[j]];
        assert a[j..j + 1] == [a[j]];
      }
    }
    assert IndexOf(q, "&") == Some(|a|);
    assert q[..|a|] == a;
    assert q[|a| + 1..] == b;
  }

  function TokenOf(url: string): Option<string> {
    QueryParam(QueryOf(url), "token")
  }

  /** What the upgrade handler does with a request: leave it unanswered
      because parsing the URL threw, answer `401 Unauthorized` and destroy
      the socket, or hand the socket to the WebSocket server for the
      document named by the URL. */
  datatype Decision = Throws | Reject401 | Admit(docName: string)

  /** The upgrade listener. `urlParses` is the verdict of `new URL` on the
      request target against `http://` and the Host header: a malformed host
      makes it throw before any answer is written, and nothing catches the
      exception inside the listener. */
  function Upgrade(url: string, urlParses: bool, tokenVerifies: bool): (r: Decision)
    ensures r.Throws? <==> !urlParses
    ensures r.Admit? <==> urlParses && TokenOf(url).Some? && TokenOf(url).value != "" && tokenVerifies
    ensures r.Admit? ==> r.docName == DocName(url)
  {
    var token := TokenOf(url);
    if !urlParses then Throws
    else if token.None? || token.value == "" then Reject401
    else if !tokenVerifies then Reject401
    else Admit(DocName(url))
  }

  /** Characters a slug can hold (the output alphabet of slug generation). */
  predicate SlugSafe(s: string) {
    forall i :: 0 <= i < |s| ==> s[i] == '-' || 'a' <= s[i] <= 'z' || '0' <= s[i] <= '9'
  }

  /** Characters of a signed token (base64url segments joined by dots). */
  predicate TokenSafe(t: string) {
    forall i :: 0 <= i < |t| ==>
      t[i] in "-_." || 'a' <= t[i] <= 'z' || 'A' <= t[i] <= 'Z' || '0' <= t[i] <= '9'
  }
}
