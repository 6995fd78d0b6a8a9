/**
 * The HTTP reverse proxy: builds the upstream request from the inbound one,
 * and rewrites the upstream response so that the WebSocket debugger URLs it
 * carries point back at the proxy.
 */
module ReverseProxy {

  import opened Wrappers
  import opened Decimal
  import opened Utf8
  import opened Replace
  import opened Headers

  /** Index of the first `c` in `s`, if any. */
  function IndexOf(s: string, c: char): (r: Option<nat>)
    ensures r.None? ==> c !in s
    ensures r.Some? ==> r.value < |s| && s[r.value] == c && c !in s[..r.value]
  {
    if s == [] then None
    else if s[0] == c then Some(0)
    else match IndexOf(s[1..], c)
      case None => None
      case Some(i) =>
        assert s[..i + 1] == [s[0]] + s[1..][..i];
        Some(i + 1)
  }

  /** The upstream base URL, `http://<remote>`. */
  function RemoteUrl(remote: string): string {
    "http://" + remote
  }

  /** The path followed by `?query` when the query is not empty. */
  function WithQuery(path: string, query: string): string {
    path + (if query == "" then "" else "?" + query)
  }

  /**
   * The upstream URL: base, path, and `?query` only when the query is not
   * empty; the URL is longer than base and path exactly when a query follows
   * them, and then a '?' separates it.
   */
  function TargetUrl(remote: string, path: string, query: string): (url: string)
    ensures |url| >= |RemoteUrl(remote)| + |path|
    ensures url[..|RemoteUrl(remote)|] == RemoteUrl(remote)
    ensures url[|RemoteUrl(remote)|..][..|path|] == path
    ensures |url| == |RemoteUrl(remote)| + |path| <==> query == ""
    ensures query != "" ==> url[|RemoteUrl(remote)| + |path|] == '?'
  {
    RemoteUrl(remote) + WithQuery(path, query)
  }

  /**
   * Splits at the first '?': the path before it, the query after it; text
   * ending in a bare '?' is not one the proxy builds.
   */
  function SplitQuery(rest: string): Option<(string, string)> {
    match IndexOf(rest, '?')
    case None => Some((rest, ""))
    case Some(i) => if i + 1 == |rest| then None else Some((rest[..i], rest[i + 1..]))
  }

  /** Reads a path and a query back from an upstream URL. */
  function ParseTarget(remote: string, url: string): Option<(string, string)> {
    var base := RemoteUrl(remote);
    if |url| < |base| || url[..|base|] != base then None else SplitQuery(url[|base|..])
  }

  lemma SplitQueryOfWithQuery(path: string, query: string)
    requires '?' !in path
    ensures SplitQuery(WithQuery(path, query)) == Some((path, query))
  {
    var rest := WithQuery(path, query);
    if query == "" {
      assert rest == path;
    } else {
      assert rest[|path|] == '?' && rest[..|path|] == path;
      assert rest[|path| + 1..] == query;
    }
  }

  lemma WithQueryOfSplitQuery(rest: string)
    requires SplitQuery(rest).Some?
    ensures var (path, query) := SplitQuery(rest).value;
      rest == WithQuery(path, query) && '?' !in path
  {
    match IndexOf(rest, '?')
    case None =>
      assert rest + "" == rest;
    case Some(i) =>
      assert rest == rest[..i] + [rest[i]] + rest[i + 1..];
  }

  /** The URL built from a path without '?' reads back as that path and query. */
  lemma TargetUrlReadBack(remote: string, path: string, query: string)
    requires '?' !in path
    ensures ParseTarget(remote, TargetUrl(remote, path, query)) == Some((path, query))
  {
    var base, url := RemoteUrl(remote), TargetUrl(remote, path, query);
    assert url[..|base|] == base && url[|base|..] == WithQuery(path, query);
    SplitQueryOfWithQuery(path, query);
  }

  /** Whatever reads back as (path, query) is the URL built from them. */
  lemma ParseTargetBuilds(remote: string, url: string)
    requires ParseTarget(remote, url).Some?
    ensures var (path, query) := ParseTarget(remote, url).value;
      url == TargetUrl(remote, path, query) && '?' !in path
  {
    var base := RemoteUrl(remote);
    var rest := url[|base|..];
    assert url[..|base|] == base;
    assert ParseTarget(remote, url) == SplitQuery(rest);
    WithQueryOfSplitQuery(rest);
    PrefixAndRest(url, base);
  }

  lemma PrefixAndRest(url: string, base: string)
    requires |base| <= |url| && url[..|base|] == base
    ensures url == base + url[|base|..]
  {
  }

  /**
   * A URL is read back as (path, query) exactly when it is the URL built from
   * them and the path holds no '?'.
   */
  lemma TargetUrlParse(remote: string, path: string, query: string, url: string)
    ensures ParseTarget(remote, url) == Some((path, query))
        <==> url == TargetUrl(remote, path, query) && '?' !in path
  {
    if url == TargetUrl(remote, path, query) && '?' !in path {
      TargetUrlReadBack(remote, path, query);
    }
    if ParseTarget(remote, url) == Some((path, query)) {
      ParseTargetBuilds(remote, url);
    }
  }

  /** A request as the proxy receives it, the query without its '?'. */
  datatype InboundRequest = InboundRequest(
    verb: string, path: string, query: string, headers: seq<Header>, body: seq<byte>)

  /** The request sent to the remote debug HTTP API. */
  datatype OutboundRequest = OutboundRequest(
    verb: string, url: string, headers: map<string, string>, body: seq<byte>)

  /** The request sent upstream: same verb and body, new URL, no host header. */
  function ForwardRequest(remote: string, req: InboundRequest): (out: OutboundRequest)
    ensures out.verb == req.verb && out.body == req.body
    ensures ParseTarget(remote, out.url) == Some((req.path, req.query)) <==> '?' !in req.path
    ensures out.headers == ForwardHeaders(req.headers)
    ensures forall k :: k in out.headers ==> Lower(k) != "host"
  {
    TargetUrlParse(remote, req.path, req.query, TargetUrl(remote, req.path, req.query));
    OutboundRequest(req.verb, TargetUrl(remote, req.path, req.query),
                    ForwardHeaders(req.headers), req.body)
  }

  /** The encoded `ws://<address>/devtools` that debugger URLs start with. */
  function WsBase(address: string): (bs: seq<byte>)
    ensures |bs| > 0
  {
    Encode("ws://" + address + "/devtools")
  }

  /** Two addresses give the same URL prefix only if they are the same address. */
  lemma WsBaseInjective(a: string, b: string)
    requires WsBase(a) == WsBase(b)
    ensures a == b
  {
    EncodeInjective("ws://" + a + "/devtools", "ws://" + b + "/devtools");
    var s, t := "ws://" + a + "/devtools", "ws://" + b + "/devtools";
    assert a == s[5..|s| - 9];
    assert b == t[5..|t| - 9];
  }

  /**
   * The body with every remote debugger URL prefix swapped for the listen
   * one. Prefixes of the same encoded length keep the body length; a shorter
   * listen prefix never lengthens the body.
   */
  function RewriteBody(remote: string, listen: string, raw: seq<byte>): (body: seq<byte>)
    ensures |WsBase(listen)| == |WsBase(remote)| ==> |body| == |raw|
    ensures |WsBase(listen)| <= |WsBase(remote)| ==> |body| <= |raw|
  {
    ReplaceAll(raw, WsBase(remote), WsBase(listen))
  }

  /** A body that mentions no remote debugger URL passes through untouched. */
  lemma RewriteBodyNoMatch(remote: string, listen: string, raw: seq<byte>)
    requires NoMatch(raw, WsBase(remote))
    ensures RewriteBody(remote, listen, raw) == raw
  {
    ReplaceNoMatch(raw, WsBase(remote), WsBase(listen));
  }

  /**
   * Split at the occurrences a left-to-right scan finds, the body keeps every
   * piece between them and gets the listen prefix in place of each.
   */
  lemma RewriteBodyPieces(remote: string, listen: string, pieces: seq<seq<byte>>)
    requires SplitsAtMatches(pieces, WsBase(remote))
    ensures RewriteBody(remote, listen, Join(pieces, WsBase(remote))) == Join(pieces, WsBase(listen))
  {
    ReplaceJoin(pieces, WsBase(remote), WsBase(listen));
  }

  /**
   * One debugger URL `ws://<remote>/devtools<tail>` inside an otherwise
   * unrelated body becomes `ws://<listen>/devtools<tail>`.
   */
  lemma RewriteOneUrl(remote: string, listen: string, before: seq<byte>, after: seq<byte>)
    requires NoMatchBefore(before + WsBase(remote), WsBase(remote), |before|)
    requires NoMatch(after, WsBase(remote))
    ensures RewriteBody(remote, listen, before + WsBase(remote) + after)
         == before + WsBase(listen) + after
  {
    var pieces := [before, after];
    assert pieces[1..] == [after];
    assert SplitsAtMatches(pieces, WsBase(remote));
    RewriteBodyPieces(remote, listen, pieces);
  }

  /** With the proxy listening where the browser does, nothing is rewritten. */
  lemma RewriteSameAddress(address: string, raw: seq<byte>)
    ensures RewriteBody(address, address, raw) == raw
  {
    ReplaceWithItself(raw, WsBase(address));
  }

  datatype UpstreamResponse = UpstreamResponse(status: int, headers: seq<Header>, body: seq<byte>)

  datatype ProxiedResponse = ProxiedResponse(status: int, headers: map<string, string>, body: seq<byte>)

  /**
   * The response returned to the client: the upstream status, the rewritten
   * body, and the upstream headers with the content length recomputed. The
   * headers are the corrected ones of `ResponseHeaders`: the one
   * content-length key is "Content-Length", whatever the upstream spelling.
   */
  function RewriteResponse(remote: string, listen: string, up: UpstreamResponse): (r: ProxiedResponse)
    ensures r.status == up.status
    ensures r.body == RewriteBody(remote, listen, up.body)
    ensures ContentLength in r.headers && ParseDecimal(r.headers[ContentLength]) == Some(|r.body|)
    ensures forall k :: k in r.headers && Lower(k) == Lower(ContentLength) ==> k == ContentLength
    ensures forall k :: Lower(k) != Lower(ContentLength) ==> (k in r.headers <==> HasName(up.headers, k))
    ensures forall k :: k in r.headers && Lower(k) != Lower(ContentLength) ==>
              LookupCI(up.headers, k) == Some(r.headers[k])
    ensures NoMatch(up.body, WsBase(remote)) ==> r.body == up.body
  {
    var body := RewriteBody(remote, listen, up.body);
    assert NoMatch(up.body, WsBase(remote)) ==> body == up.body by {
      if NoMatch(up.body, WsBase(remote)) {
        RewriteBodyNoMatch(remote, listen, up.body);
      }
    }
    ProxiedResponse(up.status, ResponseHeaders(up.headers, |body|), body)
  }

  /** What a forwarded request ends in: a response, or an upstream error the server turns into a 500. */
  datatype ProxyOutcome = Relayed(response: ProxiedResponse) | UpstreamFailed

  /**
   * One proxied request; `upstream` stands for the remote debug HTTP API,
   * answering a request or failing to (None).
   */
  function Proxy(remote: string, listen: string, req: InboundRequest,
                 upstream: OutboundRequest -> Option<UpstreamResponse>): (r: ProxyOutcome)
    ensures r.UpstreamFailed? <==> upstream(ForwardRequest(remote, req)).None?
    ensures r.Relayed? ==>
      r.response == RewriteResponse(remote, listen, upstream(ForwardRequest(remote, req)).value)
    ensures r.Relayed? ==>
      var up := upstream(ForwardRequest(remote, req)).value;
      && r.response.status == up.status
      && r.response.body == RewriteBody(remote, listen, up.body)
      && ContentLength in r.response.headers
      && ParseDecimal(r.response.headers[ContentLength]) == Some(|r.response.body|)
  {
    match upstream(ForwardRequest(remote, req))
    case None => UpstreamFailed
    case Some(up) => Relayed(RewriteResponse(remote, listen, up))
  }
}
