/**
 * HTTP header handling of the reverse proxy: the request headers forwarded
 * upstream and the response headers returned to the client.
 */
module Headers {

  import opened Wrappers
  import opened Decimal

  /** One header line, name and value, in the order the peer sent them. */
  type Header = (string, string)

  function LowerChar(c: char): char {
    if 'A' <= c <= 'Z' then (c as int + 32) as char else c
  }

  /** `str.lower()` on the ASCII letters. */
  function Lower(s: string): string {
    seq(|s|, i requires 0 <= i < |s| => LowerChar(s[i]))
  }

  /** Some entry of `hs` is named exactly `k`. */
  predicate HasName(hs: seq<Header>, k: string) {
    exists i :: 0 <= i < |hs| && hs[i].0 == k
  }

  /** The entry at `i` is the last one named `hs[i].0`. */
  predicate LastNamed(hs: seq<Header>, i: int) {
    0 <= i < |hs| && forall j :: i < j < |hs| ==> hs[j].0 != hs[i].0
  }

  /**
   * The headers sent upstream: every inbound entry whose lowercased name is
   * not "host", collected into a dictionary, a later entry overwriting an
   * earlier one of the same name.
   */
  function ForwardHeaders(hs: seq<Header>): (m: map<string, string>)
    ensures forall k :: k in m <==> Lower(k) != "host" && HasName(hs, k)
    ensures forall k :: k in m ==> exists i :: LastNamed(hs, i) && hs[i] == (k, m[k])
  {
    if hs == [] then map[]
    else
      var init := hs[..|hs| - 1];
      var m0 := ForwardHeaders(init);
      var (k, v) := hs[|hs| - 1];
      assert forall i :: 0 <= i < |init| ==> init[i] == hs[i];
      assert forall k' :: HasName(hs, k') ==> HasName(init, k') || k' == k;
      assert forall i :: LastNamed(init, i) && init[i].0 != k ==> LastNamed(hs, i);
      assert LastNamed(hs, |hs| - 1);
      if Lower(k) == "host" then m0 else m0[k := v]
  }

  /**
   * The value a case-insensitive multidict gives for `name`: that of the
   * first entry whose name matches ignoring case.
   */
  function LookupCI(hs: seq<Header>, name: string): Option<string> {
    if hs == [] then None
    else if Lower(hs[0].0) == Lower(name) then Some(hs[0].1)
    else LookupCI(hs[1..], name)
  }

  lemma {:induction false} LookupCIFound(hs: seq<Header>, i: int)
    requires 0 <= i < |hs|
    ensures LookupCI(hs, hs[i].0).Some?
    decreases i
  {
    if i > 0 && Lower(hs[0].0) != Lower(hs[i].0) {
      LookupCIFound(hs[1..], i - 1);
    }
  }

  /**
   * `dict(resp.headers)`: one key per distinct name as spelt upstream, each
   * mapped to the first value whose name matches it ignoring case.
   */
  function UpstreamDict(hs: seq<Header>): (m: map<string, string>)
    ensures forall k :: k in m <==> HasName(hs, k)
    ensures forall k :: k in m ==> LookupCI(hs, k) == Some(m[k])
  {
    var names := set i | 0 <= i < |hs| :: hs[i].0;
    forall i | 0 <= i < |hs| {
      LookupCIFound(hs, i);
    }
    map k | k in names :: LookupCI(hs, k).value
  }

  const ContentLength := "Content-Length"

  /**
   * The response headers as the proxy builds them: the upstream dictionary
   * with the key "Content-Length" set to the decimal length of the body.
   * Every other key keeps its upstream value. The key is matched
   * case-sensitively, so an upstream "content-length" stays beside it with
   * its old value.
   */
  function ResponseHeadersAsWritten(upstream: seq<Header>, bodyLength: nat): (m: map<string, string>)
    ensures ContentLength in m && ParseDecimal(m[ContentLength]) == Some(bodyLength)
    ensures forall k :: k != ContentLength ==> (k in m <==> HasName(upstream, k))
    ensures forall k :: k in m && k != ContentLength ==> LookupCI(upstream, k) == Some(m[k])
  {
    ParseNatToDecimal(bodyLength);
    UpstreamDict(upstream)[ContentLength := NatToDecimal(bodyLength)]
  }

  /** An upstream "content-length: 5" survives next to the recomputed value. */
  lemma StaleContentLengthKept()
    ensures var m := ResponseHeadersAsWritten([("content-length", "5")], 7);
      && "content-length" in m && m["content-length"] == "5"
      && m[ContentLength] == "7"
      && Lower("content-length") == Lower(ContentLength)
  {
    var hs: seq<Header> := [("content-length", "5")];
    assert hs[0].0 == "content-length";
    assert LookupCI(hs, "content-length") == Some("5");
    assert NatToDecimal(7) == [DigitChar(7)];
  }

  /**
   * The response headers with the length recomputed case-insensitively:
   * every upstream key that names the content length is dropped before
   * "Content-Length" is set.
   */
  function ResponseHeaders(upstream: seq<Header>, bodyLength: nat): (m: map<string, string>)
    ensures ContentLength in m && ParseDecimal(m[ContentLength]) == Some(bodyLength)
    ensures forall k :: k in m && Lower(k) == Lower(ContentLength) ==> k == ContentLength
    ensures forall k :: Lower(k) != Lower(ContentLength) ==> (k in m <==> HasName(upstream, k))
    ensures forall k :: k in m && Lower(k) != Lower(ContentLength) ==> LookupCI(upstream, k) == Some(m[k])
  {
    ParseNatToDecimal(bodyLength);
    var d := UpstreamDict(upstream);
    var kept := map k | k in d && Lower(k) != Lower(ContentLength) :: d[k];
    kept[ContentLength := NatToDecimal(bodyLength)]
  }
}
