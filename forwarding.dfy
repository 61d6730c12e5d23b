/** Construction of the outbound requests in `reverse_proxy`: one request per
    discovered endpoint, to `endpoint + path`, with the inbound method, body
    and cookies, and the inbound headers minus "Host".

    The headers are gathered by a dict comprehension, so they form a Python
    dict: an insertion-ordered association list in which a repeated key keeps
    the position of its first insertion and takes the value of its last. */
module Forwarding {
  import opened Http

  /** The parts of the inbound Flask request the proxy reads. */
  datatype Inbound = Inbound(
    httpMethod: string,
    path: string,
    headers: seq<Header>,
    body: seq<byte>,
    cookies: map<string, string>)

  /** The arguments of one outbound `async_request` call. */
  datatype Outbound = Outbound(
    httpMethod: string,
    url: string,
    headers: seq<Header>,
    data: seq<byte>,
    cookies: map<string, string>)

  // ---------- a Python dict of headers, as an association list ----------

  /** `d.get(k)`: the value stored under `k`, if any. */
  function Get(d: seq<Header>, k: string): (r: Option<string>)
    ensures r.None? <==> forall i :: 0 <= i < |d| ==> d[i].0 != k
    ensures r.Some? ==> exists i :: 0 <= i < |d| && d[i] == (k, r.value)
  {
    if d == [] then None
    else if d[0].0 == k then Some(d[0].1)
    else
      var r := Get(d[1..], k);
      assert forall i :: 0 < i < |d| ==> d[i] == d[1..][i - 1];
      r
  }

  /** No key occurs twice, as in every dict. */
  ghost predicate DistinctKeys(d: seq<Header>)
  {
    forall i, j :: 0 <= i < j < |d| ==> d[i].0 != d[j].0
  }

  /** The position of the entry holding `k`: the first one with that key. */
  function IndexOf(d: seq<Header>, k: string): (i: nat)
    requires Get(d, k).Some?
    ensures i < |d| && d[i].0 == k
    ensures forall j :: 0 <= j < i ==> d[j].0 != k
  {
    if d[0].0 == k then 0
    else
      assert forall i :: 0 < i < |d| ==> d[i] == d[1..][i - 1];
      1 + IndexOf(d[1..], k)
  }

  /** `d[k] = v`: overwrite in place when `k` is present, append otherwise. */
  function Put(d: seq<Header>, k: string, v: string): (r: seq<Header>)
    ensures Get(r, k) == Some(v)
    ensures forall k' :: k' != k ==> Get(r, k') == Get(d, k')
    ensures Get(d, k).None? ==> r == d + [(k, v)]
    ensures Get(d, k).Some? ==> r == d[IndexOf(d, k) := (k, v)]
  {
    if d == [] then [(k, v)]
    else if d[0].0 == k then [(k, v)] + d[1..]
    else
      var tail := d[1..];
      var rest := Put(tail, k, v);
      assert forall i :: 0 < i < |d| ==> d[i] == tail[i - 1];
      [d[0]] + rest
  }

  /** Storing a key keeps a dict free of repeated keys. */
  lemma {:induction false} PutKeepsKeysDistinct(d: seq<Header>, k: string, v: string)
    requires DistinctKeys(d)
    ensures DistinctKeys(Put(d, k, v))
  {
    if d != [] && d[0].0 != k {
      var tail := d[1..];
      assert forall i :: 0 <= i < |tail| ==> tail[i] == d[i + 1];
      PutKeepsKeysDistinct(tail, k, v);
      var rest := Put(tail, k, v);
      assert Get(tail, d[0].0).None?;
      assert Get(rest, d[0].0).None?;
      var r := [d[0]] + rest;
      assert forall j :: 0 < j < |r| ==> r[j] == rest[j - 1];
    }
  }

  // ---------- the header comprehension ----------

  /** `{key: value for (key, value) in headers if key != "Host"}`,
      evaluated pair by pair from the first to the last. */
  function ForwardedHeaders(headers: seq<Header>): (d: seq<Header>)
    ensures Get(d, "Host").None?
    ensures DistinctKeys(d)
  {
    if headers == [] then []
    else
      var d := ForwardedHeaders(headers[..|headers| - 1]);
      var (k, v) := headers[|headers| - 1];
      if k != "Host" then PutKeepsKeysDistinct(d, k, v); Put(d, k, v) else d
  }

  /** The value of the last pair whose key is `k`. */
  function LastValue(headers: seq<Header>, k: string): Option<string>
  {
    if headers == [] then None
    else if headers[|headers| - 1].0 == k then Some(headers[|headers| - 1].1)
    else LastValue(headers[..|headers| - 1], k)
  }

  /** The inbound pairs without those keyed exactly "Host", in their order. */
  function WithoutHost(headers: seq<Header>): (r: seq<Header>)
    ensures forall p :: p in r <==> p in headers && p.0 != "Host"
  {
    if headers == [] then []
    else
      var prefix := headers[..|headers| - 1];
      var last := headers[|headers| - 1];
      assert headers == prefix + [last];
      WithoutHost(prefix) + (if last.0 != "Host" then [last] else [])
  }

  /** The forwarded dict has no "Host" entry, and every other key that occurs
      inbound is forwarded with the last value it was sent with. */
  lemma {:induction false} ForwardedLookup(headers: seq<Header>, k: string)
    ensures Get(ForwardedHeaders(headers), k) == if k == "Host" then None else LastValue(headers, k)
  {
    if headers != [] {
      ForwardedLookup(headers[..|headers| - 1], k);
    }
  }

  /** When no header name repeats (as in a WSGI environ), the forwarded
      headers are exactly the inbound pairs other than "Host", each with its
      value unchanged and in its original order. */
  lemma {:induction false} ForwardedKeepsOrder(headers: seq<Header>)
    requires DistinctKeys(headers)
    ensures ForwardedHeaders(headers) == WithoutHost(headers)
  {
    if headers != [] {
      var prefix := headers[..|headers| - 1];
      var (k, v) := headers[|headers| - 1];
      assert DistinctKeys(prefix);
      ForwardedKeepsOrder(prefix);
      if k != "Host" {
        forall i | 0 <= i < |WithoutHost(prefix)|
          ensures WithoutHost(prefix)[i].0 != k
        {
          var p := WithoutHost(prefix)[i];
          assert p in prefix;
          var j :| 0 <= j < |prefix| && prefix[j] == p;
          assert headers[j] == p;
        }
      }
    }
  }

  // ---------- outbound URL and requests ----------

  /** `f"{endpoint}{path}"`: the endpoint followed directly by the path. */
  function OutboundUrl(endpoint: string, path: string): (url: string)
    ensures |url| == |endpoint| + |path|
    ensures url[..|endpoint|] == endpoint && url[|endpoint|..] == path
  {
    endpoint + path
  }

  /** The request sent to one endpoint. */
  function RequestFor(endpoint: string, inbound: Inbound): (r: Outbound)
    ensures r.httpMethod == inbound.httpMethod
    ensures |r.url| == |endpoint| + |inbound.path|
    ensures r.url[..|endpoint|] == endpoint && r.url[|endpoint|..] == inbound.path
    ensures r.data == inbound.body && r.cookies == inbound.cookies
    ensures Get(r.headers, "Host").None? && DistinctKeys(r.headers)
  {
    Outbound(
      inbound.httpMethod,
      OutboundUrl(endpoint, inbound.path),
      ForwardedHeaders(inbound.headers),
      inbound.body,
      inbound.cookies)
  }

  /** What one outbound request carries, in terms of the inbound request. */
  lemma RequestForForwards(endpoint: string, inbound: Inbound)
    ensures RequestFor(endpoint, inbound).httpMethod == inbound.httpMethod
    ensures RequestFor(endpoint, inbound).url == endpoint + inbound.path
    ensures RequestFor(endpoint, inbound).data == inbound.body
    ensures RequestFor(endpoint, inbound).cookies == inbound.cookies
    ensures forall i :: 0 <= i < |RequestFor(endpoint, inbound).headers| ==>
      RequestFor(endpoint, inbound).headers[i].0 != "Host"
    ensures forall k :: k != "Host" ==>
      Get(RequestFor(endpoint, inbound).headers, k) == LastValue(inbound.headers, k)
    ensures DistinctKeys(inbound.headers) ==>
      RequestFor(endpoint, inbound).headers == WithoutHost(inbound.headers)
  {
    forall k | k != "Host"
      ensures Get(ForwardedHeaders(inbound.headers), k) == LastValue(inbound.headers, k)
    {
      ForwardedLookup(inbound.headers, k);
    }
    if DistinctKeys(inbound.headers) {
      ForwardedKeepsOrder(inbound.headers);
    }
  }

  /** The loop over the endpoints that builds one request per endpoint,
      in endpoint order. */
  method BuildRequests(endpoints: seq<string>, inbound: Inbound) returns (requests: seq<Outbound>)
    ensures |requests| == |endpoints|
    ensures forall k :: 0 <= k < |endpoints| ==> requests[k] == RequestFor(endpoints[k], inbound)
  {
    requests := [];
    for i := 0 to |endpoints|
      invariant |requests| == i
      invariant forall k :: 0 <= k < i ==> requests[k] == RequestFor(endpoints[k], inbound)
    {
      var url := OutboundUrl(endpoints[i], inbound.path);
      var headers := ForwardedHeaders(inbound.headers);
      requests := requests + [Outbound(inbound.httpMethod, url, headers, inbound.body, inbound.cookies)];
    }
  }
}
