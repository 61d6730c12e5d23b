/** Endpoint discovery in `get_heroku_endpoints`, over the already-decoded
    list of review apps of the pipeline and the finished detail lookups.

    1. One `GET https://api.heroku.com/apps/{id}` lookup is planned per review
       app whose "app" is not null; review apps still waiting for their app
       are skipped.
    2. The finished lookups are scanned in the order `asyncio.wait` hands them
       back: a lookup that raised is skipped; a completed one contributes the
       `web_url` of its decoded body. Decoding the body and indexing it with
       "web_url" run outside the `try` that guards `task.result()`, so a body
       without a `web_url` aborts the whole discovery. */
module Discovery {
  import opened Http

  datatype AppRef = AppRef(id: string)

  /** A review-app record; only its "app" member is read. */
  datatype ReviewApp = ReviewApp(app: Option<AppRef>)

  /** The method, URL and headers of one control-plane call. */
  datatype ApiRequest = ApiRequest(httpMethod: string, url: string, headers: seq<Header>)

  /** The error that escapes discovery when a completed lookup's body has no
      `web_url`; it carries the URL of that lookup. */
  datatype DiscoveryError = MissingWebUrl(url: string)

  const ApiRoot := "https://api.heroku.com"

  /** The headers sent with every control-plane call. */
  function ApiHeaders(apiKey: string): (h: seq<Header>)
    ensures |h| == 2 && h[0].0 == "Accept" && h[1].0 == "Authorization"
    ensures h[0].1 == "application/vnd.heroku+json; version=3"
    ensures |h[1].1| == 7 + |apiKey| && h[1].1[..7] == "Bearer " && h[1].1[7..] == apiKey
  {
    [("Accept", "application/vnd.heroku+json; version=3"), ("Authorization", "Bearer " + apiKey)]
  }

  /** The detail lookup for one application. */
  function AppDetailRequest(appId: string, apiKey: string): (r: ApiRequest)
    ensures r.httpMethod == "GET" && r.headers == ApiHeaders(apiKey)
    ensures |r.url| == |ApiRoot| + 6 + |appId|
    ensures r.url[..|ApiRoot| + 6] == "https://api.heroku.com/apps/"
    ensures r.url[|ApiRoot| + 6..] == appId
  {
    ApiRequest("GET", ApiRoot + "/apps/" + appId, ApiHeaders(apiKey))
  }

  // ---------- step 1: which review apps are looked up ----------

  /** The ids of the deployed apps, in record order. */
  function DeployedAppIds(records: seq<ReviewApp>): (ids: seq<string>)
    ensures |ids| <= |records|
    ensures forall id :: id in ids <==> exists i :: 0 <= i < |records| && records[i].app == Some(AppRef(id))
  {
    if records == [] then []
    else
      var prefix := records[..|records| - 1];
      var last := records[|records| - 1];
      assert forall i :: 0 <= i < |prefix| ==> prefix[i] == records[i];
      DeployedAppIds(prefix) + (match last.app case None => [] case Some(a) => [a.id])
  }

  /** The ids of a concatenation are the ids of each part, concatenated. */
  lemma {:induction false} DeployedAppIdsConcat(a: seq<ReviewApp>, b: seq<ReviewApp>)
    ensures DeployedAppIds(a + b) == DeployedAppIds(a) + DeployedAppIds(b)
  {
    if b == [] {
      assert a + b == a;
    } else {
      var prefix := b[..|b| - 1];
      assert (a + b)[..|a + b| - 1] == a + prefix;
      assert (a + b)[|a + b| - 1] == b[|b| - 1];
      DeployedAppIdsConcat(a, prefix);
    }
  }

  /** A record whose app is null yields no lookup; any other record yields
      exactly one, for its app id, in its place among the others. */
  lemma OneLookupPerDeployedRecord(before: seq<ReviewApp>, r: ReviewApp, after: seq<ReviewApp>)
    ensures DeployedAppIds(before + [r] + after) ==
      DeployedAppIds(before) + (if r.app.Some? then [r.app.value.id] else []) + DeployedAppIds(after)
  {
    DeployedAppIdsConcat(before + [r], after);
    DeployedAppIdsConcat(before, [r]);
    assert [r][..0] == [];
  }

  /** The loop that creates the lookup tasks. */
  method PlanLookups(records: seq<ReviewApp>, apiKey: string) returns (lookups: seq<ApiRequest>)
    ensures |lookups| == |DeployedAppIds(records)|
    ensures forall k :: 0 <= k < |lookups| ==>
      lookups[k] == AppDetailRequest(DeployedAppIds(records)[k], apiKey)
  {
    lookups := [];
    for i := 0 to |records|
      invariant |lookups| == |DeployedAppIds(records[..i])|
      invariant forall k :: 0 <= k < |lookups| ==>
        lookups[k] == AppDetailRequest(DeployedAppIds(records[..i])[k], apiKey)
    {
      assert records[..i + 1][..i] == records[..i];
      match records[i].app {
        case None =>
          continue;
        case Some(app) =>
          lookups := lookups + [AppDetailRequest(app.id, apiKey)];
      }
    }
    assert records[..|records|] == records;
  }

  // ---------- step 2: collecting the web URLs ----------

  /** Whether a finished lookup makes discovery raise, given how bodies
      decode to a `web_url`. */
  predicate Aborts(t: TaskResult, webUrlOf: seq<byte> -> Option<string>)
  {
    t.Completed? && webUrlOf(t.response.content).None?
  }

  /** Whether a finished lookup contributes the endpoint `url`. */
  predicate Yields(t: TaskResult, webUrlOf: seq<byte> -> Option<string>, url: string)
  {
    t.Completed? && webUrlOf(t.response.content) == Some(url)
  }

  /** The reference list: the `web_url` of every completed lookup, one per
      lookup, in scan order. */
  function WebUrls(finished: seq<TaskResult>, webUrlOf: seq<byte> -> Option<string>): seq<string>
  {
    if finished == [] then []
    else
      var here := if finished[0].Completed? && webUrlOf(finished[0].response.content).Some?
                  then [webUrlOf(finished[0].response.content).value] else [];
      here + WebUrls(finished[1..], webUrlOf)
  }

  /** The endpoints the scan collects, or the error that escapes it. */
  function Endpoints(finished: seq<TaskResult>, webUrlOf: seq<byte> -> Option<string>): (r: Result<seq<string>, DiscoveryError>)
    ensures r.Ok? <==> forall i :: 0 <= i < |finished| ==> !Aborts(finished[i], webUrlOf)
    ensures r.Ok? ==> r.value == WebUrls(finished, webUrlOf)
    ensures r.Ok? ==> |r.value| <= |finished|
    ensures r.Ok? ==> forall url :: url in r.value <==>
      exists i :: 0 <= i < |finished| && Yields(finished[i], webUrlOf, url)
    ensures r.Err? ==> exists i :: (0 <= i < |finished| && Aborts(finished[i], webUrlOf)
                                    && r.error == MissingWebUrl(finished[i].response.url))
  {
    if finished == [] then Ok([])
    else
      var rest := Endpoints(finished[1..], webUrlOf);
      assert forall i :: 0 < i < |finished| ==> finished[i] == finished[1..][i - 1];
      match finished[0]
      case Raised => rest
      case Completed(response) =>
        match webUrlOf(response.content)
        case None => Err(MissingWebUrl(response.url))
        case Some(url) => if rest.Err? then rest else Ok([url] + rest.value)
  }

  /** Joins the outcomes of two consecutive stretches of the scan: the first
      error wins, otherwise the endpoints are concatenated. */
  function Then(first: Result<seq<string>, DiscoveryError>, second: Result<seq<string>, DiscoveryError>): Result<seq<string>, DiscoveryError>
  {
    if first.Err? then first
    else if second.Err? then second
    else Ok(first.value + second.value)
  }

  /** Scanning a concatenation is scanning each part in turn. */
  lemma {:induction false} EndpointsConcat(a: seq<TaskResult>, b: seq<TaskResult>, webUrlOf: seq<byte> -> Option<string>)
    ensures Endpoints(a + b, webUrlOf) == Then(Endpoints(a, webUrlOf), Endpoints(b, webUrlOf))
  {
    if a == [] {
      assert a + b == b;
      var rb := Endpoints(b, webUrlOf);
      assert rb.Ok? ==> [] + rb.value == rb.value;
    } else {
      assert (a + b)[0] == a[0];
      assert (a + b)[1..] == a[1..] + b;
      EndpointsConcat(a[1..], b, webUrlOf);
      var ra, rb := Endpoints(a[1..], webUrlOf), Endpoints(b, webUrlOf);
      if ra.Ok? && rb.Ok? {
        assert forall url: string :: [url] + (ra.value + rb.value) == ([url] + ra.value) + rb.value;
      }
    }
  }

  /** A lookup that raised drops only its own endpoint. */
  lemma RaisedLookupDropsOnlyItself(before: seq<TaskResult>, after: seq<TaskResult>, webUrlOf: seq<byte> -> Option<string>)
    ensures Endpoints(before + [Raised] + after, webUrlOf) == Endpoints(before + after, webUrlOf)
  {
    EndpointsConcat(before + [Raised], after, webUrlOf);
    EndpointsConcat(before, [Raised], webUrlOf);
    EndpointsConcat(before, after, webUrlOf);
    assert [Raised][1..] == [];
    assert Endpoints([Raised], webUrlOf) == Ok([]);
    var e := Endpoints(before, webUrlOf);
    assert e.Ok? ==> e.value + [] == e.value;
  }

  /** Splits a sequence around one occurrence of `x`. */
  lemma SplitAt<T>(s: seq<T>, x: T) returns (left: seq<T>, right: seq<T>)
    requires x in multiset(s)
    ensures s == left + [x] + right
    ensures multiset(left + right) == multiset(s) - multiset{x}
  {
    var j :| 0 <= j < |s| && s[j] == x;
    left, right := s[..j], s[j + 1..];
    assert s == left + [x] + right;
  }

  /** Whatever order the lookups finish in, discovery succeeds or fails alike. */
  lemma EndpointsSucceedAnyOrder(finished: seq<TaskResult>, reordered: seq<TaskResult>, webUrlOf: seq<byte> -> Option<string>)
    requires multiset(finished) == multiset(reordered)
    ensures Endpoints(finished, webUrlOf).Ok? == Endpoints(reordered, webUrlOf).Ok?
  {
    forall i | 0 <= i < |finished| && Aborts(finished[i], webUrlOf)
      ensures Endpoints(reordered, webUrlOf).Err?
    {
      assert finished[i] in multiset(reordered);
      var j :| 0 <= j < |reordered| && reordered[j] == finished[i];
    }
    forall j | 0 <= j < |reordered| && Aborts(reordered[j], webUrlOf)
      ensures Endpoints(finished, webUrlOf).Err?
    {
      assert reordered[j] in multiset(finished);
      var i :| 0 <= i < |finished| && finished[i] == reordered[j];
    }
  }

  /** Whatever order the lookups finish in, a successful discovery finds the
      same endpoints, each as often; only their order may differ. */
  lemma {:induction false} EndpointsAnyOrder(finished: seq<TaskResult>, reordered: seq<TaskResult>, webUrlOf: seq<byte> -> Option<string>)
    requires multiset(finished) == multiset(reordered)
    requires Endpoints(finished, webUrlOf).Ok?
    ensures Endpoints(reordered, webUrlOf).Ok?
    ensures multiset(Endpoints(finished, webUrlOf).value) == multiset(Endpoints(reordered, webUrlOf).value)
  {
    EndpointsSucceedAnyOrder(finished, reordered, webUrlOf);
    if finished != [] {
      var x, tail := finished[0], finished[1..];
      assert finished == [x] + tail;
      assert multiset(tail) == multiset(finished) - multiset{x};
      var left, right := SplitAt(reordered, x);
      EndpointsConcat([x], tail, webUrlOf);
      EndpointsConcat(left + [x], right, webUrlOf);
      EndpointsConcat(left, [x], webUrlOf);
      EndpointsConcat(left, right, webUrlOf);
      EndpointsAnyOrder(tail, left + right, webUrlOf);
      var l, m, r := Endpoints(left, webUrlOf).value, Endpoints([x], webUrlOf).value, Endpoints(right, webUrlOf).value;
      assert multiset(Endpoints(tail, webUrlOf).value) == multiset(l) + multiset(r);
      assert multiset(Endpoints(reordered, webUrlOf).value) == multiset(l) + multiset(m) + multiset(r);
    }
  }

  /** The scan loop, which stops at the first body without a `web_url`. */
  method CollectEndpoints(finished: seq<TaskResult>, webUrlOf: seq<byte> -> Option<string>)
    returns (r: Result<seq<string>, DiscoveryError>)
    ensures r == Endpoints(finished, webUrlOf)
  {
    var endpoints: seq<string> := [];
    assert finished[0..] == finished;
    ghost var all := Endpoints(finished, webUrlOf);
    assert all.Ok? ==> [] + all.value == all.value;
    for i := 0 to |finished|
      invariant Endpoints(finished, webUrlOf) == Then(Ok(endpoints), Endpoints(finished[i..], webUrlOf))
    {
      assert finished[i..] == [finished[i]] + finished[i + 1..];
      assert [finished[i]][1..] == [];
      EndpointsConcat([finished[i]], finished[i + 1..], webUrlOf);
      ghost var rest := Endpoints(finished[i + 1..], webUrlOf);
      assert rest.Ok? ==> forall url: string :: endpoints + ([url] + rest.value) == endpoints + [url] + rest.value;
      match finished[i] {
        case Raised =>
          // the exception is logged and the scan goes on
          continue;
        case Completed(response) =>
          match webUrlOf(response.content) {
            case None =>
              return Err(MissingWebUrl(response.url));
            case Some(url) =>
              endpoints := endpoints + [url];
          }
      }
    }
    assert endpoints + [] == endpoints;
    return Ok(endpoints);
  }

  /** Discovery never finds more endpoints than there are review apps with a
      deployed app: one lookup per such app, at most one endpoint per lookup. */
  lemma EndpointCountBound(records: seq<ReviewApp>, finished: seq<TaskResult>, webUrlOf: seq<byte> -> Option<string>)
    requires |finished| == |DeployedAppIds(records)|
    ensures Endpoints(finished, webUrlOf).Ok? ==> |Endpoints(finished, webUrlOf).value| <= |DeployedAppIds(records)| <= |records|
  {
  }
}
