# heroku-review-webhooks: the proxy's decisions, in Dafny

The repository is a small Flask reverse proxy that sits in front of a Heroku
pipeline's review apps. For each inbound request it does three things:

1. It asks the Heroku API for the review apps of the pipeline. It looks up
   every review app that already has an app, and it collects the `web_url`s
   of the lookups that finished.
2. It sends the inbound request to every discovered endpoint at once. Each
   copy goes to `endpoint + path` with the same method, body and cookies,
   and with every header except `Host`.
3. It scans the finished fan-out tasks and relays the first 2xx response it
   meets. If there is none, it answers 404.

The network calls, the asyncio tasks and the Flask plumbing are replaced by
input sequences: a finished task is either `Raised` (its `task.result()`
raised) or `Completed` with the `(url, content, status, headers)` tuple.
`asyncio.wait` returns an unordered set of tasks, so the finished tasks are
an arbitrary sequence. Every property below holds for every sequence, and
the order-independence lemmas compare any two orderings.

Modules:

- `Http` (`http.dfy`): bytes, header pairs, the response tuple, finished
  tasks, the 2xx test, and Option/Result.
- `Discovery` (`discovery.dfy`): the review-app filter, the detail lookups
  it plans, and the collection of `web_url`s (`get_heroku_endpoints`).
- `Forwarding` (`forwarding.dfy`): the outbound URL, the forwarded header
  dict, and the list of outbound requests (`reverse_proxy`, lines 76-86).
- `Selection` (`selection.dfy`): the scan that picks the reply
  (`reverse_proxy`, lines 87-99).

Behaviour of the code that the model keeps:

- There is no fallback to a non-2xx upstream body. When no finished task
  is a 2xx completion, the code calls `abort(404)` (app.py:99), and
  `Select` returns `NotFound`.
- The header comprehension builds a Python dict. If a header name repeats,
  the dict keeps that key at its first position with its last value. The
  model stores headers as an insertion-ordered association list with
  dict-style `Put`. `ForwardedLookup` states the general case.
  `ForwardedKeepsOrder` states the common case: with distinct header names,
  the forwarded headers are exactly the non-`Host` pairs, in order.
- In `get_heroku_endpoints`, `json.loads(content)` and `["web_url"]` run in
  the `else:` branch of the `try`. That branch is not guarded by the
  `except`, so a completed lookup whose body has no `web_url` aborts the
  whole discovery with an exception, for example a 404 error body from the
  API. Lookup status codes are not checked. `Endpoints` models this abort as
  `Err(MissingWebUrl(url))`. Only lookups that raised inside `task.result()`
  are skipped.

## Model

| member | source | states |
|---|---|---|
| `Selection.Select` | app.py:88-99 | A response is relayed exactly when some finished task completed with a status in [200, 299]. The relayed content, status and headers are those of one such task, unchanged, and its status is 2xx. Otherwise the reply is 404. |
| `Selection.SelectResponse` | app.py:87-99 | The scan loop with its early return yields exactly the reply `Select` specifies. |
| `Selection.SelectIsFirstSelectable` | app.py:88-98 | If task i is the first 2xx completion in scan order, the reply relays task i's response. |
| `Selection.SkipUnselectable` | app.py:89-97 | A task that raised or completed with a non-2xx status is never relayed and does not stop the scan. Removing it from any position leaves the reply unchanged. |
| `Selection.SelectAnyOrder` | app.py:87-99 | Under any reordering of the finished tasks, a response is relayed in one order exactly when it is in the other. What is relayed is always one of the 2xx completions. |
| `Forwarding.Get` | app.py:79 | Dict lookup: absent exactly when no entry has the key; otherwise the value of an entry with that key. |
| `Http.IsSuccessStatus` | app.py:97 | A status is accepted exactly when it is in the 2xx class. |
| `Forwarding.IndexOf` | app.py:79 | The position of a present key in the dict is that of its first entry. |
| `Forwarding.Put` | app.py:79 | Dict store: the key then maps to the new value, and every other key keeps its value. A new key is appended at the end. An existing key is overwritten at its first position, and every other entry stays where it was. |
| `Forwarding.PutKeepsKeysDistinct` | app.py:79 | Storing into a dict with distinct keys keeps the keys distinct. |
| `Forwarding.ForwardedHeaders` | app.py:79 | The forwarded header dict has no `Host` entry and no repeated key. |
| `Forwarding.WithoutHost` | app.py:79 | The reference filter: a pair is kept exactly when it is inbound and its key is not exactly `Host`. Order is preserved. |
| `Forwarding.ForwardedLookup` | app.py:79 | Looking up `Host` in the forwarded headers finds nothing. Every other key maps to the last value the inbound headers gave it, and to nothing if it was never sent. |
| `Forwarding.ForwardedKeepsOrder` | app.py:79 | When no inbound header name repeats, the forwarded headers equal the inbound pairs other than `Host`, with values unchanged and in their original order. |
| `Forwarding.OutboundUrl` | app.py:78 | The outbound URL is the endpoint followed directly by the path. |
| `Forwarding.RequestFor` | app.py:78-84 | The arguments of one outbound `async_request`: the inbound method, a URL made of the endpoint followed by the path, the inbound body as data and the inbound cookies. The headers have no `Host` key and no repeated key. |
| `Forwarding.RequestForForwards` | app.py:78-84 | Each outbound request has the inbound method, the URL `endpoint + path`, the inbound body as data and the inbound cookies. Its headers contain no `Host` key, every other key has its last inbound value, and with distinct names the headers are the ordered `Host`-less filter. |
| `Forwarding.BuildRequests` | app.py:76-86 | The loop builds exactly one request per endpoint, in endpoint order, and each is the request for that endpoint. |
| `Discovery.ApiHeaders` | app.py:16-19 | Every control-plane call asks for version 3 of the Heroku API and sends the API key, unaltered, as a bearer token. |
| `Discovery.AppDetailRequest` | app.py:37-39 | A detail lookup is a `GET` with the API headers, to `https://api.heroku.com/apps/` followed directly by the app id. |
| `Discovery.DeployedAppIds` | app.py:31-34 | An id is looked up exactly when some review app has an app with that id. There are never more lookups than review apps. |
| `Discovery.DeployedAppIdsConcat` | app.py:31-41 | The planned ids of a concatenation of record lists are the ids of each part, concatenated. |
| `Discovery.OneLookupPerDeployedRecord` | app.py:31-41 | A record whose app is null adds no lookup. Any other record adds exactly one, for its `app.id`, at its own position among the others. |
| `Discovery.PlanLookups` | app.py:30-41 | The loop creates one `GET https://api.heroku.com/apps/{id}` request per deployed app id, in record order, with the Heroku API headers. |
| `Discovery.Endpoints` | app.py:43-53 | Discovery succeeds exactly when no completed lookup's body lacks a `web_url`. On success, the endpoints are exactly `WebUrls`: each completed lookup adds its `web_url` once, in scan order, so duplicates are kept. A URL is discovered exactly when some completed lookup yields it, and there are at most as many endpoints as lookups. On failure, the error names a completed lookup that lacked a `web_url`. |
| `Discovery.EndpointsConcat` | app.py:43-53 | Scanning two stretches of finished lookups in turn gives the first error, or else the concatenation of their endpoints. |
| `Discovery.RaisedLookupDropsOnlyItself` | app.py:44-49 | A lookup that raised drops only itself. Removing it from any position leaves the discovery result unchanged. |
| `Discovery.EndpointsSucceedAnyOrder` | app.py:42-53 | Under any reordering of the finished lookups, discovery succeeds in one order exactly when it succeeds in the other. |
| `Discovery.EndpointsAnyOrder` | app.py:42-53 | Under any reordering of the finished lookups, a successful discovery finds the same multiset of endpoints. Only their order can differ. |
| `Discovery.CollectEndpoints` | app.py:43-55 | The collection loop, which stops at the first body without a `web_url`, returns exactly `Endpoints`. |
| `Discovery.EndpointCountBound` | app.py:30-53 | When every lookup planned for the review apps has finished, a successful discovery finds no more endpoints than there are review apps with an app. |

## Left out

- Flask routing, `request`, `abort` and `app.run` (app.py:2, 8, 72-74, 102-103) are framework plumbing. The inbound request is an `Inbound` value, and `abort(404)` is the `NotFound` reply.
- The aiohttp sessions, `async_request` and the `TIMEOUT` of 10 seconds (app.py:21-27, 58-68) are network I/O. Each call's result is an input `TaskResult`.
- The first control-plane call, which lists the pipeline's review apps (app.py:21-29), is network I/O with JSON decoding. The model starts from the decoded records, so that call's failure and a record without an `"app"` member are not modelled.
- asyncio task creation and `asyncio.wait` (app.py:35-42, 82-87) are concurrency. The finished tasks are an arbitrary input sequence, and completion timing is not modelled. What `asyncio.wait` does with an empty task list is a library matter; the model makes no claim about it.
- JSON decoding of a lookup body (app.py:52) is the parameter `webUrlOf`. It returns the body's `web_url`, or nothing when decoding or the `["web_url"]` lookup would raise. A `web_url` that is not a string is not modelled.
- `HEROKU_PIPELINE` and `HEROKU_API_KEY` (app.py:11-12) come from the environment. The API key is a parameter. The pipeline id appears only in the listing call, which is left out.
- Logging and `traceback.print_exc` (app.py:48, 54, 92, 96) are side effects with no contract.
- In `reverse_proxy`, the line that awaits discovery and hands its list to the fan-out loop (app.py:75) is not composed into one function. The stages are modelled separately. When discovery raises, the exception passes through the route; this is the `Err` result of `Endpoints`, and the resulting server error is not modelled.
- `request.get_data()` and `request.cookies` are opaque values passed through unchanged. Werkzeug's header iteration is an input sequence of pairs, and `"Host"` is compared exactly, as in the code.
