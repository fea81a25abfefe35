/** `POST` of the chat-completions relay as a decision over the outcomes of
    its effects: parsing the inbound body, the two environment variables,
    the upstream `fetch`, and parsing upstream's JSON. The result is the
    response and the upstream request that was sent, if any. */
module CompletionsRoute {
  import opened Wrappers
  import opened Utf8
  import StreamRelay

  /** A parsed JSON value, opaque except for what the route looks at:
      `null` (reading a property of it throws a TypeError), or any other
      value, given by what `JSON.stringify` makes of it and by whether its
      `stream` property is truthy (`undefined` for a value without one). */
  datatype Json = JsonNull | JsonValue(serialized: string, streamTruthy: bool)

  /** How `await req.json()` settles. */
  datatype Inbound = Unparseable | Parsed(body: Json)

  /** `process.env.API_KEY` and `process.env.API_BASE_URL`. */
  datatype Env = Env(apiKey: Option<string>, apiBaseUrl: Option<string>)

  /** The upstream response: its status, its body as the results its
      reader's reads settle with (`None` when `response.body` is null), and
      how `await response.json()` settles (`None` when it rejects). */
  datatype Upstream = Upstream(
    status: int,
    body: Option<seq<StreamRelay.ReadResult>>,
    json: Option<Json>)

  /** How `await fetch(...)` settles. */
  datatype FetchOutcome = FetchRejected | FetchResolved(upstream: Upstream)

  datatype Request = Request(verb: string, url: string, headers: map<string, string>, body: Json)

  /** A JSON error document `{"error": message}`, upstream's JSON written
      back out, or an event stream whose `start` does what `run` says. */
  datatype ResponseBody =
    | ErrorJson(message: string)
    | RelayedJson(value: Json)
    | EventStream(run: StreamRelay.RelayRun)

  datatype Response = Response(status: int, headers: map<string, string>, body: ResponseBody)

  /** What one `POST` does: the request sent upstream, if any, and the
      response. */
  datatype Exchange = Exchange(sent: Option<Request>, response: Response)

  const DefaultBaseUrl := "https://api.openai.com"
  const CompletionsPath := "/chat/completions"
  const InternalServerError := "Internal server error"
  const KeyNotConfigured := "OpenAI API key not configured"
  const NoResponseBody := "No response body"

  const JsonHeaders := map["Content-Type" := "application/json"]
  const EventStreamHeaders :=
    map["Content-Type" := "text/event-stream", "Cache-Control" := "no-cache", "Connection" := "keep-alive"]

  /** JavaScript truthiness of an environment variable: set and not empty. */
  predicate IsSet(v: Option<string>) {
    v.Some? && v.value != ""
  }

  /** `process.env.API_BASE_URL || 'https://api.openai.com'`. */
  function BaseUrl(env: Env): (url: string)
    ensures IsSet(env.apiBaseUrl) ==> url == env.apiBaseUrl.value
    ensures !IsSet(env.apiBaseUrl) ==> url == DefaultBaseUrl
  {
    if IsSet(env.apiBaseUrl) then env.apiBaseUrl.value else DefaultBaseUrl
  }

  /** The request sent upstream: the inbound body, serialized again, with
      the key as a bearer token (section 2.1 of RFC 6750). */
  function UpstreamRequest(env: Env, apiKey: string, body: Json): (r: Request)
    ensures r.verb == "POST" && r.body == body
    ensures |r.url| == |BaseUrl(env)| + |CompletionsPath| &&
            r.url[..|BaseUrl(env)|] == BaseUrl(env) && r.url[|BaseUrl(env)|..] == "/chat/completions"
    ensures r.headers.Keys == {"Content-Type", "Authorization"}
    ensures r.headers["Content-Type"] == "application/json"
    ensures var auth := r.headers["Authorization"];
      |auth| == 7 + |apiKey| && auth[..7] == "Bearer " && auth[7..] == apiKey
  {
    Request(
      "POST",
      BaseUrl(env) + CompletionsPath,
      map["Content-Type" := "application/json", "Authorization" := "Bearer " + apiKey],
      body)
  }

  function ErrorResponse(message: string): Response {
    Response(500, JsonHeaders, ErrorJson(message))
  }

  /** The route handler. Its `try` covers everything, so a rejected parse,
      a rejected fetch, reading `stream` of a null body and a rejected
      upstream parse all become the same 500 response. */
  function Post(env: Env, inbound: Inbound, fetch: FetchOutcome): (x: Exchange)
    // A body that does not parse: 500, and nothing is sent upstream.
    ensures inbound.Unparseable? ==>
      x.sent == None && x.response == ErrorResponse(InternalServerError)
    // A missing or empty key, checked only once the body has parsed: 500,
    // and nothing is sent upstream.
    ensures inbound.Parsed? && !IsSet(env.apiKey) ==>
      x.sent == None && x.response == ErrorResponse(KeyNotConfigured)
    // Otherwise exactly one request goes upstream, carrying the key and the
    // inbound body, to the configured base URL or the default one.
    ensures inbound.Parsed? && IsSet(env.apiKey) ==>
      && x.sent.Some?
      && x.sent.value.verb == "POST"
      && x.sent.value.url == BaseUrl(env) + "/chat/completions"
      && x.sent.value.headers ==
           map["Content-Type" := "application/json", "Authorization" := "Bearer " + env.apiKey.value]
      && x.sent.value.body == inbound.body
    // Every response is 200 or 500, and it is 500 exactly when it carries
    // an error document, always as JSON.
    ensures x.response.status == 200 || x.response.status == 500
    ensures x.response.status == 500 <==> x.response.body.ErrorJson?
    ensures x.response.body.ErrorJson? ==> x.response.headers == JsonHeaders
    // A stream is answered only to a request whose `stream` is truthy, when
    // upstream has a body; it carries the event-stream headers and what
    // `start` does with that body.
    ensures x.response.body.EventStream? <==>
      && inbound.Parsed? && IsSet(env.apiKey) && fetch.FetchResolved?
      && inbound.body.JsonValue? && inbound.body.streamTruthy
      && fetch.upstream.body.Some?
    ensures x.response.body.EventStream? ==>
      && x.response.headers == EventStreamHeaders
      && x.response.body.run == StreamRelay.Relay(FreshDecoder, fetch.upstream.body.value)
    // A truthy `stream` with no upstream body: 500 "No response body".
    ensures inbound.Parsed? && IsSet(env.apiKey) && fetch.FetchResolved? &&
            inbound.body.JsonValue? && inbound.body.streamTruthy && fetch.upstream.body.None? ==>
      x.response == ErrorResponse(NoResponseBody)
    // Otherwise upstream's JSON, whatever upstream's status, or 500 when it
    // does not parse.
    ensures inbound.Parsed? && IsSet(env.apiKey) && fetch.FetchResolved? &&
            inbound.body.JsonValue? && !inbound.body.streamTruthy && fetch.upstream.json.Some? ==>
      x.response == Response(200, JsonHeaders, RelayedJson(fetch.upstream.json.value))
    // A rejected fetch, a null inbound body (reading its `stream` throws) or
    // upstream JSON that does not parse: 500 "Internal server error".
    ensures inbound.Parsed? && IsSet(env.apiKey) &&
            (fetch.FetchRejected? || inbound.body.JsonNull? ||
             (!inbound.body.streamTruthy && fetch.upstream.json.None?)) ==>
      x.response == ErrorResponse(InternalServerError)
    ensures x.response.body.RelayedJson? ==>
      && x.response.status == 200 && x.response.headers == JsonHeaders
      && fetch.FetchResolved? && fetch.upstream.json == Some(x.response.body.value)
      && inbound.Parsed? && inbound.body.JsonValue? && !inbound.body.streamTruthy
  {
    match inbound
    case Unparseable =>
      Exchange(None, ErrorResponse(InternalServerError))
    case Parsed(body) =>
      if !IsSet(env.apiKey) then
        Exchange(None, ErrorResponse(KeyNotConfigured))
      else
        var sent := Some(UpstreamRequest(env, env.apiKey.value, body));
        match fetch
        case FetchRejected =>
          Exchange(sent, ErrorResponse(InternalServerError))
        case FetchResolved(upstream) =>
          match body
          case JsonNull =>
            Exchange(sent, ErrorResponse(InternalServerError))
          case JsonValue(_, streamTruthy) =>
            if streamTruthy then
              (match upstream.body
               case None =>
                 Exchange(sent, ErrorResponse(NoResponseBody))
               case Some(results) =>
                 Exchange(sent, Response(200, EventStreamHeaders, EventStream(StreamRelay.Relay(FreshDecoder, results)))))
            else
              (match upstream.json
               case None =>
                 Exchange(sent, ErrorResponse(InternalServerError))
               case Some(data) =>
                 Exchange(sent, Response(200, JsonHeaders, RelayedJson(data))))
  }

  /** Upstream's status never changes the answer. */
  lemma StatusIgnored(env: Env, inbound: Inbound, upstream: Upstream, status: int)
    ensures Post(env, inbound, FetchResolved(upstream)) ==
            Post(env, inbound, FetchResolved(upstream.(status := status)))
  {
  }

  /** The transfer mode follows the inbound `stream` flag alone: a request
      that reaches upstream with a non-null body gets a stream or the
      missing-body error exactly when its `stream` is truthy, whatever
      upstream answered. */
  lemma ModeFollowsInboundFlag(env: Env, body: Json, upstream: Upstream)
    requires IsSet(env.apiKey) && body.JsonValue?
    ensures var x := Post(env, Parsed(body), FetchResolved(upstream));
      (x.response.body.EventStream? || x.response == ErrorResponse(NoResponseBody))
      <==> body.streamTruthy
  {
  }

  /** End to end, for a streamed answer: when upstream's body is
      well-formed UTF-8 that ends on a character boundary and does not open
      with a byte order mark, the caller receives exactly upstream's bytes,
      after as many reads as chunks plus one, and the stream is closed. */
  lemma StreamedBytesRelayed(env: Env, body: Json, upstream: Upstream)
    requires IsSet(env.apiKey) && body.JsonValue? && body.streamTruthy && upstream.body.Some?
    requires var results := upstream.body.value;
      && StreamRelay.Terminal(results).Done?
      && IsWellFormed(StreamRelay.Flatten(StreamRelay.Chunks(results)))
      && !StartsWithBom(StreamRelay.Flatten(StreamRelay.Chunks(results)))
    ensures var x := Post(env, Parsed(body), FetchResolved(upstream));
      var results := upstream.body.value;
      && x.response.body.EventStream?
      && StreamRelay.Flatten(StreamRelay.Enqueued(x.response.body.run.calls))
         == StreamRelay.Flatten(StreamRelay.Chunks(results))
      && x.response.body.run.stream == StreamRelay.Closed
      && x.response.body.run.readCalls == |StreamRelay.Chunks(results)| + 1
  {
    var results := upstream.body.value;
    var input := StreamRelay.Flatten(StreamRelay.Chunks(results));
    assert IsWellFormedPrefix(input) by {
      WellFormedIsPrefix(input);
    }
    StreamRelay.RelayFidelity(results);
    StreamRelay.RelayShape(FreshDecoder, results);
  }
}
