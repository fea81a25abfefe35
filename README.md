# Chat-completions relay and async_hooks stubs, in Dafny

This project models two pieces of a Next.js chat application.

**The server-side relay.** `POST /api/proxy/chat/completions` forwards a
chat request to an OpenAI-compatible API. The server holds the API key and
the request never exposes it. The handler does the following:

- It reads the inbound JSON.
- It answers 500 `OpenAI API key not configured` when `API_KEY` is unset
  or empty.
- It posts the same JSON to `${API_BASE_URL || 'https://api.openai.com'}/chat/completions`
  with the key as a bearer token.
- When the request's `stream` is truthy, it answers with an event stream
  whose `start` relays upstream's body. Each chunk is passed through a
  streaming `TextDecoder` and re-encoded with a `TextEncoder`. A missing
  upstream body gives 500 `No response body`.
- Otherwise it answers with upstream's JSON.
- Every exception in the handler becomes 500 `Internal server error`.
  An exception inside `start` happens after the response has been
  returned and only rejects `start`'s promise.

**The `async_hooks` stand-in.** The browser bundle aliases Node's
`async_hooks` to a stub. Its parts:

- `AsyncLocalStorage` keeps one value in a `Map` under `'current'`.
- `AsyncResource` takes its id from a module-level counter.
- `createHook` returns a hook that only remembers whether it is enabled.
- `executionAsyncId` and `triggerAsyncId` are plain functions.

Files:

- `utf8.dfy` (`Utf8`) covers the following:
  - UTF-8 as section 3 of RFC 3629 defines it.
  - `TextEncoder.encode` (`Encode`).
  - The streaming decoder of the WHATWG Encoding Standard (`DecodeBytes`,
    `DecodeChunk`). It holds back an incomplete trailing sequence between
    calls. It replaces each maximal ill-formed subpart with U+FFFD. With the
    default options, it drops a leading U+FEFF once per stream.
- `stream_relay.dfy` (`StreamRelay`) covers the `start` callback of the
  relayed stream:
  - The reader, decoder and controller are classes.
  - `Start` is the `while (true)` loop, proved against the specification
    function `Relay`.
  - Lemmas give the run's shape and which bytes are enqueued.
- `completions_route.dfy` (`CompletionsRoute`) models the handler as a
  decision over how its effects settle. `Post` returns the request sent
  upstream, if any, and the response.
- `node_stubs.dfy` (`AsyncHooks`) models the stubs as classes.
- `wrappers.dfy` holds `Option`.

The network, the environment and JSON parsing are inputs to the model.
- The inbound parse is an `Inbound`.
- `process.env` is an `Env`.
- How `fetch` settles is a `FetchOutcome`.
- The upstream body is the script of results its reader's `read()` calls
  settle with.
- A JSON value is opaque, except for whether it is `null` and whether its
  `stream` property is truthy.

What the proofs establish:

- **Transfer mode.** The mode of the answer follows the inbound `stream`
  flag alone. Upstream's status never matters.
- **Which bytes are enqueued.** For an upstream body that is
  well-formed UTF-8, possibly cut inside its last character, the enqueued
  bytes followed by what the decoder still holds equal the upstream bytes
  with any leading byte order mark removed.
- **What is held back.** It is empty when the body ends on a character
  boundary. Otherwise it is an incomplete sequence of at most three bytes.
- **Well-formed output.** Whatever upstream sends, the enqueued bytes are
  well-formed UTF-8.
- **Shape of a run.** One `enqueue` per chunk, then `close()`. When
  every chunk is well-formed on its own, the i-th `enqueue` carries the
  i-th chunk. After a
  failed read the run ends with `error()` and then a `close()` that throws.

## Model

| member | source | states |
|---|---|---|
| CompletionsRoute.Post | app/api/proxy/chat/completions/route.ts:3-81 | unparseable body: 500 "Internal server error", nothing sent; missing or empty key: 500 "OpenAI API key not configured", nothing sent; otherwise exactly one POST to the base URL + /chat/completions with the bearer key and the inbound body; every answer is 200 or 500, 500 exactly for error documents, which are JSON; a stream exactly when `stream` is truthy and upstream has a body, with the event-stream headers and the run of `start` on that body; truthy `stream` without a body: 500 "No response body"; a non-stream request whose upstream JSON parses: exactly 200, application/json, that JSON; a rejected fetch, a null inbound body or upstream JSON that does not parse: exactly 500 "Internal server error" |
| CompletionsRoute.BaseUrl | app/api/proxy/chat/completions/route.ts:16 | API_BASE_URL when set and non-empty, https://api.openai.com otherwise |
| CompletionsRoute.UpstreamRequest | app/api/proxy/chat/completions/route.ts:16-26 | a POST of the inbound body to the base URL followed by /chat/completions, with exactly the headers Content-Type application/json and Authorization "Bearer " followed by the key |
| CompletionsRoute.StatusIgnored | app/api/proxy/chat/completions/route.ts:28-73 | the exchange is the same whatever status upstream answered with |
| CompletionsRoute.ModeFollowsInboundFlag | app/api/proxy/chat/completions/route.ts:29-35 | for a request that reaches upstream with a non-null body, the answer is a stream or the missing-body error exactly when the inbound `stream` is truthy, whatever upstream returned |
| CompletionsRoute.StreamedBytesRelayed | app/api/proxy/chat/completions/route.ts:37-66 | when upstream's body is complete well-formed UTF-8 without a leading byte order mark and ends with `done`, the caller receives exactly upstream's bytes, read once per chunk plus once, and the stream ends closed |
| StreamRelay.Start | app/api/proxy/chat/completions/route.ts:41-57 | the loop makes exactly the controller calls, reads, decoder state, stream state and settlement that `Relay` gives for the reader's remaining results |
| StreamRelay.Relay | app/api/proxy/chat/completions/route.ts:41-57 | the definition of what `start` does for a decoder state and the reads' results; it has no contract of its own: RelayShape, RelayCarry, RelayOutputWellFormed, RelayFaithful and RelayFidelity state its properties, and `Start` is proved to do exactly what it says |
| StreamRelay.Reader.Read | app/api/proxy/chat/completions/route.ts:46 | the next scripted result, or `done` once the script is used up, and the script advances by one |
| StreamRelay.StreamingDecoder.Decode | app/api/proxy/chat/completions/route.ts:49 | one `decode(value, {stream: true})` call: text and new state as `DecodeChunk` gives them |
| StreamRelay.Controller.Enqueue | app/api/proxy/chat/completions/route.ts:50 | throws exactly when the stream is not readable; the state is unchanged and the call is recorded |
| StreamRelay.Controller.Error | app/api/proxy/chat/completions/route.ts:53 | a readable stream becomes errored with the reason; any other state is kept |
| StreamRelay.Controller.Close | app/api/proxy/chat/completions/route.ts:55 | throws exactly when the stream is not readable, and otherwise closes it |
| StreamRelay.RelayShape | app/api/proxy/chat/completions/route.ts:44-56 | reads = chunks + 1; the first k calls are the k `enqueue`s (one per chunk; which bytes each carries is RelayChunkwise's); then `close()` and fulfilment after `done`, or `error(reason)`, a throwing `close()`, an errored stream and rejection after a failed read |
| StreamRelay.RelayCarry | app/api/proxy/chat/completions/route.ts:49 | the decoder never holds more than an incomplete sequence of at most three bytes |
| StreamRelay.RelayOutputWellFormed | app/api/proxy/chat/completions/route.ts:49-50 | whatever upstream sends, the concatenated enqueued bytes are well-formed UTF-8 |
| StreamRelay.RelayFaithful | app/api/proxy/chat/completions/route.ts:44-56 | from any decoder state, enqueued bytes + held-back bytes = pending + upstream bytes, less a leading byte order mark while no scalar has been produced |
| StreamRelay.RelayFidelity | app/api/proxy/chat/completions/route.ts:37-58 | from a fresh decoder: enqueued + held back = upstream bytes without a leading byte order mark; held back is empty or one incomplete sequence; complete input is relayed entirely |
| StreamRelay.DecodeStepFaithful | app/api/proxy/chat/completions/route.ts:49 | one decoding step loses no byte of well-formed input: re-encoded output, new carry and the rest reassemble what the old state had to deliver |
| StreamRelay.RelayChunkwise | app/api/proxy/chat/completions/route.ts:44-51 | with nothing held back, and every chunk well-formed on its own and not opening with a byte order mark, the i-th `enqueue` carries exactly the i-th chunk, in read order |
| StreamRelay.SplitCharacter | app/api/proxy/chat/completions/route.ts:49-50 | "é" cut as C3 / A9: the first read enqueues nothing, the second enqueues C3 A9, then the stream closes |
| StreamRelay.Chunks | app/api/proxy/chat/completions/route.ts:46-47 | the chunk values read before the first non-chunk result, in order |
| StreamRelay.Terminal | app/api/proxy/chat/completions/route.ts:46-47 | the first result that is not a chunk, or `done` when the script runs out |
| Utf8.SequenceLength | app/api/proxy/chat/completions/route.ts:49 | a lead byte opens a sequence of at most four bytes |
| Utf8.ScalarOf | app/api/proxy/chat/completions/route.ts:49 | the scalar a sequence of 1, 2, 3, 4 bytes encodes lies in the range for that length (no overlong forms) |
| Utf8.EncodeScalar | app/api/proxy/chat/completions/route.ts:50 | each scalar encodes to a well-formed sequence that decodes back to it |
| Utf8.EncodeScalarOf | app/api/proxy/chat/completions/route.ts:49-50 | decoding a well-formed sequence and re-encoding gives the same bytes |
| Utf8.Encode | app/api/proxy/chat/completions/route.ts:50 | `TextEncoder.encode`: at least one byte per scalar; EncodeWellFormed and DecodeEncode state that the output is well-formed and decodes back to the text |
| Utf8.EncodeWellFormed | app/api/proxy/chat/completions/route.ts:50 | `TextEncoder.encode` produces well-formed UTF-8 |
| Utf8.DecodeEncode | app/api/proxy/chat/completions/route.ts:49-50 | decoding encoded text gives the text back with nothing held |
| Utf8.DecodeBytes | app/api/proxy/chat/completions/route.ts:49 | what is held back is a suffix of the input and is empty or one incomplete sequence |
| Utf8.DecodeWellFormedPrefix | app/api/proxy/chat/completions/route.ts:49 | on well-formed input cut anywhere, re-encoded output + carry = input, and the carry is empty for complete input |
| Utf8.DecodeChunk | app/api/proxy/chat/completions/route.ts:49 | the new carry is an incomplete sequence of at most three bytes; the stream counts as started once any scalar has been produced |
| Utf8.StripBom | app/api/proxy/chat/completions/route.ts:38 | removes exactly a leading EF BB BF and nothing else |
| Utf8.BomFirst | app/api/proxy/chat/completions/route.ts:38 | encoded text starts with EF BB BF exactly when its first scalar is U+FEFF |
| Utf8.WellFormedTail | app/api/proxy/chat/completions/route.ts:49-50 | if a well-formed a followed by z is well-formed, so is z |
| AsyncHooks.StoreOf | app/lib/node-stubs.js:62 | never a falsy value other than undefined, only ever the stored value, and the stored value whenever it is truthy |
| AsyncHooks.AsyncLocalStorage.constructor | app/lib/node-stubs.js:54-56 | a new storage holds no entry |
| AsyncHooks.AsyncLocalStorage.GetStore | app/lib/node-stubs.js:58-63 | answers `StoreOf` of the entry and changes nothing |
| AsyncHooks.AsyncLocalStorage.GetSnapshot | app/lib/node-stubs.js:79-81 | the same answer as `getStore` |
| AsyncHooks.AfterRun | app/lib/node-stubs.js:70-76 | after `run` a read gives what it gave before, and the entry exists exactly when that value was not undefined |
| AsyncHooks.AsyncLocalStorage.Run | app/lib/node-stubs.js:65-77 | the callback sees `store` in the entry and settles `run`; whether it returns or throws, the earlier entry is restored (deleted when it read undefined) |
| AsyncHooks.AsyncLocalStorage.Disable | app/lib/node-stubs.js:83-85 | the entry is gone |
| AsyncHooks.AsyncLocalStorage.EnterWith | app/lib/node-stubs.js:87-89 | the entry holds the given store |
| AsyncHooks.AfterExit | app/lib/node-stubs.js:96-100 | after `exit` a value read before is back; when there was none, whatever the callback left stays |
| AsyncHooks.AsyncLocalStorage.Exit | app/lib/node-stubs.js:91-101 | the callback sees no entry and settles `exit`; the entry afterwards is as `AfterExit` says |
| AsyncHooks.RunScopesStore | app/lib/node-stubs.js:65-77 | inside `run` a truthy store reads back; after it `getStore()` answers as before |
| AsyncHooks.ExitScopesStore | app/lib/node-stubs.js:91-101 | inside `exit` `getStore()` is undefined; afterwards a store set inside survives exactly when nothing was stored before |
| AsyncHooks.FalsyStoreReadsUndefined | app/lib/node-stubs.js:62 | a stored value reads back unchanged exactly when it is truthy or undefined |
| AsyncHooks.AsyncHooksStub.constructor | app/lib/node-stubs.js:9 | the counter starts at 0 with no resources |
| AsyncHooks.AsyncHooksStub.ExecutionAsyncId | app/lib/node-stubs.js:24 | the counter: 0 exactly before the first resource, and never below an id handed out |
| AsyncHooks.AsyncHooksStub.TriggerAsyncId | app/lib/node-stubs.js:25 | always 0 |
| AsyncHooks.AsyncHooksStub.CreateHook | app/lib/node-stubs.js:12-23 | a new hook, disabled, whatever the callbacks |
| AsyncHooks.AsyncResource.constructor | app/lib/node-stubs.js:27-31 | the next id, above every earlier one, advancing the counter; ids stay distinct and count the resources; trigger id 0 |
| AsyncHooks.AsyncResource.RunInAsyncScope | app/lib/node-stubs.js:47-50 | the function's own completion, with nothing else changed |
| AsyncHooks.AsyncResource.OwnProperties | app/lib/node-stubs.js:27-31 | the instance's own properties are `type`, `asyncId` and `triggerAsyncId`, the id under `asyncId` |
| AsyncHooks.CallAccessor | app/lib/node-stubs.js:41-46 | an own property of the accessor's name is found first and throws TypeError when called; otherwise the accessor returns its field |
| AsyncHooks.AccessorsShadowed | app/lib/node-stubs.js:28-46 | as written, `asyncId()` and `triggerAsyncId()` throw TypeError on every resource |
| AsyncHooks.IntendedOwnProperties | app/lib/node-stubs.js:41-46 | the ids are kept under names other than the accessors' |
| AsyncHooks.AccessorsAnswer | app/lib/node-stubs.js:41-46 | with the ids kept apart, `asyncId()` and `triggerAsyncId()` return them |
| AsyncHooks.AsyncHook.constructor | app/lib/node-stubs.js:13-14 | a hook starts disabled |
| AsyncHooks.AsyncHook.Enable | app/lib/node-stubs.js:15-17 | the hook is enabled |
| AsyncHooks.AsyncHook.Disable | app/lib/node-stubs.js:18-20 | the hook is disabled |

## Left out

- Network, environment and JSON: `fetch`, `req.json()`, `response.json()` and `process.env` are inputs describing how each settles, not computations. `JSON.stringify` of the relayed JSON is the opaque value handed back. The answer is therefore a re-serialization of upstream's document, not a byte copy of it.
- `console.error` in the handler's `catch` has no observable effect on the response and is not modelled.
- Time and interleaving: `start` runs to completion over a script of read results. Cancellation by the caller, backpressure and the stream's queue are not modelled. `controller.enqueue` can throw only after a cancellation, so its throwing branch in `Start` is reachable only from a controller that is no longer readable.
- The relay is not byte-transparent, and the model follows the code rather than a pass-through reading. A leading byte order mark is dropped (`TextDecoder`'s default `ignoreBOM: false`). An incomplete sequence at the end of the body stays in the decoder, because `decode()` is never called without `{stream: true}`. Ill-formed bytes are enqueued as EF BF BD (U+FFFD).
- After a failed read, `controller.error()` empties the stream's queue (Streams standard), so chunks enqueued but not yet read by the caller never reach it. The model records the enqueue calls, not what the caller reads.
- After a failed read, the `finally` block's `close()` runs on an errored stream. It throws a TypeError, so `start` rejects. The stream ends errored, not closed.
- DecodeBytes: on ill-formed input only the structural facts are stated (the carry is a suffix and empty or incomplete). The U+FFFD substitution is given by its definition, not by a separate property.
- JavaScript numbers are integers here. Floating point, NaN and `-0` (which affect `||` truthiness) are not modelled.
- Callbacks given to `run`, `exit` and `runInAsyncScope` are functions from the storage's entry to a new entry and a completion. Effects they have elsewhere, such as on other storages or the resource counter, are not modelled.
- AsyncResource.EmitBefore, EmitAfter and EmitDestroy are no-ops in the source and in the model, so they have no contract.
- AsyncHook.Enable and AsyncHook.Disable: calling them detached from the hook (`this` undefined in module code) is not modelled.
- The chat UI, the layout and `next.config.js`, which aliases the Node built-ins to the stubs, are not part of this model.

## Findings

| source | as written | input that shows it | evidently intended | confidence | as-written member | corrected member |
|---|---|---|---|---|---|---|
| app/lib/node-stubs.js:28-46 | the constructor stores numbers in own properties `asyncId` and `triggerAsyncId`, which hide the prototype methods of the same names | `new AsyncResource('x').asyncId()` throws TypeError: asyncId is not a function | `asyncId()` returns the resource's id and `triggerAsyncId()` returns 0, as in Node's `AsyncResource` | high, not executed | AsyncHooks.AccessorsShadowed | AsyncHooks.AccessorsAnswer |
