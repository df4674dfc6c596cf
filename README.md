# fedify-express adapter, modelled in Dafny

The adapter is an Express middleware that hands requests to a Fedify
federation handler, which works with the standard Fetch `Request` and
`Response`. For each exchange it does four things:

- It translates the Express request into a Fetch `Request`. The URL is rebuilt
  as `protocol://host` plus the request path. The header multi-map is
  flattened into appends. The body stream is attached unless the method is
  `GET` or `HEAD`.
- It runs the federation handler with two callbacks, not-found and
  not-acceptable. Each one raises a flag and calls Express's `next`.
- It decides whether to write anything. It writes nothing when the not-found
  flag is set, or when the not-acceptable flag is set and Express has matched
  a route.
- Otherwise it projects the Fetch response onto the Express response: the
  status, then one `setHeader` per header, then every body chunk in read
  order. It then ends the response and replaces `status`, `send`, `end`,
  `json`, `removeHeader` and `setHeader` with no-ops.

The model has five modules, one file each:

- `Fetch` (`fetch.dfy`): bytes, header lists and the Fetch response value.
- `Express` (`express.dfy`): the incoming request record and the response
  object. `NativeResponse` is a class whose fields the methods update. A ghost
  log records every call made on it. Its invariant says the fields are what
  the pure `Step`/`Run` specification gives when the log is replayed.
- `RequestTranslation` (`request_translation.dfy`): `fromERequest`. The
  header loop is proved equal to the reference function `Flatten`.
- `ResponseProjection` (`response_projection.dfy`): `setEResponse` and the
  stream reader it locks. The read callback becomes a loop that stops when
  the reader reports `done`.
- `Integration` (`integration.dfy`): the middleware closure, the callbacks,
  the skip decision and the sealing of the response. The constant
  `NotFoundResponse` is the placeholder 404 "Not found" that the not-found
  callback returns (src/index.ts:38). `NotAcceptableResponse` is the 406
  "Not acceptable" with `Content-Type: text/plain` and `Vary: Accept` that
  the not-acceptable callback returns (src/index.ts:49-55).

## Model

| member | source | states |
|---|---|---|
| `RequestTranslation.Host` | src/index.ts:73 | The `??` choice: the `Host` header whenever it is present, even when empty, and the hostname only when it is absent. |
| `RequestTranslation.CarriesBody` | src/index.ts:86-88 | A body is attached exactly when the method is neither `"GET"` nor `"HEAD"`. The comparison is case-sensitive, so `"get"` and `"head"` carry one. |
| `RequestTranslation.AbsoluteUrl` | src/index.ts:73 | The URL is the protocol, then `://`, then the host, then the path and query, each at its own offset. |
| `RequestTranslation.FromERequest` | src/index.ts:72-90 | Keeps the method. The URL uses the `Host` header whenever it is present, even when empty, and the hostname only when it is absent. The headers are exactly `Flatten` of the entries. The request has no body exactly when the method is `"GET"` or `"HEAD"`. Otherwise the body is the request's own chunks, unchanged. |
| `RequestTranslation.FlattenAppend` | src/index.ts:75-81 | Flattening entry lists `a` then `b` gives the pairs of `a` followed by the pairs of `b`. This is the step the header loop relies on. |
| `RequestTranslation.OtherEntryDropped` | src/index.ts:76-80 | Inserting an entry whose value is neither an array nor a string anywhere leaves the flattened headers unchanged. |
| `RequestTranslation.FlattenLength` | src/index.ts:75-81 | The number of appended pairs is the sum of the array lengths plus the number of string-valued entries. |
| `RequestTranslation.FlattenKeepsOrderPerName` | src/index.ts:75-81 | The values appended under one name are those of each entry with that name, entry after entry. Each array keeps its original order. |
| `RequestTranslation.FlattenMembership` | src/index.ts:75-81 | A pair (name, value) is appended if and only if some entry of that name is a string equal to the value or an array holding it. |
| `RequestTranslation.PairsMembership` | src/index.ts:77 | Spreading an array under a name yields (name, v) exactly for the elements v of the array. |
| `ResponseProjection.BodyReader.constructor` | src/index.ts:98 | `getReader` gives a locked reader positioned at the first chunk of the body. |
| `ResponseProjection.BodyReader.Read` | src/index.ts:99-100 | Yields the next chunk and advances, or reports `done` exactly when every chunk has been read. |
| `ResponseProjection.BodyReader.ReleaseLock` | src/index.ts:101 | Counts one more release of the reader's lock. |
| `ResponseProjection.ProjectionOrder` | src/index.ts:93-107 | The projection's first call sets the response status. The headers set are exactly the response's headers, in order. No header is set after a chunk is written. The chunks written are the body's chunks, in order, each once, and none when there is no body. |
| `ResponseProjection.RunHeaderCalls` | src/index.ts:94 | On a response not yet sealed, one `setHeader` per entry appends the entries to its headers in order. |
| `ResponseProjection.RunWriteCalls` | src/index.ts:105 | One `write` per chunk appends the chunks to the body in order, whether or not the response was sealed. |
| `ResponseProjection.ProjectionEffect` | src/index.ts:93-107 | After a projection the status is the response's status. Its headers and chunks follow what was already there. The end count and the sealed flag are untouched. |
| `ResponseProjection.SetEResponse` | src/index.ts:92-109 | Makes exactly the calls of `ProjectionCalls`, which leaves the state `ProjectionEffect` describes. Without a body no reader is made. With a body the reader has read every chunk once and its lock was released exactly once. |
| `Express.Step` | src/index.ts:61-67 | On a sealed response the six replaced methods change nothing. Only the `DisableMutators` step seals, and nothing unseals. `write` always appends its chunk. Only `write`, `send` and `json` change the body, and only `setHeader` and `removeHeader` change the headers. `end`, `send` and `json` add one end, and only while the response is not sealed. |
| `Express.NativeResponse.Status` | src/index.ts:62 | Sets the status. Once the response is sealed it changes nothing. |
| `Express.NativeResponse.SetHeader` | src/index.ts:67 | Appends a header. Once the response is sealed it changes nothing. |
| `Express.NativeResponse.Write` | src/index.ts:105 | Appends a chunk, sealed or not. The adapter does not replace `write`. |
| `Express.NativeResponse.End` | src/index.ts:61 | Counts one more end. Once the response is sealed it changes nothing. |
| `Express.NativeResponse.Send` | src/index.ts:63 | Writes a body and ends. Once the response is sealed it changes nothing. |
| `Express.NativeResponse.Json` | src/index.ts:65 | Writes a serialized body and ends. Once the response is sealed it changes nothing. |
| `Express.NativeResponse.RemoveHeader` | src/index.ts:66 | Drops every header of that name. Once the response is sealed it changes nothing. |
| `Express.NativeResponse.DisableMutators` | src/index.ts:62-67 | Seals the response and leaves every other field as it was. |
| `Express.GuardedCallsChangeNothing` | src/index.ts:62-67 | On a sealed response, any sequence of `status`, `setHeader`, `end`, `send`, `json` and `removeHeader` calls leaves the state unchanged. |
| `Express.FinalizedIsPermanent` | src/index.ts:62-67 | No sequence of calls unseals a sealed response. |
| `Express.RunAppend` | src/index.ts:93-107 | Making the calls `a` and then the calls `b` leaves the same state as making `a + b`. Every mutator uses this to keep the replay invariant. |
| `Integration.SkipsProjection` | src/index.ts:58 | Skipping needs one of the callbacks to have run. Without not-acceptable, it skips exactly when not-found ran. With only not-acceptable, it skips exactly when a route is matched. |
| `Integration.CallFederation` | src/index.ts:27-57 | The not-found flag is raised exactly when the handler calls the not-found callback. The not-acceptable flag is raised exactly when it calls the not-acceptable callback, and never both. `next` is called once when a callback runs and never otherwise. There is no response exactly when the call rejects. In the not-acceptable case the response is the 406 with `Content-Type: text/plain` and `Vary: Accept`. |
| `Integration.AnswerEffect` | src/index.ts:59-67 | Projecting, ending and sealing a response that was not sealed yet leaves the projected status, headers and body. The response is ended exactly once more and sealed. |
| `Integration.LaterCallsIgnored` | src/index.ts:61-67 | After the adapter answers, any later `status`, `send`, `end`, `json`, `removeHeader` or `setHeader` calls leave the answered state unchanged. The response stays ended exactly once more than before. |
| `Integration.SuccessScenario` | src/index.ts:59-67 | Answering a fresh response with status 200, one `Content-Type` header and a two-chunk body leaves that status, that header, both chunks in order, one end, and a sealed response. |
| `Integration.HandleRequest` | src/index.ts:19-69 | The response is left untouched (no call at all) if and only if the federation call rejected, not-found ran, or not-acceptable ran while a route is matched. If the handler answered, that answer is projected, ended and sealed, and a reader exists exactly when the answer has a body. If not-acceptable ran with no route matched, the 406 with `Content-Type: text/plain` and `Vary: Accept` is projected, ended and sealed, and its body is read through a reader. Every reader used has read every chunk and was released exactly once. |

## Left out

- The context-data factory and the promise around its value (src/index.ts:21-26) are not modelled. The value is opaque to the adapter.
- `federation.fetch` is foreign code. Its effect is an input, `HandlerOutcome`: the handler answers itself, or it calls one of the two callbacks. When it calls a callback, it is taken to return that callback's response.
- Asynchrony is not modelled. The model counts the calls to `next`. What Express's downstream handlers then do with the response is not modelled. Whether `req.route` is set after the federation call is an input.
- `req.protocol`, `req.hostname`, `req.url` and the result of `req.header("Host")` are inputs. How Express computes them, including trust-proxy handling, is library behaviour.
- `Readable.toWeb`, `Buffer.from` and the real `ReadableStream` are foreign I/O. A body is a finite sequence of byte chunks. A body that never ends cannot be expressed.
- Failed reads, a transport that rejects a write, and backpressure are not modelled. The code has no error branch for them (src/index.ts:99-106).
- The Fetch `Headers` object is not modelled in detail. Name lower-casing, validation, sorted iteration and comma-joining in `forEach` are left out. A header list is kept exactly as it was appended.
- Express's own semantics for the response methods are simplified. `setHeader` appends instead of replacing. `removeHeader` matches names exactly, while Node matches them case-insensitively. `send` and `json` are one chunk of already-serialized bytes plus an end, with no `Content-Type`, `Content-Length` or `ETag` added.
- `ResponseProjection.SetEResponse`: requires a response the adapter has not yet sealed. The middleware always passes the exchange's own response, which is sealed only after projection.
- `Integration.HandleRequest`: requires a response not yet sealed, as above. It does not restate the URL of the translated request, which `FromERequest` states.
- `req.route` is checked once, when the federation call has returned (src/index.ts:58).
- The comment at src/index.ts:40-46 says `next` is called if a route is matched and that a 406 is returned otherwise. But line 48 calls `next()` unconditionally. So with no matched route the adapter both calls `next` and writes the 406 (src/index.ts:58-59). The model keeps the code's behaviour: `CallFederation` reports one call to `next`, and `HandleRequest` projects the 406.
- `Integration.HandleRequest`: a rejected `federation.fetch` (src/index.ts:29) is modelled only as a rejection before any callback ran: nothing is written and `next` is not called. A rejection after a callback already called `next` is not modelled. Neither is where the rejection goes, which is an unhandled promise rejection.
- `RequestTranslation.FromERequest`: always returns a request. The Fetch `Request` constructor (src/index.ts:82-89) can throw before anything else happens. Examples: a URL it cannot parse, a forbidden method such as `TRACE`, or a stream body given without the `duplex` option. It also parses and normalises the URL. None of this is modelled, and the URL is kept as the concatenated string.
- `example/index.ts` is demonstration setup and `app.listen`. It has no logic to model.
