# HttpServer request bookkeeping, in Dafny

A model of the in-test HTTP server double of Bandwidth.Net (`HttpServer` and
`RequestHandler` in `Bandwidth.Net.Tests/HttpServer.cs`). A test gives the
server an ordered list of request handlers. Each handler is an expectation
about one incoming request plus the response to script for it. The n-th
request is checked against the n-th handler, and every request after the last
handler is checked against the last one. The server counts the requests it
has handled. It records every failure it catches, and `Error` returns the
most recent one.

Files:

- `wrappers.dfy`: `Option` (a null reference) and `Result` (a value or the
  exception thrown instead).
- `exchange.dfy`, module `Exchange`: the value-level specification of one
  exchange. It holds the `RequestHandler` record and its defaults, the
  request, the checks a handler asks for and their order, the first failing
  check (`Validate`), the scripted headers and the response (`Serve`).
- `server.dfy`, module `Server`: handler selection (`Select`), one handled
  accept as a value (`Step`) and a sequence of them (`Run`). `Step` and `Run`
  take the exchange function as a parameter. The server passes `Serve`, and
  the bookkeeping lemmas hold whatever the exchange does. It also holds the
  class `HttpServer`, whose `Dispatch` method changes `requestCount` and
  `errors` in place. `Dispatch` calls the imperative `Respond` (the body of
  the try block), which calls `Verify` (the assertions, with the loop over
  the expected headers in `VerifyHeaders`) and `AddScriptedHeaders` (the
  `AddHeader` loops). Each is proved to compute its specification function.

Modelling choices:

- A C# `null` is `None`. The two dictionaries of a handler
  (`EstimatedHeaders`, `HeadersToSend`) are sequences of pairs in their
  enumeration order. The content headers of `ContentToSend` are a sequence of
  names, each with its list of values.
- A request's headers are a map. Looking up an absent header gives `None`, so
  it fails any non-null expected value and passes a null one.
- A failed `Assert.AreEqual` is a `Mismatch` value naming the field, the
  expected value and the actual value. A fault while copying the payload is
  `CopyFailed`. A scripted status outside 100..999, which the response
  refuses, is `StatusRejected` with that code. All three are caught and
  appended to the error list.
- One completed accept wait is an `Accept` value. Either it faulted only
  with `ObjectDisposedException`s, or it carries the request. A request comes with
  two flags from the environment: whether the listener is still listening,
  and whether copying the payload throws.

## Model

| member | source | states |
|---|---|---|
| `Exchange.DefaultHandler` | Bandwidth.Net.Tests/HttpServer.cs:147-151 | A fresh handler makes exactly one check, that the method is "GET". It answers 200 and scripts no headers and no content. |
| `Exchange.Validate` | Bandwidth.Net.Tests/HttpServer.cs:74-95 | A reported mismatch belongs to one of the handler's checks, its actual value is the request's, and the expected and actual values differ. A handler that sets no field reports nothing. |
| `Exchange.DefaultHandlerExpectsGet` | Bandwidth.Net.Tests/HttpServer.cs:147-151 | A fresh handler answers 200. It accepts exactly the GET requests, whatever their path, body and headers. Any other method is reported as a method mismatch with expected "GET". |
| `Exchange.FirstFailureIsFirst` | Bandwidth.Net.Tests/HttpServer.cs:74-95 | Running checks in order reports nothing iff every check holds. Otherwise it reports the mismatch of a failing check such that every check before it holds. |
| `Exchange.FirstFailureAppend` | Bandwidth.Net.Tests/HttpServer.cs:74-95 | For two groups of checks run one after the other, the first group decides when one of its checks fails. Otherwise the second group decides. |
| `Exchange.ValidateNoneIff` | Bandwidth.Net.Tests/HttpServer.cs:74-95 | Validation passes iff the request conforms: every set field (method, path and query, body) equals the request's, and every expected header has exactly the expected value (absent counts as null). Unset fields are not checked. |
| `Exchange.ValidateReportsFirstMismatch` | Bandwidth.Net.Tests/HttpServer.cs:74-95 | A reported mismatch belongs to a check the handler asks for. Its expected and actual values differ, and the actual value is the request's. Checks run in the order method, path, body, headers: a later field is reported only when every earlier set field matched. |
| `Exchange.FlattenAppend` | Bandwidth.Net.Tests/HttpServer.cs:105-111 | The content-header pairs of consecutive header groups come in the order of the groups. |
| `Exchange.FlattenMembership` | Bandwidth.Net.Tests/HttpServer.cs:105-111 | A pair (name, value) is added for the content headers iff some content header has that name and that value among its values. |
| `Exchange.FlattenLength` | Bandwidth.Net.Tests/HttpServer.cs:105-111 | One header pair is added per content header value. |
| `Exchange.Serve` | Bandwidth.Net.Tests/HttpServer.cs:96-121 | On any failure the status is never set; a failed assertion or a failed copy writes no body. A failed assertion leaves the response untouched and carries the mismatch `Validate` reports. A failed copy happens only with scripted content and leaves the scripted headers added. A refused status carries its code, which is outside 100..999, and the scripted headers and payload were already written. Without a failure the status is the scripted one and lies in 100..999. |
| `Exchange.ServeContract` | Bandwidth.Net.Tests/HttpServer.cs:74-121 | An exchange fails iff the request does not conform, the payload copy throws, or the scripted status is outside 100..999. On a failed assertion the first mismatch is captured, and no header, status or body reaches the response. On a conforming request the response gets the scripted headers. When the copy of scripted content throws, the fault is `CopyFailed` and no status is set. Otherwise a status outside 100..999 is refused as `StatusRejected`, with no status set and the payload written. On success it also gets the scripted status and the payload. |
| `Server.Select` | Bandwidth.Net.Tests/HttpServer.cs:125-132 | The selected handler is always one of the handlers. While the count is within the list it is the handler at that position. From the last position on it is the last handler. Selection needs a non-empty list. |
| `Server.LastError` | Bandwidth.Net.Tests/HttpServer.cs:134-140 | The most recently appended failure, or none exactly when the list is empty. |
| `Server.HttpServer.Error` | Bandwidth.Net.Tests/HttpServer.cs:134-140 | The server's `Error`: the last entry of its error list, or none exactly when the list is empty. |
| `Server.LastErrorAppend` | Bandwidth.Net.Tests/HttpServer.cs:134-140 | After failures are appended, `Error` is the last one appended. When nothing is appended, `Error` is what it was. |
| `Server.Step` | Bandwidth.Net.Tests/HttpServer.cs:57-122 | One accept wait is answered iff it brought a request, the list is non-empty and the listener still listens. Then the count goes up by exactly one and it stays unchanged otherwise. An empty list crashes. The error list grows at its end by exactly the captured failure, if any. The reply is the exchange (`Serve` in the server) with the handler selected by the count before the request. |
| `Server.RunBookkeeping` | Bandwidth.Net.Tests/HttpServer.cs:117-122 | Over any sequence of accept waits, the count grows by exactly the number of answered requests. The error list keeps its old entries as a prefix and grows by the captured failures, in order. |
| `Server.RunLastError` | Bandwidth.Net.Tests/HttpServer.cs:134-140 | After any sequence of accept waits, `Error` is the last failure captured during it. If none was captured, it is what it was before. |
| `Server.RunServesAt` | Bandwidth.Net.Tests/HttpServer.cs:122-132 | When every accept brings a request while listening, the i-th outcome is the answer of the handler selected with the starting count plus i. |
| `Server.RunServesInOrder` | Bandwidth.Net.Tests/HttpServer.cs:122-132 | When every accept brings a request while listening, the outcomes are all answers, in arrival order. The i-th request is served by the handler selected with the starting count plus i, and the count grows by the number of requests. |
| `Server.FreshServerMatchesInOrder` | Bandwidth.Net.Tests/HttpServer.cs:26-35 | From a new server, request i is checked against and answered by handler i. Every request past the end uses the last handler. |
| `Server.AddScriptedHeaders` | Bandwidth.Net.Tests/HttpServer.cs:96-111 | The header loops add exactly the `HeadersToSend` entries, then every value of every content header, in enumeration order. |
| `Server.Verify` | Bandwidth.Net.Tests/HttpServer.cs:74-95 | The assertion sequence, including the loop over expected headers, returns exactly the first mismatch that `Validate` specifies, or none. |
| `Server.VerifyHeaders` | Bandwidth.Net.Tests/HttpServer.cs:89-95 | The loop over the expected headers returns exactly the first header check that fails, in enumeration order, or none. |
| `Server.Respond` | Bandwidth.Net.Tests/HttpServer.cs:72-115 | The try block for one request (assertions, header loops, payload copy, status assignment) produces exactly the reply and the fault that `Serve` specifies. |
| `Server.HttpServer.constructor` | Bandwidth.Net.Tests/HttpServer.cs:26-35 | A new server keeps the given handlers, has count 0 and no errors, and `Error` is none. |
| `Server.HttpServer.Single` | Bandwidth.Net.Tests/HttpServer.cs:21-24 | The single-handler server is the server over the one-element list. |
| `Server.HttpServer.Create` | Bandwidth.Net.Tests/HttpServer.cs:26-29 | A null handler array is rejected with an argument error naming "handlers". Any other array gives a fresh server over it with count 0 and no errors. |
| `Server.HttpServer.Dispatch` | Bandwidth.Net.Tests/HttpServer.cs:57-123 | Handling one accept wait has exactly the effect of `Step` on the count and the error list, and returns its outcome. The count rises by one per answered request, and a failure is appended at the end and becomes `Error`. An accept faulted by disposal, or arriving after listening stopped, changes nothing. |

## Left out

- The `HttpListener`: its prefix (default `http://localhost:3001/`), `Start`, `IsListening` and `Dispose`. Socket I/O through a library outside the model. Whether the listener still listens is an input of each accept.
- The self-re-arming `GetContextAsync().ContinueWith(...)` chain and the `async void` scheduling. Dispatches are a sequence of calls, one per completed accept wait.
- Overlapping dispatches. `HandlerRequest` is `async void`, and the next accept is armed as soon as it first yields at the awaited payload copy. A second request can then select its handler before the first one increments `RequestCount`, and the increment itself is not atomic. The model assumes that each dispatch finishes before the next one selects its handler. `Server.FreshServerMatchesInOrder` holds only under that assumption.
- An accept that faulted with any exception other than `ObjectDisposedException`, including a disposal reported under another type. `obj.Result` then rethrows outside the try block and the exception escapes the handler. Only a fault made entirely of `ObjectDisposedException`s is modelled (`DisposedFault`).
- `Server.Step`: with an empty handler array, selection indexes -1 outside the try block and the exception escapes. The model returns `Crashed` and leaves the state unchanged. It does not model what happens to the process afterwards.
- `Server.HttpServer.Dispatch`: `RequestCount` is a 32-bit `int` in the source. The model's count is unbounded and does not wrap after 2^31 - 1 requests.
- UTF-8 decoding of the request body with `StreamReader`, and `HttpContent.CopyToAsync`. The body is an already decoded string, and the payload is a string copied whole.
- `Exchange.Serve`: when the payload copy throws, the response's body is modelled as empty. The bytes copied before the fault are not modelled.
- `Exchange.Serve`: an I/O fault while reading the request body or while closing the response is not modelled. In the source it is caught, appended to the error list, and the request is counted. The body is an already read string, and closing always succeeds in the model.
- `Exchange.Response` records the calls the server makes, not what reaches the client. `headers` lists every `AddHeader` call, although `HttpListenerResponse.AddHeader` replaces an earlier header of the same name, so a content header with two values reaches the client with its last value only. `status` is the value assigned after the body was copied; what the listener then sends is not modelled.
- Case-insensitive lookup and comma-joined multiple values of request headers (`WebHeaderCollection`). A request's headers are a plain map.
- Exceptions thrown by `AddHeader` itself (restricted or invalid header names) and null entries in the handler array or in `HeadersToSend`.
- `Assert.AreEqual` internals: a failed assertion is a `Mismatch` value, not an exception object with a message.
- Changes to the caller's handler array after construction (the array is shared, not copied). The model's handlers are an immutable sequence.
- `src/Bandwidth.Net/XmlV2/Verbs/Record.cs` is not part of this model: it is a data class whose behaviour lives in the XML serializer.
