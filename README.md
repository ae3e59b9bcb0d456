# cerebras-php, modelled in Dafny

This project models the decision logic of `cerebras-php`, a small PHP client for the
Cerebras inference API. It covers four pieces:

- **Streaming decoder.** `Client::streamCompletion` reads a server-sent-events body.
  - It keeps a byte buffer across chunk reads and cuts complete frames off the buffer at the first `"\n\n"`.
  - It splits each frame at `"\n"` and trims every line.
  - It yields the JSON-decoded payload of each `data:` line.
  - It stops at `[DONE]`. A payload that does not decode ends the stream with the decoder's error.
- **Status classification.** `getJson` and `postJson`, with `tryDecode`, turn a transport reply into a decoded body or an `ApiException`. The exception carries the message, the status, the best-effort decoded body and the wrapped transport error.
- **Retries.** `RetryMiddlewareFactory::create` supplies two closures: the retry decider and the exponential backoff delay.
- **Configuration.** `Config` supplies the settings defaults and rejects an empty API key.

Files:

- `wrappers.dfy`: `Option` and `Result`.
- `text.dfy`: PHP strings as byte sequences, plus `trim`, `str_starts_with` and `explode("\n", …)`.
- `json.dfy`: the decoded-JSON value and the PHP array `decodeJson` returns. The JSON decoder is a parameter `Bytes -> Option<PhpArray>`. A success is therefore always a list or a map. `None` stands for every input on which `ResponseDecoder::decodeJson` throws.
  - The input may be malformed JSON; `decodeJson` then raises a `RuntimeException`.
  - The input may be valid JSON that is not an array; `decodeJson` then raises a `TypeError` under `strict_types`.
- `event_stream.dfy`: the meaning of a received text.
  - `Scan` is stated over the concatenation of everything read so far. It cuts frames (`SplitFrame`), classifies lines (`ClassifyLine`, `LineAction`) and handles one frame (`LinesEvents`).
  - The lemmas cover laziness, stopping, discarding a partial frame at end of body, and which payloads become events.
- `client.dfy`: the client.
  - `HandleReply` is shared by `getJson` and `postJson`.
  - `StreamCompletion` shapes the request.
  - The frame loop is the method `HandleFrame`, proved equal to `LinesEvents` of the frame's lines.
  - The read loop is the method `DecodeEventStream`, proved equal to `Scan` of the concatenated chunks, so the result does not depend on where chunk boundaries fall.
- `retry.dfy`: the decider `ShouldRetry`, the delay `Delay`, and `AttemptsFrom`, the number of attempts the decider allows under Guzzle's calling convention.
- `config.dfy`: `NewConfig` and `DefaultConfig`.

The HTTP transport is a function parameter. It maps the request to what Guzzle gave back after its retry middleware: an exception message, or a status and a body. For a streamed call the body arrives as a finite sequence of chunks.

Two behaviours of the code are easy to misread, and the model follows the code in both:

- `createCompletion` posts the payload unchanged. It does not force `stream` to false.
- The status of a streamed response is not checked.

## Model

| member | source | states |
|---|---|---|
| EventStream.FindDelim | src/Client.php:77 | `strpos($buffer, "\n\n")`: the result is a delimiter position with no delimiter before it; none means no delimiter at or after the start |
| EventStream.SplitFrame | src/Client.php:77-79 | after one extraction, frame + `"\n\n"` + new buffer is the old buffer, no delimiter starts inside the frame, and there is no cut exactly when the buffer has no `"\n\n"` |
| EventStream.CutIsFirst | src/Client.php:77-79 | conversely, any split of a buffer at a first `"\n\n"` is the cut `SplitFrame` makes |
| Text.TrimMeaning | src/Client.php:82 | `trim` gives a result that neither starts nor ends with a strippable byte and sits in the input between runs of strippable bytes |
| Text.Split | src/Client.php:81 | `explode("\n", $event)` gives at least one piece, none containing a line feed, and joining the pieces with line feeds gives back the frame |
| Text.SplitWithoutLF | src/Client.php:81 | a frame without line feeds is one line |
| EventStream.ClassifyLine | src/Client.php:82-87 | how the loop body sees a line once trimmed: blank, an SSE comment, a `data:` line with payload `trim(substr($line, 5))`, or any other line; `DataLineClassified` and `SilentLine` state what follows from it |
| EventStream.PayloadAction | src/Client.php:87-93 | what a `data:` payload leads to: `[DONE]` ends the stream, an empty payload is skipped, any other payload is decoded and yielded, or ends the stream with a decode error when it does not decode; `LineActionMeaning` states it per line |
| EventStream.LineAction | src/Client.php:82-94 | the action of one line of a frame: `PayloadAction` of the payload of a `data:` line, nothing for any other line; its meaning is `LineActionMeaning` |
| EventStream.LinesEvents | src/Client.php:81-95 | the events a frame's lines yield and whether the frame lets the stream go on; `FrameStopsAt`, `FrameEventsExact`, `FrameRunsThrough` and `DoneEndsFrame` state its meaning, and `Client.HandleFrame` is proved equal to it |
| EventStream.LineActionMeaning | src/Client.php:82-94 | a line yields an event iff it is a `data:` line whose payload is neither empty nor `[DONE]` and decodes, and the event is the decoded payload; it stops the stream normally iff its payload is `[DONE]`; it stops with a decode error iff its payload is such a line's and does not decode; it never stops with end of body |
| EventStream.Scan | src/Client.php:70-97 | when the body ends normally, the text left in the buffer holds no `"\n\n"` |
| EventStream.ScanAppend | src/Client.php:69-96 | reading more text after a stream that has not stopped keeps every event already produced and continues from the leftover buffer plus the new text |
| EventStream.ScanStopped | src/Client.php:87-90 | once `[DONE]` or a decode error has stopped the stream, further text, buffered or still to be read, changes neither the events nor the outcome |
| EventStream.ScanPrefix | src/Client.php:51-101 | the events produced from a prefix of the text are a prefix of the events of the whole text |
| EventStream.EofDiscardsPartialFrame | src/Client.php:70-97 | text after the last `"\n\n"` at end of body is never emitted, and the stream then ends normally |
| EventStream.StreamIsIncremental | src/Client.php:69-96 | laziness: the events of the first i chunks are a prefix of the events of all the chunks |
| EventStream.ResultOfStoppedPrefix | src/Client.php:87-90 | a stream that stopped within its first i chunks has the same events and outcome whatever chunks follow |
| EventStream.FrameEventsArePayloads | src/Client.php:81-95 | the k-th event of a frame is the decoded payload of its k-th event line; a frame that does not stop yields one event per event line |
| EventStream.FrameRunsThrough | src/Client.php:81-95 | a frame lets the stream continue iff it holds no `[DONE]` line and every event payload in it decodes |
| EventStream.DoneEndsFrame | src/Client.php:87-90 | lines after a `[DONE]` line in the same frame are never looked at, and the frame stops the stream |
| EventStream.FrameStopsAt | src/Client.php:81-95 | a frame stops at its first line that ends the stream: it yields exactly the events of the lines before that line, which let the stream go on, and stops with that line's outcome; a frame with no such line lets the stream go on |
| EventStream.FrameEventsExact | src/Client.php:86-93 | whether or not the frame stops the stream, it yields exactly one event per event line before the stopping line, the k-th event decoded from the k-th such payload |
| EventStream.SilentLine | src/Client.php:82-86 | blank lines, comment lines, lines not starting with `data:` and empty payloads yield nothing |
| EventStream.ScanEventsArePayloads | src/Client.php:77-95 | every event of the stream is the decoded payload of the event line in the same position of the complete frames, in stream order; a stream ending normally yields one event per event line |
| EventStream.ScanEventsExact | src/Client.php:77-95 | however the stream ends, at `[DONE]`, at a decode error or at end of body, it yields exactly one event per event line it reaches, in stream order, each decoded from that line's payload |
| EventStream.DataLineClassified | src/Client.php:82-87 | `data: <payload>` with a trimmed non-empty payload is a `data:` line with exactly that payload |
| EventStream.DataFrameCut | src/Client.php:77-79 | a text starting with the frame `data: <payload>\n\n` is cut right after it |
| EventStream.DataFrameFirst | src/Client.php:86-93 | a leading `data:` frame of `[DONE]` ends the stream with no event whatever follows; with an undecodable payload it ends with that decode error; otherwise its decoded payload is the first event and the rest comes from the following text |
| EventStream.OneFrameOneEvent | src/Client.php:69-97 | a body of one decodable `data:` frame yields exactly that event and ends normally with an empty buffer |
| Client.HandleFrame | src/Client.php:81-95 | the `foreach` over a frame's lines yields exactly the events `LinesEvents` gives and stops as it says |
| Client.DecodeEventStream | src/Client.php:69-97 | the read loop yields the events and ends with the outcome of `Scan` on the concatenation of the chunks: chunking independence, with empty chunks skipped |
| Client.StreamCompletion | src/Client.php:51-101 | a transport exception yields nothing and raises `ApiException("Streaming request failed: " + message)` with no status or body; otherwise the events are those of the body; the end is the body's outcome, or the read error when reading failed before the stream stopped |
| Client.StreamingPayload | src/Client.php:53-54 | `stream` is set to true and every other key of the payload keeps its value |
| Client.HandleReply | src/Client.php:109-158 | success iff a response with status in [200, 300) whose body decodes, and the result is the decoded body; a transport error becomes `ApiException("HTTP GET/POST failed: " + message)` with no status and no body; any other status raises `Unexpected status code` with that status and `tryDecode` of the body; a 2xx body that does not decode raises the decoder's error |
| Client.GetJson | src/Client.php:109-128 | sends a GET to the URI with no body and an ordinary `Accept` header, then classifies the reply with `HandleReply` |
| Client.PostJson | src/Client.php:130-149 | sends a POST to the URI with the payload as its JSON body, then classifies the reply with `HandleReply` |
| Client.CreateCompletion | src/Client.php:44-47 | posts the payload, unchanged, to `v1/chat/completions` |
| Client.ListModels | src/Client.php:104-107 | gets `v1/models` |
| Client.StreamRequest | src/Client.php:53-65 | the streamed request: a POST to `v1/chat/completions` whose JSON body is the payload with `stream` set to true, accepting an event stream |
| Client.StatusErrorNotMasked | src/Client.php:119-158 | a status outside [200, 300) is always raised as an `ApiException` carrying the status, whatever the body; an undecodable body is carried as null |
| Client.CompletionReturnsDecodedBody | src/Client.php:44-47 | a 2xx completion response whose body decodes returns exactly the decoded body |
| Retry.ShouldRetry | src/Http/RetryMiddlewareFactory.php:15-50 | retry iff fewer than `maxRetries` retries were made and there is a transport exception or a response with status 429 or in [500, 600) |
| Retry.CapStopsRetrying | src/Http/RetryMiddlewareFactory.php:21-23 | at or over the cap, nothing is retried, whatever the response or exception |
| Retry.ExceptionRetried | src/Http/RetryMiddlewareFactory.php:25-33 | under the cap, a transport exception is always retried |
| Retry.StatusRetriedIffRetryable | src/Http/RetryMiddlewareFactory.php:35-49 | under the cap and without an exception, a response is retried iff its status is 429 or 5xx, so 3xx, 400 and 404 are not |
| Retry.NothingToRetry | src/Http/RetryMiddlewareFactory.php:35-49 | no response and no exception: no retry |
| Retry.Delay | src/Http/RetryMiddlewareFactory.php:51-56 | the delay after n retries lies in [100·2^n, 100·2^n + 100] ms for jitter in [0, 100] |
| Retry.BackoffNeverShrinks | src/Http/RetryMiddlewareFactory.php:53-56 | the shortest delay at n + 1 is at least the longest delay at n |
| Retry.AttemptsFrom | src/Http/RetryMiddlewareFactory.php:12-23 | the decider allows at least one attempt, and at most one more than the retries left under the cap |
| Retry.AttemptsBounded | src/Http/RetryMiddlewareFactory.php:12-23 | at most `maxRetries` retries follow the first attempt, for every cap |
| Retry.PersistentFailureUsesEveryRetry | src/Http/RetryMiddlewareFactory.php:21-46 | a backend that fails every attempt with an exception or a 429/5xx gets exactly `maxRetries` retries |
| Retry.DefaultCapAllowsFourAttempts | src/Http/RetryMiddlewareFactory.php:12-23 | with the default cap of 3, which the client gets from `create($logger)` (src/Client.php:27), there are at most four attempts in all, and exactly four against a backend that fails every time |
| Config.NewConfig | src/Config.php:9-19 | an empty API key fails with `InvalidArgumentException("API key must not be empty.")`; any other key succeeds, and the configuration holds exactly the arguments given and keeps the non-empty-key invariant |
| Config.DefaultConfig | src/Config.php:11-14 | the defaults are `https://api.cerebras.ai`, no organization, a 60 s timeout and a 10 s connect timeout |
| Config.ConstructionExamples | tests/ClientConstructionTest.php:13-23 | `new Config('')` throws and `new Config('test-key')` succeeds |

## Left out

- The Guzzle client construction, the handler stack, header assembly and the `rtrim` of the base URI (src/Client.php:26-40) belong to a foreign library. `array_filter` drops a null `X-Organization` header. It also drops any other falsy header value, such as the organization `"0"`. That is not modelled.
- The transport in `HandleReply`. Guzzle's default `http_errors` option throws its own exception for a 4xx or 5xx response, and the model receives that as a transport exception. The `getJson`/`postJson` status check therefore matters only for statuses Guzzle lets through. Which statuses those are is Guzzle's concern; the model takes the reply as an input.
- The `Middleware::retry` loop, the sleeping and `random_int` are foreign or nondeterministic. The jitter is an input, and `AttemptsFrom` states only how many attempts the decider permits.
- Retry.Delay: the `retries` argument is any natural number. Guzzle passes the retry count after incrementing it, so it is at least 1; the model does not restrict it.
- Retry.Delay: PHP's `2 ** $retries` becomes a float once it passes the 64-bit integer range. The model uses unbounded integers. With the default cap of three retries this cannot happen.
- Logger calls in the retry decider only have side effects.
- The JSON parser (`json_decode`) is abstract. The model does not track the key order of PHP arrays.
- The `query` option of `getJson` is always empty in the only caller, so it is not modelled.
- HTTP bodies are finite sequences of chunks. The size of each `read(8192)` and the `eof()` test are not modelled.
- A stream that ends at a payload that does not decode ends with `DecodeError(payload)`. It carries the payload, not the message of the exception `decodeJson` throws ("Failed to decode JSON: …", or the `TypeError` for a non-array result). Those messages come from PHP's parser, which is not part of this model.
- A stream that ends at a read error carries only the message of the exception the body stream raised.
- The wrapped `previous` exception of an `ApiException` is represented by its message.
- The example pages under `examples/` and the network tests are out of scope.
