/**
 * The client façade: request construction for the three public calls, the
 * status classification shared by `getJson` and `postJson`, and the
 * server-sent-events loop of `streamCompletion`.
 *
 * The HTTP transport (the Guzzle client together with its retry middleware)
 * is a parameter: a function from the request to what the transport gave
 * back after its retries, either an exception or a response.
 */
module Client {
  import opened Wrappers
  import opened Text
  import opened Json
  import opened EventStream

  /** `ApiException`: the message, the HTTP status if there was a response, the best-effort decoded body and the transport error it wraps. */
  datatype ApiException = ApiException(
    message: string,
    statusCode: Option<int>,
    responseBody: Option<PhpArray>,
    previous: Option<string>)

  /**
   * What a JSON call can raise: an `ApiException`, or the error
   * `decodeJson` throws for a 2xx body that does not decode.
   */
  datatype Failure = Api(exception: ApiException) | UndecodableBody(body: Bytes)

  datatype Verb = Get | Post

  /** A JSON request body: a PHP array with string keys. */
  type Payload = map<string, Json>

  datatype Request = Request(verb: Verb, uri: string, json: Option<Payload>, acceptsEventStream: bool)

  /** What the transport gives back for a buffered call: a Guzzle exception, or a status and the whole body. */
  datatype Reply = Raised(message: string) | Response(status: int, body: Bytes)

  /**
   * What the transport gives back for a streamed call: a Guzzle exception, or
   * a status, the chunks the body is read in, and the message of the
   * exception the body stream raised before end of body, if it raised one.
   */
  datatype StreamReply =
    | StreamRaised(message: string)
    | Opened(status: int, chunks: seq<Bytes>, readFailure: Option<string>)

  const CompletionsUri := "v1/chat/completions"
  const ModelsUri := "v1/models"
  const UnexpectedStatus := "Unexpected status code"

  predicate IsSuccess(status: int) {
    200 <= status < 300
  }

  function FailurePrefix(verb: Verb): string {
    match verb
    case Get => "HTTP GET failed: "
    case Post => "HTTP POST failed: "
  }

  // ------------------------------------------------------------- JSON calls

  /**
   * The part of `getJson` and `postJson` after the request: a transport
   * exception becomes an `ApiException` without status or body; any status
   * outside [200, 300) becomes an `ApiException` with that status and
   * `tryDecode` of the body, null when it does not decode; a 2xx body is
   * returned decoded.
   */
  function HandleReply(verb: Verb, reply: Reply, decode: Decoder): (r: Result<PhpArray, Failure>)
    ensures r.Ok? <==> reply.Response? && IsSuccess(reply.status) && decode(reply.body).Some?
    ensures r.Ok? ==> decode(reply.body) == Some(r.value)
    ensures reply.Raised? ==>
              r == Err(Api(ApiException(FailurePrefix(verb) + reply.message, None, None, Some(reply.message))))
    ensures reply.Response? && !IsSuccess(reply.status) ==>
              r == Err(Api(ApiException(UnexpectedStatus, Some(reply.status), decode(reply.body), None)))
    ensures reply.Response? && IsSuccess(reply.status) && r.Err? ==> r.error == UndecodableBody(reply.body)
  {
    match reply
    case Raised(message) =>
      Err(Api(ApiException(FailurePrefix(verb) + message, None, None, Some(message))))
    case Response(status, body) =>
      if status < 200 || status >= 300 then
        Err(Api(ApiException(UnexpectedStatus, Some(status), decode(body), None)))
      else
        match decode(body)
        case Some(v) => Ok(v)
        case None => Err(UndecodableBody(body))
  }

  /** `getJson($uri)`, with an empty query. */
  function GetJson(uri: string, send: Request -> Reply, decode: Decoder): Result<PhpArray, Failure> {
    HandleReply(Get, send(Request(Get, uri, None, false)), decode)
  }

  function PostJson(uri: string, json: Payload, send: Request -> Reply, decode: Decoder): Result<PhpArray, Failure> {
    HandleReply(Post, send(Request(Post, uri, Some(json), false)), decode)
  }

  /** `createCompletion`: the payload is posted as it is given. */
  function CreateCompletion(payload: Payload, send: Request -> Reply, decode: Decoder): Result<PhpArray, Failure> {
    PostJson(CompletionsUri, payload, send, decode)
  }

  function ListModels(send: Request -> Reply, decode: Decoder): Result<PhpArray, Failure> {
    GetJson(ModelsUri, send, decode)
  }

  /** A status error is raised whatever the body holds, and a body that does not decode is carried as null. */
  lemma StatusErrorNotMasked(verb: Verb, status: int, body: Bytes, decode: Decoder)
    requires !IsSuccess(status)
    ensures HandleReply(verb, Response(status, body), decode).Err?
    ensures HandleReply(verb, Response(status, body), decode).error.Api?
    ensures HandleReply(verb, Response(status, body), decode).error.exception.statusCode == Some(status)
    ensures decode(body).None? ==> HandleReply(verb, Response(status, body), decode).error.exception.responseBody.None?
  {
  }

  /** A 2xx response whose body decodes gives exactly the decoded body. */
  lemma CompletionReturnsDecodedBody(payload: Payload, send: Request -> Reply, decode: Decoder)
    requires send(Request(Post, CompletionsUri, Some(payload), false)).Response?
    requires IsSuccess(send(Request(Post, CompletionsUri, Some(payload), false)).status)
    requires decode(send(Request(Post, CompletionsUri, Some(payload), false)).body).Some?
    ensures CreateCompletion(payload, send, decode)
         == Ok(decode(send(Request(Post, CompletionsUri, Some(payload), false)).body).value)
  {
  }

  // ------------------------------------------------------------ streamed calls

  /** `$payload['stream'] = true`: the flag is set and every other key keeps its value. */
  function StreamingPayload(payload: Payload): (p: Payload)
    ensures "stream" in p && p["stream"] == JBool(true)
    ensures p.Keys == payload.Keys + {"stream"}
    ensures forall k :: k in payload && k != "stream" ==> p[k] == payload[k]
  {
    payload["stream" := JBool(true)]
  }

  function StreamRequest(payload: Payload): Request {
    Request(Post, CompletionsUri, Some(StreamingPayload(payload)), true)
  }

  /**
   * The `foreach` over the lines of one frame: trim each line, skip blank
   * lines and comments, and for a `data:` line take the trimmed text after the
   * prefix; `[DONE]` stops, an empty payload is skipped, any other payload is
   * decoded and yielded, and one that does not decode stops with a decode
   * error.  The lines' events and the way they stop are `LinesEvents`.
   */
  method HandleFrame(lines: seq<Bytes>, decode: Decoder) returns (frameEvents: seq<PhpArray>, stop: FrameStop)
    ensures FrameResult(frameEvents, stop) == LinesEvents(lines, decode)
  {
    frameEvents := [];
    var j := 0;
    while j < |lines|
      invariant 0 <= j <= |lines|
      invariant LinesEvents(lines, decode)
             == FrameResult(frameEvents + LinesEvents(lines[j..], decode).events, LinesEvents(lines[j..], decode).stop)
    {
      LinesEventsStep(lines, j, decode);
      TrimmedLineAction(lines[j], decode);
      var line := Trim(lines[j]);
      j := j + 1;
      if line == [] || line[0] == Colon {
        continue;
      }
      if StartsWith(line, DataPrefix) {
        var data := Trim(line[|DataPrefix|..]);
        if data == DoneSentinel {
          return frameEvents, Stopped(Done);
        }
        if data != [] {
          match decode(data)
          case None =>
            return frameEvents, Stopped(DecodeError(data));
          case Some(v) =>
            assert frameEvents + [v] + LinesEvents(lines[j..], decode).events
                == frameEvents + ([v] + LinesEvents(lines[j..], decode).events);
            frameEvents := frameEvents + [v];
        }
      }
    }
    stop := Running;
  }

  /**
   * The read loop of `streamCompletion`: append each non-empty chunk to the
   * buffer, cut every complete frame off its front, and handle the frame's
   * lines, returning at `[DONE]` or at a payload that does not decode.  What
   * it yields, and how it ends, is `Scan` of the concatenated chunks, so it
   * does not depend on where the chunk boundaries fall.
   */
  method DecodeEventStream(chunks: seq<Bytes>, decode: Decoder) returns (events: seq<PhpArray>, outcome: Outcome)
    ensures events == Scan(Concat(chunks), decode).events
    ensures outcome == Scan(Concat(chunks), decode).outcome
  {
    var buffer: Bytes := [];
    events := [];
    var i := 0;
    while i < |chunks|
      invariant 0 <= i <= |chunks|
      invariant Scan(Concat(chunks[..i]), decode) == StreamResult(events, Eof, buffer)
    {
      var chunk := chunks[i];
      ghost var before := Concat(chunks[..i]);
      ConcatSnoc(chunks, i);
      i := i + 1;
      if chunk == [] {
        assert before + chunk == before;
        continue;
      }
      ScanAppend(before, chunk, decode);
      buffer := buffer + chunk;

      var cut := SplitFrame(buffer);
      while cut.Some?
        invariant cut == SplitFrame(buffer)
        invariant Scan(Concat(chunks[..i]), decode) == Prepend(events, Scan(buffer, decode))
        decreases |buffer|
      {
        ScanCut(buffer, [], cut.value, decode);
        assert buffer + [] == buffer;
        buffer := cut.value.rest;
        var frameEvents, stop := HandleFrame(Split(cut.value.frame), decode);
        if stop.Stopped? {
          events := events + frameEvents;
          outcome := stop.outcome;
          ResultOfStoppedPrefix(chunks, i, decode);
          return;
        }
        PrependTwice(events, frameEvents, Scan(buffer, decode));
        events := events + frameEvents;
        cut := SplitFrame(buffer);
      }
      assert Scan(buffer, decode) == StreamResult([], Eof, buffer);
      assert events + [] == events;
    }
    assert chunks[..i] == chunks;
    outcome := Eof;
  }

  /**
   * How a streamed call ends: as the event stream ended, with the
   * `ApiException` that wraps a transport exception, or with the exception
   * the body stream raised while being read.
   */
  datatype StreamEnd = Ended(outcome: Outcome) | Failed(exception: ApiException) | ReadFailed(message: string)

  const StreamFailurePrefix := "Streaming request failed: "

  /**
   * `streamCompletion`: post the payload with `stream` set to true and an
   * event-stream `Accept` header, then decode the body.  A transport
   * exception yields nothing and raises an `ApiException` with neither status
   * nor body.  An exception the body stream raises while reading is a PSR-7
   * `RuntimeException`, not a `GuzzleException`, so it leaves the generator
   * unwrapped, after the events of the chunks read before it, unless the
   * stream had already stopped.  The status of an opened stream is not
   * looked at.
   */
  method StreamCompletion(payload: Payload, open: Request -> StreamReply, decode: Decoder)
    returns (events: seq<PhpArray>, end: StreamEnd)
    ensures open(StreamRequest(payload)).StreamRaised? ==>
              events == [] &&
              end == Failed(ApiException(StreamFailurePrefix + open(StreamRequest(payload)).message,
                                         None, None, Some(open(StreamRequest(payload)).message)))
    ensures open(StreamRequest(payload)).Opened? ==>
              events == Scan(Concat(open(StreamRequest(payload)).chunks), decode).events
    ensures open(StreamRequest(payload)).Opened? ==>
              var reply := open(StreamRequest(payload));
              var outcome := Scan(Concat(reply.chunks), decode).outcome;
              if outcome == Eof && reply.readFailure.Some? then
                end == ReadFailed(reply.readFailure.value)
              else
                end == Ended(outcome)
  {
    match open(StreamRequest(payload))
    case StreamRaised(message) =>
      events := [];
      end := Failed(ApiException(StreamFailurePrefix + message, None, None, Some(message)));
    case Opened(_, chunks, readFailure) =>
      var outcome;
      events, outcome := DecodeEventStream(chunks, decode);
      if outcome == Eof && readFailure.Some? {
        end := ReadFailed(readFailure.value);
      } else {
        end := Ended(outcome);
      }
  }
}
