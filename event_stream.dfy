/**
 * What `Client::streamCompletion` makes of the text of a server-sent-events
 * body, stated over the whole text received so far.
 *
 * The frame delimiter is exactly the two bytes "\n\n"; each frame is split at
 * "\n" and every line is trimmed before it is looked at; each `data:` line is
 * an event of its own (lines are not concatenated as the WHATWG event-stream
 * format would do); the payload `[DONE]` ends the stream, an empty payload is
 * skipped and any other payload is decoded, a payload that does not decode
 * ending the stream with a decode error.
 */
module EventStream {
  import opened Wrappers
  import opened Text
  import opened Json

  /** "data:" */
  const DataPrefix: Bytes := [0x64, 0x61, 0x74, 0x61, 0x3A]
  /** "[DONE]" */
  const DoneSentinel: Bytes := [0x5B, 0x44, 0x4F, 0x4E, 0x45, 0x5D]

  // ---------------------------------------------------------------- frames

  /** A "\n\n" starts at index `i` of `s`. */
  predicate DelimAt(s: Bytes, i: int) {
    0 <= i && i + 1 < |s| && s[i] == LF && s[i + 1] == LF
  }

  predicate NoDelim(s: Bytes) {
    forall i :: 0 <= i < |s| ==> !DelimAt(s, i)
  }

  /** `strpos($s, "\n\n", $from)`: the first delimiter at or after `from`. */
  function FindDelim(s: Bytes, from: nat): (r: Option<nat>)
    ensures r.Some? ==> from <= r.value && DelimAt(s, r.value)
    ensures r.Some? ==> forall j :: from <= j < r.value ==> !DelimAt(s, j)
    ensures r.None? ==> forall j :: from <= j < |s| ==> !DelimAt(s, j)
    decreases |s| - from
  {
    if from + 1 >= |s| then None
    else if s[from] == LF && s[from + 1] == LF then Some(from)
    else FindDelim(s, from + 1)
  }

  /** A buffer cut at its first delimiter: the frame before it and the text after it. */
  datatype Cut = Cut(frame: Bytes, rest: Bytes)

  /**
   * One extraction step of the inner loop: the frame is the text before the
   * first "\n\n" and the new buffer the text after it, so frame, delimiter and
   * new buffer make up the old buffer.  No delimiter starts inside the frame
   * or at its last byte, which is what makes the cut the first one.
   */
  function SplitFrame(buf: Bytes): (c: Option<Cut>)
    ensures c.Some? ==> buf == c.value.frame + [LF, LF] + c.value.rest
    ensures c.Some? ==> NoDelim(c.value.frame + [LF])
    ensures c.None? <==> NoDelim(buf)
  {
    match FindDelim(buf, 0)
    case None => None
    case Some(p) =>
      var frame, rest := buf[..p], buf[p + 2..];
      assert buf == frame + [LF, LF] + rest;
      assert DelimAt(buf, |frame|);
      assert forall j :: 0 <= j < |frame| + 1 ==> (DelimAt(frame + [LF], j) ==> DelimAt(buf, j));
      Some(Cut(frame, rest))
  }

  /** The converse of `SplitFrame`'s contract: any decomposition at a first delimiter is the cut it makes. */
  lemma CutIsFirst(buf: Bytes, frame: Bytes, rest: Bytes)
    requires buf == frame + [LF, LF] + rest
    requires NoDelim(frame + [LF])
    ensures SplitFrame(buf) == Some(Cut(frame, rest))
  {
    assert DelimAt(buf, |frame|);
    assert forall j :: 0 <= j < |frame| ==> (DelimAt(buf, j) ==> DelimAt(frame + [LF], j));
    var p := FindDelim(buf, 0).value;
    assert p == |frame|;
    assert buf[..p] == frame;
    assert buf[p + 2..] == rest;
  }

  // ----------------------------------------------------------------- lines

  /**
   * How the loop body sees one line after trimming it: blank, an SSE comment
   * (leading ':'), a `data:` line with its trimmed payload, or any other line.
   */
  datatype LineKind = Blank | Comment | OtherField | Data(payload: Bytes)

  function ClassifyLine(line: Bytes): LineKind {
    var t := Trim(line);
    if t == [] then Blank
    else if t[0] == Colon then Comment
    else if StartsWith(t, DataPrefix) then Data(Trim(t[|DataPrefix|..]))
    else OtherField
  }

  /**
   * A line is blank when nothing is left after trimming, a comment when what is
   * left starts with ':', and a `data:` line, with the trimmed rest as its
   * payload, when what is left starts with "data:".
   */
  lemma ClassifyLineMeaning(line: Bytes)
    ensures ClassifyLine(line).Blank? <==> Trim(line) == []
    ensures ClassifyLine(line).Comment? <==> Trim(line) != [] && Trim(line)[0] == Colon
    ensures ClassifyLine(line).Data? <==> StartsWith(Trim(line), DataPrefix)
    ensures ClassifyLine(line).Data? ==> ClassifyLine(line).payload == Trim(Trim(line)[|DataPrefix|..])
  {
  }

  /** A `data:` line whose payload is `[DONE]`. */
  predicate IsDoneLine(line: Bytes) {
    ClassifyLine(line) == Data(DoneSentinel)
  }

  /** A `data:` line whose payload is neither empty nor `[DONE]`: the lines that become events. */
  predicate IsEventLine(line: Bytes) {
    var k := ClassifyLine(line);
    k.Data? && k.payload != [] && k.payload != DoneSentinel
  }

  /** How decoding a stream ends: at `[DONE]`, at the end of the body, or at a payload that does not decode. */
  datatype Outcome = Done | Eof | DecodeError(payload: Bytes)

  /** Whether the lines of a frame let the stream go on. */
  datatype FrameStop = Running | Stopped(outcome: Outcome)

  datatype FrameResult = FrameResult(events: seq<PhpArray>, stop: FrameStop)

  /** What the loop body does with one line: nothing, yield an event, or end the stream. */
  datatype Action = Skip | Emit(event: PhpArray) | Halt(outcome: Outcome)

  /** What a `data:` line's trimmed payload leads to. */
  function PayloadAction(payload: Bytes, decode: Decoder): Action {
    if payload == DoneSentinel then Halt(Done)
    else if payload == [] then Skip
    else
      match decode(payload)
      case None => Halt(DecodeError(payload))
      case Some(v) => Emit(v)
  }

  function LineAction(line: Bytes, decode: Decoder): Action {
    match ClassifyLine(line)
    case Data(p) => PayloadAction(p, decode)
    case _ => Skip
  }

  /**
   * A line yields an event exactly when it is an event line whose payload
   * decodes, ends the stream normally exactly when it is a `[DONE]` line, and
   * ends it with an error exactly when it is an event line whose payload does
   * not decode.
   */
  lemma LineActionMeaning(line: Bytes, decode: Decoder)
    ensures var a := LineAction(line, decode);
      && (a.Emit? <==> IsEventLine(line) && decode(ClassifyLine(line).payload).Some?)
      && (a.Emit? ==> decode(ClassifyLine(line).payload) == Some(a.event))
      && (a == Halt(Done) <==> IsDoneLine(line))
      && (a.Halt? && a.outcome.DecodeError? <==> IsEventLine(line) && decode(ClassifyLine(line).payload).None?)
      && (a.Halt? && a.outcome.DecodeError? ==> a.outcome.payload == ClassifyLine(line).payload)
      && (a.Halt? ==> !a.outcome.Eof?)
  {
  }

  /** `LineAction` in the terms the loop body tests: the trimmed line, and the trimmed text after `data:`. */
  lemma TrimmedLineAction(line: Bytes, decode: Decoder)
    ensures Trim(line) == [] || Trim(line)[0] == Colon ==> LineAction(line, decode) == Skip
    ensures Trim(line) != [] && Trim(line)[0] != Colon && !StartsWith(Trim(line), DataPrefix) ==>
              LineAction(line, decode) == Skip
    ensures Trim(line) != [] && Trim(line)[0] != Colon && StartsWith(Trim(line), DataPrefix) ==>
              LineAction(line, decode) == PayloadAction(Trim(Trim(line)[|DataPrefix|..]), decode)
  {
  }

  /** The `foreach` over the lines of one frame. */
  function LinesEvents(lines: seq<Bytes>, decode: Decoder): (f: FrameResult)
    ensures f.stop.Stopped? ==> !f.stop.outcome.Eof?
  {
    if lines == [] then FrameResult([], Running)
    else
      match LineAction(lines[0], decode)
      case Skip => LinesEvents(lines[1..], decode)
      case Halt(o) => FrameResult([], Stopped(o))
      case Emit(v) =>
        var more := LinesEvents(lines[1..], decode);
        FrameResult([v] + more.events, more.stop)
  }

  /** One turn of the `foreach`: the frame result from line `j` on, in terms of line `j`'s action. */
  lemma LinesEventsStep(lines: seq<Bytes>, j: nat, decode: Decoder)
    requires j < |lines|
    ensures LineAction(lines[j], decode).Skip? ==> LinesEvents(lines[j..], decode) == LinesEvents(lines[j + 1..], decode)
    ensures LineAction(lines[j], decode).Halt? ==>
              LinesEvents(lines[j..], decode) == FrameResult([], Stopped(LineAction(lines[j], decode).outcome))
    ensures LineAction(lines[j], decode).Emit? ==>
              (LinesEvents(lines[j..], decode)
               == FrameResult([LineAction(lines[j], decode).event] + LinesEvents(lines[j + 1..], decode).events,
                              LinesEvents(lines[j + 1..], decode).stop))
  {
    assert lines[j..][0] == lines[j];
    assert lines[j..][1..] == lines[j + 1..];
  }

  // ---------------------------------------------------------------- stream

  /**
   * The events yielded, how the stream ended, and what was left in the buffer
   * when it ended.
   */
  datatype StreamResult = StreamResult(events: seq<PhpArray>, outcome: Outcome, rest: Bytes)

  function Prepend(events: seq<PhpArray>, r: StreamResult): StreamResult {
    r.(events := events + r.events)
  }

  /**
   * A frame's events followed by what the buffer after it gives: nothing more
   * if the frame stopped the stream, `next` otherwise.
   */
  function Then(f: FrameResult, buffer: Bytes, next: StreamResult): StreamResult {
    if f.stop.Stopped? then StreamResult(f.events, f.stop.outcome, buffer)
    else Prepend(f.events, next)
  }

  /**
   * The reference meaning of a received text: cut it at its first "\n\n",
   * handle the frame's lines, and go on with the rest unless the frame
   * stopped the stream; text without a delimiter ends it normally.
   */
  function Scan(text: Bytes, decode: Decoder): (r: StreamResult)
    ensures r.outcome.Eof? ==> NoDelim(r.rest)
    decreases |text|
  {
    match SplitFrame(text)
    case None => StreamResult([], Eof, text)
    case Some(cut) => Then(LinesEvents(Split(cut.frame), decode), cut.rest, Scan(cut.rest, decode))
  }

  /** The concatenation of the chunks read from the body. */
  function Concat(chunks: seq<Bytes>): Bytes {
    if chunks == [] then [] else Concat(chunks[..|chunks| - 1]) + chunks[|chunks| - 1]
  }

  lemma {:induction false} ConcatAppend(a: seq<Bytes>, b: seq<Bytes>)
    ensures Concat(a + b) == Concat(a) + Concat(b)
    decreases |b|
  {
    if b == [] {
      assert a + b == a;
    } else {
      var b' := b[..|b| - 1];
      assert (a + b)[..|a + b| - 1] == a + b';
      ConcatAppend(a, b');
    }
  }

  lemma ConcatSnoc(chunks: seq<Bytes>, i: nat)
    requires i < |chunks|
    ensures Concat(chunks[..i + 1]) == Concat(chunks[..i]) + chunks[i]
  {
    assert chunks[..i + 1][..i] == chunks[..i];
  }

  lemma ConcatSplit(chunks: seq<Bytes>, i: nat)
    requires i <= |chunks|
    ensures Concat(chunks) == Concat(chunks[..i]) + Concat(chunks[i..])
  {
    assert chunks == chunks[..i] + chunks[i..];
    ConcatAppend(chunks[..i], chunks[i..]);
  }

  // ---------------------------------------------------- stream properties

  /**
   * Appending text to a stream that has not stopped keeps every event already
   * produced and goes on from the buffer the shorter text left behind.
   */
  lemma {:induction false} ScanAppend(t: Bytes, u: Bytes, decode: Decoder)
    requires Scan(t, decode).outcome == Eof
    ensures Scan(t + u, decode) == Prepend(Scan(t, decode).events, Scan(Scan(t, decode).rest + u, decode))
    decreases |t|
  {
    var c := SplitFrame(t);
    if c.Some? {
      var cut := c.value;
      var f := LinesEvents(Split(cut.frame), decode);
      var k := Scan(cut.rest, decode);
      ScanCut(t, u, cut, decode);
      assert f.stop == Running;
      ScanAppend(cut.rest, u, decode);
      PrependTwice(f.events, k.events, Scan(k.rest + u, decode));
    }
  }

  /** The unfolding of `Scan` on `t` and on `t + u` when `t` holds a delimiter. */
  lemma ScanCut(t: Bytes, u: Bytes, cut: Cut, decode: Decoder)
    requires SplitFrame(t) == Some(cut)
    ensures Scan(t, decode) == Then(LinesEvents(Split(cut.frame), decode), cut.rest, Scan(cut.rest, decode))
    ensures Scan(t + u, decode)
         == Then(LinesEvents(Split(cut.frame), decode), cut.rest + u, Scan(cut.rest + u, decode))
  {
    assert t + u == cut.frame + [LF, LF] + (cut.rest + u);
    CutIsFirst(t + u, cut.frame, cut.rest + u);
  }

  lemma PrependTwice(a: seq<PhpArray>, b: seq<PhpArray>, r: StreamResult)
    ensures Prepend(a, Prepend(b, r)) == Prepend(a + b, r)
  {
    assert a + (b + r.events) == (a + b) + r.events;
  }

  /**
   * Once `[DONE]` or a decode error has stopped the stream, any further text,
   * whether already buffered or read later, changes neither the events nor the
   * outcome.
   */
  lemma {:induction false} ScanStopped(t: Bytes, u: Bytes, decode: Decoder)
    requires Scan(t, decode).outcome != Eof
    ensures Scan(t + u, decode) == Scan(t, decode).(rest := Scan(t, decode).rest + u)
    decreases |t|
  {
    var c := SplitFrame(t);
    if c.Some? {
      var cut := c.value;
      ScanCut(t, u, cut, decode);
      if LinesEvents(Split(cut.frame), decode).stop == Running {
        ScanStopped(cut.rest, u, decode);
      }
    }
  }

  /** The events produced from a prefix of the stream are a prefix of the events of the whole stream. */
  lemma ScanPrefix(t: Bytes, u: Bytes, decode: Decoder)
    ensures Scan(t, decode).events <= Scan(t + u, decode).events
  {
    if Scan(t, decode).outcome == Eof {
      ScanAppend(t, u, decode);
    } else {
      ScanStopped(t, u, decode);
    }
  }

  /**
   * Text after the last delimiter is never emitted: if the buffer left at the
   * end and the text still to come hold no "\n\n", the stream ends normally
   * with exactly the events it already had.
   */
  lemma EofDiscardsPartialFrame(t: Bytes, u: Bytes, decode: Decoder)
    requires Scan(t, decode).outcome == Eof
    requires NoDelim(Scan(t, decode).rest + u)
    ensures Scan(t + u, decode).events == Scan(t, decode).events
    ensures Scan(t + u, decode).outcome == Eof
  {
    ScanAppend(t, u, decode);
    assert SplitFrame(Scan(t, decode).rest + u).None?;
  }

  /**
   * Laziness: after the first `i` chunks have been read, the events they give
   * are already the first events of the whole stream.
   */
  lemma StreamIsIncremental(chunks: seq<Bytes>, i: nat, decode: Decoder)
    requires i <= |chunks|
    ensures Scan(Concat(chunks[..i]), decode).events <= Scan(Concat(chunks), decode).events
  {
    ConcatSplit(chunks, i);
    ScanPrefix(Concat(chunks[..i]), Concat(chunks[i..]), decode);
  }

  // ----------------------------------------------------- line properties

  /** `events` decode, one by one and in order, from the first payloads of `payloads`. */
  ghost predicate DecodedFrom(events: seq<PhpArray>, payloads: seq<Bytes>, decode: Decoder) {
    |events| <= |payloads| && forall i :: 0 <= i < |events| ==> decode(payloads[i]) == Some(events[i])
  }

  lemma DecodedFromCons(e: PhpArray, events: seq<PhpArray>, p: Bytes, payloads: seq<Bytes>, decode: Decoder)
    requires decode(p) == Some(e) && DecodedFrom(events, payloads, decode)
    ensures DecodedFrom([e] + events, [p] + payloads, decode)
  {
    forall i | 1 <= i < |events| + 1
      ensures decode(([p] + payloads)[i]) == Some(([e] + events)[i])
    {
      assert ([p] + payloads)[i] == payloads[i - 1];
      assert ([e] + events)[i] == events[i - 1];
    }
  }

  lemma DecodedFromAppend(e1: seq<PhpArray>, p1: seq<Bytes>, e2: seq<PhpArray>, p2: seq<Bytes>, decode: Decoder)
    requires DecodedFrom(e1, p1, decode) && |e1| == |p1| && DecodedFrom(e2, p2, decode)
    ensures DecodedFrom(e1 + e2, p1 + p2, decode)
  {
    forall i | |e1| <= i < |e1| + |e2|
      ensures decode((p1 + p2)[i]) == Some((e1 + e2)[i])
    {
      assert (p1 + p2)[i] == p2[i - |p1|];
      assert (e1 + e2)[i] == e2[i - |e1|];
    }
  }

  lemma DecodedFromPrefix(e1: seq<PhpArray>, p1: seq<Bytes>, p2: seq<Bytes>, decode: Decoder)
    requires DecodedFrom(e1, p1, decode)
    ensures DecodedFrom(e1, p1 + p2, decode)
  {
    assert forall i :: 0 <= i < |p1| ==> (p1 + p2)[i] == p1[i];
  }

  /** The payloads of a frame's event lines, in the order of the lines. */
  function Payloads(lines: seq<Bytes>): seq<Bytes> {
    if lines == [] then []
    else (if IsEventLine(lines[0]) then [ClassifyLine(lines[0]).payload] else []) + Payloads(lines[1..])
  }

  /**
   * Each event of a frame is the decoded payload of one of its event lines,
   * the i-th event from the i-th such line; a frame that does not stop the
   * stream yields one event per event line.
   */
  lemma {:induction false} FrameEventsArePayloads(lines: seq<Bytes>, decode: Decoder)
    ensures DecodedFrom(LinesEvents(lines, decode).events, Payloads(lines), decode)
    ensures LinesEvents(lines, decode).stop == Running ==> |LinesEvents(lines, decode).events| == |Payloads(lines)|
  {
    if lines != [] {
      var tail := lines[1..];
      FrameEventsArePayloads(tail, decode);
      var a := LineAction(lines[0], decode);
      if IsEventLine(lines[0]) {
        var p := ClassifyLine(lines[0]).payload;
        assert Payloads(lines) == [p] + Payloads(tail);
        if a.Emit? {
          DecodedFromCons(a.event, LinesEvents(tail, decode).events, p, Payloads(tail), decode);
        }
      } else {
        assert Payloads(lines) == Payloads(tail);
      }
    }
  }

  /** No line of `lines` is a `[DONE]` line. */
  predicate NoDoneLine(lines: seq<Bytes>) {
    lines == [] || (!IsDoneLine(lines[0]) && NoDoneLine(lines[1..]))
  }

  ghost predicate AllDecode(payloads: seq<Bytes>, decode: Decoder) {
    forall i :: 0 <= i < |payloads| ==> decode(payloads[i]).Some?
  }

  lemma AllDecodeCons(p: Bytes, payloads: seq<Bytes>, decode: Decoder)
    ensures AllDecode([p] + payloads, decode) <==> decode(p).Some? && AllDecode(payloads, decode)
  {
    var all := [p] + payloads;
    assert all[0] == p;
    assert forall j :: 0 <= j < |payloads| ==> all[j + 1] == payloads[j];
  }

  /**
   * A frame lets the stream go on exactly when none of its lines is a
   * `[DONE]` line and every event payload in it decodes.
   */
  lemma {:induction false} FrameRunsThrough(lines: seq<Bytes>, decode: Decoder)
    ensures LinesEvents(lines, decode).stop == Running <==> NoDoneLine(lines) && AllDecode(Payloads(lines), decode)
  {
    if lines != [] {
      var tail := lines[1..];
      FrameRunsThrough(tail, decode);
      var a := LineAction(lines[0], decode);
      var ps := Payloads(tail);
      match a
      case Halt(o) =>
        if o.DecodeError? {
          assert Payloads(lines)[0] == o.payload;
        }
      case Skip =>
        assert Payloads(lines) == ps;
      case Emit(v) =>
        var p := ClassifyLine(lines[0]).payload;
        assert Payloads(lines) == [p] + ps;
        AllDecodeCons(p, ps, decode);
    }
  }

  /** Two frames with the same first line and the same result after it have the same result. */
  lemma SameHeadSameFrame(lines: seq<Bytes>, other: seq<Bytes>, decode: Decoder)
    requires lines != [] && other != [] && lines[0] == other[0]
    requires LinesEvents(lines[1..], decode) == LinesEvents(other[1..], decode)
    ensures LinesEvents(lines, decode) == LinesEvents(other, decode)
  {
  }

  /** A frame whose lines after the first stop the stream stops it too. */
  lemma StoppedTailStopsFrame(lines: seq<Bytes>, decode: Decoder)
    requires lines != [] && LinesEvents(lines[1..], decode).stop.Stopped?
    ensures LinesEvents(lines, decode).stop.Stopped?
  {
  }

  /** A frame whose first line is a `[DONE]` line ends the stream there, with no events. */
  lemma DoneLineFirst(lines: seq<Bytes>, decode: Decoder)
    requires lines != [] && IsDoneLine(lines[0])
    ensures LinesEvents(lines, decode) == FrameResult([], Stopped(Done))
  {
    LineActionMeaning(lines[0], decode);
  }

  lemma PrefixSlices(lines: seq<Bytes>, i: nat)
    requires i < |lines|
    ensures lines[..i + 1][0] == lines[0]
    ensures 0 < i ==> lines[1..][i - 1] == lines[i] && lines[1..][..i] == lines[..i + 1][1..]
  {
  }

  /** Lines after a `[DONE]` line in the same frame are never looked at. */
  lemma {:induction false} DoneEndsFrame(lines: seq<Bytes>, i: nat, decode: Decoder)
    requires i < |lines| && IsDoneLine(lines[i])
    ensures LinesEvents(lines, decode) == LinesEvents(lines[..i + 1], decode)
    ensures LinesEvents(lines, decode).stop.Stopped?
  {
    var prefix := lines[..i + 1];
    PrefixSlices(lines, i);
    if i == 0 {
      DoneLineFirst(lines, decode);
      DoneLineFirst(prefix, decode);
    } else {
      var tail := lines[1..];
      DoneEndsFrame(tail, i - 1, decode);
      SameHeadSameFrame(lines, prefix, decode);
      StoppedTailStopsFrame(lines, decode);
    }
  }

  /** Blank lines, comments, other fields and `data:` lines with an empty payload yield nothing. */
  lemma SilentLine(line: Bytes, lines: seq<Bytes>, decode: Decoder)
    requires !ClassifyLine(line).Data? || ClassifyLine(line).payload == []
    ensures LinesEvents([line] + lines, decode) == LinesEvents(lines, decode)
  {
    assert ([line] + lines)[1..] == lines;
  }

  /** The index of the first line of a frame that ends the stream, or the frame's length if none does. */
  function StopIndex(lines: seq<Bytes>, decode: Decoder): (i: nat)
    ensures i <= |lines|
  {
    if lines == [] || LineAction(lines[0], decode).Halt? then 0
    else 1 + StopIndex(lines[1..], decode)
  }

  /** One turn of the `foreach` on a line that does not end the stream. */
  lemma HeadStep(lines: seq<Bytes>, decode: Decoder)
    requires lines != [] && !LineAction(lines[0], decode).Halt?
    ensures LinesEvents(lines, decode).stop == LinesEvents(lines[1..], decode).stop
    ensures LinesEvents(lines, decode).events
         == (if LineAction(lines[0], decode).Emit? then [LineAction(lines[0], decode).event] else [])
            + LinesEvents(lines[1..], decode).events
  {
  }

  lemma PrefixTail(lines: seq<Bytes>, i: nat)
    requires 0 < i <= |lines|
    ensures lines[..i][0] == lines[0] && lines[..i][1..] == lines[1..][..i - 1]
    ensures forall j :: 1 <= j < |lines| ==> lines[1..][j - 1] == lines[j]
  {
  }

  /**
   * A frame stops at its first line that ends the stream: it yields exactly
   * the events of the lines before that line, which run through, and stops as
   * that line says; a frame with no such line runs through.
   */
  lemma {:induction false} FrameStopsAt(lines: seq<Bytes>, decode: Decoder)
    ensures var i := StopIndex(lines, decode);
      && (forall j :: 0 <= j < i ==> !LineAction(lines[j], decode).Halt?)
      && LinesEvents(lines[..i], decode).stop == Running
      && LinesEvents(lines, decode).events == LinesEvents(lines[..i], decode).events
      && (i < |lines| ==> LineAction(lines[i], decode).Halt?
                          && LinesEvents(lines, decode).stop == Stopped(LineAction(lines[i], decode).outcome))
      && (i == |lines| ==> LinesEvents(lines, decode).stop == Running)
  {
    if lines != [] {
      if LineAction(lines[0], decode).Halt? {
        assert lines[..0] == [];
      } else {
        var tail := lines[1..];
        var i := StopIndex(lines, decode);
        FrameStopsAt(tail, decode);
        PrefixTail(lines, i);
        HeadStep(lines, decode);
        HeadStep(lines[..i], decode);
      }
    }
  }

  /** The payloads of a frame's event lines before the line that ends the stream, if one does. */
  function LivePayloads(lines: seq<Bytes>, decode: Decoder): seq<Bytes> {
    Payloads(lines[..StopIndex(lines, decode)])
  }

  /**
   * Whether or not the frame stops the stream, it yields exactly one event per
   * event line before the stopping line, the k-th event decoded from the k-th
   * such line's payload.
   */
  lemma FrameEventsExact(lines: seq<Bytes>, decode: Decoder)
    ensures DecodedFrom(LinesEvents(lines, decode).events, LivePayloads(lines, decode), decode)
    ensures |LinesEvents(lines, decode).events| == |LivePayloads(lines, decode)|
  {
    FrameStopsAt(lines, decode);
    FrameEventsArePayloads(lines[..StopIndex(lines, decode)], decode);
  }

  /** The event-line payloads of every complete frame of `text`, in stream order. */
  function StreamPayloads(text: Bytes): seq<Bytes>
    decreases |text|
  {
    match SplitFrame(text)
    case None => []
    case Some(cut) => Payloads(Split(cut.frame)) + StreamPayloads(cut.rest)
  }

  /**
   * The i-th event of the stream is the decoded payload of the i-th event
   * line of the complete frames; a stream that reaches the end of the body
   * yields one event per event line.
   */
  lemma {:induction false} ScanEventsArePayloads(text: Bytes, decode: Decoder)
    ensures DecodedFrom(Scan(text, decode).events, StreamPayloads(text), decode)
    ensures Scan(text, decode).outcome == Eof ==> |Scan(text, decode).events| == |StreamPayloads(text)|
    decreases |text|
  {
    var c := SplitFrame(text);
    if c.Some? {
      var cut := c.value;
      var lines := Split(cut.frame);
      var f := LinesEvents(lines, decode);
      FrameEventsArePayloads(lines, decode);
      ScanEventsArePayloads(cut.rest, decode);
      if f.stop == Running {
        DecodedFromAppend(f.events, Payloads(lines), Scan(cut.rest, decode).events, StreamPayloads(cut.rest), decode);
      } else {
        DecodedFromPrefix(f.events, Payloads(lines), StreamPayloads(cut.rest), decode);
      }
    }
  }

  /**
   * The payloads of the event lines the stream reaches: those of every
   * complete frame up to the first line that ends the stream.
   */
  function StreamLivePayloads(text: Bytes, decode: Decoder): seq<Bytes>
    decreases |text|
  {
    match SplitFrame(text)
    case None => []
    case Some(cut) =>
      var lines := Split(cut.frame);
      LivePayloads(lines, decode)
      + (if LinesEvents(lines, decode).stop.Stopped? then [] else StreamLivePayloads(cut.rest, decode))
  }

  /**
   * However the stream ends, it yields exactly one event per event line it
   * reaches, in stream order, the k-th event decoded from the k-th such payload.
   */
  lemma {:induction false} ScanEventsExact(text: Bytes, decode: Decoder)
    ensures DecodedFrom(Scan(text, decode).events, StreamLivePayloads(text, decode), decode)
    ensures |Scan(text, decode).events| == |StreamLivePayloads(text, decode)|
    decreases |text|
  {
    var c := SplitFrame(text);
    if c.Some? {
      var cut := c.value;
      var lines := Split(cut.frame);
      var f := LinesEvents(lines, decode);
      FrameEventsExact(lines, decode);
      if f.stop == Running {
        ScanEventsExact(cut.rest, decode);
        DecodedFromAppend(f.events, LivePayloads(lines, decode), Scan(cut.rest, decode).events,
                          StreamLivePayloads(cut.rest, decode), decode);
      } else {
        assert StreamLivePayloads(text, decode) == LivePayloads(lines, decode) + [];
      }
    }
  }

  /** A stream that has stopped within its first `i` chunks ends the same whatever chunks follow. */
  lemma ResultOfStoppedPrefix(chunks: seq<Bytes>, i: nat, decode: Decoder)
    requires i <= |chunks|
    requires Scan(Concat(chunks[..i]), decode).outcome != Eof
    ensures Scan(Concat(chunks), decode).events == Scan(Concat(chunks[..i]), decode).events
    ensures Scan(Concat(chunks), decode).outcome == Scan(Concat(chunks[..i]), decode).outcome
  {
    ConcatSplit(chunks, i);
    ScanStopped(Concat(chunks[..i]), Concat(chunks[i..]), decode);
  }

  // ------------------------------------------------------- a single frame

  /** The frame a server sends for one payload: `data: <payload>` and a blank line. */
  function DataFrame(payload: Bytes): Bytes {
    DataPrefix + [0x20] + payload + [LF, LF]
  }

  lemma DataLineClassified(payload: Bytes)
    requires payload != [] && IsTrimmed(payload)
    ensures ClassifyLine(DataPrefix + [0x20] + payload) == Data(payload)
  {
    var line := DataPrefix + [0x20] + payload;
    TrimTrimmed(line);
    assert line[|DataPrefix|..] == [0x20] + payload;
    assert LeadingTrim([0x20] + payload) == 1 by {
      assert ([0x20] + payload)[1..] == payload;
    }
    assert ([0x20] + payload)[1..] == payload;
    TrimTrimmed(payload);
  }

  /** The first cut of a text that starts with a `data:` frame is that frame's one line. */
  lemma DataFrameCut(payload: Bytes, u: Bytes)
    requires LF !in payload
    ensures SplitFrame(DataFrame(payload) + u) == Some(Cut(DataPrefix + [0x20] + payload, u))
    ensures LF !in DataPrefix + [0x20] + payload
  {
    var line := DataPrefix + [0x20] + payload;
    assert DataFrame(payload) + u == line + [LF, LF] + u;
    assert LF !in line by {
      assert forall i :: 0 <= i < |DataPrefix| + 1 ==> line[i] != LF;
      assert forall i :: |DataPrefix| + 1 <= i < |line| ==> line[i] == payload[i - |DataPrefix| - 1];
    }
    assert NoDelim(line + [LF]) by {
      forall i | 0 <= i < |line| + 1
        ensures !DelimAt(line + [LF], i)
      {
        if i < |line| {
          assert (line + [LF])[i] == line[i];
        }
      }
    }
    CutIsFirst(line + [LF, LF] + u, line, u);
  }

  /** A frame of one line does what that line's action says. */
  lemma SingleLineFrame(line: Bytes, decode: Decoder)
    ensures LineAction(line, decode).Skip? ==> LinesEvents([line], decode) == FrameResult([], Running)
    ensures LineAction(line, decode).Halt? ==>
              LinesEvents([line], decode) == FrameResult([], Stopped(LineAction(line, decode).outcome))
    ensures LineAction(line, decode).Emit? ==>
              LinesEvents([line], decode) == FrameResult([LineAction(line, decode).event], Running)
  {
    assert [line][1..] == [];
  }

  /**
   * One `data:` frame in front of any text `u`: `[DONE]` ends the stream with
   * no event whatever `u` holds; a payload that does not decode ends it with a
   * decode error; any other payload is the first event, and the rest of the
   * stream is what `u` gives.
   */
  lemma DataFrameFirst(payload: Bytes, u: Bytes, decode: Decoder)
    requires payload != [] && IsTrimmed(payload) && LF !in payload
    ensures payload == DoneSentinel ==> Scan(DataFrame(payload) + u, decode) == StreamResult([], Done, u)
    ensures payload != DoneSentinel && decode(payload).None? ==>
              Scan(DataFrame(payload) + u, decode) == StreamResult([], DecodeError(payload), u)
    ensures payload != DoneSentinel && decode(payload).Some? ==>
              Scan(DataFrame(payload) + u, decode) == Prepend([decode(payload).value], Scan(u, decode))
  {
    var line := DataPrefix + [0x20] + payload;
    DataFrameCut(payload, u);
    SplitWithoutLF(line);
    DataLineClassified(payload);
    SingleLineFrame(line, decode);
    assert Scan(DataFrame(payload) + u, decode) == Then(LinesEvents([line], decode), u, Scan(u, decode));
  }

  /** A whole stream of one `data:` frame in one piece yields exactly that payload's event and ends at the end of the body. */
  lemma OneFrameOneEvent(payload: Bytes, decode: Decoder)
    requires payload != [] && IsTrimmed(payload) && LF !in payload
    requires payload != DoneSentinel && decode(payload).Some?
    ensures Scan(DataFrame(payload), decode) == StreamResult([decode(payload).value], Eof, [])
  {
    DataFrameFirst(payload, [], decode);
    assert DataFrame(payload) + [] == DataFrame(payload);
    assert SplitFrame([]) == None;
  }
}
