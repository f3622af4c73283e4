/** The chat stream parser: how the answer to a chat request becomes a
    sequence of callbacks, one per content delta followed by exactly one
    terminal callback (done or error), unless the call rejects.

    A successful body uses a simplified form of the `text/event-stream`
    framing of the HTML Living Standard, section 9.2 (server-sent events):
    only lines starting with `data: ` are read, each such line is handled on
    its own instead of being dispatched on a blank line, and the payload
    `[DONE]` ends the stream.

    The body is given as the sequence of text chunks the reader delivers
    (already decoded). `JSON.parse` followed by the lookup
    `choices?.[0]?.delta?.content` is an oracle `parse`; the callbacks are
    an output trace of `Event`s. */
module StreamChat {
  import opened Wrappers
  import opened JsString

  /** What parsing a payload and looking up `choices[0].delta.content`
      gives: `Malformed` when anything in it throws, otherwise the string
      found at that path, if any. */
  datatype Parsed = Malformed | Record(content: Option<string>)

  type Parser = string -> Parsed

  /** One callback: `onDelta(text)`, `onDone()` or `onError(message)`. */
  datatype Event = Delta(text: string) | Done | Error(message: string)

  /** What `resp.json().catch(() => ({}))` gives a failed response:
      `NullJson` when the body is the JSON literal `null`, so that reading
      its `error` field throws; otherwise `ErrorField(e)`, with `e` the
      string `error` field of the value when it has one (a body that is not
      JSON becomes `{}`, which has none). */
  datatype ErrorJson = NullJson | ErrorField(error: Option<string>)

  /** The HTTP answer: its status, what its JSON body gives and, when it has
      a readable body, the chunks the reader delivers before it reports the
      end of the stream. */
  datatype Response = Response(status: nat, json: ErrorJson, body: Option<seq<string>>)
  {
    /** `resp.ok`: the status is in the 2xx range. */
    predicate Ok() {
      200 <= status <= 299
    }
  }

  const DataPrefix: string := "data: "
  const DoneSentinel: string := "[DONE]"
  const NoBodyMessage: string := "No response body"

  /** The message of a failed response with status `status` whose body has
      the `error` field `field`: that field when it is a non-empty string,
      otherwise `Error ` followed by the status code. */
  function ErrorMessage(status: nat, field: Option<string>): (r: string)
    ensures r != ""
    ensures field.Some? && field.value != "" ==> r == field.value
    ensures field.None? || field.value == "" ==>
      && "Error " <= r
      && (forall k :: 6 <= k < |r| ==> '0' <= r[k] <= '9')
      && DecimalValue(r[6..]) == status
      && |r| > 6 && (r[6] == '0' ==> |r| == 7)
  {
    if field.Some? && field.value != "" then field.value
    else
      var digits := NatToString(status);
      NatToStringRoundTrip(status);
      assert ("Error " + digits)[6..] == digits;
      "Error " + digits
  }

  /** `streamChat` rejects, instead of calling `onError`, when a failed
      response's body is `null`: reading `data.error` throws. */
  predicate Rejects(resp: Response) {
    !resp.Ok() && resp.json.NullJson?
  }

  /** A line with at most one trailing carriage return removed. */
  function StripCR(line: string): (r: string)
    ensures line == r || line == r + ['\r']
  {
    if |line| > 0 && line[|line| - 1] == '\r' then line[..|line| - 1] else line
  }

  /** A trailing carriage return is removed exactly when there is one; a
      line without one is kept as it is. */
  lemma StripCRRemovesCR(line: string)
    ensures (|line| > 0 && line[|line| - 1] == '\r') <==> line == StripCR(line) + ['\r']
    ensures !(|line| > 0 && line[|line| - 1] == '\r') ==> StripCR(line) == line
  {
  }

  /** `line.startsWith(":")`. */
  predicate IsComment(line: string) {
    |line| >= 1 && line[0] == ':'
  }

  /** `line.startsWith("data: ")`, spelled out one character at a time so
      that the solver sees each character of the prefix without unfolding a
      sequence comparison; `IsDataLineIsPrefix` proves it equal to
      `DataPrefix <= line`. */
  predicate IsDataLine(line: string) {
    && |line| >= 6
    && line[0] == 'd' && line[1] == 'a' && line[2] == 't' && line[3] == 'a'
    && line[4] == ':' && line[5] == ' '
  }

  lemma IsDataLineIsPrefix(line: string)
    ensures IsDataLine(line) <==> DataPrefix <= line
  {
  }

  /** `line.slice(6).trim()`: the trimmed text after the `data: ` prefix. */
  function Payload(line: string): string
    requires IsDataLine(line)
  {
    Trim(line[|DataPrefix|..])
  }

  /** What the main loop does with one line (after its carriage return is
      stripped): skip it, stop on `[DONE]`, emit a delta, or give up on
      this buffer and retry the line later. */
  datatype Action = Skip | Stop | Emit(text: string) | Retry

  /** A `data: ` line is neither a comment nor blank. */
  lemma DataLineIsNotBlank(line: string)
    requires IsDataLine(line)
    ensures !IsComment(line) && Trim(line) != ""
  {
    assert !IsWhitespace(line[0]);
  }

  /** The main loop's treatment of one line. */
  function Act(line: string, parse: Parser): (r: Action)
    ensures r.Emit? ==> r.text != ""
  {
    if IsComment(line) || Trim(line) == "" then Skip
    else if !IsDataLine(line) then Skip
    else
      var payload := Payload(line);
      if payload == DoneSentinel then Stop
      else
        match parse(payload)
        case Malformed => Retry
        case Record(content) =>
          if content.Some? && content.value != "" then Emit(content.value) else Skip
  }

  /** What `Act` does, by the shape of the line. Comment and blank lines are
      never data lines, so only the `data: ` prefix decides whether a line is
      skipped before its payload is looked at. */
  lemma ActCases(line: string, parse: Parser)
    ensures !IsDataLine(line) ==> Act(line, parse) == Skip
    ensures IsDataLine(line) ==> (Act(line, parse) == Stop <==> Payload(line) == DoneSentinel)
    ensures Act(line, parse) == Retry <==>
              IsDataLine(line) && Payload(line) != DoneSentinel && parse(Payload(line)).Malformed?
    ensures Act(line, parse).Emit? ==>
              IsDataLine(line) && Payload(line) != DoneSentinel
              && parse(Payload(line)) == Record(Some(Act(line, parse).text))
    ensures IsDataLine(line) && Payload(line) != DoneSentinel && parse(Payload(line)).Record? ==>
              (Act(line, parse).Emit? <==>
                 parse(Payload(line)).content.Some? && parse(Payload(line)).content.value != "")
  {
    if IsDataLine(line) {
      DataLineIsNotBlank(line);
    }
  }

  /** A treatment of single lines. The loops below are written for any
      rule; the parser's own rule is `RuleOf(parse)`. */
  type Rule = string -> Action

  /** The main loop's rule: `Act` with the given parser. */
  function RuleOf(parse: Parser): Rule {
    line => Act(line, parse)
  }

  /** Why the inner loop stopped: no complete line is left, `[DONE]` was
      seen, or a line failed to parse and was put back. */
  datatype Halt = NeedMore | SawDone | Stalled

  /** The state after the inner loop: the buffer, the deltas it emitted,
      and why it stopped. */
  datatype Drained = Drained(buffer: string, emitted: seq<Event>, halt: Halt)

  /** `d` with `emitted` emitted before it. */
  function Resume(emitted: seq<Event>, d: Drained): Drained {
    Drained(d.buffer, emitted + d.emitted, d.halt)
  }

  lemma ResumeResume(a: seq<Event>, b: seq<Event>, d: Drained)
    ensures Resume(a, Resume(b, d)) == Resume(a + b, d)
    ensures Resume(a, Drained(d.buffer, [], d.halt)) == Drained(d.buffer, a, d.halt)
  {
    assert a + [] == a;
  }

  /** The inner loop: cut the buffer at its first newline and act on the
      line, until no newline is left, `[DONE]` is seen, or a line fails to
      parse; the failing line is then put back, carriage return stripped,
      in front of the rest of the buffer. */
  function Drain(buffer: string, rule: Rule): Drained
    decreases |buffer|
  {
    var nl := IndexOf(buffer, '\n');
    if nl == -1 then Drained(buffer, [], NeedMore)
    else
      var line := StripCR(buffer[..nl]);
      var rest := buffer[nl + 1..];
      match rule(line)
      case Skip => Drain(rest, rule)
      case Emit(t) => Resume([Delta(t)], Drain(rest, rule))
      case Stop => Drained(rest, [], SawDone)
      case Retry => Drained(line + "\n" + rest, [], Stalled)
  }

  /** The state after the outer loop: the buffer, the deltas emitted, and
      whether `[DONE]` was seen. */
  datatype Pumped = Pumped(buffer: string, emitted: seq<Event>, sawDone: bool)

  /** `p` with `emitted` emitted before it. */
  function Then(emitted: seq<Event>, p: Pumped): Pumped {
    Pumped(p.buffer, emitted + p.emitted, p.sawDone)
  }

  lemma ThenThen(a: seq<Event>, b: seq<Event>, p: Pumped)
    ensures Then(a, Then(b, p)) == Then(a + b, p)
  {
  }

  /** The outer loop from a given buffer: append the next chunk, run the
      inner loop, and read no further chunk once `[DONE]` was seen. */
  function ReadLoop(chunks: seq<string>, buffer: string, rule: Rule): Pumped
    decreases |chunks|
  {
    if chunks == [] then Pumped(buffer, [], false)
    else
      var d := Drain(buffer + chunks[0], rule);
      if d.halt == SawDone then Pumped(d.buffer, d.emitted, true)
      else Then(d.emitted, ReadLoop(chunks[1..], d.buffer, rule))
  }

  /** One turn of the outer loop. */
  lemma ReadLoopStep(chunks: seq<string>, buffer: string, rule: Rule)
    requires chunks != []
    ensures var d := Drain(buffer + chunks[0], rule);
            ReadLoop(chunks, buffer, rule) ==
              if d.halt == SawDone then Pumped(d.buffer, d.emitted, true)
              else Then(d.emitted, ReadLoop(chunks[1..], d.buffer, rule))
  {
  }

  /** The delta, if any, the main loop emits for one raw line. */
  function LineEvents(raw: string, rule: Rule): seq<Event> {
    match rule(StripCR(raw))
    case Emit(t) => [Delta(t)]
    case _ => []
  }

  /** The deltas of a sequence of lines, each taken on its own, in order:
      the reference the parser is compared with. */
  function LineDeltas(lines: seq<string>, rule: Rule): seq<Event> {
    if lines == [] then [] else LineEvents(lines[0], rule) + LineDeltas(lines[1..], rule)
  }

  /** The flush's treatment of one piece of the leftover buffer. It emits
      exactly what the main loop would emit for that line: a `[DONE]` is
      passed over and a parse failure is ignored instead of stopping. */
  function FlushLine(raw: string, parse: Parser): (r: seq<Event>)
    ensures r == LineEvents(raw, RuleOf(parse))
  {
    if raw == "" then []
    else
      var line := StripCR(raw);
      if !IsDataLine(line) then []
      else
        DataLineIsNotBlank(line);
        var payload := Payload(line);
        if payload == DoneSentinel then []
        else
          match parse(payload)
          case Malformed => []
          case Record(content) =>
            if content.Some? && content.value != "" then [Delta(content.value)] else []
  }

  /** The flush loop over the pieces of the leftover buffer. */
  function FlushLines(pieces: seq<string>, parse: Parser): seq<Event> {
    if pieces == [] then []
    else FlushLines(pieces[..|pieces| - 1], parse) + FlushLine(pieces[|pieces| - 1], parse)
  }

  lemma AppendAssoc<T>(a: seq<T>, b: seq<T>, c: seq<T>)
    ensures a + b + c == a + (b + c)
  {
  }

  lemma FlushLinesSnoc(pieces: seq<string>, parse: Parser)
    requires pieces != []
    ensures FlushLines(pieces, parse) ==
              FlushLines(pieces[..|pieces| - 1], parse) + FlushLine(pieces[|pieces| - 1], parse)
  {
  }

  /** The flush at the end of the stream: when the leftover buffer is not
      all whitespace, each of its newline-separated pieces is handled by
      `FlushLine`. */
  function Flush(buffer: string, parse: Parser): seq<Event> {
    if Trim(buffer) == "" then [] else FlushLines(Split(buffer, '\n'), parse)
  }

  /** The callbacks of a readable body delivered as `chunks`: the deltas of
      the loops and of the flush, then `onDone`. */
  function Stream(chunks: seq<string>, parse: Parser): seq<Event> {
    var p := ReadLoop(chunks, "", RuleOf(parse));
    p.emitted + Flush(p.buffer, parse) + [Done]
  }

  /** The callbacks of one call: none when it rejects, an error for any
      other failed response or a missing body, otherwise those of the
      stream. */
  function Run(resp: Response, parse: Parser): seq<Event> {
    if !resp.Ok() then
      match resp.json
      case NullJson => []
      case ErrorField(field) => [Error(ErrorMessage(resp.status, field))]
    else if resp.body.None? then [Error(NoBodyMessage)]
    else Stream(resp.body.value, parse)
  }

  /** The inner loop of `streamChat`, run on the buffer after a chunk was
      appended: it does what `Drain` describes, appending to `events`. */
  method DrainLines(start: string, before: seq<Event>, parse: Parser)
    returns (buffer: string, events: seq<Event>, halt: Halt)
    ensures Drained(buffer, events, halt) == Resume(before, Drain(start, RuleOf(parse)))
  {
    buffer, events, halt := start, before, NeedMore;
    var nl := IndexOf(buffer, '\n');
    while nl != -1
      invariant nl == IndexOf(buffer, '\n')
      invariant Resume(before, Drain(start, RuleOf(parse))) == Resume(events, Drain(buffer, RuleOf(parse)))
      decreases |buffer|
    {
      ghost var current, previous := buffer, events;
      var line := buffer[..nl];
      buffer := buffer[nl + 1..];
      if |line| > 0 && line[|line| - 1] == '\r' {
        line := line[..|line| - 1];
      }
      assert line == StripCR(current[..nl]);
      match Act(line, parse) {
        case Skip =>
        case Emit(text) =>
          events := events + [Delta(text)];
          ResumeResume(previous, [Delta(text)], Drain(buffer, RuleOf(parse)));
        case Stop =>
          halt := SawDone;
          ResumeResume(previous, [], Drained(buffer, [], SawDone));
          return;
        case Retry =>
          buffer := line + "\n" + buffer;
          halt := Stalled;
          ResumeResume(previous, [], Drained(buffer, [], Stalled));
          return;
      }
      nl := IndexOf(buffer, '\n');
    }
    ResumeResume(events, [], Drained(buffer, [], NeedMore));
  }

  /** The flush of `streamChat`: when the leftover buffer is not all
      whitespace, handle each of its newline-separated pieces, appending to
      `events`. */
  method FlushBuffer(buffer: string, before: seq<Event>, parse: Parser) returns (events: seq<Event>)
    ensures events == before + Flush(buffer, parse)
  {
    if Trim(buffer) != "" {
      events := FlushPieces(Split(buffer, '\n'), before, parse);
    } else {
      events := before;
      assert events == before + [];
    }
  }

  /** The flush loop: each piece handled by `FlushLine`, in order. */
  method FlushPieces(pieces: seq<string>, before: seq<Event>, parse: Parser) returns (events: seq<Event>)
    ensures events == before + FlushLines(pieces, parse)
  {
    events := before;
    for k := 0 to |pieces|
      invariant events == before + FlushLines(pieces[..k], parse)
    {
      FlushLinesSnoc(pieces[..k + 1], parse);
      assert pieces[..k + 1][..k] == pieces[..k];
      AppendAssoc(before, FlushLines(pieces[..k], parse), FlushLine(pieces[k], parse));
      events := events + FlushLine(pieces[k], parse);
    }
    assert pieces[..|pieces|] == pieces;
  }

  /** `streamChat`: report a failed response or a missing body, otherwise
      read the body, cut the text into lines as it arrives, emit the deltas,
      flush what is left and report the end. `rejected` tells whether the
      returned promise rejects. */
  method StreamChat(resp: Response, parse: Parser) returns (events: seq<Event>, rejected: bool)
    ensures events == Run(resp, parse)
    ensures rejected == Rejects(resp)
  {
    rejected := false;
    if !resp.Ok() {
      match resp.json {
        case NullJson =>
          events, rejected := [], true;
        case ErrorField(field) =>
          events := [Error(ErrorMessage(resp.status, field))];
      }
      return;
    }
    if resp.body.None? {
      events := [Error(NoBodyMessage)];
      return;
    }
    events := ReadBody(resp.body.value, parse);
  }

  /** The reading part of `streamChat`: the outer loop over the chunks, the
      flush and `onDone`. */
  method ReadBody(chunks: seq<string>, parse: Parser) returns (events: seq<Event>)
    ensures events == Stream(chunks, parse)
  {
    var next := 0;
    var buffer := "";
    var streamDone := false;
    events := [];
    ghost var total := ReadLoop(chunks, "", RuleOf(parse));
    assert chunks[0..] == chunks;

    while !streamDone
      invariant 0 <= next <= |chunks|
      invariant streamDone ==> total == Pumped(buffer, events, true)
      invariant !streamDone ==> total == Then(events, ReadLoop(chunks[next..], buffer, RuleOf(parse)))
      decreases |chunks| - next
    {
      if next == |chunks| {
        break;
      }
      ghost var chunksLeft, previous, leftover := chunks[next..], events, buffer;
      assert chunksLeft[1..] == chunks[next + 1..];
      buffer := buffer + chunks[next];
      next := next + 1;

      var halt;
      ghost var d := Drain(buffer, RuleOf(parse));
      buffer, events, halt := DrainLines(buffer, events, parse);
      streamDone := halt == SawDone;
      ReadLoopStep(chunksLeft, leftover, RuleOf(parse));
      if !streamDone {
        ThenThen(previous, d.emitted, ReadLoop(chunks[next..], buffer, RuleOf(parse)));
      }
    }

    assert total == Pumped(buffer, events, streamDone);
    events := FlushBuffer(buffer, events, parse);
    events := events + [Done];
  }
}
