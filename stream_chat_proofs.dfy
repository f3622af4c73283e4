/** What the chat stream parser guarantees, stated against the text of the
    whole body: which deltas it emits, how the way the body is cut into
    chunks matters, and what happens after a line fails to parse. */
module StreamChatProofs {
  import opened Wrappers
  import opened JsString
  import opened StreamChat

  /* ---------- Sequences ---------- */

  /** Whether the inner loop ends at a line with this action. */
  predicate Halts(a: Action) {
    a.Stop? || a.Retry?
  }

  lemma AppendEmpty<T>(s: seq<T>)
    ensures s + [] == s && [] + s == s
  {
  }

  lemma LastSplit<T>(s: seq<T>)
    requires s != []
    ensures s == s[..|s| - 1] + [s[|s| - 1]]
  {
  }

  /* ---------- One line ---------- */

  /** A line that failed to parse fails again once its carriage return is
      stripped a second time: a trailing `\r` is whitespace, so the trimmed
      payload does not change. */
  lemma RetryIsStable(line: string, parse: Parser)
    requires Act(line, parse) == Retry
    ensures Act(StripCR(line), parse) == Retry
  {
    ActCases(line, parse);
    if StripCR(line) != line {
      var x := StripCR(line);
      assert line == x + ['\r'];
      assert IsDataLine(x) by {
        assert line[5] == ' ';
      }
      assert line[|DataPrefix|..] == x[|DataPrefix|..] + ['\r'];
      TrimIgnoresTrailingWhitespace(x[|DataPrefix|..], '\r');
      assert Payload(x) == Payload(line);
      ActCases(x, parse);
    }
  }

  /* ---------- Rules ---------- */

  /** A rule that retries a line retries it again once its carriage return
      is stripped a second time. */
  ghost predicate RetryStable(rule: Rule) {
    forall line :: rule(line) == Retry ==> rule(StripCR(line)) == Retry
  }

  /** The main loop's rule is such a rule. */
  lemma ActRetryStable(parse: Parser)
    ensures RetryStable(RuleOf(parse))
  {
    forall line | RuleOf(parse)(line) == Retry
      ensures RuleOf(parse)(StripCR(line)) == Retry
    {
      RetryIsStable(line, parse);
    }
  }

  /* ---------- The inner loop ---------- */

  /** The line the inner loop cuts off holds no newline. */
  lemma FirstLineHasNoNewline(buffer: string)
    requires IndexOf(buffer, '\n') != -1
    ensures '\n' !in StripCR(buffer[..IndexOf(buffer, '\n')])
  {
    IndexOfIsFirst(buffer, '\n');
    var raw := buffer[..IndexOf(buffer, '\n')];
    assert forall k :: 0 <= k < |StripCR(raw)| ==> StripCR(raw)[k] == raw[k];
  }

  /** The buffer starts with a complete line that the rule retries. */
  predicate Stuck(buffer: string, rule: Rule) {
    var nl := IndexOf(buffer, '\n');
    nl != -1 && rule(StripCR(buffer[..nl])) == Retry
  }

  /** A retried line put back in front of the rest leaves the buffer stuck. */
  lemma PutBackIsStuck(line: string, rest: string, rule: Rule)
    requires RetryStable(rule)
    requires '\n' !in line && rule(line) == Retry
    ensures Stuck(line + "\n" + rest, rule)
  {
    IndexOfJoined(line, '\n', rest);
    assert rule(StripCR(line)) == Retry;
  }

  /** The inner loop never gets past a stuck buffer: it emits nothing, puts
      the line back and leaves the buffer stuck. */
  lemma StuckDrain(buffer: string, rule: Rule)
    requires RetryStable(rule) && Stuck(buffer, rule)
    ensures Drain(buffer, rule).halt == Stalled
    ensures Drain(buffer, rule).emitted == []
    ensures Stuck(Drain(buffer, rule).buffer, rule)
  {
    var nl := IndexOf(buffer, '\n');
    var line := StripCR(buffer[..nl]);
    FirstLineHasNoNewline(buffer);
    PutBackIsStuck(line, buffer[nl + 1..], rule);
  }

  /** Text arriving after a stuck line does not unstick it. */
  lemma StuckAppend(buffer: string, more: string, rule: Rule)
    requires Stuck(buffer, rule)
    ensures Stuck(buffer + more, rule)
  {
    IndexOfAppend(buffer, more, '\n');
  }

  /** When the inner loop stalls, the buffer it leaves is stuck. */
  lemma {:induction false} StalledIsStuck(buffer: string, rule: Rule)
    requires RetryStable(rule)
    requires Drain(buffer, rule).halt == Stalled
    ensures Stuck(Drain(buffer, rule).buffer, rule)
    decreases |buffer|
  {
    var nl := IndexOf(buffer, '\n');
    var line := StripCR(buffer[..nl]);
    var rest := buffer[nl + 1..];
    if rule(line) == Retry {
      FirstLineHasNoNewline(buffer);
      PutBackIsStuck(line, rest, rule);
    } else {
      DrainPassesLine(buffer, rule);
      StalledIsStuck(rest, rule);
    }
  }

  /** What the inner loop leaves for text that arrives later: nothing more
      when it stopped (at `[DONE]` or at a line it retries), otherwise
      another run on its leftover followed by that text. */
  function Continue(d: Drained, more: string, rule: Rule): Drained {
    if d.halt == NeedMore then Drain(d.buffer + more, rule)
    else Drained(d.buffer + more, [], d.halt)
  }

  /** Running the inner loop on a longer buffer does what running it on the
      shorter one did, then continues: complete lines are handled the same
      whatever follows them. */
  lemma {:induction false} DrainAppend(buffer: string, more: string, rule: Rule)
    ensures Drain(buffer + more, rule) ==
              Resume(Drain(buffer, rule).emitted, Continue(Drain(buffer, rule), more, rule))
    decreases |buffer|
  {
    var nl := IndexOf(buffer, '\n');
    if nl != -1 && !Halts(rule(StripCR(buffer[..nl]))) {
      DrainAppend(buffer[nl + 1..], more, rule);
      DrainAppendPassed(buffer, more, rule);
    } else {
      DrainAppendHalted(buffer, more, rule);
    }
  }

  /** `DrainAppend` when the inner loop ends at the first line or before. */
  lemma DrainAppendHalted(buffer: string, more: string, rule: Rule)
    requires IndexOf(buffer, '\n') == -1 || Halts(rule(StripCR(buffer[..IndexOf(buffer, '\n')])))
    ensures Drain(buffer + more, rule) ==
              Resume(Drain(buffer, rule).emitted, Continue(Drain(buffer, rule), more, rule))
  {
    if IndexOf(buffer, '\n') == -1 {
      DrainAppendNoLine(buffer, more, rule);
    } else {
      DrainAppendStopped(buffer, more, rule);
    }
  }

  /** `DrainAppend` when the buffer holds no complete line. */
  lemma DrainAppendNoLine(buffer: string, more: string, rule: Rule)
    requires IndexOf(buffer, '\n') == -1
    ensures Drain(buffer + more, rule) ==
              Resume(Drain(buffer, rule).emitted, Continue(Drain(buffer, rule), more, rule))
  {
    AppendEmpty(Drain(buffer + more, rule).emitted);
  }

  /** `DrainAppend` when the first line stops the inner loop or is put back. */
  lemma DrainAppendStopped(buffer: string, more: string, rule: Rule)
    requires IndexOf(buffer, '\n') != -1
    requires Halts(rule(StripCR(buffer[..IndexOf(buffer, '\n')])))
    ensures Drain(buffer + more, rule) ==
              Resume(Drain(buffer, rule).emitted, Continue(Drain(buffer, rule), more, rule))
  {
    var nl := IndexOf(buffer, '\n');
    IndexOfAppend(buffer, more, '\n');
    var line := StripCR(buffer[..nl]);
    var rest := buffer[nl + 1..];
    AppendEmpty<Event>([]);
    if rule(line) == Retry {
      assert line + "\n" + rest + more == line + "\n" + (rest + more);
    }
  }

  /** `DrainAppend` when the first line is passed, given it for the rest. */
  lemma DrainAppendPassed(buffer: string, more: string, rule: Rule)
    requires IndexOf(buffer, '\n') != -1
    requires !Halts(rule(StripCR(buffer[..IndexOf(buffer, '\n')])))
    requires var rest := buffer[IndexOf(buffer, '\n') + 1..];
             Drain(rest + more, rule) == Resume(Drain(rest, rule).emitted, Continue(Drain(rest, rule), more, rule))
    ensures Drain(buffer + more, rule) ==
              Resume(Drain(buffer, rule).emitted, Continue(Drain(buffer, rule), more, rule))
  {
    var nl := IndexOf(buffer, '\n');
    IndexOfAppend(buffer, more, '\n');
    DrainPassesLine(buffer, rule);
    DrainPassesLine(buffer + more, rule);
    var d := Drain(buffer[nl + 1..], rule);
    AppendAssoc(LineEvents(buffer[..nl], rule), d.emitted, Continue(d, more, rule).emitted);
  }

  /* ---------- Lines ---------- */

  lemma {:induction false} LineDeltasAppend(a: seq<string>, b: seq<string>, rule: Rule)
    ensures LineDeltas(a + b, rule) == LineDeltas(a, rule) + LineDeltas(b, rule)
    decreases |a|
  {
    if a == [] {
      assert a + b == b;
    } else {
      assert (a + b)[1..] == a[1..] + b;
      LineDeltasAppend(a[1..], b, rule);
      AppendAssoc(LineEvents(a[0], rule), LineDeltas(a[1..], rule), LineDeltas(b, rule));
    }
  }

  lemma LineDeltasCons(line: string, lines: seq<string>, rule: Rule)
    ensures LineDeltas([line] + lines, rule) == LineEvents(line, rule) + LineDeltas(lines, rule)
  {
    assert ([line] + lines)[1..] == lines;
  }

  /** The inner loop loses no line and invents none: what it emitted, then
      the deltas of the lines of what it left (followed by any later text),
      are the deltas of the lines of its input (followed by that text). A
      line it put back emits nothing either way. */
  lemma {:induction false} DrainPreservesLines(buffer: string, more: string, rule: Rule)
    requires RetryStable(rule)
    ensures Drain(buffer, rule).emitted + LineDeltas(Split(Drain(buffer, rule).buffer + more, '\n'), rule)
            == LineDeltas(Split(buffer + more, '\n'), rule)
    decreases |buffer|
  {
    var nl := IndexOf(buffer, '\n');
    if nl == -1 {
      AppendEmpty(LineDeltas(Split(buffer + more, '\n'), rule));
    } else if Halts(rule(StripCR(buffer[..nl]))) {
      StoppedPreservesLines(buffer, more, rule);
    } else {
      var raw := buffer[..nl];
      var rest := buffer[nl + 1..];
      var d := Drain(rest, rule);
      DrainPreservesLines(rest, more, rule);
      DrainPassesLine(buffer, rule);
      SplitAppend(buffer, more, '\n');
      LineDeltasCons(raw, Split(rest + more, '\n'), rule);
      AppendAssoc(LineEvents(raw, rule), d.emitted, LineDeltas(Split(d.buffer + more, '\n'), rule));
    }
  }

  /** A first line that stops the inner loop or is put back ends it
      there, before any delta. */
  lemma DrainHaltsAtLine(buffer: string, rule: Rule)
    requires IndexOf(buffer, '\n') != -1
    requires Halts(rule(StripCR(buffer[..IndexOf(buffer, '\n')])))
    ensures Drain(buffer, rule).emitted == [] && Drain(buffer, rule).halt != NeedMore
    ensures var nl := IndexOf(buffer, '\n');
            var line := StripCR(buffer[..nl]);
            Drain(buffer, rule).buffer == if rule(line) == Stop then buffer[nl + 1..] else line + "\n" + buffer[nl + 1..]
  {
  }

  /** A first line that neither stops the inner loop nor is put back is
      passed: its delta, if any, comes first, then the loop goes on with the
      rest. */
  lemma DrainPassesLine(buffer: string, rule: Rule)
    requires IndexOf(buffer, '\n') != -1
    requires !Halts(rule(StripCR(buffer[..IndexOf(buffer, '\n')])))
    ensures var nl := IndexOf(buffer, '\n');
            var d := Drain(buffer[nl + 1..], rule);
            Drain(buffer, rule) == Drained(d.buffer, LineEvents(buffer[..nl], rule) + d.emitted, d.halt)
  {
    var nl := IndexOf(buffer, '\n');
    var d := Drain(buffer[nl + 1..], rule);
    match rule(StripCR(buffer[..nl]))
    case Skip =>
      assert LineEvents(buffer[..nl], rule) == [];
      AppendEmpty(d.emitted);
    case Emit(t) =>
      assert LineEvents(buffer[..nl], rule) == [Delta(t)];
  }

  /** `DrainPreservesLines` when the first line stops the inner loop. */
  lemma StoppedPreservesLines(buffer: string, more: string, rule: Rule)
    requires RetryStable(rule)
    requires IndexOf(buffer, '\n') != -1
    requires Halts(rule(StripCR(buffer[..IndexOf(buffer, '\n')])))
    ensures Drain(buffer, rule).emitted + LineDeltas(Split(Drain(buffer, rule).buffer + more, '\n'), rule)
            == LineDeltas(Split(buffer + more, '\n'), rule)
  {
    var nl := IndexOf(buffer, '\n');
    var raw := buffer[..nl];
    var line := StripCR(raw);
    var rest := buffer[nl + 1..];
    DrainHaltsAtLine(buffer, rule);
    SplitAppend(buffer, more, '\n');
    LineDeltasCons(raw, Split(rest + more, '\n'), rule);
    AppendEmpty(LineDeltas(Split(rest + more, '\n'), rule));
    if rule(line) == Retry {
      FirstLineHasNoNewline(buffer);
      AppendAssoc(line + "\n", rest, more);
      PutBackKeepsLines(line, rest + more, rule);
    }
  }

  /** A line put back in front of the rest emits nothing when it is read
      again. */
  lemma PutBackKeepsLines(line: string, tail: string, rule: Rule)
    requires RetryStable(rule) && '\n' !in line && rule(line) == Retry
    ensures LineDeltas(Split(line + "\n" + tail, '\n'), rule) == LineDeltas(Split(tail, '\n'), rule)
  {
    SplitJoined(line, '\n', tail);
    LineDeltasCons(line, Split(tail, '\n'), rule);
    assert LineEvents(line, rule) == [];
    AppendEmpty(LineDeltas(Split(tail, '\n'), rule));
  }

  /** The flush handles its pieces exactly as `LineDeltas` does. */
  lemma {:induction false} FlushLinesIsLineDeltas(pieces: seq<string>, parse: Parser)
    ensures FlushLines(pieces, parse) == LineDeltas(pieces, RuleOf(parse))
    decreases |pieces|
  {
    if pieces != [] {
      var n := |pieces| - 1;
      FlushLinesSnoc(pieces, parse);
      FlushLinesIsLineDeltas(pieces[..n], parse);
      LastSplit(pieces);
      LineDeltasAppend(pieces[..n], [pieces[n]], RuleOf(parse));
      LineDeltasSingle(pieces[n], RuleOf(parse));
    }
  }

  lemma LineDeltasSingle(line: string, rule: Rule)
    ensures LineDeltas([line], rule) == LineEvents(line, rule)
  {
    AppendEmpty(LineEvents(line, rule));
  }

  /** A line made only of whitespace emits nothing. */
  lemma BlankLineIsSkipped(raw: string, parse: Parser)
    requires AllWhitespace(raw)
    ensures LineEvents(raw, RuleOf(parse)) == []
  {
    var line := StripCR(raw);
    assert AllWhitespace(line) by {
      assert forall k :: 0 <= k < |line| ==> line[k] == raw[k];
    }
    assert Trim(line) == "";
  }

  /** Text made only of whitespace has no line that emits anything. */
  lemma BlankTextIsSkipped(s: string, parse: Parser)
    requires AllWhitespace(s)
    ensures LineDeltas(Split(s, '\n'), RuleOf(parse)) == []
  {
    forall raw | AllWhitespace(raw) ensures LineEvents(raw, RuleOf(parse)) == [] {
      BlankLineIsSkipped(raw, parse);
    }
    BlankLinesAreSkipped(s, RuleOf(parse));
  }

  /** A rule that emits nothing for a blank line. */
  ghost predicate SkipsBlank(rule: Rule) {
    forall raw :: AllWhitespace(raw) ==> LineEvents(raw, rule) == []
  }

  lemma {:induction false} BlankLinesAreSkipped(s: string, rule: Rule)
    requires AllWhitespace(s) && SkipsBlank(rule)
    ensures LineDeltas(Split(s, '\n'), rule) == []
    decreases |s|
  {
    var nl := IndexOf(s, '\n');
    SplitStep(s, '\n');
    if nl == -1 {
      LineDeltasSingle(s, rule);
    } else {
      var line, rest := s[..nl], s[nl + 1..];
      BlankSlices(s, nl);
      BlankLinesAreSkipped(rest, rule);
      LineDeltasCons(line, Split(rest, '\n'), rule);
    }
  }

  lemma BlankSlices(s: string, nl: nat)
    requires AllWhitespace(s) && nl < |s|
    ensures AllWhitespace(s[..nl]) && AllWhitespace(s[nl + 1..])
  {
    assert forall k :: 0 <= k < nl ==> s[..nl][k] == s[k];
    var t := s[nl + 1..];
    forall k | 0 <= k < |t| ensures IsWhitespace(t[k]) {
      assert t[k] == s[nl + 1 + k];
    }
  }

  /** The flush emits the deltas of the lines of what is left: its test for
      an all-whitespace buffer only skips text that would emit nothing. */
  lemma FlushIsLineDeltas(buffer: string, parse: Parser)
    ensures Flush(buffer, parse) == LineDeltas(Split(buffer, '\n'), RuleOf(parse))
  {
    if Trim(buffer) == "" {
      BlankTextIsSkipped(buffer, parse);
    } else {
      FlushLinesIsLineDeltas(Split(buffer, '\n'), parse);
    }
  }

  /* ---------- The callbacks ---------- */

  /** Every event is a delta with non-empty text. */
  predicate AllDeltas(events: seq<Event>) {
    forall k :: 0 <= k < |events| ==> events[k].Delta? && events[k].text != ""
  }

  lemma AllDeltasConcat(a: seq<Event>, b: seq<Event>)
    ensures AllDeltas(a + b) <==> AllDeltas(a) && AllDeltas(b)
  {
    if AllDeltas(a + b) {
      forall k | 0 <= k < |a| ensures a[k].Delta? && a[k].text != "" {
        assert (a + b)[k] == a[k];
      }
      forall k | 0 <= k < |b| ensures b[k].Delta? && b[k].text != "" {
        assert (a + b)[|a| + k] == b[k];
      }
    }
    if AllDeltas(a) && AllDeltas(b) {
      forall k | 0 <= k < |a + b| ensures (a + b)[k].Delta? && (a + b)[k].text != "" {
        if k >= |a| {
          assert (a + b)[k] == b[k - |a|];
        }
      }
    }
  }

  /** A rule emits only non-empty text. */
  ghost predicate EmitsText(rule: Rule) {
    forall line :: rule(line).Emit? ==> rule(line).text != ""
  }

  lemma ActEmitsText(parse: Parser)
    ensures EmitsText(RuleOf(parse))
  {
    forall line | RuleOf(parse)(line).Emit? ensures RuleOf(parse)(line).text != "" {
      var r := Act(line, parse);
    }
  }

  lemma {:induction false} DrainEmitsDeltas(buffer: string, rule: Rule)
    requires EmitsText(rule)
    ensures AllDeltas(Drain(buffer, rule).emitted)
    decreases |buffer|
  {
    var nl := IndexOf(buffer, '\n');
    if nl != -1 && !Halts(rule(StripCR(buffer[..nl]))) {
      var rest := buffer[nl + 1..];
      DrainPassesLine(buffer, rule);
      DrainEmitsDeltas(rest, rule);
      AllDeltasConcat(LineEvents(buffer[..nl], rule), Drain(rest, rule).emitted);
    }
  }

  lemma {:induction false} ReadLoopEmitsDeltas(chunks: seq<string>, buffer: string, rule: Rule)
    requires EmitsText(rule)
    ensures AllDeltas(ReadLoop(chunks, buffer, rule).emitted)
    decreases |chunks|
  {
    if chunks != [] {
      var d := Drain(buffer + chunks[0], rule);
      DrainEmitsDeltas(buffer + chunks[0], rule);
      if d.halt != SawDone {
        ReadLoopEmitsDeltas(chunks[1..], d.buffer, rule);
        AllDeltasConcat(d.emitted, ReadLoop(chunks[1..], d.buffer, rule).emitted);
      }
    }
  }

  lemma {:induction false} LineDeltasAreDeltas(lines: seq<string>, rule: Rule)
    requires EmitsText(rule)
    ensures AllDeltas(LineDeltas(lines, rule))
    decreases |lines|
  {
    if lines != [] {
      LineDeltasAreDeltas(lines[1..], rule);
      AllDeltasConcat(LineEvents(lines[0], rule), LineDeltas(lines[1..], rule));
    }
  }

  /** A stream reports each delta, non-empty, then `onDone` once, last. */
  lemma StreamShape(chunks: seq<string>, parse: Parser)
    ensures var s := Stream(chunks, parse);
            |s| >= 1 && s[|s| - 1] == Done && AllDeltas(s[..|s| - 1])
  {
    var rule := RuleOf(parse);
    var p := ReadLoop(chunks, "", rule);
    ActEmitsText(parse);
    ReadLoopEmitsDeltas(chunks, "", rule);
    FlushIsLineDeltas(p.buffer, parse);
    LineDeltasAreDeltas(Split(p.buffer, '\n'), rule);
    AllDeltasConcat(p.emitted, Flush(p.buffer, parse));
    var s := Stream(chunks, parse);
    assert s[..|s| - 1] == p.emitted + Flush(p.buffer, parse);
  }

  /** A call that rejects makes no callback. Every other call ends with
      exactly one terminal callback, as its last one: an error, alone, when
      the response failed or has no body; otherwise `onDone`, after the
      deltas, each with non-empty text. */
  lemma RunShape(resp: Response, parse: Parser)
    ensures Rejects(resp) <==> Run(resp, parse) == []
    ensures var r := Run(resp, parse);
            !Rejects(resp) ==>
            && |r| >= 1
            && AllDeltas(r[..|r| - 1])
            && !r[|r| - 1].Delta?
            && (r[|r| - 1].Error? <==> !resp.Ok() || resp.body.None?)
            && (r[|r| - 1].Error? ==> |r| == 1)
  {
    if resp.Ok() && resp.body.Some? {
      StreamShape(resp.body.value, parse);
    }
  }

  /* ---------- A line that fails to parse ---------- */

  /** Once a complete line fails to parse, the main loop emits nothing more
      and never sees `[DONE]`: later text cannot repair a line that already
      ended, so everything after it waits for the flush. */
  lemma {:induction false} StuckReadLoop(chunks: seq<string>, buffer: string, rule: Rule)
    requires RetryStable(rule) && Stuck(buffer, rule)
    ensures ReadLoop(chunks, buffer, rule).emitted == []
    ensures !ReadLoop(chunks, buffer, rule).sawDone
    ensures Stuck(ReadLoop(chunks, buffer, rule).buffer, rule)
    decreases |chunks|
  {
    if chunks != [] {
      StuckAppend(buffer, chunks[0], rule);
      StuckDrain(buffer + chunks[0], rule);
      var d := Drain(buffer + chunks[0], rule);
      StuckReadLoop(chunks[1..], d.buffer, rule);
      AppendEmpty<Event>([]);
    }
  }

  /* ---------- The whole body ---------- */

  /** The text of the whole body: the chunks one after the other. */
  function Concat(chunks: seq<string>): string {
    if chunks == [] then "" else chunks[0] + Concat(chunks[1..])
  }

  /** When the inner loop wants more text, the buffer holds no complete line. */
  lemma {:induction false} NeedMoreHasNoLine(buffer: string, rule: Rule)
    requires Drain(buffer, rule).halt == NeedMore
    ensures IndexOf(Drain(buffer, rule).buffer, '\n') == -1
    decreases |buffer|
  {
    var nl := IndexOf(buffer, '\n');
    if nl != -1 {
      if Halts(rule(StripCR(buffer[..nl]))) {
        DrainHaltsAtLine(buffer, rule);
      } else {
        DrainPassesLine(buffer, rule);
        NeedMoreHasNoLine(buffer[nl + 1..], rule);
      }
    }
  }

  /** The outer loop emits what one run of the inner loop over the whole body
      would emit, and sees `[DONE]` exactly when that run does: how the body
      is cut into chunks changes neither. */
  lemma {:induction false} ReadLoopMatchesDrain(chunks: seq<string>, buffer: string, rule: Rule)
    requires RetryStable(rule)
    requires IndexOf(buffer, '\n') == -1 || Stuck(buffer, rule)
    ensures var p := ReadLoop(chunks, buffer, rule);
            var d := Drain(buffer + Concat(chunks), rule);
            && (p.sawDone <==> d.halt == SawDone)
            && p.emitted == d.emitted
            && (d.halt == NeedMore ==> p.buffer == d.buffer)
    decreases |chunks|
  {
    if chunks == [] {
      assert buffer + Concat(chunks) == buffer;
      if Stuck(buffer, rule) {
        StuckDrain(buffer, rule);
      }
    } else {
      var more := Concat(chunks[1..]);
      var d := Drain(buffer + chunks[0], rule);
      assert buffer + Concat(chunks) == (buffer + chunks[0]) + more;
      DrainAppend(buffer + chunks[0], more, rule);
      match d.halt
      case NeedMore =>
        NeedMoreHasNoLine(buffer + chunks[0], rule);
        ReadLoopMatchesDrain(chunks[1..], d.buffer, rule);
      case Stalled =>
        StalledIsStuck(buffer + chunks[0], rule);
        ReadLoopMatchesDrain(chunks[1..], d.buffer, rule);
        StuckAppend(d.buffer, more, rule);
        StuckDrain(d.buffer + more, rule);
        AppendEmpty(d.emitted);
      case SawDone =>
        AppendEmpty(d.emitted);
    }
  }

  /** Until `[DONE]`, the outer loop loses no line and invents none: what it
      emitted, then the deltas of the lines of what it left, are the deltas
      of the lines of everything it read. */
  lemma {:induction false} ReadLoopPreservesLines(chunks: seq<string>, buffer: string, more: string, rule: Rule)
    requires RetryStable(rule)
    requires !ReadLoop(chunks, buffer, rule).sawDone
    ensures ReadLoop(chunks, buffer, rule).emitted
              + LineDeltas(Split(ReadLoop(chunks, buffer, rule).buffer + more, '\n'), rule)
            == LineDeltas(Split(buffer + Concat(chunks) + more, '\n'), rule)
    decreases |chunks|
  {
    if chunks == [] {
      assert buffer + Concat(chunks) == buffer;
      AppendEmpty(LineDeltas(Split(buffer + more, '\n'), rule));
    } else {
      var d := Drain(buffer + chunks[0], rule);
      ReadLoopStep(chunks, buffer, rule);
      ReadLoopPreservesLines(chunks[1..], d.buffer, more, rule);
      ReadLoopLinesStep(chunks, buffer, more, rule);
    }
  }

  /** The buffer, the body and what follows, regrouped at the first chunk. */
  lemma BodyThenMore(buffer: string, chunks: seq<string>, more: string)
    requires chunks != []
    ensures buffer + chunks[0] + (Concat(chunks[1..]) + more) == buffer + Concat(chunks) + more
  {
    AppendAssoc(buffer, chunks[0], Concat(chunks[1..]));
    AppendAssoc(buffer + chunks[0], Concat(chunks[1..]), more);
  }

  /** One turn of `ReadLoopPreservesLines`: the first chunk's inner loop,
      then the rest of the outer loop. */
  lemma {:induction false} ReadLoopLinesStep(chunks: seq<string>, buffer: string, more: string, rule: Rule)
    requires RetryStable(rule)
    requires chunks != [] && !ReadLoop(chunks, buffer, rule).sawDone
    requires var d := Drain(buffer + chunks[0], rule);
             var q := ReadLoop(chunks[1..], d.buffer, rule);
             q.emitted + LineDeltas(Split(q.buffer + more, '\n'), rule)
             == LineDeltas(Split(d.buffer + Concat(chunks[1..]) + more, '\n'), rule)
    ensures ReadLoop(chunks, buffer, rule).emitted
              + LineDeltas(Split(ReadLoop(chunks, buffer, rule).buffer + more, '\n'), rule)
            == LineDeltas(Split(buffer + Concat(chunks) + more, '\n'), rule)
  {
    var rest := Concat(chunks[1..]);
    var d := Drain(buffer + chunks[0], rule);
    var q := ReadLoop(chunks[1..], d.buffer, rule);
    var tail := LineDeltas(Split(q.buffer + more, '\n'), rule);
    ReadLoopStep(chunks, buffer, rule);
    AppendAssoc(d.buffer, rest, more);
    DrainPreservesLines(buffer + chunks[0], rest + more, rule);
    BodyThenMore(buffer, chunks, more);
    AppendAssoc(d.emitted, q.emitted, tail);
  }

  /** Without `[DONE]`, a stream reports the delta of every line of the
      body, in order, then `onDone`, however the body is cut into chunks:
      the flush picks up what the main loop left, including every line
      after one that failed to parse. */
  lemma StreamWithoutDone(chunks: seq<string>, parse: Parser)
    requires Drain(Concat(chunks), RuleOf(parse)).halt != SawDone
    ensures Stream(chunks, parse) == LineDeltas(Split(Concat(chunks), '\n'), RuleOf(parse)) + [Done]
  {
    var rule := RuleOf(parse);
    var p := ReadLoop(chunks, "", rule);
    ActRetryStable(parse);
    ReadLoopMatchesDrain(chunks, "", rule);
    assert "" + Concat(chunks) == Concat(chunks);
    ReadLoopPreservesLines(chunks, "", "", rule);
    assert p.buffer + "" == p.buffer;
    assert "" + Concat(chunks) + "" == Concat(chunks);
    FlushIsLineDeltas(p.buffer, parse);
  }

  /** Two cuttings of the same body without `[DONE]` give the same
      callbacks. */
  lemma StreamIgnoresChunking(a: seq<string>, b: seq<string>, parse: Parser)
    requires Concat(a) == Concat(b)
    requires Drain(Concat(a), RuleOf(parse)).halt != SawDone
    ensures Stream(a, parse) == Stream(b, parse)
  {
    StreamWithoutDone(a, parse);
    StreamWithoutDone(b, parse);
  }

  /** With `[DONE]`, a stream reports the deltas of the lines before it,
      then flushes what was left of the chunk in which it arrived (part of
      the text after `[DONE]`), then `onDone`. */
  lemma StreamWithDone(chunks: seq<string>, parse: Parser)
    requires Drain(Concat(chunks), RuleOf(parse)).halt == SawDone
    ensures var d := Drain(Concat(chunks), RuleOf(parse));
            exists left :: left <= d.buffer && Stream(chunks, parse) == d.emitted + Flush(left, parse) + [Done]
  {
    var rule := RuleOf(parse);
    var p := ReadLoop(chunks, "", rule);
    ActRetryStable(parse);
    ReadLoopMatchesDrain(chunks, "", rule);
    assert "" + Concat(chunks) == Concat(chunks);
    DoneLeavesPrefix(chunks, "", rule);
    var d := Drain(Concat(chunks), rule);
    assert p.buffer <= d.buffer && Stream(chunks, parse) == d.emitted + Flush(p.buffer, parse) + [Done];
  }

  /** After `[DONE]` the outer loop reads no further chunk, and what it
      leaves in the buffer is a prefix of what one run of the inner loop over
      the whole body would leave. */
  lemma {:induction false} DoneLeavesPrefix(chunks: seq<string>, buffer: string, rule: Rule)
    requires ReadLoop(chunks, buffer, rule).sawDone
    requires RetryStable(rule)
    requires IndexOf(buffer, '\n') == -1 || Stuck(buffer, rule)
    ensures ReadLoop(chunks, buffer, rule).buffer <= Drain(buffer + Concat(chunks), rule).buffer
    decreases |chunks|
  {
    var more := Concat(chunks[1..]);
    var d := Drain(buffer + chunks[0], rule);
    DrainBody(chunks, buffer, rule);
    ReadLoopStep(chunks, buffer, rule);
    match d.halt
    case NeedMore =>
      NeedMoreHasNoLine(buffer + chunks[0], rule);
      DoneLeavesPrefix(chunks[1..], d.buffer, rule);
    case Stalled =>
      StalledIsStuck(buffer + chunks[0], rule);
      StuckReadLoop(chunks[1..], d.buffer, rule);
    case SawDone =>
      assert d.buffer <= d.buffer + more;
  }

  /** The inner loop over a buffer and a whole body is the inner loop over
      the buffer and the first chunk, continued with the rest. */
  lemma DrainBody(chunks: seq<string>, buffer: string, rule: Rule)
    requires chunks != []
    ensures var d := Drain(buffer + chunks[0], rule);
            Drain(buffer + Concat(chunks), rule) == Resume(d.emitted, Continue(d, Concat(chunks[1..]), rule))
  {
    assert buffer + Concat(chunks) == (buffer + chunks[0]) + Concat(chunks[1..]);
    DrainAppend(buffer + chunks[0], Concat(chunks[1..]), rule);
  }

  /** `[DONE]` stops the reading: chunks after the one that brought it are
      never read. */
  lemma {:induction false} DoneStopsReading(chunks: seq<string>, later: seq<string>, buffer: string, rule: Rule)
    requires ReadLoop(chunks, buffer, rule).sawDone
    ensures ReadLoop(chunks + later, buffer, rule) == ReadLoop(chunks, buffer, rule)
    decreases |chunks|
  {
    assert (chunks + later)[0] == chunks[0];
    assert (chunks + later)[1..] == chunks[1..] + later;
    var d := Drain(buffer + chunks[0], rule);
    if d.halt != SawDone {
      DoneStopsReading(chunks[1..], later, d.buffer, rule);
    }
  }

  /** A chunk in which the inner loop sees `[DONE]` ends the stream: what
      is left of it is flushed and later chunks are never read. */
  lemma StreamStopsAtDone(chunks: seq<string>, parse: Parser)
    requires chunks != [] && Drain(chunks[0], RuleOf(parse)).halt == SawDone
    ensures var d := Drain(chunks[0], RuleOf(parse));
            Stream(chunks, parse) == d.emitted + Flush(d.buffer, parse) + [Done]
  {
    assert "" + chunks[0] == chunks[0];
  }

  /** A `[DONE]` line stops the inner loop and leaves what follows it. */
  lemma DoneLineStops(stop: string, rest: string, rule: Rule)
    requires IndexOf(stop, '\n') == -1 && rule(StripCR(stop)) == Stop
    ensures Drain(stop + "\n" + rest, rule) == Drained(rest, [], SawDone)
  {
    IndexOfIsFirst(stop, '\n');
    IndexOfJoined(stop, '\n', rest);
    assert stop + "\n" + rest == stop + ['\n'] + rest;
  }

  /** The flush of one complete data line reports its delta. */
  lemma FlushOneLine(line: string, t: string, parse: Parser)
    requires IndexOf(line, '\n') == -1 && Act(StripCR(line), parse) == Emit(t)
    ensures Flush(line + "\n", parse) == [Delta(t)]
  {
    SplitOneLine(line);
    ActCases(StripCR(line), parse);
    DataLineStartsVisible(line);
    StartNotBlank(line + "\n");
    FlushLinesThenBlank(line, parse);
  }

  /** A line ended by its newline splits into the line and an empty rest. */
  lemma SplitOneLine(line: string)
    requires IndexOf(line, '\n') == -1
    ensures Split(line + "\n", '\n') == [line, ""]
  {
    IndexOfIsFirst(line, '\n');
    SplitJoined(line, '\n', "");
    assert line + "\n" == line + ['\n'] + "";
  }

  /** A data line, with or without its carriage return, starts with a
      visible character. */
  lemma DataLineStartsVisible(line: string)
    requires IsDataLine(StripCR(line))
    ensures line + "\n" != [] && !IsWhitespace((line + "\n")[0])
  {
    assert (line + "\n")[0] == line[0] == StripCR(line)[0] == 'd';
  }

  /** A text that starts with a visible character does not trim to
      nothing. */
  lemma StartNotBlank(w: string)
    requires w != [] && !IsWhitespace(w[0])
    ensures Trim(w) != ""
  {
    assert !AllWhitespace(w);
  }

  /** The empty piece after the last newline adds nothing to the flush. */
  lemma FlushLinesThenBlank(line: string, parse: Parser)
    ensures FlushLines([line, ""], parse) == FlushLine(line, parse)
  {
    assert [line, ""][..1] == [line] && [line][..0] == [];
    assert FlushLines([line], parse) == [] + FlushLine(line, parse);
  }

  lemma ConcatTwo(x: string, y: string)
    ensures Concat([x, y]) == x + y == Concat([x + y])
  {
    assert [x, y][1..] == [y] && [y][1..] == [] && [x + y][1..] == [];
    assert Concat([y]) == y + Concat([]) == y;
    assert Concat([x, y]) == x + Concat([y]);
    assert Concat([x + y]) == x + y + Concat([]) == x + y;
  }

  /** The flush runs after `[DONE]` too, so a data line that follows
      `[DONE]` is reported when it arrived in the same chunk, and not when
      it arrived in a later one. */
  lemma FlushAfterDoneDependsOnChunking(stop: string, line: string, t: string, parse: Parser)
    requires IndexOf(stop, '\n') == -1 && IndexOf(line, '\n') == -1
    requires Act(StripCR(stop), parse) == Stop
    requires Act(StripCR(line), parse) == Emit(t)
    ensures Concat([(stop + "\n") + (line + "\n")]) == Concat([stop + "\n", line + "\n"])
    ensures Stream([(stop + "\n") + (line + "\n")], parse) == [Delta(t), Done]
    ensures Stream([stop + "\n", line + "\n"], parse) == [Done]
  {
    ConcatTwo(stop + "\n", line + "\n");
    DoneThenDataInOneChunk(stop, line, t, parse);
    DoneThenDataInTwoChunks(stop, line, parse);
  }

  lemma DoneThenDataInOneChunk(stop: string, line: string, t: string, parse: Parser)
    requires IndexOf(stop, '\n') == -1 && IndexOf(line, '\n') == -1
    requires Act(StripCR(stop), parse) == Stop
    requires Act(StripCR(line), parse) == Emit(t)
    ensures Stream([(stop + "\n") + (line + "\n")], parse) == [Delta(t), Done]
  {
    var rest := line + "\n";
    DoneLineStops(stop, rest, RuleOf(parse));
    DoneChunkEnds([stop + "\n" + rest], rest, parse);
    FlushOneLine(line, t, parse);
  }

  lemma DoneThenDataInTwoChunks(stop: string, line: string, parse: Parser)
    requires IndexOf(stop, '\n') == -1
    requires Act(StripCR(stop), parse) == Stop
    ensures Stream([stop + "\n", line + "\n"], parse) == [Done]
  {
    DoneLineAlone(stop, RuleOf(parse));
    DoneChunkEnds([stop + "\n", line + "\n"], "", parse);
    FlushEmpty(parse);
  }

  /** A `[DONE]` line alone in a chunk leaves nothing in the buffer. */
  lemma DoneLineAlone(stop: string, rule: Rule)
    requires IndexOf(stop, '\n') == -1 && rule(StripCR(stop)) == Stop
    ensures Drain(stop + "\n", rule) == Drained("", [], SawDone)
  {
    assert stop + "\n" == stop + "\n" + "";
    DoneLineStops(stop, "", rule);
  }

  /** A first chunk that ends the inner loop at `[DONE]` without deltas
      leaves only the flush of what followed `[DONE]` in it. */
  lemma DoneChunkEnds(chunks: seq<string>, rest: string, parse: Parser)
    requires chunks != [] && Drain(chunks[0], RuleOf(parse)) == Drained(rest, [], SawDone)
    ensures Stream(chunks, parse) == Flush(rest, parse) + [Done]
  {
    StreamStopsAtDone(chunks, parse);
    assert [] + Flush(rest, parse) == Flush(rest, parse);
  }

  /** An empty buffer flushes nothing. */
  lemma FlushEmpty(parse: Parser)
    ensures Flush("", parse) == []
  {
    assert Trim("") == "";
  }
}
