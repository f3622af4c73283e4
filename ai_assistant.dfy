/** The chat panel: `send` adds the user's message, runs `streamChat` and
    grows one assistant message out of the deltas it reports. */
module AIAssistant {
  import opened Wrappers
  import opened JsString
  import opened StreamChat
  import opened StreamChatProofs

  datatype Role = User | Assistant

  datatype Msg = Msg(role: Role, content: string)

  /** The `setMessages` updater of `upsertAssistant`: when the last message
      is the assistant's, its content becomes `soFar`; otherwise an
      assistant message holding `soFar` is appended. Earlier messages stay. */
  function UpsertAssistant(prev: seq<Msg>, soFar: string): (r: seq<Msg>)
    ensures |r| >= 1 && r[|r| - 1] == Msg(Assistant, soFar)
    ensures prev != [] && prev[|prev| - 1].role == Assistant ==>
              |r| == |prev| && r[..|prev| - 1] == prev[..|prev| - 1]
    ensures prev == [] || prev[|prev| - 1].role != Assistant ==>
              |r| == |prev| + 1 && r[..|prev|] == prev
  {
    if prev != [] && prev[|prev| - 1].role == Assistant then
      prev[|prev| - 1 := prev[|prev| - 1].(content := soFar)]
    else
      prev + [Msg(Assistant, soFar)]
  }

  /** The deltas of a trace, concatenated in order (`assistantSoFar`). */
  function Answer(events: seq<Event>): string {
    if events == [] then ""
    else
      var last := events[|events| - 1];
      Answer(events[..|events| - 1]) + (if last.Delta? then last.text else "")
  }

  predicate HasDelta(events: seq<Event>) {
    exists k :: 0 <= k < |events| && events[k].Delta?
  }

  /** What a trace adds after the user's message: one assistant message
      with the whole answer once a delta has come, nothing before. */
  function Reply(events: seq<Event>): seq<Msg> {
    if HasDelta(events) then [Msg(Assistant, Answer(events))] else []
  }

  /** The answer of two traces one after the other is their answers one
      after the other. */
  lemma {:induction false} AnswerAppend(a: seq<Event>, b: seq<Event>)
    ensures Answer(a + b) == Answer(a) + Answer(b)
    decreases |b|
  {
    if b == [] {
      assert a + b == a;
    } else {
      var b' := b[..|b| - 1];
      assert (a + b)[..|a + b| - 1] == a + b';
      AnswerAppend(a, b');
    }
  }

  /** Each event moves the reply on by one `upsertAssistant` call (for a
      delta) or leaves it (for `onDone` and `onError`). */
  lemma ReplyStep(base: seq<Msg>, events: seq<Event>, i: nat)
    requires i < |events|
    requires base != [] && base[|base| - 1].role == User
    ensures events[i].Delta? ==>
              base + Reply(events[..i + 1]) ==
              UpsertAssistant(base + Reply(events[..i]), Answer(events[..i]) + events[i].text)
    ensures !events[i].Delta? ==> Reply(events[..i + 1]) == Reply(events[..i])
    ensures Answer(events[..i + 1]) == Answer(events[..i]) + (if events[i].Delta? then events[i].text else "")
  {
    var pre := events[..i];
    var post := events[..i + 1];
    assert post[..|post| - 1] == pre && post[|post| - 1] == events[i];
    assert Answer(post) == Answer(pre) + (if events[i].Delta? then events[i].text else "");
    assert HasDelta(post) <==> HasDelta(pre) || events[i].Delta? by {
      if HasDelta(pre) {
        var k :| 0 <= k < |pre| && pre[k].Delta?;
        assert post[k] == pre[k];
      }
      if HasDelta(post) && !events[i].Delta? {
        var k :| 0 <= k < |post| && post[k].Delta?;
        assert k < i && pre[k] == post[k];
      }
      if events[i].Delta? {
        assert post[i].Delta?;
      }
    }
    if events[i].Delta? {
      var prev := base + Reply(pre);
      var r := UpsertAssistant(prev, Answer(pre) + events[i].text);
      if HasDelta(pre) {
        assert r[..|prev| - 1] == base;
      } else {
        assert prev == base;
      }
      assert r == base + Reply(post);
    } else {
      assert Answer(pre) + "" == Answer(pre);
    }
  }

  /** A failed response, a rejected call or a missing body adds no
      assistant message; a readable body adds one exactly when its answer is
      not empty, holding all of it. */
  lemma ReplyOfRun(resp: Response, parse: Parser)
    ensures !resp.Ok() || resp.body.None? ==> Reply(Run(resp, parse)) == []
    ensures Reply(Run(resp, parse)) ==
              if Answer(Run(resp, parse)) == "" then [] else [Msg(Assistant, Answer(Run(resp, parse)))]
  {
    var r := Run(resp, parse);
    RunShape(resp, parse);
    if r == [] {
      return;
    }
    DeltasAnswer(r[..|r| - 1]);
    assert r == r[..|r| - 1] + [r[|r| - 1]];
    AnswerAppend(r[..|r| - 1], [r[|r| - 1]]);
    assert Answer([r[|r| - 1]]) == "" by {
      assert [r[|r| - 1]][..0] == [];
    }
    if HasDelta(r) {
      var k :| 0 <= k < |r| && r[k].Delta?;
      assert k < |r| - 1;
      assert r[..|r| - 1] != [];
    }
  }

  /** A trace of non-empty deltas has a non-empty answer exactly when it is
      not empty. */
  lemma {:induction false} DeltasAnswer(events: seq<Event>)
    requires AllDeltas(events)
    ensures Answer(events) == "" <==> events == []
    decreases |events|
  {
    if events != [] {
      var init := events[..|events| - 1];
      assert AllDeltas(init) by {
        forall k | 0 <= k < |init| ensures init[k].Delta? && init[k].text != "" {
          assert init[k] == events[k];
        }
      }
      DeltasAnswer(init);
    }
  }

  /** Without a `[DONE]` line, the message the assistant ends up with does
      not depend on how the body was cut into chunks. */
  lemma ReplyIgnoresChunking(a: seq<string>, b: seq<string>, parse: Parser)
    requires Concat(a) == Concat(b)
    requires Drain(Concat(a), RuleOf(parse)).halt != SawDone
    ensures Reply(Stream(a, parse)) == Reply(Stream(b, parse))
  {
    StreamIgnoresChunking(a, b, parse);
  }

  /** A call that does not reject ends with `onDone` or `onError`. */
  lemma RunEnds(resp: Response, parse: Parser)
    ensures var r := Run(resp, parse); !Rejects(resp) ==> r != [] && !r[|r| - 1].Delta?
  {
    RunShape(resp, parse);
  }

  /** The callbacks of one `streamChat` call applied in order to the
      messages and the loading flag: each delta through `upsertAssistant`
      with the answer so far, `onDone` and `onError` ending the loading. */
  method Deliver(before: seq<Msg>, loading: bool, events: seq<Event>)
    returns (messages: seq<Msg>, isLoading: bool)
    requires before != [] && before[|before| - 1].role == User
    ensures messages == before + Reply(events)
    ensures events != [] && !events[|events| - 1].Delta? ==> !isLoading
    ensures (forall k :: 0 <= k < |events| ==> events[k].Delta?) ==> isLoading == loading
  {
    messages, isLoading := before, loading;
    var assistantSoFar := "";
    var i := 0;
    assert events[..0] == [];
    while i < |events|
      invariant 0 <= i <= |events|
      invariant assistantSoFar == Answer(events[..i])
      invariant messages == before + Reply(events[..i])
      invariant 0 < i && !events[i - 1].Delta? ==> !isLoading
      invariant (forall k :: 0 <= k < i ==> events[k].Delta?) ==> isLoading == loading
    {
      ReplyStep(before, events, i);
      match events[i] {
        case Delta(t) =>
          assistantSoFar := assistantSoFar + t;
          messages := UpsertAssistant(messages, assistantSoFar);
        case Done =>
          isLoading := false;
        case Error(_) =>
          isLoading := false;
      }
      i := i + 1;
    }
    assert events[..i] == events;
  }

  /** The panel state: the three `useState` fields of `AIAssistant`. */
  class ChatPanel {
    var query: string
    var messages: seq<Msg>
    var isLoading: bool

    constructor ()
      ensures query == "" && messages == [] && !isLoading
    {
      query := "";
      messages := [];
      isLoading := false;
    }

    /** `send(text)`. `resp` is the answer `fetch` resolves to, or `None`
        when the request throws. Both that and a rejected `streamChat` take
        the connection-error path, which ends the loading. Nothing happens
        for blank text or while an answer is loading; otherwise the user's
        message, then the assistant's reply, are added, and loading ends
        whichever way the stream ends. */
    method Send(text: string, resp: Option<Response>, parse: Parser)
      modifies this
      ensures Trim(text) == "" || old(isLoading) ==>
                query == old(query) && messages == old(messages) && isLoading == old(isLoading)
      ensures Trim(text) != "" && !old(isLoading) ==>
                && query == ""
                && !isLoading
                && messages == old(messages) + [Msg(User, text)] +
                               (if resp.None? then [] else Reply(Run(resp.value, parse)))
    {
      if Trim(text) == "" || isLoading {
        return;
      }
      messages := messages + [Msg(User, text)];
      query := "";
      isLoading := true;
      Converse(resp, parse);
    }

    /** The `try`/`catch` of `send`: the callbacks of `streamChat` applied
        in order, then, when the request throws or `streamChat` rejects,
        the connection-error path. Either way the reply is added and the
        loading ends. */
    method Converse(resp: Option<Response>, parse: Parser)
      requires messages != [] && messages[|messages| - 1].role == User
      modifies this
      ensures query == old(query)
      ensures !isLoading
      ensures messages == old(messages) + (if resp.None? then [] else Reply(Run(resp.value, parse)))
    {
      if resp.None? {
        isLoading := false;
        return;
      }
      var events, rejected := StreamChat.StreamChat(resp.value, parse);
      RunEnds(resp.value, parse);
      messages, isLoading := Deliver(messages, isLoading, events);
      if rejected {
        isLoading := false;
      }
    }
  }
}
