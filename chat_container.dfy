/**
 * The chat panel's `handleSubmit` (frontend/components/chat/chat-container.tsx): the
 * submit guard, the read loop that splits the streamed body into lines, and the dispatch
 * of each `data: ` record to the step, sources or content branch. The component's state
 * is the fields of one object; the two callback props are recorded as a list of notices.
 */
module ChatContainer {
  import opened Wrappers
  import opened Strings
  import opened Ai

  datatype Source = Source(url: string, title: string, snippet: string)

  datatype Role = User | Assistant

  /** A message of the conversation; message ids come from the clock and are not modelled. */
  datatype Message = Message(role: Role, content: string, sources: Option<seq<Source>>)

  /**
   * A parsed `data: ` record: each field is `None` where the JSON leaves it out. A step
   * counts only when it is a non-empty string; any sources array counts, even an empty one.
   */
  datatype Record = Record(step: Option<string>, sources: Option<seq<Source>>, content: Option<string>)

  /** What one record does. */
  datatype Action = StepAction(step: string) | SourcesAction(sources: seq<Source>) | ContentAction(content: string)

  /** The calls the component makes to `onLoadingChange` and `onSourcesChange`. */
  datatype Notice = LoadingChanged(loading: bool, step: Option<string>) | SourcesChanged(sources: seq<Source>)

  /**
   * How the chat request went. `fetch` either failed or answered with an error status,
   * answered without a body, or streamed `chunks`; `broken` means a read threw after them.
   */
  datatype ChatResponse = NotOk | NoReader | Body(chunks: seq<string>, broken: bool)

  const ErrorReply: string := "Sorry, I encountered an error. Please try again."

  // ================================================================ one line

  /** The record a line carries: only `data: ` lines whose payload parses. `records` is `JSON.parse`. */
  function LineRecord(line: string, records: map<string, Record>): (r: Option<Record>)
    ensures r.Some? ==> StartsWith(line, "data: ")
  {
    if StartsWith(line, "event: ") then None
    else if StartsWith(line, "data: ") then Get(records, Drop(line, 6))
    else None
  }

  /** The branch a record takes: a step first, then sources, then content; otherwise none. */
  function Dispatch(rec: Record): (r: Option<Action>)
    ensures r.Some? && r.value.StepAction? <==> rec.step.Some? && rec.step.value != ""
    ensures r.Some? && r.value.SourcesAction? <==>
      !(rec.step.Some? && rec.step.value != "") && rec.sources.Some?
    ensures r.Some? && r.value.ContentAction? <==>
      !(rec.step.Some? && rec.step.value != "") && rec.sources.None? && rec.content.Some?
    ensures r.Some? && r.value.StepAction? ==> r.value.step == rec.step.value
    ensures r.Some? && r.value.SourcesAction? ==> r.value.sources == rec.sources.value
    ensures r.Some? && r.value.ContentAction? ==> r.value.content == rec.content.value
  {
    if rec.step.Some? && rec.step.value != "" then Some(StepAction(rec.step.value))
    else if rec.sources.Some? then Some(SourcesAction(rec.sources.value))
    else if rec.content.Some? then Some(ContentAction(rec.content.value))
    else None
  }

  function LineAction(line: string, records: map<string, Record>): Option<Action> {
    var rec := LineRecord(line, records);
    if rec.None? then None else Dispatch(rec.value)
  }

  /** `event: ` lines, and lines that are not data lines, do nothing. */
  lemma OtherLinesIgnored(line: string, records: map<string, Record>)
    requires StartsWith(line, "event: ") || !StartsWith(line, "data: ")
    ensures LineAction(line, records).None?
  {
  }

  /** A data line whose payload does not parse does nothing. */
  lemma UnparsableIgnored(line: string, records: map<string, Record>)
    requires Drop(line, 6) !in records
    ensures LineAction(line, records).None?
  {
  }

  // ================================================================ many lines

  /** The actions of a list of complete lines, in order. */
  function Actions(lines: seq<string>, records: map<string, Record>): (r: seq<Action>)
    ensures |r| <= |lines|
  {
    if lines == [] then []
    else
      var last := LineAction(Last(lines), records);
      Actions(AllButLast(lines), records) + (if last.Some? then [last.value] else [])
  }

  /** The text one action adds to the answer: a content action's content. */
  function ActionText(a: Action): string {
    if a.ContentAction? then a.content else ""
  }

  /** The callback one action makes: steps report loading, sources are passed on, content makes none. */
  function ActionNotices(a: Action): seq<Notice> {
    if a.StepAction? then [LoadingChanged(true, Some(a.step))]
    else if a.SourcesAction? then [SourcesChanged(a.sources)]
    else []
  }

  /** The answer: the content of every content action, in order. */
  function Answer(actions: seq<Action>): string {
    if actions == [] then ""
    else Answer(AllButLast(actions)) + ActionText(Last(actions))
  }

  /** The sources in force after the actions: those of the last sources action, else `initial`. */
  function SourcesAfter(initial: seq<Source>, actions: seq<Action>): seq<Source> {
    if actions == [] then initial
    else if Last(actions).SourcesAction? then Last(actions).sources
    else SourcesAfter(initial, AllButLast(actions))
  }

  /** The callbacks the actions make, in order. */
  function Notices(actions: seq<Action>): (r: seq<Notice>)
    ensures |r| <= |actions|
  {
    if actions == [] then []
    else Notices(AllButLast(actions)) + ActionNotices(Last(actions))
  }

  lemma {:induction false} ActionsAppend(a: seq<string>, b: seq<string>, records: map<string, Record>)
    ensures Actions(a + b, records) == Actions(a, records) + Actions(b, records)
    decreases |b|
  {
    if b == [] {
      assert a + b == a;
    } else {
      ConcatEnds(a, b);
      ActionsAppend(a, AllButLast(b), records);
      var last := LineAction(Last(b), records);
      ConcatAssoc(Actions(a, records), Actions(AllButLast(b), records), if last.Some? then [last.value] else []);
    }
  }

  lemma {:induction false} AnswerAppend(a: seq<Action>, b: seq<Action>)
    ensures Answer(a + b) == Answer(a) + Answer(b)
    decreases |b|
  {
    if b == [] {
      assert a + b == a;
    } else {
      ConcatEnds(a, b);
      AnswerAppend(a, AllButLast(b));
      ConcatAssoc(Answer(a), Answer(AllButLast(b)), ActionText(Last(b)));
    }
  }

  lemma {:induction false} SourcesAfterAppend(initial: seq<Source>, a: seq<Action>, b: seq<Action>)
    ensures SourcesAfter(initial, a + b) == SourcesAfter(SourcesAfter(initial, a), b)
    decreases |b|
  {
    if b == [] {
      assert a + b == a;
    } else {
      ConcatEnds(a, b);
      SourcesAfterAppend(initial, a, AllButLast(b));
    }
  }

  lemma {:induction false} NoticesAppend(a: seq<Action>, b: seq<Action>)
    ensures Notices(a + b) == Notices(a) + Notices(b)
    decreases |b|
  {
    if b == [] {
      assert a + b == a;
    } else {
      ConcatEnds(a, b);
      NoticesAppend(a, AllButLast(b));
      ConcatAssoc(Notices(a), Notices(AllButLast(b)), ActionNotices(Last(b)));
    }
  }

  /** One more line adds its action, if it has one. */
  lemma ActionsSnoc(lines: seq<string>, i: nat, records: map<string, Record>)
    requires i < |lines|
    ensures var a := LineAction(lines[i], records);
      Actions(lines[..i + 1], records) == Actions(lines[..i], records) + (if a.Some? then [a.value] else [])
  {
    assert AllButLast(lines[..i + 1]) == lines[..i];
  }

  /** What one more action does to the answer, the sources and the callbacks. */
  lemma ActionSnoc(initial: seq<Source>, actions: seq<Action>, a: Action)
    ensures Answer(actions + [a]) == Answer(actions) + ActionText(a)
    ensures SourcesAfter(initial, actions + [a]) == (if a.SourcesAction? then a.sources else SourcesAfter(initial, actions))
    ensures Notices(actions + [a]) == Notices(actions) + ActionNotices(a)
  {
    ConcatEnds(actions, [a]);
  }

  /** The answer holds no text but content: without content actions it is empty. */
  lemma {:induction false} AnswerWithoutContent(actions: seq<Action>)
    requires forall k :: 0 <= k < |actions| ==> !actions[k].ContentAction?
    ensures Answer(actions) == ""
  {
    if actions != [] {
      AnswerWithoutContent(AllButLast(actions));
    }
  }

  /** The sources in force are the initial ones or those of some sources action. */
  lemma {:induction false} SourcesAfterFrom(initial: seq<Source>, actions: seq<Action>)
    ensures var s := SourcesAfter(initial, actions);
      s == initial || exists k :: 0 <= k < |actions| && actions[k] == SourcesAction(s)
  {
    if actions != [] && !Last(actions).SourcesAction? {
      SourcesAfterFrom(initial, AllButLast(actions));
      var s := SourcesAfter(initial, actions);
      if s != initial {
        var k :| 0 <= k < |AllButLast(actions)| && AllButLast(actions)[k] == SourcesAction(s);
        assert actions[k] == SourcesAction(s);
      }
    } else if actions != [] {
      assert actions[|actions| - 1] == Last(actions);
    }
  }

  /** What the assistant says for a stream read to its end. */
  function Reply(chunks: seq<string>, records: map<string, Record>): Message {
    var actions := Actions(CompleteLines(Concat(chunks)), records);
    Message(Assistant, Answer(actions), Some(SourcesAfter([], actions)))
  }

  /** The callbacks a stream triggers between the opening and the closing loading notice. */
  function StreamNotices(chunks: seq<string>, records: map<string, Record>): seq<Notice> {
    Notices(Actions(CompleteLines(Concat(chunks)), records))
  }

  /**
   * The assistant message that answers a response: the stream's reply when it was read to
   * its end, the fixed apology when the request failed, had no body or a read threw.
   */
  function ReplyTo(response: ChatResponse, records: map<string, Record>): (m: Message)
    ensures m.role == Assistant
    ensures m.content == ErrorReply && m.sources.None? <==> !(response.Body? && !response.broken)
  {
    if response.Body? && !response.broken then Reply(response.chunks, records)
    else Message(Assistant, ErrorReply, None)
  }

  /** The callbacks made while the body is read, including a body whose read later throws. */
  function ResponseNotices(response: ChatResponse, records: map<string, Record>): seq<Notice> {
    if response.Body? then StreamNotices(response.chunks, records) else []
  }

  // ================================================================ the component

  class ChatPanel {
    var messages: seq<Message>
    var input: string
    var isLoading: bool
    var streamingContent: string
    /** The calls made to the `onLoadingChange` and `onSourcesChange` props, oldest first. */
    var notices: seq<Notice>

    constructor()
      ensures messages == [] && input == "" && !isLoading && streamingContent == "" && notices == []
    {
      messages := [];
      input := "";
      isLoading := false;
      streamingContent := "";
      notices := [];
    }

    /**
     * `handleSubmit`. A blank input or a request in flight does nothing. Otherwise the
     * trimmed input becomes a user message and the input is cleared; then the reply to
     * the response follows it. Loading is cleared either way: the loading notice that
     * opens the request is matched by one that closes it, with the stream's callbacks
     * in between.
     */
    method HandleSubmit(response: ChatResponse, records: map<string, Record>)
      modifies this
      ensures old(Trim(input) == "" || isLoading) ==> unchanged(this)
      ensures !old(Trim(input) == "" || isLoading) ==>
        input == "" && !isLoading && streamingContent == "" &&
        messages == old(messages) + [Message(User, Trim(old(input)), None), ReplyTo(response, records)] &&
        notices == old(notices) + [LoadingChanged(true, Some("embedding"))] +
          ResponseNotices(response, records) + [LoadingChanged(false, None)]
    {
      if Trim(input) == "" || isLoading {
        return;
      }
      var userMessage := Message(User, Trim(input), None);
      var reply, heard := Respond(response, records);
      messages := messages + [userMessage, reply];
      input := "";
      streamingContent := "";
      isLoading := false;
      notices := notices + [LoadingChanged(true, Some("embedding"))] + heard + [LoadingChanged(false, None)];
    }
  }

  /**
   * The `try`/`catch` of `handleSubmit`: the assistant message that ends the request and
   * the callbacks made on the way. A response that is not ok or has no body gets the
   * apology at once; a body is read, and if a read throws the content gathered so far is
   * dropped for the apology.
   */
  method Respond(response: ChatResponse, records: map<string, Record>) returns (reply: Message, heard: seq<Notice>)
    ensures reply == ReplyTo(response, records)
    ensures heard == ResponseNotices(response, records)
  {
    match response
    case NotOk =>
      reply, heard := Message(Assistant, ErrorReply, None), [];
    case NoReader =>
      reply, heard := Message(Assistant, ErrorReply, None), [];
    case Body(chunks, broken) =>
      var fullContent, sources;
      fullContent, sources, heard := ReadStream(chunks, records);
      if broken {
        reply := Message(Assistant, ErrorReply, None);
      } else {
        reply := Message(Assistant, fullContent, Some(sources));
      }
  }

  /**
   * The read loop: appends each chunk to the buffer, handles the lines it completes and
   * keeps the rest, which at the end is the buffer's whole content. Returns the answer,
   * the sources and the callbacks it made.
   */
  method ReadStream(chunks: seq<string>, records: map<string, Record>)
    returns (fullContent: string, sources: seq<Source>, heard: seq<Notice>)
    ensures var actions := Actions(CompleteLines(Concat(chunks)), records);
      fullContent == Answer(actions) && sources == SourcesAfter([], actions) && heard == Notices(actions)
  {
    var buffer := "";
    fullContent, sources, heard := "", [], [];
    for k := 0 to |chunks|
      invariant buffer == Pending(Concat(chunks[..k]))
      invariant var actions := Actions(CompleteLines(Concat(chunks[..k])), records);
        fullContent == Answer(actions) && sources == SourcesAfter([], actions) && heard == Notices(actions)
    {
      ghost var seen := Concat(chunks[..k]);
      ghost var before := Actions(CompleteLines(seen), records);
      var lines := Split(buffer + chunks[k], '\n');
      buffer := Last(lines);
      ghost var added := Actions(AllButLast(lines), records);
      fullContent, sources, heard := HandleLines(fullContent, sources, heard, AllButLast(lines), records);
      ReadStep(seen, chunks[k]);
      ActionsAppend(CompleteLines(seen), AllButLast(lines), records);
      AnswerAppend(before, added);
      SourcesAfterAppend([], before, added);
      NoticesAppend(before, added);
      ConcatPrefix(chunks, k);
    }
    assert chunks[..|chunks|] == chunks;
  }

  /** The inner loop over the complete lines of one read. */
  method HandleLines(fullContent: string, sources: seq<Source>, heard: seq<Notice>,
                     lines: seq<string>, records: map<string, Record>)
    returns (fullContent': string, sources': seq<Source>, heard': seq<Notice>)
    ensures var actions := Actions(lines, records);
      fullContent' == fullContent + Answer(actions) &&
      sources' == SourcesAfter(sources, actions) &&
      heard' == heard + Notices(actions)
  {
    fullContent', sources', heard' := fullContent, sources, heard;
    ghost var done: seq<Action> := [];
    for i := 0 to |lines|
      invariant done == Actions(lines[..i], records)
      invariant fullContent' == fullContent + Answer(done)
      invariant sources' == SourcesAfter(sources, done)
      invariant heard' == heard + Notices(done)
    {
      var action := LineAction(lines[i], records);
      ActionsSnoc(lines, i, records);
      if action.Some? {
        ActionSnoc(sources, done, action.value);
        ConcatAssoc(fullContent, Answer(done), ActionText(action.value));
        ConcatAssoc(heard, Notices(done), ActionNotices(action.value));
        fullContent', sources', heard' := Perform(fullContent', sources', heard', action.value);
        done := done + [action.value];
      }
    }
    assert lines[..|lines|] == lines;
  }

  /** One dispatched record: report the step, take and pass on the sources, or add the content. */
  method Perform(fullContent: string, sources: seq<Source>, heard: seq<Notice>, action: Action)
    returns (fullContent': string, sources': seq<Source>, heard': seq<Notice>)
    ensures fullContent' == fullContent + ActionText(action)
    ensures sources' == if action.SourcesAction? then action.sources else sources
    ensures heard' == heard + ActionNotices(action)
  {
    fullContent', sources', heard' := fullContent, sources, heard;
    match action
    case StepAction(step) =>
      heard' := heard + [LoadingChanged(true, Some(step))];
    case SourcesAction(s) =>
      sources' := s;
      heard' := heard + [SourcesChanged(s)];
    case ContentAction(content) =>
      fullContent' := fullContent + content;
  }
}
