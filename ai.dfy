/**
 * The text side of retrieval and answering (frontend/lib/ai.ts): cleaning text before
 * it is embedded or sent as context, the result mapping of reranking, the rendering of
 * retrieved chunks as context, and the line-buffering loop that reads the answer stream
 * of the chat-completions endpoint. The inference services are oracles.
 */
module Ai {
  import opened Wrappers
  import opened Strings

  /** Embedding inputs are cut to this many characters. */
  const EmbeddingTextLimit: nat := 2000
  /** The context sent along with a streamed question is cut to this many characters. */
  const ContextLimit: nat := 4000

  // ============================================================== cleaning text

  /**
   * The common tail of both cleaners: white-space runs become one space, the ends are
   * trimmed, and the result is cut to `limit` characters. The regular-expression
   * rewrites that come first are an oracle (`stripCode` below).
   */
  function CollapseTrimClip(text: string, limit: nat): string {
    Take(Trim(CollapseWhitespace(text)), limit)
  }

  /** `sanitizeForEmbedding`, given what its code-pattern rewrites make of the text. */
  function SanitizeForEmbedding(rewritten: string): string {
    CollapseTrimClip(rewritten, EmbeddingTextLimit)
  }

  /** The context cleaner of `streamRAGResponse`, given what its rewrites make of the context. */
  function SanitizeContext(rewritten: string): string {
    CollapseTrimClip(rewritten, ContextLimit)
  }

  /**
   * Cleaned text is at most `limit` long, never holds two white-space characters in a
   * row, holds no white space but plain spaces, and does not start with white space.
   */
  lemma CollapseTrimClipBounds(text: string, limit: nat)
    ensures var r := CollapseTrimClip(text, limit);
      |r| <= limit && NoDoubleWhitespace(r) && PlainSpaces(r) && (r == [] || !IsWhitespace(r[0]))
  {
    var c := CollapseWhitespace(text);
    CollapseWhitespaceNoDouble(text);
    TrimIsSlice(c);
    var t := Trim(c);
    var a, b :| 0 <= a <= b <= |c| && t == c[a..b];
    NoDoubleWhitespaceSlice(c, a, b);
    PlainSpacesSlice(c, a, b);
    var r := Take(t, limit);
    NoDoubleWhitespaceSlice(t, 0, |r|);
    PlainSpacesSlice(t, 0, |r|);
  }

  lemma PlainSpacesSlice(s: string, a: nat, b: nat)
    requires PlainSpaces(s) && a <= b <= |s|
    ensures PlainSpaces(s[a..b])
  {
    forall i | 0 <= i < b - a && IsWhitespace(s[a..b][i])
      ensures s[a..b][i] == ' '
    {
      assert s[a..b][i] == s[a + i];
    }
  }

  /** Cleaning changes only white space before the cut: the other characters stay, in order. */
  lemma CollapseTrimClipKeepsText(text: string)
    ensures NonWhite(Trim(CollapseWhitespace(text))) == NonWhite(text)
  {
    var c := CollapseWhitespace(text);
    CollapseWhitespaceKeepsText(text);
    TrimStartDropsPrefix(c);
    TrimEndDropsSuffix(TrimStart(c));
    NonWhiteOfWhiteFront(c, |c| - |TrimStart(c)|);
    var t := TrimStart(c);
    NonWhiteOfWhiteBack(t, |TrimEnd(t)|);
  }

  /** Dropping a white-space prefix keeps the non-white text. */
  lemma {:induction false} NonWhiteOfWhiteFront(s: string, n: nat)
    requires n <= |s| && forall i :: 0 <= i < n ==> IsWhitespace(s[i])
    ensures NonWhite(s[n..]) == NonWhite(s)
    decreases |s|
  {
    if n < |s| {
      NonWhiteOfWhiteFront(AllButLast(s), n);
      assert AllButLast(s)[n..] == AllButLast(s[n..]);
      assert Last(s[n..]) == Last(s);
    } else {
      NonWhiteAllWhite(s);
    }
  }

  /** Dropping a white-space suffix keeps the non-white text. */
  lemma {:induction false} NonWhiteOfWhiteBack(s: string, n: nat)
    requires n <= |s| && forall i :: n <= i < |s| ==> IsWhitespace(s[i])
    ensures NonWhite(s[..n]) == NonWhite(s)
    decreases |s|
  {
    if n < |s| {
      assert AllButLast(s)[..n] == s[..n];
      NonWhiteOfWhiteBack(AllButLast(s), n);
    } else {
      assert s[..n] == s;
    }
  }

  lemma {:induction false} NonWhiteAllWhite(s: string)
    requires forall i :: 0 <= i < |s| ==> IsWhitespace(s[i])
    ensures NonWhite(s) == []
    decreases |s|
  {
    if s != [] {
      NonWhiteAllWhite(AllButLast(s));
    }
  }

  // ============================================================== embedding

  /**
   * What `embedTexts` sends: `texts.map(sanitizeForEmbedding)`, where `stripCode` stands
   * for the regular-expression rewrites that precede the white-space clean-up.
   */
  function EmbedInputs(texts: seq<string>, stripCode: string -> string): seq<string> {
    seq(|texts|, i requires 0 <= i < |texts| => SanitizeForEmbedding(stripCode(texts[i])))
  }

  /** One cleaned input per text, in the same order, each within the embedding bounds. */
  lemma EmbedInputsOnePerText(texts: seq<string>, stripCode: string -> string)
    ensures var r := EmbedInputs(texts, stripCode);
      |r| == |texts| &&
      forall i :: 0 <= i < |r| ==>
        r[i] == SanitizeForEmbedding(stripCode(texts[i])) &&
        |r[i]| <= EmbeddingTextLimit && NoDoubleWhitespace(r[i])
  {
    var r := EmbedInputs(texts, stripCode);
    forall i | 0 <= i < |r|
      ensures |r[i]| <= EmbeddingTextLimit && NoDoubleWhitespace(r[i])
    {
      CollapseTrimClipBounds(stripCode(texts[i]), EmbeddingTextLimit);
    }
  }

  // ============================================================== reranking

  /** One entry of the provider's ranking. */
  datatype Ranking = Ranking(index: int, relevanceScore: real)

  /** `RerankResult`; `document` is `None` where JavaScript would read `undefined`. */
  datatype RerankResult = RerankResult(index: int, relevanceScore: real, document: Option<string>)

  /** `documents[index]`, which is `undefined` outside the array. */
  function DocumentAt(documents: seq<string>, index: int): Option<string> {
    if 0 <= index < |documents| then Some(documents[index]) else None
  }

  /** The mapping at the end of `rerankDocuments`. */
  function RerankResults(documents: seq<string>, ranking: seq<Ranking>): seq<RerankResult> {
    seq(|ranking|, i requires 0 <= i < |ranking| =>
      RerankResult(ranking[i].index, ranking[i].relevanceScore, DocumentAt(documents, ranking[i].index)))
  }

  /**
   * The results follow the provider's ranking one for one, and each carries the input
   * document its index points at; only an index outside the input carries none.
   */
  lemma RerankResultsPickDocuments(documents: seq<string>, ranking: seq<Ranking>)
    ensures var r := RerankResults(documents, ranking);
      |r| == |ranking| &&
      forall i :: 0 <= i < |r| ==>
        r[i].index == ranking[i].index && r[i].relevanceScore == ranking[i].relevanceScore &&
        (r[i].document.Some? <==> 0 <= r[i].index < |documents|) &&
        (r[i].document.Some? ==> r[i].document.value == documents[r[i].index] && r[i].document.value in documents)
  {
  }

  // ============================================================== context rendering

  /** What `formatContext` receives for each retrieved chunk. */
  datatype ContextChunk = ContextChunk(content: string, title: Option<string>, score: Option<real>)

  const ContextSeparator: string := "\n\n---\n\n"
  const UnknownSource: string := "Unknown source"

  /** `chunk.title || "Unknown source"`: an absent or empty title falls back. */
  function SourceTitle(chunk: ContextChunk): string {
    if chunk.title.Some? && chunk.title.value != "" then chunk.title.value else UnknownSource
  }

  /**
   * The relevance suffix; it is left out when the score is absent or 0. `percent` stands
   * for `(score * 100).toFixed(1)`.
   */
  function ScoreSuffix(chunk: ContextChunk, percent: real -> string): string {
    if chunk.score.Some? && chunk.score.value != 0.0 then " (relevance: " + percent(chunk.score.value) + "%)" else ""
  }

  /** One chunk as the model sees it: `[title] (relevance: x%)` on one line, then its content. */
  function ContextEntry(chunk: ContextChunk, percent: real -> string): string {
    "[" + SourceTitle(chunk) + "]" + ScoreSuffix(chunk, percent) + "\n" + chunk.content
  }

  /** `formatContext(chunks)` */
  function FormatContext(chunks: seq<ContextChunk>, percent: real -> string): string {
    Join(seq(|chunks|, i requires 0 <= i < |chunks| => ContextEntry(chunks[i], percent)), ContextSeparator)
  }

  /**
   * No chunks give the empty context, one chunk gives its entry, and each further chunk
   * adds the separator and its own entry at the end: one entry per chunk, in input order.
   */
  lemma FormatContextOneEntryPerChunk(chunks: seq<ContextChunk>, percent: real -> string, c: ContextChunk)
    ensures FormatContext([], percent) == ""
    ensures FormatContext([c], percent) == ContextEntry(c, percent)
    ensures chunks != [] ==>
      FormatContext(chunks + [c], percent) == FormatContext(chunks, percent) + ContextSeparator + ContextEntry(c, percent)
  {
    var entries := seq(|chunks|, i requires 0 <= i < |chunks| => ContextEntry(chunks[i], percent));
    var more := chunks + [c];
    assert seq(|more|, i requires 0 <= i < |more| => ContextEntry(more[i], percent)) == entries + [ContextEntry(c, percent)];
    assert seq(1, i requires 0 <= i < 1 => ContextEntry([c][i], percent)) == [ContextEntry(c, percent)];
    if chunks != [] {
      JoinSnoc(entries, ContextSeparator, ContextEntry(c, percent));
    }
  }

  /** A chunk's entry opens with its bracketed title, which is "Unknown source" exactly when none is given. */
  lemma ContextEntryTitle(chunk: ContextChunk, percent: real -> string)
    ensures StartsWith(ContextEntry(chunk, percent), "[" + SourceTitle(chunk) + "]")
    ensures chunk.title.None? || chunk.title.value == "" ==> SourceTitle(chunk) == UnknownSource
    ensures chunk.title.Some? && chunk.title.value != "" ==> SourceTitle(chunk) == chunk.title.value
    ensures chunk.score.None? || chunk.score.value == 0.0 ==>
      ContextEntry(chunk, percent) == "[" + SourceTitle(chunk) + "]\n" + chunk.content
  {
    var head := "[" + SourceTitle(chunk) + "]";
    assert ContextEntry(chunk, percent)[..|head|] == head;
  }

  // ============================================================== the answer stream

  /** How the chat-completions call answered: an error status, no body, or the body's successive reads, decoded. */
  datatype ChatHttpResponse = HttpError(status: int) | NoBody | Stream(received: seq<string>)

  /**
   * The JSON payload a line carries: lines without a `data:` prefix, lines that mention
   * `[DONE]` and blank payloads carry none. `"data: "` is stripped with its space.
   */
  function LinePayload(line: string): (r: Option<string>)
    ensures !StartsWith(line, "data:") || Contains(line, "[DONE]") ==> r.None?
    ensures r.Some? ==> Trim(r.value) != []
    ensures r.Some? && StartsWith(line, "data: ") ==> r.value == Drop(line, 6)
    ensures r.Some? && !StartsWith(line, "data: ") ==> r.value == Drop(line, 5)
    ensures StartsWith(line, "data:") && !Contains(line, "[DONE]") ==>
      (r.None? <==> Trim(Drop(line, if StartsWith(line, "data: ") then 6 else 5)) == [])
  {
    if (StartsWith(line, "data:") || StartsWith(line, "data: ")) && !Contains(line, "[DONE]") then
      var jsonStr := if StartsWith(line, "data: ") then Drop(line, 6) else Drop(line, 5);
      if Trim(jsonStr) == [] then None else Some(jsonStr)
    else None
  }

  /**
   * What one complete line yields. `deltas` is `JSON.parse` followed by
   * `choices[0].delta.content`: it holds a payload exactly when the payload parses and has
   * that field; an empty content yields nothing.
   */
  function LineContent(line: string, deltas: map<string, string>): Option<string> {
    var payload := LinePayload(line);
    if payload.None? then None
    else match Get(deltas, payload.value)
      case Some(content) => if content != "" then Some(content) else None
      case None => None
  }

  /** Everything a list of complete lines yields, in order. */
  function Contents(lines: seq<string>, deltas: map<string, string>): (r: seq<string>)
    ensures |r| <= |lines|
  {
    if lines == [] then []
    else
      var last := LineContent(Last(lines), deltas);
      Contents(AllButLast(lines), deltas) + (if last.Some? then [last.value] else [])
  }

  /** The lines of `text` that a newline has closed; the text after the last newline is not among them. */
  function CompleteLines(text: string): seq<string> {
    AllButLast(Split(text, '\n'))
  }

  /** What is left in the buffer once `text` has been read: the text after its last newline. */
  function Pending(text: string): string {
    Last(Split(text, '\n'))
  }

  /** The lines yield in order: what two runs of lines yield is what each yields, one after the other. */
  lemma {:induction false} ContentsAppend(a: seq<string>, b: seq<string>, deltas: map<string, string>)
    ensures Contents(a + b, deltas) == Contents(a, deltas) + Contents(b, deltas)
    decreases |b|
  {
    if b == [] {
      assert a + b == a;
    } else {
      ConcatEnds(a, b);
      ContentsAppend(a, AllButLast(b), deltas);
      var tail := LineContent(Last(b), deltas);
      ConcatAssoc(Contents(a, deltas), Contents(AllButLast(b), deltas), if tail.Some? then [tail.value] else []);
    }
  }

  /**
   * Reading `r` after `seen`: the lines it closes are the lines of the buffer plus `r`,
   * and the buffer becomes what is left after them.
   */
  lemma ReadStep(seen: string, r: string)
    ensures CompleteLines(seen + r) == CompleteLines(seen) + CompleteLines(Pending(seen) + r)
    ensures Pending(seen + r) == Pending(Pending(seen) + r)
  {
    SplitAppend(seen, r, '\n');
    ConcatEnds(AllButLast(Split(seen, '\n')), Split(Pending(seen) + r, '\n'));
  }

  /** Neither the buffer nor a complete line ever holds a newline. */
  lemma LinesHaveNoNewline(text: string)
    ensures '\n' !in Pending(text)
    ensures forall k :: 0 <= k < |CompleteLines(text)| ==> '\n' !in CompleteLines(text)[k]
  {
    SplitPiecesAvoidSeparator(text, '\n');
  }

  /** A text that ends with a newline leaves nothing in the buffer: all of its lines are complete. */
  lemma NewlineClosesEveryLine(text: string)
    ensures CompleteLines(text + "\n") == Split(text, '\n')
    ensures Pending(text + "\n") == ""
  {
    SplitSnoc(text, '\n', '\n');
  }

  /**
   * The answer stream of `streamRAGResponse`: an error message for a failed call or a
   * missing body; otherwise the content of each complete line of the body, in order. A
   * last line that no newline closes is still in the buffer when the stream ends, and is
   * not read.
   */
  method StreamRAGResponse(response: ChatHttpResponse, deltas: map<string, string>) returns (out: seq<string>)
    ensures response.HttpError? ==>
      out == ["**Error:** API returned " + IntToString(response.status) + ". Please try again."]
    ensures response.NoBody? ==> out == ["**Error:** No response body"]
    ensures response.Stream? ==> out == Contents(CompleteLines(Concat(response.received)), deltas)
  {
    match response
    case HttpError(status) =>
      out := ["**Error:** API returned " + IntToString(status) + ". Please try again."];
    case NoBody =>
      out := ["**Error:** No response body"];
    case Stream(received) =>
      var buffer := "";
      out := [];
      for k := 0 to |received|
        invariant buffer == Pending(Concat(received[..k]))
        invariant out == Contents(CompleteLines(Concat(received[..k])), deltas)
      {
        ghost var seen := Concat(received[..k]);
        var lines := Split(buffer + received[k], '\n');
        buffer := Last(lines);
        out := YieldLines(out, AllButLast(lines), deltas);
        ReadStep(seen, received[k]);
        ContentsAppend(CompleteLines(seen), AllButLast(lines), deltas);
        ConcatPrefix(received, k);
      }
      assert received[..|received|] == received;
  }

  /** The inner loop over the complete lines of one read. */
  method YieldLines(out: seq<string>, lines: seq<string>, deltas: map<string, string>) returns (out': seq<string>)
    ensures out' == out + Contents(lines, deltas)
  {
    out' := out;
    for i := 0 to |lines|
      invariant out' == out + Contents(lines[..i], deltas)
    {
      var content := LineContent(lines[i], deltas);
      if content.Some? {
        out' := out' + [content.value];
      }
      assert AllButLast(lines[..i + 1]) == lines[..i];
    }
    assert lines[..|lines|] == lines;
  }
}
