# Heroku RAG chatbot: a verified model of its text and state logic

This project models, in Dafny, the deterministic core of a retrieval-augmented chatbot built with Next.js. The core covers the following pieces:

- **The indexing path.** A breadth-first crawler fetches a site's pages. A sliding-window chunker cuts each page into overlapping chunks, numbers them per page and hands them to the chunk table.
- **The chunk table.** Inserts go in batches of 100, and a URL-prefix delete escapes LIKE wildcards.
- **Answering.** The pieces are text cleaning before embedding, the rerank result mapping, the rendering of retrieved chunks as context, and the server-sent-event line buffer that reads the model's answer stream.
- **The client.** The indexing hook's polling state machine (back-off, error budget, progress transitions) and the chat panel's submit handler, which parses the event stream into an answer, its sources and loading notices.
- **Small helpers.** HTML escaping, font-size classes and code-block parsing in the markdown renderer. The avatar-gradient hash and URL helpers. The RFC 7807 problem-details errors. The health endpoint's status.

Each source file is one module:

| file | module | source |
|---|---|---|
| crawler.dfy | `Crawler` | frontend/lib/crawler.ts |
| pipeline_status.dfy | `PipelineStatus` | frontend/lib/pipeline-status-adapter.ts |
| ai.dfy | `Ai` | frontend/lib/ai.ts |
| db.dfy | `Db` | frontend/lib/db.ts |
| pipeline_indexing.dfy | `PipelineIndexing` | frontend/hooks/use-pipeline-indexing.ts |
| chat_container.dfy | `ChatContainer` | frontend/components/chat/chat-container.tsx |
| markdown_renderer.dfy | `MarkdownRenderer` | frontend/components/markdown-renderer.tsx |
| utils.dfy | `Utils` | frontend/lib/utils.ts |
| errors.dfy | `Errors` | frontend/lib/errors.ts |
| health.dfy | `Health` | frontend/app/api/v1/health/route.ts |
| strings.dfy | `Strings` | JavaScript string operations the others share: `trim`, `split`, `lastIndexOf`, `includes`, `slice` and decimal printing |
| wrappers.dfy | `Wrappers` | `Option` |

**Form.** The model follows the source's form:
- Loops in the source are Dafny methods with loop invariants. This covers the chunker, the crawl, link extraction, the junk heuristic, chunk preparation, the batch insert, the stream readers and the hash loop. Each method is proved equal to a recursive specification function, and the promised properties are proved about that function.
- State that React keeps in `useState` becomes the fields of a class: `IndexingHook` and `ChatPanel`. The chunk table is the class `ChunkTable`.
- Pure code stays functions.

**Outside services are oracles.** Fetching a page, reading it through the reader service, the URL parser, JSON parsing, the embedding and rerank providers, and the decoded bytes of a stream are all parameters. They are finite maps or plain values that say what the service returned.

**JavaScript semantics that matter here are written out:**
- `x / 2` comparisons are doubled, so odd chunk sizes keep their exact meaning.
- `%` keeps the dividend's sign.
- `<<` and `>>` act on 32-bit two's-complement values.
- The white space of `\s` and `trim` is ECMAScript's set.
- Truthiness is spelled out: an empty string is falsy, an empty array is not.

**Behaviour worth knowing:**
- A chunking window can be one character longer than `chunkSize`. This happens when a sentence break sits exactly at the window's end, because the cut is placed after the period.
- Chunks of exactly 50 characters are dropped. Only chunks longer than 50 are kept.
- The chunker needs `2 * overlap <= chunkSize` to make progress, not just `overlap < chunkSize`.
- The stage estimator's comment (frontend/lib/pipeline-status-adapter.ts:53) speaks of `pages * 10`. The code compares with `pages * 5` and `pages * 15`, and the model follows the code.

## Model

| member | source | states |
|---|---|---|
| Crawler.ChunkText | frontend/lib/crawler.ts:25-58 | The loop's chunks are exactly `Chunks(text, chunkSize, overlap)`, the windows chained by `start := end - overlap` with the short tail merged into the last one and then filtered. Every returned chunk is longer than 50 characters. Empty text gives no chunks. Requires `2 * overlap <= chunkSize` (see Findings). |
| Crawler.WindowEndBoundary | frontend/lib/crawler.ts:30-45 | A window ends at `start + chunkSize` when that reaches the text's end. Otherwise it ends at the last paragraph break past the window's midpoint. Failing that, it ends just after the last sentence break past the midpoint. Failing that, it ends at the full window. |
| Crawler.EndsAtParagraphBreak | frontend/lib/crawler.ts:33-37 | When `lastIndexOf("\n\n", end)` lies past the midpoint, a paragraph break exists there and the window ends at the last such break. |
| Crawler.EndsAfterSentenceBreak | frontend/lib/crawler.ts:38-43 | With no paragraph break past the midpoint but a sentence break past it, the window ends one character after the last such sentence break. |
| Crawler.EndsAtFullWindow | frontend/lib/crawler.ts:30-45 | With neither break past the midpoint, the window keeps its full length. |
| Crawler.ChunkStartAdvances | frontend/lib/crawler.ts:48 | When `2 * overlap <= chunkSize`, the next window starts strictly after the current one, and a window is at most `chunkSize + 1` long. This is why the loop terminates. |
| Crawler.PiecesChained | frontend/lib/crawler.ts:29-55 | The windows form a chain. The first starts at 0, each ends where `WindowEnd` puts it, and each next one starts at the previous end minus the overlap and strictly later. Only the last window absorbs the tail, which is shorter than half a chunk. |
| Crawler.KeepSubstantial | frontend/lib/crawler.ts:57 | Every kept chunk is longer than 50 characters. |
| Crawler.ChunkStartStalls | frontend/lib/crawler.ts:30-48 | As written, with `overlap == chunkSize` and no break past the midpoint, the next start equals the current start, so the loop never advances. |
| Crawler.ChunkStartStallsExample | frontend/lib/crawler.ts:25-55 | `chunkText("aaaa", 2, 2)` restarts at offset 0 forever. |
| Crawler.IsLikelyJunkContent | frontend/lib/crawler.ts:159-183 | True exactly when one of three conditions holds. (1) The HTML is over 100000 characters and the content is under 5% of it. (2) At least 4 of the 8 navigation words occur in the first 500 lower-cased characters. (3) The content contains `Loading...` and is under 500 characters. |
| Crawler.Dedupe | frontend/lib/crawler.ts:205 | The deduplicated list has the same members as its input and no repeats. |
| Crawler.FollowableLinksSound | frontend/lib/crawler.ts:189-203 | A link is kept exactly when some non-empty `href` resolves against the base to an http or https URL, and the kept link is that URL without its hash. |
| Crawler.ExtractLinks | frontend/lib/crawler.ts:185-206 | The loop returns the followable links deduplicated, each once. A string is among them exactly when some anchor yields it. |
| Crawler.PageOfKept | frontend/lib/crawler.ts:237-261 | A kept page has content longer than 50 characters and the fetch's final URL. Its title falls back to that URL. Reader content replaces the extracted text only when one of two triggers held (the text was under 200 characters, or it looked like junk) and the reader returned over 100 characters. A long, clean page is kept as extracted. |
| Crawler.VisitPage | frontend/lib/crawler.ts:233-261 | Visiting a fetched page yields exactly `PageOf` for the fetch and the reader's answer. |
| Crawler.EnqueueLinks | frontend/lib/crawler.ts:264-272 | Succeeds exactly when every unvisited link's host parses. On success the queue becomes the old queue followed by `Enqueued(links, ...)`. |
| Crawler.EnqueuedMembers | frontend/lib/crawler.ts:264-272 | Every appended link is one of the page's links, not visited up to the fragment, with a parsable host, on the start host when same-domain crawling is on. Every such link is appended. |
| Crawler.CrawlStep | frontend/lib/crawler.ts:219-273 | One turn of the loop is exactly `CrawlTurn`. A visited URL is dropped from the front of the queue. Otherwise the URL is marked visited and reported. If it fetches, its `PageOf` page is kept when there is one, and its enqueueable links are appended to the rest of the queue. The turn fails when one of the page's unvisited links does not parse. A turn that does not fail keeps the crawl invariant (see `CrawlFinished`). |
| Crawler.TurnShrinks | frontend/lib/crawler.ts:219-273 | A turn either fetches a URL not fetched before (up to the fragment) or shortens the queue without adding anything left to fetch. This is why the loop terminates. |
| Crawler.CrawlFromKeepsPages | frontend/lib/crawler.ts:219-262 | The loop keeps exactly the pages its reports yield, in report order. |
| Crawler.CrawlFromStops | frontend/lib/crawler.ts:219 | The loop ends without an error only when the queue is empty or `maxPages` pages are kept. |
| Crawler.CrawlFromThrows | frontend/lib/crawler.ts:264-268 | The loop fails only when the last reported URL fetched and one of its page's links has a host that does not parse. |
| Crawler.TurnReachesLinks | frontend/lib/crawler.ts:219-273 | A turn that does not fail keeps two facts. Every link of every fetched page that passes the domain test is visited or still queued. Every visited URL was reported. |
| Crawler.CrawlFromReachesLinks | frontend/lib/crawler.ts:219-273 | The same two facts hold when the loop ends without an error. |
| Crawler.CrawlPagesInReportOrder | frontend/lib/crawler.ts:208-281 | The returned pages are `KeptPages` of the reports. For each reported URL in order (breadth-first), that is `PageOf(web.pages[url], reader answer for url)` when the URL fetched and the page was kept. |
| Crawler.CrawlThrowsOnlyOnBadUrl | frontend/lib/crawler.ts:208-281 | The crawl throws only when the start URL does not parse, or when a link on the page fetched last has a host that does not parse. |
| Crawler.CrawlReachesAllLinks | frontend/lib/crawler.ts:208-281 | A crawl that returns fewer than `maxPages` pages has run out of links. Every link of every fetched page that passes the domain test was itself reported, up to the fragment. |
| Crawler.CrawlFinished | frontend/lib/crawler.ts:219-273 | At most `maxPages` pages are collected, each with content longer than 50 characters. No two progress reports name the same hash-stripped URL, so no URL is fetched twice. With same-domain crawling, every fetched URL is on the start host. The first report is the start URL. |
| Crawler.CrawlUrl | frontend/lib/crawler.ts:208-281 | The loop's result and reports are exactly `Crawl(startUrl, options, web)`, which the three lemmas above characterise. An unparsable start URL throws before any report. Otherwise the crawl returns at most `maxPages` pages, each longer than 50 characters. The fetch reports satisfy `CrawlReports`, and the final report is `{crawled: n, total: n}`. A link that fails to parse aborts the crawl, as the thrown error does. |
| Crawler.IndexableAppend | frontend/lib/crawler.ts:302-314 | Preparing two page lists one after the other gives the two results concatenated, so pages are prepared independently and in order. |
| Crawler.IndexablePerPage | frontend/lib/crawler.ts:302-314 | Page k contributes exactly its own chunks, between the chunks of the pages before and after it. Its i-th chunk has `chunkIndex == i`, `totalChunks` equal to the page's chunk count, the page's URL and title, and content longer than 50 characters. |
| Crawler.PrepareForIndexing | frontend/lib/crawler.ts:297-317 | The nested loops produce exactly `Indexable(pages, chunkSize, overlap)`. An absent or zero option falls back to 1000 and 200. |
| Crawler.PushPageChunks | frontend/lib/crawler.ts:305-313 | The inner loop appends the page's numbered chunks in order. |
| PipelineStatus.GetStageStatus | frontend/lib/pipeline-status-adapter.ts:127-132 | Each condition holds exactly when its index range does: success before the current index, running at it, queued just after it, idle beyond. |
| PipelineStatus.RunningStageIndex | frontend/lib/pipeline-status-adapter.ts:98-113 | The running stage lies in 1..5. It is at most 2 exactly when no chunk exists yet. |
| PipelineStatus.RunningStageBands | frontend/lib/pipeline-status-adapter.ts:98-113 | Stage 1 means no pages and no chunks. Stage 2 means pages but no chunks. Stage 3 means chunks below 5 per page. Stage 4 means chunks from 5 to below 15 per page. Stage 5 covers the rest, including chunks without pages. |
| PipelineStatus.RunningStageMonotone | frontend/lib/pipeline-status-adapter.ts:104-113 | For fixed pages, more chunks never move the estimate to an earlier stage. |
| PipelineStatus.FailedStageIndex | frontend/lib/pipeline-status-adapter.ts:162-165 | The failed stage is 1 with no pages, 2 with pages but no chunks, and 4 with both. |
| PipelineStatus.EstimateRunningState | frontend/lib/pipeline-status-adapter.ts:94-125 | The state is a seven-stage running state. Stage i has order i and the i-th definition. The current stage lies in 1..5 and the metrics echo the counts. |
| PipelineStatus.RunningStagesOneActive | frontend/lib/pipeline-status-adapter.ts:115-120 | Exactly one stage is running and exactly one is queued, the next one. All earlier stages are success and all later ones idle. |
| PipelineStatus.CreateIdleState | frontend/lib/pipeline-status-adapter.ts:134-145 | The idle state has current index -1 and metrics 0/0. Stage 0 is queued and every other stage idle. |
| PipelineStatus.CreateCompleteState | frontend/lib/pipeline-status-adapter.ts:147-158 | The complete state has every stage success and current index 6. Its metrics echo the counts. |
| PipelineStatus.CreateErrorState | frontend/lib/pipeline-status-adapter.ts:160-177 | The error state has the failed stage as current index. Earlier stages are success, the failed one failed and later ones idle. |
| PipelineStatus.EstimatePipelineStages | frontend/lib/pipeline-status-adapter.ts:57-92 | Every result has seven ordered stages and a current index in -1..6. |
| PipelineStatus.EstimateByStatus | frontend/lib/pipeline-status-adapter.ts:62-91 | No progress gives the early running estimate while indexing, else the idle state. Error gives an error state and complete a complete state. not_found gives a running state only while actively indexing, else idle. Indexing gives a running state. Missing counters read as 0. |
| PipelineStatus.RunningOnlyWhileRunning | frontend/lib/pipeline-status-adapter.ts:57-125 | A stage shows running exactly when the whole run is running and that stage is the current one. |
| Ai.CollapseTrimClipBounds | frontend/lib/ai.ts:60-64 | Cleaned text is at most 2000 (embedding) or 4000 (context) characters. It never holds two white-space characters in a row, holds only plain spaces as white space, and does not start with white space. |
| Ai.CollapseTrimClipKeepsText | frontend/lib/ai.ts:60-62 | Collapsing and trimming white space keeps every other character, in order. |
| Ai.EmbedInputsOnePerText | frontend/lib/ai.ts:73-79 | `embedTexts` sends exactly one cleaned input per text, in the same order, each within the bounds above. |
| Ai.RerankResultsPickDocuments | frontend/lib/ai.ts:119-123 | One result per ranking entry, in the provider's order. Each keeps its index and score and carries `documents[index]`. It carries no document exactly when the index is outside the list. |
| Ai.FormatContextOneEntryPerChunk | frontend/lib/ai.ts:292-304 | Empty input gives "". One chunk gives its entry. Each further chunk appends `"\n\n---\n\n"` and its entry, so entries appear one per chunk, in order. |
| Ai.ContextEntryTitle | frontend/lib/ai.ts:296-301 | An entry starts with its bracketed title. The title is "Unknown source" when it is absent or empty. An absent or zero score adds no relevance suffix. |
| Ai.LinePayload | frontend/lib/ai.ts:231-235 | Lines without a `data:` prefix and lines mentioning `[DONE]` carry no payload. A line carries none when its payload is blank. Otherwise `"data: "` strips six characters and `"data:"` five. |
| Ai.ContentsAppend | frontend/lib/ai.ts:230-245 | Lines are processed independently and in order: what two runs of lines yield is what each yields, concatenated. |
| Ai.ReadStep | frontend/lib/ai.ts:226-228 | Appending a read to the buffer and splitting closes exactly the lines the whole text so far closes, and leaves the same pending tail, so each complete line is processed once. |
| Ai.LinesHaveNoNewline | frontend/lib/ai.ts:227-228 | The pending buffer and every complete line are free of newlines. |
| Ai.NewlineClosesEveryLine | frontend/lib/ai.ts:227-228 | A text ending in a newline leaves nothing pending, and its complete lines are all its lines. |
| Ai.StreamRAGResponse | frontend/lib/ai.ts:206-246 | A non-OK response yields exactly one error chunk naming the status. A missing body yields exactly "**Error:** No response body". A stream yields the content of each complete line of the decoded body, in order. |
| Ai.YieldLines | frontend/lib/ai.ts:230-245 | The inner loop appends the content of each line, in order. |
| Db.UnescapeEscapeLike | frontend/lib/db.ts:151 | Escaping puts a backslash before `%`, `_` and `\`, and reading the pattern back recovers the URL. |
| Db.EscapeLikePlain | frontend/lib/db.ts:151 | A URL without special characters is its own escape. |
| Db.EscapedPrefixMatches | frontend/lib/db.ts:151-154 | A string matches the LIKE pattern `escape(url) + "%"` exactly when it starts with the URL. |
| Db.SurvivingByPrefix | frontend/lib/db.ts:152-155 | After the delete, the surviving rows are exactly those of another pipeline or not under the URL. |
| Db.ChunkTable.InsertChunksBatch | frontend/lib/db.ts:93-113 | The table gains one row per chunk, in order. The batches concatenate to the input. Each batch has 1 to 100 chunks and all but the last exactly 100. An empty input sends no batch. |
| Db.ChunkTable.DeleteByUrl | frontend/lib/db.ts:149-157 | The delete removes exactly the pipeline's rows whose URL starts with the given one and keeps the others in order. It returns the number removed. |
| Db.ChunkTable.SearchChunks | frontend/lib/db.ts:115-130 | At most `limit` rows, each a row of the table belonging to the pipeline. |
| Db.ChunkTable.TotalChunks | frontend/lib/db.ts:142-147 | The count is the number of positions in the table holding a row of the pipeline, as `COUNT(*)` counts them. It never exceeds the table's size. |
| Db.OfPipelineCount | frontend/lib/db.ts:142-147 | Filtering by pipeline keeps one row for each position holding a row of the pipeline. |
| Db.OfPipelineMembers | frontend/lib/db.ts:126 | The `WHERE pipeline_id = ...` filter keeps exactly the pipeline's rows. |
| PipelineIndexing.PollIntervalBackoff | frontend/hooks/use-pipeline-indexing.ts:118-121 | The base interval is the indexing interval while indexing and the idle interval otherwise. Without back-off the interval is the base. With back-off it never exceeds the maximum, starts at `min(base, max)`, and each error doubles it up to the maximum. |
| PipelineIndexing.PollIntervalMonotone | frontend/hooks/use-pipeline-indexing.ts:119-121 | More errors never shorten the interval. |
| PipelineIndexing.StatusPollingStops | frontend/hooks/use-pipeline-indexing.ts:112-113 | With back-off on, status polling is off once the error count reaches `maxErrors`, and a further error keeps it off. |
| PipelineIndexing.IndexingHook.constructor | frontend/hooks/use-pipeline-indexing.ts:61-86 | Options are merged over the defaults 5000/2000/60000 ms, 5 errors, 5 not-found retries and 2000/3000 ms. All state starts empty: no URLs, zero chunks, no run, progress or error, zero poll errors and not-found count, no scheduled clear and no refresh requested. |
| PipelineIndexing.IndexingHook.FetchStatus | frontend/hooks/use-pipeline-indexing.ts:88-104 | Without a pipeline nothing happens. A success stores the URLs and count, each with its fallback, and resets the error count. A failure adds one to the error count. Both effects on the count apply only with back-off on. No other state changes. |
| PipelineIndexing.IndexingHook.PollProgress | frontend/hooks/use-pipeline-indexing.ts:137-175 | Outside an indexing run, or when the request throws, nothing changes. Complete ends the run, schedules the clear after `progressClearDelayMs` and requests a status refresh. Error ends the run with the reported message or "Indexing failed", cleared after `errorClearDelayMs`. not_found counts up and ends the run once the count reaches `maxNotFoundRetries`. Indexing resets the count. Complete and error leave the count alone. not_found and indexing leave the scheduled clear alone. The status and back-off fields never change. |
| PipelineIndexing.IndexingHook.StartIndexing | frontend/hooks/use-pipeline-indexing.ts:192-231 | Without a pipeline nothing happens and null is returned. A thrown call sets "Failed to index URL" and ends the run. An error result sets its message or "Indexing failed" and ends the run. Success clears the error. It refreshes the status unless told not to, and ends the run only when `clearIndexingOnResponse` is set. The awaited refresh sets the URLs and the chunk count, and under back-off resets the poll error count on success or adds one on failure. Without it the error count is unchanged. The scheduled clear and the refresh-request count never change. |
| PipelineIndexing.IndexingHook.DeleteUrl | frontend/hooks/use-pipeline-indexing.ts:233-246 | A successful delete asks for a status refresh unless `refreshStatus` is false. Nothing else changes. |
| PipelineIndexing.IndexingHook.StopIndexing | frontend/hooks/use-pipeline-indexing.ts:148-149 | Clears `isIndexing` and `indexingUrl` together, leaving the rest. |
| PipelineIndexing.IndexingHook.RequestStatusRefresh | frontend/hooks/use-pipeline-indexing.ts:150-152 | Asks for a status refresh only when status polling is enabled. |
| ChatContainer.Dispatch | frontend/components/chat/chat-container.tsx:120-128 | Each record goes to exactly one branch, by precedence: a non-empty step first, then sources (even an empty list), then content (even ""). The action carries that field's value. |
| ChatContainer.OtherLinesIgnored | frontend/components/chat/chat-container.tsx:113-116 | `event: ` lines and lines without `data: ` produce no action. |
| ChatContainer.UnparsableIgnored | frontend/components/chat/chat-container.tsx:117-131 | A data line whose JSON does not parse is skipped. |
| ChatContainer.ActionsAppend | frontend/components/chat/chat-container.tsx:112-133 | Lines are handled independently and in order. |
| ChatContainer.AnswerAppend | frontend/components/chat/chat-container.tsx:125-127 | The answer is the in-order concatenation of the content fields. |
| ChatContainer.SourcesAfterAppend | frontend/components/chat/chat-container.tsx:122-124 | Later sources records override earlier ones. |
| ChatContainer.SourcesAfterFrom | frontend/components/chat/chat-container.tsx:122-124 | The final sources are the initial ones or the list carried by some sources record. |
| ChatContainer.AnswerWithoutContent | frontend/components/chat/chat-container.tsx:125-127 | A stream without content records gives an empty answer. |
| ChatContainer.ReplyTo | frontend/components/chat/chat-container.tsx:136-154 | The reply is an assistant message. It is the fixed apology without sources exactly when the response failed, had no body, or broke while reading. |
| ChatContainer.ChatPanel.constructor | frontend/components/chat/chat-container.tsx:40-43 | The panel starts with no messages, empty input and nothing loading. |
| ChatContainer.ChatPanel.HandleSubmit | frontend/components/chat/chat-container.tsx:65-159 | With blank input or a request in flight, nothing changes. Otherwise two messages are appended: the trimmed user message and the reply. The input is cleared. The notices are loading("embedding"), then what the stream reported, then not-loading, so loading always ends. |
| ChatContainer.ReadStream | frontend/components/chat/chat-container.tsx:102-134 | The read loop's answer, sources and notices are those of the complete lines of the decoded body, in order. |
| ChatContainer.HandleLines | frontend/components/chat/chat-container.tsx:112-133 | The line loop extends the answer, sources and notices by exactly what the lines' actions give. |
| ChatContainer.Perform | frontend/components/chat/chat-container.tsx:120-128 | One action updates the answer, the sources or the notices. |
| ChatContainer.Respond | frontend/components/chat/chat-container.tsx:84-154 | The reply and notices of the request are `ReplyTo` and `ResponseNotices`. |
| MarkdownRenderer.EscapeHtmlIsEscapeEach | frontend/components/markdown-renderer.tsx:253-260 | The chain of five global replacements, `&` first, equals escaping each character on its own. |
| MarkdownRenderer.EscapeHtmlChar | frontend/components/markdown-renderer.tsx:255-259 | A single character escapes to its own entity, or to itself when it is not special. |
| MarkdownRenderer.EscapeHtmlSafe | frontend/components/markdown-renderer.tsx:253-260 | The output has no `<`, `>`, `"` or `'` and is never shorter than the input. |
| MarkdownRenderer.EscapeHtmlEntities | frontend/components/markdown-renderer.tsx:255-259 | Every `&` in the output begins one of the five entities. |
| MarkdownRenderer.EscapeHtmlPlain | frontend/components/markdown-renderer.tsx:253-260 | Text without special characters is unchanged. |
| MarkdownRenderer.ReplaceCharAppend | frontend/components/markdown-renderer.tsx:255-259 | A global replace acts on each part of a concatenation separately. |
| MarkdownRenderer.LineCount | frontend/components/markdown-renderer.tsx:182 | The line count is the number of newlines plus one. |
| MarkdownRenderer.CountZero | frontend/components/markdown-renderer.tsx:266 | A text is a single line exactly when it contains no newline. |
| MarkdownRenderer.MessageFontSizeClass | frontend/components/markdown-renderer.tsx:265-279 | The large class applies exactly to single-line text of at most 20 characters. The base class applies exactly to single-line text of 21 to 120. Everything else gets "". |
| MarkdownRenderer.CodeRenderer | frontend/components/markdown-renderer.tsx:160-168 | Code is a block exactly when the class starts with `language-`, and the language is the rest of the class. Children ending in a newline lose exactly that newline, and other children are kept as they are. |
| MarkdownRenderer.StripFinalNewline | frontend/components/markdown-renderer.tsx:162 | The result is the input or the input minus a final newline, and a final newline is always removed. |
| MarkdownRenderer.StripFinalNewlineOnce | frontend/components/markdown-renderer.tsx:162 | Only one newline is removed: of two trailing newlines, one stays. |
| Utils.ToInt32 | frontend/lib/utils.ts:45 | The 32-bit value is in int32 range, congruent to the input modulo 2^32, and equal to it when already in range. |
| Utils.ShiftLeft5 | frontend/lib/utils.ts:45 | `x << 5` is an int32 congruent to `32 * x` modulo 2^32. |
| Utils.Rem | frontend/lib/utils.ts:47-48 | JavaScript `%` has the magnitude of the Euclidean remainder and takes the sign of the dividend: never negative for a non-negative dividend, never positive for a negative one. |
| Utils.HashBound | frontend/lib/utils.ts:43-46 | Each character moves the hash by less than 2^31 + 2^16. |
| Utils.HashExact | frontend/lib/utils.ts:43-46 | For fewer than 2^21 code units the hash stays below 2^53, so the double arithmetic is exact. |
| Utils.HashIsPolynomial | frontend/lib/utils.ts:43-46 | The loop computes the polynomial hash `31 * h + code` modulo 2^32. |
| Utils.HashOfOne | frontend/lib/utils.ts:43-46 | A single character hashes to its code. |
| Utils.HuesOf | frontend/lib/utils.ts:47-48 | hue1 is `|hash| mod 360`. hue2 is `(hue1 + 40 + k) mod 360` with `k < 60` taken from the hash shifted right by 8. Both lie in [0, 360). |
| Utils.HueShift | frontend/lib/utils.ts:48 | The shift is below 60 and comes from the int32 hash's bits 8 and up. |
| Utils.StringToGradient | frontend/lib/utils.ts:42-50 | The loop's gradient is `GradientCss(HuesOf(Hash(units)))`. It is a function of the code units, so equal strings give equal gradients. |
| Utils.GetDomain | frontend/lib/utils.ts:11-17 | The hostname of a URL that parses; otherwise the input unchanged. |
| Utils.IsValidHttpUrl | frontend/lib/utils.ts:22-29 | True exactly when the string parses with protocol `http:` or `https:`. |
| Errors.NewApiError | frontend/lib/errors.ts:15-24 | The error keeps the status, title, detail and type it was given, with no validation errors. |
| Errors.Message | frontend/lib/errors.ts:22 | The message is the detail when given and non-empty, else the title. |
| Errors.ToProblemDetails | frontend/lib/errors.ts:26-34 | The type is the given one, or the base URL followed by the status. Title, status, detail and instance are copied. |
| Errors.DefaultTypeNamesStatus | frontend/lib/errors.ts:28 | The default type is `https://heroku-rag.dev/errors/` followed by the status in decimal digits, and it parses back to the status. |
| Errors.DefaultTypeInjective | frontend/lib/errors.ts:28 | Different statuses get different default types. |
| Errors.ToResponse | frontend/lib/errors.ts:36-43 | The response carries the status, the `application/problem+json` content type and the problem details. |
| Errors.NotFoundError | frontend/lib/errors.ts:47-54 | 404, "<resource> Not Found", the not-found type. The detail names the quoted ID only when an ID is given. |
| Errors.NotFoundProblem | frontend/lib/errors.ts:47-54 | Its problem details carry the not-found type, status 404 and the message as detail. |
| Errors.NotFoundNamesId | frontend/lib/errors.ts:49-51 | A given ID appears, quoted, in the message. |
| Errors.ValidationError | frontend/lib/errors.ts:56-65 | 400, "Validation Error", the validation-error type and the given detail. The field errors are set exactly when provided. |
| Errors.ValidationProblem | frontend/lib/errors.ts:56-65 | Its problem details are fully determined by the detail and instance. |
| Health.OverallStatus | frontend/app/api/v1/health/route.ts:20-23 | Healthy exactly when all services are up. Unhealthy exactly when all are down. Degraded exactly when some are up and some down. |
| Health.Get | frontend/app/api/v1/health/route.ts:5-30 | The database is up exactly when the ping succeeded, and embedding and chat are up. The version is "1.0.0" and the status is derived from the services. |
| Health.NeverUnhealthy | frontend/app/api/v1/health/route.ts:6-23 | The endpoint never reports unhealthy. It is healthy exactly when the ping succeeds, and degraded otherwise. |

## Left out

**Network and HTML**
- Network I/O is not modelled: page fetching, the reader service with its markdown clean-up, the embedding, rerank and chat-completion HTTP calls, and the provider set-up. Their results are parameters. The crawl oracles are finite maps, so a crawl is bounded by the pages the map holds.
- cheerio's DOM extraction and the `<title>` lookup are not modelled. The extracted text, title, links and HTML length are part of the fetched page the oracle returns.
- The regular-expression rewrites in `sanitizeForEmbedding` and the context cleaner are an opaque `stripCode` function or a pre-rewritten input. Only the white-space collapse, trim and length cut are modelled.

**Floating point and number formatting**
- The relevance percentage in `formatContext` (`(score * 100).toFixed(1)`) is a formatting function passed in.
- pgvector's cosine distance is not modelled. `SearchChunks` receives the table in nearest-first order.
- The 5% ratio in `isLikelyJunkContent` is the exact comparison `20 * |content| < htmlLength`.

**Strings and text encoding**
- `toLowerCase` is modelled for ASCII letters only.
- Characters are Dafny `char`s. UTF-16 surrogate pairs, `TextDecoder` and its handling of split multi-byte sequences are not modelled: the streams are already decoded strings. The hash reads UTF-16 code units.

**SQL**
- SQL beyond the in-memory chunk table is not modelled: pipeline create, read, update and delete, settings merging, `getIndexedUrls`, UUID casts and the database's own errors.
- A LIKE pattern ending in a lone backslash, which PostgreSQL rejects, matches nothing here. Escaped patterns never end that way.

**Hook and React**
- Timers and effects are not modelled. `setInterval` and `setTimeout` are absent: a scheduled progress clear is recorded as its delay (`progressClearDelay`), and a status refresh outside the poll as a count (`statusRefreshes`). React's batching of state updates, effect re-runs and stale closures are not modelled.
- PipelineIndexing.IndexingHook.PollProgress: the not-found counter is a field reset when a run starts. In the source it is a local of the effect, which restarts when the effect's dependencies change.
- PipelineIndexing.IndexingHook.DeleteUrl: the server-side deletion is not part of the hook's state. Only the refresh request is modelled.
- The `onStatusChange`, `onSourcesChange` and `onLoadingChange` callbacks are recorded as notices, or left out where the caller only observes them.

**Chat panel**
- ChatContainer.ChatPanel.HandleSubmit: the intermediate `setStreamingContent` updates while streaming are not modelled, only the final cleared value. Message ids taken from `Date.now()` are left out.
- ChatContainer.ReplyTo: a stream that breaks mid-read is modelled as a whole-response failure. The source's behaviour is the same, since its catch discards the partial answer.
- JSON parsing of `data:` lines is a finite map from payload to parsed record. A record field of another JSON type than the source expects is not modelled.

**Pure UI and small helpers**
- The renderer's React elements, syntax highlighting, DOMPurify and the copy button are not modelled.
- `cn` and `getOrigin` in frontend/lib/utils.ts are left out: they are class-name merging and a read of the window location.
- `jsonResponse` and the other response helpers in frontend/lib/errors.ts are left out.
- Errors.ToProblemDetails: the extra members an RFC 7807 problem object may carry are not modelled, and `ValidationError`'s `errors` map is not serialised into the body.

**Weakened contracts**
- Crawler.PrepareForIndexing: requires `2 * overlap <= chunkSize` for the effective options. The source has no such guard and loops forever on some inputs beyond it (see Findings).
- Crawler.ChunkText: requires `chunkSize >= 1 && 2 * overlap <= chunkSize` for the same reason.
- Crawler.CrawlUrl: an `onProgress` callback that throws is not modelled. The reports are returned as a list.
- Db.ChunkTable.SearchChunks: states membership and the limit, not the order. The order is the pgvector oracle's.

## Findings

| source | as written | input that shows it | evidently intended | confidence | as-written member | corrected member |
|---|---|---|---|---|---|---|
| frontend/lib/crawler.ts:25-55 | `chunkText` never advances when the overlap is at least the chunk size and no break lies past the window's midpoint. With a break and `2 * overlap > chunkSize`, progress is not guaranteed either. `prepareForIndexing` passes user-configurable sizes through unchecked. | `chunkText("aaaa", 2, 2)`: the next start is 0 again, so the loop never ends. The same happens with `chunkSize: 200` and the default overlap of 200 on text without breaks. | The loop terminates for every input. It does when `2 * overlap <= chunkSize`, as with the defaults 1000 and 200. | high, not executed | Crawler.ChunkStartStalls, Crawler.ChunkStartStallsExample | Crawler.ChunkText, with Crawler.ChunkStartAdvances and Crawler.PiecesChained |
