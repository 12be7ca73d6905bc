/**
 * The crawl-to-chunk side of indexing (frontend/lib/crawler.ts): the sliding-window
 * chunker, the junk-content heuristic, link extraction, the breadth-first crawl and
 * the numbering of chunks for indexing. Fetching, HTML parsing and the remote reader
 * are oracles: finite maps from a URL (or a link and its base) to what fetching,
 * reading or parsing it would return.
 */
module Crawler {
  import opened Wrappers
  import opened Strings

  const ChunkSizeDefault: nat := 1000
  const ChunkOverlapDefault: nat := 200
  /** Chunks of this many characters or fewer are dropped. */
  const MinChunkLength: nat := 50
  /** What the chunker prefers to break at: a blank line, else the end of a sentence. */
  const ParagraphBreak: string := "\n\n"
  const SentenceBreak: string := ". "

  // =================================================================== chunking

  /** Something the chunker may break the text at, occurring at `i` and past the window's midpoint. */
  predicate BreakPastMidpoint(text: string, pattern: string, start: int, chunkSize: nat, i: int) {
    OccursAt(text, pattern, i) && 2 * i > 2 * start + chunkSize && i <= start + chunkSize
  }

  /** Where the window that begins at `start` ends (lines 30-45 of the loop). */
  function WindowEnd(text: string, start: nat, chunkSize: nat): (r: int)
    ensures r == start + chunkSize || (2 * r > 2 * start + chunkSize && r <= start + chunkSize + 1)
  {
    var end := start + chunkSize;
    if end < |text| then
      var paragraphBreak := LastIndexOf(text, ParagraphBreak, end);
      if 2 * paragraphBreak > 2 * start + chunkSize then paragraphBreak
      else
        var sentenceBreak := LastIndexOf(text, SentenceBreak, end);
        if 2 * sentenceBreak > 2 * start + chunkSize then sentenceBreak + 1
        else end
    else end
  }

  /** Some break of the kind `pattern` lies past the window's midpoint. */
  ghost predicate HasBreakPastMidpoint(text: string, pattern: string, start: int, chunkSize: nat) {
    exists i :: BreakPastMidpoint(text, pattern, start, chunkSize, i)
  }

  /** `i` is the last break of the kind `pattern` past the window's midpoint. */
  ghost predicate IsLastBreakPastMidpoint(text: string, pattern: string, start: int, chunkSize: nat, i: int) {
    BreakPastMidpoint(text, pattern, start, chunkSize, i) &&
    forall j :: i < j ==> !BreakPastMidpoint(text, pattern, start, chunkSize, j)
  }

  /**
   * A window ends at `start + chunkSize` unless more text follows and a paragraph
   * break (a blank line), or failing that a sentence break (a period and a space),
   * lies past the window's midpoint; then it ends at the last such paragraph break,
   * or just after the period of the last such sentence break.
   */
  lemma WindowEndBoundary(text: string, start: nat, chunkSize: nat)
    ensures var end := WindowEnd(text, start, chunkSize);
      && (start + chunkSize >= |text| ==> end == start + chunkSize)
      && (start + chunkSize < |text| && HasBreakPastMidpoint(text, ParagraphBreak, start, chunkSize) ==>
            IsLastBreakPastMidpoint(text, ParagraphBreak, start, chunkSize, end))
      && (start + chunkSize < |text| && !HasBreakPastMidpoint(text, ParagraphBreak, start, chunkSize)
            && HasBreakPastMidpoint(text, SentenceBreak, start, chunkSize) ==>
            IsLastBreakPastMidpoint(text, SentenceBreak, start, chunkSize, end - 1))
      && (start + chunkSize < |text| && !HasBreakPastMidpoint(text, ParagraphBreak, start, chunkSize)
            && !HasBreakPastMidpoint(text, SentenceBreak, start, chunkSize) ==>
            end == start + chunkSize)
  {
    var mid := start + chunkSize;
    if mid < |text| {
      if 2 * LastIndexOf(text, ParagraphBreak, mid) > 2 * start + chunkSize {
        EndsAtParagraphBreak(text, start, chunkSize);
      } else if 2 * LastIndexOf(text, SentenceBreak, mid) > 2 * start + chunkSize {
        EndsAfterSentenceBreak(text, start, chunkSize);
      } else {
        EndsAtFullWindow(text, start, chunkSize);
      }
    }
  }

  lemma EndsAtParagraphBreak(text: string, start: nat, chunkSize: nat)
    requires start + chunkSize < |text|
    requires 2 * LastIndexOf(text, ParagraphBreak, start + chunkSize) > 2 * start + chunkSize
    ensures HasBreakPastMidpoint(text, ParagraphBreak, start, chunkSize)
    ensures IsLastBreakPastMidpoint(text, ParagraphBreak, start, chunkSize, WindowEnd(text, start, chunkSize))
  {
    BreakSearch(text, ParagraphBreak, start, chunkSize);
  }

  lemma EndsAfterSentenceBreak(text: string, start: nat, chunkSize: nat)
    requires start + chunkSize < |text|
    requires 2 * LastIndexOf(text, ParagraphBreak, start + chunkSize) <= 2 * start + chunkSize
    requires 2 * LastIndexOf(text, SentenceBreak, start + chunkSize) > 2 * start + chunkSize
    ensures !HasBreakPastMidpoint(text, ParagraphBreak, start, chunkSize)
    ensures HasBreakPastMidpoint(text, SentenceBreak, start, chunkSize)
    ensures IsLastBreakPastMidpoint(text, SentenceBreak, start, chunkSize, WindowEnd(text, start, chunkSize) - 1)
  {
    BreakSearch(text, ParagraphBreak, start, chunkSize);
    BreakSearch(text, SentenceBreak, start, chunkSize);
  }

  lemma EndsAtFullWindow(text: string, start: nat, chunkSize: nat)
    requires start + chunkSize < |text|
    requires 2 * LastIndexOf(text, ParagraphBreak, start + chunkSize) <= 2 * start + chunkSize
    requires 2 * LastIndexOf(text, SentenceBreak, start + chunkSize) <= 2 * start + chunkSize
    ensures !HasBreakPastMidpoint(text, ParagraphBreak, start, chunkSize)
    ensures !HasBreakPastMidpoint(text, SentenceBreak, start, chunkSize)
    ensures WindowEnd(text, start, chunkSize) == start + chunkSize
  {
    BreakSearch(text, ParagraphBreak, start, chunkSize);
    BreakSearch(text, SentenceBreak, start, chunkSize);
  }

  /**
   * `lastIndexOf(pattern, start + chunkSize)` finds a break past the midpoint exactly
   * when there is one, and then the last one.
   */
  lemma BreakSearch(text: string, pattern: string, start: nat, chunkSize: nat)
    ensures var b := LastIndexOf(text, pattern, start + chunkSize);
      && (2 * b > 2 * start + chunkSize <==> HasBreakPastMidpoint(text, pattern, start, chunkSize))
      && (2 * b > 2 * start + chunkSize ==> IsLastBreakPastMidpoint(text, pattern, start, chunkSize, b))
  {
    var b := LastIndexOf(text, pattern, start + chunkSize);
    LastIndexOfIsLast(text, pattern, start + chunkSize);
    if 2 * b > 2 * start + chunkSize {
      assert BreakPastMidpoint(text, pattern, start, chunkSize, b);
    }
  }

  /** Under the overlap bound, the next window starts strictly after the current one. */
  lemma ChunkStartAdvances(text: string, start: nat, chunkSize: nat, overlap: nat)
    requires chunkSize >= 1 && 2 * overlap <= chunkSize
    ensures WindowEnd(text, start, chunkSize) - overlap > start
    ensures WindowEnd(text, start, chunkSize) <= start + chunkSize + 1
  {
    var end := WindowEnd(text, start, chunkSize);
    var mid := start + chunkSize;
    if mid < |text| {
      var paragraphBreak := LastIndexOf(text, ParagraphBreak, mid);
      var sentenceBreak := LastIndexOf(text, SentenceBreak, mid);
      assert paragraphBreak <= mid && sentenceBreak <= mid;
    }
  }

  /** `text.slice(start, end).trim()`; JavaScript's `slice` clamps both ends to the text and is empty when they cross. */
  function WindowText(text: string, start: nat, end: int): string {
    var a, b := Min(start, |text|), Min(end, |text|);
    if a <= b then TrimSlice(text, a, b) else ""
  }

  /** `text.slice(next).trim()`: the trimmed rest of the text from `next` on. */
  function TailFrom(text: string, next: nat): string {
    TrimSlice(text, Min(next, |text|), |text|)
  }

  /**
   * A chunk, by position: the window `text.slice(start, end)`, or, for the last chunk,
   * that window with the rest of the text from `rest` on appended after a space.
   */
  datatype Piece = Window(start: nat, end: int) | WindowAndRest(start: nat, end: int, rest: nat)

  /** The string a piece stands for, trimmed as `chunkText` trims it. */
  function PieceText(text: string, p: Piece): string {
    match p
    case Window(start, end) => WindowText(text, start, end)
    case WindowAndRest(start, end, rest) => WindowText(text, start, end) + " " + TailFrom(text, rest)
  }

  function PieceTexts(text: string, ps: seq<Piece>): (r: seq<string>)
    ensures |r| == |ps|
  {
    if ps == [] then [] else PieceTexts(text, AllButLast(ps)) + [PieceText(text, Last(ps))]
  }

  /** Where the window after the one starting at `start` begins: `overlap` before this one's end. */
  function NextStart(text: string, chunkSize: nat, overlap: nat, start: nat): int {
    WindowEnd(text, start, chunkSize) - overlap
  }

  /**
   * Without the overlap bound the loop need not end: when the overlap equals the
   * chunk size and a window has no break past its midpoint, the next window starts
   * where this one did, and the stop test fails, so the loop repeats forever.
   */
  lemma ChunkStartStalls(text: string, start: nat, chunkSize: nat)
    requires start + chunkSize < |text|
    requires !HasBreakPastMidpoint(text, ParagraphBreak, start, chunkSize)
    requires !HasBreakPastMidpoint(text, SentenceBreak, start, chunkSize)
    ensures NextStart(text, chunkSize, chunkSize, start) == start
    ensures 2 * (|text| - start) >= chunkSize
  {
    BreakSearch(text, ParagraphBreak, start, chunkSize);
    BreakSearch(text, SentenceBreak, start, chunkSize);
    EndsAtFullWindow(text, start, chunkSize);
  }

  /** A concrete case: "aaaa" with chunk size and overlap 2 starts every window at 0. */
  lemma ChunkStartStallsExample()
    ensures NextStart("aaaa", 2, 2, 0) == 0
  {
    forall i ensures !BreakPastMidpoint("aaaa", ParagraphBreak, 0, 2, i) {
      if OccursAt("aaaa", ParagraphBreak, i) { assert "aaaa"[i] == ParagraphBreak[0]; }
    }
    forall i ensures !BreakPastMidpoint("aaaa", SentenceBreak, 0, 2, i) {
      if OccursAt("aaaa", SentenceBreak, i) { assert "aaaa"[i] == SentenceBreak[0]; }
    }
    ChunkStartStalls("aaaa", 0, 2);
  }

  /**
   * The pieces the loop of `chunkText` pushes when a window starts at `start`: one
   * window per iteration, the next starting `overlap` before the end of this one;
   * when less than half a chunk is left after the next start, the last window takes
   * the rest of the text and the loop stops.
   */
  function Pieces(text: string, chunkSize: nat, overlap: nat, start: nat): seq<Piece>
    requires chunkSize >= 1 && 2 * overlap <= chunkSize
    requires start < |text|
    decreases |text| - start
  {
    var end := WindowEnd(text, start, chunkSize);
    var next: nat := NextStart(text, chunkSize, overlap, start);
    if 2 * (|text| - next) < chunkSize then [WindowAndRest(start, end, next)]
    else [Window(start, end)] + Pieces(text, chunkSize, overlap, next)
  }

  /** One iteration of the loop, unfolded. */
  lemma PiecesStep(text: string, chunkSize: nat, overlap: nat, start: nat)
    requires chunkSize >= 1 && 2 * overlap <= chunkSize
    requires start < |text|
    ensures var end := WindowEnd(text, start, chunkSize);
      && NextStart(text, chunkSize, overlap, start) > start
      && var next := NextStart(text, chunkSize, overlap, start);
      && (2 * (|text| - next) < chunkSize ==>
            Pieces(text, chunkSize, overlap, start) == [WindowAndRest(start, end, next)])
      && (2 * (|text| - next) >= chunkSize ==>
            next < |text| && Pieces(text, chunkSize, overlap, start) == [Window(start, end)] + Pieces(text, chunkSize, overlap, next))
  {
    ChunkStartAdvances(text, start, chunkSize, overlap);
  }

  /**
   * The shape of the loop's output: windows that each end where `WindowEnd` puts
   * them, the first starting at `start`, each next one starting `overlap` before the
   * end of the previous one (so strictly later); only the last takes the rest of
   * the text, from where the next window would have started, and it does so because
   * less than half a chunk was left.
   */
  ghost predicate Chained(text: string, chunkSize: nat, overlap: nat, start: nat, ps: seq<Piece>) {
    && |ps| >= 1
    && ps[0].start == start
    && (forall k :: 0 <= k < |ps| ==> ps[k].end == WindowEnd(text, ps[k].start, chunkSize))
    && (forall k :: 0 <= k < |ps| - 1 ==>
          ps[k].Window? && ps[k + 1].start == ps[k].end - overlap && ps[k + 1].start > ps[k].start)
    && Last(ps).WindowAndRest?
    && Last(ps).rest == Last(ps).end - overlap
    && 2 * (|text| - Last(ps).rest) < chunkSize
  }

  lemma {:induction false} PiecesChained(text: string, chunkSize: nat, overlap: nat, start: nat)
    requires chunkSize >= 1 && 2 * overlap <= chunkSize
    requires start < |text|
    ensures Chained(text, chunkSize, overlap, start, Pieces(text, chunkSize, overlap, start))
    decreases |text| - start
  {
    PiecesStep(text, chunkSize, overlap, start);
    var next := NextStart(text, chunkSize, overlap, start);
    if 2 * (|text| - next) >= chunkSize {
      var rest := Pieces(text, chunkSize, overlap, next);
      PiecesChained(text, chunkSize, overlap, next);
      var w := Window(start, WindowEnd(text, start, chunkSize));
      ChainedCons(text, chunkSize, overlap, w, rest);
    }
  }

  /** A window in front of a chain that starts where it says the next one starts. */
  lemma ChainedCons(text: string, chunkSize: nat, overlap: nat, w: Piece, rest: seq<Piece>)
    requires w.Window? && w.end == WindowEnd(text, w.start, chunkSize)
    requires |rest| >= 1 && rest[0].start == w.end - overlap > w.start
    requires Chained(text, chunkSize, overlap, rest[0].start, rest)
    ensures Chained(text, chunkSize, overlap, w.start, [w] + rest)
  {
    var ps := [w] + rest;
    forall k | 0 <= k < |ps|
      ensures ps[k].end == WindowEnd(text, ps[k].start, chunkSize)
    {
      if k > 0 { assert ps[k] == rest[k - 1]; }
    }
    forall k | 0 <= k < |ps| - 1
      ensures ps[k].Window? && ps[k + 1].start == ps[k].end - overlap && ps[k + 1].start > ps[k].start
    {
      if k > 0 { assert ps[k] == rest[k - 1] && ps[k + 1] == rest[k]; }
    }
    assert Last(ps) == Last(rest);
  }

  lemma PieceTextsPush(text: string, ps: seq<Piece>, p: Piece)
    ensures PieceTexts(text, ps + [p]) == PieceTexts(text, ps) + [PieceText(text, p)]
  {
    assert AllButLast(ps + [p]) == ps;
  }

  /** Adding to the last element of `xs + [x]` (JavaScript's `chunks[chunks.length - 1] += y + z`). */
  lemma AppendToLast(xs: seq<string>, x: string, y: string, z: string)
    ensures var ys := xs + [x]; ys[..|ys| - 1] + [ys[|ys| - 1] + y + z] == xs + [x + y + z]
  {
    var ys := xs + [x];
    assert ys[..|ys| - 1] == xs;
  }

  /** `chunks.filter((chunk) => chunk.length > 50)` */
  function KeepSubstantial(chunks: seq<string>): (r: seq<string>)
    ensures forall k :: 0 <= k < |r| ==> |r[k]| > MinChunkLength
  {
    if chunks == [] then []
    else if |chunks[0]| > MinChunkLength then [chunks[0]] + KeepSubstantial(chunks[1..])
    else KeepSubstantial(chunks[1..])
  }

  /** What `chunkText(text, chunkSize, overlap)` returns. */
  function Chunks(text: string, chunkSize: nat, overlap: nat): (r: seq<string>)
    requires chunkSize >= 1 && 2 * overlap <= chunkSize
    ensures forall k :: 0 <= k < |r| ==> |r[k]| > MinChunkLength
  {
    if text == [] then [] else KeepSubstantial(PieceTexts(text, Pieces(text, chunkSize, overlap, 0)))
  }

  /** The loop's state after pushing a window that is not the last: the pushed texts and the remaining pieces line up. */
  lemma PushWindowStep(text: string, chunkSize: nat, overlap: nat, done: seq<Piece>, all: seq<Piece>,
                       start: nat, end: int, next: int)
    requires chunkSize >= 1 && 2 * overlap <= chunkSize
    requires start < |text|
    requires done + Pieces(text, chunkSize, overlap, start) == all
    requires end == WindowEnd(text, start, chunkSize) && next == NextStart(text, chunkSize, overlap, start)
    requires 2 * (|text| - next) >= chunkSize
    ensures start < next < |text|
    ensures PieceTexts(text, done + [Window(start, end)]) == PieceTexts(text, done) + [WindowText(text, start, end)]
    ensures (done + [Window(start, end)]) + Pieces(text, chunkSize, overlap, next) == all
  {
    PiecesStep(text, chunkSize, overlap, start);
    PieceTextsPush(text, done, Window(start, end));
    ShiftFirst(done, Window(start, end), Pieces(text, chunkSize, overlap, next), all);
  }

  /** Moving the first of the remaining pieces to the done ones keeps their concatenation. */
  lemma ShiftFirst(done: seq<Piece>, p: Piece, rest: seq<Piece>, all: seq<Piece>)
    requires done + ([p] + rest) == all
    ensures (done + [p]) + rest == all
  {
    assert (done + [p]) + rest == done + ([p] + rest);
  }

  /** The loop's state after the last window: the rest of the text has been added to the last chunk and every piece is pushed. */
  lemma PushLastStep(text: string, chunkSize: nat, overlap: nat, done: seq<Piece>, all: seq<Piece>,
                     start: nat, end: int, next: int)
    requires chunkSize >= 1 && 2 * overlap <= chunkSize
    requires start < |text|
    requires done + Pieces(text, chunkSize, overlap, start) == all
    requires end == WindowEnd(text, start, chunkSize) && next == NextStart(text, chunkSize, overlap, start)
    requires 2 * (|text| - next) < chunkSize
    ensures next > start
    ensures var ys := PieceTexts(text, done) + [WindowText(text, start, end)];
      ys[..|ys| - 1] + [ys[|ys| - 1] + " " + TailFrom(text, next)] == PieceTexts(text, done + [WindowAndRest(start, end, next)])
    ensures done + [WindowAndRest(start, end, next)] == all
  {
    PiecesStep(text, chunkSize, overlap, start);
    AppendToLast(PieceTexts(text, done), WindowText(text, start, end), " ", TailFrom(text, next));
    PieceTextsPush(text, done, WindowAndRest(start, end, next));
  }

  /**
   * One pass of the loop of `chunkText` for the window that begins at `start`: push
   * the trimmed window, move `start` to `overlap` before its end, and, when less than
   * half a chunk is left, add the trimmed rest to the last chunk and stop. `done` is
   * the pieces pushed so far and `all` the pieces of the whole text.
   */
  method PushNextWindow(text: string, chunkSize: nat, overlap: nat, pushed: seq<string>, start: nat,
                        ghost done: seq<Piece>, ghost all: seq<Piece>)
    returns (pushed': seq<string>, next: nat, stop: bool, ghost done': seq<Piece>)
    requires chunkSize >= 1 && 2 * overlap <= chunkSize
    requires start < |text|
    requires done + Pieces(text, chunkSize, overlap, start) == all
    requires pushed == PieceTexts(text, done)
    ensures next > start
    ensures pushed' == PieceTexts(text, done')
    ensures stop ==> done' == all
    ensures !stop ==> next < |text| && done' + Pieces(text, chunkSize, overlap, next) == all
  {
    var end := WindowEnd(text, start, chunkSize);
    ghost var n := end - overlap;
    assert n == NextStart(text, chunkSize, overlap, start);
    ChunkStartAdvances(text, start, chunkSize, overlap);
    next := end - overlap;
    pushed' := pushed + [WindowText(text, start, end)];
    stop := 2 * (|text| - next) < chunkSize;
    if stop {
      PushLastStep(text, chunkSize, overlap, done, all, start, end, next);
      pushed' := pushed'[..|pushed'| - 1] + [pushed'[|pushed'| - 1] + " " + TailFrom(text, next)];
      done' := done + [WindowAndRest(start, end, next)];
    } else {
      PushWindowStep(text, chunkSize, overlap, done, all, start, end, next);
      done' := done + [Window(start, end)];
    }
  }

  /**
   * `chunkText`: the sliding-window splitter. It terminates only when the overlap
   * is at most half the chunk size (the defaults 1000/200 satisfy this).
   */
  method ChunkText(text: string, chunkSize: nat, overlap: nat) returns (chunks: seq<string>)
    requires chunkSize >= 1 && 2 * overlap <= chunkSize
    ensures chunks == Chunks(text, chunkSize, overlap)
    ensures forall k :: 0 <= k < |chunks| ==> |chunks[k]| > MinChunkLength
    ensures text == [] ==> chunks == []
  {
    ghost var all := if text == [] then [] else Pieces(text, chunkSize, overlap, 0);
    ghost var done: seq<Piece> := [];
    var pushed: seq<string> := [];
    var start: nat := 0;
    while start < |text|
      invariant start < |text| ==> done + Pieces(text, chunkSize, overlap, start) == all
      invariant start >= |text| ==> done == all
      invariant pushed == PieceTexts(text, done)
      decreases |text| - start
    {
      var stop;
      pushed, start, stop, done := PushNextWindow(text, chunkSize, overlap, pushed, start, done, all);
      if stop { break; }
    }
    chunks := KeepSubstantial(pushed);
  }

  // ========================================================= junk-content heuristic

  /** Words that, crowded into the start of a page, mark navigation chrome rather than content. */
  const NavPatterns: seq<string> := ["sign in", "sign up", "login", "menu", "navigation", "pricing", "docs", "blog"]
  const NavWindow: nat := 500
  const NavHitThreshold: nat := 4
  const LoadingMarker: string := "Loading..."

  /** The navigation words that occur in `s`, as a set. */
  ghost function NavWordsIn(s: string, patterns: seq<string>): set<string> {
    set p | p in patterns && Contains(s, p)
  }

  /** The start of the content where navigation words are looked for: its first 500 characters, lower-cased. */
  function NavHead(content: string): string {
    ToLowerAscii(Take(content, NavWindow))
  }

  /**
   * When content is likely a JavaScript placeholder or navigation spam: a huge page
   * with less than 5% of it extracted, at least 4 distinct navigation words in the
   * head, or a "Loading..." placeholder under 500 characters.
   */
  ghost predicate LikelyJunk(content: string, htmlLength: nat) {
    || (htmlLength > 100000 && 20 * |content| < htmlLength)
    || |NavWordsIn(NavHead(content), NavPatterns)| >= NavHitThreshold
    || (Contains(content, LoadingMarker) && |content| < 500)
  }

  /** Counting one more pattern: the set grows by it exactly when it occurs and was not counted before. */
  lemma NavWordsStep(s: string, patterns: seq<string>, i: nat)
    requires i < |patterns|
    requires patterns[i] !in patterns[..i]
    ensures |NavWordsIn(s, patterns[..i + 1])| ==
            |NavWordsIn(s, patterns[..i])| + (if Contains(s, patterns[i]) then 1 else 0)
  {
    assert patterns[..i + 1] == patterns[..i] + [patterns[i]];
    if Contains(s, patterns[i]) {
      assert NavWordsIn(s, patterns[..i + 1]) == NavWordsIn(s, patterns[..i]) + {patterns[i]};
    } else {
      assert NavWordsIn(s, patterns[..i + 1]) == NavWordsIn(s, patterns[..i]);
    }
  }

  /** The navigation words are pairwise distinct, so counting hits counts distinct words. */
  lemma NavPatternsDistinct()
    ensures forall i, j :: 0 <= i < j < |NavPatterns| ==> NavPatterns[i] != NavPatterns[j]
  {
  }

  /** `isLikelyJunkContent(content, htmlLength)`, with the 5% ratio as an integer comparison. */
  method IsLikelyJunkContent(content: string, htmlLength: nat) returns (junk: bool)
    ensures junk <==> LikelyJunk(content, htmlLength)
  {
    if htmlLength > 100000 && 20 * |content| < htmlLength {
      return true;
    }
    var first500 := NavHead(content);
    var navHits := 0;
    var i := 0;
    NavPatternsDistinct();
    while i < |NavPatterns|
      invariant 0 <= i <= |NavPatterns|
      invariant navHits == |NavWordsIn(first500, NavPatterns[..i])|
    {
      assert NavPatterns[i] !in NavPatterns[..i];
      NavWordsStep(first500, NavPatterns, i);
      if Contains(first500, NavPatterns[i]) {
        navHits := navHits + 1;
      }
      i := i + 1;
    }
    assert NavPatterns[..i] == NavPatterns;
    if navHits >= NavHitThreshold {
      return true;
    }
    if Contains(content, LoadingMarker) && |content| < 500 {
      return true;
    }
    return false;
  }

  // ================================================================ link extraction

  /** What URL parsing yields for a link: its scheme with the colon, its host name, and its serialisation with the fragment removed. */
  datatype Url = Url(protocol: string, hostname: string, withoutHash: string)

  predicate IsHttp(u: Url) {
    u.protocol == "http:" || u.protocol == "https:"
  }

  /** The link an anchor's `href` leads to, when it is not empty, parses against `baseUrl` and is http or https. */
  function FollowableLink(href: string, baseUrl: string, resolve: map<(string, string), Url>): Option<string> {
    if href == [] then None
    else match Get(resolve, (href, baseUrl))
      case Some(u) => if IsHttp(u) then Some(u.withoutHash) else None
      case None => None
  }

  /** The followable links of the anchors, in document order, duplicates kept. */
  function FollowableLinks(hrefs: seq<string>, baseUrl: string, resolve: map<(string, string), Url>): (r: seq<string>)
    ensures |r| <= |hrefs|
  {
    if hrefs == [] then []
    else
      var links := FollowableLinks(AllButLast(hrefs), baseUrl, resolve);
      match FollowableLink(Last(hrefs), baseUrl, resolve)
      case Some(l) => links + [l]
      case None => links
  }

  /** `[...new Set(xs)]`: the distinct elements in order of first occurrence. */
  function Dedupe(xs: seq<string>): (r: seq<string>)
    ensures forall x :: x in r <==> x in xs
    ensures forall i, j :: 0 <= i < j < |r| ==> r[i] != r[j]
  {
    if xs == [] then []
    else
      var r := Dedupe(AllButLast(xs));
      assert forall x :: x in xs <==> x in AllButLast(xs) || x == Last(xs) by {
        assert xs == AllButLast(xs) + [Last(xs)];
      }
      if Last(xs) in r then r else r + [Last(xs)]
  }

  /** Every extracted link is the fragment-free serialisation of an http(s) URL some non-empty `href` resolves to. */
  lemma {:induction false} FollowableLinksSound(hrefs: seq<string>, baseUrl: string, resolve: map<(string, string), Url>)
    ensures forall l :: l in FollowableLinks(hrefs, baseUrl, resolve) ==>
      exists k :: 0 <= k < |hrefs| && FollowableLink(hrefs[k], baseUrl, resolve) == Some(l)
    ensures forall k :: 0 <= k < |hrefs| && FollowableLink(hrefs[k], baseUrl, resolve).Some? ==>
      FollowableLink(hrefs[k], baseUrl, resolve).value in FollowableLinks(hrefs, baseUrl, resolve)
    decreases |hrefs|
  {
    if hrefs != [] {
      var init := AllButLast(hrefs);
      FollowableLinksSound(init, baseUrl, resolve);
      assert forall k :: 0 <= k < |init| ==> init[k] == hrefs[k];
    }
  }

  /** `extractLinks($, baseUrl)`, with the anchors' `href` values given and URL parsing an oracle. */
  method ExtractLinks(hrefs: seq<string>, baseUrl: string, resolve: map<(string, string), Url>) returns (links: seq<string>)
    ensures links == Dedupe(FollowableLinks(hrefs, baseUrl, resolve))
    ensures forall l :: l in links <==> exists k :: 0 <= k < |hrefs| && FollowableLink(hrefs[k], baseUrl, resolve) == Some(l)
  {
    var found: seq<string> := [];
    var i := 0;
    while i < |hrefs|
      invariant 0 <= i <= |hrefs|
      invariant found == FollowableLinks(hrefs[..i], baseUrl, resolve)
    {
      assert AllButLast(hrefs[..i + 1]) == hrefs[..i];
      var href := hrefs[i];
      if href != [] {
        var url := Get(resolve, (href, baseUrl));
        if url.Some? && IsHttp(url.value) {
          found := found + [url.value.withoutHash];
        }
      }
      i := i + 1;
    }
    assert hrefs[..i] == hrefs;
    FollowableLinksSound(hrefs, baseUrl, resolve);
    links := Dedupe(found);
  }

  // ====================================================================== crawling

  /** What fetching and parsing a page gives: the HTML's length, the URL after redirects, the `<title>` text, the extracted text and the anchors' `href` values. */
  datatype FetchedPage = FetchedPage(htmlLength: nat, finalUrl: string, title: string, content: string, hrefs: seq<string>)

  /** What the remote reader returns for a URL. */
  datatype ReaderPage = ReaderPage(title: string, content: string)

  datatype CrawledPage = CrawledPage(url: string, title: string, content: string)

  /** A progress report: pages so far, the budget (or the final count), and the URL about to be fetched. */
  datatype CrawlProgress = CrawlProgress(crawled: nat, total: int, currentUrl: Option<string>)

  /**
   * The outside world of a crawl: the pages that fetch successfully as HTML (a URL
   * missing from `pages` fails), the remote reader, and URL parsing, both relative
   * (`new URL(href, base)`) and absolute (`new URL(url).hostname`).
   */
  datatype Web = Web(
    pages: map<string, FetchedPage>,
    reader: map<string, ReaderPage>,
    resolve: map<(string, string), Url>,
    hostname: map<string, string>)

  datatype CrawlOptions = CrawlOptions(maxPages: Option<int>, sameDomain: Option<bool>)

  const MaxPagesDefault: int := 20
  /** Extracted text shorter than this sends the page to the remote reader. */
  const ReaderThreshold: nat := 200
  /** The reader's text replaces the extracted one only when longer than this. */
  const ReaderMinContent: nat := 100
  /** Pages with this much text or less are not kept. */
  const MinPageContent: nat := 50

  /** `url.split("#")[0]`: the URL without its fragment, the key of the visited set. */
  function Normalize(url: string): string {
    Split(url, '#')[0]
  }

  /**
   * The page a fetch yields: when the extracted text is short or looks like junk, the
   * reader's text (and its title, when it has one) replaces it if long enough; the
   * page is kept when its text is longer than 50 characters, titled by the page title
   * or else by its URL.
   */
  ghost function PageOf(f: FetchedPage, read: Option<ReaderPage>): Option<CrawledPage> {
    var title := Trim(f.title);
    var tryReader := |f.content| < ReaderThreshold || LikelyJunk(f.content, f.htmlLength);
    var useReader := tryReader && read.Some? && |read.value.content| > ReaderMinContent;
    var content := if useReader then read.value.content else f.content;
    var title' := if useReader && read.value.title != [] then read.value.title else title;
    if |content| > MinPageContent then Some(CrawledPage(f.finalUrl, if title' != [] then title' else f.finalUrl, content))
    else None
  }

  /** A kept page has more than 50 characters, the final URL, a title unless the URL is empty, and the reader's text only when that was asked for. */
  lemma PageOfKept(f: FetchedPage, read: Option<ReaderPage>)
    ensures var p := PageOf(f, read);
      p.Some? ==>
        && |p.value.content| > MinPageContent
        && p.value.url == f.finalUrl
        && (p.value.title == [] ==> f.finalUrl == [])
        && (p.value.content != f.content ==>
              && (|f.content| < ReaderThreshold || LikelyJunk(f.content, f.htmlLength))
              && read == Some(ReaderPage(read.value.title, p.value.content))
              && |p.value.content| > ReaderMinContent)
    ensures |f.content| > MinPageContent && |f.content| >= ReaderThreshold && !LikelyJunk(f.content, f.htmlLength) ==>
      PageOf(f, read) == Some(CrawledPage(f.finalUrl, if Trim(f.title) != [] then Trim(f.title) else f.finalUrl, f.content))
  {
  }

  /** The body of the crawl loop between the fetch and the link extraction. */
  method VisitPage(f: FetchedPage, url: string, reader: map<string, ReaderPage>) returns (page: Option<CrawledPage>)
    ensures page == PageOf(f, Get(reader, url))
  {
    var title := Trim(f.title);
    var content := f.content;
    var shouldTryReader := |content| < ReaderThreshold;
    if !shouldTryReader {
      shouldTryReader := IsLikelyJunkContent(content, f.htmlLength);
    }
    if shouldTryReader {
      var read := Get(reader, url);
      if read.Some? && |read.value.content| > ReaderMinContent {
        content := read.value.content;
        title := if read.value.title != [] then read.value.title else title;
      }
    }
    if |content| > MinPageContent {
      page := Some(CrawledPage(f.finalUrl, if title != [] then title else f.finalUrl, content));
    } else {
      page := None;
    }
  }

  /** A link is queued when its fragment-free form was not visited and, for a same-domain crawl, its host is the start host. */
  predicate Enqueueable(link: string, visited: set<string>, sameDomain: bool, startHost: string, hostname: map<string, string>) {
    Normalize(link) !in visited && Get(hostname, link).Some? && (!sameDomain || Get(hostname, link).value == startHost)
  }

  /** Every unvisited link has a host that parses: otherwise `new URL(link)` throws. */
  predicate LinksParse(links: seq<string>, visited: set<string>, hostname: map<string, string>) {
    forall l :: l in links && Normalize(l) !in visited ==> Get(hostname, l).Some?
  }

  /** The links the link loop appends to the queue, in order: the enqueueable ones. */
  function Enqueued(links: seq<string>, visited: set<string>, sameDomain: bool, startHost: string,
                    hostname: map<string, string>): seq<string>
  {
    if links == [] then []
    else
      var tail := if Enqueueable(Last(links), visited, sameDomain, startHost, hostname) then [Last(links)] else [];
      Enqueued(AllButLast(links), visited, sameDomain, startHost, hostname) + tail
  }

  /** The appended links are exactly the page's enqueueable links. */
  lemma {:induction false} EnqueuedMembers(links: seq<string>, visited: set<string>, sameDomain: bool, startHost: string,
                                           hostname: map<string, string>)
    ensures forall k :: 0 <= k < |Enqueued(links, visited, sameDomain, startHost, hostname)| ==>
      && Enqueued(links, visited, sameDomain, startHost, hostname)[k] in links
      && Enqueueable(Enqueued(links, visited, sameDomain, startHost, hostname)[k], visited, sameDomain, startHost, hostname)
    ensures forall l :: l in links && Enqueueable(l, visited, sameDomain, startHost, hostname) ==>
      l in Enqueued(links, visited, sameDomain, startHost, hostname)
    decreases |links|
  {
    if links != [] {
      var init := AllButLast(links);
      EnqueuedMembers(init, visited, sameDomain, startHost, hostname);
      assert links == init + [Last(links)];
      var before := Enqueued(init, visited, sameDomain, startHost, hostname);
      var added := Enqueued(links, visited, sameDomain, startHost, hostname);
      forall k | 0 <= k < |added|
        ensures added[k] in links && Enqueueable(added[k], visited, sameDomain, startHost, hostname)
      {
        if k < |before| {
          assert added[k] == before[k];
        } else {
          assert added[k] == Last(links);
        }
      }
    }
  }

  /**
   * The link loop of the crawl: append each link not yet visited whose host passes
   * the domain test; a link whose host cannot be parsed stops the crawl with an
   * error (`ok` false).
   */
  method EnqueueLinks(links: seq<string>, visited: set<string>, queue: seq<string>, sameDomain: bool, startHost: string,
                      hostname: map<string, string>)
    returns (queue': seq<string>, ok: bool)
    ensures ok <==> LinksParse(links, visited, hostname)
    ensures ok ==> queue' == queue + Enqueued(links, visited, sameDomain, startHost, hostname)
  {
    queue' := queue;
    var i := 0;
    while i < |links|
      invariant 0 <= i <= |links|
      invariant LinksParse(links[..i], visited, hostname)
      invariant queue' == queue + Enqueued(links[..i], visited, sameDomain, startHost, hostname)
    {
      var link := links[i];
      assert links[..i + 1] == links[..i] + [link];
      assert AllButLast(links[..i + 1]) == links[..i];
      if Normalize(link) in visited {
        i := i + 1;
        continue;
      }
      var host := Get(hostname, link);
      if host.None? {
        assert link in links;
        return queue', false;
      }
      if sameDomain && host.value != startHost {
        i := i + 1;
        continue;
      }
      queue' := queue' + [link];
      i := i + 1;
    }
    assert links[..i] == links;
    ok := true;
  }

  /**
   * The reports sent before each fetch: each names the URL about to be fetched and
   * the budget, counts fewer pages than the budget, no two name the same URL up to
   * the fragment, and, for a same-domain crawl, every URL is on the start host.
   */
  ghost predicate FetchReports(reports: seq<CrawlProgress>, maxPages: int, sameDomain: bool, startHost: string,
                               hostname: map<string, string>) {
    && (forall k :: 0 <= k < |reports| ==>
          reports[k].currentUrl.Some? && reports[k].total == maxPages && reports[k].crawled < maxPages)
    && (forall i, j :: 0 <= i < j < |reports| ==>
          Normalize(reports[i].currentUrl.value) != Normalize(reports[j].currentUrl.value))
    && (sameDomain ==> forall k :: 0 <= k < |reports| ==> Get(hostname, reports[k].currentUrl.value) == Some(startHost))
  }

  /** Reporting a URL whose fragment-free form was not visited keeps the reports distinct, and marks it visited. */
  lemma FetchReportsPush(reports: seq<CrawlProgress>, r: CrawlProgress, visited: set<string>, maxPages: int,
                         sameDomain: bool, startHost: string, hostname: map<string, string>)
    requires FetchReports(reports, maxPages, sameDomain, startHost, hostname)
    requires forall k :: 0 <= k < |reports| ==> Normalize(reports[k].currentUrl.value) in visited
    requires r.currentUrl.Some? && r.total == maxPages && r.crawled < maxPages
    requires Normalize(r.currentUrl.value) !in visited
    requires sameDomain ==> Get(hostname, r.currentUrl.value) == Some(startHost)
    ensures FetchReports(reports + [r], maxPages, sameDomain, startHost, hostname)
    ensures forall k :: 0 <= k < |reports + [r]| ==>
      Normalize((reports + [r])[k].currentUrl.value) in visited + {Normalize(r.currentUrl.value)}
  {
    var rs := reports + [r];
    forall i, j | 0 <= i < j < |rs|
      ensures Normalize(rs[i].currentUrl.value) != Normalize(rs[j].currentUrl.value)
    {
      if j == |reports| {
        assert rs[i] == reports[i];
      } else {
        assert rs[i] == reports[i] && rs[j] == reports[j];
      }
    }
  }

  /** The fragment-free forms of the URLs that fetch and are not visited yet: what the crawl can still fetch. */
  ghost function Unfetched(web: Web, visited: set<string>): set<string> {
    (set u | u in web.pages :: Normalize(u)) - visited
  }

  /** Visiting a URL never leaves more to fetch, and leaves less when it fetches and was not visited. */
  lemma VisitShrinksUnfetched(web: Web, visited: set<string>, url: string)
    ensures |Unfetched(web, visited + {Normalize(url)})| <= |Unfetched(web, visited)|
    ensures url in web.pages && Normalize(url) !in visited ==>
      |Unfetched(web, visited + {Normalize(url)})| < |Unfetched(web, visited)|
  {
    var before := Unfetched(web, visited);
    assert Unfetched(web, visited + {Normalize(url)}) == before - {Normalize(url)};
    if url in web.pages && Normalize(url) !in visited {
      assert Normalize(url) in before;
    }
  }

  /** The state of the crawl loop: the pages kept, the visited fragment-free URLs, the queue and the reports sent so far. */
  datatype CrawlState = CrawlState(found: seq<CrawledPage>, visited: set<string>, queue: seq<string>, progress: seq<CrawlProgress>)

  /** The state after a turn of the crawl loop; `ok` is false when the turn throws, and then only the reports matter. */
  datatype Turn = Turn(st: CrawlState, ok: bool)

  /** The links `extractLinks` finds on a fetched page, resolved against its final URL. */
  function PageLinks(f: FetchedPage, resolve: map<(string, string), Url>): seq<string> {
    Dedupe(FollowableLinks(f.hrefs, f.finalUrl, resolve))
  }

  /**
   * One turn of the crawl loop, as a function of the state: take the first URL of the
   * queue; unless its fragment-free form was visited, mark it, report it, fetch it,
   * keep its page and queue its enqueueable links.
   */
  ghost function CrawlTurn(st: CrawlState, maxPages: int, sameDomain: bool, startHost: string, web: Web): Turn
    requires |st.queue| > 0
  {
    var url := st.queue[0];
    if Normalize(url) in st.visited then Turn(st.(queue := st.queue[1..]), true)
    else
      var visited := st.visited + {Normalize(url)};
      var progress := st.progress + [CrawlProgress(|st.found|, maxPages, Some(url))];
      if url !in web.pages then Turn(CrawlState(st.found, visited, st.queue[1..], progress), true)
      else
        var f := web.pages[url];
        var page := PageOf(f, Get(web.reader, url));
        var found := if page.Some? then st.found + [page.value] else st.found;
        var links := PageLinks(f, web.resolve);
        if LinksParse(links, visited, web.hostname) then
          Turn(CrawlState(found, visited, st.queue[1..] + Enqueued(links, visited, sameDomain, startHost, web.hostname), progress), true)
        else Turn(CrawlState(found, visited, st.queue[1..], progress), false)
  }

  /** Each turn either fetches a URL not fetched before or shortens the queue without adding to what is left to fetch. */
  lemma TurnShrinks(st: CrawlState, maxPages: int, sameDomain: bool, startHost: string, web: Web)
    requires |st.queue| > 0
    ensures var t := CrawlTurn(st, maxPages, sameDomain, startHost, web);
      || |Unfetched(web, t.st.visited)| < |Unfetched(web, st.visited)|
      || (|Unfetched(web, t.st.visited)| == |Unfetched(web, st.visited)| && |t.st.queue| < |st.queue|)
  {
    VisitShrinksUnfetched(web, st.visited, st.queue[0]);
  }

  /** The crawl loop run from a state until the queue is empty, `maxPages` pages are kept or a turn throws. */
  ghost function CrawlFrom(st: CrawlState, maxPages: int, sameDomain: bool, startHost: string, web: Web): Turn
    decreases |Unfetched(web, st.visited)|, |st.queue|
  {
    if |st.queue| == 0 || |st.found| >= maxPages then Turn(st, true)
    else
      var t := CrawlTurn(st, maxPages, sameDomain, startHost, web);
      TurnShrinks(st, maxPages, sameDomain, startHost, web);
      if t.ok then CrawlFrom(t.st, maxPages, sameDomain, startHost, web) else t
  }

  /** What `crawlUrl` returns (`None` when it throws) and the reports it sends. */
  datatype CrawlOutcome = CrawlOutcome(pages: Option<seq<CrawledPage>>, progress: seq<CrawlProgress>)

  /** `crawlUrl` as a function: the loop from the start URL, then the final report. */
  ghost function Crawl(startUrl: string, options: CrawlOptions, web: Web): CrawlOutcome {
    var startHost := Get(web.hostname, startUrl);
    if startHost.None? then CrawlOutcome(None, [])
    else
      var r := CrawlFrom(CrawlState([], {}, [startUrl], []), options.maxPages.GetOr(MaxPagesDefault),
                         options.sameDomain.GetOr(true), startHost.value, web);
      if r.ok then CrawlOutcome(Some(r.st.found), r.st.progress + [CrawlProgress(|r.st.found|, |r.st.found|, None)])
      else CrawlOutcome(None, r.st.progress)
  }

  /** The page a report yields: `PageOf` the fetch of its URL when that fetches and is kept. */
  ghost function PageAt(report: CrawlProgress, web: Web): seq<CrawledPage> {
    if report.currentUrl.None? || report.currentUrl.value !in web.pages then []
    else
      var page := PageOf(web.pages[report.currentUrl.value], Get(web.reader, report.currentUrl.value));
      if page.Some? then [page.value] else []
  }

  /** The pages the reports yield, in report order. */
  ghost function KeptPages(reports: seq<CrawlProgress>, web: Web): seq<CrawledPage> {
    if reports == [] then [] else KeptPages(AllButLast(reports), web) + PageAt(Last(reports), web)
  }

  /** A turn keeps exactly the page its report yields. */
  lemma TurnKeepsPages(st: CrawlState, maxPages: int, sameDomain: bool, startHost: string, web: Web)
    requires |st.queue| > 0 && st.found == KeptPages(st.progress, web)
    ensures var t := CrawlTurn(st, maxPages, sameDomain, startHost, web);
      t.st.found == KeptPages(t.st.progress, web)
  {
    var url := st.queue[0];
    if Normalize(url) !in st.visited {
      var progress := st.progress + [CrawlProgress(|st.found|, maxPages, Some(url))];
      assert AllButLast(progress) == st.progress;
    }
  }

  /** The loop keeps exactly the pages its reports yield. */
  lemma {:induction false} CrawlFromKeepsPages(st: CrawlState, maxPages: int, sameDomain: bool, startHost: string, web: Web)
    requires st.found == KeptPages(st.progress, web)
    ensures var r := CrawlFrom(st, maxPages, sameDomain, startHost, web);
      r.st.found == KeptPages(r.st.progress, web)
    decreases |Unfetched(web, st.visited)|, |st.queue|
  {
    if |st.queue| > 0 && |st.found| < maxPages {
      var t := CrawlTurn(st, maxPages, sameDomain, startHost, web);
      TurnKeepsPages(st, maxPages, sameDomain, startHost, web);
      TurnShrinks(st, maxPages, sameDomain, startHost, web);
      if t.ok {
        CrawlFromKeepsPages(t.st, maxPages, sameDomain, startHost, web);
      }
    }
  }

  /** The loop ends normally only with an empty queue or `maxPages` pages kept. */
  lemma {:induction false} CrawlFromStops(st: CrawlState, maxPages: int, sameDomain: bool, startHost: string, web: Web)
    ensures var r := CrawlFrom(st, maxPages, sameDomain, startHost, web);
      r.ok ==> r.st.queue == [] || |r.st.found| >= maxPages
    decreases |Unfetched(web, st.visited)|, |st.queue|
  {
    if |st.queue| > 0 && |st.found| < maxPages {
      var t := CrawlTurn(st, maxPages, sameDomain, startHost, web);
      TurnShrinks(st, maxPages, sameDomain, startHost, web);
      if t.ok {
        CrawlFromStops(t.st, maxPages, sameDomain, startHost, web);
      }
    }
  }

  /** The last report names a URL that fetched and has a link whose host does not parse. */
  ghost predicate ThrowsAt(reports: seq<CrawlProgress>, web: Web) {
    && |reports| >= 1
    && Last(reports).currentUrl.Some?
    && Last(reports).currentUrl.value in web.pages
    && exists l :: l in PageLinks(web.pages[Last(reports).currentUrl.value], web.resolve) && Get(web.hostname, l).None?
  }

  /** A turn throws only on a link, of the page it fetched, whose host does not parse. */
  lemma TurnThrows(st: CrawlState, maxPages: int, sameDomain: bool, startHost: string, web: Web)
    requires |st.queue| > 0
    ensures var t := CrawlTurn(st, maxPages, sameDomain, startHost, web);
      !t.ok ==> ThrowsAt(t.st.progress, web)
  {
    var t := CrawlTurn(st, maxPages, sameDomain, startHost, web);
    var url := st.queue[0];
    if !t.ok {
      assert Last(t.st.progress) == CrawlProgress(|st.found|, maxPages, Some(url));
      var links := PageLinks(web.pages[url], web.resolve);
      assert !LinksParse(links, st.visited + {Normalize(url)}, web.hostname);
    }
  }

  /** The loop throws only on a link, of the page just fetched, whose host does not parse. */
  lemma {:induction false} CrawlFromThrows(st: CrawlState, maxPages: int, sameDomain: bool, startHost: string, web: Web)
    ensures var r := CrawlFrom(st, maxPages, sameDomain, startHost, web);
      !r.ok ==> ThrowsAt(r.st.progress, web)
    decreases |Unfetched(web, st.visited)|, |st.queue|
  {
    if |st.queue| > 0 && |st.found| < maxPages {
      var t := CrawlTurn(st, maxPages, sameDomain, startHost, web);
      TurnShrinks(st, maxPages, sameDomain, startHost, web);
      TurnThrows(st, maxPages, sameDomain, startHost, web);
      if t.ok {
        CrawlFromThrows(t.st, maxPages, sameDomain, startHost, web);
      }
    }
  }

  /** A link passes the domain test: any link, or for a same-domain crawl one on the start host. */
  ghost predicate Followed(link: string, sameDomain: bool, startHost: string, hostname: map<string, string>) {
    sameDomain ==> Get(hostname, link) == Some(startHost)
  }

  /** The links of the page a report fetched; none when its URL did not fetch. */
  function LinksAt(report: CrawlProgress, web: Web): seq<string> {
    if report.currentUrl.None? || report.currentUrl.value !in web.pages then []
    else PageLinks(web.pages[report.currentUrl.value], web.resolve)
  }

  /** Every followed link of every fetched page is visited or still queued. */
  ghost predicate LinksReached(st: CrawlState, sameDomain: bool, startHost: string, web: Web) {
    forall k, l :: 0 <= k < |st.progress| && l in LinksAt(st.progress[k], web) && Followed(l, sameDomain, startHost, web.hostname) ==>
      Normalize(l) in st.visited || l in st.queue
  }

  /** Every visited URL was reported. */
  ghost predicate VisitedReported(st: CrawlState) {
    forall v :: v in st.visited ==>
      exists k :: 0 <= k < |st.progress| && st.progress[k].currentUrl.Some? && Normalize(st.progress[k].currentUrl.value) == v
  }

  /** A queued URL is the front of the queue or in the rest of it. */
  lemma QueueFront(queue: seq<string>, l: string)
    requires l in queue
    ensures l == queue[0] || l in queue[1..]
  {
    var i :| 0 <= i < |queue| && queue[i] == l;
    if i > 0 {
      assert queue[1..][i - 1] == l;
    }
  }

  /** A turn that does not throw keeps every followed link visited or queued, and every visited URL reported. */
  lemma TurnReachesLinks(st: CrawlState, maxPages: int, sameDomain: bool, startHost: string, web: Web)
    requires |st.queue| > 0 && LinksReached(st, sameDomain, startHost, web) && VisitedReported(st)
    ensures var t := CrawlTurn(st, maxPages, sameDomain, startHost, web);
      t.ok ==> LinksReached(t.st, sameDomain, startHost, web) && VisitedReported(t.st)
  {
    var t := CrawlTurn(st, maxPages, sameDomain, startHost, web);
    var url := st.queue[0];
    var rest := st.queue[1..];
    if !t.ok {
      return;
    }
    assert |t.st.progress| >= |st.progress| && t.st.progress[..|st.progress|] == st.progress;
    assert t.st.visited == st.visited + {Normalize(url)};
    assert rest == t.st.queue[..|rest|];
    forall k, l | 0 <= k < |t.st.progress| && l in LinksAt(t.st.progress[k], web) && Followed(l, sameDomain, startHost, web.hostname)
      ensures Normalize(l) in t.st.visited || l in t.st.queue
    {
      if k < |st.progress| {
        assert t.st.progress[k] == st.progress[k];
        if Normalize(l) !in st.visited {
          QueueFront(st.queue, l);
          if l != url {
            assert l in t.st.queue;
          }
        }
      } else {
        var f := web.pages[url];
        var visited := st.visited + {Normalize(url)};
        var links := PageLinks(f, web.resolve);
        assert t.st.progress[k] == CrawlProgress(|st.found|, maxPages, Some(url));
        if Normalize(l) !in visited {
          EnqueuedMembers(links, visited, sameDomain, startHost, web.hostname);
          assert l in Enqueued(links, visited, sameDomain, startHost, web.hostname);
        }
      }
    }
    forall v | v in t.st.visited
      ensures exists k :: 0 <= k < |t.st.progress| && t.st.progress[k].currentUrl.Some? &&
                          Normalize(t.st.progress[k].currentUrl.value) == v
    {
      if v in st.visited {
        var k :| 0 <= k < |st.progress| && st.progress[k].currentUrl.Some? && Normalize(st.progress[k].currentUrl.value) == v;
        assert t.st.progress[k] == st.progress[k];
      } else {
        assert t.st.progress[|st.progress|] == CrawlProgress(|st.found|, maxPages, Some(url));
      }
    }
  }

  /** The loop, ending normally, leaves every followed link of every fetched page visited or queued, and every visited URL reported. */
  lemma {:induction false} CrawlFromReachesLinks(st: CrawlState, maxPages: int, sameDomain: bool, startHost: string, web: Web)
    requires LinksReached(st, sameDomain, startHost, web) && VisitedReported(st)
    ensures var r := CrawlFrom(st, maxPages, sameDomain, startHost, web);
      r.ok ==> LinksReached(r.st, sameDomain, startHost, web) && VisitedReported(r.st)
    decreases |Unfetched(web, st.visited)|, |st.queue|
  {
    if |st.queue| > 0 && |st.found| < maxPages {
      var t := CrawlTurn(st, maxPages, sameDomain, startHost, web);
      TurnShrinks(st, maxPages, sameDomain, startHost, web);
      TurnReachesLinks(st, maxPages, sameDomain, startHost, web);
      if t.ok {
        CrawlFromReachesLinks(t.st, maxPages, sameDomain, startHost, web);
      }
    }
  }

  /** The pages `crawlUrl` returns are the kept pages of the URLs it reported, in report (breadth-first) order. */
  lemma CrawlPagesInReportOrder(startUrl: string, options: CrawlOptions, web: Web)
    ensures var c := Crawl(startUrl, options, web);
      c.pages.Some? ==> |c.progress| >= 1 && c.pages.value == KeptPages(AllButLast(c.progress), web)
  {
    var startHost := Get(web.hostname, startUrl);
    if startHost.Some? {
      var init := CrawlState([], {}, [startUrl], []);
      CrawlFromKeepsPages(init, options.maxPages.GetOr(MaxPagesDefault), options.sameDomain.GetOr(true), startHost.value, web);
      var r := CrawlFrom(init, options.maxPages.GetOr(MaxPagesDefault), options.sameDomain.GetOr(true), startHost.value, web);
      assert AllButLast(r.st.progress + [CrawlProgress(|r.st.found|, |r.st.found|, None)]) == r.st.progress;
    }
  }

  /** `crawlUrl` throws only for a start URL that does not parse or a link, of the last page fetched, whose host does not parse. */
  lemma CrawlThrowsOnlyOnBadUrl(startUrl: string, options: CrawlOptions, web: Web)
    ensures var c := Crawl(startUrl, options, web);
      c.pages.None? ==> Get(web.hostname, startUrl).None? || ThrowsAt(c.progress, web)
  {
    var startHost := Get(web.hostname, startUrl);
    if startHost.Some? {
      CrawlFromThrows(CrawlState([], {}, [startUrl], []), options.maxPages.GetOr(MaxPagesDefault),
                      options.sameDomain.GetOr(true), startHost.value, web);
    }
  }

  /**
   * A crawl that ends with fewer than `maxPages` pages has run out of links: every
   * link of every fetched page that passes the domain test was itself reported, up
   * to the fragment.
   */
  lemma CrawlReachesAllLinks(startUrl: string, options: CrawlOptions, web: Web)
    requires Get(web.hostname, startUrl).Some?
    requires Crawl(startUrl, options, web).pages.Some?
    requires |Crawl(startUrl, options, web).pages.value| < options.maxPages.GetOr(MaxPagesDefault)
    ensures var reports := AllButLast(Crawl(startUrl, options, web).progress);
      forall k, l :: 0 <= k < |reports| && l in LinksAt(reports[k], web) &&
                     Followed(l, options.sameDomain.GetOr(true), Get(web.hostname, startUrl).value, web.hostname) ==>
        exists j :: 0 <= j < |reports| && reports[j].currentUrl.Some? && Normalize(reports[j].currentUrl.value) == Normalize(l)
  {
    var maxPages := options.maxPages.GetOr(MaxPagesDefault);
    var sameDomain := options.sameDomain.GetOr(true);
    var startHost := Get(web.hostname, startUrl).value;
    var init := CrawlState([], {}, [startUrl], []);
    CrawlFromStops(init, maxPages, sameDomain, startHost, web);
    CrawlFromReachesLinks(init, maxPages, sameDomain, startHost, web);
    var r := CrawlFrom(init, maxPages, sameDomain, startHost, web);
    assert AllButLast(r.st.progress + [CrawlProgress(|r.st.found|, |r.st.found|, None)]) == r.st.progress;
  }

  /** What the crawl loop keeps true. */
  ghost predicate CrawlInv(st: CrawlState, startUrl: string, maxPages: int, sameDomain: bool, startHost: string, web: Web) {
    && (|st.found| <= maxPages || st.found == [])
    && (forall k :: 0 <= k < |st.found| ==> |st.found[k].content| > MinPageContent)
    && FetchReports(st.progress, maxPages, sameDomain, startHost, web.hostname)
    && (forall k :: 0 <= k < |st.progress| ==> Normalize(st.progress[k].currentUrl.value) in st.visited)
    && (st.progress == [] ==> st.queue == [startUrl] || st.queue == [])
    && (|st.progress| >= 1 ==> st.progress[0].currentUrl == Some(startUrl))
    && (sameDomain ==> forall k :: 0 <= k < |st.queue| ==> Get(web.hostname, st.queue[k]) == Some(startHost))
  }

  /** Links appended to a queue whose URLs are all on the start host, for a same-domain crawl, keep it so. */
  lemma QueueStaysOnHost(queue: seq<string>, added: seq<string>, visited: set<string>,
                         sameDomain: bool, startHost: string, hostname: map<string, string>)
    requires sameDomain ==> forall k :: 0 <= k < |queue| ==> Get(hostname, queue[k]) == Some(startHost)
    requires forall k :: 0 <= k < |added| ==> Enqueueable(added[k], visited, sameDomain, startHost, hostname)
    ensures sameDomain ==> forall k :: 0 <= k < |queue + added| ==> Get(hostname, (queue + added)[k]) == Some(startHost)
  {
    if sameDomain {
      forall k | 0 <= k < |queue + added| ensures Get(hostname, (queue + added)[k]) == Some(startHost) {
        if k >= |queue| { assert (queue + added)[k] == added[k - |queue|]; }
      }
    }
  }

  /** Dropping an already visited URL from the front of the queue keeps the invariant. */
  lemma InvAfterSkip(st: CrawlState, startUrl: string, maxPages: int, sameDomain: bool, startHost: string, web: Web)
    requires CrawlInv(st, startUrl, maxPages, sameDomain, startHost, web)
    requires |st.queue| > 0 && Normalize(st.queue[0]) in st.visited
    ensures CrawlInv(st.(queue := st.queue[1..]), startUrl, maxPages, sameDomain, startHost, web)
  {
    if st.progress == [] {
      assert st.queue == [startUrl];
    }
  }

  /** Reporting the first URL of the queue, not yet visited, and marking it visited keeps the invariant. */
  lemma InvAfterReport(st: CrawlState, startUrl: string, maxPages: int, sameDomain: bool, startHost: string, web: Web)
    requires CrawlInv(st, startUrl, maxPages, sameDomain, startHost, web)
    requires |st.queue| > 0 && |st.found| < maxPages && Normalize(st.queue[0]) !in st.visited
    ensures var url := st.queue[0];
      CrawlInv(CrawlState(st.found, st.visited + {Normalize(url)}, st.queue[1..],
                          st.progress + [CrawlProgress(|st.found|, maxPages, Some(url))]),
               startUrl, maxPages, sameDomain, startHost, web)
  {
    var url := st.queue[0];
    var report := CrawlProgress(|st.found|, maxPages, Some(url));
    FetchReportsPush(st.progress, report, st.visited, maxPages, sameDomain, startHost, web.hostname);
    if st.progress == [] {
      assert st.queue == [startUrl];
    }
    var rest := st.queue[1..];
    if sameDomain {
      assert forall k :: 0 <= k < |rest| ==> rest[k] == st.queue[k + 1];
    }
  }

  /** Keeping the page of a fetched URL and queueing enqueueable links keeps the invariant. */
  lemma InvAfterFetch(st: CrawlState, page: Option<CrawledPage>, added: seq<string>,
                      startUrl: string, maxPages: int, sameDomain: bool, startHost: string, web: Web)
    requires CrawlInv(st, startUrl, maxPages, sameDomain, startHost, web)
    requires |st.progress| >= 1 && |st.found| < maxPages
    requires page.Some? ==> |page.value.content| > MinPageContent
    requires forall k :: 0 <= k < |added| ==> Enqueueable(added[k], st.visited, sameDomain, startHost, web.hostname)
    ensures var found := if page.Some? then st.found + [page.value] else st.found;
      CrawlInv(CrawlState(found, st.visited, st.queue + added, st.progress), startUrl, maxPages, sameDomain, startHost, web)
  {
    QueueStaysOnHost(st.queue, added, st.visited, sameDomain, startHost, web.hostname);
  }

  /**
   * One turn of the crawl loop: take the first URL of the queue; unless visited,
   * report it, fetch it, keep its page and queue its links. `ok` is false when a link
   * does not parse, which ends the crawl with an error.
   */
  method CrawlStep(st: CrawlState, startUrl: string, maxPages: int, sameDomain: bool, startHost: string, web: Web)
    returns (st': CrawlState, ok: bool)
    requires CrawlInv(st, startUrl, maxPages, sameDomain, startHost, web)
    requires |st.queue| > 0 && |st.found| < maxPages
    ensures Turn(st', ok) == CrawlTurn(st, maxPages, sameDomain, startHost, web)
    ensures FetchReports(st'.progress, maxPages, sameDomain, startHost, web.hostname)
    ensures |st'.progress| >= 1 ==> st'.progress[0].currentUrl == Some(startUrl)
    ensures ok ==> CrawlInv(st', startUrl, maxPages, sameDomain, startHost, web)
  {
    var url := st.queue[0];
    var normalizedUrl := Normalize(url);
    if normalizedUrl in st.visited {
      InvAfterSkip(st, startUrl, maxPages, sameDomain, startHost, web);
      return st.(queue := st.queue[1..]), true;
    }
    InvAfterReport(st, startUrl, maxPages, sameDomain, startHost, web);
    var reported := CrawlState(st.found, st.visited + {normalizedUrl}, st.queue[1..],
                               st.progress + [CrawlProgress(|st.found|, maxPages, Some(url))]);
    if url !in web.pages {
      return reported, true;
    }
    var f := web.pages[url];
    var page := VisitPage(f, url, web.reader);
    PageOfKept(f, Get(web.reader, url));
    var links := ExtractLinks(f.hrefs, f.finalUrl, web.resolve);
    var queue', linksOk := EnqueueLinks(links, reported.visited, reported.queue, sameDomain, startHost, web.hostname);
    var found := if page.Some? then st.found + [page.value] else st.found;
    if !linksOk {
      return CrawlState(found, reported.visited, reported.queue, reported.progress), false;
    }
    st' := CrawlState(found, reported.visited, queue', reported.progress);
    EnqueuedMembers(links, reported.visited, sameDomain, startHost, web.hostname);
    InvAfterFetch(reported, page, Enqueued(links, reported.visited, sameDomain, startHost, web.hostname),
                  startUrl, maxPages, sameDomain, startHost, web);
    ok := true;
  }

  /** The reports before each fetch of a crawl from `startUrl`: as `FetchReports` says, the first one naming `startUrl`. */
  ghost predicate CrawlReports(startUrl: string, options: CrawlOptions, web: Web, reports: seq<CrawlProgress>)
    requires Get(web.hostname, startUrl).Some?
  {
    && FetchReports(reports, options.maxPages.GetOr(MaxPagesDefault), options.sameDomain.GetOr(true),
                    Get(web.hostname, startUrl).value, web.hostname)
    && (|reports| >= 1 ==> reports[0].currentUrl == Some(startUrl))
  }

  /** What a finished crawl loop gives, read off the invariant. */
  lemma CrawlFinished(st: CrawlState, startUrl: string, options: CrawlOptions, web: Web)
    requires Get(web.hostname, startUrl).Some?
    requires CrawlInv(st, startUrl, options.maxPages.GetOr(MaxPagesDefault), options.sameDomain.GetOr(true),
                      Get(web.hostname, startUrl).value, web)
    ensures |st.found| <= options.maxPages.GetOr(MaxPagesDefault) || st.found == []
    ensures forall k :: 0 <= k < |st.found| ==> |st.found[k].content| > MinPageContent
    ensures CrawlReports(startUrl, options, web, st.progress)
  {
  }

  /**
   * `crawlUrl(startUrl, options)`: breadth-first from `startUrl`, taking URLs from the
   * front of the queue, skipping those whose fragment-free form was visited, until
   * the queue is empty or `maxPages` pages are kept. `progress` is the sequence of
   * reports passed to `onProgress`; `None` is a crawl that throws because a URL does
   * not parse.
   */
  method CrawlUrl(startUrl: string, options: CrawlOptions, web: Web)
    returns (pages: Option<seq<CrawledPage>>, progress: seq<CrawlProgress>)
    ensures CrawlOutcome(pages, progress) == Crawl(startUrl, options, web)
    ensures Get(web.hostname, startUrl).None? ==> pages.None? && progress == []
    ensures pages.None? && Get(web.hostname, startUrl).Some? ==> CrawlReports(startUrl, options, web, progress)
    ensures pages.Some? ==>
      && Get(web.hostname, startUrl).Some?
      && (|pages.value| <= options.maxPages.GetOr(MaxPagesDefault) || pages.value == [])
      && (forall k :: 0 <= k < |pages.value| ==> |pages.value[k].content| > MinPageContent)
      && |progress| >= 1
      && Last(progress) == CrawlProgress(|pages.value|, |pages.value|, None)
      && CrawlReports(startUrl, options, web, AllButLast(progress))
  {
    var maxPages := options.maxPages.GetOr(MaxPagesDefault);
    var sameDomain := options.sameDomain.GetOr(true);
    progress := [];
    var startHostParsed := Get(web.hostname, startUrl);
    if startHostParsed.None? {
      return None, progress;
    }
    var startHost := startHostParsed.value;
    var st := CrawlState([], {}, [startUrl], []);
    ghost var init := st;
    while |st.queue| > 0 && |st.found| < maxPages
      invariant CrawlInv(st, startUrl, maxPages, sameDomain, startHost, web)
      invariant CrawlFrom(st, maxPages, sameDomain, startHost, web) == CrawlFrom(init, maxPages, sameDomain, startHost, web)
      decreases |Unfetched(web, st.visited)|, |st.queue|
    {
      TurnShrinks(st, maxPages, sameDomain, startHost, web);
      var ok;
      st, ok := CrawlStep(st, startUrl, maxPages, sameDomain, startHost, web);
      if !ok {
        return None, st.progress;
      }
    }
    CrawlFinished(st, startUrl, options, web);
    progress := st.progress + [CrawlProgress(|st.found|, |st.found|, None)];
    assert AllButLast(progress) == st.progress;
    pages := Some(st.found);
  }

  // ================================================================ indexing

  /** `prepareForIndexing`'s options; an absent or zero setting falls back to the default. */
  datatype PrepareOptions = PrepareOptions(chunkSize: Option<int>, chunkOverlap: Option<int>)

  /** One chunk ready to embed: where it came from and its place among its page's chunks. */
  datatype IndexableChunk = IndexableChunk(url: string, title: string, content: string, chunkIndex: nat, totalChunks: nat)

  /** JavaScript's `value || fallback` on an optional number: 0 and absence both give the fallback. */
  function OrDefault(value: Option<int>, fallback: int): int {
    if value.Some? && value.value != 0 then value.value else fallback
  }

  function EffectiveChunkSize(options: PrepareOptions): int {
    OrDefault(options.chunkSize, ChunkSizeDefault)
  }

  function EffectiveOverlap(options: PrepareOptions): int {
    OrDefault(options.chunkOverlap, ChunkOverlapDefault)
  }

  /** The settings under which `chunkText` terminates: a positive size and an overlap of at most half of it. */
  predicate ChunkingTerminates(chunkSize: int, overlap: int) {
    chunkSize >= 1 && overlap >= 0 && 2 * overlap <= chunkSize
  }

  /** The records for one page's chunk texts, numbered from 0. */
  function PageChunks(page: CrawledPage, texts: seq<string>): seq<IndexableChunk> {
    seq(|texts|, i requires 0 <= i < |texts| => IndexableChunk(page.url, page.title, texts[i], i, |texts|))
  }

  /** What `prepareForIndexing(pages, options)` returns, with the effective settings. */
  function Indexable(pages: seq<CrawledPage>, chunkSize: nat, overlap: nat): seq<IndexableChunk>
    requires ChunkingTerminates(chunkSize, overlap)
  {
    if pages == [] then []
    else Indexable(AllButLast(pages), chunkSize, overlap) + PageChunks(Last(pages), Chunks(Last(pages).content, chunkSize, overlap))
  }

  /** Preparing two lists of pages one after the other gives the two results one after the other. */
  lemma {:induction false} IndexableAppend(p: seq<CrawledPage>, q: seq<CrawledPage>, chunkSize: nat, overlap: nat)
    requires ChunkingTerminates(chunkSize, overlap)
    ensures Indexable(p + q, chunkSize, overlap) == Indexable(p, chunkSize, overlap) + Indexable(q, chunkSize, overlap)
    decreases |q|
  {
    if q == [] {
      assert p + q == p;
    } else {
      var q', x := AllButLast(q), Last(q);
      var mine := PageChunks(x, Chunks(x.content, chunkSize, overlap));
      ConcatEnds(p, q);
      assert Indexable(p + q, chunkSize, overlap) == Indexable(p + q', chunkSize, overlap) + mine;
      IndexableAppend(p, q', chunkSize, overlap);
      ConcatAssoc(Indexable(p, chunkSize, overlap), Indexable(q', chunkSize, overlap), mine);
    }
  }

  /**
   * Page by page, in order: the chunks of page `k` come after those of all earlier pages
   * and before those of all later ones, numbered 0..n-1 out of n, with the page's url and title.
   */
  lemma IndexablePerPage(pages: seq<CrawledPage>, chunkSize: nat, overlap: nat, k: nat)
    requires ChunkingTerminates(chunkSize, overlap) && k < |pages|
    ensures var texts := Chunks(pages[k].content, chunkSize, overlap);
      Indexable(pages, chunkSize, overlap)
      == Indexable(pages[..k], chunkSize, overlap) + PageChunks(pages[k], texts) + Indexable(pages[k + 1..], chunkSize, overlap)
    ensures var mine := PageChunks(pages[k], Chunks(pages[k].content, chunkSize, overlap));
      forall i :: 0 <= i < |mine| ==>
        mine[i].chunkIndex == i && mine[i].totalChunks == |mine| &&
        mine[i].url == pages[k].url && mine[i].title == pages[k].title && |mine[i].content| > MinChunkLength
  {
    assert pages == (pages[..k] + [pages[k]]) + pages[k + 1..];
    IndexableAppend(pages[..k] + [pages[k]], pages[k + 1..], chunkSize, overlap);
    IndexableAppend(pages[..k], [pages[k]], chunkSize, overlap);
  }

  /**
   * `prepareForIndexing`: each page is chunked with the effective settings, and its chunks
   * are numbered in order.
   */
  method PrepareForIndexing(pages: seq<CrawledPage>, options: PrepareOptions) returns (chunks: seq<IndexableChunk>)
    requires ChunkingTerminates(EffectiveChunkSize(options), EffectiveOverlap(options))
    ensures chunks == Indexable(pages, EffectiveChunkSize(options), EffectiveOverlap(options))
  {
    var chunkSize: nat := EffectiveChunkSize(options);
    var overlap: nat := EffectiveOverlap(options);
    chunks := [];
    for p := 0 to |pages|
      invariant chunks == Indexable(pages[..p], chunkSize, overlap)
    {
      var textChunks := ChunkText(pages[p].content, chunkSize, overlap);
      chunks := PushPageChunks(chunks, pages[p], textChunks);
      assert AllButLast(pages[..p + 1]) == pages[..p];
    }
    assert pages[..|pages|] == pages;
  }

  /** The inner loop of `prepareForIndexing`: one record per chunk text, pushed in order. */
  method PushPageChunks(chunks: seq<IndexableChunk>, page: CrawledPage, textChunks: seq<string>)
    returns (chunks': seq<IndexableChunk>)
    ensures chunks' == chunks + PageChunks(page, textChunks)
  {
    chunks' := chunks;
    for i := 0 to |textChunks|
      invariant chunks' == chunks + PageChunks(page, textChunks)[..i]
    {
      chunks' := chunks' + [IndexableChunk(page.url, page.title, textChunks[i], i, |textChunks|)];
      assert PageChunks(page, textChunks)[..i + 1] == PageChunks(page, textChunks)[..i] + [PageChunks(page, textChunks)[i]];
    }
    assert PageChunks(page, textChunks)[..|textChunks|] == PageChunks(page, textChunks);
  }
}
