/**
 * The chunk table of frontend/lib/db.ts, held in memory: batched inserts, the prefix
 * delete with its LIKE-pattern escaping, and the nearest-neighbour search. SQL is modelled
 * by what each statement does to the rows; PostgreSQL's LIKE matching is written out.
 */
module Db {
  import opened Strings

  /** A chunk as `insertChunksBatch` receives it. */
  datatype NewChunk = NewChunk(url: string, title: string, content: string, embedding: seq<real>)

  /** A row of the `chunks` table. */
  datatype ChunkRow = ChunkRow(pipelineId: string, url: string, title: string, content: string, embedding: seq<real>)

  const BatchSize: nat := 100

  /** The rows one `INSERT ... SELECT unnest(...)` adds for a batch, in batch order. */
  function RowsOf(pipelineId: string, batch: seq<NewChunk>): seq<ChunkRow> {
    seq(|batch|, i requires 0 <= i < |batch| =>
      ChunkRow(pipelineId, batch[i].url, batch[i].title, batch[i].content, batch[i].embedding))
  }

  lemma RowsOfAppend(pipelineId: string, a: seq<NewChunk>, b: seq<NewChunk>)
    ensures RowsOf(pipelineId, a + b) == RowsOf(pipelineId, a) + RowsOf(pipelineId, b)
  {
  }

  // ================================================================ LIKE patterns

  /** The characters LIKE treats specially: the two wildcards and the escape character. */
  predicate LikeSpecial(c: char) {
    c == '%' || c == '_' || c == '\\'
  }

  /** `url.replace(/[%_\\]/g, '\\$&')`: a backslash before every special character. */
  function EscapeLike(url: string): (r: string)
    ensures |r| >= |url|
  {
    if url == [] then []
    else (if LikeSpecial(url[0]) then ['\\', url[0]] else [url[0]]) + EscapeLike(url[1..])
  }

  /** Reads an escaped pattern back: a backslash stands for the character after it. */
  function UnescapeLike(p: string): string {
    if p == [] then []
    else if p[0] == '\\' && |p| >= 2 then [p[1]] + UnescapeLike(p[2..])
    else [p[0]] + UnescapeLike(p[1..])
  }

  /**
   * PostgreSQL's `s LIKE p` with the default escape character: `%` matches any run of
   * characters, `_` any one character, a backslash makes the next character literal, and
   * every other character matches itself. A pattern that ends in a lone backslash is an
   * error in PostgreSQL; here it matches nothing.
   */
  predicate Like(s: string, p: string)
    decreases |s| + |p|
  {
    if p == [] then s == []
    else if p[0] == '\\' then |p| >= 2 && s != [] && s[0] == p[1] && Like(s[1..], p[2..])
    else if p[0] == '%' then Like(s, p[1..]) || (s != [] && Like(s[1..], p))
    else if p[0] == '_' then s != [] && Like(s[1..], p[1..])
    else s != [] && s[0] == p[0] && Like(s[1..], p[1..])
  }

  /** Escaping then unescaping gives the URL back. */
  lemma {:induction false} UnescapeEscapeLike(url: string)
    ensures UnescapeLike(EscapeLike(url)) == url
  {
    if url != [] {
      UnescapeEscapeLike(url[1..]);
      var head := if LikeSpecial(url[0]) then ['\\', url[0]] else [url[0]];
      var e := head + EscapeLike(url[1..]);
      if LikeSpecial(url[0]) {
        assert e[2..] == EscapeLike(url[1..]);
      } else {
        assert e[1..] == EscapeLike(url[1..]);
      }
      assert url == [url[0]] + url[1..];
    }
  }

  /** A URL without special characters is its own escape. */
  lemma {:induction false} EscapeLikePlain(url: string)
    requires forall i :: 0 <= i < |url| ==> !LikeSpecial(url[i])
    ensures EscapeLike(url) == url
  {
    if url != [] {
      EscapeLikePlain(url[1..]);
    }
  }

  /** A trailing `%` matches whatever is left. */
  lemma {:induction false} LikeAnyRest(s: string)
    ensures Like(s, "%")
    decreases |s|
  {
    if s != [] {
      LikeAnyRest(s[1..]);
    }
  }

  /**
   * The pattern `deleteByUrl` builds matches exactly the URLs that start with the given
   * one: escaping keeps `%`, `_` and backslashes in the URL from acting as wildcards.
   */
  lemma {:induction false} EscapedPrefixMatches(s: string, url: string)
    ensures Like(s, EscapeLike(url) + "%") <==> StartsWith(s, url)
    decreases |url|
  {
    if url == [] {
      assert EscapeLike(url) + "%" == "%";
      LikeAnyRest(s);
    } else {
      EscapedHead(s, url);
      if s != [] {
        EscapedPrefixMatches(s[1..], url[1..]);
        StartsWithHead(s, url);
      }
    }
  }

  /** The escaped URL's first character (with its backslash, if any) matches only that character. */
  lemma EscapedHead(s: string, url: string)
    requires url != []
    ensures Like(s, EscapeLike(url) + "%") <==> s != [] && s[0] == url[0] && Like(s[1..], EscapeLike(url[1..]) + "%")
  {
    var rest := EscapeLike(url[1..]) + "%";
    if LikeSpecial(url[0]) {
      var p := ['\\', url[0]] + rest;
      assert EscapeLike(url) + "%" == p;
      assert p[2..] == rest;
    } else {
      var p := [url[0]] + rest;
      assert EscapeLike(url) + "%" == p;
      assert p[1..] == rest;
    }
  }

  lemma StartsWithHead(s: string, p: string)
    requires s != [] && p != []
    ensures StartsWith(s, p) <==> s[0] == p[0] && StartsWith(s[1..], p[1..])
  {
    if |p| <= |s| {
      assert s[..|p|] == [s[0]] + s[1..][..|p| - 1];
      assert p == [p[0]] + p[1..];
    }
  }

  // ================================================================ the table

  /** Whether `DELETE ... WHERE pipeline_id = ... AND url LIKE pattern` removes the row. */
  predicate Deleted(row: ChunkRow, pipelineId: string, pattern: string) {
    row.pipelineId == pipelineId && Like(row.url, pattern)
  }

  /** The rows that survive the delete, in their order. */
  function Surviving(rows: seq<ChunkRow>, pipelineId: string, pattern: string): (r: seq<ChunkRow>)
    ensures |r| <= |rows|
  {
    if rows == [] then []
    else
      var kept := if Deleted(Last(rows), pipelineId, pattern) then [] else [Last(rows)];
      Surviving(AllButLast(rows), pipelineId, pattern) + kept
  }

  /** The rows of one pipeline, in table order. */
  function OfPipeline(rows: seq<ChunkRow>, pipelineId: string): (r: seq<ChunkRow>)
    ensures |r| <= |rows|
  {
    if rows == [] then []
    else OfPipeline(AllButLast(rows), pipelineId) + (if Last(rows).pipelineId == pipelineId then [Last(rows)] else [])
  }

  /** The surviving rows are exactly the rows not of the pipeline or not under the URL. */
  lemma {:induction false} SurvivingByPrefix(rows: seq<ChunkRow>, pipelineId: string, url: string)
    ensures forall x :: x in Surviving(rows, pipelineId, EscapeLike(url) + "%") <==>
      x in rows && !(x.pipelineId == pipelineId && StartsWith(x.url, url))
  {
    var pattern := EscapeLike(url) + "%";
    if rows != [] {
      SurvivingByPrefix(AllButLast(rows), pipelineId, url);
      EscapedPrefixMatches(Last(rows).url, url);
      assert rows == AllButLast(rows) + [Last(rows)];
      forall x
        ensures x in Surviving(rows, pipelineId, pattern) <==>
          x in rows && !(x.pipelineId == pipelineId && StartsWith(x.url, url))
      {
        EscapedPrefixMatches(x.url, url);
      }
    }
  }

  /** The pipeline's rows are exactly the rows with its id. */
  lemma {:induction false} OfPipelineMembers(rows: seq<ChunkRow>, pipelineId: string)
    ensures forall x :: x in OfPipeline(rows, pipelineId) <==> x in rows && x.pipelineId == pipelineId
  {
    if rows != [] {
      OfPipelineMembers(AllButLast(rows), pipelineId);
      assert rows == AllButLast(rows) + [Last(rows)];
    }
  }

  /** The positions of the pipeline's rows: what `COUNT(*) ... WHERE pipeline_id = $1` counts. */
  ghost function PipelineRowIndices(rows: seq<ChunkRow>, pipelineId: string): set<int> {
    set k | 0 <= k < |rows| && rows[k].pipelineId == pipelineId
  }

  /** Filtering by pipeline keeps one row per matching position. */
  lemma {:induction false} OfPipelineCount(rows: seq<ChunkRow>, pipelineId: string)
    ensures |OfPipeline(rows, pipelineId)| == |PipelineRowIndices(rows, pipelineId)|
    decreases |rows|
  {
    if rows != [] {
      var init := AllButLast(rows);
      OfPipelineCount(init, pipelineId);
      var last := |rows| - 1;
      var before := PipelineRowIndices(init, pipelineId);
      assert forall k :: 0 <= k < |init| ==> init[k] == rows[k];
      if rows[last].pipelineId == pipelineId {
        assert PipelineRowIndices(rows, pipelineId) == before + {last};
        assert last !in before;
      } else {
        assert PipelineRowIndices(rows, pipelineId) == before;
      }
    }
  }

  /** The chunk table and the statements of the model that change or read it. */
  class ChunkTable {
    var rows: seq<ChunkRow>

    constructor()
      ensures rows == []
    {
      rows := [];
    }

    /**
     * `insertChunksBatch`: nothing for an empty list; otherwise consecutive batches of 100
     * (the last one shorter), inserted in order. Returns the batches it sent.
     */
    method InsertChunksBatch(pipelineId: string, chunks: seq<NewChunk>) returns (batches: seq<seq<NewChunk>>)
      modifies this
      ensures rows == old(rows) + RowsOf(pipelineId, chunks)
      ensures Concat(batches) == chunks
      ensures chunks == [] ==> batches == []
      ensures forall k :: 0 <= k < |batches| ==> 1 <= |batches[k]| <= BatchSize
      ensures forall k :: 0 <= k < |batches| - 1 ==> |batches[k]| == BatchSize
    {
      batches := [];
      if |chunks| == 0 {
        return;
      }
      var i := 0;
      while i < |chunks|
        invariant i <= |chunks| && i == BatchSize * |batches|
        invariant Concat(batches) == chunks[..i]
        invariant rows == old(rows) + RowsOf(pipelineId, chunks[..i])
        invariant forall k :: 0 <= k < |batches| ==> |batches[k]| == BatchSize
        decreases |chunks| - i
      {
        var j := Min(i + BatchSize, |chunks|);
        var batch := chunks[i..j];
        rows := rows + RowsOf(pipelineId, batch);
        assert chunks[..j] == chunks[..i] + batch;
        RowsOfAppend(pipelineId, chunks[..i], batch);
        ConcatSnoc(batches, batch);
        batches := batches + [batch];
        i := i + BatchSize;
        if j == |chunks| {
          assert chunks[..j] == chunks;
          return;
        }
      }
    }

    /**
     * `deleteByUrl`: removes the pipeline's rows whose url matches the escaped URL
     * followed by `%` (by `EscapedPrefixMatches`, those that start with the URL), keeps
     * every other row in order, and returns how many it removed.
     */
    method DeleteByUrl(pipelineId: string, url: string) returns (count: nat)
      modifies this
      ensures rows == Surviving(old(rows), pipelineId, EscapeLike(url) + "%")
      ensures count == |old(rows)| - |rows|
      ensures forall x :: x in rows <==> x in old(rows) && !(x.pipelineId == pipelineId && StartsWith(x.url, url))
    {
      var pattern := EscapeLike(url) + "%";
      var kept: seq<ChunkRow> := [];
      count := 0;
      for i := 0 to |rows|
        invariant kept == Surviving(rows[..i], pipelineId, pattern)
        invariant count == i - |kept|
      {
        if !Deleted(rows[i], pipelineId, pattern) {
          kept := kept + [rows[i]];
        } else {
          count := count + 1;
        }
        assert AllButLast(rows[..i + 1]) == rows[..i];
      }
      assert rows[..|rows|] == rows;
      SurvivingByPrefix(rows, pipelineId, url);
      rows := kept;
    }

    /**
     * `searchChunks`: at most `limit` rows of the pipeline, nearest first. `nearestFirst`
     * is the table ordered by the vector distance to the query, which pgvector computes.
     */
    function SearchChunks(pipelineId: string, nearestFirst: seq<ChunkRow>, limit: nat): (r: seq<ChunkRow>)
      reads this
      requires multiset(nearestFirst) == multiset(rows)
      ensures |r| <= limit
      ensures forall x :: x in r ==> x in rows && x.pipelineId == pipelineId
    {
      var candidates := OfPipeline(nearestFirst, pipelineId);
      OfPipelineMembers(nearestFirst, pipelineId);
      assert forall x :: x in nearestFirst ==> x in multiset(rows);
      var r := Take(candidates, limit);
      assert forall x :: x in r ==> x in candidates;
      r
    }

    /** `getTotalChunks`: the number of the pipeline's rows. */
    function TotalChunks(pipelineId: string): (n: nat)
      reads this
      ensures n <= |rows|
      ensures n == |PipelineRowIndices(rows, pipelineId)|
    {
      OfPipelineCount(rows, pipelineId);
      |OfPipeline(rows, pipelineId)|
    }
  }
}
