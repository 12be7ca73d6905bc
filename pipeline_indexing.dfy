/**
 * The client-side indexing state of a pipeline page (frontend/hooks/use-pipeline-indexing.ts):
 * status polling with exponential back-off and an error budget, progress polling with its
 * not-found retry counter, and the outcome handling of `startIndexing`. React's state
 * setters become field updates of one object; timers, effects and the network are left
 * to the caller, which passes in what each request returned.
 */
module PipelineIndexing {
  import opened Wrappers
  import opened Strings
  import opened PipelineStatus

  /** Defaults of frontend/lib/constants/polling.ts. */
  const PollIntervalIndexingMs: nat := 2000
  const PollIntervalIdleMs: nat := 5000
  const PollMaxIntervalMs: nat := 60000
  const MaxPollErrors: nat := 5
  const MaxNotFoundRetries: nat := 5
  const ProgressClearDelayMs: nat := 2000
  const ErrorClearDelayMs: nat := 3000

  const IndexingFailed: string := "Indexing failed"
  const FailedToIndexUrl: string := "Failed to index URL"

  datatype StatusConfig = StatusConfig(
    enabled: bool, idleIntervalMs: nat, indexingIntervalMs: nat,
    useBackoff: bool, maxIntervalMs: nat, maxErrors: int)

  datatype ProgressConfig = ProgressConfig(
    enabled: bool, intervalMs: nat, maxNotFoundRetries: int,
    progressClearDelayMs: nat, errorClearDelayMs: nat)

  /** The caller's status-polling options; an absent option keeps its default. */
  datatype StatusPollingOptions = StatusPollingOptions(
    enabled: Option<bool>, idleIntervalMs: Option<nat>, indexingIntervalMs: Option<nat>,
    useBackoff: Option<bool>, maxIntervalMs: Option<nat>, maxErrors: Option<int>)

  datatype ProgressPollingOptions = ProgressPollingOptions(
    enabled: Option<bool>, intervalMs: Option<nat>, maxNotFoundRetries: Option<int>,
    progressClearDelayMs: Option<nat>, errorClearDelayMs: Option<nat>)

  /** `{ defaults..., ...statusPolling }` */
  function StatusConfigOf(o: StatusPollingOptions): StatusConfig {
    StatusConfig(o.enabled.GetOr(true), o.idleIntervalMs.GetOr(PollIntervalIdleMs),
      o.indexingIntervalMs.GetOr(PollIntervalIndexingMs), o.useBackoff.GetOr(true),
      o.maxIntervalMs.GetOr(PollMaxIntervalMs), o.maxErrors.GetOr(MaxPollErrors))
  }

  /** `{ defaults..., ...progressPolling }` */
  function ProgressConfigOf(o: ProgressPollingOptions): ProgressConfig {
    ProgressConfig(o.enabled.GetOr(true), o.intervalMs.GetOr(PollIntervalIndexingMs),
      o.maxNotFoundRetries.GetOr(MaxNotFoundRetries), o.progressClearDelayMs.GetOr(ProgressClearDelayMs),
      o.errorClearDelayMs.GetOr(ErrorClearDelayMs))
  }

  datatype IndexedUrl = IndexedUrl(url: string, chunkCount: int)

  /** What the status endpoint returned; a field it left out is `None`. */
  datatype IndexStatus = IndexStatus(indexedUrls: Option<seq<IndexedUrl>>, totalChunks: Option<int>)

  /** What `indexUrlForPipeline` returned. */
  datatype IndexResult = IndexResult(status: string, message: Option<string>)

  /** `message || fallback` */
  function MessageOr(message: Option<string>, fallback: string): (r: string)
    ensures r == fallback || (message.Some? && r == message.value)
    ensures r == [] ==> fallback == []
  {
    if message.Some? && message.value != "" then message.value else fallback
  }

  // ================================================================ status polling

  function Pow2(n: nat): (r: nat)
    ensures r >= 1
  {
    if n == 0 then 1 else 2 * Pow2(n - 1)
  }

  /** The interval the status poll is scheduled at (lines 118-121). */
  function PollInterval(config: StatusConfig, isIndexing: bool, pollErrorCount: nat): nat {
    var base := if isIndexing then config.indexingIntervalMs else config.idleIntervalMs;
    if config.useBackoff then Min(base * Pow2(pollErrorCount), config.maxIntervalMs) else base
  }

  /** Whether the status-polling effect runs at all (lines 112-113). */
  predicate StatusPollingActive(config: StatusConfig, pipelineId: string, pollErrorCount: nat) {
    config.enabled && pipelineId != "" && !(config.useBackoff && pollErrorCount >= config.maxErrors)
  }

  /**
   * With back-off the interval never exceeds the maximum, starts at the base interval
   * (capped), and doubles with each error until it reaches the cap; without back-off it
   * is the base interval. The base is the indexing interval while indexing.
   */
  lemma PollIntervalBackoff(config: StatusConfig, isIndexing: bool, errors: nat)
    ensures var base := if isIndexing then config.indexingIntervalMs else config.idleIntervalMs;
      var r := PollInterval(config, isIndexing, errors);
      (config.useBackoff ==> r <= config.maxIntervalMs) &&
      (!config.useBackoff ==> r == base) &&
      (config.useBackoff && errors == 0 ==> r == Min(base, config.maxIntervalMs)) &&
      (config.useBackoff ==>
        PollInterval(config, isIndexing, errors + 1) == Min(2 * r, config.maxIntervalMs))
  {
    var base := if isIndexing then config.indexingIntervalMs else config.idleIntervalMs;
    assert base * Pow2(errors + 1) == 2 * (base * Pow2(errors));
  }

  /** More errors never shorten the interval. */
  lemma {:induction false} PollIntervalMonotone(config: StatusConfig, isIndexing: bool, fewer: nat, more: nat)
    requires fewer <= more
    ensures PollInterval(config, isIndexing, fewer) <= PollInterval(config, isIndexing, more)
    decreases more - fewer
  {
    if fewer < more {
      PollIntervalMonotone(config, isIndexing, fewer + 1, more);
      PollIntervalBackoff(config, isIndexing, fewer);
    }
  }

  /** Once the error budget is spent, status polling stays off until a fetch succeeds. */
  lemma StatusPollingStops(config: StatusConfig, pipelineId: string, pollErrorCount: nat)
    requires config.useBackoff && pollErrorCount >= config.maxErrors
    ensures !StatusPollingActive(config, pipelineId, pollErrorCount)
    ensures !StatusPollingActive(config, pipelineId, pollErrorCount + 1)
  {
  }

  // ================================================================ the hook's state

  class IndexingHook {
    const pipelineId: string
    const clearIndexingOnResponse: bool
    const statusConfig: StatusConfig
    const progressConfig: ProgressConfig

    var indexedUrls: seq<IndexedUrl>
    var totalChunks: int
    var isIndexing: bool
    var indexingUrl: Option<string>
    var indexingProgress: Option<IndexProgress>
    var error: Option<string>
    var pollErrorCount: nat
    /** The progress effect's local `notFoundCount`; it starts again at 0 with each indexing run. */
    var notFoundCount: nat
    /** The delay of the pending `setIndexingProgress(null)` timer, if one was set. */
    var progressClearDelay: Option<nat>
    /** How many status refreshes the hook asked for from outside the status poll. */
    var statusRefreshes: nat

    /** `isIndexing` and `indexingUrl` are always set and cleared together. */
    ghost predicate Valid()
      reads this
    {
      (isIndexing <==> indexingUrl.Some?) &&
      (!statusConfig.useBackoff ==> pollErrorCount == 0)
    }

    constructor(pipelineId: string, clearIndexingOnResponse: bool,
                statusPolling: StatusPollingOptions, progressPolling: ProgressPollingOptions)
      ensures Valid()
      ensures this.pipelineId == pipelineId && this.clearIndexingOnResponse == clearIndexingOnResponse
      ensures statusConfig == StatusConfigOf(statusPolling) && progressConfig == ProgressConfigOf(progressPolling)
      ensures indexedUrls == [] && totalChunks == 0 && !isIndexing && indexingUrl.None?
      ensures indexingProgress.None? && error.None? && pollErrorCount == 0
      ensures notFoundCount == 0 && progressClearDelay.None? && statusRefreshes == 0
    {
      this.pipelineId := pipelineId;
      this.clearIndexingOnResponse := clearIndexingOnResponse;
      statusConfig := StatusConfigOf(statusPolling);
      progressConfig := ProgressConfigOf(progressPolling);
      indexedUrls := [];
      totalChunks := 0;
      isIndexing := false;
      indexingUrl := None;
      indexingProgress := None;
      error := None;
      pollErrorCount := 0;
      notFoundCount := 0;
      progressClearDelay := None;
      statusRefreshes := 0;
    }

    /**
     * `fetchStatus`, given what the status request returned (`None`: it threw). A success
     * resets the error count and a failure adds one to it, both only with back-off on.
     */
    method FetchStatus(response: Option<IndexStatus>)
      requires Valid()
      modifies this
      ensures Valid()
      ensures pipelineId == "" ==> unchanged(this)
      ensures pipelineId != "" && response.Some? ==>
        indexedUrls == response.value.indexedUrls.GetOr([]) &&
        totalChunks == (if response.value.totalChunks.GetOr(0) != 0 then response.value.totalChunks.value else 0) &&
        pollErrorCount == (if statusConfig.useBackoff then 0 else old(pollErrorCount))
      ensures pipelineId != "" && response.None? ==>
        indexedUrls == old(indexedUrls) && totalChunks == old(totalChunks) &&
        pollErrorCount == (if statusConfig.useBackoff then old(pollErrorCount) + 1 else old(pollErrorCount))
      ensures isIndexing == old(isIndexing) && indexingUrl == old(indexingUrl) && error == old(error)
      ensures indexingProgress == old(indexingProgress) && notFoundCount == old(notFoundCount)
      ensures progressClearDelay == old(progressClearDelay) && statusRefreshes == old(statusRefreshes)
    {
      if pipelineId == "" {
        return;
      }
      match response
      case Some(status) =>
        indexedUrls := status.indexedUrls.GetOr([]);
        totalChunks := if status.totalChunks.GetOr(0) != 0 then status.totalChunks.value else 0;
        if statusConfig.useBackoff {
          pollErrorCount := 0;
        }
      case None =>
        if statusConfig.useBackoff {
          pollErrorCount := pollErrorCount + 1;
        }
    }

    /** Whether the progress-polling effect runs (line 138). */
    predicate ProgressPollingActive()
      reads this
    {
      progressConfig.enabled && isIndexing && indexingUrl.Some? && indexingUrl.value != "" && pipelineId != ""
    }

    /** Ends the indexing run: `setIsIndexing(false); setIndexingUrl(null)`. */
    method StopIndexing()
      modifies this
      ensures !isIndexing && indexingUrl.None?
      ensures indexedUrls == old(indexedUrls) && totalChunks == old(totalChunks) && error == old(error)
      ensures indexingProgress == old(indexingProgress) && pollErrorCount == old(pollErrorCount)
      ensures notFoundCount == old(notFoundCount) && progressClearDelay == old(progressClearDelay)
      ensures statusRefreshes == old(statusRefreshes)
    {
      isIndexing := false;
      indexingUrl := None;
    }

    /** `if (statusConfig.enabled) fetchStatusRef.current()`: asks for a status refresh. */
    method RequestStatusRefresh()
      modifies this
      ensures statusRefreshes == old(statusRefreshes) + (if statusConfig.enabled then 1 else 0)
      ensures indexedUrls == old(indexedUrls) && totalChunks == old(totalChunks) && error == old(error)
      ensures indexingProgress == old(indexingProgress) && pollErrorCount == old(pollErrorCount)
      ensures notFoundCount == old(notFoundCount) && progressClearDelay == old(progressClearDelay)
      ensures isIndexing == old(isIndexing) && indexingUrl == old(indexingUrl)
    {
      if statusConfig.enabled {
        statusRefreshes := statusRefreshes + 1;
      }
    }

    /**
     * One `pollProgress`, given what the progress request returned (`None`: it threw).
     * Complete and error end the run (error with the reported message or "Indexing
     * failed"); not_found ends it after `maxNotFoundRetries` in a row; indexing resets the
     * not-found count.
     */
    method PollProgress(response: Option<IndexProgress>)
      requires Valid()
      modifies this
      ensures Valid()
      ensures !old(ProgressPollingActive()) || response.None? ==> unchanged(this)
      ensures old(ProgressPollingActive()) && response.Some? ==>
        var p := response.value;
        match p.status
        case Complete =>
          !isIndexing && indexingUrl.None? && indexingProgress == Some(p) && error == old(error) &&
          progressClearDelay == Some(progressConfig.progressClearDelayMs) && notFoundCount == old(notFoundCount) &&
          statusRefreshes == old(statusRefreshes) + (if statusConfig.enabled then 1 else 0)
        case Error =>
          !isIndexing && indexingUrl.None? && indexingProgress == Some(p) &&
          error == Some(MessageOr(p.message, IndexingFailed)) && notFoundCount == old(notFoundCount) &&
          progressClearDelay == Some(progressConfig.errorClearDelayMs) && statusRefreshes == old(statusRefreshes)
        case NotFound =>
          notFoundCount == old(notFoundCount) + 1 && error == old(error) &&
          progressClearDelay == old(progressClearDelay) &&
          (notFoundCount >= progressConfig.maxNotFoundRetries ==>
            !isIndexing && indexingUrl.None? && indexingProgress.None? &&
            statusRefreshes == old(statusRefreshes) + (if statusConfig.enabled then 1 else 0)) &&
          (notFoundCount < progressConfig.maxNotFoundRetries ==>
            isIndexing && indexingUrl == old(indexingUrl) && indexingProgress == Some(p) &&
            statusRefreshes == old(statusRefreshes))
        case Indexing =>
          notFoundCount == 0 && isIndexing && indexingUrl == old(indexingUrl) &&
          progressClearDelay == old(progressClearDelay) &&
          indexingProgress == Some(p) && error == old(error) && statusRefreshes == old(statusRefreshes)
      ensures indexedUrls == old(indexedUrls) && totalChunks == old(totalChunks) && pollErrorCount == old(pollErrorCount)
    {
      if !ProgressPollingActive() || response.None? {
        return;
      }
      var progress := response.value;
      indexingProgress := Some(progress);
      match progress.status
      case Complete =>
        StopIndexing();
        RequestStatusRefresh();
        progressClearDelay := Some(progressConfig.progressClearDelayMs);
      case Error =>
        StopIndexing();
        error := Some(MessageOr(progress.message, IndexingFailed));
        progressClearDelay := Some(progressConfig.errorClearDelayMs);
      case NotFound =>
        notFoundCount := notFoundCount + 1;
        if notFoundCount >= progressConfig.maxNotFoundRetries {
          StopIndexing();
          indexingProgress := None;
          RequestStatusRefresh();
        }
      case Indexing =>
        notFoundCount := 0;
    }

    /**
     * `startIndexing(url, options)`, given what the index request did (`None`: it threw)
     * and, when the status is refreshed, what the status request returned. Returns the
     * request's result, or `None` where the source returns null.
     */
    method StartIndexing(url: string, refreshStatus: Option<bool>, outcome: Option<IndexResult>,
                         statusAfter: Option<IndexStatus>)
      returns (result: Option<IndexResult>)
      requires Valid()
      modifies this
      ensures Valid()
      ensures pipelineId == "" ==> unchanged(this) && result.None?
      ensures pipelineId != "" && outcome.None? ==>
        result.None? && error == Some(FailedToIndexUrl) && !isIndexing && indexingUrl.None? && indexingProgress.None?
      ensures pipelineId != "" && outcome.Some? && outcome.value.status == "error" ==>
        result == outcome && error == Some(MessageOr(outcome.value.message, IndexingFailed)) &&
        !isIndexing && indexingUrl.None? && indexingProgress.None?
      ensures pipelineId != "" && outcome.Some? && outcome.value.status != "error" ==>
        result == outcome && error.None? &&
        (clearIndexingOnResponse ==> !isIndexing && indexingUrl.None? && indexingProgress.None?) &&
        (!clearIndexingOnResponse ==> isIndexing && indexingUrl == Some(url) && indexingProgress.None?)
      ensures (pipelineId != "" && outcome.Some? && outcome.value.status != "error" &&
               refreshStatus != Some(false) && statusAfter.Some?) ==>
        indexedUrls == statusAfter.value.indexedUrls.GetOr([]) && totalChunks == statusAfter.value.totalChunks.GetOr(0)
      ensures (pipelineId == "" || outcome.None? || outcome.value.status == "error" ||
               refreshStatus == Some(false) || statusAfter.None?) ==>
        indexedUrls == old(indexedUrls) && totalChunks == old(totalChunks)
      ensures (pipelineId != "" && outcome.Some? && outcome.value.status != "error" &&
               refreshStatus != Some(false) && statusConfig.useBackoff) ==>
        pollErrorCount == (if statusAfter.Some? then 0 else old(pollErrorCount) + 1)
      ensures (pipelineId == "" || outcome.None? || outcome.value.status == "error" ||
               refreshStatus == Some(false) || !statusConfig.useBackoff) ==>
        pollErrorCount == old(pollErrorCount)
      ensures pipelineId != "" ==> notFoundCount == 0
      ensures progressClearDelay == old(progressClearDelay) && statusRefreshes == old(statusRefreshes)
    {
      if pipelineId == "" {
        return None;
      }
      error := None;
      isIndexing := true;
      indexingUrl := Some(url);
      indexingProgress := None;
      notFoundCount := 0;
      if outcome.None? {
        error := Some(FailedToIndexUrl);
        StopIndexing();
        indexingProgress := None;
        return None;
      }
      var r := outcome.value;
      if r.status == "error" {
        error := Some(MessageOr(r.message, IndexingFailed));
        StopIndexing();
        return outcome;
      }
      if refreshStatus != Some(false) {
        FetchStatus(statusAfter);
      }
      if clearIndexingOnResponse {
        StopIndexing();
        indexingProgress := None;
      }
      return outcome;
    }

    /**
     * `deleteUrl`, given whether the delete request succeeded. The removal itself happens
     * on the server; after a success the hook asks for a status refresh unless the caller
     * passed `refreshStatus: false`. A failure is only logged.
     */
    method DeleteUrl(url: string, refreshStatus: Option<bool>, deleted: bool)
      modifies this
      ensures pipelineId == "" || !deleted || refreshStatus == Some(false) ==> unchanged(this)
      ensures pipelineId != "" && deleted && refreshStatus != Some(false) ==>
        statusRefreshes == old(statusRefreshes) + 1
      ensures indexedUrls == old(indexedUrls) && totalChunks == old(totalChunks) && error == old(error)
      ensures isIndexing == old(isIndexing) && indexingUrl == old(indexingUrl)
      ensures indexingProgress == old(indexingProgress) && pollErrorCount == old(pollErrorCount)
      ensures notFoundCount == old(notFoundCount) && progressClearDelay == old(progressClearDelay)
    {
      if pipelineId != "" && deleted && refreshStatus != Some(false) {
        statusRefreshes := statusRefreshes + 1;
      }
    }
  }
}
