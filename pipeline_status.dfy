/**
 * The pipeline stage estimator (frontend/lib/pipeline-status-adapter.ts): the indexing
 * progress API reports only a status and two counters, and the estimator turns them into
 * a seven-stage run state for display.
 */
module PipelineStatus {
  import opened Wrappers

  datatype StageStatus = Idle | Queued | Running | Success | Failed

  /** A stage's fixed identity: `id`, `label` and `description`. */
  datatype StageDef = StageDef(id: string, labelText: string, description: string)

  /** A stage as the UI shows it: its definition spread in, plus its status and position. */
  datatype PipelineStage = PipelineStage(def: StageDef, status: StageStatus, order: nat)

  datatype OverallStatus = OverallIdle | OverallRunning | OverallComplete | OverallError

  datatype Metrics = Metrics(pagesIndexed: nat, chunksCreated: nat)

  datatype PipelineRunState = PipelineRunState(
    stages: seq<PipelineStage>,
    currentStageIndex: int,
    overallStatus: OverallStatus,
    metrics: Metrics)

  /** What the progress endpoint reports; a counter it leaves out reads as 0. */
  datatype ProgressStatus = Indexing | Complete | Error | NotFound

  datatype IndexProgress = IndexProgress(
    status: ProgressStatus,
    progress: Option<string>,
    pagesIndexed: Option<nat>,
    chunksCreated: Option<nat>,
    message: Option<string>)

  /** The seven stages, in pipeline order. */
  const StageDefs: seq<StageDef> := [
    StageDef("accepted", "Source Accepted", "URL validated and accepted"),
    StageDef("fetch", "Fetch / Crawl", "Crawling pages from source"),
    StageDef("parse", "Parse & Clean", "Extracting and cleaning content"),
    StageDef("chunk", "Chunk", "Splitting into semantic chunks"),
    StageDef("embed", "Embed", "Generating vector embeddings"),
    StageDef("store", "Store (pgvector)", "Storing in vector database"),
    StageDef("ready", "Ready", "Indexed and ready for queries")
  ]

  const StageCount: nat := 7

  /** `{ ...stage, order: index, status }` */
  function MakeStage(index: nat, status: StageStatus): PipelineStage
    requires index < |StageDefs|
  {
    PipelineStage(StageDefs[index], status, index)
  }

  /** Every run state lists the seven stages in order, each carrying its own definition and its index. */
  ghost predicate Shaped(st: PipelineRunState) {
    |st.stages| == StageCount &&
    forall i :: 0 <= i < |st.stages| ==> st.stages[i].order == i && st.stages[i].def == StageDefs[i]
  }

  // ------------------------------------------------------------ stage statuses

  /** The status of a stage while the pipeline runs at `currentIndex`. */
  function GetStageStatus(stageIndex: int, currentIndex: int): (r: StageStatus)
    ensures r == Success <==> stageIndex < currentIndex
    ensures r == Running <==> stageIndex == currentIndex
    ensures r == Queued <==> stageIndex == currentIndex + 1
    ensures r == Idle <==> stageIndex > currentIndex + 1
  {
    if stageIndex < currentIndex then Success
    else if stageIndex == currentIndex then Running
    else if stageIndex == currentIndex + 1 then Queued
    else Idle
  }

  /** Before anything runs, the first stage is queued and the others idle. */
  function IdleStageStatus(stageIndex: int): StageStatus {
    if stageIndex == 0 then Queued else Idle
  }

  /** After a failure at `failedIndex`: the stages before it succeeded, the ones after it never ran. */
  function ErrorStageStatus(stageIndex: int, failedIndex: int): StageStatus {
    if stageIndex < failedIndex then Success else if stageIndex == failedIndex then Failed else Idle
  }

  /** Which stage a running pipeline is probably in, from its counters. */
  function RunningStageIndex(pagesIndexed: nat, chunksCreated: nat): (r: nat)
    ensures 1 <= r <= 5
    ensures r <= 2 <==> chunksCreated == 0
  {
    if pagesIndexed == 0 && chunksCreated == 0 then 1
    else if pagesIndexed > 0 && chunksCreated == 0 then 2
    else if chunksCreated > 0 && chunksCreated < pagesIndexed * 5 then 3
    else if chunksCreated >= pagesIndexed * 5 && chunksCreated < pagesIndexed * 15 then 4
    else 5
  }

  /** The stage an error is blamed on: fetching with no pages, embedding with chunks, parsing otherwise. */
  function FailedStageIndex(pagesIndexed: nat, chunksCreated: nat): (r: nat)
    ensures r == 1 <==> pagesIndexed == 0
    ensures r == 2 <==> pagesIndexed > 0 && chunksCreated == 0
    ensures r == 4 <==> pagesIndexed > 0 && chunksCreated > 0
  {
    if pagesIndexed > 0 then (if chunksCreated > 0 then 4 else 2) else 1
  }

  // ------------------------------------------------------------ the four states

  function EstimateRunningState(pagesIndexed: nat, chunksCreated: nat): (r: PipelineRunState)
    ensures Shaped(r)
    ensures r.overallStatus == OverallRunning && 1 <= r.currentStageIndex <= 5
    ensures r.metrics == Metrics(pagesIndexed, chunksCreated)
  {
    var current := RunningStageIndex(pagesIndexed, chunksCreated);
    PipelineRunState(
      seq(|StageDefs|, i requires 0 <= i < |StageDefs| => MakeStage(i, GetStageStatus(i, current))),
      current, OverallRunning, Metrics(pagesIndexed, chunksCreated))
  }

  function CreateIdleState(): (r: PipelineRunState)
    ensures Shaped(r)
    ensures r.overallStatus == OverallIdle && r.currentStageIndex == -1 && r.metrics == Metrics(0, 0)
    ensures r.stages[0].status == Queued
    ensures forall i :: 1 <= i < |r.stages| ==> r.stages[i].status == Idle
  {
    PipelineRunState(
      seq(|StageDefs|, i requires 0 <= i < |StageDefs| => MakeStage(i, IdleStageStatus(i))),
      -1, OverallIdle, Metrics(0, 0))
  }

  function CreateCompleteState(pagesIndexed: nat, chunksCreated: nat): (r: PipelineRunState)
    ensures Shaped(r)
    ensures r.overallStatus == OverallComplete && r.currentStageIndex == |r.stages| - 1
    ensures r.metrics == Metrics(pagesIndexed, chunksCreated)
    ensures forall i :: 0 <= i < |r.stages| ==> r.stages[i].status == Success
  {
    PipelineRunState(
      seq(|StageDefs|, i requires 0 <= i < |StageDefs| => MakeStage(i, Success)),
      |StageDefs| - 1, OverallComplete, Metrics(pagesIndexed, chunksCreated))
  }

  function CreateErrorState(pagesIndexed: nat, chunksCreated: nat): (r: PipelineRunState)
    ensures Shaped(r)
    ensures r.overallStatus == OverallError && r.metrics == Metrics(pagesIndexed, chunksCreated)
    ensures r.currentStageIndex == FailedStageIndex(pagesIndexed, chunksCreated)
    ensures forall i :: 0 <= i < |r.stages| ==>
      (r.stages[i].status == Success <==> i < r.currentStageIndex) &&
      (r.stages[i].status == Failed <==> i == r.currentStageIndex) &&
      (r.stages[i].status == Idle <==> i > r.currentStageIndex)
  {
    var failed := FailedStageIndex(pagesIndexed, chunksCreated);
    PipelineRunState(
      seq(|StageDefs|, i requires 0 <= i < |StageDefs| => MakeStage(i, ErrorStageStatus(i, failed))),
      failed, OverallError, Metrics(pagesIndexed, chunksCreated))
  }

  /** `estimatePipelineStages(progress, isActivelyIndexing)`; `None` is a null progress. */
  function EstimatePipelineStages(progress: Option<IndexProgress>, isActivelyIndexing: bool): (r: PipelineRunState)
    ensures Shaped(r)
    ensures -1 <= r.currentStageIndex < StageCount
  {
    if progress.None? then
      if isActivelyIndexing then EstimateRunningState(0, 0) else CreateIdleState()
    else
      var pages := progress.value.pagesIndexed.GetOr(0);
      var chunks := progress.value.chunksCreated.GetOr(0);
      match progress.value.status
      case Error => CreateErrorState(pages, chunks)
      case Complete => CreateCompleteState(pages, chunks)
      case NotFound => if isActivelyIndexing then EstimateRunningState(pages, chunks) else CreateIdleState()
      case Indexing => EstimateRunningState(pages, chunks)
  }

  // ------------------------------------------------------------ properties

  /**
   * While running, exactly one stage runs (the current one), only the next one is
   * queued, every earlier stage has succeeded and every later one is idle.
   */
  lemma RunningStagesOneActive(pagesIndexed: nat, chunksCreated: nat)
    ensures var r := EstimateRunningState(pagesIndexed, chunksCreated);
      var cur := r.currentStageIndex;
      r.stages[cur].status == Running &&
      r.stages[cur + 1].status == Queued &&
      (forall i :: 0 <= i < |r.stages| && r.stages[i].status == Running ==> i == cur) &&
      (forall i :: 0 <= i < |r.stages| && r.stages[i].status == Queued ==> i == cur + 1) &&
      (forall i :: 0 <= i < cur ==> r.stages[i].status == Success) &&
      (forall i :: cur + 1 < i < |r.stages| ==> r.stages[i].status == Idle)
  {
    var r := EstimateRunningState(pagesIndexed, chunksCreated);
    assert forall i :: 0 <= i < |r.stages| ==> r.stages[i].status == GetStageStatus(i, r.currentStageIndex);
  }

  /**
   * With the page count fixed, more chunks never move a running pipeline to an
   * earlier stage.
   */
  lemma RunningStageMonotone(pagesIndexed: nat, fewer: nat, more: nat)
    requires fewer <= more
    ensures RunningStageIndex(pagesIndexed, fewer) <= RunningStageIndex(pagesIndexed, more)
  {
  }

  /** Each band of the counters picks its own stage. */
  lemma RunningStageBands(pagesIndexed: nat, chunksCreated: nat)
    ensures var r := RunningStageIndex(pagesIndexed, chunksCreated);
      (r == 1 <==> pagesIndexed == 0 && chunksCreated == 0) &&
      (r == 2 <==> pagesIndexed > 0 && chunksCreated == 0) &&
      (r == 3 <==> 0 < chunksCreated < 5 * pagesIndexed) &&
      (r == 4 <==> 0 < 5 * pagesIndexed <= chunksCreated < 15 * pagesIndexed) &&
      (r == 5 <==> 0 < chunksCreated && 15 * pagesIndexed <= chunksCreated)
  {
  }

  /** What each reported status leads to, and the counters the state echoes. */
  lemma EstimateByStatus(progress: Option<IndexProgress>, isActivelyIndexing: bool)
    ensures var r := EstimatePipelineStages(progress, isActivelyIndexing);
      if progress.None? then
        r == (if isActivelyIndexing then EstimateRunningState(0, 0) else CreateIdleState())
      else
        var pages, chunks := progress.value.pagesIndexed.GetOr(0), progress.value.chunksCreated.GetOr(0);
        match progress.value.status
        case Error => r.overallStatus == OverallError && r.metrics == Metrics(pages, chunks)
        case Complete => r.overallStatus == OverallComplete && r.metrics == Metrics(pages, chunks)
        case NotFound =>
          if isActivelyIndexing then r.overallStatus == OverallRunning && r.metrics == Metrics(pages, chunks)
          else r == CreateIdleState()
        case Indexing => r.overallStatus == OverallRunning && r.metrics == Metrics(pages, chunks)
  {
  }

  /** A stage is shown as running only while the pipeline is running, and then exactly at the current index. */
  lemma RunningOnlyWhileRunning(progress: Option<IndexProgress>, isActivelyIndexing: bool, i: nat)
    requires i < StageCount
    ensures var r := EstimatePipelineStages(progress, isActivelyIndexing);
      r.stages[i].status == Running <==> r.overallStatus == OverallRunning && i == r.currentStageIndex
  {
  }
}
