/**
 * The scheduled job reconciler. One pass reads every Jobs row (a scan of
 * one or more pages) and, for each row in turn, polls the bulk job's status
 * when the row has none yet, counts the row's pending and restored files,
 * and then runs three independent checks: the per-file tally (cancel an
 * empty job, complete a finished one, or record progress), the five-day
 * timeout, and the failure check. Each check that fires deletes the row
 * and publishes a notification, so a row can be deleted and announced more
 * than once in the same pass.
 */
module Reconciler {
  import opened Wrappers
  import opened Tables
  import Decimal
  import Rounding

  /** Provider statuses the poll writes to the row; others are used for this pass only. */
  const FinishedBatchStates: set<string> := {"Failed", "Complete", "Canceled"}

  /** A job is timed out once the clock is past its Timestamp plus five days. */
  const DeadlineSeconds: int := 5 * 24 * 60 * 60

  const FinishedPrefix: string := "Executed and found these Jobs that are finished: "

  /** What `describe_job` answered for a bulk job; `DescribeFailed` is an error or an answer without `Job`. */
  datatype DescribeResponse = Described(status: string, failedTasks: Option<nat>) | DescribeFailed

  /** One answer of the paginated table scan; `more` says whether it carried a LastEvaluatedKey. */
  datatype ScanResponse = ScanPage(items: seq<JobRow>, more: bool) | ScanFailed

  /** The state a pass threads through its jobs: the Jobs table, the topic, and the finished-jobs text. */
  datatype PassState = PassState(jobs: map<string, JobRow>, published: seq<Notification>, finished: string)

  /** A pass ends with its state, and `completed` is false when an exception stopped it early. */
  datatype PassOutcome = PassOutcome(state: PassState, completed: bool)

  datatype TimerResult = TimerOk(statusCode: int, body: string) | TimerCrashed

  // ---------------------------------------------------------------------
  // Specification functions
  // ---------------------------------------------------------------------

  /** Items gathered from the scan answers after the first one: the loop stops at an answer without more pages or at an error. */
  function ScannedItems(responses: seq<ScanResponse>): seq<JobRow>
  {
    if responses == [] then []
    else match responses[0]
      case ScanFailed => []
      case ScanPage(items, more) => items + (if more then ScannedItems(responses[1..]) else [])
  }

  /** `getAllJobIds`: an error on the first scan propagates; an error on a later page ends the loop with what was read. */
  function Scan(responses: seq<ScanResponse>): Option<seq<JobRow>>
  {
    if responses == [] || responses[0].ScanFailed? then None
    else Some(ScannedItems(responses))
  }

  /** The status a pass works with after a poll: a finished bulk job means the objects are now being restored. */
  function WorkingStatus(batchStatus: string): (status: string)
    ensures status == "Restoring" <==> batchStatus == "Complete" || batchStatus == "Restoring"
    ensures batchStatus != "Complete" ==> status == batchStatus
  {
    if batchStatus == "Complete" then "Restoring" else batchStatus
  }

  /**
   * `PublishEvent`: the notification for a job, with the two counts written
   * as decimal numerals.
   */
  function Message(jobId: string, batchJobId: string, status: string, progress: nat, failed: nat): (n: Notification)
    ensures n.jobId == jobId && n.batchJobId == batchJobId && n.status == status
    ensures Decimal.Parse(n.progressPercent) == Some(progress)
    ensures Decimal.Parse(n.failedBatchFiles) == Some(failed)
    ensures n.progressPercent == Decimal.Show(progress) && n.failedBatchFiles == Decimal.Show(failed)
  {
    Decimal.ParseShow(progress);
    Decimal.ParseShow(failed);
    Notification(jobId, batchJobId, status, Decimal.Show(progress), Decimal.Show(failed))
  }

  /** `UpdateJobItemBatchStatus`: an update of an existing row. */
  function SetBatchStatus(jobs: map<string, JobRow>, jobId: string, status: string, batchStatus: string, failed: nat): map<string, JobRow>
  {
    if jobId in jobs then
      jobs[jobId := jobs[jobId].(batchOpsStatus := Some(batchStatus), failedFiles := Some(failed),
                                 jobStatus := Some(status), progress := Some(0))]
    else jobs
  }

  /** `updateJobProgress`: an update of an existing row. */
  function SetProgress(jobs: map<string, JobRow>, jobId: string, progress: nat): map<string, JobRow>
  {
    if jobId in jobs then jobs[jobId := jobs[jobId].(progress := Some(progress), jobStatus := Some("Restoring"))]
    else jobs
  }

  /** `getFilesPerJob`: the Files rows of a job whose RestoreStatus is `restored`. */
  function FilesOf(files: map<FileKey, FileRow>, jobId: string, restored: bool): set<FileKey>
  {
    set k | k in files && files[k].jobId == Some(jobId) && files[k].restored == restored
  }

  /** The status and failed-file count a pass works with for `job`; None when reading them raises. */
  function WorkingState(job: JobRow, describe: string -> DescribeResponse): Option<(string, nat)>
  {
    if job.jobStatus.None? then
      match describe(job.batchJobId)
      case DescribeFailed => None
      case Described(batchStatus, failedTasks) => Some((WorkingStatus(batchStatus), failedTasks.GetOr(0)))
    else if job.failedFiles.None? then None
    else Some((job.jobStatus.value, job.failedFiles.value))
  }

  /** The Jobs table after the poll of `job`: written only for a finished provider status. */
  function PollWrite(jobs: map<string, JobRow>, job: JobRow, describe: string -> DescribeResponse): map<string, JobRow>
  {
    if job.jobStatus.None? && describe(job.batchJobId).Described? && describe(job.batchJobId).status in FinishedBatchStates then
      var d := describe(job.batchJobId);
      SetBatchStatus(jobs, job.jobId, WorkingStatus(d.status), d.status, d.failedTasks.GetOr(0))
    else jobs
  }

  /** Delete the job's row, then publish one notification about it. */
  function Finish(s: PassState, job: JobRow, status: string, progress: nat, failed: nat): PassState
  {
    s.(jobs := s.jobs - {job.jobId},
       published := s.published + [Message(job.jobId, job.batchJobId, status, progress, failed)])
  }

  /** The progress figure as the source computes it: `round(pending / TotalFiles)`, or 0 for no files. */
  function Progress(pending: nat, totalFiles: nat): (p: nat)
    ensures totalFiles == 0 ==> p == 0
    ensures totalFiles != 0 ==> 2 * Rounding.Dist(pending, p * totalFiles) <= totalFiles
    ensures totalFiles != 0 && 2 * Rounding.Dist(pending, p * totalFiles) == totalFiles ==> p % 2 == 0
  {
    if totalFiles != 0 then Rounding.RoundHalfEven(pending, totalFiles) else 0
  }

  /** The progress branch: compare with the stored figure of the scanned row. */
  function RecordProgress(s: PassState, job: JobRow, status: string, failed: nat, pending: nat): PassState
  {
    var p := Progress(pending, job.totalFiles);
    if job.progress.Some? then
      if p == job.progress.value then s
      else s.(jobs := SetProgress(s.jobs, job.jobId, p),
              published := s.published + [Message(job.jobId, job.batchJobId, status, p, failed)])
    else s.(jobs := SetProgress(s.jobs, job.jobId, p))
  }

  /** The tally of a Restoring job: three independent checks on the two counts. */
  function Tally(s: PassState, job: JobRow, status: string, failed: nat, pending: nat, done: nat): PassState
  {
    var s1 := if pending == 0 && done == 0 then Finish(s, job, "Cancelled", 0, failed) else s;
    var s2 := if pending == 0 && done > 0
              then Finish(s1.(finished := job.jobId + ", " + s1.finished), job, "Complete", 100, failed)
              else s1;
    if pending > 0 then RecordProgress(s2, job, status, failed, pending) else s2
  }

  predicate TimedOut(job: JobRow, now: int)
  {
    now > job.timestamp + DeadlineSeconds
  }

  /** The tally, run only when the working status is Restoring. */
  function TallyIfRestoring(s: PassState, files: map<FileKey, FileRow>, job: JobRow, status: string, failed: nat): PassState
  {
    if status == "Restoring"
    then Tally(s, job, status, failed, |FilesOf(files, job.jobId, false)|, |FilesOf(files, job.jobId, true)|)
    else s
  }

  /** The timeout check. */
  function CheckTimeout(s: PassState, job: JobRow, now: int): PassState
  {
    if TimedOut(job, now) then Finish(s, job, "Timeout", 0, 0) else s
  }

  /** The failure check, on the working status. */
  function CheckFailure(s: PassState, job: JobRow, status: string): PassState
  {
    if status == "Failed" || status == "Cancelled" then Finish(s, job, status, 0, 0) else s
  }

  /** One iteration of the pass over the scanned row `job`; None when it raises. */
  function StepJob(s: PassState, files: map<FileKey, FileRow>, job: JobRow,
                   describe: string -> DescribeResponse, now: int): Option<PassState>
  {
    match WorkingState(job, describe)
    case None => None
    case Some((status, failed)) =>
      var s1 := s.(jobs := PollWrite(s.jobs, job, describe));
      Some(CheckFailure(CheckTimeout(TallyIfRestoring(s1, files, job, status, failed), job, now), job, status))
  }

  /** The pass over the scanned rows, in order; an exception ends it with the writes made so far. */
  function RunPass(s: PassState, files: map<FileKey, FileRow>, snapshot: seq<JobRow>,
                   describe: string -> DescribeResponse, now: int): PassOutcome
    decreases |snapshot|
  {
    if snapshot == [] then PassOutcome(s, true)
    else match StepJob(s, files, snapshot[0], describe, now)
      case None => PassOutcome(s, false)
      case Some(s') => RunPass(s', files, snapshot[1..], describe, now)
  }

  // ---------------------------------------------------------------------
  // The handler and its helpers, operating on the store in place
  // ---------------------------------------------------------------------

  /** The scan's items from page `i` on: that page's items, then the rest if it announces more. */
  lemma ScannedItemsFrom(responses: seq<ScanResponse>, i: nat)
    requires i < |responses| && responses[i].ScanPage?
    ensures ScannedItems(responses[i..]) ==
            responses[i].items + (if responses[i].more then ScannedItems(responses[i + 1..]) else [])
  {
    assert responses[i..][1..] == responses[i + 1..];
  }

  /** A failed page ends the scan's items. */
  lemma ScannedItemsAtError(responses: seq<ScanResponse>, i: nat)
    requires i < |responses| && responses[i].ScanFailed?
    ensures ScannedItems(responses[i..]) == []
  {
  }

  method GetAllJobIds(responses: seq<ScanResponse>) returns (r: Option<seq<JobRow>>)
    ensures r == Scan(responses)
  {
    if |responses| == 0 || responses[0].ScanFailed? {
      return None;
    }
    var items: seq<JobRow> := [];
    var more := true;
    var i := 0;
    assert responses[0..] == responses;
    assert ScannedItems(responses) == items + ScannedItems(responses[i..]);
    while more && i < |responses|
      invariant 0 <= i <= |responses|
      invariant i == 0 ==> more
      invariant more ==> ScannedItems(responses) == items + ScannedItems(responses[i..])
      invariant !more ==> ScannedItems(responses) == items
    {
      if responses[i].ScanFailed? {
        ScannedItemsAtError(responses, i);
        assert items + [] == items;
        more := false;
      } else {
        ScannedItemsFrom(responses, i);
        var page := responses[i].items;
        if responses[i].more {
          assert items + (page + ScannedItems(responses[i + 1..])) == (items + page) + ScannedItems(responses[i + 1..]);
        } else {
          assert items + (page + []) == items + page;
        }
        items := items + page;
        more := responses[i].more;
      }
      i := i + 1;
    }
    if more {
      assert responses[i..] == [];
      assert items + [] == items;
    }
    return Some(items);
  }

  method GetFilesPerJob(store: Store, jobId: string, restored: bool) returns (items: set<FileKey>)
    ensures items == FilesOf(store.files, jobId, restored)
  {
    items := set k | k in store.files && store.files[k].jobId == Some(jobId) && store.files[k].restored == restored;
  }

  method UpdateJobItemBatchStatus(store: Store, jobId: string, status: string, batchStatus: string, failed: nat)
    modifies store`jobs
    ensures store.jobs == SetBatchStatus(old(store.jobs), jobId, status, batchStatus, failed)
  {
    if jobId in store.jobs {
      var row := store.jobs[jobId];
      store.jobs := store.jobs[jobId := row.(batchOpsStatus := Some(batchStatus), failedFiles := Some(failed),
                                               jobStatus := Some(status), progress := Some(0))];
    }
  }

  method UpdateJobProgress(store: Store, jobId: string, progress: nat)
    modifies store`jobs
    ensures store.jobs == SetProgress(old(store.jobs), jobId, progress)
  {
    if jobId in store.jobs {
      store.jobs := store.jobs[jobId := store.jobs[jobId].(progress := Some(progress), jobStatus := Some("Restoring"))];
    }
  }

  method CleanJob(store: Store, jobId: string)
    modifies store`jobs
    ensures store.jobs == old(store.jobs) - {jobId}
  {
    store.jobs := store.jobs - {jobId};
  }

  method PublishEvent(store: Store, jobId: string, batchJobId: string, status: string, progress: nat, failed: nat)
    modifies store`published
    ensures store.published == old(store.published) + [Message(jobId, batchJobId, status, progress, failed)]
  {
    var n := Notification(jobId, batchJobId, status, Decimal.Show(progress), Decimal.Show(failed));
    store.published := store.published + [n];
  }

  method GetJobStatusAndUpdateTable(store: Store, job: JobRow, describe: string -> DescribeResponse)
    returns (r: Option<(string, nat)>)
    requires job.jobStatus.None?
    modifies store`jobs
    ensures r == WorkingState(job, describe)
    ensures store.jobs == PollWrite(old(store.jobs), job, describe)
  {
    match describe(job.batchJobId) {
      case DescribeFailed =>
        return None;
      case Described(batchStatus, failedTasks) =>
        var status := if batchStatus == "Complete" then "Restoring" else batchStatus;
        var failed := if failedTasks.Some? then failedTasks.value else 0;
        if batchStatus in FinishedBatchStates {
          UpdateJobItemBatchStatus(store, job.jobId, status, batchStatus, failed);
        }
        return Some((status, failed));
    }
  }

  /** The tally of a Restoring job, on the two counts of its Files rows. */
  method TallyJob(store: Store, job: JobRow, status: string, failed: nat, finished: string)
    returns (fin: string)
    modifies store`jobs, store`published
    ensures var t := Tally(PassState(old(store.jobs), old(store.published), finished), job, status, failed,
                           |FilesOf(store.files, job.jobId, false)|, |FilesOf(store.files, job.jobId, true)|);
            store.jobs == t.jobs && store.published == t.published && fin == t.finished
  {
    ghost var s := PassState(store.jobs, store.published, finished);
    fin := finished;
    var inProgress := GetFilesPerJob(store, job.jobId, false);
    var filesFinished := GetFilesPerJob(store, job.jobId, true);
    assert inProgress == FilesOf(store.files, job.jobId, false);
    assert filesFinished == FilesOf(store.files, job.jobId, true);
    if |inProgress| == 0 && |filesFinished| == 0 {
      CleanJob(store, job.jobId);
      PublishEvent(store, job.jobId, job.batchJobId, "Cancelled", 0, failed);
    }
    ghost var ta := if |inProgress| == 0 && |filesFinished| == 0 then Finish(s, job, "Cancelled", 0, failed) else s;
    assert store.jobs == ta.jobs && store.published == ta.published && fin == ta.finished;
    if |inProgress| == 0 && |filesFinished| > 0 {
      fin := job.jobId + ", " + fin;
      CleanJob(store, job.jobId);
      PublishEvent(store, job.jobId, job.batchJobId, "Complete", 100, failed);
    }
    ghost var tb := if |inProgress| == 0 && |filesFinished| > 0
                    then Finish(ta.(finished := job.jobId + ", " + ta.finished), job, "Complete", 100, failed)
                    else ta;
    assert store.jobs == tb.jobs && store.published == tb.published && fin == tb.finished;
    if |inProgress| > 0 {
      var percentProgress := 0;
      if job.totalFiles != 0 {
        percentProgress := Rounding.RoundHalfEven(|inProgress|, job.totalFiles);
      }
      if job.progress.Some? {
        if percentProgress != job.progress.value {
          UpdateJobProgress(store, job.jobId, percentProgress);
          PublishEvent(store, job.jobId, job.batchJobId, status, percentProgress, failed);
        }
      } else {
        UpdateJobProgress(store, job.jobId, percentProgress);
      }
    }
  }

  /** The body of the handler's loop for one scanned row. */
  method ReconcileJob(store: Store, job: JobRow, describe: string -> DescribeResponse, now: int, finished: string)
    returns (r: Option<string>)
    modifies store`jobs, store`published
    ensures var out := StepJob(PassState(old(store.jobs), old(store.published), finished), store.files, job, describe, now);
            match out
            case None => r.None? && store.jobs == old(store.jobs) && store.published == old(store.published)
            case Some(s) => r == Some(s.finished) && store.jobs == s.jobs && store.published == s.published
  {
    ghost var s0 := PassState(store.jobs, store.published, finished);
    var status: string;
    var failed: nat;
    if job.jobStatus.None? {
      var polled := GetJobStatusAndUpdateTable(store, job, describe);
      if polled.None? {
        return None;
      }
      status, failed := polled.value.0, polled.value.1;
    } else {
      if job.failedFiles.None? {
        return None;
      }
      status, failed := job.jobStatus.value, job.failedFiles.value;
    }
    assert WorkingState(job, describe) == Some((status, failed));
    ghost var s1 := s0.(jobs := PollWrite(s0.jobs, job, describe));
    assert store.jobs == s1.jobs && store.published == s1.published;

    var fin := finished;
    if status == "Restoring" {
      fin := TallyJob(store, job, status, failed, fin);
    }
    ghost var s2 := TallyIfRestoring(s1, store.files, job, status, failed);
    assert store.jobs == s2.jobs && store.published == s2.published && fin == s2.finished;

    if now > job.timestamp + DeadlineSeconds {
      CleanJob(store, job.jobId);
      PublishEvent(store, job.jobId, job.batchJobId, "Timeout", 0, 0);
    }
    ghost var s3 := CheckTimeout(s2, job, now);
    assert store.jobs == s3.jobs && store.published == s3.published;

    if status == "Failed" || status == "Cancelled" {
      CleanJob(store, job.jobId);
      PublishEvent(store, job.jobId, job.batchJobId, status, 0, 0);
    }
    ghost var s4 := CheckFailure(s3, job, status);
    assert store.jobs == s4.jobs && store.published == s4.published;
    assert StepJob(s0, store.files, job, describe, now) == Some(s4);
    return Some(fin);
  }

  /** `lambda_handler`: scan the Jobs table, then reconcile every scanned row in order. */
  method HandleTimer(store: Store, responses: seq<ScanResponse>, describe: string -> DescribeResponse, now: int)
    returns (r: TimerResult)
    modifies store`jobs, store`published
    ensures store.files == old(store.files)
    ensures Scan(responses).None? ==>
              r == TimerCrashed && store.jobs == old(store.jobs) && store.published == old(store.published)
    ensures Scan(responses).Some? ==>
              var out := RunPass(PassState(old(store.jobs), old(store.published), ""), old(store.files),
                                 Scan(responses).value, describe, now);
              && store.jobs == out.state.jobs
              && store.published == out.state.published
              && r == (if out.completed then TimerOk(200, FinishedPrefix + out.state.finished) else TimerCrashed)
  {
    var scanned := GetAllJobIds(responses);
    if scanned.None? {
      return TimerCrashed;
    }
    var jobs := scanned.value;
    ghost var goal := RunPass(PassState(store.jobs, store.published, ""), store.files, jobs, describe, now);
    var finishedJobs := "";
    var i := 0;
    while i < |jobs|
      invariant 0 <= i <= |jobs|
      invariant store.files == old(store.files)
      invariant goal == RunPass(PassState(store.jobs, store.published, finishedJobs), store.files, jobs[i..], describe, now)
    {
      var step := ReconcileJob(store, jobs[i], describe, now, finishedJobs);
      if step.None? {
        return TimerCrashed;
      }
      finishedJobs := step.value;
      assert jobs[i..][1..] == jobs[i + 1..];
      i := i + 1;
    }
    return TimerOk(200, FinishedPrefix + finishedJobs);
  }

  // ---------------------------------------------------------------------
  // Properties of a pass
  // ---------------------------------------------------------------------

  /** The items of every page, in page order (a failed answer has none). */
  function AllItems(responses: seq<ScanResponse>): seq<JobRow>
  {
    if responses == [] then []
    else (if responses[0].ScanPage? then responses[0].items else []) + AllItems(responses[1..])
  }

  /** Pages that each announce a further page, except the last one. */
  predicate ChainedPages(responses: seq<ScanResponse>)
  {
    forall i :: 0 <= i < |responses| ==> responses[i].ScanPage? && (responses[i].more <==> i < |responses| - 1)
  }

  lemma {:induction false} ScannedChainedPages(responses: seq<ScanResponse>)
    requires ChainedPages(responses)
    ensures ScannedItems(responses) == AllItems(responses)
  {
    if responses != [] {
      assert ChainedPages(responses[1..]);
      ScannedChainedPages(responses[1..]);
    }
  }

  /** Without errors, the scan returns the items of all pages concatenated. */
  lemma ScanConcatenatesPages(responses: seq<ScanResponse>)
    requires |responses| >= 1 && ChainedPages(responses)
    ensures Scan(responses) == Some(AllItems(responses))
  {
    ScannedChainedPages(responses);
  }

  /** An error on a later page ends the scan with the items of the pages before it. */
  lemma {:induction false} ScanErrorKeepsEarlierPages(responses: seq<ScanResponse>, k: nat)
    requires 1 <= k < |responses| && responses[k].ScanFailed?
    requires forall i :: 0 <= i < k ==> responses[i].ScanPage? && responses[i].more
    ensures Scan(responses) == Some(AllItems(responses[..k]))
  {
    ScannedUpToError(responses, k);
  }

  lemma {:induction false} ScannedUpToError(responses: seq<ScanResponse>, k: nat)
    requires k < |responses| && responses[k].ScanFailed?
    requires forall i :: 0 <= i < k ==> responses[i].ScanPage? && responses[i].more
    ensures ScannedItems(responses) == AllItems(responses[..k])
  {
    if k > 0 {
      ScannedUpToError(responses[1..], k - 1);
      assert responses[..k][1..] == responses[1..][..k - 1];
    }
  }

  /**
   * The poll writes the row only for a finished provider status; the row
   * then records the provider status, the failed count (0 without a progress
   * summary), progress 0, and a JobStatus that is Restoring exactly when the
   * provider said Complete. No other row changes.
   */
  lemma PollRecordsFinishedStatus(jobs: map<string, JobRow>, job: JobRow, describe: string -> DescribeResponse)
    requires job.jobStatus.None? && describe(job.batchJobId).Described? && job.jobId in jobs
    ensures var d := describe(job.batchJobId);
            var w := PollWrite(jobs, job, describe);
            && w.Keys == jobs.Keys
            && (forall id :: id in jobs && id != job.jobId ==> w[id] == jobs[id])
            && (d.status !in FinishedBatchStates ==> w[job.jobId] == jobs[job.jobId])
            && (d.status in FinishedBatchStates ==>
                  && w[job.jobId].batchOpsStatus == Some(d.status)
                  && w[job.jobId].failedFiles == Some(d.failedTasks.GetOr(0))
                  && w[job.jobId].progress == Some(0)
                  && w[job.jobId].jobStatus.Some?
                  && (w[job.jobId].jobStatus == Some("Restoring") <==> d.status == "Complete")
                  && (d.status != "Complete" ==> w[job.jobId].jobStatus == Some(d.status))
                  && RowWellFormed(w[job.jobId])
                  && w[job.jobId].totalFiles == jobs[job.jobId].totalFiles
                  && w[job.jobId].timestamp == jobs[job.jobId].timestamp)
  {
  }

  lemma PollWriteOnlyOwnRow(jobs: map<string, JobRow>, job: JobRow, describe: string -> DescribeResponse)
    ensures PollWrite(jobs, job, describe).Keys == jobs.Keys
    ensures forall id :: id in jobs && id != job.jobId ==> PollWrite(jobs, job, describe)[id] == jobs[id]
    ensures PollWrite(jobs, job, describe) - {job.jobId} == jobs - {job.jobId}
  {
    var w := PollWrite(jobs, job, describe);
    assert w - {job.jobId} == jobs - {job.jobId};
  }

  /** The notice the timeout check adds, if any. */
  function TimeoutNotice(job: JobRow, now: int): seq<Notification>
  {
    if TimedOut(job, now) then [Message(job.jobId, job.batchJobId, "Timeout", 0, 0)] else []
  }

  /**
   * A Restoring job with no Files rows at all is deleted and announced once
   * as Cancelled with progress 0 (and once more as Timeout if it is also
   * past its deadline).
   */
  lemma StepEmptyJobCancelled(s: PassState, files: map<FileKey, FileRow>, job: JobRow,
                              describe: string -> DescribeResponse, now: int)
    requires WorkingState(job, describe).Some? && WorkingState(job, describe).value.0 == "Restoring"
    requires FilesOf(files, job.jobId, false) == {} && FilesOf(files, job.jobId, true) == {}
    ensures StepJob(s, files, job, describe, now) ==
            Some(PassState(s.jobs - {job.jobId},
                           s.published
                           + [Message(job.jobId, job.batchJobId, "Cancelled", 0, WorkingState(job, describe).value.1)]
                           + TimeoutNotice(job, now),
                           s.finished))
  {
    var (status, failed) := WorkingState(job, describe).value;
    PollWriteOnlyOwnRow(s.jobs, job, describe);
    var s1 := s.(jobs := PollWrite(s.jobs, job, describe));
    var s2 := Tally(s1, job, status, failed, 0, 0);
    assert s2 == Finish(s1, job, "Cancelled", 0, failed);
    var s3 := if TimedOut(job, now) then Finish(s2, job, "Timeout", 0, 0) else s2;
    assert s3.jobs == s.jobs - {job.jobId};
    assert s3.published == s2.published + TimeoutNotice(job, now);
  }

  /**
   * A Restoring job with no pending and some restored rows is deleted,
   * announced once as Complete with progress 100 (plus Timeout if overdue),
   * and its id is put in front of the finished-jobs text.
   */
  lemma StepAllRestoredCompletes(s: PassState, files: map<FileKey, FileRow>, job: JobRow,
                                 describe: string -> DescribeResponse, now: int)
    requires WorkingState(job, describe).Some? && WorkingState(job, describe).value.0 == "Restoring"
    requires FilesOf(files, job.jobId, false) == {} && FilesOf(files, job.jobId, true) != {}
    ensures StepJob(s, files, job, describe, now) ==
            Some(PassState(s.jobs - {job.jobId},
                           s.published
                           + [Message(job.jobId, job.batchJobId, "Complete", 100, WorkingState(job, describe).value.1)]
                           + TimeoutNotice(job, now),
                           job.jobId + ", " + s.finished))
  {
    var (status, failed) := WorkingState(job, describe).value;
    PollWriteOnlyOwnRow(s.jobs, job, describe);
    var done := |FilesOf(files, job.jobId, true)|;
    assert done > 0;
    var s1 := s.(jobs := PollWrite(s.jobs, job, describe));
    var s2 := Tally(s1, job, status, failed, 0, done);
    assert s2 == Finish(s1.(finished := job.jobId + ", " + s1.finished), job, "Complete", 100, failed);
    var s3 := if TimedOut(job, now) then Finish(s2, job, "Timeout", 0, 0) else s2;
    assert s3.jobs == s.jobs - {job.jobId};
    assert s3.published == s2.published + TimeoutNotice(job, now);
  }

  /** An unchanged progress figure of a stored Restoring job writes nothing and publishes nothing. */
  lemma StepUnchangedProgressIsSilent(s: PassState, files: map<FileKey, FileRow>, job: JobRow,
                                      describe: string -> DescribeResponse, now: int)
    requires job.jobStatus == Some("Restoring") && job.failedFiles.Some?
    requires FilesOf(files, job.jobId, false) != {}
    requires job.progress == Some(Progress(|FilesOf(files, job.jobId, false)|, job.totalFiles) as int)
    requires !TimedOut(job, now)
    ensures StepJob(s, files, job, describe, now) == Some(s)
  {
  }

  /**
   * A changed progress figure of a stored Restoring job is written together
   * with JobStatus Restoring and announced exactly once.
   */
  lemma StepChangedProgressNotifies(s: PassState, files: map<FileKey, FileRow>, job: JobRow,
                                    describe: string -> DescribeResponse, now: int)
    requires job.jobStatus == Some("Restoring") && job.failedFiles.Some?
    requires FilesOf(files, job.jobId, false) != {}
    requires job.progress.Some?
    requires job.progress.value != Progress(|FilesOf(files, job.jobId, false)|, job.totalFiles)
    requires !TimedOut(job, now) && job.jobId in s.jobs
    ensures var p := Progress(|FilesOf(files, job.jobId, false)|, job.totalFiles);
            StepJob(s, files, job, describe, now) ==
            Some(s.(jobs := s.jobs[job.jobId := s.jobs[job.jobId].(progress := Some(p), jobStatus := Some("Restoring"))],
                    published := s.published + [Message(job.jobId, job.batchJobId, "Restoring", p, job.failedFiles.value)]))
  {
  }

  /** Without a stored progress figure the computed one is written but not announced. */
  lemma StepFirstProgressIsNotAnnounced(s: PassState, files: map<FileKey, FileRow>, job: JobRow,
                                        describe: string -> DescribeResponse, now: int)
    requires WorkingState(job, describe).Some? && WorkingState(job, describe).value.0 == "Restoring"
    requires FilesOf(files, job.jobId, false) != {}
    requires job.progress.None?
    requires !TimedOut(job, now) && job.jobId in s.jobs
    ensures var r := StepJob(s, files, job, describe, now);
            && r.Some?
            && r.value.published == s.published
            && job.jobId in r.value.jobs
            && r.value.jobs[job.jobId].progress == Some(Progress(|FilesOf(files, job.jobId, false)|, job.totalFiles) as int)
            && r.value.jobs[job.jobId].jobStatus == Some("Restoring")
  {
    PollWriteOnlyOwnRow(s.jobs, job, describe);
  }

  /**
   * A job past its deadline is deleted and announced as Timeout with both
   * counts "0", whatever else the same iteration did to it.
   */
  lemma StepTimeoutDeletes(s: PassState, files: map<FileKey, FileRow>, job: JobRow,
                           describe: string -> DescribeResponse, now: int)
    requires StepJob(s, files, job, describe, now).Some? && TimedOut(job, now)
    ensures var r := StepJob(s, files, job, describe, now).value;
            && job.jobId !in r.jobs
            && |s.published| < |r.published|
            && Message(job.jobId, job.batchJobId, "Timeout", 0, 0) in r.published[|s.published|..]
  {
    StepAppends(s, files, job, describe, now);
    var r := StepJob(s, files, job, describe, now).value;
    var (status, failed) := WorkingState(job, describe).value;
    var s1 := s.(jobs := PollWrite(s.jobs, job, describe));
    var s2 := if status == "Restoring"
              then Tally(s1, job, status, failed, |FilesOf(files, job.jobId, false)|, |FilesOf(files, job.jobId, true)|)
              else s1;
    TallyAppends(s1, job, status, failed, |FilesOf(files, job.jobId, false)|, |FilesOf(files, job.jobId, true)|);
    var s3 := Finish(s2, job, "Timeout", 0, 0);
    assert r.published[..|s3.published|] == s3.published;
    assert r.published[|s3.published| - 1] == Message(job.jobId, job.batchJobId, "Timeout", 0, 0);
    assert r.published[|s.published|..][|s3.published| - 1 - |s.published|] == Message(job.jobId, job.batchJobId, "Timeout", 0, 0);
  }

  /**
   * A Failed or Cancelled working status, stored or just polled, deletes the
   * row and announces that status with both counts "0" (after a Timeout
   * notice if the job is also overdue).
   */
  lemma StepFailedOrCancelledDeletes(s: PassState, files: map<FileKey, FileRow>, job: JobRow,
                                     describe: string -> DescribeResponse, now: int)
    requires WorkingState(job, describe).Some?
    requires WorkingState(job, describe).value.0 == "Failed" || WorkingState(job, describe).value.0 == "Cancelled"
    ensures StepJob(s, files, job, describe, now) ==
            Some(PassState(s.jobs - {job.jobId},
                           s.published + TimeoutNotice(job, now)
                           + [Message(job.jobId, job.batchJobId, WorkingState(job, describe).value.0, 0, 0)],
                           s.finished))
  {
    var (status, failed) := WorkingState(job, describe).value;
    PollWriteOnlyOwnRow(s.jobs, job, describe);
    var s1 := s.(jobs := PollWrite(s.jobs, job, describe));
    var s3 := if TimedOut(job, now) then Finish(s1, job, "Timeout", 0, 0) else s1;
    assert s3.published == s.published + TimeoutNotice(job, now);
    var s4 := Finish(s3, job, status, 0, 0);
    assert s4.jobs == s.jobs - {job.jobId};
  }

  /**
   * A stored status other than Restoring, Failed and Cancelled (the
   * provider's single-l Canceled among them) makes the iteration do nothing
   * until the job is overdue.
   */
  lemma StepIgnoresOtherStoredStatus(s: PassState, files: map<FileKey, FileRow>, job: JobRow,
                                     describe: string -> DescribeResponse, now: int)
    requires job.jobStatus.Some? && job.failedFiles.Some?
    requires job.jobStatus.value != "Restoring" && job.jobStatus.value != "Failed" && job.jobStatus.value != "Cancelled"
    requires !TimedOut(job, now)
    ensures StepJob(s, files, job, describe, now) == Some(s)
  {
  }

  lemma TallyAppends(s: PassState, job: JobRow, status: string, failed: nat, pending: nat, done: nat)
    ensures var r := Tally(s, job, status, failed, pending, done);
            && |s.published| <= |r.published| && r.published[..|s.published|] == s.published
            && r.jobs.Keys <= s.jobs.Keys
            && (forall id :: id in s.jobs && id != job.jobId ==> id in r.jobs && r.jobs[id] == s.jobs[id])
  {
  }

  /**
   * An iteration only touches its own row, never adds a row, and only
   * appends to the published notifications.
   */
  lemma StepAppends(s: PassState, files: map<FileKey, FileRow>, job: JobRow,
                    describe: string -> DescribeResponse, now: int)
    requires StepJob(s, files, job, describe, now).Some?
    ensures var r := StepJob(s, files, job, describe, now).value;
            && |s.published| <= |r.published| && r.published[..|s.published|] == s.published
            && r.jobs.Keys <= s.jobs.Keys
            && (forall id :: id in s.jobs && id != job.jobId ==> id in r.jobs && r.jobs[id] == s.jobs[id])
  {
    var (status, failed) := WorkingState(job, describe).value;
    var s1 := s.(jobs := PollWrite(s.jobs, job, describe));
    PollWriteOnlyOwnRow(s.jobs, job, describe);
    TallyAppends(s1, job, status, failed, |FilesOf(files, job.jobId, false)|, |FilesOf(files, job.jobId, true)|);
  }

  /** A pass never creates a Jobs row and only appends notifications. */
  lemma {:induction false} PassAppends(s: PassState, files: map<FileKey, FileRow>, snapshot: seq<JobRow>,
                                       describe: string -> DescribeResponse, now: int)
    ensures var r := RunPass(s, files, snapshot, describe, now).state;
            && r.jobs.Keys <= s.jobs.Keys
            && |s.published| <= |r.published| && r.published[..|s.published|] == s.published
    decreases |snapshot|
  {
    if snapshot != [] && StepJob(s, files, snapshot[0], describe, now).Some? {
      var s' := StepJob(s, files, snapshot[0], describe, now).value;
      StepAppends(s, files, snapshot[0], describe, now);
      PassAppends(s', files, snapshot[1..], describe, now);
    }
  }

  /** After a completed pass, no scanned job that was overdue is left in the Jobs table. */
  lemma {:induction false} PassRemovesOverdueJobs(s: PassState, files: map<FileKey, FileRow>, snapshot: seq<JobRow>,
                                                  describe: string -> DescribeResponse, now: int)
    requires RunPass(s, files, snapshot, describe, now).completed
    ensures forall i :: 0 <= i < |snapshot| && TimedOut(snapshot[i], now) ==>
              snapshot[i].jobId !in RunPass(s, files, snapshot, describe, now).state.jobs
    decreases |snapshot|
  {
    if snapshot != [] {
      var s' := StepJob(s, files, snapshot[0], describe, now).value;
      PassRemovesOverdueJobs(s', files, snapshot[1..], describe, now);
      PassAppends(s', files, snapshot[1..], describe, now);
      if TimedOut(snapshot[0], now) {
        StepTimeoutDeletes(s, files, snapshot[0], describe, now);
      }
      forall i | 1 <= i < |snapshot| && TimedOut(snapshot[i], now)
        ensures snapshot[i].jobId !in RunPass(s, files, snapshot, describe, now).state.jobs
      {
        assert snapshot[i] == snapshot[1..][i - 1];
      }
    }
  }

  /**
   * When every scanned row is well formed, a pass runs to the end exactly
   * when every bulk job it has to poll is described successfully.
   */
  lemma {:induction false} PassCompletesUnlessDescribeFails(s: PassState, files: map<FileKey, FileRow>, snapshot: seq<JobRow>,
                                                            describe: string -> DescribeResponse, now: int)
    requires forall i :: 0 <= i < |snapshot| ==> RowWellFormed(snapshot[i])
    ensures RunPass(s, files, snapshot, describe, now).completed <==>
            forall i :: 0 <= i < |snapshot| && snapshot[i].jobStatus.None? ==> describe(snapshot[i].batchJobId).Described?
    decreases |snapshot|
  {
    if snapshot != [] {
      var job := snapshot[0];
      assert RowWellFormed(job);
      if StepJob(s, files, job, describe, now).Some? {
        var s' := StepJob(s, files, job, describe, now).value;
        PassCompletesUnlessDescribeFails(s', files, snapshot[1..], describe, now);
        assert forall i :: 1 <= i < |snapshot| ==> snapshot[i] == snapshot[1..][i - 1];
      } else {
        assert job.jobStatus.None? && describe(job.batchJobId).DescribeFailed?;
      }
    }
  }

  /** The scanned rows are distinct rows of the table, as they were when scanned. */
  predicate RowsAsScanned(snapshot: seq<JobRow>, jobs: map<string, JobRow>)
  {
    && (forall i, j :: 0 <= i < j < |snapshot| ==> snapshot[i].jobId != snapshot[j].jobId)
    && (forall i :: 0 <= i < |snapshot| && snapshot[i].jobId in jobs ==> jobs[snapshot[i].jobId] == snapshot[i])
  }

  /** The bulk job service never reports a status named Restoring for a job the pass polls. */
  predicate NoProviderRestoring(snapshot: seq<JobRow>, describe: string -> DescribeResponse)
  {
    forall i :: 0 <= i < |snapshot| && snapshot[i].jobStatus.None? && describe(snapshot[i].batchJobId).Described? ==>
      describe(snapshot[i].batchJobId).status != "Restoring"
  }

  lemma StepKeepsWellFormed(s: PassState, files: map<FileKey, FileRow>, job: JobRow,
                            describe: string -> DescribeResponse, now: int)
    requires JobsWellFormed(s.jobs)
    requires job.jobId in s.jobs ==> s.jobs[job.jobId] == job
    requires job.jobStatus.None? && describe(job.batchJobId).Described? ==> describe(job.batchJobId).status != "Restoring"
    requires StepJob(s, files, job, describe, now).Some?
    ensures JobsWellFormed(StepJob(s, files, job, describe, now).value.jobs)
  {
    var (status, failed) := WorkingState(job, describe).value;
    var s1 := s.(jobs := PollWrite(s.jobs, job, describe));
    assert JobsWellFormed(s1.jobs);
    assert status == "Restoring" && job.jobId in s1.jobs ==> s1.jobs[job.jobId].failedFiles.Some?;
    if status == "Restoring" {
      var s2 := Tally(s1, job, status, failed, |FilesOf(files, job.jobId, false)|, |FilesOf(files, job.jobId, true)|);
      assert JobsWellFormed(s2.jobs);
    }
  }

  /**
   * A pass keeps every Jobs row well formed (so the reconciler's read of
   * BatchOpsFailedFiles never misses), given that the scan lists rows of the
   * table and the provider never reports Restoring.
   */
  lemma {:induction false} PassKeepsWellFormed(s: PassState, files: map<FileKey, FileRow>, snapshot: seq<JobRow>,
                                               describe: string -> DescribeResponse, now: int)
    requires JobsWellFormed(s.jobs)
    requires RowsAsScanned(snapshot, s.jobs)
    requires NoProviderRestoring(snapshot, describe)
    ensures JobsWellFormed(RunPass(s, files, snapshot, describe, now).state.jobs)
    decreases |snapshot|
  {
    if snapshot != [] && StepJob(s, files, snapshot[0], describe, now).Some? {
      var job := snapshot[0];
      var s' := StepJob(s, files, job, describe, now).value;
      StepKeepsWellFormed(s, files, job, describe, now);
      StepAppends(s, files, job, describe, now);
      var rest := snapshot[1..];
      forall i | 0 <= i < |rest| && rest[i].jobId in s'.jobs
        ensures s'.jobs[rest[i].jobId] == rest[i]
      {
        assert rest[i] == snapshot[i + 1];
        assert rest[i].jobId != job.jobId;
      }
      assert RowsAsScanned(rest, s'.jobs);
      assert NoProviderRestoring(rest, describe) by {
        forall i | 0 <= i < |rest| ensures rest[i] == snapshot[i + 1] { }
      }
      PassKeepsWellFormed(s', files, rest, describe, now);
    }
  }

  /**
   * The reliance on the provider's vocabulary is real: a provider status
   * spelt Restoring is passed through unwritten, the progress write then
   * sets JobStatus alone, and the row is no longer well formed.
   */
  lemma ProviderRestoringBreaksWellFormed()
    ensures var job := JobRow("j", 1, "b", 0, None, None, None, None);
            var files := map[FileKey("bucket", "key") := FileRow(Some("j"), false, Some(0))];
            var describe := (id: string) => Described("Restoring", None);
            var r := StepJob(PassState(map["j" := job], [], ""), files, job, describe, 0);
            && JobsWellFormed(map["j" := job])
            && r.Some? && !JobsWellFormed(r.value.jobs)
  {
    var job := JobRow("j", 1, "b", 0, None, None, None, None);
    var files := map[FileKey("bucket", "key") := FileRow(Some("j"), false, Some(0))];
    var describe := (id: string) => Described("Restoring", None);
    assert FilesOf(files, "j", false) == {FileKey("bucket", "key")};
    assert FilesOf(files, "j", true) == {};
    var s := PassState(map["j" := job], [], "");
    assert WorkingState(job, describe) == Some(("Restoring", 0));
    assert PollWrite(s.jobs, job, describe) == s.jobs;
    var r := StepJob(s, files, job, describe, 0);
    assert r.Some? && r.value.jobs["j"].jobStatus == Some("Restoring") && r.value.jobs["j"].failedFiles.None?;
  }

  /**
   * While no more files are pending than the job has, the progress figure
   * is 1 when more than half are pending and 0 otherwise: it is never a
   * percentage.
   */
  lemma ProgressIsZeroOrOne(pending: nat, totalFiles: nat)
    requires pending <= totalFiles
    ensures Progress(pending, totalFiles) == if 2 * pending > totalFiles then 1 else 0
  {
    if totalFiles != 0 {
      var r := if 2 * pending > totalFiles then 1 else 0;
      Rounding.RoundHalfEvenUnique(pending, totalFiles, r);
    }
  }

  /** As files finish (fewer pending), the progress figure never rises. */
  lemma ProgressNeverRisesAsFilesFinish(pending: nat, pending': nat, totalFiles: nat)
    requires pending' <= pending <= totalFiles
    ensures Progress(pending', totalFiles) <= Progress(pending, totalFiles)
  {
    ProgressIsZeroOrOne(pending, totalFiles);
    ProgressIsZeroOrOne(pending', totalFiles);
  }
}
