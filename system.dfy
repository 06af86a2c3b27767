/**
 * How the three handlers meet in the two tables: the intake seeds a job's
 * pending Files rows and its Jobs row, the listener moves files from
 * pending to restored, and the reconciler reads both to report and retire
 * the job.
 */
module System {
  import opened Wrappers
  import opened Tables
  import Intake
  import Listener
  import Reconciler

  /**
   * For a fresh job id, the Files rows an intake puts are exactly the job's
   * pending files, none is restored yet, and (for distinct lines) their
   * number is the TotalFiles the Jobs row records.
   */
  lemma IntakeSeedsPendingFiles(files: map<FileKey, FileRow>, jobId: string, lines: seq<string>, now: int)
    requires Intake.AllWellFormed(lines)
    requires forall k :: k in files ==> files[k].jobId != Some(jobId)
    ensures Reconciler.FilesOf(Intake.PutItems(files, jobId, lines, now), jobId, false) == Intake.LineKeys(lines)
    ensures Reconciler.FilesOf(Intake.PutItems(files, jobId, lines, now), jobId, true) == {}
    ensures (forall i, j :: 0 <= i < j < |lines| ==> lines[i] != lines[j]) ==>
              |Reconciler.FilesOf(Intake.PutItems(files, jobId, lines, now), jobId, false)| == |lines|
  {
    var after := Intake.PutItems(files, jobId, lines, now);
    Intake.PutItemsRegistersLines(files, jobId, lines, now);
    assert Reconciler.FilesOf(after, jobId, false) == Intake.LineKeys(lines);
    assert Reconciler.FilesOf(after, jobId, true) == {};
    if forall i, j :: 0 <= i < j < |lines| ==> lines[i] != lines[j] {
      Intake.LineKeysCount(lines);
    }
  }

  /** The Jobs row an intake writes is well formed, so the table stays well formed. */
  lemma IntakeKeepsWellFormed(jobs: map<string, JobRow>, jobId: string, totalFiles: nat, batchJobId: string, now: int)
    requires JobsWellFormed(jobs)
    ensures JobsWellFormed(jobs[jobId := Intake.NewJobRow(jobId, totalFiles, batchJobId, now)])
  {
  }

  /**
   * A restore-completed event for a pending file of a job moves that one
   * file from the job's pending set to its restored set, and changes no
   * other job's files.
   */
  lemma MarkingMovesOneFile(files: map<FileKey, FileRow>, k: FileKey, jobId: string)
    requires k in Reconciler.FilesOf(files, jobId, false)
    ensures Reconciler.FilesOf(Listener.MarkRestored(files, k), jobId, false) == Reconciler.FilesOf(files, jobId, false) - {k}
    ensures Reconciler.FilesOf(Listener.MarkRestored(files, k), jobId, true) == Reconciler.FilesOf(files, jobId, true) + {k}
    ensures forall other, restored :: other != jobId ==>
              Reconciler.FilesOf(Listener.MarkRestored(files, k), other, restored) == Reconciler.FilesOf(files, other, restored)
  {
    var after := Listener.MarkRestored(files, k);
    assert after == files[k := files[k].(restored := true)];
    forall other, restored | other != jobId
      ensures Reconciler.FilesOf(after, other, restored) == Reconciler.FilesOf(files, other, restored)
    {
      assert files[k].jobId == Some(jobId);
    }
  }

  /** An event for an object that no manifest named leaves every job's files as they were. */
  lemma StrayEventTouchesNoJob(files: map<FileKey, FileRow>, k: FileKey)
    requires k !in files
    ensures forall jobId, restored ::
              Reconciler.FilesOf(Listener.MarkRestored(files, k), jobId, restored) == Reconciler.FilesOf(files, jobId, restored)
  {
    var after := Listener.MarkRestored(files, k);
    assert after[k].jobId.None?;
    forall jobId, restored
      ensures Reconciler.FilesOf(after, jobId, restored) == Reconciler.FilesOf(files, jobId, restored)
    {
      assert forall k' :: k' in after && k' != k ==> k' in files && after[k'] == files[k'];
    }
  }

  /** The answer of a bulk job that completed with no failed task. */
  function CompletedBulkJob(batchJobId: string): Reconciler.DescribeResponse
  {
    Reconciler.Described("Complete", Some(0))
  }

  /** The Jobs row of the two-file job after its first pass. */
  const TrackedRow: JobRow := JobRow("j", 2, "b", 0, Some("Restoring"), Some("Complete"), Some(0), Some(1))

  lemma LifecycleFirstPass(files: map<FileKey, FileRow>, k1: FileKey, k2: FileKey)
    requires k1 != k2 && files == map[k1 := Intake.NewFileRow("j", 0), k2 := Intake.NewFileRow("j", 0)]
    ensures Reconciler.RunPass(Reconciler.PassState(map["j" := Intake.NewJobRow("j", 2, "b", 0)], [], ""),
                               files, [Intake.NewJobRow("j", 2, "b", 0)], CompletedBulkJob, 60)
            == Reconciler.PassOutcome(Reconciler.PassState(map["j" := TrackedRow], [], ""), true)
  {
    var job := Intake.NewJobRow("j", 2, "b", 0);
    var s := Reconciler.PassState(map["j" := job], [], "");
    assert Reconciler.FilesOf(files, "j", false) == {k1, k2};
    Reconciler.ProgressIsZeroOrOne(2, 2);
    Reconciler.StepFirstProgressIsNotAnnounced(s, files, job, CompletedBulkJob, 60);
    Reconciler.StepAppends(s, files, job, CompletedBulkJob, 60);
    var s1 := Reconciler.StepJob(s, files, job, CompletedBulkJob, 60).value;
    assert s1.jobs == map["j" := TrackedRow];
  }

  lemma LifecycleSecondPass(files: map<FileKey, FileRow>, k2: FileKey)
    requires Reconciler.FilesOf(files, "j", false) == {k2}
    ensures Reconciler.RunPass(Reconciler.PassState(map["j" := TrackedRow], [], ""), files, [TrackedRow], CompletedBulkJob, 120)
            == Reconciler.PassOutcome(Reconciler.PassState(map["j" := TrackedRow.(progress := Some(0))],
                                                           [Reconciler.Message("j", "b", "Restoring", 0, 0)], ""), true)
  {
    var s := Reconciler.PassState(map["j" := TrackedRow], [], "");
    Reconciler.ProgressIsZeroOrOne(1, 2);
    Reconciler.StepChangedProgressNotifies(s, files, TrackedRow, CompletedBulkJob, 120);
    var s2 := Reconciler.StepJob(s, files, TrackedRow, CompletedBulkJob, 120).value;
    assert s2.jobs == map["j" := TrackedRow.(progress := Some(0))];
  }

  lemma LifecycleThirdPass(files: map<FileKey, FileRow>, k1: FileKey)
    requires Reconciler.FilesOf(files, "j", false) == {} && k1 in Reconciler.FilesOf(files, "j", true)
    ensures var s := Reconciler.PassState(map["j" := TrackedRow.(progress := Some(0))],
                                          [Reconciler.Message("j", "b", "Restoring", 0, 0)], "");
            Reconciler.RunPass(s, files, [TrackedRow.(progress := Some(0))], CompletedBulkJob, 180)
            == Reconciler.PassOutcome(Reconciler.PassState(map[], s.published + [Reconciler.Message("j", "b", "Complete", 100, 0)], "j, "), true)
  {
    var row := TrackedRow.(progress := Some(0));
    var s := Reconciler.PassState(map["j" := row], [Reconciler.Message("j", "b", "Restoring", 0, 0)], "");
    assert Reconciler.WorkingState(row, CompletedBulkJob) == Some(("Restoring", 0));
    Reconciler.StepAllRestoredCompletes(s, files, row, CompletedBulkJob, 180);
    assert map["j" := row] - {"j"} == map[];
  }

  /**
   * The life of a two-file job whose bulk job completes: the first pass
   * records progress 1 silently, the pass after one file is restored
   * announces Restoring with progress "0", and the pass after both are
   * restored announces Complete with "100" and deletes the row.
   */
  lemma TwoFileJobLifecycle(k1: FileKey, k2: FileKey)
    requires k1 != k2
    ensures
      var files0 := map[k1 := Intake.NewFileRow("j", 0), k2 := Intake.NewFileRow("j", 0)];
      var jobs0 := map["j" := Intake.NewJobRow("j", 2, "b", 0)];
      var pass1 := Reconciler.RunPass(Reconciler.PassState(jobs0, [], ""), files0, [jobs0["j"]], CompletedBulkJob, 60);
      && pass1.completed && pass1.state.published == [] && "j" in pass1.state.jobs
      && pass1.state.jobs["j"].progress == Some(1)
      && var files1 := Listener.MarkRestored(files0, k1);
         var pass2 := Reconciler.RunPass(pass1.state, files1, [pass1.state.jobs["j"]], CompletedBulkJob, 120);
         && pass2.completed && "j" in pass2.state.jobs
         && pass2.state.published == [Reconciler.Message("j", "b", "Restoring", 0, 0)]
         && var files2 := Listener.MarkRestored(files1, k2);
            var pass3 := Reconciler.RunPass(pass2.state, files2, [pass2.state.jobs["j"]], CompletedBulkJob, 180);
            && pass3.completed && pass3.state.jobs == map[]
            && pass3.state.published == [Reconciler.Message("j", "b", "Restoring", 0, 0),
                                         Reconciler.Message("j", "b", "Complete", 100, 0)]
            && pass3.state.finished == "j, "
  {
    var files0 := map[k1 := Intake.NewFileRow("j", 0), k2 := Intake.NewFileRow("j", 0)];
    LifecycleFirstPass(files0, k1, k2);

    var files1 := Listener.MarkRestored(files0, k1);
    assert Reconciler.FilesOf(files0, "j", false) == {k1, k2};
    MarkingMovesOneFile(files0, k1, "j");
    LifecycleSecondPass(files1, k2);

    var files2 := Listener.MarkRestored(files1, k2);
    MarkingMovesOneFile(files1, k2, "j");
    LifecycleThirdPass(files2, k1);
  }
}
