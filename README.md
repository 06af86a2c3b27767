# Bulk restore orchestration: a verified model

This project models the three functions that restore archived objects in
bulk and track the restore until it finishes:

- **Job intake** (`src/api/app.py`). It reads a manifest of
  `bucket,key` lines and subscribes every bucket it names to
  restore-completed events. It then submits one bulk restore job and writes
  one Files row per line, followed by the Jobs row.
- **Object completion listener** (`src/s3restore/app.py`). For each
  restore-completed event it receives, it sets RestoreStatus on the matching
  Files row.
- **Job reconciler** (`src/timetriggerSNS/app.py`). It runs on a timer and
  scans the Jobs table. For each job it polls the bulk job's status, counts
  the job's pending and restored files, records progress and publishes
  notifications. It deletes the jobs that are finished, empty, failed or
  overdue.

The two tables, the notification topic and the logs of bucket-configuration
writes and bulk job submissions are the fields of one `Tables.Store` object.
Each handler is a method that changes those fields in place. Each method is
proved against a specification function of the old state: `Reconciler.RunPass`
and `Reconciler.StepJob` for a reconciler pass, `Listener.Deliver` for a
listener batch, and `Intake.PutItems`, `Intake.BucketsOf` and
`Intake.FirstMalformed` for an intake. The lemmas state what the functions
promise.

Python's own behaviour is written out where the handlers depend on it:

- `str.split(",")` and `str.splitlines()` are `Text.Split` and `Text.SplitLines`.
- `str()` of an integer is `Decimal.Show`.
- `round()` of a quotient, which rounds half to even, is `Rounding.RoundHalfEven`.
- A DynamoDB `update_item` on the Files table is an upsert (`Listener.MarkRestored`).

Collaborators outside the model are inputs:

- A describe-job answer is a function from the bulk job id to its answer.
- The scan pages are a sequence of answers.
- The manifest text, the buckets that refuse a notification configuration,
  the manifest's ETag and the bulk job id returned on submission are
  optional values. An absent value is the collaborator's failure.
- The clock is one `now` in seconds per call.

The handlers behave in a few ways that a reader might not expect. The
model follows the code in each case:

- **Progress does not grow as files finish.** The figure is
  `round(pending / TotalFiles)`, not a percentage of the files done. It is
  therefore 1 while more than half the files are pending and 0 afterwards
  (`Reconciler.ProgressIsZeroOrOne`). It never rises as files finish
  (`Reconciler.ProgressNeverRisesAsFilesFinish`).
- **A malformed manifest line does not undo the intake.** The bucket
  subscriptions and the bulk job are already in place, and the Files rows
  of the lines before it stay written (`Intake.DynamoDbInsert`,
  `Intake.HandleIntake`).
- **A job can be announced more than once in one pass.** The tally, the
  timeout check and the failure check are independent `if`s. An empty or
  finished job that is also overdue is announced once by the tally and once
  more as `Timeout`.
- **A failed status poll aborts the whole pass.** The poll returns a name
  that was never bound, so the exception stops the loop; the rows after it
  are not processed in this pass. This is
  `Reconciler.PassCompletesUnlessDescribeFails`.
- **Two spellings of a cancelled status.** The poll's set of finished
  statuses names `Canceled` (one l), while the failure check compares with
  `Cancelled` (two l). Which spelling the bulk service reports is not
  settled by the code. If it reports `Cancelled`, the poll does not write
  that status, but the failure check deletes and announces the job in the
  same pass (`Reconciler.StepFailedOrCancelledDeletes`). Only if it
  reports `Canceled` is that status written, and the job then stays in the
  table until it times out (`Reconciler.StepIgnoresOtherStoredStatus`).
- **A provider status literally `Restoring` would break the Jobs table.** It
  is passed through unwritten, and the progress write then sets JobStatus
  without BatchOpsFailedFiles. The next pass fails on that row
  (`Reconciler.ProviderRestoringBreaksWellFormed`). Preservation of a
  well-formed table (`Reconciler.PassKeepsWellFormed`) is proved on the
  condition that the provider never reports that status.

## Model

| member | source | states |
|---|---|---|
| Reconciler.ScannedItems | src/timetriggerSNS/app.py:218-226 | The items of the pages read by following LastEvaluatedKey, stopping at a failed page or a page without a next key. Its behaviour is stated by `Reconciler.ScanConcatenatesPages` and `Reconciler.ScanErrorKeepsEarlierPages`. |
| Reconciler.Scan | src/timetriggerSNS/app.py:214-230 | The scan's result: nothing when the first page fails, otherwise the items of the pages read by following LastEvaluatedKey, stopping at a failed page. |
| Reconciler.RunPass | src/timetriggerSNS/app.py:38-124 | The handler's loop: one step per scanned row in order, ending early with the writes made so far when a step raises. |
| Reconciler.StepJob | src/timetriggerSNS/app.py:39-121 | One iteration: the poll (or the stored status), then the tally, the timeout check and the failure check, in that order; nothing when reading the status raises. |
| Reconciler.PollWrite | src/timetriggerSNS/app.py:164-190 | The poll writes the job's row only when the provider answered with a finished status. |
| Reconciler.WorkingState | src/timetriggerSNS/app.py:43-51 | The status and failed count a step works with: from the poll when the row has no JobStatus (nothing when the describe call fails, where the source raises on an unbound name), otherwise the row's own, nothing when its BatchOpsFailedFiles is missing. Stated by `Reconciler.WorkingStatus`, `Reconciler.GetJobStatusAndUpdateTable` and `Reconciler.PassCompletesUnlessDescribeFails`. |
| Reconciler.SetBatchStatus | src/timetriggerSNS/app.py:232-252 | On an existing row, sets BatchOpsStatus, BatchOpsFailedFiles, JobStatus and progress 0; a missing row stays missing. Stated by `Reconciler.PollRecordsFinishedStatus` and `Reconciler.PollWriteOnlyOwnRow`. |
| Reconciler.SetProgress | src/timetriggerSNS/app.py:143-161 | On an existing row, sets the progress figure and JobStatus Restoring; a missing row stays missing. Stated by `Reconciler.StepChangedProgressNotifies` and `Reconciler.StepFirstProgressIsNotAnnounced`. |
| Reconciler.FilesOf | src/timetriggerSNS/app.py:198-210 | The keys of the job's Files rows whose RestoreStatus is the requested flag. `Reconciler.GetFilesPerJob` returns exactly this set. |
| Reconciler.Finish | src/timetriggerSNS/app.py:103-111 | A finishing branch: the job's row is deleted, then one notification about it is appended. Each of the four finishing branches (62-79, 103-111, 114-121) is one such step. Stated by `Reconciler.StepAppends`. |
| Reconciler.TallyIfRestoring | src/timetriggerSNS/app.py:53 | The tally runs only when the working status is Restoring. Stated by `Reconciler.StepIgnoresOtherStoredStatus`. |
| Reconciler.RecordProgress | src/timetriggerSNS/app.py:82-101 | The progress branch: with a stored figure, an unchanged one does nothing and a changed one is written and announced; without one, it is written silently. Stated by `Reconciler.StepUnchangedProgressIsSilent`, `Reconciler.StepChangedProgressNotifies` and `Reconciler.StepFirstProgressIsNotAnnounced`. |
| Reconciler.TimedOut | src/timetriggerSNS/app.py:104-106 | A job is overdue once the clock is past its Timestamp plus five days (432000 seconds). |
| Reconciler.CheckTimeout | src/timetriggerSNS/app.py:103-111 | An overdue job is deleted and announced as Timeout with both counts 0. Stated by `Reconciler.StepTimeoutDeletes`. |
| Reconciler.TimeoutNotice | src/timetriggerSNS/app.py:111 | The Timeout notification with both counts "0" for an overdue job, none otherwise. |
| Reconciler.CheckFailure | src/timetriggerSNS/app.py:114-121 | A Failed or Cancelled working status deletes the row and announces that status with both counts 0. Stated by `Reconciler.StepFailedOrCancelledDeletes`. |
| Reconciler.TallyAppends | src/timetriggerSNS/app.py:53-101 | The tally only deletes the job's own row, leaves every other row as it was, and only appends notifications. |
| Reconciler.Tally | src/timetriggerSNS/app.py:53-101 | The three independent checks on the pending and restored counts: Cancelled for no files, Complete for none pending, otherwise the progress update. |
| Reconciler.Progress | src/timetriggerSNS/app.py:82-85 | 0 for a job without files; otherwise the integer nearest to pending / TotalFiles, a tie going to the even one. |
| Reconciler.HandleTimer | src/timetriggerSNS/app.py:29-128 | A failed first scan raises and writes nothing. Otherwise the Jobs table and the topic end as the pass over the scanned rows leaves them. The answer is 200 with the finished-jobs text only if no row raised. The Files table is untouched. |
| Reconciler.ReconcileJob | src/timetriggerSNS/app.py:39-121 | One loop iteration has exactly the effect of the per-row step: the poll, the tally, the timeout check and the failure check, in that order. It returns the updated finished-jobs text, or nothing when the row raises. |
| Reconciler.TallyJob | src/timetriggerSNS/app.py:53-101 | For a Restoring job, the Jobs table, the topic and the finished-jobs text end exactly as the tally of its pending and restored Files rows gives: Cancelled when it has none, Complete when none are pending, otherwise the progress update. |
| Reconciler.GetAllJobIds | src/timetriggerSNS/app.py:214-230 | The pagination loop returns what the scan specification gives: an error on the first page propagates, and an error on a later page ends the loop with the items read so far. |
| Reconciler.ScanConcatenatesPages | src/timetriggerSNS/app.py:218-226 | Without errors, the scan returns the items of all pages in page order. |
| Reconciler.ScannedChainedPages | src/timetriggerSNS/app.py:223-226 | Following LastEvaluatedKey through chained pages gathers every page's items. |
| Reconciler.ScanErrorKeepsEarlierPages | src/timetriggerSNS/app.py:221-230 | An error on page k (k >= 1) yields exactly the items of the pages before k. |
| Reconciler.GetFilesPerJob | src/timetriggerSNS/app.py:198-210 | Returns exactly the Files rows of the job whose RestoreStatus equals the requested flag. |
| Reconciler.GetJobStatusAndUpdateTable | src/timetriggerSNS/app.py:164-195 | Returns the working status and failed count (nothing when the describe call fails). It writes the row only for a finished provider status. |
| Reconciler.WorkingStatus | src/timetriggerSNS/app.py:176-181 | The working status is Restoring exactly when the provider says Complete or Restoring; any other provider status is kept as it is. |
| Reconciler.PollRecordsFinishedStatus | src/timetriggerSNS/app.py:174-190 | For a finished provider status, the row records that status, the failed count (0 without a progress summary) and progress 0. JobStatus is Restoring exactly when the provider said Complete, and the row stays well formed. Other statuses and other rows are unchanged. |
| Reconciler.PollWriteOnlyOwnRow | src/timetriggerSNS/app.py:232-248 | The poll's write adds no row and changes no row but the job's own. |
| Reconciler.UpdateJobItemBatchStatus | src/timetriggerSNS/app.py:232-252 | Sets BatchOpsStatus, BatchOpsFailedFiles, JobStatus and progress 0 on the job's row. |
| Reconciler.UpdateJobProgress | src/timetriggerSNS/app.py:143-161 | Sets the progress figure and JobStatus Restoring on the job's row. |
| Reconciler.CleanJob | src/timetriggerSNS/app.py:265-275 | Deletes the job's row and no other. |
| Reconciler.PublishEvent | src/timetriggerSNS/app.py:131-141 | Appends exactly one notification to the topic. |
| Reconciler.Message | src/timetriggerSNS/app.py:131-141 | The notification carries the job id, the bulk job id and the status. Its two counts are decimal numerals that read back as the given numbers. |
| Reconciler.StepEmptyJobCancelled | src/timetriggerSNS/app.py:62-68 | A Restoring job with no Files rows is deleted and announced as Cancelled with progress 0, plus Timeout when it is overdue. |
| Reconciler.StepAllRestoredCompletes | src/timetriggerSNS/app.py:71-79 | A Restoring job with no pending and some restored files is deleted and announced as Complete with progress 100, plus Timeout when it is overdue. Its id is put in front of the finished-jobs text. |
| Reconciler.StepUnchangedProgressIsSilent | src/timetriggerSNS/app.py:87-90 | When the progress figure equals the stored one, the step writes and publishes nothing. |
| Reconciler.StepChangedProgressNotifies | src/timetriggerSNS/app.py:91-97 | A changed progress figure is written with JobStatus Restoring and announced exactly once. |
| Reconciler.StepFirstProgressIsNotAnnounced | src/timetriggerSNS/app.py:98-101 | Without a stored progress figure, the computed one is written but not announced. |
| Reconciler.StepTimeoutDeletes | src/timetriggerSNS/app.py:103-111 | An overdue job is deleted, and a Timeout notice with both counts "0" is among the notices the step appends. |
| Reconciler.StepFailedOrCancelledDeletes | src/timetriggerSNS/app.py:114-121 | A Failed or Cancelled working status deletes the row and announces that status with both counts "0", after a Timeout notice when the job is overdue. |
| Reconciler.StepIgnoresOtherStoredStatus | src/timetriggerSNS/app.py:48-121 | A stored status other than Restoring, Failed or Cancelled changes nothing until the job is overdue. That includes `Canceled`, which the poll writes if the bulk service spells it that way. |
| Reconciler.StepAppends | src/timetriggerSNS/app.py:39-121 | A step only touches its own row, never adds a row, and only appends notifications. |
| Reconciler.PassAppends | src/timetriggerSNS/app.py:39-121 | A pass never creates a Jobs row and only appends notifications. |
| Reconciler.PassRemovesOverdueJobs | src/timetriggerSNS/app.py:103-111 | After a completed pass, no scanned job that was overdue remains in the Jobs table. |
| Reconciler.PassCompletesUnlessDescribeFails | src/timetriggerSNS/app.py:164-195 | With well-formed rows, a pass runs to its end exactly when every describe call it makes succeeds. |
| Tables.JobsWellFormed | src/timetriggerSNS/app.py:48-51 | Every Jobs row is stored under its own JobId and has BatchOpsFailedFiles whenever it has JobStatus, so the step's read of the failed count never misses. Preserved by `Reconciler.StepKeepsWellFormed` and `Reconciler.PassKeepsWellFormed`. |
| Reconciler.StepKeepsWellFormed | src/timetriggerSNS/app.py:43-51 | A step keeps every Jobs row well formed: stored under its own id, and with BatchOpsFailedFiles whenever it has JobStatus. This needs the provider not to report Restoring. |
| Reconciler.PassKeepsWellFormed | src/timetriggerSNS/app.py:43-51 | A pass over distinct scanned rows of the table keeps the table well formed, so the read of BatchOpsFailedFiles never misses. This needs the provider not to report Restoring. |
| Reconciler.ProviderRestoringBreaksWellFormed | src/timetriggerSNS/app.py:176-190 | A concrete job and provider answer for which a step leaves a row with JobStatus but without BatchOpsFailedFiles. |
| Reconciler.ProgressIsZeroOrOne | src/timetriggerSNS/app.py:82-85 | The progress figure is 1 when more than half the files are pending and 0 otherwise. |
| Reconciler.ProgressNeverRisesAsFilesFinish | src/timetriggerSNS/app.py:82-85 | Fewer pending files never give a higher progress figure. |
| Rounding.RoundHalfEven | src/timetriggerSNS/app.py:85 | The result r is within half a step of n/d, and an exact tie goes to the even r. |
| Rounding.RoundHalfEvenUnique | src/timetriggerSNS/app.py:85 | Any integer that rounds n/d half to even is the result of RoundHalfEven. |
| Decimal.Show | src/timetriggerSNS/app.py:139-140 | `str(n)` is a nonempty digit string, longer than one digit exactly when n >= 10, and without a leading zero. |
| Decimal.ParseShow | src/timetriggerSNS/app.py:139-140 | Reading the numeral back gives the number. |
| Decimal.ShowInjective | src/timetriggerSNS/app.py:139-140 | Different numbers give different numerals. |
| Listener.Classify | src/s3restore/app.py:18-37 | Only the first record decides. An empty Records list raises. A restore-completed event marks its bucket and key when the table name, bucket and key are all non-empty, and is rejected otherwise. Any other message is skipped. |
| Listener.MarkRestored | src/s3restore/app.py:45-57 | The upsert of RestoreStatus = true on one Files key. |
| Listener.Deliver | src/s3restore/app.py:18-42 | The messages handled in order, stopping at the first rejected or raising one with the writes made so far. |
| Listener.HandleMessages | src/s3restore/app.py:12-42 | The loop over the messages leaves the Files table and returns the result exactly as the delivery specification does. |
| Listener.UpdateItem | src/s3restore/app.py:45-61 | Sets RestoreStatus on the row with the event's bucket and key, creating the row when it is missing. |
| Listener.MarkRestoredChangesOnlyFlag | src/s3restore/app.py:45-57 | Marking adds at most the one key and sets its flag. Its other attributes and all other rows stay as they were. |
| Listener.MarkRestoredIdempotent | src/s3restore/app.py:45-57 | Marking the same key twice is the same as marking it once. |
| Listener.MarkRestoredKeepsMarked | src/s3restore/app.py:45-57 | Marking a row that is already restored changes nothing. |
| Listener.DeliverMarks | src/s3restore/app.py:18-32 | After a handled batch, every key named by a restore-completed event is present and restored. |
| Listener.DeliverKeepsMarked | src/s3restore/app.py:18-32 | A delivery never clears a restored flag. |
| Listener.DeliverOverMarked | src/s3restore/app.py:18-32 | A delivery whose keys are all already restored leaves the table as it is. |
| Listener.RedeliveryIsIdempotent | src/s3restore/app.py:18-42 | Delivering a handled batch a second time changes nothing and gives the same result. |
| Listener.DeliverResultIgnoresTable | src/s3restore/app.py:18-37 | Whether a batch is handled, rejected or crashes does not depend on the table's contents. |
| Listener.HandledIffNoRejectOrCrash | src/s3restore/app.py:18-42 | A batch answers 200 exactly when no restore-completed message has an empty bucket, key or table name, and no message has an empty Records list. |
| Listener.StopKeepsEarlierWrites | src/s3restore/app.py:31-37 | A rejected or crashing message keeps the writes of the messages before it and makes none after it. |
| Listener.SkippedMessagesChangeNothing | src/s3restore/app.py:23-25 | Messages that are not restore-completed events leave the table untouched, and the batch answers 200. |
| Listener.OnlyFirstRecordCounts | src/s3restore/app.py:24-27 | Records after the first one in a message never change what the handler does. |
| Text.Split | src/api/app.py:88 | `str.split(",")` yields at least one field, and no field contains the separator. |
| Text.JoinSplit | src/api/app.py:88 | Joining the fields with the separator gives back the line. |
| Text.SplitJoin | src/api/app.py:88 | Splitting a join of separator-free fields gives back the fields. |
| Text.SplitFieldCount | src/api/app.py:88 | A line has one more field than it has separators. |
| Text.SplitLines | src/api/app.py:159 | `str.splitlines()` yields lines without line breaks, and none at all only for empty text. What the lines contain is stated by `Text.RejoinSplitLines` and `Text.SplitLinesRejoin`. |
| Text.LineEnds | src/api/app.py:159 | The boundary that ended each line of `str.splitlines()`: exactly one per line. |
| Text.LineEndsAreTerminators | src/api/app.py:159 | Every line but an unterminated last one was ended by a line boundary. |
| Text.RejoinSplitLines | src/api/app.py:159 | For every text, the lines each followed by the boundary that ended it give back the whole text, whatever the boundaries and whether or not the last line is terminated. |
| Text.SplitLinesRejoin | src/api/app.py:159 | Break-free lines joined with any line boundaries ("\r\n" included, the last line possibly unterminated) split back into the same lines and boundaries. |
| Text.SplitLinesCrLfUnterminated | src/api/app.py:159 | A manifest with "\r\n" endings and no boundary after its last line splits into its two lines. |
| Text.SplitLinesJoinLines | src/api/app.py:159 | Lines without breaks, joined with newlines, split back into the same lines. |
| Intake.FirstField | src/api/app.py:130 | The first comma-separated field of a line (the whole line when it has no comma). `Intake.ParseLineOneComma` states that it is the bucket of a well-formed line. |
| Intake.AllWellFormed | src/api/app.py:88 | Every line unpacks into a bucket and a key. |
| Intake.ParseLine | src/api/app.py:88 | `[bucket, key] = line.split(",")`: a Files key when the line has exactly two fields, nothing otherwise. |
| Intake.ParseLineOneComma | src/api/app.py:88 | A line unpacks into bucket and key exactly when it has one comma. The line is then the bucket and the key joined by it, and the bucket is the line's first field. |
| Intake.ParseLineInjective | src/api/app.py:88 | Different well-formed lines name different Files keys. |
| Intake.NewFileRow | src/api/app.py:93-99 | The row of one manifest line: owned by the job, not restored, expiring seven days (604800 seconds) after `now`. Stated by `Intake.GetItem`. |
| Intake.GetItem | src/api/app.py:86-99 | A line yields a Files row exactly when it unpacks. The row is not restored, belongs to the job, and expires seven days after `now`. Otherwise the error is an unpacking error with a field count other than 2. |
| Intake.MalformedLineCountsFields | src/api/app.py:88 | The unpacking error counts one more field than the line has commas. |
| Intake.PutItems | src/api/app.py:104-113 | The Files table after the rows of the lines are put in order, a later put of a key replacing an earlier one. |
| Intake.BucketsOf | src/api/app.py:126-131 | The set of first fields of the manifest lines, malformed lines included. |
| Intake.FirstMalformed | src/api/app.py:109-113 | The index of the first line that does not unpack: every line before it unpacks. |
| Intake.PutItemsRegistersLines | src/api/app.py:104-113 | Putting the rows registers exactly the keys the lines name, each with a fresh row for the job. Every other row is unchanged. |
| Intake.LineKeysCount | src/api/app.py:104-118 | Distinct well-formed lines name as many keys as there are lines. |
| Intake.LineBucketSubscribed | src/api/app.py:126-131 | The bucket of every well-formed line is among the buckets the subscription step collects. |
| Intake.LineKeys | src/api/app.py:104-113 | The Files keys the lines name. Counted by `Intake.LineKeysCount`. |
| Intake.NewJobRow | src/api/app.py:115-121 | The Jobs row of a new job: JobId, TotalFiles, BatchJobId and Timestamp, with no status, failed count or progress. Stated by `System.IntakeKeepsWellFormed`. |
| Intake.ManifestArn | src/api/app.py:62 | The manifest's object ARN, `arn:aws:s3:::bucket/key`. Stated by `Intake.ManifestArnRoundTrip`. |
| Intake.ParseObjectArn | src/api/app.py:62 | Reads an object ARN back into its bucket and key, the partner of `Intake.ManifestArn`. |
| Intake.RestoreNotificationConfig | src/api/app.py:134-140 | One queue configuration: the event `s3:ObjectRestore:Completed`, the Id `Notifications` and the queue ARN. |
| Intake.SubscriptionWrites | src/api/app.py:134-145 | The configuration writes of a subscription step: each for a collected bucket that accepted it, each with the restore configuration, no bucket twice. `Intake.CheckBucketSubscription` ensures it. |
| Intake.WrittenBuckets | src/api/app.py:142-145 | The buckets whose configuration was written. |
| Intake.BatchRequestFor | src/api/app.py:52-81 | The `create_job` arguments: the account, no confirmation, the job id as request token, the CSV manifest with fields Bucket and Key, its ARN and ETag, the restore's expiration and tier, the report settings, priority 10, the role and the client tag. `Intake.CreateJob` logs exactly this request. |
| Intake.ManifestArnRoundTrip | src/api/app.py:62 | The bulk job's manifest ARN reads back as the manifest's bucket and key. |
| Intake.CheckBucketSubscription | src/api/app.py:126-145 | Writes each distinct bucket of the manifest at most once, always with the same restore-completed queue configuration. It succeeds exactly when no such bucket refuses, and then every bucket is written. A refusal names a refusing bucket of the manifest. Earlier writes stay. |
| Intake.CreateJob | src/api/app.py:42-83 | A failed ETag lookup submits nothing. Otherwise exactly one bulk job request is logged: the job id as request token, the manifest ARN and ETag, tier, expiration, report settings, priority 10, role and client tag. The result is the returned bulk job id or the submission error. |
| Intake.DynamoDbInsert | src/api/app.py:104-123 | The Files rows of the lines before the first malformed one are put. The Jobs row (TotalFiles = number of lines) is put only when every line unpacks; otherwise the unpacking error is returned. |
| Intake.HandleIntake | src/api/app.py:148-185 | Answers 200 exactly when the manifest is read, no bucket refuses, the ETag is found, the job is submitted and every line unpacks; otherwise 500. The store's refusals of a repeated or empty key are outside this, as listed below. The steps run in order and none is undone. The 200 body carries the job id, the line count and the bulk job id. |
| System.IntakeSeedsPendingFiles | src/api/app.py:104-121 | For a fresh job id, the intake's Files rows are exactly the job's pending files, none is restored, and for distinct lines their number equals TotalFiles. |
| System.IntakeKeepsWellFormed | src/api/app.py:115-121 | The Jobs row of a new job keeps the Jobs table well formed. |
| System.MarkingMovesOneFile | src/s3restore/app.py:45-57 | A restore-completed event for a pending file moves that one file from the job's pending set to its restored set. No other job's files change. |
| System.StrayEventTouchesNoJob | src/s3restore/app.py:45-57 | An event for an object that no manifest named changes no job's pending or restored files. |
| System.TwoFileJobLifecycle | src/timetriggerSNS/app.py:54-101 | A two-file job whose bulk job completes goes through three passes. The first records progress 1 silently. After one file is restored, the next announces Restoring with "0". After both are restored, the last announces Complete with "100" and deletes the row. |

## Left out

- JSON decoding and encoding are not modelled. This covers request bodies, queue message bodies, the SNS double encoding and response bodies that echo the event. A request is taken as already decoded with all five fields present; missing or mistyped fields are not modelled.
- Client construction, account lookup, environment variables and logging are configuration or output without effect on state. The notification topic is assumed to be set; the source publishes nothing when it is empty.
- The intake's 200 body also carries `ReportBucket`, read from an ARN by a third-party parser outside the handler's try block. That field is not modelled.
- Time is modelled as integer seconds, with one reading per call. The source reads the clock once per line (TimeToLive) and once per job (deadline). It stores Timestamp as an ISO text in UTC and compares it with local time. Time zones and ISO parsing are not modelled.
- Reconciler.GetFilesPerJob: returns every matching row. The source's query returns only its first result page, so for a very large job it undercounts. Pagination of the index query is not modelled.
- Rounding.RoundHalfEven: rounds the exact rational. The source rounds a floating-point quotient, which in general can differ from exact rounding even for operands below 2^53. Here the pending count never exceeds TotalFiles, so the quotient is at most 1 and a tie can be blurred only when TotalFiles is at least 2^53.
- Failures of table writes and deletes are not modelled. The reconciler catches and logs them and continues. The listener's handler would raise a NameError, because it catches an exception class it never imports. Failures of the Files index query are not modelled either; those raise in the source because the response name is unbound.
- Reconciler.UpdateJobItemBatchStatus and Reconciler.UpdateJobProgress: update only an existing row, while DynamoDB `update_item` would create a partial one. A missing row cannot occur when the scanned rows are rows of the table. Concurrent passes and intakes are not modelled.
- Intake.HandleIntake: answers 200 also for a manifest with a repeated key or an empty key field, where the store would refuse the batch and the source answers 500.
- Intake.DynamoDbInsert: writes the rows one at a time. The source buffers them in batches of 25. A batch that repeats a key is refused by the store, and so is a line with an empty key field (`bucket,`). In both cases the source answers 500; neither refusal is modelled. Two equal lines simply put the same row twice, and an empty key is put like any other.
- Listener.HandleMessages: uses the object key of the event as it is. The source does not URL-decode it either, so keys with spaces or special characters do not match their Files rows.
- The reconciler's RetentionJobTimeDays setting is read but never used by the source, so it is not modelled.
- The deletion of expired Files rows by their TimeToLive happens inside the store, outside the handlers, and is not modelled.
