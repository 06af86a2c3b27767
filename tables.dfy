/**
 * The persistent state the three handlers share: the Jobs table, the Files
 * table, the notifications published to the topic, the bucket notification
 * configurations written, and the bulk (batch) restore jobs submitted.
 */
module Tables {
  import opened Wrappers

  /** Primary key of the Files table. */
  datatype FileKey = FileKey(bucket: string, key: string)

  /**
   * A Files-table row. An intake row carries all attributes; the listener's
   * update of a key no intake wrote creates a row holding only the flag, so
   * JobId and TimeToLive are optional.
   */
  datatype FileRow = FileRow(jobId: Option<string>, restored: bool, timeToLive: Option<int>)

  /**
   * A Jobs-table row. JobId, TotalFiles, BatchJobId and Timestamp are written
   * by the intake; the other attributes are absent until the reconciler
   * writes them. Times are whole seconds.
   */
  datatype JobRow = JobRow(
    jobId: string,
    totalFiles: nat,
    batchJobId: string,
    timestamp: int,
    jobStatus: Option<string>,
    batchOpsStatus: Option<string>,
    failedFiles: Option<nat>,
    progress: Option<int>)

  /** The message published to the notification topic. */
  datatype Notification = Notification(
    jobId: string,
    batchJobId: string,
    status: string,
    progressPercent: string,
    failedBatchFiles: string)

  /** One entry of a bucket's `QueueConfigurations`. */
  datatype QueueConfig = QueueConfig(events: seq<string>, id: string, queueArn: string)

  /** A `put_bucket_notification_configuration` call that took effect. */
  datatype ConfigWrite = ConfigWrite(bucket: string, queueConfigurations: seq<QueueConfig>)

  /** The arguments of one `create_job` (bulk restore) submission. */
  datatype BatchJobRequest = BatchJobRequest(
    accountId: string,
    confirmationRequired: bool,
    clientRequestToken: string,
    manifestFormat: string,
    manifestFields: seq<string>,
    manifestObjectArn: string,
    manifestEtag: string,
    expirationInDays: int,
    glacierJobTier: string,
    reportBucket: string,
    reportFormat: string,
    reportEnabled: bool,
    reportScope: string,
    priority: int,
    roleArn: string,
    clientTag: string)

  /**
   * Every Jobs row is stored under its own JobId, and a row that has a
   * JobStatus also has BatchOpsFailedFiles (the reconciler reads the latter
   * whenever the former is present).
   */
  predicate JobsWellFormed(jobs: map<string, JobRow>)
  {
    forall id :: id in jobs ==> jobs[id].jobId == id && RowWellFormed(jobs[id])
  }

  predicate RowWellFormed(row: JobRow)
  {
    row.jobStatus.Some? ==> row.failedFiles.Some?
  }

  class Store {
    var jobs: map<string, JobRow>
    var files: map<FileKey, FileRow>
    var published: seq<Notification>
    var bucketConfigs: seq<ConfigWrite>
    var batchRequests: seq<BatchJobRequest>

    constructor ()
      ensures jobs == map[] && files == map[]
      ensures published == [] && bucketConfigs == [] && batchRequests == []
    {
      jobs, files := map[], map[];
      published, bucketConfigs, batchRequests := [], [], [];
    }
  }
}
