/**
 * The job intake. Given a request naming a manifest object (one
 * `bucket,key` line per object to restore), it reads the manifest,
 * subscribes every bucket named in it to restore-completed events, submits
 * one bulk restore job, writes one Files row per line and finally the Jobs
 * row. Any exception ends the intake with status 500 and `{"Error": ...}`;
 * what was written before it stays written.
 */
module Intake {
  import opened Wrappers
  import opened Tables
  import Text

  /** Files rows expire seven days after the intake. */
  const WeekSeconds: int := 7 * 24 * 60 * 60

  const ArnPrefix: string := "arn:aws:s3:::"

  /** The request body. */
  datatype Request = Request(bucket: string, key: string, tier: string, expirationDays: int, clientTag: string)

  /** The handler's configuration: the account and the environment variables it reads. */
  datatype Environment = Environment(
    accountId: string,
    reportBucket: string,
    roleArn: string,
    snsTopic: string,
    queueArn: string,
    topicQueue: string)

  /** The exceptions an intake can end with. */
  datatype IntakeError =
    | ManifestUnreadable
    | SubscriptionRefused(bucket: string)
    | HeadObjectFailed
    | SubmissionFailed
    | MalformedLine(fieldCount: nat)

  datatype IntakeBody =
    | Accepted(snsTopic: string, sqsQueue: string, bulkJobId: string, totalFilesRequested: nat, batchJobId: string)
    | ErrorBody(error: IntakeError)

  datatype IntakeResponse = IntakeResponse(statusCode: int, body: IntakeBody)

  // ---------------------------------------------------------------------
  // Specification functions
  // ---------------------------------------------------------------------

  /** `line.split(",")[0]`: the bucket a line subscribes, well formed or not. */
  function FirstField(line: string): string
  {
    Text.Split(line, ',')[0]
  }

  /** The distinct buckets the subscription step collects from the manifest. */
  function BucketsOf(lines: seq<string>): set<string>
  {
    set i | 0 <= i < |lines| :: FirstField(lines[i])
  }

  /** `[bucket, key] = line.split(",")`: the Files key a line names, if it has two fields. */
  function ParseLine(line: string): Option<FileKey>
  {
    var fields := Text.Split(line, ',');
    if |fields| == 2 then Some(FileKey(fields[0], fields[1])) else None
  }

  /**
   * A line is a Files key exactly when it has one comma, and then it is the
   * bucket and the key joined by that comma.
   */
  lemma ParseLineOneComma(line: string)
    ensures ParseLine(line).Some? <==> Text.Occurrences(line, ',') == 1
    ensures ParseLine(line).Some? ==>
              var k := ParseLine(line).value;
              line == k.bucket + "," + k.key && ',' !in k.bucket && ',' !in k.key && k.bucket == FirstField(line)
  {
    Text.SplitFieldCount(line, ',');
    Text.JoinSplit(line, ',');
  }

  /** The Files row an intake writes for each line. */
  function NewFileRow(jobId: string, now: int): FileRow
  {
    FileRow(Some(jobId), false, Some(now + WeekSeconds))
  }

  /** `get_item`: the Files key and row of one line, or the unpacking error. */
  function GetItem(jobId: string, now: int, line: string): (r: Result<(FileKey, FileRow), IntakeError>)
    ensures r.Ok? <==> ParseLine(line).Some?
    ensures r.Ok? ==> r.value.0 == ParseLine(line).value && r.value.1 == NewFileRow(jobId, now)
    ensures r.Err? ==> r.error.MalformedLine? && r.error.fieldCount != 2
  {
    match ParseLine(line)
    case Some(k) => Ok((k, NewFileRow(jobId, now)))
    case None => Err(MalformedLine(|Text.Split(line, ',')|))
  }

  /** The unpacking error counts the line's fields: one more than its commas. */
  lemma MalformedLineCountsFields(jobId: string, now: int, line: string)
    requires GetItem(jobId, now, line).Err?
    ensures GetItem(jobId, now, line).error == MalformedLine(Text.Occurrences(line, ',') + 1)
    ensures Text.Occurrences(line, ',') != 1
  {
    Text.SplitFieldCount(line, ',');
  }

  /** Index of the first line that is not a Files key, or the number of lines. */
  function FirstMalformed(lines: seq<string>): (i: nat)
    ensures i <= |lines|
    ensures forall j :: 0 <= j < i ==> ParseLine(lines[j]).Some?
    ensures i < |lines| ==> ParseLine(lines[i]).None?
  {
    if lines == [] then 0
    else if ParseLine(lines[0]).None? then 0
    else 1 + FirstMalformed(lines[1..])
  }

  predicate AllWellFormed(lines: seq<string>)
  {
    forall j :: 0 <= j < |lines| ==> ParseLine(lines[j]).Some?
  }

  /** The Files table after the rows of `lines` are put in order. */
  function PutItems(files: map<FileKey, FileRow>, jobId: string, lines: seq<string>, now: int): map<FileKey, FileRow>
    requires AllWellFormed(lines)
    decreases |lines|
  {
    if lines == [] then files
    else PutItems(files, jobId, lines[..|lines| - 1], now)[ParseLine(lines[|lines| - 1]).value := NewFileRow(jobId, now)]
  }

  /** Putting the rows of one more line puts that line's row last. */
  lemma PutItemsSnoc(files: map<FileKey, FileRow>, jobId: string, data: seq<string>, i: nat, now: int)
    requires i < |data| && AllWellFormed(data[..i]) && ParseLine(data[i]).Some?
    ensures AllWellFormed(data[..i + 1])
    ensures PutItems(files, jobId, data[..i + 1], now)
            == PutItems(files, jobId, data[..i], now)[ParseLine(data[i]).value := NewFileRow(jobId, now)]
  {
    var next := data[..i + 1];
    assert next[..i] == data[..i];
    assert forall j :: 0 <= j < i ==> next[j] == data[..i][j];
  }

  /** The Files keys the lines name. */
  function LineKeys(lines: seq<string>): set<FileKey>
    requires AllWellFormed(lines)
  {
    set j | 0 <= j < |lines| :: ParseLine(lines[j]).value
  }

  /** The Jobs row of a new job: no status, progress or failed count yet. */
  function NewJobRow(jobId: string, totalFiles: nat, batchJobId: string, now: int): JobRow
  {
    JobRow(jobId, totalFiles, batchJobId, now, None, None, None, None)
  }

  /** The manifest's object ARN as the bulk job request names it. */
  function ManifestArn(bucket: string, key: string): string
  {
    ArnPrefix + bucket + "/" + key
  }

  /** Reads an object ARN back into its bucket and key (a bucket name holds no "/"). */
  function ParseObjectArn(arn: string): Option<(string, string)>
  {
    if |arn| >= |ArnPrefix| && arn[..|ArnPrefix|] == ArnPrefix then
      var rest := arn[|ArnPrefix|..];
      var i := Text.IndexOf(rest, '/');
      if i < |rest| then Some((rest[..i], rest[i + 1..])) else None
    else None
  }

  /** The notification configuration every subscribed bucket gets. */
  function RestoreNotificationConfig(queueArn: string): seq<QueueConfig>
  {
    [QueueConfig(["s3:ObjectRestore:Completed"], "Notifications", queueArn)]
  }

  /** The `create_job` arguments of an intake. */
  function BatchRequestFor(env: Environment, req: Request, jobId: string, etag: string): BatchJobRequest
  {
    BatchJobRequest(
      env.accountId, false, jobId,
      "S3BatchOperations_CSV_20180820", ["Bucket", "Key"], ManifestArn(req.bucket, req.key), etag,
      req.expirationDays, req.tier,
      env.reportBucket, "Report_CSV_20180820", true, "AllTasks",
      10, env.roleArn, req.clientTag)
  }

  function WrittenBuckets(writes: seq<ConfigWrite>): set<string>
  {
    set i | 0 <= i < |writes| :: writes[i].bucket
  }

  /**
   * The configuration writes of one subscription step: each for a bucket of
   * the manifest that accepted it, each with the same configuration, and no
   * bucket twice.
   */
  predicate SubscriptionWrites(writes: seq<ConfigWrite>, buckets: set<string>, denied: set<string>, queueArn: string)
  {
    && (forall i :: 0 <= i < |writes| ==>
          writes[i].bucket in buckets && writes[i].bucket !in denied
          && writes[i].queueConfigurations == RestoreNotificationConfig(queueArn))
    && (forall i, j :: 0 <= i < j < |writes| ==> writes[i].bucket != writes[j].bucket)
  }

  // ---------------------------------------------------------------------
  // Properties of the specification functions
  // ---------------------------------------------------------------------

  /** The bulk job request names the manifest object, and its bucket and key can be read back. */
  lemma ManifestArnRoundTrip(bucket: string, key: string)
    requires '/' !in bucket
    ensures ParseObjectArn(ManifestArn(bucket, key)) == Some((bucket, key))
  {
    var arn := ManifestArn(bucket, key);
    assert arn[..|ArnPrefix|] == ArnPrefix;
    var rest := arn[|ArnPrefix|..];
    assert rest == bucket + "/" + key;
    var i := Text.IndexOf(rest, '/');
    assert rest[|bucket|] == '/';
    assert i == |bucket| by {
      assert forall j :: 0 <= j < |bucket| ==> rest[j] == bucket[j];
    }
    assert rest[..i] == bucket;
    assert rest[i + 1..] == key;
  }

  /** Every well-formed line's bucket is among the buckets the subscription step collects. */
  lemma LineBucketSubscribed(lines: seq<string>, j: nat)
    requires j < |lines| && ParseLine(lines[j]).Some?
    ensures ParseLine(lines[j]).value.bucket in BucketsOf(lines)
  {
    ParseLineOneComma(lines[j]);
  }

  /** The keys of the lines are the keys of all but the last line, plus the last line's key. */
  lemma LineKeysSnoc(lines: seq<string>)
    requires lines != [] && AllWellFormed(lines)
    ensures AllWellFormed(lines[..|lines| - 1])
    ensures LineKeys(lines) == LineKeys(lines[..|lines| - 1]) + {ParseLine(lines[|lines| - 1]).value}
  {
    var init := lines[..|lines| - 1];
    assert forall j :: 0 <= j < |init| ==> init[j] == lines[j];
  }

  /**
   * Putting the rows of the lines registers exactly the keys they name, each
   * with a fresh row for the job, and leaves every other row as it was.
   */
  lemma {:induction false} PutItemsRegistersLines(files: map<FileKey, FileRow>, jobId: string, lines: seq<string>, now: int)
    requires AllWellFormed(lines)
    ensures PutItems(files, jobId, lines, now).Keys == files.Keys + LineKeys(lines)
    ensures forall k :: k in LineKeys(lines) ==> PutItems(files, jobId, lines, now)[k] == NewFileRow(jobId, now)
    ensures forall k :: k in files && k !in LineKeys(lines) ==> PutItems(files, jobId, lines, now)[k] == files[k]
    decreases |lines|
  {
    if lines != [] {
      LineKeysSnoc(lines);
      PutItemsRegistersLines(files, jobId, lines[..|lines| - 1], now);
    }
  }

  /** Different well-formed lines name different Files keys. */
  lemma ParseLineInjective(a: string, b: string)
    requires ParseLine(a).Some? && ParseLine(b).Some? && ParseLine(a) == ParseLine(b)
    ensures a == b
  {
    ParseLineOneComma(a);
    ParseLineOneComma(b);
  }

  lemma NewKeyNotEarlier(init: seq<string>, last: string)
    requires AllWellFormed(init) && ParseLine(last).Some?
    requires forall j :: 0 <= j < |init| ==> init[j] != last
    ensures ParseLine(last).value !in LineKeys(init)
  {
    forall j | 0 <= j < |init|
      ensures ParseLine(init[j]).value != ParseLine(last).value
    {
      if ParseLine(init[j]).value == ParseLine(last).value {
        ParseLineInjective(init[j], last);
      }
    }
  }

  /** A manifest of distinct well-formed lines names as many keys as it has lines. */
  lemma {:induction false} LineKeysCount(lines: seq<string>)
    requires AllWellFormed(lines)
    requires forall i, j :: 0 <= i < j < |lines| ==> lines[i] != lines[j]
    ensures |LineKeys(lines)| == |lines|
    decreases |lines|
  {
    if lines != [] {
      var init := lines[..|lines| - 1];
      var last := lines[|lines| - 1];
      LineKeysSnoc(lines);
      assert forall j :: 0 <= j < |init| ==> init[j] == lines[j];
      LineKeysCount(init);
      NewKeyNotEarlier(init, last);
    }
  }

  // ---------------------------------------------------------------------
  // The handler and its helpers
  // ---------------------------------------------------------------------

  /**
   * `check_bucket_subscription`: collect the distinct first fields, then
   * write the configuration once per bucket, in the set's (unspecified)
   * order; a bucket that refuses the write raises.
   */
  method CheckBucketSubscription(store: Store, data: seq<string>, queueArn: string, denied: set<string>)
    returns (r: Option<IntakeError>)
    modifies store`bucketConfigs
    ensures |old(store.bucketConfigs)| <= |store.bucketConfigs|
    ensures store.bucketConfigs[..|old(store.bucketConfigs)|] == old(store.bucketConfigs)
    ensures SubscriptionWrites(store.bucketConfigs[|old(store.bucketConfigs)|..], BucketsOf(data), denied, queueArn)
    ensures r.None? <==> BucketsOf(data) !! denied
    ensures r.None? ==> WrittenBuckets(store.bucketConfigs[|old(store.bucketConfigs)|..]) == BucketsOf(data)
    ensures r.Some? ==> r.value.SubscriptionRefused? && r.value.bucket in BucketsOf(data) && r.value.bucket in denied
  {
    var buckets: set<string> := {};
    for i := 0 to |data|
      invariant buckets == BucketsOf(data[..i])
      invariant store.bucketConfigs == old(store.bucketConfigs)
    {
      BucketsOfSnoc(data, i);
      buckets := buckets + {FirstField(data[i])};
    }
    assert data[..|data|] == data;

    ghost var written: seq<ConfigWrite> := [];
    assert store.bucketConfigs == old(store.bucketConfigs) + written;
    var remaining := buckets;
    while remaining != {}
      invariant remaining <= buckets
      invariant store.bucketConfigs == old(store.bucketConfigs) + written
      invariant SubscriptionWrites(written, buckets, denied, queueArn)
      invariant WrittenBuckets(written) == buckets - remaining
      invariant (buckets - remaining) !! denied
      decreases remaining
    {
      var b :| b in remaining;
      if b in denied {
        assert store.bucketConfigs[|old(store.bucketConfigs)|..] == written;
        return Some(SubscriptionRefused(b));
      }
      AppendWrite(written, b, buckets, denied, queueArn);
      written := written + [ConfigWrite(b, RestoreNotificationConfig(queueArn))];
      store.bucketConfigs := store.bucketConfigs + [ConfigWrite(b, RestoreNotificationConfig(queueArn))];
      remaining := remaining - {b};
    }
    assert store.bucketConfigs[|old(store.bucketConfigs)|..] == written;
    return None;
  }

  lemma BucketsOfSnoc(data: seq<string>, i: nat)
    requires i < |data|
    ensures BucketsOf(data[..i + 1]) == BucketsOf(data[..i]) + {FirstField(data[i])}
  {
    assert forall j :: 0 <= j < i ==> data[..i + 1][j] == data[..i][j];
    assert data[..i + 1][i] == data[i];
  }

  /** Writing one more accepting, not yet written bucket keeps the writes distinct and uniform. */
  lemma AppendWrite(written: seq<ConfigWrite>, b: string, buckets: set<string>, denied: set<string>, queueArn: string)
    requires SubscriptionWrites(written, buckets, denied, queueArn)
    requires b in buckets && b !in denied && b !in WrittenBuckets(written)
    ensures var w := ConfigWrite(b, RestoreNotificationConfig(queueArn));
            && SubscriptionWrites(written + [w], buckets, denied, queueArn)
            && WrittenBuckets(written + [w]) == WrittenBuckets(written) + {b}
  {
    var w := ConfigWrite(b, RestoreNotificationConfig(queueArn));
    var next := written + [w];
    assert forall i :: 0 <= i < |written| ==> next[i] == written[i];
    assert next[|written|] == w;
    forall i | 0 <= i < |written|
      ensures next[i].bucket != b
    {
      assert written[i].bucket in WrittenBuckets(written);
    }
  }

  /** `create_job`: look up the manifest's ETag, then submit the bulk restore job. */
  method CreateJob(store: Store, env: Environment, req: Request, jobId: string,
                   etag: Option<string>, submitted: Option<string>)
    returns (r: Result<string, IntakeError>)
    modifies store`batchRequests
    ensures etag.None? ==> r == Err(HeadObjectFailed) && store.batchRequests == old(store.batchRequests)
    ensures etag.Some? ==> store.batchRequests == old(store.batchRequests) + [BatchRequestFor(env, req, jobId, etag.value)]
    ensures etag.Some? ==> r == if submitted.Some? then Ok(submitted.value) else Err(SubmissionFailed)
  {
    if etag.None? {
      return Err(HeadObjectFailed);
    }
    var request := BatchJobRequest(
      env.accountId, false, jobId,
      "S3BatchOperations_CSV_20180820", ["Bucket", "Key"], ArnPrefix + req.bucket + "/" + req.key, etag.value,
      req.expirationDays, req.tier,
      env.reportBucket, "Report_CSV_20180820", true, "AllTasks",
      10, env.roleArn, req.clientTag);
    store.batchRequests := store.batchRequests + [request];
    if submitted.None? {
      return Err(SubmissionFailed);
    }
    return Ok(submitted.value);
  }

  /**
   * `dynamodb_insert`: put one Files row per line, stopping at the first
   * malformed line (rows put before it stay), then put the Jobs row.
   */
  method DynamoDbInsert(store: Store, jobId: string, data: seq<string>, batchJobId: string, now: int)
    returns (r: Result<nat, IntakeError>)
    modifies store`files, store`jobs
    ensures store.files == PutItems(old(store.files), jobId, data[..FirstMalformed(data)], now)
    ensures FirstMalformed(data) == |data| ==>
              r == Ok(|data|) && store.jobs == old(store.jobs)[jobId := NewJobRow(jobId, |data|, batchJobId, now)]
    ensures FirstMalformed(data) < |data| ==>
              r == Err(GetItem(jobId, now, data[FirstMalformed(data)]).error) && store.jobs == old(store.jobs)
  {
    var numFiles := |data|;
    ghost var good := FirstMalformed(data);
    var i := 0;
    while i < |data|
      invariant 0 <= i <= good
      invariant AllWellFormed(data[..i])
      invariant store.files == PutItems(old(store.files), jobId, data[..i], now)
      invariant store.jobs == old(store.jobs)
    {
      var item := GetItem(jobId, now, data[i]);
      if item.Err? {
        assert i == good;
        return Err(item.error);
      }
      assert i < good;
      PutItemsSnoc(old(store.files), jobId, data, i, now);
      store.files := store.files[item.value.0 := item.value.1];
      i := i + 1;
    }
    assert data[..i] == data;
    store.jobs := store.jobs[jobId := JobRow(jobId, numFiles, batchJobId, now, None, None, None, None)];
    return Ok(numFiles);
  }

  /**
   * `lambda_handler`: read the manifest, subscribe its buckets, submit the
   * bulk job, write the rows; 200 with the job id and file count, or 500 with
   * the first error.
   */
  method HandleIntake(store: Store, env: Environment, req: Request, jobId: string,
                      manifest: Option<string>, denied: set<string>,
                      etag: Option<string>, submitted: Option<string>, now: int)
    returns (resp: IntakeResponse)
    modifies store`files, store`jobs, store`bucketConfigs, store`batchRequests
    ensures resp.statusCode == 200 || resp.statusCode == 500
    ensures resp.statusCode == 200 <==> resp.body.Accepted?
    ensures manifest.None? ==>
              resp == IntakeResponse(500, ErrorBody(ManifestUnreadable))
              && store.bucketConfigs == old(store.bucketConfigs) && store.batchRequests == old(store.batchRequests)
              && store.files == old(store.files) && store.jobs == old(store.jobs)
    ensures manifest.Some? ==>
              var lines := Text.SplitLines(manifest.value);
              var subscribed := BucketsOf(lines) !! denied;
              var submittedOk := subscribed && etag.Some? && submitted.Some?;
              && (resp.statusCode == 200 <==> submittedOk && AllWellFormed(lines))
              // the subscription step always runs and is never undone
              && |old(store.bucketConfigs)| <= |store.bucketConfigs|
              && store.bucketConfigs[..|old(store.bucketConfigs)|] == old(store.bucketConfigs)
              && SubscriptionWrites(store.bucketConfigs[|old(store.bucketConfigs)|..], BucketsOf(lines), denied, env.queueArn)
              && (subscribed ==> WrittenBuckets(store.bucketConfigs[|old(store.bucketConfigs)|..]) == BucketsOf(lines))
              // the bulk job is submitted only after every bucket is subscribed
              && store.batchRequests ==
                   (if subscribed && etag.Some? then old(store.batchRequests) + [BatchRequestFor(env, req, jobId, etag.value)]
                    else old(store.batchRequests))
              // the tables are written only after the bulk job is accepted; the Jobs row last
              && store.files == (if submittedOk then PutItems(old(store.files), jobId, lines[..FirstMalformed(lines)], now)
                                 else old(store.files))
              && store.jobs == (if resp.statusCode == 200
                                then old(store.jobs)[jobId := NewJobRow(jobId, |lines|, submitted.value, now)]
                                else old(store.jobs))
              && (resp.statusCode == 200 ==>
                    resp.body == Accepted(env.snsTopic, env.topicQueue, jobId, |lines|, submitted.value))
  {
    if manifest.None? {
      return IntakeResponse(500, ErrorBody(ManifestUnreadable));
    }
    var data := Text.SplitLines(manifest.value);

    var subscription := CheckBucketSubscription(store, data, env.queueArn, denied);
    if subscription.Some? {
      return IntakeResponse(500, ErrorBody(subscription.value));
    }

    var batchJob := CreateJob(store, env, req, jobId, etag, submitted);
    if batchJob.Err? {
      return IntakeResponse(500, ErrorBody(batchJob.error));
    }

    var numFiles := DynamoDbInsert(store, jobId, data, batchJob.value, now);
    if numFiles.Err? {
      return IntakeResponse(500, ErrorBody(numFiles.error));
    }
    return IntakeResponse(200, Accepted(env.snsTopic, env.topicQueue, jobId, numFiles.value, batchJob.value));
  }

}
