/**
 * The object-completion listener. It receives a batch of queue messages,
 * each wrapping a storage event notification, and for every restore-completed
 * event sets RestoreStatus to true on the Files row keyed by the event's
 * bucket and object key. Other events are skipped; an event with an empty
 * bucket, key or table name ends the batch with status 400.
 */
module Listener {
  import opened Wrappers
  import opened Tables

  const RestoreCompleted: string := "ObjectRestore:Completed"

  /** One entry of an event notification's `Records` list. */
  datatype EventRecord = EventRecord(eventName: string, bucket: string, key: string)

  /** A decoded message body; `records` is None when the body has no `Records` field. */
  datatype QueueMessage = QueueMessage(records: Option<seq<EventRecord>>)

  /** What the handler does with one message. */
  datatype Action = Skip | Mark(fileKey: FileKey) | Reject | Crash

  /** The handler's answer: 200 when every message was handled, 400 on an empty name, or an exception. */
  datatype ListenerResult = Handled | BadRequest | Crashed

  datatype Delivery = Delivery(files: map<FileKey, FileRow>, result: ListenerResult)

  /**
   * How the handler treats one message: only the first inner record is
   * looked at; indexing an empty `Records` list raises.
   */
  function Classify(m: QueueMessage, tableName: string): (a: Action)
    ensures a.Crash? <==> m.records == Some([])
    ensures a.Mark? || a.Reject? <==>
              m.records.Some? && |m.records.value| > 0 && m.records.value[0].eventName == RestoreCompleted
    ensures a.Reject? ==>
              tableName == "" || m.records.value[0].bucket == "" || m.records.value[0].key == ""
    ensures a.Mark? ==> a.fileKey == FileKey(m.records.value[0].bucket, m.records.value[0].key) &&
                        tableName != "" && a.fileKey.bucket != "" && a.fileKey.key != ""
  {
    match m.records
    case None => Skip
    case Some(records) =>
      if |records| == 0 then Crash
      else if records[0].eventName != RestoreCompleted then Skip
      else if tableName == "" || records[0].bucket == "" || records[0].key == "" then Reject
      else Mark(FileKey(records[0].bucket, records[0].key))
  }

  /**
   * `UpdateItem`: set RestoreStatus to true on the row, creating a row that
   * holds only the key and the flag when none exists.
   */
  function MarkRestored(files: map<FileKey, FileRow>, k: FileKey): map<FileKey, FileRow>
  {
    if k in files then files[k := files[k].(restored := true)]
    else files[k := FileRow(None, true, None)]
  }

  /** The messages handled in order, stopping at the first one that rejects or raises. */
  function Deliver(files: map<FileKey, FileRow>, messages: seq<QueueMessage>, tableName: string): Delivery
    decreases |messages|
  {
    if messages == [] then Delivery(files, Handled)
    else match Classify(messages[0], tableName)
      case Skip => Deliver(files, messages[1..], tableName)
      case Mark(k) => Deliver(MarkRestored(files, k), messages[1..], tableName)
      case Reject => Delivery(files, BadRequest)
      case Crash => Delivery(files, Crashed)
  }

  method UpdateItem(store: Store, bucket: string, key: string)
    modifies store`files
    ensures store.files == MarkRestored(old(store.files), FileKey(bucket, key))
  {
    var k := FileKey(bucket, key);
    if k in store.files {
      store.files := store.files[k := store.files[k].(restored := true)];
    } else {
      store.files := store.files[k := FileRow(None, true, None)];
    }
  }

  /** `lambda_handler`: the messages in order, with an early return on an empty name. */
  method HandleMessages(store: Store, messages: seq<QueueMessage>, tableName: string) returns (r: ListenerResult)
    modifies store`files
    ensures Delivery(store.files, r) == Deliver(old(store.files), messages, tableName)
  {
    var i := 0;
    while i < |messages|
      invariant 0 <= i <= |messages|
      invariant Deliver(old(store.files), messages, tableName) == Deliver(store.files, messages[i..], tableName)
    {
      assert messages[i..][1..] == messages[i + 1..];
      var m := messages[i];
      if m.records.Some? {
        if |m.records.value| == 0 {
          return Crashed;
        }
        var first := m.records.value[0];
        if first.eventName == RestoreCompleted {
          if tableName != "" && first.bucket != "" && first.key != "" {
            UpdateItem(store, first.bucket, first.key);
          } else {
            return BadRequest;
          }
        }
      }
      i := i + 1;
    }
    return Handled;
  }

  // ---------------------------------------------------------------------
  // Properties
  // ---------------------------------------------------------------------

  /**
   * Marking changes only the flag of the one row: its other attributes and
   * every other row stay as they were.
   */
  lemma MarkRestoredChangesOnlyFlag(files: map<FileKey, FileRow>, k: FileKey)
    ensures var m := MarkRestored(files, k);
            && m.Keys == files.Keys + {k}
            && m[k].restored
            && (k in files ==> m[k] == files[k].(restored := true))
            && (forall k' :: k' in files && k' != k ==> m[k'] == files[k'])
  {
  }

  /** Marking a row that is already marked changes nothing. */
  lemma MarkRestoredIdempotent(files: map<FileKey, FileRow>, k: FileKey)
    ensures MarkRestored(MarkRestored(files, k), k) == MarkRestored(files, k)
  {
  }

  /** A row already marked is left exactly as it is. */
  lemma MarkRestoredKeepsMarked(files: map<FileKey, FileRow>, k: FileKey)
    requires k in files && files[k].restored
    ensures MarkRestored(files, k) == files
  {
    assert files[k].(restored := true) == files[k];
  }

  /** Every key a delivery marks is present and restored afterwards. */
  predicate AllMarked(files: map<FileKey, FileRow>, messages: seq<QueueMessage>, tableName: string)
  {
    forall i :: 0 <= i < |messages| && Classify(messages[i], tableName).Mark? ==>
      Classify(messages[i], tableName).fileKey in files && files[Classify(messages[i], tableName).fileKey].restored
  }

  lemma {:induction false} DeliverMarks(files: map<FileKey, FileRow>, messages: seq<QueueMessage>, tableName: string)
    requires Deliver(files, messages, tableName).result == Handled
    ensures AllMarked(Deliver(files, messages, tableName).files, messages, tableName)
    decreases |messages|
  {
    if messages != [] {
      var files' := if Classify(messages[0], tableName).Mark?
                    then MarkRestored(files, Classify(messages[0], tableName).fileKey) else files;
      DeliverMarks(files', messages[1..], tableName);
      DeliverKeepsMarked(files', messages[1..], tableName);
      forall i | 1 <= i < |messages| ensures messages[i] == messages[1..][i - 1] { }
    }
  }

  lemma {:induction false} DeliverKeepsMarked(files: map<FileKey, FileRow>, messages: seq<QueueMessage>, tableName: string)
    ensures forall k :: k in files && files[k].restored ==>
              k in Deliver(files, messages, tableName).files && Deliver(files, messages, tableName).files[k].restored
    decreases |messages|
  {
    if messages != [] && Classify(messages[0], tableName).Mark? {
      DeliverKeepsMarked(MarkRestored(files, Classify(messages[0], tableName).fileKey), messages[1..], tableName);
    } else if messages != [] {
      DeliverKeepsMarked(files, messages[1..], tableName);
    }
  }

  lemma {:induction false} DeliverOverMarked(files: map<FileKey, FileRow>, messages: seq<QueueMessage>, tableName: string)
    requires AllMarked(files, messages, tableName)
    ensures Deliver(files, messages, tableName).files == files
    decreases |messages|
  {
    if messages != [] {
      assert AllMarked(files, messages[1..], tableName) by {
        forall i | 0 <= i < |messages[1..]| ensures messages[1..][i] == messages[i + 1] { }
      }
      if Classify(messages[0], tableName).Mark? {
        MarkRestoredKeepsMarked(files, Classify(messages[0], tableName).fileKey);
      }
      DeliverOverMarked(files, messages[1..], tableName);
    }
  }

  /**
   * Redelivering a batch that was handled completely leaves the Files
   * table as the first delivery left it, with the same answer.
   */
  lemma RedeliveryIsIdempotent(files: map<FileKey, FileRow>, messages: seq<QueueMessage>, tableName: string)
    requires Deliver(files, messages, tableName).result == Handled
    ensures var first := Deliver(files, messages, tableName);
            Deliver(first.files, messages, tableName) == first
  {
    var first := Deliver(files, messages, tableName);
    DeliverMarks(files, messages, tableName);
    DeliverOverMarked(first.files, messages, tableName);
    DeliverResultIgnoresTable(files, first.files, messages, tableName);
  }

  /** Whether a batch is handled, rejected or crashes does not depend on the table. */
  lemma {:induction false} DeliverResultIgnoresTable(f1: map<FileKey, FileRow>, f2: map<FileKey, FileRow>,
                                                     messages: seq<QueueMessage>, tableName: string)
    ensures Deliver(f1, messages, tableName).result == Deliver(f2, messages, tableName).result
    decreases |messages|
  {
    if messages != [] {
      match Classify(messages[0], tableName)
      case Skip => DeliverResultIgnoresTable(f1, f2, messages[1..], tableName);
      case Mark(k) => DeliverResultIgnoresTable(MarkRestored(f1, k), MarkRestored(f2, k), messages[1..], tableName);
      case Reject =>
      case Crash =>
    }
  }

  /**
   * The batch answers 200 exactly when no message rejects or raises; a
   * rejecting or raising message decides the answer.
   */
  lemma {:induction false} HandledIffNoRejectOrCrash(files: map<FileKey, FileRow>, messages: seq<QueueMessage>, tableName: string)
    ensures Deliver(files, messages, tableName).result == Handled <==>
            forall i :: 0 <= i < |messages| ==> Classify(messages[i], tableName).Skip? || Classify(messages[i], tableName).Mark?
    decreases |messages|
  {
    if messages != [] {
      var files' := if Classify(messages[0], tableName).Mark?
                    then MarkRestored(files, Classify(messages[0], tableName).fileKey) else files;
      HandledIffNoRejectOrCrash(files', messages[1..], tableName);
      forall i | 1 <= i < |messages| ensures messages[i] == messages[1..][i - 1] { }
    }
  }

  /**
   * A batch whose first stopping message is at index i ends with the Files
   * table as the messages before i left it: later messages are not handled,
   * earlier writes remain.
   */
  lemma {:induction false} StopKeepsEarlierWrites(files: map<FileKey, FileRow>, messages: seq<QueueMessage>, tableName: string, i: nat)
    requires i < |messages|
    requires Classify(messages[i], tableName).Reject? || Classify(messages[i], tableName).Crash?
    ensures Deliver(files, messages, tableName).files == Deliver(files, messages[..i], tableName).files
    ensures Deliver(files, messages[..i], tableName).result == Handled ==>
              Deliver(files, messages, tableName).result == (if Classify(messages[i], tableName).Reject? then BadRequest else Crashed)
    decreases i
  {
    if i > 0 {
      assert messages[..i][1..] == messages[1..][..i - 1];
      match Classify(messages[0], tableName)
      case Skip => StopKeepsEarlierWrites(files, messages[1..], tableName, i - 1);
      case Mark(k) => StopKeepsEarlierWrites(MarkRestored(files, k), messages[1..], tableName, i - 1);
      case Reject =>
      case Crash =>
    }
  }

  /** Messages that are not restore-completed events leave the Files table untouched. */
  lemma {:induction false} SkippedMessagesChangeNothing(files: map<FileKey, FileRow>, messages: seq<QueueMessage>, tableName: string)
    requires forall i :: 0 <= i < |messages| ==> Classify(messages[i], tableName).Skip?
    ensures Deliver(files, messages, tableName) == Delivery(files, Handled)
    decreases |messages|
  {
    if messages != [] {
      assert forall i :: 0 <= i < |messages[1..]| ==> messages[1..][i] == messages[i + 1];
      SkippedMessagesChangeNothing(files, messages[1..], tableName);
    }
  }

  /** Only the first inner record counts: records after it never change what the handler does. */
  lemma OnlyFirstRecordCounts(first: EventRecord, more: seq<EventRecord>, tableName: string)
    ensures Classify(QueueMessage(Some([first] + more)), tableName) == Classify(QueueMessage(Some([first])), tableName)
  {
  }
}
