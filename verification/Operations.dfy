/** The operation recorder object: history, counters and buckets updated in place. */
module Operations {
  import opened Wrappers
  import opened Dict
  import opened Recording
  import M = Metrics
  import Sorting
  import Rounding

  /** Running totals. */
  class OperationStats {
    var count: nat
    var errorCount: nat
    var durationSum: int

    /** 0 for the recorder's totals, 1 + i for its i-th bucket: no two share a slot. */
    ghost const slot: nat

    constructor (ghost slot: nat)
      ensures Value() == NoStats && this.slot == slot
    {
      count, errorCount, durationSum := 0, 0, 0;
      this.slot := slot;
    }

    ghost function Value(): Stats
      reads this
    {
      Stats(count, errorCount, durationSum)
    }

    method Add(r: OperationRecord)
      modifies this
      ensures Value() == Tally(old(Value()), r)
    {
      count := count + 1;
      durationSum := durationSum + r.duration;
      if r.status == "error" {
        errorCount := errorCount + 1;
      }
    }
  }

  class OperationRecorder {
    const maxHistory: nat
    var history: seq<OperationRecord>
    var nextId: nat
    var totals: OperationStats
    var byOperation: seq<Entry<Key, OperationStats>>

    /** The recorder value this object implements and the log since the last clear. */
    ghost var view: Recorder
    ghost var log: seq<OperationRecord>
    ghost var buckets: seq<OperationStats>

    ghost predicate Valid()
      reads this, totals, buckets
    {
      Refines(view, log) && Holds(view)
    }

    /** The fields and the statistics objects carry the value v. */
    ghost predicate Holds(v: Recorder)
      reads this`history, this`nextId, this`totals, this`byOperation, this`buckets, totals, buckets
    {
      && v.maxHistory == maxHistory && v.history == history && v.nextId == nextId
      && totals.slot == 0 && totals.Value() == v.totals
      && BucketsHold(v.byOperation)
    }

    /** The bucket objects carry the statistics of d, key by key. */
    ghost predicate BucketsHold(d: seq<Entry<Key, Stats>>)
      reads this`byOperation, this`buckets, buckets
    {
      && |byOperation| == |buckets| == |d|
      && (forall i :: 0 <= i < |d| ==> byOperation[i].key == d[i].key && byOperation[i].value == buckets[i])
      && (forall i :: 0 <= i < |d| ==> buckets[i].slot == i + 1 && buckets[i].Value() == d[i].value)
    }

    constructor (maxHistory: nat := MAX_HISTORY)
      ensures Valid() && fresh(totals) && fresh(buckets)
      ensures view == Empty(maxHistory) && log == []
    {
      this.maxHistory := maxHistory;
      history, nextId, byOperation := [], 1, [];
      totals := new OperationStats(0);
      view, log, buckets := Empty(maxHistory), [], [];
    }

    /** `setdefault`: the bucket of key k, made empty if there is none yet. */
    method SetDefault(k: Key, ghost d: seq<Entry<Key, Stats>>) returns (bucket: OperationStats)
      requires BucketsHold(d)
      modifies this`byOperation, this`buckets
      ensures BucketsHold(if HasKey(d, k) then d else d + [Entry(k, NoStats)])
      ensures IndexOf(d, k) < |buckets| && bucket == buckets[IndexOf(d, k)]
      ensures if HasKey(d, k) then buckets == old(buckets) else buckets == old(buckets) + [bucket] && fresh(bucket)
    {
      SameKeys(byOperation, d, k);
      var i := IndexOf(byOperation, k);
      if i < |byOperation| {
        bucket := byOperation[i].value;
      } else {
        bucket := new OperationStats(|byOperation| + 1);
        byOperation := Put(byOperation, k, bucket);
        buckets := buckets + [bucket];
      }
    }

    method AddToBucket(r: OperationRecord, ghost d: seq<Entry<Key, Stats>>)
      requires BucketsHold(d)
      modifies this`byOperation, this`buckets, buckets
      ensures BucketsHold(Count(d, r))
      ensures forall b :: b in buckets ==> b in old(buckets) || fresh(b)
    {
      var bucket := SetDefault(KeyOf(r), d);
      bucket.Add(r);
    }

    method Record(report: Report, timestamp: real)
      requires Valid()
      modifies this, totals, buckets
      ensures Valid() && totals == old(totals)
      ensures forall b :: b in buckets ==> b in old(buckets) || fresh(b)
      ensures view == Recording.Record(old(view), report, timestamp)
      ensures log == old(log) + [MakeRecord(old(nextId), report, timestamp)]
    {
      ghost var v := view;
      var r := MakeRecord(nextId, report, timestamp);
      Write(r, v);
      view := Recording.Record(v, report, timestamp);
      log := log + [r];
      RecordRefines(v, old(log), report, timestamp);
    }

    /** The body of the lock region of `record`. */
    method Write(r: OperationRecord, ghost v: Recorder)
      requires Holds(v)
      modifies this`nextId, this`history, this`byOperation, this`buckets, totals, buckets
      ensures totals == old(totals)
      ensures forall b :: b in buckets ==> b in old(buckets) || fresh(b)
      ensures Holds(Recorder(v.maxHistory, Push(v.history, r, v.maxHistory), v.nextId + 1, Tally(v.totals, r),
                             Count(v.byOperation, r)))
    {
      nextId := nextId + 1;
      history := Push(history, r, maxHistory);
      totals.Add(r);
      AddToBucket(r, v.byOperation);
    }

    /** Newest first; a negative limit reads as none. */
    method ListRecent(limit: int := 50) returns (items: seq<OperationRecord>)
      requires Valid()
      ensures |items| == Rounding.Min(if limit < 0 then 0 else limit, |history|)
      ensures forall k :: 0 <= k < |items| ==> items[k] == history[|history| - 1 - k]
      ensures forall k :: 0 <= k < |items| ==> items[k].id == nextId - 1 - k
    {
      HistoryWindow(view, log);
      items := [];
      for i := 0 to |history|
        invariant |items| == i
        invariant forall k :: 0 <= k < i ==> items[k] == history[i - 1 - k]
      {
        items := [history[i]] + items;
      }
      var n := if limit < 0 then 0 else limit;
      if n < |items| {
        items := items[..n];
      }
    }

    /** The record of that id while it is still in the history: the ids held are the last ones issued,
        without a gap. */
    method Get(operationId: int) returns (found: Option<OperationRecord>)
      requires Valid()
      ensures |history| < nextId
      ensures found.Some? <==> nextId - |history| <= operationId < nextId
      ensures found.Some? ==> found.value == history[operationId - (nextId - |history|)]
      ensures found.Some? ==> found.value.id == operationId
    {
      HistoryWindow(view, log);
      ghost var lo := nextId - |history|;
      assert lo <= operationId < nextId ==> history[operationId - lo].id == operationId;
      for i := 0 to |history|
        invariant forall k :: 0 <= k < i ==> history[k].id != operationId
      {
        if history[i].id == operationId {
          return Some(history[i]);
        }
      }
      return None;
    }

    method Metrics() returns (snapshot: M.Snapshot)
      requires Valid()
      ensures snapshot == M.Of(view)
    {
      var total, errors, durationSum := totals.count, totals.errorCount, totals.durationSum;
      assert totals.Value() == view.totals;
      var rows := BuildRows(view.byOperation);
      rows := Sorting.Sort(rows, M.CountOrder);
      snapshot := M.Snapshot(
        total, errors,
        if total == 0 then 0 else Rounding.RoundedMean(10_000 * errors, total),
        if total == 0 then 0 else Rounding.RoundedMean(durationSum, total),
        rows);
    }

    /** One row for each bucket, in dictionary order. */
    method BuildRows(ghost d: seq<Entry<Key, Stats>>) returns (rows: seq<M.Row>)
      requires BucketsHold(d)
      ensures rows == M.Rows(d)
    {
      rows := [];
      for i := 0 to |byOperation|
        invariant |rows| == i
        invariant forall j :: 0 <= j < i ==> rows[j] == M.RowOf(d[j])
      {
        var key, stats := byOperation[i].key, byOperation[i].value;
        assert stats.Value() == d[i].value;
        var average := if stats.count == 0 then 0 else Rounding.RoundedMean(stats.durationSum, stats.count);
        rows := rows + [M.Row(key.0, key.1, stats.count, stats.errorCount, average)];
      }
    }

    method Clear()
      requires Valid()
      modifies this
      ensures Valid() && fresh(totals) && buckets == []
      ensures view == Recording.Clear(old(view)) && log == []
    {
      history := [];
      totals := new OperationStats(0);
      byOperation, buckets := [], [];
      ClearRefines(view, log);
      view, log := Recording.Clear(view), [];
    }
  }
}
