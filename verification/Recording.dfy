/** The operation recorder as a value: a bounded history and running aggregates, and the unbounded
    log both of them summarise. Durations are whole hundredths of a millisecond. */
module Recording {
  import opened Wrappers
  import opened Text
  import opened Dict
  import opened Errors
  import opened Rounding

  const MAX_HISTORY: nat := 200

  /** What `_call` reports about one finished operation. */
  datatype Report = Report(
    service: string,
    operation: string,
    provider: string,
    status: string,
    durationMs: real,
    requestId: Option<string>,
    resource: Option<Str>,
    error: Option<ErrorCode>,
    retryable: Option<bool>)

  datatype OperationRecord = OperationRecord(
    id: nat,
    service: string,
    operation: string,
    provider: string,
    status: string,
    duration: int,
    requestId: Option<string>,
    resource: Option<Str>,
    error: Option<ErrorCode>,
    retryable: Option<bool>,
    timestamp: real)

  type Key = (string, string)

  datatype Stats = Stats(count: nat, errorCount: nat, durationSum: int)

  const NoStats := Stats(0, 0, 0)

  datatype Recorder = Recorder(
    maxHistory: nat,
    history: seq<OperationRecord>,
    nextId: nat,
    totals: Stats,
    byOperation: seq<Entry<Key, Stats>>)

  function Empty(maxHistory: nat): Recorder {
    Recorder(maxHistory, [], 1, NoStats, [])
  }

  /** `round(duration_ms, 2)`, as a number of hundredths. */
  function Hundredths(durationMs: real): int {
    RoundHalfEven(100.0 * durationMs)
  }

  function MakeRecord(id: nat, r: Report, timestamp: real): OperationRecord {
    OperationRecord(id, r.service, r.operation, r.provider, r.status, Hundredths(r.durationMs), r.requestId,
                    r.resource, r.error, r.retryable, timestamp)
  }

  function KeyOf(r: OperationRecord): Key {
    (r.service, r.operation)
  }

  /** `deque.append` under `maxlen`. */
  function Push(history: seq<OperationRecord>, r: OperationRecord, maxHistory: nat): seq<OperationRecord> {
    var longer := history + [r];
    if |longer| > maxHistory then longer[1..] else longer
  }

  function Tally(s: Stats, r: OperationRecord): Stats {
    Stats(s.count + 1, s.errorCount + (if r.status == "error" then 1 else 0), s.durationSum + r.duration)
  }

  function Bucket(d: seq<Entry<Key, Stats>>, k: Key): Stats {
    if HasKey(d, k) then d[IndexOf(d, k)].value else NoStats
  }

  function Count(d: seq<Entry<Key, Stats>>, r: OperationRecord): seq<Entry<Key, Stats>> {
    Put(d, KeyOf(r), Tally(Bucket(d, KeyOf(r)), r))
  }

  function Record(st: Recorder, report: Report, timestamp: real): Recorder {
    var r := MakeRecord(st.nextId, report, timestamp);
    Recorder(st.maxHistory, Push(st.history, r, st.maxHistory), st.nextId + 1, Tally(st.totals, r),
             Count(st.byOperation, r))
  }

  /** Ids are not restarted. */
  function Clear(st: Recorder): Recorder {
    st.(history := [], totals := NoStats, byOperation := [])
  }

  // ---- the log ----

  /** The last n entries of the log, or all of it. */
  function Last(log: seq<OperationRecord>, n: nat): seq<OperationRecord> {
    if |log| <= n then log else log[|log| - n..]
  }

  /** Count, error count and duration sum over a whole log. */
  function Fold(log: seq<OperationRecord>): Stats {
    if log == [] then NoStats else Tally(Fold(log[..|log| - 1]), log[|log| - 1])
  }

  /** The entries of the log under key k. */
  function Under(log: seq<OperationRecord>, k: Key): seq<OperationRecord> {
    if log == [] then []
    else Under(log[..|log| - 1], k) + (if KeyOf(log[|log| - 1]) == k then [log[|log| - 1]] else [])
  }

  /** The keys of the log, each where it first appears. */
  function FirstSeen(log: seq<OperationRecord>): seq<Key> {
    if log == [] then []
    else
      var seen, k := FirstSeen(log[..|log| - 1]), KeyOf(log[|log| - 1]);
      if k in seen then seen else seen + [k]
  }

  /** The state is a summary of the log kept since the last clear. */
  ghost predicate Refines(st: Recorder, log: seq<OperationRecord>) {
    && st.history == Last(log, st.maxHistory)
    && st.totals == Fold(log)
    && GroupedBy(st.byOperation, log)
    && |log| < st.nextId
    && forall i :: 0 <= i < |log| ==> log[i].id == st.nextId - |log| + i
  }

  /** One bucket for each key of the log, in order of first appearance, holding the fold of the
      entries under that key. */
  ghost predicate GroupedBy(d: seq<Entry<Key, Stats>>, log: seq<OperationRecord>) {
    && Distinct(d)
    && |d| == |FirstSeen(log)|
    && (forall i :: 0 <= i < |d| ==> d[i].key == FirstSeen(log)[i])
    && (forall i :: 0 <= i < |d| ==> d[i].value == Fold(Under(log, d[i].key)))
  }

  lemma EmptyRefines(maxHistory: nat)
    ensures Refines(Empty(maxHistory), [])
  {}

  lemma ClearRefines(st: Recorder, log: seq<OperationRecord>)
    requires Refines(st, log)
    ensures Refines(Clear(st), [])
  {}

  lemma LastPush(log: seq<OperationRecord>, r: OperationRecord, n: nat)
    ensures Push(Last(log, n), r, n) == Last(log + [r], n)
  {}

  lemma CountGrouped(d: seq<Entry<Key, Stats>>, log: seq<OperationRecord>, r: OperationRecord)
    requires GroupedBy(d, log)
    ensures GroupedBy(Count(d, r), log + [r])
  {
    var log', k, d' := log + [r], KeyOf(r), Count(d, r);
    assert log'[..|log'| - 1] == log;
    PutDistinct(d, k, Tally(Bucket(d, k), r));
    forall i | 0 <= i < |d'| ensures d'[i].value == Fold(Under(log', d'[i].key)) {
      CountBucket(d, log, r, i);
    }
    if HasKey(d, k) {
      assert FirstSeen(log)[IndexOf(d, k)] == k;
    }
  }

  lemma CountBucket(d: seq<Entry<Key, Stats>>, log: seq<OperationRecord>, r: OperationRecord, i: nat)
    requires GroupedBy(d, log) && i < |Count(d, r)|
    ensures Count(d, r)[i].value == Fold(Under(log + [r], Count(d, r)[i].key))
  {
    var k := KeyOf(r);
    UnderSnoc(log, r, Count(d, r)[i].key);
    if HasKey(d, k) && i == IndexOf(d, k) {
      FoldSnoc(Under(log, k), r);
    } else if i == |d| {
      FoldSnoc(Under(log, k), r);
      assert forall j :: 0 <= j < |d| ==> d[j].key == FirstSeen(log)[j];
      NoneUnder(log, k);
    } else {
      OtherKey(d, k, i);
      assert Count(d, r)[i] == d[i];
      assert Under(log + [r], d[i].key) == Under(log, d[i].key);
    }
  }

  lemma OtherKey<V>(d: seq<Entry<Key, V>>, k: Key, i: nat)
    requires Distinct(d) && i < |d| && i != IndexOf(d, k)
    ensures d[i].key != k
  {}

  lemma UnderSnoc(log: seq<OperationRecord>, r: OperationRecord, k: Key)
    ensures Under(log + [r], k) == Under(log, k) + (if KeyOf(r) == k then [r] else [])
  {
    assert (log + [r])[..|log|] == log;
  }

  lemma FoldSnoc(log: seq<OperationRecord>, r: OperationRecord)
    ensures Fold(log + [r]) == Tally(Fold(log), r)
  {
    assert (log + [r])[..|log|] == log;
  }

  lemma {:induction false} NoneUnder(log: seq<OperationRecord>, k: Key)
    requires k !in FirstSeen(log)
    ensures Under(log, k) == []
  {
    if log != [] {
      NoneUnder(log[..|log| - 1], k);
    }
  }

  /** Recording appends to the log; eviction from the history never disturbs the aggregates. */
  lemma RecordRefines(st: Recorder, log: seq<OperationRecord>, report: Report, timestamp: real)
    requires Refines(st, log)
    ensures Refines(Record(st, report, timestamp), log + [MakeRecord(st.nextId, report, timestamp)])
  {
    var r := MakeRecord(st.nextId, report, timestamp);
    LastPush(log, r, st.maxHistory);
    FoldSnoc(log, r);
    CountGrouped(st.byOperation, log, r);
  }

  // ---- whole runs ----

  datatype RecorderOp = RecordOp(report: Report, timestamp: real) | ClearOp

  function Run(maxHistory: nat, ops: seq<RecorderOp>): Recorder {
    if ops == [] then Empty(maxHistory)
    else
      var st := Run(maxHistory, ops[..|ops| - 1]);
      match ops[|ops| - 1]
      case RecordOp(report, timestamp) => Record(st, report, timestamp)
      case ClearOp => Clear(st)
  }

  /** How many operations a run recorded, clears notwithstanding. */
  function Recorded(ops: seq<RecorderOp>): nat {
    if ops == [] then 0 else Recorded(ops[..|ops| - 1]) + (if ops[|ops| - 1].RecordOp? then 1 else 0)
  }

  /** The records made since the last clear, under the ids they were given. */
  function LogOf(ops: seq<RecorderOp>): seq<OperationRecord> {
    if ops == [] then []
    else
      var before := ops[..|ops| - 1];
      match ops[|ops| - 1]
      case RecordOp(report, timestamp) => LogOf(before) + [MakeRecord(Recorded(before) + 1, report, timestamp)]
      case ClearOp => []
  }

  lemma {:induction false} RunCounts(maxHistory: nat, ops: seq<RecorderOp>)
    ensures Run(maxHistory, ops).maxHistory == maxHistory
    ensures Run(maxHistory, ops).nextId == Recorded(ops) + 1
  {
    if ops != [] {
      RunCounts(maxHistory, ops[..|ops| - 1]);
    }
  }

  /** After any sequence of `record` and `clear`, the recorder summarises exactly the log since the
      last clear, and ids have kept counting across the clears. */
  lemma {:induction false} RunRefinesLog(maxHistory: nat, ops: seq<RecorderOp>)
    ensures Refines(Run(maxHistory, ops), LogOf(ops))
  {
    if ops == [] {
      EmptyRefines(maxHistory);
    } else {
      var before, op := ops[..|ops| - 1], ops[|ops| - 1];
      var st, log := Run(maxHistory, before), LogOf(before);
      RunRefinesLog(maxHistory, before);
      if op.RecordOp? {
        RunCounts(maxHistory, before);
        assert LogOf(ops) == log + [MakeRecord(st.nextId, op.report, op.timestamp)];
        assert Run(maxHistory, ops) == Record(st, op.report, op.timestamp);
        RecordRefines(st, log, op.report, op.timestamp);
      } else {
        ClearRefines(st, log);
      }
    }
  }

  /** The ids still in the history are the last ones given out, without a gap. */
  lemma HistoryWindow(st: Recorder, log: seq<OperationRecord>)
    requires Refines(st, log)
    ensures |st.history| == if |log| <= st.maxHistory then |log| else st.maxHistory
    ensures |st.history| < st.nextId
    ensures forall i :: 0 <= i < |st.history| ==> st.history[i].id == st.nextId - |st.history| + i
  {}
}
