/** The metrics snapshot computed from the recorder's aggregates. */
module Metrics {
  import opened Dict
  import opened LogCounts
  import opened Rounding
  import opened Recording
  import opened Sorting

  datatype Row = Row(service: string, operation: string, count: nat, errorCount: nat, avgDuration: int)

  /** Averages are in hundredths of a millisecond, the error rate in ten-thousandths. */
  datatype Snapshot = Snapshot(
    totalCount: nat,
    errorCount: nat,
    errorRate: int,
    avgDuration: int,
    byOperation: seq<Row>)

  function Average(s: Stats): int {
    if s.count == 0 then 0 else RoundedMean(s.durationSum, s.count)
  }

  function RowOf(e: Entry<Key, Stats>): Row {
    Row(e.key.0, e.key.1, e.value.count, e.value.errorCount, Average(e.value))
  }

  function Rows(d: seq<Entry<Key, Stats>>): (rows: seq<Row>)
    ensures |rows| == |d| && forall i :: 0 <= i < |d| ==> rows[i] == RowOf(d[i])
  {
    seq(|d|, i requires 0 <= i < |d| => RowOf(d[i]))
  }

  /** `sort(key=count, reverse=True)`: larger counts first, ties in their original order. */
  predicate CountOrder(a: Row, b: Row) {
    a.count >= b.count
  }

  function SortRows(rows: seq<Row>): seq<Row> {
    Sort(rows, CountOrder)
  }

  function Of(st: Recorder): Snapshot {
    var total, errors := st.totals.count, st.totals.errorCount;
    Snapshot(total, errors,
             if total == 0 then 0 else RoundedMean(10_000 * errors, total),
             Average(st.totals),
             SortRows(Rows(st.byOperation)))
  }

  // ---- self-consistency ----

  function SumCounts(rows: seq<Row>): nat {
    if rows == [] then 0 else rows[0].count + SumCounts(rows[1..])
  }

  function SumErrors(rows: seq<Row>): nat {
    if rows == [] then 0 else rows[0].errorCount + SumErrors(rows[1..])
  }

  function SumStats(d: seq<Entry<Key, Stats>>): Stats {
    if d == [] then NoStats
    else
      var rest, s := SumStats(d[1..]), d[0].value;
      Stats(s.count + rest.count, s.errorCount + rest.errorCount, s.durationSum + rest.durationSum)
  }

  lemma {:induction false} SumStatsPut(d: seq<Entry<Key, Stats>>, r: OperationRecord)
    ensures SumStats(Count(d, r)) == Tally(SumStats(d), r)
  {
    var k := KeyOf(r);
    if d == [] {
      assert Count(d, r) == [Entry(k, Tally(NoStats, r))];
      assert SumStats([]) == NoStats;
    } else if d[0].key == k {
      assert Count(d, r)[1..] == d[1..];
    } else {
      SumStatsPut(d[1..], r);
      assert IndexOf(d, k) == 1 + IndexOf(d[1..], k);
      assert Count(d, r) == [d[0]] + Count(d[1..], r);
    }
  }

  /** The grouping of a log, built entry by entry. */
  function GroupedOf(log: seq<OperationRecord>): seq<Entry<Key, Stats>> {
    if log == [] then [] else Count(GroupedOf(log[..|log| - 1]), log[|log| - 1])
  }

  lemma {:induction false} GroupedOfGroups(log: seq<OperationRecord>)
    ensures GroupedBy(GroupedOf(log), log)
    ensures SumStats(GroupedOf(log)) == Fold(log)
  {
    if log != [] {
      var init, last := log[..|log| - 1], log[|log| - 1];
      GroupedOfGroups(init);
      CountGrouped(GroupedOf(init), init, last);
      SumStatsPut(GroupedOf(init), last);
      assert init + [last] == log;
    }
  }

  /** The buckets of a log share out its entries. */
  lemma GroupedSum(d: seq<Entry<Key, Stats>>, log: seq<OperationRecord>)
    requires GroupedBy(d, log)
    ensures SumStats(d) == Fold(log)
  {
    GroupedOfGroups(log);
    GroupedUnique(d, GroupedOf(log), log);
  }

  lemma GroupedUnique(d: seq<Entry<Key, Stats>>, e: seq<Entry<Key, Stats>>, log: seq<OperationRecord>)
    requires GroupedBy(d, log) && GroupedBy(e, log)
    ensures d == e
  {
    forall i | 0 <= i < |d| ensures d[i] == e[i] {}
  }

  lemma {:induction false} RowSums(d: seq<Entry<Key, Stats>>)
    ensures SumCounts(Rows(d)) == SumStats(d).count
    ensures SumErrors(Rows(d)) == SumStats(d).errorCount
  {
    if d != [] {
      RowSums(d[1..]);
      assert Rows(d)[1..] == Rows(d[1..]);
    }
  }

  lemma {:induction false} InsertSums(x: Row, rows: seq<Row>)
    ensures SumCounts(Insert(x, rows, CountOrder)) == x.count + SumCounts(rows)
    ensures SumErrors(Insert(x, rows, CountOrder)) == x.errorCount + SumErrors(rows)
  {
    var r := Insert(x, rows, CountOrder);
    if rows == [] || CountOrder(x, rows[0]) {
      assert r[1..] == rows;
    } else {
      InsertSums(x, rows[1..]);
      assert r[1..] == Insert(x, rows[1..], CountOrder);
    }
  }

  lemma {:induction false} SortSums(rows: seq<Row>)
    ensures SumCounts(SortRows(rows)) == SumCounts(rows)
    ensures SumErrors(SortRows(rows)) == SumErrors(rows)
  {
    if rows != [] {
      SortSums(rows[1..]);
      InsertSums(rows[0], SortRows(rows[1..]));
    }
  }

  lemma {:induction false} FoldBounds(log: seq<OperationRecord>)
    ensures Fold(log).count == |log|
    ensures Fold(log).errorCount <= Fold(log).count
  {
    if log != [] {
      FoldBounds(log[..|log| - 1]);
    }
  }

  lemma RateInUnitRange(errors: nat, total: nat)
    requires 0 < total && errors <= total
    ensures 0 <= RoundedMean(10_000 * errors, total) <= 10_000
  {
    RoundedMeanMonotone(0, 1, 10_000 * errors, total);
    RoundedMeanMonotone(10_000 * errors, total, 10_000, 1);
    RoundFixesIntegers(0);
    RoundFixesIntegers(10_000);
  }

  /** Every snapshot of a recorder that summarises a log counts that log: its entries, its errors, the
      rounded share of errors and the rounded average duration; and the rows add up to the totals. */
  lemma SnapshotTotals(st: Recorder, log: seq<OperationRecord>)
    requires Refines(st, log)
    ensures var s := Of(st);
      && s.totalCount == |log| == SumCounts(s.byOperation)
      && s.errorCount == |ErrorsIn(log)| == SumErrors(s.byOperation)
      && s.errorCount <= s.totalCount
      && 0 <= s.errorRate <= 10_000
      && (if log == [] then s.errorRate == 0 && s.avgDuration == 0
          else Nearest(s.errorRate, 10_000 * |ErrorsIn(log)|, |log|) && Nearest(s.avgDuration, Durations(log), |log|))
  {
    FoldBounds(log);
    TotalsCount(log);
    GroupedSum(st.byOperation, log);
    RowSums(st.byOperation);
    SortSums(Rows(st.byOperation));
    if log != [] {
      RateInUnitRange(Fold(log).errorCount, |log|);
      MeanIsNearest(10_000 * |ErrorsIn(log)|, |log|);
      MeanIsNearest(Durations(log), |log|);
    }
  }

  /** The row tells the log's entries, errors and rounded average duration of its operation. */
  ghost predicate RowCounts(row: Row, log: seq<OperationRecord>) {
    && row.count == |CallsOf(log, row.service, row.operation)| > 0
    && row.errorCount == |ErrorsOf(log, row.service, row.operation)|
    && Nearest(row.avgDuration, DurationsOf(log, row.service, row.operation), row.count)
  }

  /** Every row counts the log, and every entry of the log is counted in some row. */
  lemma RowsCountTheLog(st: Recorder, log: seq<OperationRecord>)
    requires Refines(st, log)
    ensures var rows := Of(st).byOperation;
      && (forall i :: 0 <= i < |rows| ==> RowCounts(rows[i], log))
      && (forall r :: r in log ==>
            exists i :: 0 <= i < |rows| && rows[i].service == r.service && rows[i].operation == r.operation)
  {
    var unsorted, rows := Rows(st.byOperation), Of(st).byOperation;
    SortMultiset(unsorted, CountOrder);
    forall i | 0 <= i < |rows| ensures RowCounts(rows[i], log) {
      assert rows[i] in multiset(rows);
      var k :| 0 <= k < |unsorted| && unsorted[k] == rows[i];
      BucketRowCounts(st, log, k);
    }
    forall r | r in log
      ensures exists i :: 0 <= i < |rows| && rows[i].service == r.service && rows[i].operation == r.operation
    {
      UnderExact(log, KeyOf(r));
      SeenHasEntry(log, KeyOf(r));
      var k :| 0 <= k < |FirstSeen(log)| && FirstSeen(log)[k] == KeyOf(r);
      assert unsorted[k] in multiset(rows);
      var i :| 0 <= i < |rows| && rows[i] == unsorted[k];
    }
  }

  lemma BucketRowCounts(st: Recorder, log: seq<OperationRecord>, k: nat)
    requires Refines(st, log) && k < |st.byOperation|
    ensures RowCounts(RowOf(st.byOperation[k]), log)
  {
    var e := st.byOperation[k];
    BucketCounts(log, e.key.0, e.key.1);
    assert FirstSeen(log)[k] in FirstSeen(log);
    SeenHasEntry(log, e.key);
    FoldBounds(Under(log, e.key));
    MeanIsNearest(e.value.durationSum, e.value.count);
  }

  /** The operation a row is about. */
  function RowKey(r: Row): Key {
    (r.service, r.operation)
  }

  lemma RowKeysDistinct(st: Recorder, log: seq<OperationRecord>)
    requires Refines(st, log)
    ensures DistinctBy(Of(st).byOperation, RowKey)
  {
    SortDistinct(Rows(st.byOperation), CountOrder, RowKey);
  }

  /** The rows are the buckets, each once, larger counts first; no two rows are about one operation and
      no row has more errors than calls. */
  lemma SnapshotRows(st: Recorder, log: seq<OperationRecord>)
    requires Refines(st, log)
    ensures var rows := Of(st).byOperation;
      && multiset(rows) == multiset(Rows(st.byOperation))
      && (forall i, j :: 0 <= i < j < |rows| ==> rows[i].count >= rows[j].count)
      && (forall i :: 0 <= i < |rows| ==> rows[i].errorCount <= rows[i].count)
      && (forall i, j :: 0 <= i < j < |rows| ==> RowKey(rows[i]) != RowKey(rows[j]))
  {
    RowKeysDistinct(st, log);
    var unsorted, rows := Rows(st.byOperation), Of(st).byOperation;
    SortSorts(unsorted, CountOrder);
    assert forall i, j :: 0 <= i < j < |rows| ==> CountOrder(rows[i], rows[j]);
    forall i | 0 <= i < |rows| ensures rows[i].errorCount <= rows[i].count {
      assert rows[i] in multiset(rows);
      var k :| 0 <= k < |unsorted| && unsorted[k] == rows[i];
      FoldBounds(Under(log, st.byOperation[k].key));
    }
  }

  /** Operations with equal counts stay in the order in which they were first recorded. */
  lemma TiesKeepFirstSeenOrder(st: Recorder, count: nat)
    ensures Filter(Of(st).byOperation, (r: Row) => r.count == count)
         == Filter(Rows(st.byOperation), (r: Row) => r.count == count)
  {
    SortStable(Rows(st.byOperation), CountOrder, (r: Row) => r.count == count);
  }

  // ---- averages ----

  lemma {:induction false} SumAbove(log: seq<OperationRecord>, lo: int)
    requires forall i :: 0 <= i < |log| ==> lo <= log[i].duration
    ensures lo * |log| <= Fold(log).durationSum
  {
    if log != [] {
      SumAbove(log[..|log| - 1], lo);
      assert lo * |log| == lo * (|log| - 1) + lo;
    }
  }

  lemma {:induction false} SumBelow(log: seq<OperationRecord>, hi: int)
    requires forall i :: 0 <= i < |log| ==> log[i].duration <= hi
    ensures Fold(log).durationSum <= hi * |log|
  {
    if log != [] {
      SumBelow(log[..|log| - 1], hi);
      assert hi * |log| == hi * (|log| - 1) + hi;
    }
  }

  /** A rounded average lies within every pair of bounds on the durations it averages. */
  lemma AverageWithinDurations(log: seq<OperationRecord>, lo: int, hi: int)
    requires log != []
    requires forall i :: 0 <= i < |log| ==> lo <= log[i].duration <= hi
    ensures lo <= Average(Fold(log)) <= hi
  {
    FoldBounds(log);
    SumAbove(log, lo);
    SumBelow(log, hi);
    RoundedMeanMonotone(lo, 1, Fold(log).durationSum, |log|);
    RoundedMeanMonotone(Fold(log).durationSum, |log|, hi, 1);
    RoundFixesIntegers(lo);
    RoundFixesIntegers(hi);
  }

  /** In every row, the average lies between the smallest and the largest duration recorded for that
      operation since the last clear; the row exists only if the operation was recorded. */
  lemma RowAverageWithinItsDurations(st: Recorder, log: seq<OperationRecord>, e: Entry<Key, Stats>, lo: int, hi: int)
    requires Refines(st, log) && e in st.byOperation
    requires forall r :: r in log && KeyOf(r) == e.key ==> lo <= r.duration <= hi
    ensures e.value.count > 0
    ensures lo <= RowOf(e).avgDuration <= hi
  {
    var own := Under(log, e.key);
    UnderExact(log, e.key);
    assert e.key in FirstSeen(log);
    SeenHasEntry(log, e.key);
    FoldBounds(own);
    AverageWithinDurations(own, lo, hi);
  }

  lemma {:induction false} UnderExact(log: seq<OperationRecord>, k: Key)
    ensures forall r :: r in Under(log, k) <==> r in log && KeyOf(r) == k
  {
    if log != [] {
      UnderExact(log[..|log| - 1], k);
      assert log == log[..|log| - 1] + [log[|log| - 1]];
    }
  }

  lemma {:induction false} SeenHasEntry(log: seq<OperationRecord>, k: Key)
    ensures k in FirstSeen(log) <==> Under(log, k) != []
  {
    if log != [] {
      SeenHasEntry(log[..|log| - 1], k);
    }
  }

  /** Some bucket's mean is at most s/n when the mean over all of them is. */
  lemma {:induction false} SomeAtMost(d: seq<Entry<Key, Stats>>, s: int, n: nat) returns (i: nat)
    requires d != [] && SumStats(d).durationSum * n <= s * SumStats(d).count
    ensures i < |d| && d[i].value.durationSum * n <= s * d[i].value.count
  {
    var x, rest := d[0].value, SumStats(d[1..]);
    if x.durationSum * n <= s * x.count { return 0; }
    assert (x.durationSum + rest.durationSum) * n == x.durationSum * n + rest.durationSum * n;
    assert s * (x.count + rest.count) == s * x.count + s * rest.count;
    i := SomeAtMost(d[1..], s, n);
    i := i + 1;
  }

  lemma {:induction false} SomeAtLeast(d: seq<Entry<Key, Stats>>, s: int, n: nat) returns (i: nat)
    requires d != [] && SumStats(d).durationSum * n >= s * SumStats(d).count
    ensures i < |d| && d[i].value.durationSum * n >= s * d[i].value.count
  {
    var x, rest := d[0].value, SumStats(d[1..]);
    if x.durationSum * n >= s * x.count { return 0; }
    assert (x.durationSum + rest.durationSum) * n == x.durationSum * n + rest.durationSum * n;
    assert s * (x.count + rest.count) == s * x.count + s * rest.count;
    i := SomeAtLeast(d[1..], s, n);
    i := i + 1;
  }

  /** The rounded overall average lies between the smallest and the largest of the rounded
      per-operation averages. */
  lemma OverallAverageWithinRows(st: Recorder, log: seq<OperationRecord>)
    requires Refines(st, log) && log != []
    ensures exists i, j ::
      0 <= i < |st.byOperation| && 0 <= j < |st.byOperation|
      && RowOf(st.byOperation[i]).avgDuration <= Of(st).avgDuration <= RowOf(st.byOperation[j]).avgDuration
  {
    var d, t := st.byOperation, Fold(log);
    FoldBounds(log);
    GroupedSum(d, log);
    var i := SomeAtMost(d, t.durationSum, t.count);
    var j := SomeAtLeast(d, t.durationSum, t.count);
    BucketNonempty(st, log, d[i]);
    BucketNonempty(st, log, d[j]);
    RoundedMeanMonotone(d[i].value.durationSum, d[i].value.count, t.durationSum, t.count);
    RoundedMeanMonotone(t.durationSum, t.count, d[j].value.durationSum, d[j].value.count);
    assert RowOf(d[i]).avgDuration <= Of(st).avgDuration <= RowOf(d[j]).avgDuration;
  }

  lemma BucketNonempty(st: Recorder, log: seq<OperationRecord>, e: Entry<Key, Stats>)
    requires Refines(st, log) && e in st.byOperation
    ensures e.value.count > 0
  {
    assert e.key in FirstSeen(log);
    SeenHasEntry(log, e.key);
    FoldBounds(Under(log, e.key));
  }
}
