/** What the recorder's counters count, said of the log itself. */
module LogCounts {
  import opened Recording
  import opened Rounding

  /** Where the log holds an error. */
  ghost function ErrorsIn(log: seq<OperationRecord>): set<int> {
    set i | 0 <= i < |log| && log[i].status == "error"
  }

  /** Where the log holds this operation. */
  ghost function CallsOf(log: seq<OperationRecord>, service: string, operation: string): set<int> {
    set i | 0 <= i < |log| && log[i].service == service && log[i].operation == operation
  }

  /** Where the log holds an error of this operation. */
  ghost function ErrorsOf(log: seq<OperationRecord>, service: string, operation: string): set<int> {
    set i | 0 <= i < |log| && log[i].service == service && log[i].operation == operation && log[i].status == "error"
  }

  ghost function Durations(log: seq<OperationRecord>): int {
    if log == [] then 0 else log[0].duration + Durations(log[1..])
  }

  ghost function DurationsOf(log: seq<OperationRecord>, service: string, operation: string): int {
    if log == [] then 0
    else
      (if log[0].service == service && log[0].operation == operation then log[0].duration else 0)
      + DurationsOf(log[1..], service, operation)
  }

  lemma {:induction false} DurationsNext(log: seq<OperationRecord>, r: OperationRecord)
    ensures Durations(log + [r]) == Durations(log) + r.duration
  {
    if log == [] {
      assert (log + [r])[1..] == [];
    } else {
      DurationsNext(log[1..], r);
      assert (log + [r])[1..] == log[1..] + [r];
    }
  }

  lemma {:induction false} DurationsOfNext(log: seq<OperationRecord>, r: OperationRecord, service: string,
    operation: string)
    ensures DurationsOf(log + [r], service, operation)
         == DurationsOf(log, service, operation)
            + if r.service == service && r.operation == operation then r.duration else 0
  {
    if log == [] {
      assert (log + [r])[1..] == [];
    } else {
      DurationsOfNext(log[1..], r, service, operation);
      assert (log + [r])[1..] == log[1..] + [r];
    }
  }

  lemma ErrorsNext(log: seq<OperationRecord>, r: OperationRecord)
    ensures |ErrorsIn(log + [r])| == |ErrorsIn(log)| + if r.status == "error" then 1 else 0
  {
    assert ErrorsIn(log + [r]) == ErrorsIn(log) + if r.status == "error" then {|log|} else {};
  }

  lemma CallsOfNext(log: seq<OperationRecord>, r: OperationRecord, service: string, operation: string)
    ensures |CallsOf(log + [r], service, operation)|
         == |CallsOf(log, service, operation)| + if r.service == service && r.operation == operation then 1 else 0
  {
    var here := r.service == service && r.operation == operation;
    assert CallsOf(log + [r], service, operation)
        == CallsOf(log, service, operation) + if here then {|log|} else {};
  }

  lemma ErrorsOfNext(log: seq<OperationRecord>, r: OperationRecord, service: string, operation: string)
    ensures |ErrorsOf(log + [r], service, operation)|
         == |ErrorsOf(log, service, operation)|
            + if r.service == service && r.operation == operation && r.status == "error" then 1 else 0
  {
    var here := r.service == service && r.operation == operation && r.status == "error";
    assert ErrorsOf(log + [r], service, operation)
        == ErrorsOf(log, service, operation) + if here then {|log|} else {};
  }

  /** The totals count the log's entries and its errors and add up its durations. */
  lemma {:induction false} TotalsCount(log: seq<OperationRecord>)
    ensures Fold(log).count == |log|
    ensures Fold(log).errorCount == |ErrorsIn(log)|
    ensures Fold(log).durationSum == Durations(log)
  {
    if log != [] {
      var init, last := log[..|log| - 1], log[|log| - 1];
      TotalsCount(init);
      ErrorsNext(init, last);
      DurationsNext(init, last);
      assert init + [last] == log;
    }
  }

  /** The bucket of an operation counts the log's entries and errors of that operation and adds up their
      durations. */
  lemma {:induction false} BucketCounts(log: seq<OperationRecord>, service: string, operation: string)
    ensures var s := Fold(Under(log, (service, operation)));
      && s.count == |CallsOf(log, service, operation)|
      && s.errorCount == |ErrorsOf(log, service, operation)|
      && s.durationSum == DurationsOf(log, service, operation)
  {
    if log != [] {
      var init, last := log[..|log| - 1], log[|log| - 1];
      BucketCounts(init, service, operation);
      CallsOfNext(init, last, service, operation);
      ErrorsOfNext(init, last, service, operation);
      DurationsOfNext(init, last, service, operation);
      assert init + [last] == log;
      var under := Under(init, (service, operation));
      if KeyOf(last) == (service, operation) {
        assert (under + [last])[..|under|] == under;
      } else {
        assert under + [] == under;
      }
    } else {
      assert CallsOf(log, service, operation) == {} && ErrorsOf(log, service, operation) == {};
    }
  }

  /** m is the quotient of the sum by the count, rounded to the nearest integer, ties to the even one. */
  ghost predicate Nearest(m: int, sum: int, count: nat) {
    && -(count as int) <= 2 * (m * count - sum) <= count
    && (2 * (m * count - sum) == count || 2 * (m * count - sum) == -(count as int) ==> m % 2 == 0)
  }

  lemma MeanIsNearest(sum: int, count: nat)
    requires count > 0
    ensures Nearest(RoundedMean(sum, count), sum, count)
  {
    ScaledDistance(sum, count);
    WithinHalf(RoundedMean(sum, count), sum, count, Distance(sum, count));
  }

  lemma WithinHalf(m: int, sum: int, count: nat, d: real)
    requires count > 0 && -0.5 <= d <= 0.5 && (d == 0.5 || d == -0.5 ==> m % 2 == 0)
    requires d * count as real == (m * count - sum) as real
    ensures Nearest(m, sum, count)
  {
    var i := m * count - sum;
    Scaled(d, count as real, i as real);
    InIntegers(i, i as real, count);
  }

  /** How far the rounded mean is from the exact one. */
  ghost function Distance(sum: int, count: nat): (d: real)
    requires count > 0
    ensures -0.5 <= d <= 0.5
    ensures d == 0.5 || d == -0.5 ==> RoundedMean(sum, count) % 2 == 0
  {
    RoundedMean(sum, count) as real - sum as real / count as real
  }

  lemma ScaledDistance(sum: int, count: nat)
    requires count > 0
    ensures Distance(sum, count) * count as real == (RoundedMean(sum, count) * count - sum) as real
  {
    var q, n, k := sum as real / count as real, RoundedMean(sum, count), count as real;
    assert q * k == sum as real;
    Distributes(n as real, q, k);
    ProductOfInts(n, count);
  }

  lemma ProductOfInts(n: int, count: int)
    ensures n as real * count as real == (n * count) as real
  {}

  lemma Distributes(a: real, b: real, k: real)
    ensures (a - b) * k == a * k - b * k
  {}

  lemma InIntegers(i: int, x: real, count: nat)
    requires i as real == x && -(count as real) <= 2.0 * x <= count as real
    ensures -(count as int) <= 2 * i <= count
    ensures 2 * i == count ==> 2.0 * x == count as real
    ensures 2 * i == -(count as int) ==> 2.0 * x == -(count as real)
  {
    assert (2 * i) as real == 2.0 * x;
  }

  lemma Scaled(d: real, k: real, x: real)
    requires -0.5 <= d <= 0.5 && k > 0.0 && d * k == x
    ensures -k <= 2.0 * x <= k
    ensures 2.0 * x == k ==> d == 0.5
    ensures 2.0 * x == -k ==> d == -0.5
  {
    assert (d + 0.5) * k >= 0.0 && (0.5 - d) * k >= 0.0;
    if d < 0.5 { assert (0.5 - d) * k > 0.0; }
    if d > -0.5 { assert (d + 0.5) * k > 0.0; }
  }
}
