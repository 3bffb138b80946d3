/** What the pipeline promises over every run: any events, any interleaving, any length. */
module Guarantees {
  import opened Wrappers
  import opened Dict
  import opened Errors
  import opened Registry
  import opened Pipeline
  import opened Accounting
  import Rec = Recording
  import LogCounts
  import Metrics

  // ---- hits are conserved ----

  /** The hits on the rules before n: on all of them, or on those that fail the call. */
  function SumHits(reg: Registry, n: nat, failingOnly: bool): nat
    requires n <= |reg.objects|
  {
    if n == 0 then 0
    else
      var rule := reg.objects[n - 1];
      SumHits(reg, n - 1, failingOnly) + (if failingOnly && rule.failure == LATENCY then 0 else rule.hitCount)
  }

  predicate HitBy(call: Call, reg: Registry, n: nat, failingOnly: bool) {
    call.hit.Some? && call.hit.value < n && n <= |reg.objects|
    && (failingOnly ==> reg.objects[call.hit.value].failure != LATENCY)
  }

  function CountHitBy(calls: seq<Call>, reg: Registry, n: nat, failingOnly: bool): nat {
    if calls == [] then 0
    else
      CountHitBy(calls[..|calls| - 1], reg, n, failingOnly)
      + (if HitBy(calls[|calls| - 1], reg, n, failingOnly) then 1 else 0)
  }

  lemma {:induction false} CountHitByStep(calls: seq<Call>, reg: Registry, n: nat, failingOnly: bool)
    requires 0 < n <= |reg.objects|
    ensures CountHitBy(calls, reg, n, failingOnly)
         == CountHitBy(calls, reg, n - 1, failingOnly)
            + (if failingOnly && reg.objects[n - 1].failure == LATENCY then 0 else CountHits(calls, n - 1))
  {
    if calls != [] {
      CountHitByStep(calls[..|calls| - 1], reg, n, failingOnly);
    }
  }

  lemma {:induction false} CountHitByNone(calls: seq<Call>, reg: Registry, failingOnly: bool)
    ensures CountHitBy(calls, reg, 0, failingOnly) == 0
  {
    if calls != [] {
      CountHitByNone(calls[..|calls| - 1], reg, failingOnly);
    }
  }

  lemma {:induction false} SumHitsIsCount(reg: Registry, calls: seq<Call>, n: nat, failingOnly: bool)
    requires n <= |reg.objects| && HitsInv(reg, calls)
    ensures SumHits(reg, n, failingOnly) == CountHitBy(calls, reg, n, failingOnly)
  {
    if n == 0 {
      CountHitByNone(calls, reg, failingOnly);
    } else {
      SumHitsIsCount(reg, calls, n - 1, failingOnly);
      CountHitByStep(calls, reg, n, failingOnly);
    }
  }

  /** Every rule ever created, deleted ones included, has been hit exactly as often as calls committed
      on it; no call commits twice, so all hits together are the committed calls, and the hits of
      failing rules are the calls those rules failed. */
  lemma HitConservation(maxHistory: nat, es: seq<Event>)
    ensures var s := Exec(maxHistory, es);
      && (forall r :: 0 <= r < |s.reg.objects| ==> s.reg.objects[r].hitCount == CountHits(s.calls, r))
      && SumHits(s.reg, |s.reg.objects|, false) == CountHitBy(s.calls, s.reg, |s.reg.objects|, false)
      && SumHits(s.reg, |s.reg.objects|, true) == CountHitBy(s.calls, s.reg, |s.reg.objects|, true)
  {
    Reachable(maxHistory, es);
    var s := Exec(maxHistory, es);
    SumHitsIsCount(s.reg, s.calls, |s.reg.objects|, false);
    SumHitsIsCount(s.reg, s.calls, |s.reg.objects|, true);
  }

  /** The calls hit by a failing rule are exactly those still in that rule's delay and those ended
      without a real provider call; the end is the rule's own error, and no provider call is made. */
  lemma InjectedCallsNeverRun(maxHistory: nat, es: seq<Event>, c: nat)
    requires c < |Exec(maxHistory, es).calls|
    ensures var s := Exec(maxHistory, es); var call := s.calls[c];
      && CountEffects(s.effects, c) == (if call.ranFn then 1 else 0)
      && (Injected(call, s.reg) <==>
            (call.phase.Sleeping? && s.reg.objects[call.phase.rule].failure != LATENCY)
            || (Finished(call) && !call.ranFn))
      && (Injected(call, s.reg) ==>
            && CountEffects(s.effects, c) == 0
            && (Finished(call) ==>
                  call.phase.end == Failure(InjectedError(s.reg.objects[call.hit.value].failure))))
  {
    Reachable(maxHistory, es);
    assert CallInv(Exec(maxHistory, es).calls[c], Exec(maxHistory, es).reg);
  }

  /** One `apply` delays its call by at most the cap, however many rules match and whatever happens
      to them meanwhile: by the delay of the rule that hit it, and not at all without a hit. */
  lemma DelayBounded(maxHistory: nat, es: seq<Event>, c: nat)
    requires c < |Exec(maxHistory, es).calls|
    ensures var call := Exec(maxHistory, es).calls[c];
      var reg := Exec(maxHistory, es).reg;
      && 0 <= call.sleptMs <= MAX_DELAY_MS
      && (call.hit == None || call.phase.Sleeping? ==> call.sleptMs == 0)
      && (call.hit.Some? && !call.phase.Sleeping? ==>
            call.hit.value < |reg.objects| && call.sleptMs == reg.objects[call.hit.value].delayMs)
  {
    Reachable(maxHistory, es);
    var s := Exec(maxHistory, es);
    var call := s.calls[c];
    assert CallInv(call, s.reg);
    if call.hit.Some? {
      assert RuleValid(s.reg.objects[call.hit.value], call.hit.value);
    }
  }

  // ---- records account for calls ----

  /** A call that ended with a value or an AppError wrote exactly one record, which describes that
      end; any other call wrote none. Records are numbered from 1 without a gap, clears or not. */
  lemma OneRecordPerCall(maxHistory: nat, es: seq<Event>, c: nat)
    requires c < |Exec(maxHistory, es).calls|
    ensures var s := Exec(maxHistory, es);
      && CountAppends(s.appends, c) == (if Classify(s.calls[c]) == Recorded then 1 else 0)
      && (forall i :: 0 <= i < |s.appends| && s.appends[i].call == c ==>
            s.appends[i].record.id == i + 1 && Describes(s.appends[i].record, s.calls[c]))
  {
    Reachable(maxHistory, es);
    var s := Exec(maxHistory, es);
    forall i | 0 <= i < |s.appends| && s.appends[i].call == c
      ensures s.appends[i].record.id == i + 1 && Describes(s.appends[i].record, s.calls[c])
    {
      assert AppendInv(s.calls, s.appends[i], i);
    }
  }

  /** Calls started are records written plus calls in flight plus calls that escaped unrecorded. */
  lemma CallAccounting(maxHistory: nat, es: seq<Event>)
    ensures var s := Exec(maxHistory, es);
      |s.calls| == (s.rec.nextId - 1) + CountClass(s.calls, InFlight) + CountClass(s.calls, Escaped)
  {
    Reachable(maxHistory, es);
    ClassesPartition(Exec(maxHistory, es).calls);
  }

  /** Without recorder clears, the total the recorder reports is every record written, so it accounts
      for the calls; in any run it falls short of that by exactly the records cleared. */
  lemma TotalCountAccounting(maxHistory: nat, es: seq<Event>)
    ensures var s := Exec(maxHistory, es);
      && s.rec.totals.count == |s.log| <= s.rec.nextId - 1
      && ((forall i :: 0 <= i < |es| ==> !es[i].ClearRecorderEvent?) ==>
            |s.calls| == s.rec.totals.count + CountClass(s.calls, InFlight) + CountClass(s.calls, Escaped))
  {
    Reachable(maxHistory, es);
    CallAccounting(maxHistory, es);
    Metrics.FoldBounds(Exec(maxHistory, es).log);
    if forall i :: 0 <= i < |es| ==> !es[i].ClearRecorderEvent? {
      NothingCleared(maxHistory, es);
    }
  }

  lemma {:induction false} NothingCleared(maxHistory: nat, es: seq<Event>)
    requires forall i :: 0 <= i < |es| ==> !es[i].ClearRecorderEvent?
    ensures |Exec(maxHistory, es).log| == |Exec(maxHistory, es).appends|
  {
    if es != [] {
      NothingCleared(maxHistory, es[..|es| - 1]);
      LogGrowsWithAppends(Exec(maxHistory, es[..|es| - 1]), es[|es| - 1]);
    }
  }

  lemma LogGrowsWithAppends(s: State, e: Event)
    requires Wf(s) && !e.ClearRecorderEvent?
    ensures |Act(s, e).log| + |s.appends| == |s.log| + |Act(s, e).appends|
  {}

  /** At every instant of every run the recorder summarises the records since the last clear, and a
      metrics snapshot taken then counts them, in all and operation by operation. */
  lemma MetricsAlwaysConsistent(maxHistory: nat, es: seq<Event>)
    ensures var s := Exec(maxHistory, es); var m := Metrics.Of(s.rec);
      && Rec.Refines(s.rec, s.log)
      && m.totalCount == Metrics.SumCounts(m.byOperation) == |s.log|
      && m.errorCount == |LogCounts.ErrorsIn(s.log)| == Metrics.SumErrors(m.byOperation) <= m.totalCount
      && 0 <= m.errorRate <= 10_000
      && (s.log != [] ==> LogCounts.Nearest(m.errorRate, 10_000 * |LogCounts.ErrorsIn(s.log)|, |s.log|))
      && (s.log != [] ==> LogCounts.Nearest(m.avgDuration, LogCounts.Durations(s.log), |s.log|))
      && (forall i :: 0 <= i < |m.byOperation| ==> Metrics.RowCounts(m.byOperation[i], s.log))
      && (forall i :: 0 <= i < |m.byOperation| ==> m.byOperation[i].errorCount <= m.byOperation[i].count)
      && (forall i, j :: 0 <= i < j < |m.byOperation| ==>
            m.byOperation[i].count >= m.byOperation[j].count
            && Metrics.RowKey(m.byOperation[i]) != Metrics.RowKey(m.byOperation[j]))
  {
    Reachable(maxHistory, es);
    Metrics.SnapshotTotals(Exec(maxHistory, es).rec, Exec(maxHistory, es).log);
    Metrics.SnapshotRows(Exec(maxHistory, es).rec, Exec(maxHistory, es).log);
    Metrics.RowsCountTheLog(Exec(maxHistory, es).rec, Exec(maxHistory, es).log);
  }

  // ---- deletion safety ----

  lemma {:induction false} TimeIsLength(maxHistory: nat, es: seq<Event>)
    ensures Exec(maxHistory, es).time == |es|
  {
    if es != [] {
      TimeIsLength(maxHistory, es[..|es| - 1]);
      ActKeepsTime(Exec(maxHistory, es[..|es| - 1]), es[|es| - 1]);
    }
  }

  lemma ActKeepsTime(s: State, e: Event)
    requires Wf(s)
    ensures Act(s, e).time == s.time
  {}

  /** A rule that is no longer registered never is again, and nothing about it changes. */
  lemma UnregisteredStep(s: State, e: Event, r: Ref)
    requires Wf(s) && r < |s.reg.objects| && !Registered(s.reg, r)
    ensures r < |Step(s, e).reg.objects|
    ensures Step(s, e).reg.objects[r] == s.reg.objects[r] && !Registered(Step(s, e).reg, r)
  {
    if !CallEvent(e) {
      UnregisteredAdmin(s, e, r);
    } else if e.call < |s.calls| {
      UnregisteredCallStep(s, e.call, e, r);
    }
  }

  lemma UnregisteredAdmin(s: State, e: Event, r: Ref)
    requires Wf(s) && !CallEvent(e) && r < |s.reg.objects| && !Registered(s.reg, r)
    ensures r < |Act(s, e).reg.objects|
    ensures Act(s, e).reg.objects[r] == s.reg.objects[r] && !Registered(Act(s, e).reg, r)
  {
    if e.AddRuleEvent? {
      UnregisteredAfterAdd(s.reg, e.service, e.operation, e.failure, e.delayMs, e.probability, r);
    } else if e.DeleteRuleEvent? {
      DeleteRuleValid(s.reg, e.id);
    }
  }

  lemma UnregisteredAfterAdd(reg: Registry, service: string, operation: string, failure: FailureType, delayMs: int,
    probability: real, r: Ref)
    requires Valid(reg) && r < |reg.objects| && !Registered(reg, r)
    ensures !Registered(AddRule(reg, service, operation, failure, delayMs, probability), r)
  {
    AddRuleValid(reg, service, operation, failure, delayMs, probability);
    RegisteredIsSameObject(reg, r);
    RegisteredIsSameObject(AddRule(reg, service, operation, failure, delayMs, probability), r);
  }

  lemma UnregisteredCallStep(s: State, c: nat, e: Event, r: Ref)
    requires Wf(s) && c < |s.calls| && r < |s.reg.objects| && !Registered(s.reg, r)
    ensures CallStep(s, c, e).reg.objects[r] == s.reg.objects[r] && !Registered(CallStep(s, c, e).reg, r)
  {}

  lemma {:induction false} UnregisteredRun(s: State, es: seq<Event>, r: Ref)
    requires Wf(s) && r < |s.reg.objects| && !Registered(s.reg, r)
    ensures r < |RunFrom(s, es).reg.objects|
    ensures !Registered(RunFrom(s, es).reg, r) && RunFrom(s, es).reg.objects[r] == s.reg.objects[r]
    decreases |es|
  {
    if es != [] {
      UnregisteredStep(s, es[0], r);
      UnregisteredRun(Step(s, es[0]), es[1..], r);
    }
  }

  /** Once `delete_rule` or `clear` removed a rule, it stays removed and its hit count never moves
      again: ids are not reused, so no later rule can be mistaken for it. */
  lemma RemovedForever(maxHistory: nat, es: seq<Event>, more: seq<Event>, r: Ref)
    requires r < |Exec(maxHistory, es).reg.objects| && !Registered(Exec(maxHistory, es).reg, r)
    ensures r < |Exec(maxHistory, es + more).reg.objects|
    ensures !Registered(Exec(maxHistory, es + more).reg, r)
    ensures Exec(maxHistory, es + more).reg.objects[r] == Exec(maxHistory, es).reg.objects[r]
  {
    ExecSplit(maxHistory, es, more);
    UnregisteredRun(Exec(maxHistory, es), more, r);
  }

  /** Where a call's snapshot came from. */
  ghost predicate SnapshotOrigin(maxHistory: nat, es: seq<Event>, c: nat, call: Call) {
    !call.phase.Started? ==>
      && call.snapshotAt < |es| && es[call.snapshotAt] == SnapshotEvent(c)
      && var reg := Exec(maxHistory, es[..call.snapshotAt]).reg;
         call.snapshot == Matching(reg, reg.live, call.service, call.operation)
  }

  /** Where a call's hit came from. */
  ghost predicate HitOrigin(maxHistory: nat, es: seq<Event>, c: nat, call: Call) {
    call.hit.Some? ==>
      && !call.phase.Started?
      && call.snapshotAt < call.hitAt < |es| && es[call.hitAt] == CommitEvent(c)
      && call.hit.value in call.snapshot
      && var reg := Exec(maxHistory, es[..call.hitAt]).reg;
         call.hit.value < |reg.objects| && Registered(reg, call.hit.value)
  }

  lemma {:induction false} OriginOf(maxHistory: nat, es: seq<Event>, c: nat)
    requires c < |Exec(maxHistory, es).calls|
    ensures SnapshotOrigin(maxHistory, es, c, Exec(maxHistory, es).calls[c])
    ensures HitOrigin(maxHistory, es, c, Exec(maxHistory, es).calls[c])
  {
    if es != [] {
      var before, e := es[..|es| - 1], es[|es| - 1];
      assert before + [e] == es;
      if c < |Exec(maxHistory, before).calls| {
        OriginOf(maxHistory, before, c);
      }
      OriginNext(maxHistory, before, e, c);
    }
  }

  lemma OriginNext(maxHistory: nat, es: seq<Event>, e: Event, c: nat)
    requires c < |Exec(maxHistory, es + [e]).calls|
    requires c < |Exec(maxHistory, es).calls| ==>
      var call := Exec(maxHistory, es).calls[c];
      SnapshotOrigin(maxHistory, es, c, call) && HitOrigin(maxHistory, es, c, call)
    ensures SnapshotOrigin(maxHistory, es + [e], c, Exec(maxHistory, es + [e]).calls[c])
    ensures HitOrigin(maxHistory, es + [e], c, Exec(maxHistory, es + [e]).calls[c])
  {
    var s := Exec(maxHistory, es);
    ExecSnoc(maxHistory, es, e);
    if c >= |s.calls| {
      NewCallIsStarted(s, e, c);
    } else if CallEvent(e) && e.call == c {
      TimeIsLength(maxHistory, es);
      SnapshotOriginStep(maxHistory, es, e, s, c);
      HitOriginStep(maxHistory, es, e, s, c);
    } else {
      OtherCallsUntouched(s, e, c);
      OriginExtends(maxHistory, es, e, c, s.calls[c]);
    }
  }

  lemma OtherCallsUntouched(s: State, e: Event, c: nat)
    requires Wf(s) && c < |s.calls| && !(CallEvent(e) && e.call == c)
    ensures c < |Act(s, e).calls| && Act(s, e).calls[c] == s.calls[c]
  {
    if CallEvent(e) && e.call < |s.calls| { CallStepFrame(s, e.call, e); }
  }

  lemma NewCallIsStarted(s: State, e: Event, c: nat)
    requires Wf(s) && |s.calls| <= c < |Act(s, e).calls|
    ensures Act(s, e).calls[c].phase.Started? && Act(s, e).calls[c].hit == None
  {}

  lemma OriginExtends(maxHistory: nat, es: seq<Event>, e: Event, c: nat, call: Call)
    ensures SnapshotOrigin(maxHistory, es, c, call) ==> SnapshotOrigin(maxHistory, es + [e], c, call)
    ensures HitOrigin(maxHistory, es, c, call) ==> HitOrigin(maxHistory, es + [e], c, call)
  {
    if call.snapshotAt < |es| { PrefixOfSnoc(es, e, call.snapshotAt); }
    if call.hitAt < |es| { PrefixOfSnoc(es, e, call.hitAt); }
  }

  lemma PrefixOfSnoc(es: seq<Event>, e: Event, k: nat)
    requires k <= |es|
    ensures (es + [e])[..k] == es[..k]
    ensures es[..|es|] == es
  {}

  lemma SnapshotOriginStep(maxHistory: nat, es: seq<Event>, e: Event, s: State, c: nat)
    requires s == Exec(maxHistory, es) && s.time == |es| && c < |s.calls| && CallEvent(e) && e.call == c
    requires SnapshotOrigin(maxHistory, es, c, s.calls[c])
    ensures SnapshotOrigin(maxHistory, es + [e], c, CallStep(s, c, e).calls[c])
  {
    OriginExtends(maxHistory, es, e, c, s.calls[c]);
    CallStepHistory(s, c, e);
    PrefixOfSnoc(es, e, |es|);
  }

  lemma HitOriginStep(maxHistory: nat, es: seq<Event>, e: Event, s: State, c: nat)
    requires s == Exec(maxHistory, es) && s.time == |es| && c < |s.calls| && CallEvent(e) && e.call == c
    requires SnapshotOrigin(maxHistory, es, c, s.calls[c]) && HitOrigin(maxHistory, es, c, s.calls[c])
    ensures HitOrigin(maxHistory, es + [e], c, CallStep(s, c, e).calls[c])
  {
    OriginExtends(maxHistory, es, e, c, s.calls[c]);
    CallStepHistory(s, c, e);
    PrefixOfSnoc(es, e, |es|);
  }

  /** A step takes the call's snapshot, counts its hit, or leaves both as they were. */
  lemma CallStepHistory(s: State, c: nat, e: Event)
    requires Wf(s) && c < |s.calls|
    ensures var call, call' := s.calls[c], CallStep(s, c, e).calls[c];
      && call'.service == call.service && call'.operation == call.operation
      && if call.phase.Started? && e.SnapshotEvent? then
           && call'.snapshotAt == s.time && call'.hit == call.hit && call'.hitAt == call.hitAt
           && call'.snapshot == Matching(s.reg, s.reg.live, call.service, call.operation)
         else if call.phase.Committing? && e.CommitEvent? && Registered(s.reg, call.snapshot[call.phase.i]) then
           && call'.snapshotAt == call.snapshotAt && call'.snapshot == call.snapshot && !call'.phase.Started?
           && call'.hit == Some(call.snapshot[call.phase.i]) && call'.hitAt == s.time
         else
           && call'.snapshotAt == call.snapshotAt && call'.snapshot == call.snapshot
           && call'.hit == call.hit && call'.hitAt == call.hitAt && (call'.phase.Started? <==> call.phase.Started?)
  {}

  /** The rule that hit the call is registered in reg and matches the call. */
  ghost predicate HitRuleIn(reg: Registry, call: Call) {
    && call.hit.Some? && call.hit.value < |reg.objects|
    && Registered(reg, call.hit.value)
    && reg.objects[call.hit.value].Matches(call.service, call.operation)
  }

  /** A rule that hits was registered when the call took its snapshot, when it was counted, and at
      every instant in between; and the rule counted is the one the snapshot saw. */
  lemma HitRuleRegisteredThroughout(maxHistory: nat, es: seq<Event>, c: nat, k: nat)
    requires c < |Exec(maxHistory, es).calls|
    requires var call := Exec(maxHistory, es).calls[c];
      call.hit.Some? && call.snapshotAt <= k <= call.hitAt
    ensures var call := Exec(maxHistory, es).calls[c];
      && call.hitAt < |es| && es[call.snapshotAt] == SnapshotEvent(c) && es[call.hitAt] == CommitEvent(c)
      && HitRuleIn(Exec(maxHistory, es[..k]).reg, call)
  {
    OriginOf(maxHistory, es, c);
    var call := Exec(maxHistory, es).calls[c];
    var a, b, d := es[..call.snapshotAt], es[call.snapshotAt..k], es[k..call.hitAt];
    CutRun(es, call.snapshotAt, k, call.hitAt);
    HitRuleBetween(maxHistory, a, b, d, call);
  }

  lemma CutRun(es: seq<Event>, i: nat, k: nat, j: nat)
    requires i <= k <= j <= |es|
    ensures es[..k] == es[..i] + es[i..k]
    ensures es[..j] == es[..i] + es[i..k] + es[k..j]
  {}

  lemma HitRuleBetween(maxHistory: nat, es: seq<Event>, more: seq<Event>, evenMore: seq<Event>, call: Call)
    requires call.hit.Some?
    requires var reg := Exec(maxHistory, es).reg;
      call.hit.value in Matching(reg, reg.live, call.service, call.operation)
    requires var reg := Exec(maxHistory, es + more + evenMore).reg;
      call.hit.value < |reg.objects| && Registered(reg, call.hit.value)
    ensures HitRuleIn(Exec(maxHistory, es + more).reg, call)
  {
    SnapshottedRuleMatches(Exec(maxHistory, es).reg, call.service, call.operation, call.hit.value);
    RegisteredBetween(maxHistory, es, more, evenMore, call.hit.value);
  }

  lemma SnapshottedRuleMatches(reg: Registry, svc: string, op: string, r: Ref)
    requires Valid(reg) && r in Matching(reg, reg.live, svc, op)
    ensures r < |reg.objects| && reg.objects[r].Matches(svc, op)
  {
    SnapshotMeaning(reg, svc, op);
  }

  /** A rule seen at two instants and registered at the later one was registered in between. */
  lemma RegisteredBetween(maxHistory: nat, es: seq<Event>, more: seq<Event>, evenMore: seq<Event>, r: Ref)
    requires r < |Exec(maxHistory, es).reg.objects|
    requires r < |Exec(maxHistory, es + more + evenMore).reg.objects|
    requires Registered(Exec(maxHistory, es + more + evenMore).reg, r)
    ensures r < |Exec(maxHistory, es + more).reg.objects| && Registered(Exec(maxHistory, es + more).reg, r)
    ensures SameRule(Exec(maxHistory, es).reg.objects[r], Exec(maxHistory, es + more).reg.objects[r])
  {
    RulesGrow(maxHistory, es, more);
    if !Registered(Exec(maxHistory, es + more).reg, r) {
      RemovedForever(maxHistory, es + more, evenMore, r);
    }
  }

  lemma {:induction false} RulesGrowRun(s: State, es: seq<Event>)
    requires Wf(s)
    ensures SameRules(s.reg, RunFrom(s, es).reg)
    decreases |es|
  {
    if es != [] {
      StepKeepsRules(s, es[0]);
      RulesGrowRun(Step(s, es[0]), es[1..]);
      SameRulesTransitive(s.reg, Step(s, es[0]).reg, RunFrom(s, es).reg);
    }
  }

  /** Rules are never forgotten, and only the hit count of a rule ever changes, upwards. */
  lemma RulesGrow(maxHistory: nat, es: seq<Event>, more: seq<Event>)
    ensures SameRules(Exec(maxHistory, es).reg, Exec(maxHistory, es + more).reg)
  {
    ExecSplit(maxHistory, es, more);
    RulesGrowRun(Exec(maxHistory, es), more);
  }

  lemma SameRulesTransitive(a: Registry, b: Registry, d: Registry)
    requires SameRules(a, b) && SameRules(b, d)
    ensures SameRules(a, d)
  {
    forall r | 0 <= r < |a.objects| ensures SameRule(a.objects[r], d.objects[r]) {
      assert SameRule(a.objects[r], b.objects[r]) && SameRule(b.objects[r], d.objects[r]);
    }
  }

  /** In every reachable registry, rule i of all ever created has id `fr-{i + 1}`; the dictionary maps
      the ids of the registered ones to those very rules, lists them in creation order, and delays and
      probabilities are within their caps. */
  lemma RegistryAlwaysValid(maxHistory: nat, es: seq<Event>)
    ensures var reg := Exec(maxHistory, es).reg;
      && reg.nextId == |reg.objects| + 1
      && (forall i :: 0 <= i < |reg.objects| ==>
            reg.objects[i].id == RuleId(i + 1) && 0 <= reg.objects[i].delayMs <= MAX_DELAY_MS
            && 0.0 <= reg.objects[i].probability <= 1.0)
      && Distinct(reg.live)
      && (forall i :: 0 <= i < |reg.live| ==>
            reg.live[i].value < |reg.objects| && reg.live[i].key == reg.objects[reg.live[i].value].id)
      && (forall i, j :: 0 <= i < j < |reg.live| ==> reg.live[i].value < reg.live[j].value)
  {
    var reg := Exec(maxHistory, es).reg;
    LiveKeysDistinct(reg);
    forall i | 0 <= i < |reg.objects| ensures RuleValid(reg.objects[i], i) {}
    forall i | 0 <= i < |reg.live| ensures LiveEntryValid(reg.live[i], |reg.objects|) {}
  }
}
