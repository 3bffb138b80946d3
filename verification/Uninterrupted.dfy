/** A call that no other thread interrupts is one schedule of the concurrent pipeline, and does there
    what the sequential service object does. */
module Uninterrupted {
  import opened Wrappers
  import opened Errors
  import opened Text
  import opened Registry
  import opened RuleSearch
  import opened Pipeline
  import Rec = Recording

  /** The rolls of `apply` up to and including the first that fires. */
  function RollEvents(c: nat, reg: Registry, refs: seq<Ref>, rolls: Rolls, from: nat): seq<Event>
    requires from <= |refs| && forall i :: 0 <= i < |refs| ==> refs[i] < |reg.objects|
    decreases |refs| - from
  {
    if from == |refs| then []
    else
      [RollEvent(c, rolls(RollsBefore(reg, refs, from)))]
      + if FiresAt(reg, refs, rolls, from) then [] else RollEvents(c, reg, refs, rolls, from + 1)
  }

  /** The events of one call c from its snapshot to the end of `apply`. */
  function ApplyEvents(c: nat, reg: Registry, svc: string, op: string, rolls: Rolls): seq<Event>
    requires forall i :: 0 <= i < |reg.live| ==> reg.live[i].value < |reg.objects|
  {
    var refs := Matching(reg, reg.live, svc, op);
    [SnapshotEvent(c)] + RollEvents(c, reg, refs, rolls, 0)
    + if FirstFiring(reg, refs, rolls, 0) == |refs| then [] else [CommitEvent(c), WakeEvent(c)]
  }

  /** What follows `apply`: the real call unless a failure was injected, then the record. */
  function CallEvents(c: nat, raised: bool, fn: FnOutcome, durationMs: real, timestamp: real): seq<Event> {
    if raised then [AppendEvent(c, durationMs, timestamp)]
    else [RunEvent(c, fn)] + if fn.RaisedOther? then [] else [AppendEvent(c, durationMs, timestamp)]
  }

  lemma {:induction false} RunSplit(s: State, es: seq<Event>, more: seq<Event>)
    requires Wf(s)
    ensures RunFrom(s, es + more) == RunFrom(RunFrom(s, es), more)
    decreases |es|
  {
    if es == [] {
      assert es + more == more;
    } else {
      assert (es + more)[0] == es[0] && (es + more)[1..] == es[1..] + more;
      RunSplit(Step(s, es[0]), es[1..], more);
    }
  }

  lemma RunOne(s: State, e: Event)
    requires Wf(s)
    ensures RunFrom(s, [e]) == Step(s, e)
  {
    assert [e][1..] == [];
  }

  /** s' is s with call c and the registry advanced. */
  ghost predicate Advanced(s: State, s': State, c: nat, call: Call, reg: Registry)
    requires c < |s.calls|
  {
    s' == s.(calls := s.calls[c := call], reg := reg, time := s'.time)
  }

  lemma AdvancedTwice(s: State, s1: State, s2: State, c: nat, call1: Call, call2: Call, reg1: Registry, reg2: Registry)
    requires c < |s.calls| && Advanced(s, s1, c, call1, reg1) && Advanced(s1, s2, c, call2, reg2)
    ensures Advanced(s, s2, c, call2, reg2)
  {
    assert s.calls[c := call1][c := call2] == s.calls[c := call2];
  }

  lemma RollStep(s: State, c: nat, i: nat, roll: real)
    requires Wf(s) && c < |s.calls| && s.calls[c].phase == Trying(i) && i < |s.calls[c].snapshot|
    requires s.calls[c].snapshot[i] < |s.reg.objects|
    ensures Advanced(s, Step(s, RollEvent(c, roll)), c,
                     Rolled(s.calls[c], i, s.reg.objects[s.calls[c].snapshot[i]], roll), s.reg)
  {}

  lemma NoEvents(s: State, c: nat)
    requires Wf(s) && c < |s.calls|
    ensures Advanced(s, RunFrom(s, []), c, s.calls[c], s.reg)
  {
    assert s.calls[c := s.calls[c]] == s.calls;
  }

  ghost predicate AtRule(s: State, c: nat, from: nat) {
    && Wf(s) && c < |s.calls| && from <= |s.calls[c].snapshot|
    && (forall i :: 0 <= i < |s.calls[c].snapshot| ==> s.calls[c].snapshot[i] < |s.reg.objects|)
    && s.calls[c].phase == Next(s.calls[c].snapshot, from)
  }

  lemma OnePlus(s: State, e: Event, es: seq<Event>)
    requires Wf(s)
    ensures RunFrom(s, [e] + es) == RunFrom(Step(s, e), es)
  {
    assert ([e] + es)[1..] == es;
  }

  lemma ThenMore(s: State, e: Event, es: seq<Event>, c: nat, call1: Call, call2: Call, reg1: Registry, reg2: Registry)
    requires Wf(s) && c < |s.calls| && Advanced(s, Step(s, e), c, call1, reg1)
    requires Advanced(Step(s, e), RunFrom(Step(s, e), es), c, call2, reg2)
    ensures Advanced(s, RunFrom(s, [e] + es), c, call2, reg2)
  {
    OnePlus(s, e, es);
    AdvancedTwice(s, Step(s, e), RunFrom(Step(s, e), es), c, call1, call2, reg1, reg2);
  }

  /** The phase the rolls lead to: the first rule that fires, or past the last one. */
  function AfterRolls(reg: Registry, refs: seq<Ref>, rolls: Rolls, from: nat): Phase
    requires from <= |refs| && forall i :: 0 <= i < |refs| ==> refs[i] < |reg.objects|
  {
    var k := FirstFiring(reg, refs, rolls, from);
    if k == |refs| then Ready else Committing(k)
  }

  lemma {:induction false} RollsRun(s: State, c: nat, rolls: Rolls, from: nat)
    requires AtRule(s, c, from)
    ensures var refs := s.calls[c].snapshot;
      Advanced(s, RunFrom(s, RollEvents(c, s.reg, refs, rolls, from)), c,
               s.calls[c].(phase := AfterRolls(s.reg, refs, rolls, from)), s.reg)
    decreases |s.calls[c].snapshot| - from
  {
    var refs := s.calls[c].snapshot;
    if from == |refs| {
      NoEvents(s, c);
    } else {
      var e := RollEvent(c, rolls(RollsBefore(s.reg, refs, from)));
      RollStep(s, c, from, e.roll);
      if FiresAt(s.reg, refs, rolls, from) {
        RunOne(s, e);
        assert RollEvents(c, s.reg, refs, rolls, from) == [e];
      } else {
        RollPassed(s, c, rolls, from, e);
      }
    }
  }

  lemma {:induction false} RollPassed(s: State, c: nat, rolls: Rolls, from: nat, e: Event)
    requires AtRule(s, c, from) && from < |s.calls[c].snapshot| && !FiresAt(s.reg, s.calls[c].snapshot, rolls, from)
    requires e == RollEvent(c, rolls(RollsBefore(s.reg, s.calls[c].snapshot, from)))
    requires Advanced(s, Step(s, e), c, s.calls[c].(phase := Next(s.calls[c].snapshot, from + 1)), s.reg)
    ensures var refs := s.calls[c].snapshot;
      Advanced(s, RunFrom(s, RollEvents(c, s.reg, refs, rolls, from)), c,
               s.calls[c].(phase := AfterRolls(s.reg, refs, rolls, from)), s.reg)
    decreases |s.calls[c].snapshot| - from, 0
  {
    var refs, reg := s.calls[c].snapshot, s.reg;
    var call1 := s.calls[c].(phase := Next(refs, from + 1));
    RollsRun(Step(s, e), c, rolls, from + 1);
    ThenMore(s, e, RollEvents(c, reg, refs, rolls, from + 1), c, call1,
             call1.(phase := AfterRolls(reg, refs, rolls, from + 1)), reg, reg);
  }

  lemma SnapshotStep(s: State, c: nat)
    requires Wf(s) && c < |s.calls| && s.calls[c].phase.Started?
    ensures Advanced(s, Step(s, SnapshotEvent(c)), c, Snapshotted(s.calls[c], s.reg, s.time), s.reg)
    ensures AtRule(Step(s, SnapshotEvent(c)), c, 0)
  {
    SnapshotMeaning(s.reg, s.calls[c].service, s.calls[c].operation);
    assert CallWf(Step(s, SnapshotEvent(c)).calls[c], |s.reg.objects|);
  }

  /** A rule still registered is counted, its delay passes, and it fails the call or lets it go on. */
  lemma CommitAndWake(s: State, c: nat, i: nat)
    requires Wf(s) && c < |s.calls| && s.calls[c].phase == Committing(i) && i < |s.calls[c].snapshot|
    requires Registered(s.reg, s.calls[c].snapshot[i])
    ensures var call, r := s.calls[c], s.calls[c].snapshot[i]; var rule := s.reg.objects[r];
      Advanced(s, RunFrom(s, [CommitEvent(c), WakeEvent(c)]), c,
        call.(hit := Some(r), hitAt := s.time, sleptMs := call.sleptMs + rule.delayMs,
              phase := if rule.failure == LATENCY then Ready else Ending(Failure(InjectedError(rule.failure)))),
        Commit(s.reg, r))
  {
    var r := s.calls[c].snapshot[i];
    var s1 := Step(s, CommitEvent(c));
    assert [CommitEvent(c), WakeEvent(c)] == [CommitEvent(c)] + [WakeEvent(c)];
    OnePlus(s, CommitEvent(c), [WakeEvent(c)]);
    RunOne(s1, WakeEvent(c));
    CommitStep(s, c, i);
    WakeStep(s1, c, r);
    var s2 := Step(s1, WakeEvent(c));
    AdvancedTwice(s, s1, s2, c, s1.calls[c], s2.calls[c], s1.reg, s1.reg);
  }

  lemma CommitStep(s: State, c: nat, i: nat)
    requires Wf(s) && c < |s.calls| && s.calls[c].phase == Committing(i) && i < |s.calls[c].snapshot|
    requires Registered(s.reg, s.calls[c].snapshot[i])
    ensures var r := s.calls[c].snapshot[i];
      Advanced(s, Step(s, CommitEvent(c)), c,
               s.calls[c].(phase := Sleeping(r), hit := Some(r), hitAt := s.time), Commit(s.reg, r))
  {}

  lemma WakeStep(s: State, c: nat, r: Ref)
    requires Wf(s) && c < |s.calls| && s.calls[c].phase == Sleeping(r) && r < |s.reg.objects|
    ensures Advanced(s, Step(s, WakeEvent(c)), c, Woken(s.calls[c], s.reg.objects[r]), s.reg)
  {}

  /** The call as `apply` leaves it. */
  function AfterApply(call: Call, a: Applied, refs: seq<Ref>, snapshotAt: nat, hitAt: nat): Call {
    call.(snapshot := refs, snapshotAt := snapshotAt, hit := a.fired, hitAt := hitAt, sleptMs := a.sleptMs,
          phase := if a.raised.Some? then Ending(Failure(a.raised.value)) else Ready)
  }

  /** The snapshot and the rolls of an uninterrupted `apply`. */
  lemma SearchRuns(s: State, c: nat, rolls: Rolls)
    requires Wf(s) && c < |s.calls| && s.calls[c].phase.Started?
    ensures var call := s.calls[c]; var refs := Matching(s.reg, s.reg.live, call.service, call.operation);
      Advanced(s, RunFrom(s, [SnapshotEvent(c)] + RollEvents(c, s.reg, refs, rolls, 0)), c,
               call.(snapshot := refs, snapshotAt := s.time, phase := AfterRolls(s.reg, refs, rolls, 0)), s.reg)
  {
    var call, reg := s.calls[c], s.reg;
    var refs := Matching(reg, reg.live, call.service, call.operation);
    SnapshotStep(s, c);
    var s1 := Step(s, SnapshotEvent(c));
    RollsRun(s1, c, rolls, 0);
    ThenMore(s, SnapshotEvent(c), RollEvents(c, reg, refs, rolls, 0), c, s1.calls[c],
             s1.calls[c].(phase := AfterRolls(reg, refs, rolls, 0)), reg, reg);
  }

  lemma RegisteredAt(reg: Registry, svc: string, op: string, k: nat)
    requires Valid(reg) && k < |Matching(reg, reg.live, svc, op)|
    ensures Registered(reg, Matching(reg, reg.live, svc, op)[k])
  {
    SnapshotRegistered(reg, svc, op);
  }

  /** `apply` in one piece is the declarative search. */
  lemma ApplyRuns(s: State, c: nat, rolls: Rolls) returns (hitAt: nat)
    requires Wf(s) && c < |s.calls| && s.calls[c].phase.Started? && s.calls[c].hit == None && s.calls[c].sleptMs == 0
    ensures var call := s.calls[c]; var a := ApplySpec(s.reg, call.service, call.operation, rolls);
      var refs := Matching(s.reg, s.reg.live, call.service, call.operation);
      Advanced(s, RunFrom(s, ApplyEvents(c, s.reg, call.service, call.operation, rolls)), c,
               AfterApply(call, a, refs, s.time, hitAt), a.reg)
  {
    var call, reg := s.calls[c], s.reg;
    var refs := Matching(reg, reg.live, call.service, call.operation);
    var k := FirstFiring(reg, refs, rolls, 0);
    var es := [SnapshotEvent(c)] + RollEvents(c, reg, refs, rolls, 0);
    SearchRuns(s, c, rolls);
    var s2 := RunFrom(s, es);
    if k == |refs| {
      assert es + [] == es;
      hitAt := call.hitAt;
    } else {
      RegisteredAt(reg, call.service, call.operation, k);
      CommitAndWake(s2, c, k);
      RunSplit(s, es, [CommitEvent(c), WakeEvent(c)]);
      hitAt := s2.time;
      AdvancedTwice(s, s2, RunFrom(s2, [CommitEvent(c), WakeEvent(c)]), c, s2.calls[c],
        AfterApply(call, ApplySpec(reg, call.service, call.operation, rolls), refs, s.time, hitAt), reg, Commit(reg,
            refs[k]));
    }
  }

  /** Every event of one call that nothing interrupts. */
  ghost function CallSchedule(s: State, svc: string, op: string, provider: string, resource: Option<Str>,
    requestId: Option<string>, rolls: Rolls, fn: FnOutcome, durationMs: real, timestamp: real): seq<Event>
    requires Wf(s)
  {
    var c := |s.calls|;
    [StartEvent(svc, op, provider, resource, requestId)] + ApplyEvents(c, s.reg, svc, op, rolls)
    + CallEvents(c, ApplySpec(s.reg, svc, op, rolls).raised.Some?, fn, durationMs, timestamp)
  }

  lemma AppendStep(s: State, c: nat, end: End, durationMs: real, timestamp: real)
    requires Wf(s) && c < |s.calls| && s.calls[c].phase == Ending(end)
    ensures var call, s' := s.calls[c], Step(s, AppendEvent(c, durationMs, timestamp));
      && s'.reg == s.reg && s'.effects == s.effects && s'.calls == s.calls[c := call.(phase := Done(end))]
      && s'.rec == Rec.Record(s.rec, ReportOf(call, end, durationMs), timestamp)
  {}

  lemma RunStep(s: State, c: nat, fn: FnOutcome)
    requires Wf(s) && c < |s.calls| && s.calls[c].phase == Ready
    ensures var s' := Step(s, RunEvent(c, fn));
      && s'.reg == s.reg && s'.effects == s.effects + [Effect(c, fn)] && s'.rec == s.rec
      && s'.calls == s.calls[c := Ran(s.calls[c], fn)]
  {}

  /** What is left of a call after `apply`. */
  lemma CallEnds(s: State, c: nat, raised: Option<AppError>, fn: FnOutcome, durationMs: real, timestamp: real)
    requires Wf(s) && c < |s.calls| && !s.calls[c].ranFn
    requires s.calls[c].phase == if raised.Some? then Ending(Failure(raised.value)) else Ready
    ensures var call, s' := s.calls[c], RunFrom(s, CallEvents(c, raised.Some?, fn, durationMs, timestamp));
      var end := if raised.Some? then Failure(raised.value) else EndOf(fn);
      && s'.reg == s.reg
      && s'.calls == s.calls[c := call.(phase := Done(end), ranFn := raised == None)]
      && s'.effects == (if raised.Some? then s.effects else s.effects + [Effect(c, fn)])
      && s'.rec == (if end == Unlisted then s.rec else Rec.Record(s.rec, ReportOf(call, end, durationMs), timestamp))
  {
    if raised.Some? {
      RunOne(s, AppendEvent(c, durationMs, timestamp));
      AppendStep(s, c, Failure(raised.value), durationMs, timestamp);
    } else {
      RunStep(s, c, fn);
      var s1 := Step(s, RunEvent(c, fn));
      if fn.RaisedOther? {
        RunOne(s, RunEvent(c, fn));
        assert [RunEvent(c, fn)] + [] == [RunEvent(c, fn)];
      } else {
        OnePlus(s, RunEvent(c, fn), [AppendEvent(c, durationMs, timestamp)]);
        RunOne(s1, AppendEvent(c, durationMs, timestamp));
        AppendStep(s1, c, EndOf(fn), durationMs, timestamp);
      }
    }
  }

  lemma StartStep(s: State, svc: string, op: string, provider: string, resource: Option<Str>, requestId: Option<string>)
    requires Wf(s)
    ensures var s' := Step(s, StartEvent(svc, op, provider, resource, requestId));
      && s'.reg == s.reg && s'.rec == s.rec && s'.effects == s.effects
      && s'.calls == s.calls + [NewCall(svc, op, provider, resource, requestId)]
  {}

  lemma LastReplaced<T>(before: seq<T>, x: T, y: T, z: T)
    ensures var r := (before + [x])[|before| := y][|before| := z];
      |r| == |before| + 1 && r[..|before|] == before && r[|before|] == z
  {}

  lemma SameReport(call: Call, a: Applied, refs: seq<Ref>, snapshotAt: nat, hitAt: nat, end: End, durationMs: real)
    ensures ReportOf(AfterApply(call, a, refs, snapshotAt, hitAt), end, durationMs) == ReportOf(call, end, durationMs)
  {}

  /** An uninterrupted call leaves registry, recorder, provider and its own end exactly as the
      sequential service object leaves them. */
  lemma UninterruptedCall(s: State, svc: string, op: string, provider: string, resource: Option<Str>,
    requestId: Option<string>, rolls: Rolls, fn: FnOutcome, durationMs: real, timestamp: real)
    requires Wf(s)
    ensures var a := ApplySpec(s.reg, svc, op, rolls);
      var end := if a.raised.Some? then Failure(a.raised.value) else EndOf(fn);
      var s' := RunFrom(s, CallSchedule(s, svc, op, provider, resource, requestId, rolls, fn, durationMs, timestamp));
      && s'.reg == a.reg
      && |s'.calls| == |s.calls| + 1 && s'.calls[..|s.calls|] == s.calls
      && s'.calls[|s.calls|].phase == Done(end)
      && s'.calls[|s.calls|].ranFn == (a.raised == None) && s'.calls[|s.calls|].sleptMs == a.sleptMs
      && s'.effects == (if a.raised.Some? then s.effects else s.effects + [Effect(|s.calls|, fn)])
      && s'.rec == (if end == Unlisted then s.rec
                    else Rec.Record(s.rec, ReportOf(NewCall(svc, op, provider, resource, requestId), end, durationMs),
                        timestamp))
  {
    var c, call, a := |s.calls|, NewCall(svc, op, provider, resource, requestId), ApplySpec(s.reg, svc, op, rolls);
    var refs := Matching(s.reg, s.reg.live, svc, op);
    var start := StartEvent(svc, op, provider, resource, requestId);
    var applyEs, endEs := ApplyEvents(c, s.reg, svc, op, rolls), CallEvents(c, a.raised.Some?, fn, durationMs,
        timestamp);
    var end := if a.raised.Some? then Failure(a.raised.value) else EndOf(fn);
    StartStep(s, svc, op, provider, resource, requestId);
    var s1 := Step(s, start);
    var hitAt := ApplyRuns(s1, c, rolls);
    var call2 := AfterApply(call, a, refs, s1.time, hitAt);
    var s2 := RunFrom(s1, applyEs);
    OnePlus(s, start, applyEs);
    RunSplit(s, [start] + applyEs, endEs);
    CallEnds(s2, c, a.raised, fn, durationMs, timestamp);
    SameReport(call, a, refs, s1.time, hitAt, end, durationMs);
    LastReplaced(s.calls, call, call2, call2.(phase := Done(end), ranFn := a.raised == None));
  }
}
