/** What every reachable state of the pipeline satisfies: hits, records and real calls add up. */
module Accounting {
  import opened Wrappers
  import opened Errors
  import opened Registry
  import opened Pipeline
  import Rec = Recording

  // ---- counting ----

  function CountHits(calls: seq<Call>, r: Ref): nat {
    if calls == [] then 0
    else CountHits(calls[..|calls| - 1], r) + (if calls[|calls| - 1].hit == Some(r) then 1 else 0)
  }

  datatype Class = InFlight | Recorded | Escaped

  /** Where a call stands: unfinished, finished with its record written, or ended by an exception
      `_call` does not record. */
  function Classify(call: Call): Class {
    match call.phase
    case Done(Unlisted) => Escaped
    case Done(_) => Recorded
    case _ => InFlight
  }

  function CountClass(calls: seq<Call>, k: Class): nat {
    if calls == [] then 0
    else CountClass(calls[..|calls| - 1], k) + (if Classify(calls[|calls| - 1]) == k then 1 else 0)
  }

  function CountAppends(appends: seq<Append>, c: nat): nat {
    if appends == [] then 0
    else CountAppends(appends[..|appends| - 1], c) + (if appends[|appends| - 1].call == c then 1 else 0)
  }

  function CountEffects(effects: seq<Effect>, c: nat): nat {
    if effects == [] then 0
    else CountEffects(effects[..|effects| - 1], c) + (if effects[|effects| - 1].call == c then 1 else 0)
  }

  lemma {:induction false} CountHitsUpdate(calls: seq<Call>, c: nat, call: Call, r: Ref)
    requires c < |calls|
    ensures CountHits(calls[c := call], r) + (if calls[c].hit == Some(r) then 1 else 0)
         == CountHits(calls, r) + (if call.hit == Some(r) then 1 else 0)
  {
    var n := |calls| - 1;
    if c == n {
      assert calls[c := call][..n] == calls[..n];
    } else {
      assert calls[c := call][..n] == calls[..n][c := call];
      CountHitsUpdate(calls[..n], c, call, r);
    }
  }

  lemma {:induction false} CountClassUpdate(calls: seq<Call>, c: nat, call: Call, k: Class)
    requires c < |calls|
    ensures CountClass(calls[c := call], k) + (if Classify(calls[c]) == k then 1 else 0)
         == CountClass(calls, k) + (if Classify(call) == k then 1 else 0)
  {
    var n := |calls| - 1;
    if c == n {
      assert calls[c := call][..n] == calls[..n];
    } else {
      assert calls[c := call][..n] == calls[..n][c := call];
      CountClassUpdate(calls[..n], c, call, k);
    }
  }

  /** Every call is in exactly one class. */
  lemma {:induction false} ClassesPartition(calls: seq<Call>)
    ensures |calls| == CountClass(calls, InFlight) + CountClass(calls, Recorded) + CountClass(calls, Escaped)
  {
    if calls != [] {
      ClassesPartition(calls[..|calls| - 1]);
    }
  }

  // ---- the invariant of one call ----

  /** The call was hit by a rule that fails it. */
  predicate Injected(call: Call, reg: Registry) {
    call.hit.Some? && call.hit.value < |reg.objects| && reg.objects[call.hit.value].failure != LATENCY
  }

  predicate Finished(call: Call) {
    call.phase.Ending? || call.phase.Done?
  }

  ghost predicate CallInv(call: Call, reg: Registry) {
    && (call.phase.Started? || call.phase.Trying? || call.phase.Committing? ==> call.hit == None)
    && (call.phase.Sleeping? ==> call.hit == Some(call.phase.rule))
    && (call.hit.Some? ==> HitInv(call, reg, call.hit.value))
    && (call.hit == None ==> call.sleptMs == 0)
    && (call.ranFn ==> Finished(call) && !Injected(call, reg))
    && (Finished(call) && !call.ranFn ==> Injected(call, reg))
    && call.phase != Ending(Unlisted)
  }

  ghost predicate HitInv(call: Call, reg: Registry, r: Ref) {
    && r < |reg.objects|
    && call.sleptMs == (if call.phase.Sleeping? then 0 else reg.objects[r].delayMs)
    && (reg.objects[r].failure != LATENCY ==>
          var e := Failure(InjectedError(reg.objects[r].failure));
          call.phase == Sleeping(r) || call.phase == Ending(e) || call.phase == Done(e))
  }

  /** Rules may be added, hit and unregistered, but no other field of a rule ever changes. */
  ghost predicate SameRules(reg: Registry, reg': Registry) {
    && |reg.objects| <= |reg'.objects|
    && forall r :: 0 <= r < |reg.objects| ==> SameRule(reg.objects[r], reg'.objects[r])
  }

  predicate SameRule(a: Rule, b: Rule) {
    b == a.(hitCount := b.hitCount) && a.hitCount <= b.hitCount
  }

  lemma CallInvStable(call: Call, reg: Registry, reg': Registry)
    requires CallInv(call, reg) && SameRules(reg, reg')
    ensures CallInv(call, reg')
  {
    if call.hit.Some? { assert SameRule(reg.objects[call.hit.value], reg'.objects[call.hit.value]); }
  }

  lemma StepKeepsRules(s: State, e: Event)
    requires Wf(s)
    ensures SameRules(s.reg, Step(s, e).reg)
  {}

  ghost predicate CallsInv(calls: seq<Call>, reg: Registry) {
    forall c :: 0 <= c < |calls| ==> CallInv(calls[c], reg)
  }

  lemma StepKeepsCalls(s: State, e: Event)
    requires Wf(s) && CallsInv(s.calls, s.reg)
    ensures CallsInv(Step(s, e).calls, Step(s, e).reg)
  {
    var s' := Step(s, e);
    StepKeepsRules(s, e);
    forall c | 0 <= c < |s.calls| ensures CallInv(s.calls[c], s'.reg) {
      CallInvStable(s.calls[c], s.reg, s'.reg);
    }
    if CallEvent(e) && e.call < |s.calls| {
      CallStepFrame(s, e.call, e);
      CallStepKeepsInv(s, e.call, e);
    }
  }

  lemma CallStepKeepsInv(s: State, c: nat, e: Event)
    requires Wf(s) && c < |s.calls| && CallInv(s.calls[c], s.reg)
    ensures CallInv(CallStep(s, c, e).calls[c], CallStep(s, c, e).reg)
  {}

  // ---- the invariant of the whole state ----

  ghost predicate HitsInv(reg: Registry, calls: seq<Call>) {
    forall r :: 0 <= r < |reg.objects| ==> reg.objects[r].hitCount == CountHits(calls, r)
  }

  ghost predicate AppendsInv(nextId: nat, calls: seq<Call>, appends: seq<Append>) {
    && nextId == |appends| + 1
    && |appends| == CountClass(calls, Recorded)
    && (forall c :: 0 <= c < |calls| ==>
          CountAppends(appends, c) == if Classify(calls[c]) == Recorded then 1 else 0)
    && (forall i :: 0 <= i < |appends| ==> AppendInv(calls, appends[i], i))
  }

  ghost predicate AppendInv(calls: seq<Call>, a: Append, i: nat) {
    && a.record.id == i + 1
    && a.call < |calls|
    && Describes(a.record, calls[a.call])
  }

  /** The record tells how its call ended: status "error" iff it raised, with the raised error's code
      and retryable flag. */
  predicate Describes(record: Rec.OperationRecord, call: Call) {
    && record.service == call.service && record.operation == call.operation && record.provider == call.provider
    && record.resource == call.resource && record.requestId == call.requestId
    && match call.phase
       case Done(Success) => record.status == "success" && record.error == None && record.retryable == None
       case Done(Failure(e)) =>
         record.status == "error" && record.error == Some(e.code) && record.retryable == Some(e.retryable)
       case _ => false
  }

  ghost predicate LogInv(rec: Rec.Recorder, log: seq<Rec.OperationRecord>, appends: seq<Append>) {
    Rec.Refines(rec, log) && Tail(log, appends)
  }

  /** The log since the last clear is the tail of everything ever recorded. */
  ghost predicate Tail(log: seq<Rec.OperationRecord>, appends: seq<Append>) {
    && |log| <= |appends|
    && forall i :: 0 <= i < |log| ==> log[i] == appends[|appends| - |log| + i].record
  }

  ghost predicate EffectsInv(calls: seq<Call>, effects: seq<Effect>) {
    && (forall c :: 0 <= c < |calls| ==> CountEffects(effects, c) == if calls[c].ranFn then 1 else 0)
    && (forall i :: 0 <= i < |effects| ==> effects[i].call < |calls|)
  }

  ghost predicate Inv(s: State) {
    && Wf(s)
    && CallsInv(s.calls, s.reg)
    && HitsInv(s.reg, s.calls)
    && AppendsInv(s.rec.nextId, s.calls, s.appends)
    && LogInv(s.rec, s.log, s.appends)
    && EffectsInv(s.calls, s.effects)
  }

  // ---- every step keeps it ----

  lemma StepKeepsHits(s: State, e: Event)
    requires Wf(s) && CallsInv(s.calls, s.reg) && HitsInv(s.reg, s.calls)
    ensures HitsInv(Step(s, e).reg, Step(s, e).calls)
  {
    if CallEvent(e) {
      if e.call < |s.calls| { CallStepKeepsHits(s, e.call, e); }
    } else {
      AdminKeepsHits(s, e);
    }
  }

  lemma AdminKeepsHits(s: State, e: Event)
    requires Wf(s) && CallsInv(s.calls, s.reg) && HitsInv(s.reg, s.calls) && !CallEvent(e)
    ensures HitsInv(Act(s, e).reg, Act(s, e).calls)
  {
    var s' := Act(s, e);
    if e.StartEvent? {
      assert s'.calls[..|s'.calls| - 1] == s.calls;
    }
    if e.AddRuleEvent? {
      NoHitsYet(s.calls, s.reg, |s.reg.objects|);
    }
  }

  /** No call was hit by a rule that is not created yet. */
  lemma {:induction false} NoHitsYet(calls: seq<Call>, reg: Registry, r: Ref)
    requires forall c :: 0 <= c < |calls| ==> CallInv(calls[c], reg)
    requires r >= |reg.objects|
    ensures CountHits(calls, r) == 0
  {
    if calls != [] {
      NoHitsYet(calls[..|calls| - 1], reg, r);
      assert CallInv(calls[|calls| - 1], reg);
    }
  }

  lemma CallStepKeepsHits(s: State, c: nat, e: Event)
    requires Wf(s) && CallsInv(s.calls, s.reg) && HitsInv(s.reg, s.calls) && c < |s.calls|
    ensures HitsInv(CallStep(s, c, e).reg, CallStep(s, c, e).calls)
  {
    var s' := CallStep(s, c, e);
    CallStepFrame(s, c, e);
    assert CallInv(s.calls[c], s.reg);
    forall r | 0 <= r < |s'.reg.objects| ensures s'.reg.objects[r].hitCount == CountHits(s'.calls, r) {
      CountHitsUpdate(s.calls, c, s'.calls[c], r);
    }
  }

  lemma StepKeepsAppends(s: State, e: Event)
    requires Wf(s) && CallsInv(s.calls, s.reg) && AppendsInv(s.rec.nextId, s.calls, s.appends)
    ensures AppendsInv(Step(s, e).rec.nextId, Step(s, e).calls, Step(s, e).appends)
  {
    if CallEvent(e) {
      if e.call < |s.calls| { CallStepKeepsAppends(s, e); }
    } else if e.StartEvent? {
      StartKeepsAppends(s, e);
    }
  }

  lemma StartKeepsAppends(s: State, e: Event)
    requires Wf(s) && AppendsInv(s.rec.nextId, s.calls, s.appends) && e.StartEvent?
    ensures AppendsInv(Act(s, e).rec.nextId, Act(s, e).calls, Act(s, e).appends)
  {
    var s' := Act(s, e);
    assert s'.calls[..|s'.calls| - 1] == s.calls;
    NoAppendsYet(s, s.appends, |s.calls|);
    forall i | 0 <= i < |s'.appends| ensures AppendInv(s'.calls, s'.appends[i], i) {
      assert AppendInv(s.calls, s.appends[i], i);
    }
  }

  lemma {:induction false} NoAppendsYet(s: State, appends: seq<Append>, c: nat)
    requires forall i :: 0 <= i < |appends| ==> appends[i].call < |s.calls|
    requires c >= |s.calls|
    ensures CountAppends(appends, c) == 0
  {
    if appends != [] {
      NoAppendsYet(s, appends[..|appends| - 1], c);
    }
  }

  /** Only the last step of a call writes a record, and only a clear drops any. */
  lemma RecorderFrame(s: State, e: Event)
    requires Wf(s)
    ensures var s' := Act(s, e);
      e.ClearRecorderEvent? || Writes(s, e) || (s'.rec == s.rec && s'.log == s.log && s'.appends == s.appends)
  {}

  predicate Writes(s: State, e: Event) {
    e.AppendEvent? && e.call < |s.calls| && s.calls[e.call].phase.Ending?
  }

  lemma CallStepKeepsAppends(s: State, e: Event)
    requires Wf(s) && AppendsInv(s.rec.nextId, s.calls, s.appends)
    requires CallEvent(e) && e.call < |s.calls| && CallInv(s.calls[e.call], s.reg)
    ensures AppendsInv(Act(s, e).rec.nextId, Act(s, e).calls, Act(s, e).appends)
  {
    if Writes(s, e) {
      AppendKeepsAppends(s, e.call, e);
    } else {
      RecorderFrame(s, e);
      CallStepFrame(s, e.call, e);
      CallStepWritesNothing(s, e.call, e);
      OtherStepKeepsAppends(s.rec.nextId, s.calls, s.appends, e.call, Act(s, e).calls[e.call]);
    }
  }

  lemma CallStepWritesNothing(s: State, c: nat, e: Event)
    requires Wf(s) && c < |s.calls| && !(e.AppendEvent? && s.calls[c].phase.Ending?)
    ensures var call' := CallStep(s, c, e).calls[c];
      s.calls[c] == call' || (!s.calls[c].phase.Done? && (call'.phase.Done? ==> call'.phase == Done(Unlisted)))
  {}

  lemma OtherStepKeepsAppends(nextId: nat, calls: seq<Call>, appends: seq<Append>, c: nat, call': Call)
    requires AppendsInv(nextId, calls, appends) && c < |calls|
    requires calls[c] == call' || (!calls[c].phase.Done? && (call'.phase.Done? ==> call'.phase == Done(Unlisted)))
    ensures AppendsInv(nextId, calls[c := call'], appends)
  {
    CountClassUpdate(calls, c, call', Recorded);
    forall i | 0 <= i < |appends| ensures AppendInv(calls[c := call'], appends[i], i) {
      assert AppendInv(calls, appends[i], i);
    }
  }

  lemma AppendKeepsAppends(s: State, c: nat, e: Event)
    requires Wf(s) && AppendsInv(s.rec.nextId, s.calls, s.appends) && c < |s.calls|
    requires s.calls[c].phase.Ending? && s.calls[c].phase.end != Unlisted && e.AppendEvent?
    ensures AppendsInv(CallStep(s, c, e).rec.nextId, CallStep(s, c, e).calls, CallStep(s, c, e).appends)
  {
    var s', end := CallStep(s, c, e), s.calls[c].phase.end;
    var call' := s.calls[c].(phase := Done(end));
    assert s'.calls == s.calls[c := call'];
    CountClassUpdate(s.calls, c, call', Recorded);
    assert s'.appends[..|s'.appends| - 1] == s.appends;
    forall i | 0 <= i < |s'.appends| ensures AppendInv(s'.calls, s'.appends[i], i) {
      if i < |s.appends| {
        assert AppendInv(s.calls, s.appends[i], i);
      } else {
        RecordDescribes(s.calls[c], end, s.rec.nextId, e.durationMs, e.timestamp);
      }
    }
  }

  lemma RecordDescribes(call: Call, end: End, id: nat, durationMs: real, timestamp: real)
    requires end != Unlisted
    ensures Describes(Rec.MakeRecord(id, ReportOf(call, end, durationMs), timestamp), call.(phase := Done(end)))
  {}

  lemma StepKeepsLog(s: State, e: Event)
    requires Wf(s) && LogInv(s.rec, s.log, s.appends)
    ensures LogInv(Step(s, e).rec, Step(s, e).log, Step(s, e).appends)
  {
    RecorderFrame(s, e);
    if e.ClearRecorderEvent? {
      Rec.ClearRefines(s.rec, s.log);
    } else if Writes(s, e) {
      AppendKeepsLog(s, e.call, e);
    }
  }

  lemma AppendKeepsLog(s: State, c: nat, e: Event)
    requires Wf(s) && LogInv(s.rec, s.log, s.appends) && c < |s.calls| && s.calls[c].phase.Ending? && e.AppendEvent?
    ensures LogInv(CallStep(s, c, e).rec, CallStep(s, c, e).log, CallStep(s, c, e).appends)
  {
    var report := ReportOf(s.calls[c], s.calls[c].phase.end, e.durationMs);
    var record := Rec.MakeRecord(s.rec.nextId, report, e.timestamp);
    Rec.RecordRefines(s.rec, s.log, report, e.timestamp);
    TailGrows(s.log, s.appends, Append(c, record));
  }

  lemma TailGrows(log: seq<Rec.OperationRecord>, appends: seq<Append>, a: Append)
    requires Tail(log, appends)
    ensures Tail(log + [a.record], appends + [a])
  {}

  lemma StepKeepsEffects(s: State, e: Event)
    requires Wf(s) && CallsInv(s.calls, s.reg) && EffectsInv(s.calls, s.effects)
    ensures EffectsInv(Step(s, e).calls, Step(s, e).effects)
  {
    if CallEvent(e) {
      if e.call < |s.calls| { CallStepKeepsEffects(s, e.call, e); }
    } else if e.StartEvent? {
      NoEffectsYet(s, s.effects, |s.calls|);
    }
  }

  lemma CallStepKeepsEffects(s: State, c: nat, e: Event)
    requires Wf(s) && EffectsInv(s.calls, s.effects) && c < |s.calls| && CallInv(s.calls[c], s.reg)
    ensures EffectsInv(CallStep(s, c, e).calls, CallStep(s, c, e).effects)
  {
    CallStepFrame(s, c, e);
    CallStepRuns(s, c, e);
    if s.calls[c].phase.Ready? && e.RunEvent? {
      RunKeepsEffects(s.calls, s.effects, c, e.outcome);
    } else {
      assert CallStep(s, c, e).effects == s.effects;
    }
  }

  lemma CallStepRuns(s: State, c: nat, e: Event)
    requires Wf(s) && c < |s.calls|
    ensures var s' := CallStep(s, c, e);
      if s.calls[c].phase.Ready? && e.RunEvent? then
        s'.calls[c] == Ran(s.calls[c], e.outcome) && s'.effects == s.effects + [Effect(c, e.outcome)]
      else s'.calls[c].ranFn == s.calls[c].ranFn && s'.effects == s.effects
  {}

  lemma RunKeepsEffects(calls: seq<Call>, effects: seq<Effect>, c: nat, outcome: FnOutcome)
    requires EffectsInv(calls, effects) && c < |calls| && !calls[c].ranFn
    ensures EffectsInv(calls[c := Ran(calls[c], outcome)], effects + [Effect(c, outcome)])
  {
    assert (effects + [Effect(c, outcome)])[..|effects|] == effects;
  }

  lemma {:induction false} NoEffectsYet(s: State, effects: seq<Effect>, c: nat)
    requires forall i :: 0 <= i < |effects| ==> effects[i].call < |s.calls|
    requires c >= |s.calls|
    ensures CountEffects(effects, c) == 0
  {
    if effects != [] {
      NoEffectsYet(s, effects[..|effects| - 1], c);
    }
  }

  /** Whatever the threads do, in whatever order, the accounts balance. */
  lemma {:induction false} Reachable(maxHistory: nat, es: seq<Event>)
    ensures Inv(Exec(maxHistory, es))
  {
    if es == [] {
      Rec.EmptyRefines(maxHistory);
    } else {
      var s, e := Exec(maxHistory, es[..|es| - 1]), es[|es| - 1];
      Reachable(maxHistory, es[..|es| - 1]);
      StepKeepsCalls(s, e);
      StepKeepsHits(s, e);
      StepKeepsAppends(s, e);
      StepKeepsLog(s, e);
      StepKeepsEffects(s, e);
    }
  }
}
