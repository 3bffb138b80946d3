/** `ProviderService._call` under concurrency: any number of calls in flight, interleaved one atomic
    step at a time with rule administration and recorder clears. A step is a lock region, a random
    roll, the end of a delay, or the real provider call. */
module Pipeline {
  import opened Wrappers
  import opened Errors
  import opened Text
  import opened Registry
  import Rec = Recording

  /** How the real provider call ended. A botocore error carries what it translates to. */
  datatype FnOutcome = Returned | RaisedApp(error: AppError) | RaisedBoto(translated: AppError) | RaisedOther

  /** How `_call` ends: a value, an AppError, or an exception it neither translates nor records. */
  datatype End = Success | Failure(error: AppError) | Unlisted

  datatype Phase =
    | Started                // before the first lock region of `apply`
    | Trying(i: nat)         // about to roll for the i-th snapshotted rule
    | Committing(i: nat)     // that roll fired; before the second lock region
    | Sleeping(rule: Ref)    // the rule was counted; in its delay
    | Ready                  // `apply` returned; the real call comes next
    | Ending(end: End)       // outcome known, record not yet written
    | Done(end: End)

  datatype Call = Call(
    service: string,
    operation: string,
    provider: string,
    resource: Option<Str>,
    requestId: Option<string>,
    phase: Phase,
    snapshot: seq<Ref>,
    // history: when the snapshot was taken, what was counted and when, total delay, real call made
    snapshotAt: nat,
    hit: Option<Ref>,
    hitAt: nat,
    sleptMs: int,
    ranFn: bool)

  /** History: a record and the call that wrote it; a real provider call and its outcome. */
  datatype Append = Append(call: nat, record: Rec.OperationRecord)
  datatype Effect = Effect(call: nat, outcome: FnOutcome)

  /** `appends` and `log` are every record ever written and those since the last clear; `effects` is
      every real provider call made, of which any provider state is a function. */
  datatype State = State(
    reg: Registry,
    rec: Rec.Recorder,
    calls: seq<Call>,
    appends: seq<Append>,
    log: seq<Rec.OperationRecord>,
    effects: seq<Effect>,
    time: nat)

  datatype Event =
    | AddRuleEvent(service: string, operation: string, failure: FailureType, delayMs: int, probability: real)
    | DeleteRuleEvent(id: string)
    | ClearRulesEvent
    | ClearRecorderEvent
    | StartEvent(service: string, operation: string, provider: string, resource: Option<Str>,
                 requestId: Option<string>)
    | SnapshotEvent(call: nat)
    | RollEvent(call: nat, roll: real)
    | CommitEvent(call: nat)
    | WakeEvent(call: nat)
    | RunEvent(call: nat, outcome: FnOutcome)
    | AppendEvent(call: nat, durationMs: real, timestamp: real)

  function Init(maxHistory: nat): State {
    State(Empty, Rec.Empty(maxHistory), [], [], [], [], 0)
  }

  function NewCall(service: string, operation: string, provider: string, resource: Option<Str>,
    requestId: Option<string>): Call
  {
    Call(service, operation, provider, resource, requestId, Started, [], 0, None, 0, 0, false)
  }

  // ---- the steps of one call ----

  /** The next rule to try, or the real call when there is none. */
  function Next(snapshot: seq<Ref>, i: nat): Phase {
    if i < |snapshot| then Trying(i) else Ready
  }

  function Snapshotted(call: Call, reg: Registry, time: nat): Call
    requires forall i :: 0 <= i < |reg.live| ==> reg.live[i].value < |reg.objects|
  {
    var refs := Matching(reg, reg.live, call.service, call.operation);
    call.(snapshot := refs, snapshotAt := time, phase := Next(refs, 0))
  }

  function Rolled(call: Call, i: nat, rule: Rule, roll: real): Call {
    call.(phase := if rule.Fires(roll) then Committing(i) else Next(call.snapshot, i + 1))
  }

  function Counted(call: Call, i: nat, registered: bool, time: nat): Call
    requires i < |call.snapshot|
  {
    if registered then call.(phase := Sleeping(call.snapshot[i]), hit := Some(call.snapshot[i]), hitAt := time)
    else call.(phase := Next(call.snapshot, i + 1))
  }

  function Woken(call: Call, rule: Rule): Call {
    call.(sleptMs := call.sleptMs + rule.delayMs,
          phase := if rule.failure == LATENCY then Ready else Ending(Failure(InjectedError(rule.failure))))
  }

  /** How the call ends once the real call was made. */
  function EndOf(outcome: FnOutcome): End {
    match outcome
    case Returned => Success
    case RaisedApp(error) => Failure(error)
    case RaisedBoto(translated) => Failure(translated)
    case RaisedOther => Unlisted
  }

  function Ran(call: Call, outcome: FnOutcome): Call {
    call.(ranFn := true, phase := if outcome.RaisedOther? then Done(Unlisted) else Ending(EndOf(outcome)))
  }

  function ReportOf(call: Call, end: End, durationMs: real): Rec.Report {
    match end
    case Failure(e) =>
      Rec.Report(call.service, call.operation, call.provider, "error", durationMs, call.requestId, call.resource,
                 Some(e.code), Some(e.retryable))
    case _ =>
      Rec.Report(call.service, call.operation, call.provider, "success", durationMs, call.requestId,
                 call.resource, None, None)
  }

  // ---- the transition function ----

  ghost predicate CallWf(call: Call, created: nat) {
    && (forall i :: 0 <= i < |call.snapshot| ==> call.snapshot[i] < created)
    && (call.phase.Trying? ==> call.phase.i < |call.snapshot|)
    && (call.phase.Committing? ==> call.phase.i < |call.snapshot|)
    && (call.phase.Sleeping? ==> call.phase.rule < created)
  }

  predicate CallEvent(e: Event) {
    e.SnapshotEvent? || e.RollEvent? || e.CommitEvent? || e.WakeEvent? || e.RunEvent? || e.AppendEvent?
  }

  /** References held anywhere are references to created rules. */
  ghost predicate Wf(s: State) {
    && Valid(s.reg)
    && forall c :: 0 <= c < |s.calls| ==> CallWf(s.calls[c], |s.reg.objects|)
  }

  /** A step of call c; a step the call is not ready for does nothing. */
  ghost function CallStep(s: State, c: nat, e: Event): State
    requires Wf(s) && c < |s.calls|
  {
    var call := s.calls[c];
    match call.phase
    case Started =>
      if e.SnapshotEvent? then s.(calls := s.calls[c := Snapshotted(call, s.reg, s.time)]) else s
    case Trying(i) =>
      if e.RollEvent? then s.(calls := s.calls[c := Rolled(call, i, s.reg.objects[call.snapshot[i]], e.roll)]) else s
    case Committing(i) =>
      if e.CommitEvent? then
        var registered := Registered(s.reg, call.snapshot[i]);
        s.(reg := Commit(s.reg, call.snapshot[i]), calls := s.calls[c := Counted(call, i, registered, s.time)])
      else s
    case Sleeping(r) =>
      if e.WakeEvent? then s.(calls := s.calls[c := Woken(call, s.reg.objects[r])]) else s
    case Ready =>
      if e.RunEvent? then
        s.(calls := s.calls[c := Ran(call, e.outcome)], effects := s.effects + [Effect(c, e.outcome)])
      else s
    case Ending(end) =>
      if e.AppendEvent? then
        var report := ReportOf(call, end, e.durationMs);
        var record := Rec.MakeRecord(s.rec.nextId, report, e.timestamp);
        s.(calls := s.calls[c := call.(phase := Done(end))],
           rec := Rec.Record(s.rec, report, e.timestamp),
           log := s.log + [record],
           appends := s.appends + [Append(c, record)])
      else s
    case Done(_) => s
  }

  ghost function Act(s: State, e: Event): State
    requires Wf(s)
  {
    match e
    case AddRuleEvent(service, operation, failure, delayMs, probability) =>
      s.(reg := AddRule(s.reg, service, operation, failure, delayMs, probability))
    case DeleteRuleEvent(id) => s.(reg := DeleteRule(s.reg, id))
    case ClearRulesEvent => s.(reg := Clear(s.reg))
    case ClearRecorderEvent => s.(rec := Rec.Clear(s.rec), log := [])
    case StartEvent(service, operation, provider, resource, requestId) =>
      s.(calls := s.calls + [NewCall(service, operation, provider, resource, requestId)])
    case _ => if e.call < |s.calls| then CallStep(s, e.call, e) else s
  }

  ghost function Step(s: State, e: Event): (s': State)
    requires Wf(s)
    ensures Wf(s')
  {
    ActKeepsWf(s, e);
    Act(s, e).(time := s.time + 1)
  }

  lemma ActKeepsWf(s: State, e: Event)
    requires Wf(s)
    ensures Wf(Act(s, e))
  {
    match e {
      case AddRuleEvent(service, operation, failure, delayMs, probability) =>
        AddRuleValid(s.reg, service, operation, failure, delayMs, probability);
      case DeleteRuleEvent(id) => DeleteRuleKeepsValid(s.reg, id);
      case ClearRulesEvent => ClearValid(s.reg);
      case ClearRecorderEvent =>
      case StartEvent(_, _, _, _, _) =>
      case _ => if e.call < |s.calls| { CallStepKeepsWf(s, e.call, e); }
    }
  }

  lemma CallStepKeepsWf(s: State, c: nat, e: Event)
    requires Wf(s) && c < |s.calls|
    ensures Wf(CallStep(s, c, e))
  {
    var s' := CallStep(s, c, e);
    assert CallWf(s.calls[c], |s.reg.objects|);
    if s.calls[c].phase.Committing? {
      CommitValid(s.reg, s.calls[c].snapshot[s.calls[c].phase.i]);
    }
    CallStepFrame(s, c, e);
    assert CallWf(s'.calls[c], |s'.reg.objects|);
  }

  /** A step of call c touches no other call, creates no rule and registers or unregisters none. */
  lemma CallStepFrame(s: State, c: nat, e: Event)
    requires Wf(s) && c < |s.calls|
    ensures var s' := CallStep(s, c, e);
      && s'.calls == s.calls[c := s'.calls[c]]
      && |s'.reg.objects| == |s.reg.objects| && s'.reg.live == s.reg.live && s'.reg.nextId == s.reg.nextId
      && s'.time == s.time
  {}

  /** The state after a whole run of events, in order. */
  ghost function Exec(maxHistory: nat, es: seq<Event>): (s: State)
    ensures Wf(s)
  {
    if es == [] then EmptyValid(); Init(maxHistory)
    else Step(Exec(maxHistory, es[..|es| - 1]), es[|es| - 1])
  }

  /** The state a run of further events leads to from s. */
  ghost function RunFrom(s: State, es: seq<Event>): (s': State)
    requires Wf(s)
    ensures Wf(s')
    decreases |es|
  {
    if es == [] then s else RunFrom(Step(s, es[0]), es[1..])
  }

  lemma ExecSnoc(maxHistory: nat, es: seq<Event>, e: Event)
    ensures Exec(maxHistory, es + [e]) == Step(Exec(maxHistory, es), e)
  {
    assert (es + [e])[..|es|] == es;
  }

  /** Running a prefix and then the rest is running it all. */
  lemma {:induction false} ExecSplit(maxHistory: nat, es: seq<Event>, more: seq<Event>)
    ensures Exec(maxHistory, es + more) == RunFrom(Exec(maxHistory, es), more)
    decreases |more|
  {
    if more == [] {
      assert es + more == es;
    } else {
      assert es + more == (es + [more[0]]) + more[1..];
      ExecSplit(maxHistory, es + [more[0]], more[1..]);
      ExecSnoc(maxHistory, es, more[0]);
    }
  }
}
