/** How a call ends and what its record says, told from what the provider answered and when the record was
    written. */
module Endings {
  import opened Wrappers
  import opened Errors
  import opened Text
  import opened Accounting
  import opened Guarantees
  import opened Pipeline
  import Rec = Recording

  // ---- the end of a call ----

  /** A value ends the call well, an AppError or a translated botocore error is the call's own, and any
      other exception passes through. */
  ghost predicate Answers(outcome: FnOutcome, end: End) {
    match outcome
    case Returned => end == Success
    case RaisedApp(e) => end == Failure(e)
    case RaisedBoto(e) => end == Failure(e)
    case RaisedOther => end == Unlisted
  }

  /** A call that reached the provider has ended, or is about to write its record, as the answer says. */
  ghost predicate Answered(call: Call, outcome: FnOutcome) {
    (call.phase.Ending? || call.phase.Done?) && Answers(outcome, call.phase.end)
  }

  ghost predicate AllAnswered(calls: seq<Call>, effects: seq<Effect>) {
    forall i :: 0 <= i < |effects| ==> effects[i].call < |calls| && Answered(calls[effects[i].call], effects[i].outcome)
  }

  lemma RunAnswers(call: Call, outcome: FnOutcome)
    ensures Answered(Ran(call, outcome), outcome)
  {}

  /** Once a call has ended, or is about to write its record, its end does not change. */
  lemma EndStays(s: State, c: nat, e: Event)
    requires Wf(s) && c < |s.calls| && (s.calls[c].phase.Ending? || s.calls[c].phase.Done?)
    ensures var call, call' := s.calls[c], CallStep(s, c, e).calls[c];
      (call'.phase.Ending? || call'.phase.Done?) && call'.phase.end == call.phase.end
    ensures CallStep(s, c, e).effects == s.effects
  {}

  lemma StepAnswers(s: State, e: Event)
    requires Wf(s) && AllAnswered(s.calls, s.effects)
    ensures AllAnswered(Step(s, e).calls, Step(s, e).effects)
  {
    if CallEvent(e) && e.call < |s.calls| {
      CallStepFrame(s, e.call, e);
      CallStepRuns(s, e.call, e);
      CallStepAnswers(s, e.call, e);
    }
  }

  lemma CallStepAnswers(s: State, c: nat, e: Event)
    requires Wf(s) && c < |s.calls| && AllAnswered(s.calls, s.effects)
    ensures AllAnswered(CallStep(s, c, e).calls, CallStep(s, c, e).effects)
  {
    CallStepFrame(s, c, e);
    CallStepRuns(s, c, e);
    var s' := CallStep(s, c, e);
    forall i | 0 <= i < |s.effects| ensures Answered(s'.calls[s.effects[i].call], s.effects[i].outcome) {
      if s.effects[i].call == c { EndStays(s, c, e); }
    }
    if s.calls[c].phase.Ready? && e.RunEvent? { RunAnswers(s.calls[c], e.outcome); }
  }

  lemma {:induction false} AnswersHold(maxHistory: nat, es: seq<Event>)
    ensures AllAnswered(Exec(maxHistory, es).calls, Exec(maxHistory, es).effects)
  {
    if es != [] {
      AnswersHold(maxHistory, es[..|es| - 1]);
      StepAnswers(Exec(maxHistory, es[..|es| - 1]), es[|es| - 1]);
    }
  }

  /** The call's one record: this status, error code and retryable flag, and no other record. */
  ghost predicate OneRecord(s: State, c: nat, status: string, error: Option<ErrorCode>, retryable: Option<bool>) {
    && CountAppends(s.appends, c) == 1
    && forall i :: 0 <= i < |s.appends| && s.appends[i].call == c ==>
         && s.appends[i].record.status == status
         && s.appends[i].record.error == error && s.appends[i].record.retryable == retryable
  }

  /** Over every run: once a call has ended, what the provider answered it decides its end and its record.
      A value is a success; an AppError, raised as such or translated, is the call's failure and recorded
      with its code and retryable flag; any other exception leaves no record. */
  lemma EndFollowsAnswer(maxHistory: nat, es: seq<Event>, i: nat)
    requires i < |Exec(maxHistory, es).effects|
    ensures var s := Exec(maxHistory, es); var effect := s.effects[i];
      && effect.call < |s.calls|
      && (s.calls[effect.call].phase.Done? ==>
            match effect.outcome
            case Returned =>
              s.calls[effect.call].phase.end == Success && OneRecord(s, effect.call, "success", None, None)
            case RaisedApp(e) =>
              && s.calls[effect.call].phase.end == Failure(e)
              && OneRecord(s, effect.call, "error", Some(e.code), Some(e.retryable))
            case RaisedBoto(e) =>
              && s.calls[effect.call].phase.end == Failure(e)
              && OneRecord(s, effect.call, "error", Some(e.code), Some(e.retryable))
            case RaisedOther =>
              s.calls[effect.call].phase.end == Unlisted && CountAppends(s.appends, effect.call) == 0)
  {
    AnswersHold(maxHistory, es);
    var s := Exec(maxHistory, es);
    assert Answered(s.calls[s.effects[i].call], s.effects[i].outcome);
    OneRecordPerCall(maxHistory, es, s.effects[i].call);
  }

  // ---- when and how long ----

  /** Event k wrote the record: its duration is the measured one rounded to hundredths of a millisecond,
      its time the given one. */
  ghost predicate WrittenBy(es: seq<Event>, a: Append, k: nat) {
    && k < |es| && es[k].AppendEvent? && es[k].call == a.call
    && a.record.timestamp == es[k].timestamp
    && a.record.duration as real - 0.5 <= 100.0 * es[k].durationMs <= a.record.duration as real + 0.5
  }

  ghost predicate Written(es: seq<Event>, a: Append) {
    exists k: nat :: WrittenBy(es, a, k)
  }

  ghost predicate AllWritten(es: seq<Event>, appends: seq<Append>) {
    forall i :: 0 <= i < |appends| ==> Written(es, appends[i])
  }

  lemma WrittenStays(es: seq<Event>, e: Event, a: Append)
    requires Written(es, a)
    ensures Written(es + [e], a)
  {
    var k: nat :| WrittenBy(es, a, k);
    assert (es + [e])[k] == es[k];
    assert WrittenBy(es + [e], a, k);
  }

  /** The record the event writes for a call in this state. */
  ghost function NewAppend(s: State, e: Event): Append
    requires Wf(s) && e.AppendEvent? && e.call < |s.calls| && s.calls[e.call].phase.Ending?
  {
    var call := s.calls[e.call];
    Append(e.call, Rec.MakeRecord(s.rec.nextId, ReportOf(call, call.phase.end, e.durationMs), e.timestamp))
  }

  /** A step writes no record, or the one it is for. */
  lemma StepWrites(s: State, e: Event)
    requires Wf(s)
    ensures Step(s, e).appends == if Writes(s, e) then s.appends + [NewAppend(s, e)] else s.appends
  {
    RecorderFrame(s, e);
    if Writes(s, e) { AppendWrites(s, e.call, e); }
  }

  lemma AppendWrites(s: State, c: nat, e: Event)
    requires Wf(s) && c < |s.calls| && s.calls[c].phase.Ending? && e.AppendEvent? && e.call == c
    ensures CallStep(s, c, e).appends == s.appends + [NewAppend(s, e)]
  {}

  lemma RecordTimed(es: seq<Event>, e: Event, call: Call, end: End, id: nat)
    requires e.AppendEvent?
    ensures Written(es + [e], Append(e.call, Rec.MakeRecord(id, ReportOf(call, end, e.durationMs), e.timestamp)))
  {
    var a := Append(e.call, Rec.MakeRecord(id, ReportOf(call, end, e.durationMs), e.timestamp));
    assert WrittenBy(es + [e], a, |es|);
  }

  lemma AllStayWritten(es: seq<Event>, e: Event, appends: seq<Append>)
    requires AllWritten(es, appends)
    ensures AllWritten(es + [e], appends)
  {
    forall i | 0 <= i < |appends| ensures Written(es + [e], appends[i]) {
      WrittenStays(es, e, appends[i]);
    }
  }

  /** Every record of every run was written by one event of its call, with that event's duration and time. */
  lemma {:induction false} RecordsAreTimed(maxHistory: nat, es: seq<Event>)
    ensures AllWritten(es, Exec(maxHistory, es).appends)
  {
    if es != [] {
      var before, e := es[..|es| - 1], es[|es| - 1];
      var s := Exec(maxHistory, before);
      assert before + [e] == es;
      RecordsAreTimed(maxHistory, before);
      AllStayWritten(before, e, s.appends);
      StepWrites(s, e);
      if Writes(s, e) {
        RecordTimed(before, e, s.calls[e.call], s.calls[e.call].phase.end, s.rec.nextId);
      }
    }
  }
}
