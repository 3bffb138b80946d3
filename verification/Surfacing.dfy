/** What every service method keeps, whatever it calls and however its calls go: a failing call ends
    it, nothing is called afterwards, and its records say so. */
module Surfacing {
  import opened Wrappers
  import opened Errors
  import opened Pipeline
  import opened ServicePlans
  import opened Text
  import Buckets
  import DynamoValues
  import ItemCursor
  import Pagination
  import Rec = Recording
  import Sorting

  /** The identity a service records its calls under. */
  datatype Caller = Caller(service: string, provider: string, requestId: Option<string>)

  /** The record a call leaves: one if it ended with a value or an AppError, none otherwise. */
  function RecordsOfOne(caller: Caller, a: Attempt): seq<Rec.Report> {
    if EndOfAttempt(a) == Unlisted then []
    else
      var call := NewCall(caller.service, OperationName(a.step.request), caller.provider, a.step.resource,
          caller.requestId);
      [ReportOf(call, EndOfAttempt(a), a.durationMs)]
  }

  function RecordsOf(caller: Caller, made: seq<Attempt>): seq<Rec.Report> {
    if made == [] then []
    else RecordsOf(caller, made[..|made| - 1]) + RecordsOfOne(caller, made[|made| - 1])
  }

  lemma RecordsNext(caller: Caller, made: seq<Attempt>, a: Attempt)
    ensures RecordsOf(caller, made + [a]) == RecordsOf(caller, made) + RecordsOfOne(caller, a)
  {
    assert (made + [a])[..|made|] == made;
  }

  lemma {:induction false} EachRecorded(caller: Caller, made: seq<Attempt>)
    requires forall k :: 0 <= k < |made| ==> EndOfAttempt(made[k]) != Unlisted
    ensures |RecordsOf(caller, made)| == |made|
  {
    if made != [] { EachRecorded(caller, made[..|made| - 1]); }
  }

  /** No failure the injector can produce is the one error a service swallows. */
  lemma InjectedIsNeverTolerated(a: Attempt)
    requires a.answer.Injected?
    ensures EndOfAttempt(a) == Failure(InjectedError(a.answer.failure)) && !GoesOn(a)
  {}

  lemma EarlierCallsWentOn(job: Job, env: Env, made: seq<Attempt>, outcome: Outcome, k: nat)
    requires Conforms(job, env, made, outcome) && k < |made| - 1
    ensures GoesOn(made[k])
  {
    assert made[..|made| - 1][k] == made[k];
  }

  /** Only the last call of a method can have stopped it, and then it is how the method ends. */
  lemma OnlyTheLastStops(job: Job, env: Env, made: seq<Attempt>, outcome: Outcome, k: nat)
    requires Conforms(job, env, made, outcome) && k < |made|
    ensures GoesOn(made[k]) || (k == |made| - 1 && outcome == StoppedBy(made[k]))
  {
    if k < |made| - 1 { EarlierCallsWentOn(job, env, made, outcome, k); }
  }

  lemma RanBefore(job: Job, env: Env, made: seq<Attempt>, outcome: Outcome, j: nat)
    requires Conforms(job, env, made, outcome) && j < |made| - 1
    ensures made[j].answer.Ran? && EndOfAttempt(made[j]) != Unlisted
  {
    EarlierCallsWentOn(job, env, made, outcome, j);
    if made[j].answer.Injected? { InjectedIsNeverTolerated(made[j]); }
  }

  /** After a failing last call, each call has one record and the last record carries its error. */
  lemma FailureIsRecordedLast(caller: Caller, made: seq<Attempt>, e: AppError)
    requires made != [] && EndOfAttempt(made[|made| - 1]) == Failure(e)
    requires forall j :: 0 <= j < |made| - 1 ==> EndOfAttempt(made[j]) != Unlisted
    ensures var records, last := RecordsOf(caller, made), made[|made| - 1].step;
      && |records| == |made|
      && var r := records[|made| - 1];
         && r.operation == OperationName(last.request) && r.resource == last.resource
         && r.status == "error" && r.error == Some(e.code) && r.retryable == Some(e.retryable)
  {
    EachRecorded(caller, made[..|made| - 1]);
  }

  /** An injected failure ends the method with its error, after calls that all reached the provider. */
  lemma InjectedEnds(job: Job, env: Env, made: seq<Attempt>, outcome: Outcome, k: nat)
    requires Conforms(job, env, made, outcome) && k < |made| && made[k].answer.Injected?
    ensures outcome == Raised(InjectedError(made[k].answer.failure)) && |made| == k + 1
    ensures forall j :: 0 <= j < k ==> made[j].answer.Ran? && EndOfAttempt(made[j]) != Unlisted
    ensures EndOfAttempt(made[k]) == Failure(InjectedError(made[k].answer.failure))
  {
    InjectedIsNeverTolerated(made[k]);
    OnlyTheLastStops(job, env, made, outcome, k);
    forall j | 0 <= j < k ensures made[j].answer.Ran? && EndOfAttempt(made[j]) != Unlisted {
      RanBefore(job, env, made, outcome, j);
    }
  }

  /** In every service method, an injected failure in the k-th call ends the method with that very
      error: all earlier calls reached the provider, neither this one nor any other does, and the method
      leaves one record per call of which the last carries the error. */
  lemma InjectedFailuresSurface(job: Job, env: Env, caller: Caller, made: seq<Attempt>, outcome: Outcome, k: nat)
    requires Conforms(job, env, made, outcome) && k < |made| && made[k].answer.Injected?
    ensures var e := InjectedError(made[k].answer.failure); var records := RecordsOf(caller, made);
      && outcome == Raised(e)
      && |made| == k + 1
      && (forall j :: 0 <= j < k ==> made[j].answer.Ran?)
      && |records| == k + 1
      && records[k].operation == OperationName(made[k].step.request) && records[k].resource == made[k].step.resource
      && records[k].status == "error" && records[k].error == Some(e.code) && records[k].retryable == Some(e.retryable)
  {
    InjectedEnds(job, env, made, outcome, k);
    FailureIsRecordedLast(caller, made, InjectedError(made[k].answer.failure));
  }

  /** A method's error is the error of its last call, or its own refusal of the caller's cursor or item. */
  lemma ErrorsHaveOneSource(job: Job, env: Env, made: seq<Attempt>, error: AppError)
    requires Conforms(job, env, made, Raised(error))
    ensures || (made != [] && EndOfAttempt(made[|made| - 1]) == Failure(error))
            || (error.code == VALIDATION_ERROR && error.statusCode == 400 && !error.retryable
                && (job.ListBucketsJob? || job.ListItemsJob? || job.PutItemJob? || job.DeleteItemJob?)
                && forall k :: 0 <= k < |made| ==> GoesOn(made[k]))
  {
    if Underway(job, env, made) && PlanOf(job, env, Heard(made)) == Finish(Raised(error)) {
      PlanRefusals(job, env, Heard(made), error);
    }
  }

  lemma PlanRefusals(job: Job, env: Env, heard: seq<Response>, error: AppError)
    requires PlanOf(job, env, heard) == Finish(Raised(error))
    ensures error.code == VALIDATION_ERROR && error.statusCode == 400 && !error.retryable
    ensures job.ListBucketsJob? || job.ListItemsJob? || job.PutItemJob? || job.DeleteItemJob?
  {}

  /** Where two ways a method went met the same answers, they made the same calls. */
  lemma {:induction false} SameCalls(job: Job, env: Env, a: seq<Attempt>, b: seq<Attempt>, n: nat)
    requires n <= |a| && n <= |b|
    requires forall k :: 0 <= k < n ==> Asked(job, env, a, k) && Asked(job, env, b, k)
    requires forall k :: 0 <= k < n ==> a[k].answer == b[k].answer && a[k].durationMs == b[k].durationMs
    ensures a[..n] == b[..n]
  {
    if n > 0 {
      SameCalls(job, env, a, b, n - 1);
      assert Asked(job, env, a, n - 1) && Asked(job, env, b, n - 1);
      assert a[..n] == a[..n - 1] + [a[n - 1]] && b[..n] == b[..n - 1] + [b[n - 1]];
    }
  }

  lemma AskedInPrefix(job: Job, env: Env, made: seq<Attempt>, n: nat, k: nat)
    requires k < n <= |made| && Asked(job, env, made[..n], k)
    ensures Asked(job, env, made, k)
  {
    assert made[..n][..k] == made[..k];
  }

  lemma AllAsked(job: Job, env: Env, made: seq<Attempt>, outcome: Outcome, k: nat)
    requires Conforms(job, env, made, outcome) && k < |made|
    ensures Asked(job, env, made, k)
  {
    if k < |made| - 1 {
      assert Asked(job, env, made, k) || Asked(job, env, made[..|made| - 1], k);
      if Asked(job, env, made[..|made| - 1], k) { AskedInPrefix(job, env, made, |made| - 1, k); }
    }
  }

  /** A way a method went cannot go on past the end of a way that met the same answers. */
  lemma EndsTogether(job: Job, env: Env, a: seq<Attempt>, b: seq<Attempt>, o: Outcome, p: Outcome)
    requires Conforms(job, env, a, o) && Conforms(job, env, b, p) && |a| <= |b| && b[..|a|] == a
    ensures |a| == |b|
  {
    if |a| < |b| {
      AllAsked(job, env, b, p, |a|);
      if a != [] { EarlierCallsWentOn(job, env, b, p, |a| - 1); }
      assert false;
    }
  }

  /** A method's arguments and the answers its calls meet determine its calls and its outcome. */
  lemma OutcomeIsDetermined(job: Job, env: Env, a: seq<Attempt>, b: seq<Attempt>, o: Outcome, p: Outcome)
    requires Conforms(job, env, a, o) && Conforms(job, env, b, p) && |a| <= |b|
    requires forall k :: 0 <= k < |a| ==> a[k].answer == b[k].answer && a[k].durationMs == b[k].durationMs
    ensures a == b && o == p
  {
    forall k | 0 <= k < |a| ensures Asked(job, env, a, k) && Asked(job, env, b, k) {
      AllAsked(job, env, a, o, k);
      AllAsked(job, env, b, p, k);
    }
    SameCalls(job, env, a, b, |a|);
    assert a == a[..|a|];
    EndsTogether(job, env, a, b, o, p);
    assert b == b[..|b|];
  }
}
