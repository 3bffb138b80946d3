/** A service method among other threads: its calls are calls of one concurrent run, each started after
    the one before it ended. What it leaves in the shared recorder, whatever the others do meanwhile. */
module ConcurrentMethods {
  import opened Wrappers
  import opened Errors
  import opened ServicePlans
  import opened Surfacing
  import A = Accounting
  import Guarantees
  import P = Pipeline

  // ---- what later events leave alone ----

  /** Nothing recorded is taken back, and an ended call stays as it ended. */
  ghost predicate Later(s: P.State, s': P.State) {
    && |s.calls| <= |s'.calls|
    && s.appends <= s'.appends
    && forall c :: 0 <= c < |s.calls| && s.calls[c].phase.Done? ==> s'.calls[c] == s.calls[c]
  }

  lemma LaterTransitive(s: P.State, t: P.State, u: P.State)
    requires Later(s, t) && Later(t, u)
    ensures Later(s, u)
  {
    forall c | 0 <= c < |s.calls| && s.calls[c].phase.Done? ensures u.calls[c] == s.calls[c] {
      assert t.calls[c] == s.calls[c];
    }
  }

  lemma StepIsLater(s: P.State, e: P.Event)
    requires P.Wf(s)
    ensures Later(s, P.Step(s, e))
  {
    if P.CallEvent(e) && e.call < |s.calls| {
      P.CallStepFrame(s, e.call, e);
    }
  }

  lemma {:induction false} RunIsLater(s: P.State, es: seq<P.Event>)
    requires P.Wf(s)
    ensures Later(s, P.RunFrom(s, es))
    decreases |es|
  {
    if es != [] {
      StepIsLater(s, es[0]);
      RunIsLater(P.Step(s, es[0]), es[1..]);
      LaterTransitive(s, P.Step(s, es[0]), P.RunFrom(s, es));
    }
  }

  /** The state after the first m events of a run. */
  ghost function At(maxHistory: nat, es: seq<P.Event>, m: nat): P.State
    requires m <= |es|
  {
    P.Exec(maxHistory, es[..m])
  }

  lemma AtIsLater(maxHistory: nat, es: seq<P.Event>, m: nat, n: nat)
    requires m <= n <= |es|
    ensures Later(At(maxHistory, es, m), At(maxHistory, es, n))
  {
    assert es[..n] == es[..m] + es[m..n];
    P.ExecSplit(maxHistory, es[..m], es[m..n]);
    RunIsLater(At(maxHistory, es, m), es[m..n]);
  }

  // ---- the calls of one method ----

  /** The call went as the attempt says. */
  ghost predicate Went(call: P.Call, caller: Caller, a: Attempt) {
    && call.service == caller.service && call.provider == caller.provider && call.requestId == caller.requestId
    && call.operation == OperationName(a.step.request) && call.resource == a.step.resource
    && call.phase == P.Done(EndOfAttempt(a)) && call.ranFn == a.answer.Ran?
  }

  /** One thread's calls in order: call j had ended after the first ends[j] events, and call j + 1 had
      not started then. */
  ghost predicate InSequence(maxHistory: nat, es: seq<P.Event>, calls: seq<nat>, ends: seq<nat>) {
    && |ends| == |calls|
    && (forall j :: 0 <= j < |calls| ==> ends[j] <= |es| && EndedAt(maxHistory, es, calls[j], ends[j]))
    && (forall j :: 0 < j < |calls| ==> ends[j - 1] <= |es| && NotStartedAt(maxHistory, es, calls[j], ends[j - 1]))
  }

  ghost predicate EndedAt(maxHistory: nat, es: seq<P.Event>, c: nat, m: nat)
    requires m <= |es|
  {
    c < |At(maxHistory, es, m).calls| && At(maxHistory, es, m).calls[c].phase.Done?
  }

  ghost predicate NotStartedAt(maxHistory: nat, es: seq<P.Event>, c: nat, m: nat)
    requires m <= |es|
  {
    |At(maxHistory, es, m).calls| <= c
  }

  /** The method's calls in the run went as `made` says. */
  ghost predicate IsMethodRun(maxHistory: nat, es: seq<P.Event>, caller: Caller, calls: seq<nat>, ends: seq<nat>,
    made: seq<Attempt>)
  {
    && |made| == |calls|
    && InSequence(maxHistory, es, calls, ends)
    && forall j :: 0 <= j < |calls| ==>
         calls[j] < |P.Exec(maxHistory, es).calls| && Went(P.Exec(maxHistory, es).calls[calls[j]], caller, made[j])
  }

  lemma NextEnd(maxHistory: nat, es: seq<P.Event>, calls: seq<nat>, ends: seq<nat>, j: nat)
    requires InSequence(maxHistory, es, calls, ends) && 0 < j < |calls|
    ensures ends[j - 1] <= ends[j]
  {
    assert NotStartedAt(maxHistory, es, calls[j], ends[j - 1]) && EndedAt(maxHistory, es, calls[j], ends[j]);
    if ends[j] < ends[j - 1] { AtIsLater(maxHistory, es, ends[j], ends[j - 1]); }
  }

  lemma {:induction false} EndsIncrease(maxHistory: nat, es: seq<P.Event>, calls: seq<nat>, ends: seq<nat>, i: nat,
    j: nat)
    requires InSequence(maxHistory, es, calls, ends) && i <= j < |calls|
    ensures ends[i] <= ends[j]
    decreases j - i
  {
    if i < j {
      EndsIncrease(maxHistory, es, calls, ends, i, j - 1);
      NextEnd(maxHistory, es, calls, ends, j);
    }
  }

  lemma StillEnded(maxHistory: nat, es: seq<P.Event>, calls: seq<nat>, ends: seq<nat>, i: nat, m: nat)
    requires InSequence(maxHistory, es, calls, ends) && i < |calls| && ends[i] <= m <= |es|
    ensures EndedAt(maxHistory, es, calls[i], m)
    ensures calls[i] < |P.Exec(maxHistory, es).calls|
    ensures At(maxHistory, es, m).calls[calls[i]] == P.Exec(maxHistory, es).calls[calls[i]]
  {
    assert EndedAt(maxHistory, es, calls[i], ends[i]);
    AtIsLater(maxHistory, es, ends[i], m);
    AtIsLater(maxHistory, es, m, |es|);
    assert es[..|es|] == es;
  }

  // ---- the records of a set of calls ----

  /** The entries these calls wrote, in the order they were written. */
  function AppendsOf(appends: seq<P.Append>, calls: seq<nat>): seq<P.Append> {
    if appends == [] then []
    else
      var last := appends[|appends| - 1];
      AppendsOf(appends[..|appends| - 1], calls) + if last.call in calls then [last] else []
  }

  lemma {:induction false} AppendsOfConcat(a: seq<P.Append>, b: seq<P.Append>, calls: seq<nat>)
    ensures AppendsOf(a + b, calls) == AppendsOf(a, calls) + AppendsOf(b, calls)
  {
    if b == [] {
      assert a + b == a;
    } else {
      AppendsOfConcat(a, b[..|b| - 1], calls);
      assert (a + b)[..|a + b| - 1] == a + b[..|b| - 1];
    }
  }

  lemma {:induction false} CountConcat(a: seq<P.Append>, b: seq<P.Append>, c: nat)
    ensures A.CountAppends(a + b, c) == A.CountAppends(a, c) + A.CountAppends(b, c)
  {
    if b == [] {
      assert a + b == a;
    } else {
      CountConcat(a, b[..|b| - 1], c);
      assert (a + b)[..|a + b| - 1] == a + b[..|b| - 1];
    }
  }

  lemma {:induction false} SameSelection(appends: seq<P.Append>, calls: seq<nat>, others: seq<nat>)
    requires forall i :: 0 <= i < |appends| ==> (appends[i].call in calls <==> appends[i].call in others)
    ensures AppendsOf(appends, calls) == AppendsOf(appends, others)
  {
    if appends != [] { SameSelection(appends[..|appends| - 1], calls, others); }
  }

  lemma {:induction false} NoneCounted(appends: seq<P.Append>, c: nat)
    requires A.CountAppends(appends, c) == 0
    ensures forall i :: 0 <= i < |appends| ==> appends[i].call != c
  {
    if appends != [] { NoneCounted(appends[..|appends| - 1], c); }
  }

  lemma {:induction false} OneCall(appends: seq<P.Append>, c: nat)
    ensures |AppendsOf(appends, [c])| == A.CountAppends(appends, c)
    ensures forall i :: 0 <= i < |AppendsOf(appends, [c])| ==> AppendsOf(appends, [c])[i].call == c
  {
    if appends != [] { OneCall(appends[..|appends| - 1], c); }
  }

  lemma {:induction false} AppendsOfAreAppends(appends: seq<P.Append>, calls: seq<nat>)
    ensures forall a :: a in AppendsOf(appends, calls) ==> a in appends
  {
    if appends != [] { AppendsOfAreAppends(appends[..|appends| - 1], calls); }
  }

  /** One entry per call, in the order of the calls. */
  ghost predicate OneEach(entries: seq<P.Append>, calls: seq<nat>) {
    |entries| == |calls| && forall j :: 0 <= j < |calls| ==> entries[j].call == calls[j]
  }

  /** A further call that wrote nothing before and once since, while the others wrote nothing since. */
  lemma OneMore(before: seq<P.Append>, since: seq<P.Append>, calls: seq<nat>, c: nat)
    requires OneEach(AppendsOf(before, calls), calls)
    requires A.CountAppends(before, c) == 0 && A.CountAppends(since, c) == 1
    requires forall j :: 0 <= j < |calls| ==> A.CountAppends(since, calls[j]) == 0
    ensures OneEach(AppendsOf(before + since, calls + [c]), calls + [c])
  {
    AppendsOfConcat(before, since, calls + [c]);
    NoneCounted(before, c);
    SameSelection(before, calls + [c], calls);
    forall j | 0 <= j < |calls| ensures forall i :: 0 <= i < |since| ==> since[i].call != calls[j] {
      NoneCounted(since, calls[j]);
    }
    SameSelection(since, calls + [c], [c]);
    OneCall(since, c);
  }

  lemma NothingMore(before: seq<P.Append>, since: seq<P.Append>, calls: seq<nat>)
    requires forall j :: 0 <= j < |calls| ==> A.CountAppends(since, calls[j]) == 0
    ensures AppendsOf(before + since, calls) == AppendsOf(before, calls)
  {
    AppendsOfConcat(before, since, calls);
    forall j | 0 <= j < |calls| ensures forall i :: 0 <= i < |since| ==> since[i].call != calls[j] {
      NoneCounted(since, calls[j]);
    }
    SameSelection(since, calls, []);
    NoSelection(since);
  }

  lemma {:induction false} NoSelection(appends: seq<P.Append>)
    ensures AppendsOf(appends, []) == []
  {
    if appends != [] { NoSelection(appends[..|appends| - 1]); }
  }

  // ---- what a method leaves in the shared recorder ----

  /** An ended call whose end is listed has written its one record by then. */
  lemma WrittenAt(maxHistory: nat, es: seq<P.Event>, c: nat, m: nat)
    requires m <= |es| && EndedAt(maxHistory, es, c, m)
    requires At(maxHistory, es, m).calls[c].phase.end != P.Unlisted
    ensures A.CountAppends(At(maxHistory, es, m).appends, c) == 1
  {
    A.Reachable(maxHistory, es[..m]);
  }

  /** A call that has not started has written nothing. */
  lemma NotWrittenAt(maxHistory: nat, es: seq<P.Event>, c: nat, m: nat)
    requires m <= |es| && NotStartedAt(maxHistory, es, c, m)
    ensures A.CountAppends(At(maxHistory, es, m).appends, c) == 0
  {
    A.Reachable(maxHistory, es[..m]);
    var s := At(maxHistory, es, m);
    forall i | 0 <= i < |s.appends| ensures s.appends[i].call < |s.calls| {
      assert A.AppendInv(s.calls, s.appends[i], i);
    }
    A.NoAppendsYet(s, s.appends, c);
  }

  /** A call that had written its record by m writes none after. */
  lemma WrittenOnce(maxHistory: nat, es: seq<P.Event>, c: nat, m: nat, n: nat, since: seq<P.Append>)
    requires m <= n <= |es| && EndedAt(maxHistory, es, c, m) && EndedAt(maxHistory, es, c, n)
    requires At(maxHistory, es, m).calls[c].phase.end != P.Unlisted
    requires At(maxHistory, es, n).calls[c].phase.end != P.Unlisted
    requires At(maxHistory, es, n).appends == At(maxHistory, es, m).appends + since
    ensures A.CountAppends(since, c) == 0
  {
    WrittenAt(maxHistory, es, c, m);
    WrittenAt(maxHistory, es, c, n);
    CountConcat(At(maxHistory, es, m).appends, since, c);
  }

  ghost predicate AllListed(maxHistory: nat, es: seq<P.Event>, calls: seq<nat>) {
    forall j :: 0 <= j < |calls| ==>
      && calls[j] < |P.Exec(maxHistory, es).calls|
      && P.Exec(maxHistory, es).calls[calls[j]].phase.Done?
      && P.Exec(maxHistory, es).calls[calls[j]].phase.end != P.Unlisted
  }

  /** What the first n calls wrote, they had written when the n-th ended. */
  lemma NothingSince(maxHistory: nat, es: seq<P.Event>, calls: seq<nat>, ends: seq<nat>, n: nat, m: nat,
    since: seq<P.Append>)
    requires InSequence(maxHistory, es, calls, ends) && AllListed(maxHistory, es, calls)
    requires 0 < n <= |calls| && ends[n - 1] <= m <= |es|
    requires At(maxHistory, es, m).appends == At(maxHistory, es, ends[n - 1]).appends + since
    ensures forall j :: 0 <= j < n ==> A.CountAppends(since, calls[j]) == 0
  {
    forall j | 0 <= j < n ensures A.CountAppends(since, calls[j]) == 0 {
      EndsIncrease(maxHistory, es, calls, ends, j, n - 1);
      ListedAt(maxHistory, es, calls, ends, j, ends[n - 1]);
      ListedAt(maxHistory, es, calls, ends, j, m);
      WrittenOnce(maxHistory, es, calls[j], ends[n - 1], m, since);
    }
  }

  lemma ListedAt(maxHistory: nat, es: seq<P.Event>, calls: seq<nat>, ends: seq<nat>, j: nat, m: nat)
    requires InSequence(maxHistory, es, calls, ends) && AllListed(maxHistory, es, calls)
    requires j < |calls| && ends[j] <= m <= |es|
    ensures EndedAt(maxHistory, es, calls[j], m) && At(maxHistory, es, m).calls[calls[j]].phase.end != P.Unlisted
  {
    StillEnded(maxHistory, es, calls, ends, j, m);
  }

  lemma PrefixSplit<T>(a: seq<T>, b: seq<T>) returns (since: seq<T>)
    requires a <= b
    ensures b == a + since
  {
    since := b[|a|..];
  }

  /** Between the ends of two calls in a row, the later one writes its entry. */
  lemma NextRecord(maxHistory: nat, es: seq<P.Event>, calls: seq<nat>, ends: seq<nat>, n: nat)
    requires InSequence(maxHistory, es, calls, ends) && AllListed(maxHistory, es, calls) && 0 < n < |calls|
    requires OneEach(AppendsOf(At(maxHistory, es, ends[n - 1]).appends, calls[..n]), calls[..n])
    ensures OneEach(AppendsOf(At(maxHistory, es, ends[n]).appends, calls[..n] + [calls[n]]), calls[..n] + [calls[n]])
  {
    var c := calls[n];
    EndsIncrease(maxHistory, es, calls, ends, n - 1, n);
    AtIsLater(maxHistory, es, ends[n - 1], ends[n]);
    var before := At(maxHistory, es, ends[n - 1]).appends;
    var since := PrefixSplit(before, At(maxHistory, es, ends[n]).appends);
    assert NotStartedAt(maxHistory, es, calls[n], ends[n - 1]);
    NotWrittenAt(maxHistory, es, c, ends[n - 1]);
    ListedAt(maxHistory, es, calls, ends, n, ends[n]);
    WrittenAt(maxHistory, es, c, ends[n]);
    CountConcat(before, since, c);
    NothingSince(maxHistory, es, calls, ends, n, ends[n], since);
    OneMore(before, since, calls[..n], c);
  }

  lemma FirstRecord(maxHistory: nat, es: seq<P.Event>, calls: seq<nat>, ends: seq<nat>)
    requires InSequence(maxHistory, es, calls, ends) && AllListed(maxHistory, es, calls) && calls != []
    ensures OneEach(AppendsOf(At(maxHistory, es, ends[0]).appends, [calls[0]]), [calls[0]])
  {
    ListedAt(maxHistory, es, calls, ends, 0, ends[0]);
    WrittenAt(maxHistory, es, calls[0], ends[0]);
    OneCall(At(maxHistory, es, ends[0]).appends, calls[0]);
  }

  /** When the n-th call has ended, the first n calls have written one entry each, in their order. */
  ghost predicate InOrderAt(maxHistory: nat, es: seq<P.Event>, m: nat, calls: seq<nat>)
    requires m <= |es|
  {
    OneEach(AppendsOf(At(maxHistory, es, m).appends, calls), calls)
  }

  lemma {:induction false} RecordsInOrder(maxHistory: nat, es: seq<P.Event>, calls: seq<nat>, ends: seq<nat>, n: nat)
    requires InSequence(maxHistory, es, calls, ends) && AllListed(maxHistory, es, calls) && 0 < n <= |calls|
    ensures InOrderAt(maxHistory, es, ends[n - 1], calls[..n])
  {
    if n == 1 {
      FirstRecord(maxHistory, es, calls, ends);
      assert calls[..1] == [calls[0]];
    } else {
      RecordsInOrder(maxHistory, es, calls, ends, n - 1);
      NextRecord(maxHistory, es, calls, ends, n - 1);
      TakeNext(calls, n - 1);
    }
  }

  lemma TakeNext<T>(s: seq<T>, n: nat)
    requires n < |s|
    ensures s[..n + 1] == s[..n] + [s[n]]
  {}

  /** Once its calls have all ended with a value or an AppError, the shared recorder holds exactly one
      entry for each, in the order in which they were made, however the entries of other threads lie
      between them; each tells how its call ended. */
  lemma MethodRecords(maxHistory: nat, es: seq<P.Event>, calls: seq<nat>, ends: seq<nat>)
    requires InSequence(maxHistory, es, calls, ends) && AllListed(maxHistory, es, calls)
    ensures var s := P.Exec(maxHistory, es); var entries := AppendsOf(s.appends, calls);
      && OneEach(entries, calls)
      && forall j :: 0 <= j < |calls| ==> A.Describes(entries[j].record, s.calls[calls[j]])
  {
    var n := |calls|;
    assert es[..|es|] == es;
    if n == 0 {
      NoSelection(P.Exec(maxHistory, es).appends);
    } else {
      RecordsInOrder(maxHistory, es, calls, ends, n);
      assert calls[..n] == calls;
      AtIsLater(maxHistory, es, ends[n - 1], |es|);
      var before := At(maxHistory, es, ends[n - 1]).appends;
      var since := PrefixSplit(before, At(maxHistory, es, |es|).appends);
      NothingSince(maxHistory, es, calls, ends, n, |es|, since);
      NothingMore(before, since, calls);
    }
    EntriesDescribe(maxHistory, es, calls);
  }

  lemma EntriesDescribe(maxHistory: nat, es: seq<P.Event>, calls: seq<nat>)
    ensures var s := P.Exec(maxHistory, es);
      forall a :: a in AppendsOf(s.appends, calls) ==> a.call < |s.calls| && A.Describes(a.record, s.calls[a.call])
  {
    var s := P.Exec(maxHistory, es);
    A.Reachable(maxHistory, es);
    AppendsOfAreAppends(s.appends, calls);
    forall a | a in AppendsOf(s.appends, calls) ensures a.call < |s.calls| && A.Describes(a.record, s.calls[a.call]) {
      var i :| 0 <= i < |s.appends| && s.appends[i] == a;
      assert A.AppendInv(s.calls, s.appends[i], i);
    }
  }

  /** The call was failed by a rule: its attempt is an injected one with that rule's error. */
  lemma InjectedAttempt(maxHistory: nat, es: seq<P.Event>, caller: Caller, c: nat, a: Attempt)
    requires c < |P.Exec(maxHistory, es).calls| && Went(P.Exec(maxHistory, es).calls[c], caller, a)
    requires A.Injected(P.Exec(maxHistory, es).calls[c], P.Exec(maxHistory, es).reg)
    ensures var s := P.Exec(maxHistory, es);
      && a.answer.Injected?
      && InjectedError(a.answer.failure) == InjectedError(s.reg.objects[s.calls[c].hit.value].failure)
  {
    Guarantees.InjectedCallsNeverRun(maxHistory, es, c);
  }

  lemma CallsWent(maxHistory: nat, es: seq<P.Event>, caller: Caller, calls: seq<nat>, ends: seq<nat>,
    made: seq<Attempt>)
    requires IsMethodRun(maxHistory, es, caller, calls, ends, made)
    requires forall j :: 0 <= j < |made| ==> EndOfAttempt(made[j]) != P.Unlisted
    ensures AllListed(maxHistory, es, calls)
    ensures forall j :: 0 <= j < |calls| ==>
      A.CountEffects(P.Exec(maxHistory, es).effects, calls[j]) == if made[j].answer.Ran? then 1 else 0
  {
    var s := P.Exec(maxHistory, es);
    forall j | 0 <= j < |calls|
      ensures s.calls[calls[j]].phase.Done? && s.calls[calls[j]].phase.end != P.Unlisted
      ensures A.CountEffects(s.effects, calls[j]) == if made[j].answer.Ran? then 1 else 0
    {
      assert Went(s.calls[calls[j]], caller, made[j]);
      Guarantees.InjectedCallsNeverRun(maxHistory, es, calls[j]);
    }
  }

  /** Calls that all reached the provider but the last, which was failed. */
  ghost predicate FailedLast(made: seq<Attempt>) {
    && made != []
    && forall j :: 0 <= j < |made| ==> EndOfAttempt(made[j]) != P.Unlisted && (made[j].answer.Ran? <==> j < |made| - 1)
  }

  lemma FailedLastFrom(made: seq<Attempt>, k: nat)
    requires |made| == k + 1 && made[k].answer.Injected?
    requires forall j :: 0 <= j < k ==> made[j].answer.Ran? && EndOfAttempt(made[j]) != P.Unlisted
    ensures FailedLast(made)
  {}

  lemma InjectedRecordLast(maxHistory: nat, es: seq<P.Event>, caller: Caller, calls: seq<nat>, ends: seq<nat>,
    made: seq<Attempt>, k: nat)
    requires IsMethodRun(maxHistory, es, caller, calls, ends, made) && |made| == k + 1 && FailedLast(made)
    ensures var entries, e := AppendsOf(P.Exec(maxHistory, es).appends, calls), InjectedError(made[k].answer.failure);
      && OneEach(entries, calls)
      && entries[k].record.status == "error" && entries[k].record.error == Some(e.code)
      && entries[k].record.retryable == Some(e.retryable)
  {
    CallsWent(maxHistory, es, caller, calls, ends, made);
    MethodRecords(maxHistory, es, calls, ends);
    assert Went(P.Exec(maxHistory, es).calls[calls[k]], caller, made[k]);
  }

  /** In every concurrent run, a failure injected into the k-th call of a service method surfaces: the
      method ends with the error of the rule that failed the call, it makes no further call, each earlier
      call reached the provider once and this one never, and among all the records of all threads exactly
      k + 1 are the method's, in the order of its calls, the last one that error. */
  lemma InjectedFailureSurfacesInRun(maxHistory: nat, es: seq<P.Event>, job: Job, env: Env, caller: Caller,
    calls: seq<nat>, ends: seq<nat>, made: seq<Attempt>, outcome: Outcome, k: nat)
    requires IsMethodRun(maxHistory, es, caller, calls, ends, made) && Conforms(job, env, made, outcome)
    requires k < |calls|
    requires A.Injected(P.Exec(maxHistory, es).calls[calls[k]], P.Exec(maxHistory, es).reg)
    ensures var s := P.Exec(maxHistory, es);
      var e := InjectedError(s.reg.objects[s.calls[calls[k]].hit.value].failure);
      var entries := AppendsOf(s.appends, calls);
      && outcome == Raised(e)
      && |calls| == k + 1
      && (forall j :: 0 <= j < k ==> A.CountEffects(s.effects, calls[j]) == 1)
      && A.CountEffects(s.effects, calls[k]) == 0
      && OneEach(entries, calls)
      && entries[k].record.status == "error" && entries[k].record.error == Some(e.code)
      && entries[k].record.retryable == Some(e.retryable)
  {
    InjectedAttempt(maxHistory, es, caller, calls[k], made[k]);
    InjectedEnds(job, env, made, outcome, k);
    FailedLastFrom(made, k);
    CallsWent(maxHistory, es, caller, calls, ends, made);
    InjectedRecordLast(maxHistory, es, caller, calls, ends, made, k);
  }
}
