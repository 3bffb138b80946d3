/** `_call` as one thread of one service meets it while any other threads work: each call may meet any
    answer, so answers and times are given from outside. */
module CallSession {
  import opened Wrappers
  import opened Errors
  import opened Pipeline
  import opened ServicePlans
  import opened Surfacing
  import Rec = Recording

  /** What `_call` hands back: the response, an AppError, or an exception it did not translate. */
  datatype Reply = Got(response: Response) | Threw(error: AppError) | Broke

  function ReplyTo(a: Attempt): Reply {
    match EndOfAttempt(a)
    case Success => Got(a.answer.response)
    case Failure(e) => Threw(e)
    case Unlisted => Broke
  }

  /** How a method ends that lets the reply through. */
  function Passed(reply: Reply): Outcome
    requires !reply.Got?
  {
    if reply.Threw? then Raised(reply.error) else Crashed
  }

  class CallSession {
    const caller: Caller
    const env: Env
    const answers: nat -> Answer
    const durations: nat -> real

    /** The calls made so far and the records they left. */
    var attempts: seq<Attempt>
    var records: seq<Rec.Report>

    constructor (caller: Caller, env: Env, answers: nat -> Answer, durations: nat -> real)
      ensures this.caller == caller && this.env == env && this.answers == answers && this.durations == durations
      ensures attempts == [] && records == [] && Valid()
    {
      this.caller, this.env, this.answers, this.durations := caller, env, answers, durations;
      attempts, records := [], [];
    }

    /** Exactly these calls were made, and recorded, since the given moment. */
    ghost predicate Made(attemptsBefore: seq<Attempt>, recordsBefore: seq<Rec.Report>, made: seq<Attempt>)
      reads this`attempts, this`records
    {
      && attempts == attemptsBefore + made
      && records == recordsBefore + RecordsOf(caller, made)
    }

    /** Every call met the answer it was given. */
    ghost predicate Valid()
      reads this`attempts
    {
      forall k :: 0 <= k < |attempts| ==> attempts[k].answer == answers(k) && attempts[k].durationMs == durations(k)
    }

    method Call(step: Step) returns (reply: Reply, ghost a: Attempt)
      requires Valid()
      modifies this`attempts, this`records
      ensures Valid()
      ensures a == Attempt(step, answers(|old(attempts)|), durations(|old(attempts)|)) && reply == ReplyTo(a)
      ensures attempts == old(attempts) + [a]
      ensures records == old(records) + RecordsOfOne(caller, a)
    {
      var answer, duration := answers(|attempts|), durations(|attempts|);
      var attempt := Attempt(step, answer, duration);
      attempts := attempts + [attempt];
      a := attempt;
      var end := EndOfAnswer(answer);
      if end != Unlisted {
        var call := NewCall(caller.service, OperationName(step.request), caller.provider, step.resource,
            caller.requestId);
        records := records + [ReportOf(call, end, duration)];
      }
      reply := ReplyTo(attempt);
    }

    /** The next planned call of a method that has made `made` so far. */
    method Perform(step: Step, ghost job: Job, ghost made: seq<Attempt>, ghost attemptsBefore: seq<Attempt>,
      ghost recordsBefore: seq<Rec.Report>) returns (reply: Reply, ghost now: seq<Attempt>)
      requires Valid() && Made(attemptsBefore, recordsBefore, made)
      requires Underway(job, env, made) && PlanOf(job, env, Heard(made)) == Ask(step)
      modifies this`attempts, this`records
      ensures Valid() && Made(attemptsBefore, recordsBefore, now)
      ensures Continues(job, env, made, now, step, reply)
    {
      ghost var a;
      reply, a := Call(step);
      now := made + [a];
      RecordsNext(caller, made, a);
      Regroup(attemptsBefore, made, [a]);
      Regroup(recordsBefore, RecordsOf(caller, made), RecordsOfOne(caller, a));
      AfterCall(job, env, made, a);
    }
  }

  /** Before its first call a method is under way. */
  lemma NoCallsYet(job: Job, env: Env, caller: Caller)
    ensures Underway(job, env, []) && Heard([]) == [] && RecordsOf(caller, []) == []
  {}

  lemma Regroup<T>(a: seq<T>, b: seq<T>, c: seq<T>)
    ensures (a + b) + c == a + (b + c)
  {}

  /** The errors `_get_bucket_tags` swallows. */
  predicate Swallowed(step: Step, reply: Reply) {
    step.request.GetBucketTagging? && reply.Threw? && reply.error.code == RESOURCE_NOT_FOUND
  }

  /** After a call the method goes on with what it heard, or has ended as the plan says. */
  ghost predicate Continues(job: Job, env: Env, made: seq<Attempt>, now: seq<Attempt>, step: Step, reply: Reply) {
    if reply.Got? then Underway(job, env, now) && Heard(now) == Heard(made) + [reply.response]
    else if Swallowed(step, reply) then Underway(job, env, now) && Heard(now) == Heard(made) + [Nothing]
    else Conforms(job, env, now, Passed(reply))
  }

  lemma ReplyMeans(a: Attempt)
    ensures var r := ReplyTo(a);
      if r.Got? then GoesOn(a) && HeardFrom(a) == r.response
      else if Swallowed(a.step, r) then GoesOn(a) && HeardFrom(a) == Nothing
      else !GoesOn(a) && StoppedBy(a) == Passed(r)
  {}

  lemma AfterCall(job: Job, env: Env, made: seq<Attempt>, a: Attempt)
    requires Underway(job, env, made) && PlanOf(job, env, Heard(made)) == Ask(a.step)
    ensures Continues(job, env, made, made + [a], a.step, ReplyTo(a))
  {
    ReplyMeans(a);
    Took(job, env, made, a);
  }
}
