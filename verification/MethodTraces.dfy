/** The service methods one by one: what each asks for, call by call and under which operation name, and
    what it makes of the answers. */
module MethodTraces {
  import opened Wrappers
  import opened Errors
  import opened Text
  import opened ServicePlans
  import opened Surfacing
  import Buckets
  import Dict
  import DynamoValues
  import Integers
  import ItemCursor
  import ServiceMeanings

  /** The provider was reached and returned. */
  ghost predicate Succeeded(a: Attempt) {
    a.answer.Ran? && a.answer.outcome.Returned?
  }

  function Told(a: Attempt): Response {
    if a.answer.Ran? then a.answer.response else Nothing
  }

  /** The k-th call, if it was made, was this one, recorded under this operation and resource. */
  ghost predicate Makes(made: seq<Attempt>, k: nat, request: Request, operation: string, resource: Option<Str>) {
    k < |made| ==>
      && made[k].step.request == request && OperationName(made[k].step.request) == operation
      && made[k].step.resource == resource
  }

  /** All n calls were made and succeeded. */
  ghost predicate Complete(made: seq<Attempt>, n: nat) {
    |made| == n && forall k :: 0 <= k < n ==> Succeeded(made[k])
  }

  /** The last call failed, every earlier one succeeded, and the method ends with the failure: an injected
      error, an AppError or a translated botocore error is raised, any other exception passes through. */
  ghost predicate EndsEarly(made: seq<Attempt>, outcome: Outcome) {
    && made != []
    && (forall k :: 0 <= k < |made| - 1 ==> Succeeded(made[k]))
    && EndsBy(made[|made| - 1].answer, outcome)
  }

  ghost predicate EndsBy(a: Answer, outcome: Outcome) {
    match a
    case Injected(f) => outcome == Raised(InjectedError(f))
    case Ran(answer, _) =>
      match answer
      case Returned => false
      case RaisedApp(e) => outcome == Raised(e)
      case RaisedBoto(e) => outcome == Raised(e)
      case RaisedOther => outcome == Crashed
  }

  // ---- how a plan of one or two calls goes ----

  lemma WentOnMeans(a: Attempt)
    requires GoesOn(a) && !a.step.request.GetBucketTagging?
    ensures Succeeded(a) && HeardFrom(a) == Told(a)
  {
    if a.answer.Injected? { InjectedIsNeverTolerated(a); }
  }

  lemma StoppedMeans(a: Attempt, outcome: Outcome)
    requires !GoesOn(a) && outcome == StoppedBy(a)
    ensures EndsBy(a.answer, outcome)
  {}

  lemma FirstHeard(made: seq<Attempt>)
    requires made != []
    ensures Heard(made[..1]) == [HeardFrom(made[0])] && Heard(made[..0]) == []
  {}

  lemma TwoHeard(made: seq<Attempt>)
    requires |made| >= 2
    ensures Heard(made[..2]) == [HeardFrom(made[0]), HeardFrom(made[1])]
  {}

  lemma ThreeHeard(made: seq<Attempt>)
    requires |made| >= 3
    ensures Heard(made[..3]) == [HeardFrom(made[0]), HeardFrom(made[1]), HeardFrom(made[2])]
  {}

  /** Whether call k ended the method, told in the words above. */
  lemma CallSettles(job: Job, env: Env, made: seq<Attempt>, outcome: Outcome, k: nat)
    requires Conforms(job, env, made, outcome) && k < |made| && !made[k].step.request.GetBucketTagging?
    ensures if Succeeded(made[k]) then HeardFrom(made[k]) == Told(made[k])
            else k == |made| - 1 && EndsBy(made[k].answer, outcome)
  {
    OnlyTheLastStops(job, env, made, outcome, k);
    if GoesOn(made[k]) { WentOnMeans(made[k]); } else { StoppedMeans(made[k], outcome); }
  }

  /** After calls that all went on, and no more, the plan decides. */
  lemma PlanDecides(job: Job, env: Env, made: seq<Attempt>, outcome: Outcome)
    requires Conforms(job, env, made, outcome) && (made == [] || Succeeded(made[|made| - 1]))
    ensures PlanOf(job, env, Heard(made)) == Finish(outcome)
  {}

  lemma PlanAsks(job: Job, env: Env, made: seq<Attempt>, outcome: Outcome, k: nat)
    requires Conforms(job, env, made, outcome) && k < |made|
    ensures PlanOf(job, env, Heard(made[..k])) == Ask(made[k].step)
  {
    AllAsked(job, env, made, outcome, k);
  }

  lemma PlanAsksIf(job: Job, env: Env, made: seq<Attempt>, outcome: Outcome, k: nat)
    requires Conforms(job, env, made, outcome)
    ensures k < |made| ==> PlanOf(job, env, Heard(made[..k])) == Ask(made[k].step)
  {
    if k < |made| { PlanAsks(job, env, made, outcome, k); }
  }

  lemma NoCallDecides(job: Job, env: Env, made: seq<Attempt>, outcome: Outcome)
    requires Conforms(job, env, made, outcome)
    ensures made == [] ==> PlanOf(job, env, []) == Finish(outcome)
  {
    assert Heard([]) == [];
    if made == [] { PlanDecides(job, env, made, outcome); }
  }

  /** A method of one call. */
  lemma SingleCall(job: Job, env: Env, made: seq<Attempt>, outcome: Outcome, step: Step)
    requires Conforms(job, env, made, outcome) && !step.request.GetBucketTagging?
    requires PlanOf(job, env, []) == Ask(step) && forall r :: PlanOf(job, env, [r]).Finish?
    ensures |made| == 1 && made[0].step == step && (Complete(made, 1) || EndsEarly(made, outcome))
    ensures Complete(made, 1) ==> PlanOf(job, env, [Told(made[0])]) == Finish(outcome)
  {
    NoCallDecides(job, env, made, outcome);
    FirstHeard(made);
    PlanAsks(job, env, made, outcome, 0);
    PlanAsksIf(job, env, made, outcome, 1);
    assert made[..1] == made;
    CallSettles(job, env, made, outcome, 0);
    if Succeeded(made[0]) { PlanDecides(job, env, made, outcome); }
  }

  /** A method of two calls, the second depending on the first one's response. */
  lemma TwoCalls(job: Job, env: Env, made: seq<Attempt>, outcome: Outcome, step: Step, next: Response -> Step)
    requires Conforms(job, env, made, outcome)
    requires !step.request.GetBucketTagging? && forall r :: !next(r).request.GetBucketTagging?
    requires PlanOf(job, env, []) == Ask(step) && forall r :: PlanOf(job, env, [r]) == Ask(next(r))
    requires forall r, q :: PlanOf(job, env, [r, q]).Finish?
    ensures 1 <= |made| <= 2 && made[0].step == step && (|made| == 2 ==> made[1].step == next(Told(made[0])))
    ensures Complete(made, 2) || EndsEarly(made, outcome)
    ensures Complete(made, 2) ==> PlanOf(job, env, [Told(made[0]), Told(made[1])]) == Finish(outcome)
  {
    NoCallDecides(job, env, made, outcome);
    FirstHeard(made);
    PlanAsks(job, env, made, outcome, 0);
    CallSettles(job, env, made, outcome, 0);
    if |made| == 1 {
      assert made[..1] == made;
      if Succeeded(made[0]) { PlanDecides(job, env, made, outcome); }
    } else {
      PlanAsks(job, env, made, outcome, 1);
      TwoHeard(made);
      CallSettles(job, env, made, outcome, 1);
      PlanAsksIf(job, env, made, outcome, 2);
      assert made[..2] == made;
      if Succeeded(made[1]) { PlanDecides(job, env, made, outcome); }
    }
  }

  // ---- SQS ----

  lemma DeleteQueueTrace(name: Str, env: Env, made: seq<Attempt>, outcome: Outcome)
    requires Conforms(DeleteQueueJob(name), env, made, outcome)
    ensures 1 <= |made| <= 2 && (Complete(made, 2) || EndsEarly(made, outcome))
    ensures Makes(made, 0, GetQueueUrl(name), "GetQueueUrl", Some(name))
    ensures Makes(made, 1, DeleteQueue(Told(made[0]).queueUrl), "DeleteQueue", Some(name))
    ensures Complete(made, 2) ==> outcome == Produced(NoValue)
  {
    TwoCalls(DeleteQueueJob(name), env, made, outcome, Step(GetQueueUrl(name), Some(name)),
             (r: Response) => Step(DeleteQueue(r.queueUrl), Some(name)));
  }

  lemma SendMessageTrace(name: Str, body: Str, env: Env, made: seq<Attempt>, outcome: Outcome)
    requires Conforms(SendMessageJob(name, body), env, made, outcome)
    ensures 1 <= |made| <= 2 && (Complete(made, 2) || EndsEarly(made, outcome))
    ensures Makes(made, 0, GetQueueUrl(name), "GetQueueUrl", Some(name))
    ensures Makes(made, 1, SendMessage(Told(made[0]).queueUrl, body), "SendMessage", Some(name))
    ensures Complete(made, 2) ==>
      outcome == Produced(MessageValue(MessageResource(Told(made[1]).messageId, [], body, None, None)))
  {
    TwoCalls(SendMessageJob(name, body), env, made, outcome, Step(GetQueueUrl(name), Some(name)),
             (r: Response) => Step(SendMessage(r.queueUrl, body), Some(name)));
  }

  lemma DeleteMessageTrace(name: Str, receiptHandle: Str, env: Env, made: seq<Attempt>, outcome: Outcome)
    requires Conforms(DeleteMessageJob(name, receiptHandle), env, made, outcome)
    ensures 1 <= |made| <= 2 && (Complete(made, 2) || EndsEarly(made, outcome))
    ensures Makes(made, 0, GetQueueUrl(name), "GetQueueUrl", Some(name))
    ensures Makes(made, 1, DeleteMessage(Told(made[0]).queueUrl, receiptHandle), "DeleteMessage", Some(name))
    ensures Complete(made, 2) ==> outcome == Produced(NoValue)
  {
    TwoCalls(DeleteMessageJob(name, receiptHandle), env, made, outcome, Step(GetQueueUrl(name), Some(name)),
             (r: Response) => Step(DeleteMessage(r.queueUrl, receiptHandle), Some(name)));
  }

  /** The limit asked for is the given one between 1 and 10, and otherwise the nearer of the two. */
  lemma ReceiveMessagesTrace(name: Str, n: int, env: Env, made: seq<Attempt>, outcome: Outcome)
    requires Conforms(ReceiveMessagesJob(name, n), env, made, outcome)
    ensures 1 <= |made| <= 2 && (Complete(made, 2) || EndsEarly(made, outcome))
    ensures Makes(made, 0, GetQueueUrl(name), "GetQueueUrl", Some(name))
    ensures Makes(made, 1, ReceiveMessage(Told(made[0]).queueUrl, if n <= 1 then 1 else if n >= 10 then 10 else n),
                  "ReceiveMessage", Some(name))
    ensures Complete(made, 2) ==>
      && outcome.Produced? && outcome.value.MessageValues?
      && var messages, received := outcome.value.messages, Told(made[1]).messages;
         && |messages| == |received|
         && forall i :: 0 <= i < |messages| ==>
              && messages[i].messageId == received[i].messageId && messages[i].body == received[i].body
              && messages[i].receiptHandle == received[i].receiptHandle
              && messages[i].sentAtMs == NumberIn(received[i].sentTimestamp, env)
              && messages[i].receiveCount == NumberIn(received[i].receiveCount, env)
  {
    TwoCalls(ReceiveMessagesJob(name, n), env, made, outcome, Step(GetQueueUrl(name), Some(name)),
             (r: Response) => Step(ReceiveMessage(r.queueUrl, ReceiveLimit(n)), Some(name)));
  }

  /** What `int` reads from an attribute; none if it is missing or not a number. */
  function NumberIn(attribute: Option<Str>, env: Env): Option<int> {
    match attribute
    case None => None
    case Some(text) => Integers.Parse(text, env.unicode)
  }

  /** The queue as its attributes describe it; a missing or unreadable message count is 0, a missing ARN
      empty. */
  ghost predicate Describes(q: QueueResource, url: Str, r: Response, env: Env) {
    && q.name == QueueName(url) && q.url == url && q.region == env.region
    && q.arn == (match r.queueArn case None => [] case Some(arn) => arn)
    && q.createdAt == NumberIn(r.queueCreated, env)
    && q.messages == (match NumberIn(r.queueMessages, env) case None => 0 case Some(n) => n)
  }

  lemma DescribedQueue(url: Str, r: Response, env: Env)
    ensures Describes(DescribeQueue(url, r, env), url, r, env)
  {}

  lemma GetQueueTrace(name: Str, env: Env, made: seq<Attempt>, outcome: Outcome)
    requires Conforms(GetQueueJob(name), env, made, outcome)
    ensures GetsQueue(name, env, made, outcome)
  {
    TwoCalls(GetQueueJob(name), env, made, outcome, Step(GetQueueUrl(name), Some(name)),
             (r: Response) => Step(GetQueueAttributes(r.queueUrl), Some(r.queueUrl)));
    GetQueueMeans(name, env, made, outcome);
  }

  /** Look up and describe, each recorded under its name, until one fails; then the queue described. */
  ghost predicate GetsQueue(name: Str, env: Env, made: seq<Attempt>, outcome: Outcome) {
    && 1 <= |made| <= 2 && (Complete(made, 2) || EndsEarly(made, outcome))
    && Makes(made, 0, GetQueueUrl(name), "GetQueueUrl", Some(name))
    && var url := Told(made[0]).queueUrl;
       && Makes(made, 1, GetQueueAttributes(url), "GetQueueAttributes", Some(url))
       && (Complete(made, 2) ==>
             outcome.Produced? && outcome.value.QueueValue?
             && Describes(outcome.value.queue, url, Told(made[1]), env))
  }

  lemma GetQueueMeans(name: Str, env: Env, made: seq<Attempt>, outcome: Outcome)
    requires 1 <= |made| <= 2 && (Complete(made, 2) || EndsEarly(made, outcome))
    requires made[0].step == Step(GetQueueUrl(name), Some(name))
    requires |made| == 2 ==>
      made[1].step == Step(GetQueueAttributes(Told(made[0]).queueUrl), Some(Told(made[0]).queueUrl))
    requires Complete(made, 2) ==>
      outcome == Produced(QueueValue(DescribeQueue(Told(made[0]).queueUrl, Told(made[1]), env)))
    ensures GetsQueue(name, env, made, outcome)
  {
    if |made| == 2 { DescribedQueue(Told(made[0]).queueUrl, Told(made[1]), env); }
  }

  /** A method of three calls, the last depending on the second one's response. */
  lemma ThreeCalls(job: Job, env: Env, made: seq<Attempt>, outcome: Outcome, step: Step, second: Step,
    next: Response -> Step)
    requires Conforms(job, env, made, outcome)
    requires !step.request.GetBucketTagging? && !second.request.GetBucketTagging?
    requires forall r :: !next(r).request.GetBucketTagging?
    requires PlanOf(job, env, []) == Ask(step) && forall r :: PlanOf(job, env, [r]) == Ask(second)
    requires forall r, q :: PlanOf(job, env, [r, q]) == Ask(next(q))
    requires forall r, q, u :: PlanOf(job, env, [r, q, u]).Finish?
    ensures 1 <= |made| <= 3 && made[0].step == step && (|made| > 1 ==> made[1].step == second)
    ensures |made| > 2 ==> made[2].step == next(Told(made[1]))
    ensures Complete(made, 3) || EndsEarly(made, outcome)
    ensures Complete(made, 3) ==> PlanOf(job, env, [Told(made[0]), Told(made[1]), Told(made[2])]) == Finish(outcome)
  {
    NoCallDecides(job, env, made, outcome);
    FirstHeard(made);
    PlanAsks(job, env, made, outcome, 0);
    CallSettles(job, env, made, outcome, 0);
    assert made[..|made|] == made;
    if |made| > 1 {
      PlanAsks(job, env, made, outcome, 1);
      TwoHeard(made);
      CallSettles(job, env, made, outcome, 1);
    }
    if |made| > 2 {
      PlanAsks(job, env, made, outcome, 2);
      ThreeHeard(made);
      CallSettles(job, env, made, outcome, 2);
    }
    PlanAsksIf(job, env, made, outcome, 3);
    if Succeeded(made[|made| - 1]) { PlanDecides(job, env, made, outcome); }
  }

  lemma CreateQueueTrace(name: Str, env: Env, made: seq<Attempt>, outcome: Outcome)
    requires Conforms(CreateQueueJob(name), env, made, outcome)
    ensures CreatesQueue(name, env, made, outcome)
  {
    CreateQueueCalls(name, env, made, outcome);
    CreateQueueMeans(name, env, made, outcome);
  }

  /** Create, look up, describe, each recorded under its name, until one fails; then the queue described. */
  ghost predicate CreatesQueue(name: Str, env: Env, made: seq<Attempt>, outcome: Outcome) {
    && 1 <= |made| <= 3 && (Complete(made, 3) || EndsEarly(made, outcome))
    && Makes(made, 0, CreateQueue(name), "CreateQueue", Some(name))
    && Makes(made, 1, GetQueueUrl(name), "GetQueueUrl", Some(name))
    && (|made| == 3 ==>
          var url := Told(made[1]).queueUrl;
          && Makes(made, 2, GetQueueAttributes(url), "GetQueueAttributes", Some(url))
          && (Complete(made, 3) ==>
                outcome.Produced? && outcome.value.QueueValue?
                && Describes(outcome.value.queue, url, Told(made[2]), env)))
  }

  lemma CreateQueueMeans(name: Str, env: Env, made: seq<Attempt>, outcome: Outcome)
    requires 1 <= |made| <= 3 && (Complete(made, 3) || EndsEarly(made, outcome))
    requires made[0].step == Step(CreateQueue(name), Some(name))
    requires |made| > 1 ==> made[1].step == Step(GetQueueUrl(name), Some(name))
    requires |made| > 2 ==>
      made[2].step == Step(GetQueueAttributes(Told(made[1]).queueUrl), Some(Told(made[1]).queueUrl))
    requires Complete(made, 3) ==>
      outcome == Produced(QueueValue(DescribeQueue(Told(made[1]).queueUrl, Told(made[2]), env)))
    ensures CreatesQueue(name, env, made, outcome)
  {
    if |made| == 3 { DescribedQueue(Told(made[1]).queueUrl, Told(made[2]), env); }
  }

  lemma CreateQueueCalls(name: Str, env: Env, made: seq<Attempt>, outcome: Outcome)
    requires Conforms(CreateQueueJob(name), env, made, outcome)
    ensures 1 <= |made| <= 3 && (Complete(made, 3) || EndsEarly(made, outcome))
    ensures made[0].step == Step(CreateQueue(name), Some(name))
    ensures |made| > 1 ==> made[1].step == Step(GetQueueUrl(name), Some(name))
    ensures |made| > 2 ==>
      made[2].step == Step(GetQueueAttributes(Told(made[1]).queueUrl), Some(Told(made[1]).queueUrl))
    ensures Complete(made, 3) ==>
      outcome == Produced(QueueValue(DescribeQueue(Told(made[1]).queueUrl, Told(made[2]), env)))
  {
    CreateQueuePlanned(name, env);
    ThreeCalls(CreateQueueJob(name), env, made, outcome, Step(CreateQueue(name), Some(name)),
               Step(GetQueueUrl(name), Some(name)),
               (r: Response) => Step(GetQueueAttributes(r.queueUrl), Some(r.queueUrl)));
  }

  lemma CreateQueuePlanned(name: Str, env: Env)
    ensures var job := CreateQueueJob(name);
      && (forall r :: PlanOf(job, env, [r]) == Ask(Step(GetQueueUrl(name), Some(name))))
      && (forall r, q :: PlanOf(job, env, [r, q]) == Ask(Step(GetQueueAttributes(q.queueUrl), Some(q.queueUrl))))
      && (forall r, q, u :: PlanOf(job, env, [r, q, u])
            == Finish(Produced(QueueValue(DescribeQueue(q.queueUrl, u, env)))))
  {
    forall r: Response ensures [r][1..] == [] {}
    forall r: Response, q: Response ensures [r, q][1..] == [q] {}
    forall r: Response, q: Response, u: Response ensures [r, q, u][1..] == [q, u] {}
  }

  /** Call k asks for the description of the k-th URL listed. */
  ghost predicate AsksForQueue(made: seq<Attempt>, k: nat, urls: seq<Str>) {
    0 < k <= |urls| && Makes(made, k, GetQueueAttributes(urls[k - 1]), "GetQueueAttributes", Some(urls[k - 1]))
  }

  /** A listing call, then one description call per URL in the listed order, until one fails. */
  lemma ListQueuesTrace(env: Env, made: seq<Attempt>, outcome: Outcome)
    requires Conforms(ListQueuesJob, env, made, outcome)
    ensures made != [] && Makes(made, 0, ListQueues, "ListQueues", None)
    ensures forall k :: 0 < k < |made| ==> AsksForQueue(made, k, Told(made[0]).names)
    ensures Complete(made, |Told(made[0]).names| + 1) || EndsEarly(made, outcome)
    ensures Complete(made, |Told(made[0]).names| + 1) ==>
      outcome.Produced? && outcome.value.QueueValues? && ListsQueues(outcome.value.queues, made, env)
  {
    ListingStarts(ListQueuesJob, env, made, outcome, Step(ListQueues, None));
    ListingSettles(ListQueuesJob, env, made, outcome);
    forall k | 0 < k < |made| ensures AsksForQueue(made, k, Told(made[0]).names) {
      QueueCallAt(env, made, outcome, k);
    }
    ListQueuesDecides(env, made, outcome);
    ListQueuesEnds(env, made, outcome);
  }

  lemma QueueCallAt(env: Env, made: seq<Attempt>, outcome: Outcome, k: nat)
    requires Conforms(ListQueuesJob, env, made, outcome) && 0 < k < |made| && Settled(made, outcome)
    ensures AsksForQueue(made, k, Told(made[0]).names)
  {
    ListQueuesAsksAt(env, made, outcome, k);
    HeardFirst(made, k);
    QueuePlanAsks(env, Heard(made[..k]), made[k].step);
  }

  lemma ListQueuesAsksAt(env: Env, made: seq<Attempt>, outcome: Outcome, k: nat)
    requires Conforms(ListQueuesJob, env, made, outcome) && k < |made|
    ensures ListQueuesPlan(env, Heard(made[..k])) == Ask(made[k].step)
  {
    PlanAsks(ListQueuesJob, env, made, outcome, k);
  }

  lemma QueuePlanAsks(env: Env, heard: seq<Response>, step: Step)
    requires heard != [] && ListQueuesPlan(env, heard) == Ask(step)
    ensures |heard| <= |heard[0].names|
    ensures step == Step(GetQueueAttributes(heard[0].names[|heard| - 1]), Some(heard[0].names[|heard| - 1]))
  {}

  lemma ListQueuesDecides(env: Env, made: seq<Attempt>, outcome: Outcome)
    requires Conforms(ListQueuesJob, env, made, outcome) && made != []
    ensures Succeeded(made[|made| - 1]) ==> ListQueuesPlan(env, Heard(made)) == Finish(outcome)
  {
    if Succeeded(made[|made| - 1]) { PlanDecides(ListQueuesJob, env, made, outcome); }
  }

  lemma ListQueuesEnds(env: Env, made: seq<Attempt>, outcome: Outcome)
    requires made != [] && Settled(made, outcome)
    requires forall k :: 0 < k < |made| ==> AsksForQueue(made, k, Told(made[0]).names)
    requires Succeeded(made[|made| - 1]) ==> ListQueuesPlan(env, Heard(made)) == Finish(outcome)
    ensures Complete(made, |Told(made[0]).names| + 1) || EndsEarly(made, outcome)
    ensures Complete(made, |Told(made[0]).names| + 1) ==>
      outcome.Produced? && outcome.value.QueueValues? && ListsQueues(outcome.value.queues, made, env)
  {
    if |made| > 1 { assert AsksForQueue(made, |made| - 1, Told(made[0]).names); }
    if Succeeded(made[|made| - 1]) { QueuesAreListed(env, made, outcome); }
  }

  /** The queue is what the i-th description says. */
  ghost predicate DescribedBy(q: QueueResource, made: seq<Attempt>, i: nat, env: Env)
    requires 0 < i < |made| <= |Told(made[0]).names| + 1
  {
    Describes(q, Told(made[0]).names[i - 1], Told(made[i]), env)
  }

  /** One queue for each description, as it says, ordered by name. */
  ghost predicate ListsQueues(queues: seq<QueueResource>, made: seq<Attempt>, env: Env)
    requires made != [] && |made| <= |Told(made[0]).names| + 1
  {
    && |queues| == |made| - 1 && ServiceMeanings.QueuesByName(queues)
    && (forall q :: q in queues ==> exists i :: 0 < i < |made| && DescribedBy(q, made, i, env))
    && (forall i :: 0 < i < |made| ==> IsListed(queues, made, i, env))
  }

  /** The i-th description is in the listing. */
  ghost predicate IsListed(queues: seq<QueueResource>, made: seq<Attempt>, i: nat, env: Env)
    requires 0 < i < |made| <= |Told(made[0]).names| + 1
  {
    exists q :: q in queues && DescribedBy(q, made, i, env)
  }

  lemma HeardFirst(made: seq<Attempt>, k: nat)
    requires 0 < k <= |made|
    ensures Heard(made[..k])[0] == HeardFrom(made[0]) && |Heard(made[..k])| == k
  {}

  lemma ListingStarts(job: Job, env: Env, made: seq<Attempt>, outcome: Outcome, step: Step)
    requires Conforms(job, env, made, outcome) && PlanOf(job, env, []) == Ask(step)
    ensures made != [] && made[0].step == step
  {
    NoCallDecides(job, env, made, outcome);
    FirstHeard(made);
    PlanAsks(job, env, made, outcome, 0);
  }

  /** Every call succeeded and was heard, or the last one failed and ended the method. */
  ghost predicate Settled(made: seq<Attempt>, outcome: Outcome)
    requires made != []
  {
    && (if Succeeded(made[|made| - 1]) then Complete(made, |made|) else EndsEarly(made, outcome))
    && forall k :: 0 <= k < |made| && Succeeded(made[k]) ==> HeardFrom(made[k]) == Told(made[k])
  }

  lemma ListingSettles(job: Job, env: Env, made: seq<Attempt>, outcome: Outcome)
    requires Conforms(job, env, made, outcome) && made != [] && !job.GetBucketJob?
    ensures Settled(made, outcome)
  {
    forall k | 0 <= k < |made|
      ensures if Succeeded(made[k]) then HeardFrom(made[k]) == Told(made[k])
              else k == |made| - 1 && EndsBy(made[k].answer, outcome)
    {
      PlanAsks(job, env, made, outcome, k);
      NoTagging(job, env, Heard(made[..k]), made[k].step);
      CallSettles(job, env, made, outcome, k);
    }
  }

  /** Only `get_bucket` asks for tags. */
  lemma NoTagging(job: Job, env: Env, heard: seq<Response>, step: Step)
    requires PlanOf(job, env, heard) == Ask(step) && !job.GetBucketJob?
    ensures !step.request.GetBucketTagging?
  {}

  lemma QueuesAreListed(env: Env, made: seq<Attempt>, outcome: Outcome)
    requires Complete(made, |made|) && 0 < |made| <= |Told(made[0]).names| + 1
    requires forall k :: 0 <= k < |made| ==> HeardFrom(made[k]) == Told(made[k])
    requires ListQueuesPlan(env, Heard(made)) == Finish(outcome)
    ensures |made| == |Told(made[0]).names| + 1
    ensures outcome.Produced? && outcome.value.QueueValues? && ListsQueues(outcome.value.queues, made, env)
  {
    var urls, queues := Told(made[0]).names, outcome.value.queues;
    ServiceMeanings.QueuePlanMeans(env, Heard(made), queues);
    var told := Heard(made)[1..|urls| + 1];
    forall i | 0 <= i < |urls| ensures told[i] == Told(made[i + 1]) {
      assert Heard(made)[i + 1] == HeardFrom(made[i + 1]);
    }
    QueuesOfDescriptions(env, made, queues, told);
  }

  lemma QueuesOfDescriptions(env: Env, made: seq<Attempt>, queues: seq<QueueResource>, told: seq<Response>)
    requires made != [] && |made| == |Told(made[0]).names| + 1 && |told| == |Told(made[0]).names|
    requires forall i :: 0 <= i < |told| ==> told[i] == Told(made[i + 1])
    requires multiset(queues) == multiset(DescribeQueues(Told(made[0]).names, told, env))
    requires ServiceMeanings.QueuesByName(queues)
    ensures ListsQueues(queues, made, env)
  {
    var described := DescribeQueues(Told(made[0]).names, told, env);
    SameElements(queues, described);
    forall i | 0 < i < |made| ensures IsListed(queues, made, i, env) {
      DescribedHere(env, made, told, i);
      assert described[i - 1] in described;
    }
    forall q | q in queues ensures exists i :: 0 < i < |made| && DescribedBy(q, made, i, env) {
      var i :| 0 <= i < |described| && described[i] == q;
      DescribedHere(env, made, told, i + 1);
    }
  }

  lemma DescribedHere(env: Env, made: seq<Attempt>, told: seq<Response>, i: nat)
    requires 0 < i < |made| && |made| == |Told(made[0]).names| + 1 && |told| == |Told(made[0]).names|
    requires told[i - 1] == Told(made[i])
    ensures DescribedBy(DescribeQueues(Told(made[0]).names, told, env)[i - 1], made, i, env)
  {
    DescribedQueue(Told(made[0]).names[i - 1], told[i - 1], env);
  }

  lemma SameElements<T>(a: seq<T>, b: seq<T>)
    requires multiset(a) == multiset(b)
    ensures |a| == |b| && forall x :: x in a <==> x in b
  {
    assert |multiset(a)| == |a| && |multiset(b)| == |b|;
    forall x ensures x in a <==> x in b {
      assert x in multiset(a) <==> x in multiset(b);
    }
  }

  // ---- DynamoDB ----

  lemma DeleteTableTrace(name: Str, env: Env, made: seq<Attempt>, outcome: Outcome)
    requires Conforms(DeleteTableJob(name), env, made, outcome)
    ensures |made| == 1 && (Complete(made, 1) || EndsEarly(made, outcome))
    ensures Makes(made, 0, DeleteTable(name), "DeleteTable", Some(name))
    ensures Complete(made, 1) ==> outcome == Produced(NoValue)
  {
    SingleCall(DeleteTableJob(name), env, made, outcome, Step(DeleteTable(name), Some(name)));
  }

  /** The table as its description says, or an untranslated exception if it names no partition key. */
  ghost predicate DescribesTable(outcome: Outcome, t: Table, env: Env) {
    match FirstKey(t.schema, HASH, t.definitions)
    case None => outcome == Crashed
    case Some(key) =>
      && outcome.Produced? && outcome.value.TableValue?
      && var r := outcome.value.table;
         && r.name == t.name && r.arn == t.arn && r.region == env.region && r.status == t.status
         && r.itemCount == t.itemCount && r.partitionKey == key
         && r.sortKey == FirstKey(t.schema, RANGE, t.definitions)
  }

  lemma GetTableTrace(name: Str, env: Env, made: seq<Attempt>, outcome: Outcome)
    requires Conforms(GetTableJob(name), env, made, outcome)
    ensures |made| == 1 && (Complete(made, 1) || EndsEarly(made, outcome))
    ensures Makes(made, 0, DescribeTable(name), "DescribeTable", Some(name))
    ensures Complete(made, 1) ==> DescribesTable(outcome, Told(made[0]).table, env)
  {
    SingleCall(GetTableJob(name), env, made, outcome, Step(DescribeTable(name), Some(name)));
  }

  /** The partition key first, then the sort key if one with a name is given. */
  lemma CreateTableTrace(name: Str, partition: KeyAttribute, sort: Option<KeyAttribute>, env: Env, made: seq<Attempt>,
    outcome: Outcome)
    requires Conforms(CreateTableJob(name, partition, sort), env, made, outcome)
    ensures 1 <= |made| <= 2 && (Complete(made, 2) || EndsEarly(made, outcome))
    ensures made[0].step.request.CreateTable? && made[0].step.request.name == name
    ensures SchemaOf(made[0].step.request.schema, made[0].step.request.definitions, partition, sort)
    ensures Makes(made, 0, made[0].step.request, "CreateTable", Some(name))
    ensures Makes(made, 1, DescribeTable(name), "DescribeTable", Some(name))
    ensures Complete(made, 2) ==> DescribesTable(outcome, Told(made[1]).table, env)
  {
    CreateTableCalls(name, partition, sort, env, made, outcome);
    SchemaMeans(partition, sort);
  }

  ghost predicate SchemaOf(schema: seq<KeySchema>, definitions: seq<AttributeDefinition>, partition: KeyAttribute,
    sort: Option<KeyAttribute>)
  {
    if sort == None || sort.value.name == [] then
      && schema == [KeySchema(partition.name, HASH)]
      && definitions == [AttributeDefinition(partition.name, partition.kind)]
    else
      && schema == [KeySchema(partition.name, HASH), KeySchema(sort.value.name, RANGE)]
      && definitions == [AttributeDefinition(partition.name, partition.kind),
                         AttributeDefinition(sort.value.name, sort.value.kind)]
  }

  lemma SchemaMeans(partition: KeyAttribute, sort: Option<KeyAttribute>)
    ensures SchemaOf(Schema(partition, sort), Definitions(partition, sort), partition, sort)
  {}

  lemma CreateTableCalls(name: Str, partition: KeyAttribute, sort: Option<KeyAttribute>, env: Env, made: seq<Attempt>,
    outcome: Outcome)
    requires Conforms(CreateTableJob(name, partition, sort), env, made, outcome)
    ensures 1 <= |made| <= 2 && (Complete(made, 2) || EndsEarly(made, outcome))
    ensures made[0].step == Step(CreateTable(name, Schema(partition, sort), Definitions(partition, sort)), Some(name))
    ensures |made| > 1 ==> made[1].step == Step(DescribeTable(name), Some(name))
    ensures Complete(made, 2) ==> GetTablePlan(name, env, [Told(made[1])]) == Finish(outcome)
  {
    var job := CreateTableJob(name, partition, sort);
    CreateTablePlanned(job, env);
    TwoCalls(job, env, made, outcome,
             Step(CreateTable(name, Schema(partition, sort), Definitions(partition, sort)), Some(name)),
             (r: Response) => Step(DescribeTable(name), Some(name)));
  }

  lemma CreateTablePlanned(job: Job, env: Env)
    requires job.CreateTableJob?
    ensures forall r :: PlanOf(job, env, [r]) == Ask(Step(DescribeTable(job.name), Some(job.name)))
    ensures forall r, q :: PlanOf(job, env, [r, q]) == GetTablePlan(job.name, env, [q])
  {
    forall r: Response ensures [r][1..] == [] {}
    forall r: Response, q: Response ensures [r, q][1..] == [q] {}
  }

  /** Call k asks for the description of the k-th name listed. */
  ghost predicate AsksForTable(made: seq<Attempt>, k: nat, names: seq<Str>) {
    0 < k <= |names| && Makes(made, k, DescribeTable(names[k - 1]), "DescribeTable", Some(names[k - 1]))
  }

  /** A listing call, then one description call per name in the listed order, until one fails or describes a
      table without partition key. */
  lemma ListTablesTrace(env: Env, made: seq<Attempt>, outcome: Outcome)
    requires Conforms(ListTablesJob, env, made, outcome)
    ensures MakesTableList(env, made, outcome)
  {
    ListTablesGoes(env, made, outcome);
    ListTablesEnds(env, made, outcome);
  }

  ghost predicate MakesTableList(env: Env, made: seq<Attempt>, outcome: Outcome) {
    && made != [] && Makes(made, 0, ListTables, "ListTables", None)
    && (forall k :: 0 < k < |made| ==> AsksForTable(made, k, Told(made[0]).names))
    && (EndsEarly(made, outcome) || TablesListed(env, made, outcome))
  }

  lemma ListTablesGoes(env: Env, made: seq<Attempt>, outcome: Outcome)
    requires Conforms(ListTablesJob, env, made, outcome)
    ensures made != [] && made[0].step == Step(ListTables, None) && Settled(made, outcome)
    ensures forall k :: 0 < k < |made| ==> AsksForTable(made, k, Told(made[0]).names)
    ensures Succeeded(made[|made| - 1]) ==> ListTablesPlan(env, Heard(made)) == Finish(outcome)
  {
    ListingStarts(ListTablesJob, env, made, outcome, Step(ListTables, None));
    ListingSettles(ListTablesJob, env, made, outcome);
    ListTablesDecides(env, made, outcome);
    forall k | 0 < k < |made| ensures AsksForTable(made, k, Told(made[0]).names) {
      TableCallAt(env, made, outcome, k);
    }
  }

  lemma TableCallAt(env: Env, made: seq<Attempt>, outcome: Outcome, k: nat)
    requires Conforms(ListTablesJob, env, made, outcome) && 0 < k < |made| && Settled(made, outcome)
    ensures AsksForTable(made, k, Told(made[0]).names)
  {
    ListTablesAsksAt(env, made, outcome, k);
    HeardFirst(made, k);
    TablePlanAsks(env, Heard(made[..k]), made[k].step);
  }

  lemma ListTablesAsksAt(env: Env, made: seq<Attempt>, outcome: Outcome, k: nat)
    requires Conforms(ListTablesJob, env, made, outcome) && k < |made|
    ensures ListTablesPlan(env, Heard(made[..k])) == Ask(made[k].step)
  {
    PlanAsks(ListTablesJob, env, made, outcome, k);
  }

  lemma TablePlanAsks(env: Env, heard: seq<Response>, step: Step)
    requires heard != [] && ListTablesPlan(env, heard) == Ask(step)
    ensures |heard| <= |heard[0].names|
    ensures step == Step(DescribeTable(heard[0].names[|heard| - 1]), Some(heard[0].names[|heard| - 1]))
  {}

  lemma ListTablesDecides(env: Env, made: seq<Attempt>, outcome: Outcome)
    requires Conforms(ListTablesJob, env, made, outcome) && made != []
    ensures Succeeded(made[|made| - 1]) ==> ListTablesPlan(env, Heard(made)) == Finish(outcome)
  {
    if Succeeded(made[|made| - 1]) { PlanDecides(ListTablesJob, env, made, outcome); }
  }

  lemma ListTablesEnds(env: Env, made: seq<Attempt>, outcome: Outcome)
    requires made != [] && made[0].step == Step(ListTables, None) && Settled(made, outcome)
    requires forall k :: 0 < k < |made| ==> AsksForTable(made, k, Told(made[0]).names)
    requires Succeeded(made[|made| - 1]) ==> ListTablesPlan(env, Heard(made)) == Finish(outcome)
    ensures MakesTableList(env, made, outcome)
  {
    if |made| > 1 { assert AsksForTable(made, |made| - 1, Told(made[0]).names); }
    if Succeeded(made[|made| - 1]) { TablesAreListed(env, made, outcome); }
  }

  /** All calls succeeded: some table has no partition key, which raises untranslated, or all are listed. */
  ghost predicate TablesListed(env: Env, made: seq<Attempt>, outcome: Outcome)
    requires made != []
  {
    && Complete(made, |made|)
    && ((outcome == Crashed && exists k :: 0 < k < |made| && ToTable(Told(made[k]).table, env) == None)
        || (|made| == |Told(made[0]).names| + 1 && outcome.Produced? && outcome.value.TableValues?
            && ListsTables(outcome.value.tables, made, env)))
  }

  /** One table for each description, as it says, ordered by name. */
  ghost predicate ListsTables(tables: seq<TableResource>, made: seq<Attempt>, env: Env)
    requires made != []
  {
    && |tables| == |made| - 1 && ServiceMeanings.TablesByName(tables)
    && (forall t :: t in tables ==> exists k :: 0 < k < |made| && ToTable(Told(made[k]).table, env) == Some(t))
    && (forall k :: 0 < k < |made| ==> exists t :: t in tables && ToTable(Told(made[k]).table, env) == Some(t))
  }

  lemma TablesAreListed(env: Env, made: seq<Attempt>, outcome: Outcome)
    requires Complete(made, |made|) && 0 < |made| <= |Told(made[0]).names| + 1
    requires forall k :: 0 <= k < |made| ==> HeardFrom(made[k]) == Told(made[k])
    requires ListTablesPlan(env, Heard(made)) == Finish(outcome)
    ensures TablesListed(env, made, outcome)
  {
    var told := Heard(made)[1..];
    assert forall i :: 0 <= i < |told| ==> told[i] == Told(made[i + 1]);
    if ToTables(told, env) == None {
      var i :| 0 <= i < |told| && ToTable(told[i].table, env) == None;
      assert ToTable(Told(made[i + 1]).table, env) == None;
    } else {
      var tables := outcome.value.tables;
      ServiceMeanings.TablePlanMeans(env, Heard(made), tables);
      TablesOfDescriptions(env, made, tables, told);
    }
  }

  lemma TablesOfDescriptions(env: Env, made: seq<Attempt>, tables: seq<TableResource>, told: seq<Response>)
    requires |made| == |told| + 1 && forall i :: 0 <= i < |told| ==> told[i] == Told(made[i + 1])
    requires ToTables(told, env).Some? && multiset(tables) == multiset(ToTables(told, env).value)
    requires ServiceMeanings.TablesByName(tables)
    ensures ListsTables(tables, made, env)
  {
    var described := ToTables(told, env).value;
    SameElements(tables, described);
    forall k | 0 < k < |made| ensures exists t :: t in tables && ToTable(Told(made[k]).table, env) == Some(t) {
      assert told[k - 1] == Told(made[k]) && described[k - 1] in described;
    }
    forall t | t in tables ensures exists k :: 0 < k < |made| && ToTable(Told(made[k]).table, env) == Some(t) {
      var i :| 0 <= i < |described| && described[i] == t;
      assert ToTable(Told(made[i + 1]).table, env) == Some(t);
    }
  }

  /** A cursor that cannot be read makes no call; any other makes one scan from where it says. */
  lemma ListItemsTrace(name: Str, pageSize: int, cursor: Option<Str>, env: Env, made: seq<Attempt>, outcome: Outcome)
    requires Conforms(ListItemsJob(name, pageSize, cursor), env, made, outcome)
    ensures match ItemCursor.DecodeItemCursor(cursor)
      case Err(e) => made == [] && outcome == Raised(e)
      case Ok(start) =>
        && |made| == 1 && (Complete(made, 1) || EndsEarly(made, outcome))
        && Makes(made, 0, Scan(name, pageSize, start), "Scan", Some(name))
        && (Complete(made, 1) ==> outcome == ScannedPage(Told(made[0])))
  {
    var job := ListItemsJob(name, pageSize, cursor);
    match ItemCursor.DecodeItemCursor(cursor) {
      case Err(e) => NoCalls(job, env, made, outcome, Raised(e));
      case Ok(start) => SingleCall(job, env, made, outcome, Step(Scan(name, pageSize, start), Some(name)));
    }
  }

  /** A method that ends before its first call. */
  lemma NoCalls(job: Job, env: Env, made: seq<Attempt>, outcome: Outcome, end: Outcome)
    requires Conforms(job, env, made, outcome) && PlanOf(job, env, []) == Finish(end)
    ensures made == [] && outcome == end
  {
    assert Heard(made[..0]) == [];
    PlanAsksIf(job, env, made, outcome, 0);
    NoCallDecides(job, env, made, outcome);
  }

  lemma PutItemTrace(name: Str, item: seq<DynamoValues.Field>, env: Env, made: seq<Attempt>, outcome: Outcome)
    requires Conforms(PutItemJob(name, item), env, made, outcome)
    ensures match DynamoValues.ToAttributeValueMap(item)
      case Err(Refused(e)) => made == [] && outcome == Raised(e)
      case Err(Uncaught) => made == [] && outcome == Crashed
      case Ok(av) =>
        && |made| == 1 && (Complete(made, 1) || EndsEarly(made, outcome))
        && Makes(made, 0, PutItem(name, av), "PutItem", Some(name))
        && (Complete(made, 1) ==> outcome == Produced(ItemValue(item)))
  {
    var job := PutItemJob(name, item);
    match DynamoValues.ToAttributeValueMap(item) {
      case Err(Refused(e)) => NoCalls(job, env, made, outcome, Raised(e));
      case Err(Uncaught) => NoCalls(job, env, made, outcome, Crashed);
      case Ok(av) => SingleCall(job, env, made, outcome, Step(PutItem(name, av), Some(name)));
    }
  }

  lemma DeleteItemTrace(name: Str, key: seq<DynamoValues.Field>, env: Env, made: seq<Attempt>, outcome: Outcome)
    requires Conforms(DeleteItemJob(name, key), env, made, outcome)
    ensures match DynamoValues.ToAttributeValueMap(key)
      case Err(Refused(e)) => made == [] && outcome == Raised(e)
      case Err(Uncaught) => made == [] && outcome == Crashed
      case Ok(av) =>
        && |made| == 1 && (Complete(made, 1) || EndsEarly(made, outcome))
        && Makes(made, 0, DeleteItem(name, av), "DeleteItem", Some(name))
        && (Complete(made, 1) ==> outcome == Produced(NoValue))
  {
    var job := DeleteItemJob(name, key);
    match DynamoValues.ToAttributeValueMap(key) {
      case Err(Refused(e)) => NoCalls(job, env, made, outcome, Raised(e));
      case Err(Uncaught) => NoCalls(job, env, made, outcome, Crashed);
      case Ok(av) => SingleCall(job, env, made, outcome, Step(DeleteItem(name, av), Some(name)));
    }
  }

  // ---- S3 ----

  /** The cursor is looked at only once the call has succeeded. */
  lemma ListBucketsTrace(pageSize: int, cursor: Option<Str>, env: Env, made: seq<Attempt>, outcome: Outcome)
    requires Conforms(ListBucketsJob(pageSize, cursor), env, made, outcome)
    ensures |made| == 1 && (Complete(made, 1) || EndsEarly(made, outcome))
    ensures Makes(made, 0, ListBuckets, "ListBuckets", None)
    ensures Complete(made, 1) ==>
      match Buckets.ListBuckets(Told(made[0]).buckets, env.region, pageSize, cursor, env.unicode)
      case Ok(page) => outcome == Produced(BucketPage(page))
      case Err(Refused(e)) => outcome == Raised(e)
      case Err(TooManyDigits) => outcome == Crashed
  {
    SingleCall(ListBucketsJob(pageSize, cursor), env, made, outcome, Step(ListBuckets, None));
  }

  lemma CreateBucketTrace(name: Str, env: Env, made: seq<Attempt>, outcome: Outcome)
    requires Conforms(CreateBucketJob(name), env, made, outcome)
    ensures |made| == 1 && (Complete(made, 1) || EndsEarly(made, outcome))
    ensures Makes(made, 0, CreateBucket(name, if env.region == "us-east-1" then None else Some(env.region)),
                  "CreateBucket", Some(name))
    ensures Complete(made, 1) ==> outcome == Produced(BucketValue(name, env.region, []))
  {
    SingleCall(CreateBucketJob(name), env, made, outcome,
               Step(CreateBucket(name, if env.region == DEFAULT_REGION then None else Some(env.region)), Some(name)));
  }

  lemma DeleteBucketTrace(name: Str, env: Env, made: seq<Attempt>, outcome: Outcome)
    requires Conforms(DeleteBucketJob(name), env, made, outcome)
    ensures |made| == 1 && (Complete(made, 1) || EndsEarly(made, outcome))
    ensures Makes(made, 0, DeleteBucket(name), "DeleteBucket", Some(name))
    ensures Complete(made, 1) ==> outcome == Produced(NoValue)
  {
    SingleCall(DeleteBucketJob(name), env, made, outcome, Step(DeleteBucket(name), Some(name)));
  }

  /** A call for tags that failed because there is none: an AppError, raised or translated, with code
      RESOURCE_NOT_FOUND. */
  ghost predicate NotFound(a: Answer) {
    a.Ran? && match a.outcome
      case RaisedApp(e) => e.code == RESOURCE_NOT_FOUND
      case RaisedBoto(e) => e.code == RESOURCE_NOT_FOUND
      case _ => false
  }

  lemma TagCallSettles(a: Attempt)
    requires a.step.request.GetBucketTagging?
    ensures if Succeeded(a) then GoesOn(a) && HeardFrom(a) == Told(a)
            else if NotFound(a.answer) then GoesOn(a) && HeardFrom(a) == Nothing
            else !GoesOn(a) && EndsBy(a.answer, StoppedBy(a))
  {
    if a.answer.Injected? { InjectedIsNeverTolerated(a); }
  }

  /** Head, location and tags in this order. The bucket is returned with its tags, or without any exactly if
      the tag call failed because there is none; every other failure ends the method. A missing or empty
      location is us-east-1. */
  lemma GetBucketTrace(name: Str, env: Env, made: seq<Attempt>, outcome: Outcome)
    requires Conforms(GetBucketJob(name), env, made, outcome)
    ensures 1 <= |made| <= 3
    ensures Makes(made, 0, HeadBucket(name), "HeadBucket", Some(name))
    ensures Makes(made, 1, GetBucketLocation(name), "GetBucketLocation", Some(name))
    ensures Makes(made, 2, GetBucketTagging(name), "GetBucketTagging", Some(name))
    ensures |made| < 3 ==> EndsEarly(made, outcome)
    ensures |made| == 3 ==>
      && Succeeded(made[0]) && Succeeded(made[1])
      && var region := match Told(made[1]).location
           case None => "us-east-1"
           case Some(text) => if text == "" then "us-east-1" else text;
         if Succeeded(made[2]) then outcome == Produced(BucketValue(name, region, Dict.FromPairs(Told(made[2]).tags)))
         else if NotFound(made[2].answer) then outcome == Produced(BucketValue(name, region, []))
         else EndsEarly(made, outcome)
  {
    var job := GetBucketJob(name);
    NoCallDecides(job, env, made, outcome);
    FirstHeard(made);
    PlanAsks(job, env, made, outcome, 0);
    CallSettles(job, env, made, outcome, 0);
    assert made[..|made|] == made;
    if |made| > 1 {
      PlanAsks(job, env, made, outcome, 1);
      TwoHeard(made);
      CallSettles(job, env, made, outcome, 1);
    }
    if |made| > 2 {
      PlanAsks(job, env, made, outcome, 2);
      ThreeHeard(made);
      TagCallSettles(made[2]);
      OnlyTheLastStops(job, env, made, outcome, 2);
    }
    PlanAsksIf(job, env, made, outcome, 3);
    AllWentOn(job, env, made, outcome);
  }

  /** After calls that all went on, and no more, the plan decides. */
  lemma AllWentOn(job: Job, env: Env, made: seq<Attempt>, outcome: Outcome)
    requires Conforms(job, env, made, outcome)
    ensures made == [] || GoesOn(made[|made| - 1]) ==> PlanOf(job, env, Heard(made)) == Finish(outcome)
  {}
}
