/** The queue service: every method is a sequence of calls through `_call`. */
module SqsService {
  import opened Wrappers
  import opened Text
  import opened ServicePlans
  import opened CallSession
  import Rec = Recording
  import Sorting

  class SqsService {
    const session: CallSession

    constructor (session: CallSession)
      ensures this.session == session
    {
      this.session := session;
    }

    method ListQueues() returns (outcome: Outcome, ghost made: seq<Attempt>)
      requires session.Valid()
      modifies session
      ensures session.Valid() && session.Made(old(session.attempts), old(session.records), made)
      ensures Conforms(ListQueuesJob, session.env, made, outcome)
    {
      ghost var before, recorded := session.attempts, session.records;
      NoCallsYet(ListQueuesJob, session.env, session.caller);
      var listed;
      listed, made := session.Perform(Step(Request.ListQueues, None), ListQueuesJob, [], before, recorded);
      if !listed.Got? {
        return Passed(listed), made;
      }
      outcome, made := DescribeAll(listed.response, made, before, recorded);
    }

    /** The queues of a listing: each described in turn, then sorted by name. */
    method DescribeAll(listed: Response, ghost first: seq<Attempt>, ghost before: seq<Attempt>,
      ghost recorded: seq<Rec.Report>) returns (outcome: Outcome, ghost made: seq<Attempt>)
      requires session.Valid() && session.Made(before, recorded, first)
      requires Underway(ListQueuesJob, session.env, first) && Heard(first) == [listed]
      modifies session
      ensures session.Valid() && session.Made(before, recorded, made)
      ensures Conforms(ListQueuesJob, session.env, made, outcome)
    {
      made := first;
      var urls, queues := listed.names, [];
      ghost var heard: seq<Response> := [];
      for i := 0 to |urls|
        invariant session.Valid() && session.Made(before, recorded, made)
        invariant |heard| == i && Underway(ListQueuesJob, session.env, made) && Heard(made) == [listed] + heard
        invariant queues == DescribeQueues(urls[..i], heard, session.env)
      {
        var reply;
        DescribeNext(urls, heard, listed, session.env, i);
        reply, made := session.Perform(Step(GetQueueAttributes(urls[i]), Some(urls[i])), ListQueuesJob, made,
                                       before, recorded);
        if !reply.Got? {
          return Passed(reply), made;
        }
        queues := queues + [DescribeQueue(urls[i], reply.response, session.env)];
        DescribedNext(urls, heard, reply.response, session.env, i);
        Regroup([listed], heard, [reply.response]);
        heard := heard + [reply.response];
      }
      outcome := Produced(QueueValues(Sorting.Sort(queues, QueueOrder)));
      AllDescribed(urls, heard, listed, session.env);
    }

    method CreateQueue(name: Str) returns (outcome: Outcome, ghost made: seq<Attempt>)
      requires session.Valid()
      modifies session
      ensures session.Valid() && session.Made(old(session.attempts), old(session.records), made)
      ensures Conforms(CreateQueueJob(name), session.env, made, outcome)
    {
      ghost var before, recorded, job := session.attempts, session.records, CreateQueueJob(name);
      NoCallsYet(job, session.env, session.caller);
      var reply;
      reply, made := session.Perform(Step(Request.CreateQueue(name), Some(name)), job, [], before, recorded);
      if !reply.Got? {
        return Passed(reply), made;
      }
      outcome, made := Describe(name, job, made, before, recorded);
    }

    method GetQueue(name: Str) returns (outcome: Outcome, ghost made: seq<Attempt>)
      requires session.Valid()
      modifies session
      ensures session.Valid() && session.Made(old(session.attempts), old(session.records), made)
      ensures Conforms(GetQueueJob(name), session.env, made, outcome)
    {
      NoCallsYet(GetQueueJob(name), session.env, session.caller);
      outcome, made := Describe(name, GetQueueJob(name), [], session.attempts, session.records);
    }

    /** `_get_queue_url` and then `_describe_queue`. */
    method Describe(name: Str, ghost job: Job, ghost first: seq<Attempt>, ghost before: seq<Attempt>,
      ghost recorded: seq<Rec.Report>) returns (outcome: Outcome, ghost made: seq<Attempt>)
      requires session.Valid() && session.Made(before, recorded, first) && Underway(job, session.env, first)
      requires (job == GetQueueJob(name) && first == []) || (job == CreateQueueJob(name) && |first| == 1)
      modifies session
      ensures session.Valid() && session.Made(before, recorded, made)
      ensures Conforms(job, session.env, made, outcome)
    {
      ghost var f := Heard(first);
      var reply;
      reply, made := session.Perform(Step(GetQueueUrl(name), Some(name)), job, first, before, recorded);
      if !reply.Got? {
        return Passed(reply), made;
      }
      var url, found := reply.response.queueUrl, reply.response;
      DescribeSteps(job, name, session.env, f, found, Nothing);
      reply, made := session.Perform(Step(GetQueueAttributes(url), Some(url)), job, made, before, recorded);
      if !reply.Got? {
        return Passed(reply), made;
      }
      outcome := Produced(QueueValue(DescribeQueue(url, reply.response, session.env)));
      DescribeSteps(job, name, session.env, f, found, reply.response);
    }

    method DeleteQueue(name: Str) returns (outcome: Outcome, ghost made: seq<Attempt>)
      requires session.Valid()
      modifies session
      ensures session.Valid() && session.Made(old(session.attempts), old(session.records), made)
      ensures Conforms(DeleteQueueJob(name), session.env, made, outcome)
    {
      var reply, url;
      reply, url, made := Resolve(DeleteQueueJob(name), session.attempts, session.records);
      if !reply.Got? {
        return Passed(reply), made;
      }
      reply, made := Finally(name, Request.DeleteQueue(url), DeleteQueueJob(name), url, made,
                             old(session.attempts), old(session.records));
      outcome := if reply.Got? then Produced(NoValue) else Passed(reply);
    }

    method SendMessage(name: Str, body: Str) returns (outcome: Outcome, ghost made: seq<Attempt>)
      requires session.Valid()
      modifies session
      ensures session.Valid() && session.Made(old(session.attempts), old(session.records), made)
      ensures Conforms(SendMessageJob(name, body), session.env, made, outcome)
    {
      var reply, url;
      reply, url, made := Resolve(SendMessageJob(name, body), session.attempts, session.records);
      if !reply.Got? {
        return Passed(reply), made;
      }
      reply, made := Finally(name, Request.SendMessage(url, body), SendMessageJob(name, body), url, made,
                             old(session.attempts), old(session.records));
      if !reply.Got? {
        return Passed(reply), made;
      }
      outcome := Produced(MessageValue(MessageResource(reply.response.messageId, [], body, None, None)));
    }

    method ReceiveMessages(name: Str, maxMessages: int) returns (outcome: Outcome, ghost made: seq<Attempt>)
      requires session.Valid()
      modifies session
      ensures session.Valid() && session.Made(old(session.attempts), old(session.records), made)
      ensures Conforms(ReceiveMessagesJob(name, maxMessages), session.env, made, outcome)
    {
      var reply, url;
      reply, url, made := Resolve(ReceiveMessagesJob(name, maxMessages), session.attempts, session.records);
      if !reply.Got? {
        return Passed(reply), made;
      }
      reply, made := Finally(name, ReceiveMessage(url, ReceiveLimit(maxMessages)),
                             ReceiveMessagesJob(name, maxMessages), url, made,
                             old(session.attempts), old(session.records));
      outcome := if reply.Got? then Produced(MessageValues(ReceiveAll(reply.response.messages, session.env)))
                 else Passed(reply);
    }

    method DeleteMessage(name: Str, receiptHandle: Str) returns (outcome: Outcome, ghost made: seq<Attempt>)
      requires session.Valid()
      modifies session
      ensures session.Valid() && session.Made(old(session.attempts), old(session.records), made)
      ensures Conforms(DeleteMessageJob(name, receiptHandle), session.env, made, outcome)
    {
      var reply, url;
      reply, url, made := Resolve(DeleteMessageJob(name, receiptHandle), session.attempts, session.records);
      if !reply.Got? {
        return Passed(reply), made;
      }
      reply, made := Finally(name, Request.DeleteMessage(url, receiptHandle),
                             DeleteMessageJob(name, receiptHandle), url, made,
                             old(session.attempts), old(session.records));
      outcome := if reply.Got? then Produced(NoValue) else Passed(reply);
    }

    /** `_get_queue_url`, the first call of the methods that address a queue. */
    method Resolve(job: Job, ghost before: seq<Attempt>, ghost recorded: seq<Rec.Report>)
      returns (reply: Reply, url: Str, ghost made: seq<Attempt>)
      requires session.Valid() && before == session.attempts && recorded == session.records && Addresses(job)
      modifies session
      ensures session.Valid() && session.Made(before, recorded, made)
      ensures if reply.Got? then Underway(job, session.env, made) && Resolved(made, url)
              else Conforms(job, session.env, made, Passed(reply))
    {
      NoCallsYet(job, session.env, session.caller);
      reply, made := session.Perform(Step(GetQueueUrl(job.name), Some(job.name)), job, [], before, recorded);
      url := if reply.Got? then reply.response.queueUrl else [];
    }

    /** The last call of those methods. */
    method Finally(name: Str, request: Request, ghost job: Job, ghost url: Str, ghost first: seq<Attempt>,
      ghost before: seq<Attempt>, ghost recorded: seq<Rec.Report>) returns (reply: Reply, ghost made: seq<Attempt>)
      requires session.Valid() && session.Made(before, recorded, first) && Underway(job, session.env, first)
      requires Addresses(job) && job.name == name && Resolved(first, url) && request == QueueRequest(job, url)
      modifies session
      ensures session.Valid() && session.Made(before, recorded, made)
      ensures Conforms(job, session.env, made,
        if reply.Got? then Produced(QueueResult(job, session.env, reply.response)) else Passed(reply))
    {
      ghost var found := Heard(first)[0];
      assert Heard(first) == [found];
      AddressSteps(job, session.env, found, Nothing);
      reply, made := session.Perform(Step(request, Some(name)), job, first, before, recorded);
      if reply.Got? { AddressSteps(job, session.env, found, reply.response); }
    }
  }

  predicate Addresses(job: Job) {
    job.DeleteQueueJob? || job.SendMessageJob? || job.ReceiveMessagesJob? || job.DeleteMessageJob?
  }

  /** One call was made and its response gave the queue's URL. */
  ghost predicate Resolved(made: seq<Attempt>, url: Str) {
    |made| == 1 && HeardFrom(made[0]).queueUrl == url
  }

  lemma AddressSteps(job: Job, env: Env, found: Response, last: Response)
    requires Addresses(job)
    ensures PlanOf(job, env, [found]) == Ask(Step(QueueRequest(job, found.queueUrl), Some(job.name)))
    ensures PlanOf(job, env, [found] + [last]) == Finish(Produced(QueueResult(job, env, last)))
  {}

  lemma DescribeSteps(job: Job, name: Str, env: Env, first: seq<Response>, found: Response, last: Response)
    requires (job == GetQueueJob(name) && first == []) || (job == CreateQueueJob(name) && |first| == 1)
    ensures PlanOf(job, env, first + [found]) == Ask(Step(GetQueueAttributes(found.queueUrl), Some(found.queueUrl)))
    ensures PlanOf(job, env, first + [found] + [last])
         == Finish(Produced(QueueValue(DescribeQueue(found.queueUrl, last, env))))
  {
    if job.CreateQueueJob? {
      assert (first + [found])[1..] == [found] && (first + [found] + [last])[1..] == [found] + [last];
    }
  }

  lemma DescribeNext(urls: seq<Str>, heard: seq<Response>, listed: Response, env: Env, i: nat)
    requires listed.names == urls && |heard| == i < |urls|
    ensures PlanOf(ListQueuesJob, env, [listed] + heard) == Ask(Step(GetQueueAttributes(urls[i]), Some(urls[i])))
  {}

  lemma DescribedNext(urls: seq<Str>, heard: seq<Response>, r: Response, env: Env, i: nat)
    requires |heard| == i < |urls|
    ensures DescribeQueues(urls[..i + 1], heard + [r], env)
         == DescribeQueues(urls[..i], heard, env) + [DescribeQueue(urls[i], r, env)]
  {}

  lemma AllDescribed(urls: seq<Str>, heard: seq<Response>, listed: Response, env: Env)
    requires listed.names == urls && |heard| == |urls|
    ensures PlanOf(ListQueuesJob, env, [listed] + heard)
         == Finish(Produced(QueueValues(Sorting.Sort(DescribeQueues(urls[..|urls|], heard, env), QueueOrder))))
  {
    assert urls[..|urls|] == urls;
    assert ([listed] + heard)[1..|urls| + 1] == heard;
  }
}
