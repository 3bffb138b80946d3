/** The bucket service: calls through `_call`, one of whose errors is swallowed. */
module S3Service {
  import opened Wrappers
  import opened Dict
  import opened Errors
  import opened Text
  import opened ServicePlans
  import opened CallSession
  import Buckets
  import Rec = Recording

  class S3Service {
    const session: CallSession

    constructor (session: CallSession)
      ensures this.session == session
    {
      this.session := session;
    }

    /** The cursor is looked at only after the call succeeded. */
    method ListBuckets(pageSize: int, cursor: Option<Str>) returns (outcome: Outcome, ghost made: seq<Attempt>)
      requires session.Valid()
      modifies session
      ensures session.Valid() && session.Made(old(session.attempts), old(session.records), made)
      ensures Conforms(ListBucketsJob(pageSize, cursor), session.env, made, outcome)
    {
      ghost var job := ListBucketsJob(pageSize, cursor);
      NoCallsYet(job, session.env, session.caller);
      var reply;
      reply, made := session.Perform(Step(Request.ListBuckets, None), job, [], session.attempts, session.records);
      if !reply.Got? {
        return Passed(reply), made;
      }
      var page := Buckets.ListBuckets(reply.response.buckets, session.env.region, pageSize, cursor,
          session.env.unicode);
      match page {
        case Ok(p) => outcome := Produced(BucketPage(p));
        case Err(Refused(e)) => outcome := Raised(e);
        case Err(TooManyDigits) => outcome := Crashed;
      }
    }

    method CreateBucket(name: Str) returns (outcome: Outcome, ghost made: seq<Attempt>)
      requires session.Valid()
      modifies session
      ensures session.Valid() && session.Made(old(session.attempts), old(session.records), made)
      ensures Conforms(CreateBucketJob(name), session.env, made, outcome)
    {
      var region := session.env.region;
      NoCallsYet(CreateBucketJob(name), session.env, session.caller);
      var location := if region == DEFAULT_REGION then None else Some(region);
      var reply;
      reply, made := session.Perform(Step(Request.CreateBucket(name, location), Some(name)), CreateBucketJob(name), [],
                                     session.attempts, session.records);
      outcome := if reply.Got? then Produced(BucketValue(name, region, [])) else Passed(reply);
    }

    method DeleteBucket(name: Str) returns (outcome: Outcome, ghost made: seq<Attempt>)
      requires session.Valid()
      modifies session
      ensures session.Valid() && session.Made(old(session.attempts), old(session.records), made)
      ensures Conforms(DeleteBucketJob(name), session.env, made, outcome)
    {
      NoCallsYet(DeleteBucketJob(name), session.env, session.caller);
      var reply;
      reply, made := session.Perform(Step(Request.DeleteBucket(name), Some(name)), DeleteBucketJob(name), [],
                                     session.attempts, session.records);
      outcome := if reply.Got? then Produced(NoValue) else Passed(reply);
    }

    method GetBucket(name: Str) returns (outcome: Outcome, ghost made: seq<Attempt>)
      requires session.Valid()
      modifies session
      ensures session.Valid() && session.Made(old(session.attempts), old(session.records), made)
      ensures Conforms(GetBucketJob(name), session.env, made, outcome)
    {
      ghost var before, recorded, job := session.attempts, session.records, GetBucketJob(name);
      NoCallsYet(job, session.env, session.caller);
      var reply;
      reply, made := session.Perform(Step(HeadBucket(name), Some(name)), job, [], before, recorded);
      if !reply.Got? {
        return Passed(reply), made;
      }
      ghost var head := reply.response;
      GetSteps(name, session.env, head, Nothing, Nothing);
      reply, made := session.Perform(Step(GetBucketLocation(name), Some(name)), job, made, before, recorded);
      if !reply.Got? {
        return Passed(reply), made;
      }
      outcome, made := Tagged(name, head, reply.response, made, before, recorded);
    }

    /** `_get_bucket_tags` and the bucket it completes: a missing tag set is an empty one. */
    method Tagged(name: Str, ghost head: Response, location: Response, ghost first: seq<Attempt>,
      ghost before: seq<Attempt>, ghost recorded: seq<Rec.Report>) returns (outcome: Outcome, ghost made: seq<Attempt>)
      requires session.Valid() && session.Made(before, recorded, first)
      requires Underway(GetBucketJob(name), session.env, first) && Heard(first) == [head] + [location]
      modifies session
      ensures session.Valid() && session.Made(before, recorded, made)
      ensures Conforms(GetBucketJob(name), session.env, made, outcome)
    {
      var reply;
      GetSteps(name, session.env, head, location, Nothing);
      reply, made := session.Perform(Step(GetBucketTagging(name), Some(name)), GetBucketJob(name), first, before,
          recorded);
      var tags: seq<Entry<Str, Str>>;
      match reply {
        case Got(response) =>
          tags := response.tags;
          GetSteps(name, session.env, head, location, response);
        case Threw(e) =>
          if e.code != RESOURCE_NOT_FOUND {
            return Raised(e), made;
          }
          tags := [];
        case Broke => return Crashed, made;
      }
      outcome := Produced(BucketValue(name, RegionOf(location), FromPairs(tags)));
    }
  }

  lemma GetSteps(name: Str, env: Env, head: Response, location: Response, tagging: Response)
    ensures var job := GetBucketJob(name);
      && PlanOf(job, env, [head]) == Ask(Step(GetBucketLocation(name), Some(name)))
      && PlanOf(job, env, [head] + [location]) == Ask(Step(GetBucketTagging(name), Some(name)))
      && PlanOf(job, env, [head] + [location] + [tagging])
           == Finish(Produced(BucketValue(name, RegionOf(location), FromPairs(tagging.tags))))
  {}
}
