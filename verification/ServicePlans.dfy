/** What each service method asks the provider for, call by call, and what it makes of the answers. */
module ServicePlans {
  import opened Wrappers
  import opened Errors
  import opened Text
  import opened Dict
  import opened Pipeline
  import Buckets
  import DynamoValues
  import Integers
  import ItemCursor
  import Json
  import Pagination
  import Sorting

  // ---- requests and responses ----

  datatype KeyRole = HASH | RANGE

  datatype KeySchema = KeySchema(attribute: Str, role: KeyRole)

  datatype AttributeDefinition = AttributeDefinition(attribute: Str, kind: Str)

  /** The boto3 client call behind one `_call`, with its arguments. */
  datatype Request =
    | ListBuckets
    | CreateBucket(name: Str, location: Option<string>)
    | DeleteBucket(name: Str)
    | HeadBucket(name: Str)
    | GetBucketLocation(name: Str)
    | GetBucketTagging(name: Str)
    | ListQueues
    | CreateQueue(name: Str)
    | GetQueueUrl(name: Str)
    | GetQueueAttributes(url: Str)
    | DeleteQueue(url: Str)
    | SendMessage(url: Str, body: Str)
    | ReceiveMessage(url: Str, maxMessages: int)
    | DeleteMessage(url: Str, receiptHandle: Str)
    | ListTables
    | CreateTable(name: Str, schema: seq<KeySchema>, definitions: seq<AttributeDefinition>)
    | DeleteTable(name: Str)
    | DescribeTable(name: Str)
    | Scan(name: Str, limit: int, startKey: Option<Json.Json>)
    | PutItem(name: Str, item: seq<DynamoValues.AttributeField>)
    | DeleteItem(name: Str, key: seq<DynamoValues.AttributeField>)

  function OperationName(r: Request): string {
    match r
    case ListBuckets => "ListBuckets"
    case CreateBucket(_, _) => "CreateBucket"
    case DeleteBucket(_) => "DeleteBucket"
    case HeadBucket(_) => "HeadBucket"
    case GetBucketLocation(_) => "GetBucketLocation"
    case GetBucketTagging(_) => "GetBucketTagging"
    case ListQueues => "ListQueues"
    case CreateQueue(_) => "CreateQueue"
    case GetQueueUrl(_) => "GetQueueUrl"
    case GetQueueAttributes(_) => "GetQueueAttributes"
    case DeleteQueue(_) => "DeleteQueue"
    case SendMessage(_, _) => "SendMessage"
    case ReceiveMessage(_, _) => "ReceiveMessage"
    case DeleteMessage(_, _) => "DeleteMessage"
    case ListTables => "ListTables"
    case CreateTable(_, _, _) => "CreateTable"
    case DeleteTable(_) => "DeleteTable"
    case DescribeTable(_) => "DescribeTable"
    case Scan(_, _, _) => "Scan"
    case PutItem(_, _) => "PutItem"
    case DeleteItem(_, _) => "DeleteItem"
  }

  /** One `_call`: what it asks for and the resource it is recorded under. */
  datatype Step = Step(request: Request, resource: Option<Str>)

  datatype Message = Message(messageId: Str, receiptHandle: Str, body: Str, sentTimestamp: Option<Str>,
      receiveCount: Option<Str>)

  datatype Table = Table(name: Str, arn: Str, status: Str, itemCount: int, schema: seq<KeySchema>,
                         definitions: seq<AttributeDefinition>)

  /** The fields the services read from a response; those its operation does not return are empty. */
  datatype Response = Response(
    buckets: seq<Buckets.Bucket>,
    location: Option<string>,
    tags: seq<Entry<Str, Str>>,
    names: seq<Str>,
    queueUrl: Str,
    queueArn: Option<Str>,
    queueCreated: Option<Str>,
    queueMessages: Option<Str>,
    messageId: Str,
    messages: seq<Message>,
    table: Table,
    items: seq<seq<DynamoValues.AttributeField>>,
    lastKey: ItemCursor.Key)

  const NoTable := Table([], [], [], 0, [], [])

  const Nothing := Response([], None, [], [], [], None, None, None, [], [], NoTable, [], [])

  // ---- what comes back ----

  type Failing = f: FailureType | f != LATENCY witness HTTP_500

  /** How one `_call` went: the injector raised, or the real call was made and ended. */
  datatype Answer = Injected(failure: Failing) | Ran(outcome: FnOutcome, response: Response)

  function EndOfAnswer(a: Answer): End {
    match a
    case Injected(f) => Failure(InjectedError(f))
    case Ran(outcome, _) => EndOf(outcome)
  }

  /** One `_call` as it went, with the time it took. */
  datatype Attempt = Attempt(step: Step, answer: Answer, durationMs: real)

  function EndOfAttempt(a: Attempt): End {
    EndOfAnswer(a.answer)
  }

  // ---- what a service method returns ----

  datatype QueueResource = QueueResource(name: Str, url: Str, arn: Str, region: string, createdAt: Option<int>,
      messages: int)

  datatype MessageResource = MessageResource(messageId: Str, receiptHandle: Str, body: Str, sentAtMs: Option<int>,
                                             receiveCount: Option<int>)

  datatype KeyAttribute = KeyAttribute(name: Str, kind: Str)

  datatype TableResource = TableResource(name: Str, arn: Str, region: string, status: Str, itemCount: int,
                                         partitionKey: KeyAttribute, sortKey: Option<KeyAttribute>)

  datatype Value =
    | NoValue
    | BucketValue(name: Str, region: string, tags: seq<Entry<Str, Str>>)
    | BucketPage(page: Buckets.Page)
    | QueueValue(queue: QueueResource)
    | QueueValues(queues: seq<QueueResource>)
    | MessageValue(message: MessageResource)
    | MessageValues(messages: seq<MessageResource>)
    | TableValue(table: TableResource)
    | TableValues(tables: seq<TableResource>)
    | ItemValue(item: seq<DynamoValues.Field>)
    | ItemPage(items: seq<seq<DynamoValues.Field>>, next: Option<Str>)

  /** `Crashed` is any exception that is not an AppError. */
  datatype Outcome = Produced(value: Value) | Raised(error: AppError) | Crashed

  /** The next call of a method, or its end when no call has failed. */
  datatype Plan = Ask(step: Step) | Finish(outcome: Outcome)

  /** A service method with its arguments. */
  datatype Job =
    | ListBucketsJob(pageSize: int, cursor: Option<Str>)
    | CreateBucketJob(name: Str)
    | DeleteBucketJob(name: Str)
    | GetBucketJob(name: Str)
    | ListQueuesJob
    | CreateQueueJob(name: Str)
    | DeleteQueueJob(name: Str)
    | GetQueueJob(name: Str)
    | SendMessageJob(name: Str, body: Str)
    | ReceiveMessagesJob(name: Str, maxMessages: int)
    | DeleteMessageJob(name: Str, receiptHandle: Str)
    | ListTablesJob
    | CreateTableJob(name: Str, partition: KeyAttribute, sort: Option<KeyAttribute>)
    | DeleteTableJob(name: Str)
    | GetTableJob(name: Str)
    | ListItemsJob(name: Str, pageSize: int, cursor: Option<Str>)
    | PutItemJob(name: Str, item: seq<DynamoValues.Field>)
    | DeleteItemJob(name: Str, key: seq<DynamoValues.Field>)

  /** The client's region and the Unicode tables `int` consults. */
  datatype Env = Env(region: string, unicode: Integers.UnicodeDatabase)

  // ---- SQS ----

  const SLASH: CodePoint := 47

  function StripSlashes(s: Str): Str {
    if s != [] && s[|s| - 1] == SLASH then StripSlashes(s[..|s| - 1]) else s
  }

  /** What follows the last slash. */
  function LastSegment(s: Str): Str {
    if s == [] || s[|s| - 1] == SLASH then [] else LastSegment(s[..|s| - 1]) + [s[|s| - 1]]
  }

  /** The last part of the URL, trailing slashes aside. */
  function QueueName(url: Str): Str {
    LastSegment(StripSlashes(url))
  }

  /** The number an attribute text denotes; none for a missing or unreadable one. */
  function ToInt(value: Option<Str>, unicode: Integers.UnicodeDatabase): Option<int> {
    if value == None then None else Integers.Parse(value.value, unicode)
  }

  function DescribeQueue(url: Str, r: Response, env: Env): QueueResource {
    var count := ToInt(r.queueMessages, env.unicode);
    QueueResource(QueueName(url), url, if r.queueArn == None then [] else r.queueArn.value, env.region,
                  ToInt(r.queueCreated, env.unicode), if count == None then 0 else count.value)
  }

  predicate QueueOrder(a: QueueResource, b: QueueResource) {
    Le(a.name, b.name)
  }

  function DescribeQueues(urls: seq<Str>, heard: seq<Response>, env: Env): (q: seq<QueueResource>)
    requires |urls| == |heard|
    ensures |q| == |urls|
    ensures forall i :: 0 <= i < |q| ==> q[i] == DescribeQueue(urls[i], heard[i], env)
  {
    seq(|urls|, i requires 0 <= i < |urls| => DescribeQueue(urls[i], heard[i], env))
  }

  function ListQueuesPlan(env: Env, heard: seq<Response>): Plan {
    if heard == [] then Ask(Step(ListQueues, None))
    else
      var urls := heard[0].names;
      if |heard| <= |urls| then
        var url := urls[|heard| - 1];
        Ask(Step(GetQueueAttributes(url), Some(url)))
      else
        Finish(Produced(QueueValues(Sorting.Sort(DescribeQueues(urls, heard[1..|urls| + 1], env), QueueOrder))))
  }

  /** `_get_queue_url` and then `_describe_queue`, as the calls from the first on. */
  function GetQueuePlan(name: Str, env: Env, heard: seq<Response>): Plan {
    if heard == [] then Ask(Step(GetQueueUrl(name), Some(name)))
    else
      var url := heard[0].queueUrl;
      if |heard| == 1 then Ask(Step(GetQueueAttributes(url), Some(url)))
      else Finish(Produced(QueueValue(DescribeQueue(url, heard[1], env))))
  }

  function CreateQueuePlan(name: Str, env: Env, heard: seq<Response>): Plan {
    if heard == [] then Ask(Step(CreateQueue(name), Some(name))) else GetQueuePlan(name, env, heard[1..])
  }

  function Receive(m: Message, env: Env): MessageResource {
    MessageResource(m.messageId, m.receiptHandle, m.body,
                    ToInt(m.sentTimestamp, env.unicode), ToInt(m.receiveCount, env.unicode))
  }

  function ReceiveAll(messages: seq<Message>, env: Env): (r: seq<MessageResource>)
    ensures |r| == |messages|
    ensures forall i :: 0 <= i < |r| ==> r[i] == Receive(messages[i], env)
  {
    seq(|messages|, i requires 0 <= i < |messages| => Receive(messages[i], env))
  }

  /** The number of messages asked for, kept between 1 and the 10 SQS allows. */
  function ReceiveLimit(n: int): int {
    if n < 1 then 1 else if n > 10 then 10 else n
  }

  /** The methods that look a queue's URL up and then make one call with it. */
  function QueuePlan(job: Job, env: Env, heard: seq<Response>): Plan
    requires job.DeleteQueueJob? || job.SendMessageJob? || job.ReceiveMessagesJob? || job.DeleteMessageJob?
  {
    if heard == [] then Ask(Step(GetQueueUrl(job.name), Some(job.name)))
    else
      var url := heard[0].queueUrl;
      if |heard| == 1 then Ask(Step(QueueRequest(job, url), Some(job.name)))
      else Finish(Produced(QueueResult(job, env, heard[1])))
  }

  function QueueRequest(job: Job, url: Str): Request
    requires job.DeleteQueueJob? || job.SendMessageJob? || job.ReceiveMessagesJob? || job.DeleteMessageJob?
  {
    match job
    case DeleteQueueJob(_) => DeleteQueue(url)
    case SendMessageJob(_, body) => SendMessage(url, body)
    case ReceiveMessagesJob(_, n) => ReceiveMessage(url, ReceiveLimit(n))
    case DeleteMessageJob(_, receiptHandle) => DeleteMessage(url, receiptHandle)
  }

  function QueueResult(job: Job, env: Env, r: Response): Value {
    match job
    case SendMessageJob(_, body) => MessageValue(MessageResource(r.messageId, [], body, None, None))
    case ReceiveMessagesJob(_, _) => MessageValues(ReceiveAll(r.messages, env))
    case _ => NoValue
  }

  // ---- DynamoDB ----

  function KindOf(definitions: seq<AttributeDefinition>, attribute: Str): Str {
    if definitions == [] then [83]
    else
      var last := definitions[|definitions| - 1];
      if last.attribute == attribute then last.kind else KindOf(definitions[..|definitions| - 1], attribute)
  }

  function FirstKey(schema: seq<KeySchema>, role: KeyRole, definitions: seq<AttributeDefinition>):
    Option<KeyAttribute>
  {
    if schema == [] then None
    else if schema[0].role == role then
      Some(KeyAttribute(schema[0].attribute, KindOf(definitions, schema[0].attribute)))
    else FirstKey(schema[1..], role, definitions)
  }

  /** None where a table has no partition key: `next` raises. */
  function ToTable(t: Table, env: Env): Option<TableResource> {
    match FirstKey(t.schema, HASH, t.definitions)
    case None => None
    case Some(key) =>
      Some(TableResource(t.name, t.arn, env.region, t.status, t.itemCount, key,
                         FirstKey(t.schema, RANGE, t.definitions)))
  }

  function ToTables(heard: seq<Response>, env: Env): (t: Option<seq<TableResource>>)
    ensures t.Some? ==> |t.value| == |heard|
    ensures t.Some? ==> forall i :: 0 <= i < |heard| ==> ToTable(heard[i].table, env) == Some(t.value[i])
    ensures t == None ==> exists i :: 0 <= i < |heard| && ToTable(heard[i].table, env) == None
  {
    if heard == [] then Some([])
    else
      var last, before := ToTable(heard[|heard| - 1].table, env), ToTables(heard[..|heard| - 1], env);
      if last == None || before == None then None else Some(before.value + [last.value])
  }

  predicate TableOrder(a: TableResource, b: TableResource) {
    Le(a.name, b.name)
  }

  function ListTablesPlan(env: Env, heard: seq<Response>): Plan {
    if heard == [] then Ask(Step(ListTables, None))
    else
      var names, tables := heard[0].names, ToTables(heard[1..], env);
      if tables == None then Finish(Crashed)
      else if |heard| <= |names| then
        var name := names[|heard| - 1];
        Ask(Step(DescribeTable(name), Some(name)))
      else Finish(Produced(TableValues(Sorting.Sort(tables.value, TableOrder))))
  }

  function GetTablePlan(name: Str, env: Env, heard: seq<Response>): Plan {
    if heard == [] then Ask(Step(DescribeTable(name), Some(name)))
    else
      match ToTable(heard[0].table, env)
      case None => Finish(Crashed)
      case Some(t) => Finish(Produced(TableValue(t)))
  }

  /** An empty sort key name is no sort key. */
  function Schema(partition: KeyAttribute, sort: Option<KeyAttribute>): seq<KeySchema> {
    [KeySchema(partition.name, HASH)]
    + if sort == None || sort.value.name == [] then [] else [KeySchema(sort.value.name, RANGE)]
  }

  function Definitions(partition: KeyAttribute, sort: Option<KeyAttribute>): seq<AttributeDefinition> {
    [AttributeDefinition(partition.name, partition.kind)]
    + if sort == None || sort.value.name == [] then [] else [AttributeDefinition(sort.value.name, sort.value.kind)]
  }

  function CreateTablePlan(job: Job, env: Env, heard: seq<Response>): Plan
    requires job.CreateTableJob?
  {
    if heard == [] then
      Ask(Step(CreateTable(job.name, Schema(job.partition, job.sort), Definitions(job.partition, job.sort)),
          Some(job.name)))
    else GetTablePlan(job.name, env, heard[1..])
  }

  function PlainItems(items: seq<seq<DynamoValues.AttributeField>>): (r: Option<seq<seq<DynamoValues.Field>>>)
    ensures r.Some? ==> |r.value| == |items|
    ensures r.Some? ==> forall i :: 0 <= i < |items| ==> DynamoValues.ToPlain(items[i]) == Ok(r.value[i])
    ensures r == None ==> exists i :: 0 <= i < |items| && DynamoValues.ToPlain(items[i]).Err?
  {
    if items == [] then Some([])
    else
      var first, rest := DynamoValues.ToPlain(items[0]), PlainItems(items[1..]);
      if first.Err? || rest == None then None else Some([first.value] + rest.value)
  }

  function ListItemsPlan(job: Job, heard: seq<Response>): Plan
    requires job.ListItemsJob?
  {
    if heard == [] then
      match ItemCursor.DecodeItemCursor(job.cursor)
      case Err(e) => Finish(Raised(e))
      case Ok(start) => Ask(Step(Scan(job.name, job.pageSize, start), Some(job.name)))
    else Finish(ScannedPage(heard[0]))
  }

  function ScannedPage(r: Response): Outcome {
    var items := PlainItems(r.items);
    if items == None then Crashed
    else if r.lastKey == [] then Produced(ItemPage(items.value, None))
    else
      var next := ItemCursor.EncodeItemCursor(r.lastKey);
      if next == None then Crashed else Produced(ItemPage(items.value, next))
  }

  function ItemPlan(job: Job, heard: seq<Response>): Plan
    requires job.PutItemJob? || job.DeleteItemJob?
  {
    match DynamoValues.ToAttributeValueMap(if job.PutItemJob? then job.item else job.key)
    case Err(Refused(e)) => Finish(Raised(e))
    case Err(Uncaught) => Finish(Crashed)
    case Ok(av) =>
      if heard == [] then
        Ask(Step(if job.PutItemJob? then PutItem(job.name, av) else DeleteItem(job.name, av), Some(job.name)))
      else Finish(Produced(if job.PutItemJob? then ItemValue(job.item) else NoValue))
  }

  // ---- S3 ----

  const DEFAULT_REGION := "us-east-1"

  function ListBucketsPlan(job: Job, env: Env, heard: seq<Response>): Plan
    requires job.ListBucketsJob?
  {
    if heard == [] then Ask(Step(ListBuckets, None))
    else
      match Buckets.ListBuckets(heard[0].buckets, env.region, job.pageSize, job.cursor, env.unicode)
      case Ok(page) => Finish(Produced(BucketPage(page)))
      case Err(Refused(e)) => Finish(Raised(e))
      case Err(TooManyDigits) => Finish(Crashed)
  }

  function CreateBucketPlan(name: Str, env: Env, heard: seq<Response>): Plan {
    if heard == [] then
      Ask(Step(CreateBucket(name, if env.region == DEFAULT_REGION then None else Some(env.region)), Some(name)))
    else Finish(Produced(BucketValue(name, env.region, [])))
  }

  function GetBucketPlan(name: Str, heard: seq<Response>): Plan {
    if |heard| == 0 then Ask(Step(HeadBucket(name), Some(name)))
    else if |heard| == 1 then Ask(Step(GetBucketLocation(name), Some(name)))
    else if |heard| == 2 then Ask(Step(GetBucketTagging(name), Some(name)))
    else Finish(Produced(BucketValue(name, RegionOf(heard[1]), FromPairs(heard[2].tags))))
  }

  function RegionOf(r: Response): string {
    if r.location == None || r.location.value == "" then DEFAULT_REGION else r.location.value
  }

  /** The next call of the method, given the answers to the calls it has made. */
  function PlanOf(job: Job, env: Env, heard: seq<Response>): Plan {
    match job
    case ListBucketsJob(_, _) => ListBucketsPlan(job, env, heard)
    case CreateBucketJob(name) => CreateBucketPlan(name, env, heard)
    case DeleteBucketJob(name) => OneCall(Step(DeleteBucket(name), Some(name)), heard)
    case GetBucketJob(name) => GetBucketPlan(name, heard)
    case ListQueuesJob => ListQueuesPlan(env, heard)
    case CreateQueueJob(name) => CreateQueuePlan(name, env, heard)
    case GetQueueJob(name) => GetQueuePlan(name, env, heard)
    case DeleteQueueJob(_) | SendMessageJob(_, _) | ReceiveMessagesJob(_, _) | DeleteMessageJob(_, _) =>
      QueuePlan(job, env, heard)
    case ListTablesJob => ListTablesPlan(env, heard)
    case CreateTableJob(_, _, _) => CreateTablePlan(job, env, heard)
    case DeleteTableJob(name) => OneCall(Step(DeleteTable(name), Some(name)), heard)
    case GetTableJob(name) => GetTablePlan(name, env, heard)
    case ListItemsJob(_, _, _) => ListItemsPlan(job, heard)
    case PutItemJob(_, _) | DeleteItemJob(_, _) => ItemPlan(job, heard)
  }

  function OneCall(step: Step, heard: seq<Response>): Plan {
    if heard == [] then Ask(step) else Finish(Produced(NoValue))
  }

  // ---- conforming to a plan ----

  /** The one error a service swallows: no tags on a bucket. */
  predicate Tolerated(a: Attempt) {
    var end := EndOfAttempt(a);
    a.step.request.GetBucketTagging? && end.Failure? && end.error.code == RESOURCE_NOT_FOUND
  }

  predicate GoesOn(a: Attempt) {
    EndOfAttempt(a) == Success || Tolerated(a)
  }

  /** What the method hears from a call it goes on after. */
  function HeardFrom(a: Attempt): Response {
    if a.answer.Ran? && !Tolerated(a) then a.answer.response else Nothing
  }

  function Heard(made: seq<Attempt>): (h: seq<Response>)
    ensures |h| == |made|
    ensures forall k :: 0 <= k < |made| ==> h[k] == HeardFrom(made[k])
  {
    seq(|made|, k requires 0 <= k < |made| => HeardFrom(made[k]))
  }

  /** How a method ends when it does not go on after this call. */
  function StoppedBy(a: Attempt): Outcome {
    match EndOfAttempt(a)
    case Failure(e) => Raised(e)
    case _ => Crashed
  }

  /** The calls follow the plan, and none has stopped the method yet. */
  ghost predicate Underway(job: Job, env: Env, made: seq<Attempt>) {
    forall k :: 0 <= k < |made| ==> GoesOn(made[k]) && Asked(job, env, made, k)
  }

  /** The k-th call is the one the plan asks for after the answers before it. */
  ghost predicate Asked(job: Job, env: Env, made: seq<Attempt>, k: nat)
    requires k < |made|
  {
    PlanOf(job, env, Heard(made[..k])) == Ask(made[k].step)
  }

  /** The method made these calls and ended so: by its plan, or by the last call. */
  ghost predicate Conforms(job: Job, env: Env, made: seq<Attempt>, outcome: Outcome) {
    || (Underway(job, env, made) && PlanOf(job, env, Heard(made)) == Finish(outcome))
    || (made != [] && Underway(job, env, made[..|made| - 1]) && Asked(job, env, made, |made| - 1)
        && !GoesOn(made[|made| - 1]) && outcome == StoppedBy(made[|made| - 1]))
  }

  lemma HeardNext(made: seq<Attempt>, a: Attempt)
    ensures Heard(made + [a]) == Heard(made) + [HeardFrom(a)]
    ensures (made + [a])[..|made|] == made
  {}

  lemma PrefixOfNext(made: seq<Attempt>, a: Attempt, k: nat)
    requires k <= |made|
    ensures (made + [a])[..k] == made[..k]
  {}

  /** One more call as planned: the method is still under way, or has ended. */
  lemma Took(job: Job, env: Env, made: seq<Attempt>, a: Attempt)
    requires Underway(job, env, made) && PlanOf(job, env, Heard(made)) == Ask(a.step)
    ensures GoesOn(a) ==> Underway(job, env, made + [a]) && Heard(made + [a]) == Heard(made) + [HeardFrom(a)]
    ensures !GoesOn(a) ==> Conforms(job, env, made + [a], StoppedBy(a))
  {
    HeardNext(made, a);
    assert Asked(job, env, made + [a], |made|);
    forall k | 0 <= k < |made| ensures Asked(job, env, made + [a], k) {
      PrefixOfNext(made, a, k);
      assert Asked(job, env, made, k);
    }
  }
}
