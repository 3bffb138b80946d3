# CloudLab API: verified model

CloudLab API is a small web service in front of S3, SQS and DynamoDB. Every provider call of every
service goes through one function, `ProviderService._call`, which first asks a failure injector
whether to delay or fail the call, then makes it, and then writes one record to an operation recorder.
Injector and recorder are shared by all request threads. Around that core sit opaque paging cursors,
a conversion between plain JSON and DynamoDB's typed values, and service methods made of several
calls each. This project models those parts in Dafny and proves what they promise.

## How it is organised

| part | files | what it is |
|---|---|---|
| failure rules | `Registry`, `RuleSearch`, `FailureInjection` | the rule registry as a value, `apply` as a declarative search, and the injector object with its in-place updates |
| operation history | `Recording`, `LogCounts`, `Metrics`, `Operations`, `Rounding`, `Sorting` | the recorder as a value that summarises an unbounded log, what its counters count, its metrics, and the recorder object |
| `_call`, alone | `ProviderCalls` | one instrumented call on the two objects |
| `_call`, concurrent | `Pipeline`, `Accounting`, `Guarantees`, `InterruptedSearch`, `Endings`, `Uninterrupted` | a step system with one step per lock region, roll, delay, provider call and record; its invariants; what they give over every run; how an interrupted search passes over rules; how calls end and what their records say; and the uninterrupted call as one of its schedules |
| service methods | `ServicePlans`, `Surfacing`, `CallSession`, `S3Service`, `SqsService`, `DynamoDbService`, `ServiceMeanings`, `MethodTraces`, `ConcurrentMethods` | each method as the calls it plans from the answers it hears, the imperative methods proved against those plans, what all plans share, each method call by call, and a method's calls inside a concurrent run |
| paging | `Pagination`, `Buckets`, `WalkFaults`, `Text`, `Base64`, `Integers`, `Decimal` | the offset cursor, walks over a bucket list that may change between fetches, and exactly when such a walk goes wrong |
| items | `DynamoValues`, `ItemRoundTrip`, `WireFormat`, `DecimalText` | the value conversion both ways, down to the decimal text on the wire |
| item cursor | `Json`, `ItemCursor` | JSON printing and parsing, and the scan cursor built on it |
| shared | `Wrappers`, `Dict`, `Errors` | options and results, insertion-ordered dictionaries, application errors |

In the step system any number of calls are in flight; rolls are arbitrary reals, a provider call
may end in any way, and rules are added, deleted and cleared and the recorder cleared at any moment.
Theorems about it hold of `Exec(maxHistory, es)` for every sequence of events `es`.

For the service methods, what happens to one call is given from outside as an `Answer`: the injector
raised, or the provider was called and ended somehow. `ServiceMeanings.AnswerOfCall` shows that the
calls of every concurrent run end as answers do, so what holds for all answers holds in every run;
`ConcurrentMethods` then follows all calls of one method through one run.

Durations are whole hundredths of a millisecond, the unit `record` rounds to. Text is a sequence of
code points, lone surrogates included. A finite float is the decimal number its shortest `repr` denotes.

## What the proofs found

- A rule with probability 0 fires when the roll is exactly 0 and never otherwise
  (`RuleSearch.ExtremeProbabilities`, `RuleSearch.ZeroProbabilityCanFire`).
- A number whose integer part has more than 28 digits can be stored but makes every later listing of
  its page raise, because `value % 1` runs in Python's default decimal context
  (`ItemRoundTrip.PutThenList`, `ItemRoundTrip.StoredButNotListable`).
- A number outside boto3's decimal context raises a decimal signal, not the `TypeError` the service
  turns into a 400, so it escapes untranslated (`ItemRoundTrip.PutOutcome`); the float 1e200 is one
  (`ItemRoundTrip.LargeFloatEscapes`).
- An item cursor loses a key that holds the two halves of a surrogate pair as separate code points,
  and loses no other (`ItemCursor.ItemCursorRoundTrip`, `ItemCursor.SurrogateHalvesMerge`).
- `str` and `int` refuse more than 4300 digits, so an offset has a cursor exactly up to that length
  (`Pagination.CursorExists`).
- With only deletions between fetches a finished walk can miss a bucket (`WalkFaults.DeletionCanSkip`).
  It misses a name exactly when the deletions before some fetch move the name from behind the offset to
  before it (`WalkFaults.MissedIffSteppedOver`), which happens to some name exactly when a name already
  passed is deleted and one still to come is not (`WalkFaults.StepsOverIffPassedDeleted`).
- With only insertions a finished walk can return a bucket twice (`WalkFaults.InsertionCanRepeat`). It
  repeats nothing exactly when every inserted name lands at or behind the offset reached
  (`WalkFaults.NothingRepeatedIffInsertedBehind`). Missing a bucket under insertions and repeating one
  under deletions cannot happen (`Buckets.InsertionsLoseNothing`, `Buckets.DeletionsRepeatNothing`).
- An item cursor that decodes to JSON's `null` means "from the start" (`ItemCursor.DecodeItemCursor`),
  and a bad bucket cursor is refused only after the provider call was made and recorded
  (`S3Service.S3Service.ListBuckets`).

## Model

| member | source | states |
|---|---|---|
| Errors.InjectedError | app/core/failure_injection.py:49-80 | each failing type raises its own code with status 403, 429, 500 or 503; none raises RESOURCE_NOT_FOUND, and exactly the 429 and 503 ones are retryable |
| Registry.RuleIdInjective | app/core/failure_injection.py:129 | the id texts of two counter values differ, so ids are never reused |
| Registry.RegisteredIsSameObject | app/core/failure_injection.py:166-168 | finding a held rule's id in the dictionary at commit means finding that very rule object |
| Registry.AddRuleValid | app/core/failure_injection.py:116-137 | adding a clamped rule keeps the registry invariant and registers the new rule last |
| Registry.AddedRule | app/core/failure_injection.py:116-137 | the new rule has the given fields and no hits; a delay outside 0 to 30,000 ms and a probability outside 0 to 1 become the nearer bound; no other rule changes |
| Registry.RuleIdText | app/core/failure_injection.py:129 | an id is `fr-` and the decimal digits of its number |
| Registry.DeleteRuleValid | app/core/failure_injection.py:139-141 | deleting keeps the invariant and unregisters exactly the named rule |
| Registry.DeleteRuleKeepsValid | app/core/failure_injection.py:139-141 | deleting any id, known or not, keeps the invariant |
| Registry.ClearValid | app/core/failure_injection.py:143-145 | clearing keeps the invariant without resetting the id counter |
| Registry.CommitValid | app/core/failure_injection.py:162-168 | counting a hit keeps the invariant, registered or not |
| Registry.MatchingExact | app/core/failure_injection.py:155-156 | a rule is in the snapshot exactly when it is registered and matches |
| Registry.SnapshotMeaning | app/core/failure_injection.py:155-156 | the snapshot lists the registered matching rules in creation order |
| RuleSearch.TallySearch | app/core/failure_injection.py:158-160 | the running search finds the first firing rule and draws one roll per uncertain rule up to it |
| RuleSearch.FirstFiring | app/core/failure_injection.py:158-160 | the position found fires and no earlier one does |
| RuleSearch.FiresExactlyTheFirst | app/core/failure_injection.py:155-168 | a rule is fired iff it is registered, matches, passes its own roll and every earlier one fails its own |
| RuleSearch.FiredInWords | app/core/failure_injection.py:90-168 | told without the search: the fired rule is the first created of the registered rules whose service and operation are the call's or `*` and that are certain or draw a roll at most their probability; one roll per uncertain candidate up to it |
| RuleSearch.NothingFiredInWords | app/core/failure_injection.py:90-168 | without a fired rule no candidate hits |
| RuleSearch.ApplyEffect | app/core/failure_injection.py:155-186 | only the fired rule changes, by one hit; its delay is the one slept and its type's error the one raised, none for LATENCY; without one nothing changes |
| RuleSearch.ApplyKeepsValid | app/core/failure_injection.py:147-186 | `apply` keeps the registry invariant |
| RuleSearch.ExtremeProbabilities | app/core/failure_injection.py:159-160 | probability 1 always fires; probability 0 fires iff the roll is 0 |
| RuleSearch.ZeroProbabilityCanFire | app/core/failure_injection.py:126-159 | the roll on which a rule of probability 0 fires |
| FailureInjection.FailureRule.constructor | app/core/failure_injection.py:83-91 | a new rule has the given fields and no hits |
| FailureInjection.FailureInjector.constructor | app/core/failure_injection.py:107-110 | a new injector implements the empty registry |
| FailureInjection.FailureInjector.ListRules | app/core/failure_injection.py:112-114 | the live rule objects, oldest first |
| FailureInjection.FailureInjector.AddRule | app/core/failure_injection.py:116-137 | a fresh object; the registry advances by `AddRule` |
| FailureInjection.FailureInjector.Store | app/core/failure_injection.py:136 | the dictionary entry of a new rule |
| FailureInjection.FailureInjector.DeleteRule | app/core/failure_injection.py:139-141 | the registry advances by `DeleteRule`; true iff the id was registered |
| FailureInjection.FailureInjector.Pop | app/core/failure_injection.py:141 | the entry is removed, the objects stay; true iff it was there |
| FailureInjection.FailureInjector.Clear | app/core/failure_injection.py:143-145 | the registry advances by `Clear` |
| FailureInjection.FailureInjector.Snapshot | app/core/failure_injection.py:155-156 | first lock region: the objects of the matching registered rules, in order |
| FailureInjection.FailureInjector.CommitHit | app/core/failure_injection.py:162-168 | second lock region: the held rule is counted iff its id is still registered |
| FailureInjection.FailureInjector.Apply | app/core/failure_injection.py:147-186 | the in-place loop leaves registry, rolls, delay and error exactly as the declarative search says |
| FailureInjection.FailureInjector.ApplyHeld | app/core/failure_injection.py:155-186 | the same with the object invariant given apart from the registry's |
| FailureInjection.FailureInjector.TryRules | app/core/failure_injection.py:158-186 | the loop and what it leaves the call with |
| FailureInjection.FailureInjector.FireFirst | app/core/failure_injection.py:158-168 | the loop counts the first firing rule and stops there |
| FailureInjection.FailureInjector.TryRule | app/core/failure_injection.py:159-168 | one iteration: a roll if the rule is uncertain, and a hit if it fires |
| Rounding.RoundMonotone | app/core/operations.py:113 | rounding half to even keeps order |
| Rounding.RoundFixesIntegers | app/core/operations.py:113 | rounding fixes values already on the grid |
| Rounding.RoundedMeanMonotone | app/core/operations.py:164 | rounded means are ordered as the means are, whatever their counts |
| Recording.RecordRefines | app/core/operations.py:113-138 | recording keeps the recorder a summary of its log: bounded history, totals, buckets |
| Recording.ClearRefines | app/core/operations.py:177-181 | after a clear the recorder summarises the empty log; ids go on |
| Recording.RunRefinesLog | app/core/operations.py:93-181 | after any records and clears, with any history bound including 0, history is the log's tail and aggregates are its folds |
| Recording.RunCounts | app/core/operations.py:95-116 | ids count all records ever written, over clears |
| Recording.HistoryWindow | app/core/operations.py:94-127 | the ids still in the history are the last ones issued, without a gap, as many as the bound allows |
| LogCounts.TotalsCount | app/core/operations.py:129-132 | the totals count the log's entries and those with status `error`, and add up the durations |
| LogCounts.BucketCounts | app/core/operations.py:134-138 | a bucket does the same for the entries of its service and operation |
| LogCounts.MeanIsNearest | app/core/operations.py:164-173 | a rounded mean is the exact quotient to the nearest integer, ties to even |
| Operations.OperationStats.constructor | app/core/operations.py:50-54 | fresh counters are zero |
| Operations.OperationStats.Add | app/core/operations.py:129-138 | counters advance by one record |
| Operations.OperationRecorder.constructor | app/core/operations.py:93-98 | a new recorder is empty |
| Operations.OperationRecorder.SetDefault | app/core/operations.py:134 | the bucket of a key, created empty if missing |
| Operations.OperationRecorder.AddToBucket | app/core/operations.py:134-138 | exactly one bucket advances |
| Operations.OperationRecorder.Record | app/core/operations.py:100-138 | the recorder advances by `Record` |
| Operations.OperationRecorder.Write | app/core/operations.py:114-138 | the body of the lock region |
| Operations.OperationRecorder.ListRecent | app/core/operations.py:140-144 | the newest entries first, at most `limit` of them, none for a negative limit; entry k has id N - 1 - k for next id N |
| Operations.OperationRecorder.Get | app/core/operations.py:146-151 | for next id N and history length h, id i is found iff N - h <= i < N, and then the record has id i and is history entry i - (N - h) |
| Operations.OperationRecorder.Metrics | app/core/operations.py:153-175 | the snapshot of the current aggregates |
| Operations.OperationRecorder.BuildRows | app/core/operations.py:158-167 | one row per bucket, in order |
| Operations.OperationRecorder.Clear | app/core/operations.py:177-181 | history and aggregates are emptied, the id counter is not |
| Metrics.SnapshotTotals | app/core/operations.py:153-175 | the totals are the log's entries and errors; the error rate and the average are the exact quotients to the nearest unit, ties to even; the rows add up to the totals |
| Metrics.RowsCountTheLog | app/core/operations.py:158-167 | every row counts the log's entries, errors and mean duration of its operation, and every entry's operation has a row |
| Metrics.SnapshotRows | app/core/operations.py:158-168 | rows are a count-descending permutation of the buckets with unique keys and errors at most counts |
| Metrics.TiesKeepFirstSeenOrder | app/core/operations.py:168 | rows with equal counts stay in first-recorded order |
| Metrics.AverageWithinDurations | app/core/operations.py:164 | a rounded average lies between the smallest and largest duration |
| Metrics.RowAverageWithinItsDurations | app/core/operations.py:158-167 | each row's average lies between the durations recorded under its key |
| Metrics.OverallAverageWithinRows | app/core/operations.py:169-173 | the rounded overall average lies between the smallest and largest rounded row average |
| Sorting.SortSorts | app/core/operations.py:168 | the stable sort returns the input in order |
| Sorting.SortStable | app/core/operations.py:168 | elements that tie keep their order |
| Sorting.SortDistinct | app/core/operations.py:158-168 | elements told apart by a key still are after sorting |
| ProviderCalls.ProviderService.constructor | app/services/base.py:36-40 | a service with its identity, injector and recorder |
| ProviderCalls.ProviderService.Call | app/services/base.py:45-131 | injector, call and record in sequence: the call runs iff nothing was raised; a value ends it well, an AppError or a translated botocore error is its failure, anything else passes through; one record with that status, error and retryable flag, or none |
| ProviderCalls.ProviderService.Attempt | app/services/base.py:48-110 | the `try` block: the real call runs iff the injector did not raise |
| ProviderCalls.ProviderService.WriteRecord | app/services/base.py:74-130 | the one record of each listed branch, with its status, error code and retryable flag |
| Pipeline.Step | app/core/failure_injection.py:155-186 | one atomic step of any thread keeps every held reference meaningful |
| Pipeline.CallStepFrame | app/services/base.py:45-131 | a step of one call touches no other call and registers or unregisters no rule |
| Pipeline.ExecSplit | app/services/base.py:45-131 | a run is a prefix followed by the rest |
| Uninterrupted.ApplyRuns | app/core/failure_injection.py:155-186 | `apply` in one piece is, in the step system, the declarative search |
| Uninterrupted.CommitAndWake | app/core/failure_injection.py:162-186 | a rule still registered is counted, delays the call and fails it or lets it go on |
| Uninterrupted.UninterruptedCall | app/services/base.py:45-131 | an uninterrupted call leaves registry, recorder, provider and itself as the sequential service object does |
| Accounting.Reachable | app/services/base.py:45-131 | every reachable state satisfies all accounting invariants |
| Accounting.StepKeepsHits | app/core/failure_injection.py:162-168 | every step keeps hit counts equal to committed calls |
| Accounting.StepKeepsCalls | app/core/failure_injection.py:155-186 | every step keeps the invariant of every call in flight or ended |
| Accounting.StepKeepsAppends | app/services/base.py:74-130 | every step keeps records in correspondence with ended calls |
| Accounting.StepKeepsLog | app/core/operations.py:114-138 | every step keeps the recorder a summary of the records since the last clear |
| Accounting.StepKeepsEffects | app/services/base.py:55-56 | every step keeps real provider calls in correspondence with calls |
| Guarantees.HitConservation | app/core/failure_injection.py:155-186 | every rule's hits are the calls committed on it; all hits are the committed calls; failing hits are the failed calls |
| Guarantees.InjectedCallsNeverRun | app/services/base.py:55-57 | calls hit by a failing rule are those in its delay or ended with its error, and none makes a provider call |
| Guarantees.DelayBounded | app/core/failure_injection.py:125-171 | one `apply` sleeps between 0 and 30,000 ms in any interleaving: the delay of the rule that hit, and not at all without a hit |
| Guarantees.OneRecordPerCall | app/services/base.py:57-131 | a listed end appends exactly one record describing it, any other end none; record ids have no gap |
| Guarantees.CallAccounting | app/services/base.py:45-131 | calls started = records written + calls in flight + calls that escaped |
| Guarantees.TotalCountAccounting | app/core/operations.py:129 | without recorder clears the same holds of `total_count` |
| Guarantees.MetricsAlwaysConsistent | app/core/operations.py:153-175 | a metrics snapshot at any instant of any run counts the records since the last clear, in all and row by row, adds up, and has unique, ordered rows |
| Guarantees.RemovedForever | app/core/failure_injection.py:139-145 | once unregistered a rule never changes again and never comes back |
| Guarantees.HitRuleRegisteredThroughout | app/core/failure_injection.py:155-168 | a rule that hits was registered at the snapshot, at the commit and at every instant between |
| InterruptedSearch.NoRuleIsSkipped | app/core/failure_injection.py:155-168 | in every run a rule registered and matching at the snapshot that a call left behind was rolled for, and missed its roll or was found unregistered when it came to be counted |
| InterruptedSearch.HitIsFirstToFire | app/core/failure_injection.py:158-168 | in every run the rule that hit a call fired on its roll and every rule before it in the snapshot missed or had been unregistered |
| InterruptedSearch.NoHitOnlyAfterAll | app/core/failure_injection.py:158-168 | in every run a call reaches the provider call unhit only after every snapshotted rule missed or had been unregistered |
| InterruptedSearch.SearchHolds | app/core/failure_injection.py:155-168 | the invariant of the interrupted search, for every call at every instant |
| Endings.EndFollowsAnswer | app/services/base.py:57-131 | in every run a call that reached the provider ends as the answer says: a value is a success, an AppError or a translated botocore error the call's failure with one record of its code and retryable flag, anything else leaves no record |
| Endings.RecordsAreTimed | app/core/operations.py:113-126 | every record of every run has its own event's time and that event's duration rounded to a hundredth of a millisecond |
| Guarantees.RulesGrow | app/core/failure_injection.py:128-136 | no rule is forgotten; only hit counts change, and only upwards |
| Guarantees.RegistryAlwaysValid | app/core/failure_injection.py:107-145 | keys are the rules' ids, distinct, in creation order; delays and probabilities stay clamped |
| ServicePlans.Took | app/services/base.py:45-131 | after one planned call a method is under way with its answer heard, or has ended by it |
| ServicePlans.PlainItems | app/services/dynamodb_service.py:125 | every item of a page in plain form, in order, or none when one item cannot be listed |
| ServicePlans.ToTables | app/services/dynamodb_service.py:81-111 | all described tables, or none when one has no partition key |
| Surfacing.InjectedIsNeverTolerated | app/core/failure_injection.py:49-80 | no injectable error is the one a service swallows |
| Surfacing.OnlyTheLastStops | app/services/s3_service.py:106-119 | only the last call of any method can have stopped it, and then decides its outcome |
| Surfacing.InjectedFailuresSurface | app/services/base.py:55-85 | in every service method an injected failure in the k-th call is the method's error, no later call is made, and k records are left with the error last |
| Surfacing.ErrorsHaveOneSource | app/services/base.py:57-110 | a method's error is its last call's, or its own 400 for a cursor or an item |
| Surfacing.OutcomeIsDetermined | app/services/base.py:45-131 | a method's arguments and the answers its calls meet determine its calls and its outcome |
| CallSession.CallSession.Call | app/services/base.py:45-131 | one call among arbitrary other threads: reply, attempt and record follow the answer |
| CallSession.CallSession.Perform | app/services/base.py:45-131 | a planned call leaves the method under way or conformingly ended |
| S3Service.S3Service.ListBuckets | app/services/s3_service.py:33-66 | one call, then the page at the cursor, or the cursor's refusal |
| S3Service.S3Service.CreateBucket | app/services/s3_service.py:68-82 | one call, with a location everywhere but in us-east-1 |
| S3Service.S3Service.DeleteBucket | app/services/s3_service.py:84-85 | one call |
| S3Service.S3Service.GetBucket | app/services/s3_service.py:87-119 | head, location and tag calls in order, ended by the first failure other than missing tags |
| S3Service.S3Service.Tagged | app/services/s3_service.py:106-119 | a missing tag set is an empty one, any other failure surfaces |
| SqsService.SqsService.ListQueues | app/services/sqs_service.py:32-35 | a listing call and one description call per URL, ended by the first failure |
| SqsService.SqsService.DescribeAll | app/services/sqs_service.py:35 | the descriptions in the order listed, returned by name |
| SqsService.SqsService.CreateQueue | app/services/sqs_service.py:37-40 | create, look up, describe |
| SqsService.SqsService.GetQueue | app/services/sqs_service.py:46-48 | look up, describe |
| SqsService.SqsService.Describe | app/services/sqs_service.py:97-123 | the URL found is the one described |
| SqsService.SqsService.DeleteQueue | app/services/sqs_service.py:42-44 | the URL found is the one deleted |
| SqsService.SqsService.SendMessage | app/services/sqs_service.py:50-61 | the body goes to the URL found and comes back with the new id |
| SqsService.SqsService.ReceiveMessages | app/services/sqs_service.py:63-85 | between 1 and 10 messages are asked for, and all received are returned |
| SqsService.SqsService.DeleteMessage | app/services/sqs_service.py:87-93 | the receipt handle goes to the URL found |
| SqsService.SqsService.Resolve | app/services/sqs_service.py:97-101 | the URL lookup, or its failure |
| SqsService.SqsService.Finally | app/services/sqs_service.py:42-93 | the one call made with the URL found |
| DynamoDbService.DynamoDbService.ListTables | app/services/dynamodb_service.py:46-49 | a listing call and one description call per name, ended by the first failure |
| DynamoDbService.DynamoDbService.DescribeAll | app/services/dynamodb_service.py:49 | the descriptions in the order listed, returned by name |
| DynamoDbService.DynamoDbService.GetTable | app/services/dynamodb_service.py:81-111 | one call and the table it describes |
| DynamoDbService.DynamoDbService.CreateTable | app/services/dynamodb_service.py:51-76 | a schema with or without a sort key, then the description |
| DynamoDbService.DynamoDbService.Describe | app/services/dynamodb_service.py:81-111 | a table without a partition key is an untranslated exception |
| DynamoDbService.DynamoDbService.DeleteTable | app/services/dynamodb_service.py:78-79 | one call |
| DynamoDbService.DynamoDbService.ListItems | app/services/dynamodb_service.py:115-128 | an unreadable cursor is refused without a call; otherwise one scan from it and the page it gives |
| DynamoDbService.DynamoDbService.PutItem | app/services/dynamodb_service.py:130-133 | an unstorable item makes no call; otherwise its attribute values are put and it is returned |
| DynamoDbService.DynamoDbService.DeleteItem | app/services/dynamodb_service.py:135-139 | the same for a key |
| ServiceMeanings.QueuesListed | app/services/sqs_service.py:32-35 | a queue listing comes from exactly one call per URL and holds exactly the described queues, in the lexicographic order of their names |
| ServiceMeanings.TablesListed | app/services/dynamodb_service.py:46-49 | a table listing comes from exactly one successful call per name, in order, and holds exactly the described tables, in the lexicographic order of their names |
| ServiceMeanings.QueueNameIsLastPart | app/services/sqs_service.py:114 | a queue's name is the last part of its URL, trailing slashes aside |
| ServiceMeanings.KeyIsFirstOfRole | app/services/dynamodb_service.py:88-109 | a table's key is the first schema entry of its role; none only when there is no such entry |
| ServiceMeanings.KindIsLastDefined | app/services/dynamodb_service.py:87-109 | a key's type is the last one defined for its name, or S |
| ServiceMeanings.PutThenScan | app/services/dynamodb_service.py:115-133 | a page holding what was put shows its normal form; one item that cannot be listed makes the whole page raise |
| ServiceMeanings.ScanResumes | app/services/dynamodb_service.py:118-128 | the cursor of a page makes the next scan start at the key the page ended on, each part under its own type tag; no cursor iff no such key |
| ServiceMeanings.MissingTags | app/services/s3_service.py:106-119 | a bucket whose tag call failed is returned only for a real "not found", and then without tags |
| ServiceMeanings.AnswerOfCall | app/services/base.py:45-131 | every ended call of every run went as some answer, with as many provider calls and records |
| MethodTraces.ListBucketsTrace | app/services/s3_service.py:33-66 | one ListBuckets call without resource name; its failure is the method's, else the page |
| MethodTraces.CreateBucketTrace | app/services/s3_service.py:68-82 | one CreateBucket call, without a location exactly in us-east-1, and the bucket made |
| MethodTraces.DeleteBucketTrace | app/services/s3_service.py:84-85 | one DeleteBucket call |
| MethodTraces.GetBucketTrace | app/services/s3_service.py:87-119 | HeadBucket, GetBucketLocation and GetBucketTagging; RESOURCE_NOT_FOUND on the last gives the bucket without tags, any other failure is the method's |
| MethodTraces.ListQueuesTrace | app/services/sqs_service.py:32-35 | ListQueues, then GetQueueAttributes for each URL in order until one fails; else one queue per description, by name |
| MethodTraces.CreateQueueTrace | app/services/sqs_service.py:37-40 | CreateQueue, GetQueueUrl, GetQueueAttributes until one fails; else the queue described |
| MethodTraces.DeleteQueueTrace | app/services/sqs_service.py:42-44 | GetQueueUrl, then DeleteQueue at the URL found |
| MethodTraces.GetQueueTrace | app/services/sqs_service.py:46-48 | GetQueueUrl, then GetQueueAttributes at the URL found, and the queue described |
| MethodTraces.SendMessageTrace | app/services/sqs_service.py:50-61 | GetQueueUrl, then SendMessage; the message with the new id and the body sent |
| MethodTraces.ReceiveMessagesTrace | app/services/sqs_service.py:63-85 | GetQueueUrl, then ReceiveMessage for between 1 and 10; every message received, in order, with its numbers read |
| MethodTraces.DeleteMessageTrace | app/services/sqs_service.py:87-93 | GetQueueUrl, then DeleteMessage with the receipt handle |
| MethodTraces.ListTablesTrace | app/services/dynamodb_service.py:46-49 | ListTables, then DescribeTable for each name in order until one fails; else one table per description, by name |
| MethodTraces.CreateTableTrace | app/services/dynamodb_service.py:51-76 | CreateTable with the partition key and, if named, the sort key, then DescribeTable |
| MethodTraces.DeleteTableTrace | app/services/dynamodb_service.py:78-79 | one DeleteTable call |
| MethodTraces.GetTableTrace | app/services/dynamodb_service.py:81-111 | one DescribeTable call and the table it describes, or an untranslated exception without a partition key |
| MethodTraces.ListItemsTrace | app/services/dynamodb_service.py:115-128 | an unreadable cursor makes no call; else one Scan from its key and the page |
| MethodTraces.PutItemTrace | app/services/dynamodb_service.py:130-133 | an unstorable item makes no call; else one PutItem and the item back |
| MethodTraces.DeleteItemTrace | app/services/dynamodb_service.py:135-139 | the same for a key and DeleteItem |
| ConcurrentMethods.MethodRecords | app/services/base.py:57-131 | in any run the shared records of one thread's listed calls are one each, in the order of the calls, and describe them |
| ConcurrentMethods.RecordsInOrder | app/services/base.py:57-131 | the same at the moment the n-th call has ended |
| ConcurrentMethods.InjectedFailureSurfacesInRun | app/services/base.py:55-85 | in every concurrent run a failure injected into a method's k-th call is its outcome, no further call is made, and exactly k + 1 shared records are the method's, the last one that error |
| Pagination.CursorTextRoundTrip | app/services/pagination.py:18-25 | ASCII text put into base64url comes back |
| Pagination.CursorRoundTrip | app/services/pagination.py:17-25 | every cursor handed out is nonempty and read back as its offset, a negative one as 0 |
| Pagination.CursorCarriesText | app/services/pagination.py:18-25 | any text without surrogates, put into base64url, comes back |
| Pagination.ClientCursor | app/services/pagination.py:21-32 | a cursor made of any text is read as `int` reads that text, a negative number as 0, and refused iff `int` refuses it |
| Pagination.SurrogateCursorRefused | app/services/pagination.py:25-32 | a cursor that has no UTF-8 form gets the same 400 |
| Pagination.CursorExists | app/services/pagination.py:17-18 | an offset has a cursor iff it has at most 4300 digits |
| Pagination.DecodeTotal | app/services/pagination.py:21-32 | any cursor gives a non-negative offset or one non-retryable 400 |
| Base64.RoundTrip | app/services/pagination.py:18-25 | decoding undoes encoding, section 5 of RFC 4648 |
| Base64.FullGroup | app/services/pagination.py:18 | three bytes are four letters of the URL-safe alphabet that make the same number |
| Base64.GroupsFollow | app/services/pagination.py:18 | input is encoded three bytes at a time, front to back |
| Base64.AlphabetMeaning | app/services/pagination.py:18-25 | letters, digits, `-` and `_` in the order of section 5 of RFC 4648, read back as such; `+` and `/` read alike |
| Base64.GroupOfTwo | app/services/pagination.py:18 | two last bytes are three letters and one pad |
| Base64.GroupOfOne | app/services/pagination.py:18 | one last byte is two letters and two pads |
| Integers.PrintParse | app/services/pagination.py:18-25 | `int` reads what `str` prints |
| Integers.ParseMeaning | app/services/pagination.py:25 | `int` reads n from a text iff the text is spaces, an optional sign, at most 4300 digits with single underscores between them, and spaces, and n is its decimal value |
| Text.Utf8RoundTrip | app/services/pagination.py:18-25 | text encodes iff it holds no surrogate, and decodes back |
| Text.EncodedPointLayout | app/services/pagination.py:18-25 | one to four bytes by size, with the leading byte and six-bit continuations of section 3 of RFC 3629 |
| Text.LeMeaning | app/services/s3_service.py:50 | the name order: a prefix first, else by the first code point that differs |
| Buckets.OffsetCodecIsFaithful | app/services/pagination.py:17-32 | the repository's cursor functions satisfy what paging needs of them |
| Buckets.FetchMeaning | app/services/s3_service.py:50-66 | each fetch of a walk returns the slice at the sum of earlier page sizes and goes on iff the list is longer |
| Buckets.ResourcesAreBuckets | app/services/s3_service.py:50-59 | the full listing holds one resource per bucket, with its name, region and creation time, in the lexicographic order of names |
| Buckets.ItemsAreBuckets | app/services/s3_service.py:50-66 | every entry of a page is a bucket the fetch saw |
| Buckets.SliceFromTheBack | app/services/s3_service.py:62 | a negative end of a page counts from the back |
| Buckets.ReturnedByRank | app/services/s3_service.py:50-64 | a fetch returns a bucket iff its rank by name lies in the fetch's offset window |
| Buckets.InsertionsLoseNothing | app/services/s3_service.py:47-66 | with only insertions between fetches, a finished walk returned every bucket present at the start |
| Buckets.DeletionsRepeatNothing | app/services/s3_service.py:47-66 | with only deletions between fetches, no bucket is returned twice |
| WalkFaults.MissedIffSteppedOver | app/services/s3_service.py:47-66 | under deletions a finished walk misses a name held to the end iff between two fetches its rank falls from behind the offset to before it |
| WalkFaults.StepsOverIffPassedDeleted | app/services/s3_service.py:47-66 | the deletions before a fetch step over some name iff a passed name is deleted and one still to come is not |
| WalkFaults.RepeatedIffPushedBehind | app/services/s3_service.py:47-66 | under insertions a finished walk returns a returned name again iff a later fetch finds it at or behind its offset |
| WalkFaults.NothingRepeatedIffInsertedBehind | app/services/s3_service.py:47-66 | under insertions a finished walk repeats nothing iff no inserted name lands before the offset reached |
| WalkFaults.DeletionCanSkip | app/services/s3_service.py:47-66 | a finished walk carried by the repository's cursors in which a deletion makes it miss a bucket |
| WalkFaults.InsertionCanRepeat | app/services/s3_service.py:47-66 | a finished walk carried by the repository's cursors in which an insertion makes it repeat a bucket |
| Buckets.ExactPaging | app/services/s3_service.py:50-66 | on a fixed list the pages are full but for the last, hold one resource per bucket in the lexicographic order of names, and number max(1, ceil(n / size)) |
| Buckets.PagesAreAWalk | app/services/s3_service.py:61-66 | those pages are a walk: each is fetched with the cursor before it and the last has none |
| Buckets.PagesAreTheRest | app/services/s3_service.py:61-66 | from any offset the pages are the rest of the list |
| DecimalText.PrintParse | app/services/dynamodb_service.py:168-174 | `Decimal(str(d))` is d: sign, coefficient and exponent, in plain and scientific notation |
| DecimalText.WholeNotation | app/services/dynamodb_service.py:168 | a number with exponent 0 is written as its digits |
| DecimalText.PointedNotation | app/services/dynamodb_service.py:168 | a point stands inside the digits |
| DecimalText.SmallNotation | app/services/dynamodb_service.py:168 | a small number has at most five zeros behind the point |
| DecimalText.ScientificNotation | app/services/dynamodb_service.py:168 | every other number has one digit before the point and a signed exponent behind an E |
| WireFormat.PutIsTyped | app/services/dynamodb_service.py:145-174 | what a put sends is the item value for value, each under the tag of its kind, with numbers as their decimal text |
| WireFormat.AcceptedMeans | app/services/dynamodb_service.py:145-154 | a number is storable iff it has at most 38 digits, is below 10^127 and ends by the 165th decimal place |
| WireFormat.DigitsCount | app/services/dynamodb_service.py:145-154 | a number has at most k digits iff it is below 10^k |
| WireFormat.WholeIsCutOff | app/services/dynamodb_service.py:181 | the integer part is the coefficient cut off at the point |
| ItemRoundTrip.PutOutcome | app/services/dynamodb_service.py:145-154 | an item is stored iff no scalar is at fault; else the first at fault decides between the 400 and an untranslated exception |
| ItemRoundTrip.LargeFloatEscapes | app/services/dynamodb_service.py:145-154 | putting the float 1e200 raises an exception the service does not translate |
| ItemRoundTrip.PutThenList | app/services/dynamodb_service.py:145-186 | what was put is listed in normal form iff every integer part has at most 28 digits |
| ItemRoundTrip.NormalFormIsTheItem | app/services/dynamodb_service.py:177-186 | the normal form is the one item with the same keys, order, nesting, scalars and amounts and no integral float |
| ItemRoundTrip.SecondTripIsIdentity | app/services/dynamodb_service.py:145-186 | an item once listed is put and listed again without change |
| ItemRoundTrip.IntegralAmount | app/services/dynamodb_service.py:181 | a number becomes an int iff its amount is that integer |
| ItemRoundTrip.StoredButNotListable | app/services/dynamodb_service.py:181 | 10^28 is stored but raises when listed |
| Json.StringRoundTrip | app/services/dynamodb_service.py:193-200 | every printed string is read back with its surrogate pairs joined, section 7 of RFC 8259 |
| Json.JoinedShorter | app/services/dynamodb_service.py:193-200 | joining changes a string iff it holds a high surrogate directly before a low one |
| Json.EscapeNotation | app/services/dynamodb_service.py:193 | printable ASCII stands for itself; other code points of the basic plane are one escape of section 7 of RFC 8259 |
| Json.UnitNotation | app/services/dynamodb_service.py:193 | that escape is `\u` and the code unit in four lower-case hexadecimal digits |
| Json.PairNotation | app/services/dynamodb_service.py:193 | a code point beyond the basic plane is printed as its two UTF-16 halves |
| Json.ShortNotation | app/services/dynamodb_service.py:193 | quote, backslash and five control characters have two-character escapes |
| ItemCursor.KeyLayout | app/services/dynamodb_service.py:193 | the text in a cursor is `{"name": {"S": "value"}, ...}` with the key's names, tags and values in order |
| ItemCursor.DecodeOfEncode | app/services/dynamodb_service.py:192-200 | what decoding an encoded key gives, for every key |
| ItemCursor.ItemCursorRoundTrip | app/services/dynamodb_service.py:192-207 | a key comes back from its nonempty cursor iff it holds no split surrogate pair |
| ItemCursor.TaggedRoundTrip | app/services/dynamodb_service.py:192-207 | without split pairs every part comes back under its name as {"S": value} or {"N": value}, as its type says |
| ItemCursor.SurrogateHalvesMerge | app/services/dynamodb_service.py:192-200 | the key that does not come back |
| ItemCursor.DecodeTotal | app/services/dynamodb_service.py:196-207 | any cursor gives a start key or none, or one non-retryable 400 |
| Dict.FromPairsKeeps | app/services/s3_service.py:119 | a dictionary built from pairs keeps them all iff no key repeats |

## Left out

- IEEE floats: durations are summed and averaged exactly on hundredths; the drift of float accumulation is not modelled, and a finite float is identified with the decimal number of its shortest `repr`.
- Metrics.AverageWithinDurations: in exact arithmetic, for the reason above.
- Registry.NewRule: a NaN probability, which the clamp in `add_rule` lets through and which then always fires, is not a `real` and is not modelled.
- The float minus infinity, which boto3 passes on as text where it refuses NaN and infinity, is not modelled; `NotFinite` is those two.
- `translate_boto_error` and `_CLIENT_ERROR_MAP` (app/core/errors.py:66-160): a finite table, taken as whatever AppError a botocore error translates to.
- Clocks, sleeping, the random distribution, thread scheduling and fairness, and logging: times, rolls and interleavings are arbitrary.
- Lock acquisition itself: a lock region is one atomic step.
- The lenient base64 decoder is not injective; only what decodes from an encoder's output is stated.
- `int` on non-ASCII digits and spaces: the Unicode tables are a parameter.
- `json.loads` on documents nested deeper than the interpreter's recursion limit, which raise an error the service does not catch.
- Binary keys in an item cursor, which `json.dumps` rejects, and binary and set attribute values.
- Provider semantics: S3, SQS and DynamoDB answer arbitrarily; that DynamoDB may reformat a number it stores is outside the model.
- Response fields an API guarantees are taken to be present, and timestamps stay numbers where `datetime` would refuse an extreme one.
- Creation times taken from the local clock in `create_bucket`, and the table's creation time.
- ProviderCalls.ProviderService.Call: one uninterrupted call; interleavings are the step system's.
- FailureInjection.FailureInjector.ListRules: the objects returned are live, so their hit counts may still move afterwards; no consistency over time is claimed.
- Guarantees.RemovedForever: a call that committed before the rule was removed may still sleep and raise afterwards.
- SqsService.SqsService.CreateQueue: not atomic; a later lookup or description may fail after the queue was created. The same holds of `create_table`.
- Buckets.ExactPaging: for page sizes of at least 1, the bound the HTTP route enforces, and offsets short of 4301 digits.
- HTTP routes, middleware, health probes, configuration, the CLI, client caching and pydantic models: plumbing without state of its own.
