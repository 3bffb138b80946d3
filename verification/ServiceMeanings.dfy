/** What the plans of the service methods amount to: listings, resumed scans, missing tags, and the
    calls of concurrent runs that the answers stand for. */
module ServiceMeanings {
  import opened Wrappers
  import opened Errors
  import opened Text
  import opened ServicePlans
  import opened Surfacing
  import A = Accounting
  import Dict
  import DynamoValues
  import Guarantees
  import ItemCursor
  import ItemRoundTrip
  import Json
  import P = Pipeline
  import Sorting

  lemma QueueOrderIsOrder()
    ensures Sorting.TotalPreorder(QueueOrder)
  {
    forall a: QueueResource, b: QueueResource ensures QueueOrder(a, b) || QueueOrder(b, a) { LeTotal(a.name, b.name); }
    forall a: QueueResource, b: QueueResource, c: QueueResource | QueueOrder(a, b) && QueueOrder(b, c)
      ensures QueueOrder(a, c)
    {
      LeTransitive(a.name, b.name, c.name);
    }
  }

  ghost predicate QueuesByName(queues: seq<QueueResource>) {
    forall i, j :: 0 <= i < j < |queues| ==> Lexicographic(queues[i].name, queues[j].name)
  }

  ghost predicate TablesByName(tables: seq<TableResource>) {
    forall i, j :: 0 <= i < j < |tables| ==> Lexicographic(tables[i].name, tables[j].name)
  }

  /** A value is only ever produced by the plan, after calls that all went on. */
  lemma ProducedByPlan(job: Job, env: Env, made: seq<Attempt>, v: Value)
    requires Conforms(job, env, made, Produced(v))
    ensures Underway(job, env, made) && PlanOf(job, env, Heard(made)) == Finish(Produced(v))
  {}

  lemma QueuePlanMeans(env: Env, heard: seq<Response>, queues: seq<QueueResource>)
    requires ListQueuesPlan(env, heard) == Finish(Produced(QueueValues(queues)))
    ensures heard != [] && |heard| > |heard[0].names|
    ensures QueuesByName(queues)
    ensures var urls := heard[0].names;
      multiset(queues) == multiset(DescribeQueues(urls, heard[1..|urls| + 1], env))
  {
    var urls := heard[0].names;
    QueueOrderIsOrder();
    Sorting.SortSorts(DescribeQueues(urls, heard[1..|urls| + 1], env), QueueOrder);
    forall i, j | 0 <= i < j < |queues| ensures Lexicographic(queues[i].name, queues[j].name) {
      assert QueueOrder(queues[i], queues[j]);
      LeMeaning(queues[i].name, queues[j].name);
    }
  }

  lemma QueueAsked(env: Env, made: seq<Attempt>, k: nat)
    requires Underway(ListQueuesJob, env, made) && 0 < k < |made|
    ensures var urls := Heard(made)[0].names;
      k <= |urls| && made[k].step == Step(GetQueueAttributes(urls[k - 1]), Some(urls[k - 1]))
  {
    assert Asked(ListQueuesJob, env, made, k);
    assert Heard(made[..k])[0] == Heard(made)[0];
  }

  lemma QueueCalls(env: Env, made: seq<Attempt>)
    requires Underway(ListQueuesJob, env, made) && made != []
    ensures var urls := Heard(made)[0].names;
      && |made| <= |urls| + 1
      && (forall i :: 0 <= i < |made| - 1 ==> made[i + 1].step == Step(GetQueueAttributes(urls[i]), Some(urls[i])))
  {
    var urls := Heard(made)[0].names;
    if |made| > 1 { QueueAsked(env, made, |made| - 1); }
    forall i | 0 <= i < |made| - 1 ensures made[i + 1].step == Step(GetQueueAttributes(urls[i]), Some(urls[i])) {
      QueueAsked(env, made, i + 1);
    }
  }

  /** A queue listing comes from one listing call and one description call per URL, in the listed
      order, each successful; it holds exactly the described queues, by name. */
  lemma QueuesListed(env: Env, made: seq<Attempt>, queues: seq<QueueResource>)
    requires Conforms(ListQueuesJob, env, made, Produced(QueueValues(queues)))
    ensures made != []
    ensures var urls := Heard(made)[0].names;
      && |made| == |urls| + 1
      && (forall i :: 0 <= i < |urls| ==> made[i + 1].step == Step(GetQueueAttributes(urls[i]), Some(urls[i])))
      && (forall k :: 0 <= k < |made| ==> EndOfAttempt(made[k]) == P.Success)
      && QueuesByName(queues)
      && multiset(queues) == multiset(DescribeQueues(urls, Heard(made)[1..], env))
  {
    ProducedByPlan(ListQueuesJob, env, made, QueueValues(queues));
    var heard := Heard(made);
    QueuePlanMeans(env, heard, queues);
    QueueCalls(env, made);
    assert Asked(ListQueuesJob, env, made, 0) && made[..0] == [];
    assert heard[1..|heard[0].names| + 1] == heard[1..];
  }

  lemma TableOrderIsOrder()
    ensures Sorting.TotalPreorder(TableOrder)
  {
    forall a: TableResource, b: TableResource ensures TableOrder(a, b) || TableOrder(b, a) { LeTotal(a.name, b.name); }
    forall a: TableResource, b: TableResource, c: TableResource | TableOrder(a, b) && TableOrder(b, c)
      ensures TableOrder(a, c)
    {
      LeTransitive(a.name, b.name, c.name);
    }
  }

  lemma TablePlanMeans(env: Env, heard: seq<Response>, tables: seq<TableResource>)
    requires ListTablesPlan(env, heard) == Finish(Produced(TableValues(tables)))
    ensures heard != [] && |heard| > |heard[0].names| && ToTables(heard[1..], env).Some?
    ensures TablesByName(tables)
    ensures multiset(tables) == multiset(ToTables(heard[1..], env).value)
  {
    TableOrderIsOrder();
    Sorting.SortSorts(ToTables(heard[1..], env).value, TableOrder);
    forall i, j | 0 <= i < j < |tables| ensures Lexicographic(tables[i].name, tables[j].name) {
      assert TableOrder(tables[i], tables[j]);
      LeMeaning(tables[i].name, tables[j].name);
    }
  }

  lemma TableAsked(env: Env, made: seq<Attempt>, k: nat)
    requires Underway(ListTablesJob, env, made) && 0 < k < |made|
    ensures var names := Heard(made)[0].names;
      k <= |names| && made[k].step == Step(DescribeTable(names[k - 1]), Some(names[k - 1]))
  {
    assert Asked(ListTablesJob, env, made, k);
    assert Heard(made[..k])[0] == Heard(made)[0];
  }

  lemma TableCalls(env: Env, made: seq<Attempt>)
    requires Underway(ListTablesJob, env, made) && made != []
    ensures var names := Heard(made)[0].names;
      && |made| <= |names| + 1
      && (forall i :: 0 <= i < |made| - 1 ==> made[i + 1].step == Step(DescribeTable(names[i]), Some(names[i])))
  {
    var names := Heard(made)[0].names;
    if |made| > 1 { TableAsked(env, made, |made| - 1); }
    forall i | 0 <= i < |made| - 1 ensures made[i + 1].step == Step(DescribeTable(names[i]), Some(names[i])) {
      TableAsked(env, made, i + 1);
    }
  }

  /** A table listing comes from one listing call and one description call per name, in the listed
      order, each successful; every table described has a partition key, and the listing holds exactly
      the described tables, by name. */
  lemma TablesListed(env: Env, made: seq<Attempt>, tables: seq<TableResource>)
    requires Conforms(ListTablesJob, env, made, Produced(TableValues(tables)))
    ensures made != []
    ensures var names, described := Heard(made)[0].names, ToTables(Heard(made)[1..], env);
      && |made| == |names| + 1
      && (forall i :: 0 <= i < |names| ==> made[i + 1].step == Step(DescribeTable(names[i]), Some(names[i])))
      && (forall k :: 0 <= k < |made| ==> EndOfAttempt(made[k]) == P.Success)
      && described.Some? && multiset(tables) == multiset(described.value)
      && TablesByName(tables)
  {
    ProducedByPlan(ListTablesJob, env, made, TableValues(tables));
    TablePlanMeans(env, Heard(made), tables);
    TableCalls(env, made);
    assert Asked(ListTablesJob, env, made, 0) && made[..0] == [];
  }

  lemma NextCursor(r: Response, items: seq<seq<DynamoValues.Field>>, next: Option<Str>)
    requires ScannedPage(r) == Produced(ItemPage(items, next))
    ensures next == if r.lastKey == [] then None else ItemCursor.EncodeItemCursor(r.lastKey)
  {}

  lemma ScanFrom(name: Str, pageSize: int, env: Env, cursor: Option<Str>, start: Option<Json.Json>)
    requires ItemCursor.DecodeItemCursor(cursor) == Ok(start)
    ensures PlanOf(ListItemsJob(name, pageSize, cursor), env, []) == Ask(Step(Scan(name, pageSize, start), Some(name)))
  {}

  /** The JSON object {name: {"S" or "N": value}} of the key's parts in their order; none for no key. */
  ghost function StartKey(key: ItemCursor.Key): Option<Json.Json> {
    if key == [] then None
    else
      Some(Json.Object(seq(|key|, i requires 0 <= i < |key| =>
        Dict.Entry(key[i].name,
                   Json.Object([Dict.Entry(if key[i].keyType.S? then [83] else [78], Json.String(key[i].value))])))))
  }

  /** Following a scan's cursor resumes exactly behind the key its response ended on; there is no
      cursor exactly when the response named no such key. */
  lemma ScanResumes(name: Str, pageSize: int, env: Env, r: Response, items: seq<seq<DynamoValues.Field>>,
    next: Option<Str>)
    requires ScannedPage(r) == Produced(ItemPage(items, next))
    requires ItemCursor.DistinctNames(r.lastKey) && ItemCursor.NoPairs(r.lastKey)
    ensures next == None <==> r.lastKey == []
    ensures PlanOf(ListItemsJob(name, pageSize, next), env, [])
         == Ask(Step(Scan(name, pageSize, StartKey(r.lastKey)), Some(name)))
  {
    NextCursor(r, items, next);
    if r.lastKey == [] {
      ScanFrom(name, pageSize, env, next, None);
    } else {
      ItemCursor.ItemCursorRoundTrip(r.lastKey);
      ItemCursor.TaggedRoundTrip(r.lastKey);
      ScanFrom(name, pageSize, env, next, StartKey(r.lastKey));
    }
  }

  lemma BucketCallsAsked(name: Str, env: Env, made: seq<Attempt>, k: nat)
    requires k < |made| && Asked(GetBucketJob(name), env, made, k)
    ensures k < 3
  {}

  /** A bucket whose tag call failed is returned only if it failed for want of tags, and then has none. */
  lemma MissingTags(name: Str, env: Env, made: seq<Attempt>, bucket: Value)
    requires Conforms(GetBucketJob(name), env, made, Produced(bucket))
    ensures |made| == 3
    ensures EndOfAttempt(made[0]) == P.Success && EndOfAttempt(made[1]) == P.Success
    ensures EndOfAttempt(made[2]).Failure? ==>
      EndOfAttempt(made[2]).error.code == RESOURCE_NOT_FOUND && made[2].answer.Ran?
      && bucket.BucketValue? && bucket.tags == []
  {
    ProducedByPlan(GetBucketJob(name), env, made, bucket);
    BucketCallsAsked(name, env, made, |made| - 1);
    assert Asked(GetBucketJob(name), env, made, 0) && Asked(GetBucketJob(name), env, made, 1)
        && Asked(GetBucketJob(name), env, made, 2);
  }

  lemma {:induction false} SlashesStripped(s: Str)
    ensures var t := StripSlashes(s);
      && t <= s && (t == [] || t[|t| - 1] != SLASH)
      && forall i :: |t| <= i < |s| ==> s[i] == SLASH
  {
    if s != [] && s[|s| - 1] == SLASH { SlashesStripped(s[..|s| - 1]); }
  }

  lemma SuffixNext(s: Str, c: CodePoint, n: nat)
    requires n <= |s|
    ensures (s + [c])[|s| - n..] == s[|s| - n..] + [c]
  {}

  lemma {:induction false} LastSegmentIsLast(s: Str)
    ensures var n := |LastSegment(s)|;
      && n <= |s| && s[|s| - n..] == LastSegment(s)
      && SLASH !in LastSegment(s)
      && (n == |s| || s[|s| - n - 1] == SLASH)
  {
    if s != [] && s[|s| - 1] != SLASH {
      var init, n := s[..|s| - 1], |LastSegment(s[..|s| - 1])|;
      LastSegmentIsLast(init);
      SuffixNext(init, s[|s| - 1], n);
      assert s == init + [s[|s| - 1]];
    }
  }

  /** A queue's name is the part of its URL without slashes that only slashes follow and that nothing
      or a slash precedes; it is empty only for a URL of slashes. */
  lemma QueueNameIsLastPart(url: Str) returns (from: nat, to: nat)
    ensures from <= to <= |url| && url[from..to] == QueueName(url)
    ensures SLASH !in QueueName(url) && (forall i :: to <= i < |url| ==> url[i] == SLASH)
    ensures from == 0 || url[from - 1] == SLASH
    ensures from == to ==> to == 0
  {
    var t := StripSlashes(url);
    SlashesStripped(url);
    LastSegmentIsLast(t);
    from, to := |t| - |LastSegment(t)|, |t|;
    assert url[from..to] == t[from..];
  }

  lemma {:induction false} KindIsLastDefined(definitions: seq<AttributeDefinition>, attribute: Str)
    ensures var kind := KindOf(definitions, attribute);
      || (kind == [83] && forall i :: 0 <= i < |definitions| ==> definitions[i].attribute != attribute)
      || (exists i :: 0 <= i < |definitions| && definitions[i] == AttributeDefinition(attribute, kind)
            && forall j :: i < j < |definitions| ==> definitions[j].attribute != attribute)
  {
    if definitions != [] && definitions[|definitions| - 1].attribute != attribute {
      KindIsLastDefined(definitions[..|definitions| - 1], attribute);
    } else if definitions != [] {
      assert definitions[|definitions| - 1] == AttributeDefinition(attribute, KindOf(definitions, attribute));
    }
  }

  /** The key of a role is the first schema entry with that role, and there is none only when the schema
      has no such entry. */
  lemma {:induction false} KeyIsFirstOfRole(schema: seq<KeySchema>, role: KeyRole,
    definitions: seq<AttributeDefinition>)
    ensures match FirstKey(schema, role, definitions)
      case None => forall i :: 0 <= i < |schema| ==> schema[i].role != role
      case Some(key) =>
        && key.kind == KindOf(definitions, key.name)
        && exists i :: 0 <= i < |schema| && schema[i] == KeySchema(key.name, role)
             && forall j :: 0 <= j < i ==> schema[j].role != role
  {
    if schema != [] && schema[0].role != role {
      KeyIsFirstOfRole(schema[1..], role, definitions);
      if FirstKey(schema, role, definitions).Some? {
        var name := FirstKey(schema, role, definitions).value.name;
        var i :| 0 <= i < |schema[1..]| && schema[1..][i] == KeySchema(name, role)
          && forall j :: 0 <= j < i ==> schema[1..][j].role != role;
        assert schema[i + 1] == KeySchema(name, role);
        assert forall j :: 0 < j < i + 1 ==> schema[j] == schema[1..][j - 1];
      }
    } else if schema != [] {
      assert schema[0] == KeySchema(schema[0].attribute, role);
    }
  }

  /** Listing a page that holds what was put shows the item in normal form; a page that holds one item
      that cannot be listed cannot be listed at all. */
  lemma PutThenScan(item: seq<DynamoValues.Field>, r: Response, i: nat)
    requires ItemRoundTrip.Json(ItemRoundTrip.ScalarsOfFields(item)) && i < |r.items|
    requires DynamoValues.ToAttributeValueMap(item) == Ok(r.items[i])
    ensures ItemRoundTrip.Listable(ItemRoundTrip.ScalarsOfFields(item)) || ScannedPage(r) == Crashed
    ensures ScannedPage(r).Produced? ==>
      var page := ScannedPage(r).value;
      page.ItemPage? && |page.items| == |r.items| && page.items[i] == ItemRoundTrip.NormalizeFields(item)
  {
    ItemRoundTrip.PutThenList(item);
  }

  /** Every call that ended in any concurrent run went as some answer says: it either reached the
      provider once, or ended with an injected failure and reached it never. */
  lemma AnswerOfCall(maxHistory: nat, es: seq<P.Event>, c: nat) returns (a: Answer)
    requires c < |P.Exec(maxHistory, es).calls| && P.Exec(maxHistory, es).calls[c].phase.Done?
    ensures var s := P.Exec(maxHistory, es);
      && EndOfAnswer(a) == s.calls[c].phase.end
      && A.CountEffects(s.effects, c) == (if a.Ran? then 1 else 0)
      && A.CountAppends(s.appends, c) == (if EndOfAnswer(a) == P.Unlisted then 0 else 1)
  {
    var s := P.Exec(maxHistory, es);
    var call := s.calls[c];
    Guarantees.InjectedCallsNeverRun(maxHistory, es, c);
    Guarantees.OneRecordPerCall(maxHistory, es, c);
    if call.ranFn {
      match call.phase.end {
        case Success => a := Ran(P.Returned, Nothing);
        case Failure(e) => a := Ran(P.RaisedApp(e), Nothing);
        case Unlisted => a := Ran(P.RaisedOther, Nothing);
      }
    } else {
      a := Injected(s.reg.objects[call.hit.value].failure);
    }
  }
}
