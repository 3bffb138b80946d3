/** The table and item service. */
module DynamoDbService {
  import opened Wrappers
  import opened Errors
  import opened Text
  import opened ServicePlans
  import opened CallSession
  import DynamoValues
  import ItemCursor
  import Rec = Recording
  import Sorting

  class DynamoDbService {
    const session: CallSession

    constructor (session: CallSession)
      ensures this.session == session
    {
      this.session := session;
    }

    method ListTables() returns (outcome: Outcome, ghost made: seq<Attempt>)
      requires session.Valid()
      modifies session
      ensures session.Valid() && session.Made(old(session.attempts), old(session.records), made)
      ensures Conforms(ListTablesJob, session.env, made, outcome)
    {
      ghost var before, recorded := session.attempts, session.records;
      NoCallsYet(ListTablesJob, session.env, session.caller);
      var listed;
      listed, made := session.Perform(Step(Request.ListTables, None), ListTablesJob, [], before, recorded);
      if !listed.Got? {
        return Passed(listed), made;
      }
      outcome, made := DescribeAll(listed.response, made, before, recorded);
    }

    /** The tables of a listing: each described in turn, then sorted by name. */
    method DescribeAll(listed: Response, ghost first: seq<Attempt>, ghost before: seq<Attempt>,
      ghost recorded: seq<Rec.Report>) returns (outcome: Outcome, ghost made: seq<Attempt>)
      requires session.Valid() && session.Made(before, recorded, first)
      requires Underway(ListTablesJob, session.env, first) && Heard(first) == [listed]
      modifies session
      ensures session.Valid() && session.Made(before, recorded, made)
      ensures Conforms(ListTablesJob, session.env, made, outcome)
    {
      made := first;
      var names, tables := listed.names, [];
      ghost var heard: seq<Response> := [];
      for i := 0 to |names|
        invariant session.Valid() && session.Made(before, recorded, made)
        invariant |heard| == i && Underway(ListTablesJob, session.env, made) && Heard(made) == [listed] + heard
        invariant ToTables(heard, session.env) == Some(tables)
      {
        var reply;
        TableSteps(names, tables, heard, listed, session.env);
        reply, made := session.Perform(Step(DescribeTable(names[i]), Some(names[i])), ListTablesJob, made, before,
            recorded);
        if !reply.Got? {
          return Passed(reply), made;
        }
        Regroup([listed], heard, [reply.response]);
        NextTable(heard, reply.response, listed, session.env);
        var table := ToTable(reply.response.table, session.env);
        if table == None {
          return Crashed, made;
        }
        tables := tables + [table.value];
        heard := heard + [reply.response];
      }
      outcome := Produced(TableValues(Sorting.Sort(tables, TableOrder)));
      TableSteps(names, tables, heard, listed, session.env);
    }

    method GetTable(name: Str) returns (outcome: Outcome, ghost made: seq<Attempt>)
      requires session.Valid()
      modifies session
      ensures session.Valid() && session.Made(old(session.attempts), old(session.records), made)
      ensures Conforms(GetTableJob(name), session.env, made, outcome)
    {
      NoCallsYet(GetTableJob(name), session.env, session.caller);
      outcome, made := Describe(name, GetTableJob(name), [], session.attempts, session.records);
    }

    method CreateTable(name: Str, partition: KeyAttribute, sort: Option<KeyAttribute>)
      returns (outcome: Outcome, ghost made: seq<Attempt>)
      requires session.Valid()
      modifies session
      ensures session.Valid() && session.Made(old(session.attempts), old(session.records), made)
      ensures Conforms(CreateTableJob(name, partition, sort), session.env, made, outcome)
    {
      ghost var before, recorded, job := session.attempts, session.records, CreateTableJob(name, partition, sort);
      NoCallsYet(job, session.env, session.caller);
      var schema := [KeySchema(partition.name, HASH)];
      var definitions := [AttributeDefinition(partition.name, partition.kind)];
      if sort.Some? && sort.value.name != [] {
        schema := schema + [KeySchema(sort.value.name, RANGE)];
        definitions := definitions + [AttributeDefinition(sort.value.name, sort.value.kind)];
      }
      assert schema == Schema(partition, sort) && definitions == Definitions(partition, sort);
      var reply;
      reply, made := session.Perform(Step(Request.CreateTable(name, schema, definitions), Some(name)), job, [],
          before, recorded);
      if !reply.Got? {
        return Passed(reply), made;
      }
      outcome, made := Describe(name, job, made, before, recorded);
    }

    /** `get_table`, alone or at the end of `create_table`. */
    method Describe(name: Str, ghost job: Job, ghost first: seq<Attempt>, ghost before: seq<Attempt>,
      ghost recorded: seq<Rec.Report>) returns (outcome: Outcome, ghost made: seq<Attempt>)
      requires session.Valid() && session.Made(before, recorded, first) && Underway(job, session.env, first)
      requires (job == GetTableJob(name) && first == []) || (job.CreateTableJob? && job.name == name && |first| == 1)
      modifies session
      ensures session.Valid() && session.Made(before, recorded, made)
      ensures Conforms(job, session.env, made, outcome)
    {
      DescribeSteps(job, name, session.env, Heard(first), Nothing);
      var reply;
      reply, made := session.Perform(Step(DescribeTable(name), Some(name)), job, first, before, recorded);
      if !reply.Got? {
        return Passed(reply), made;
      }
      DescribeSteps(job, name, session.env, Heard(first), reply.response);
      var table := ToTable(reply.response.table, session.env);
      outcome := if table == None then Crashed else Produced(TableValue(table.value));
    }

    method DeleteTable(name: Str) returns (outcome: Outcome, ghost made: seq<Attempt>)
      requires session.Valid()
      modifies session
      ensures session.Valid() && session.Made(old(session.attempts), old(session.records), made)
      ensures Conforms(DeleteTableJob(name), session.env, made, outcome)
    {
      NoCallsYet(DeleteTableJob(name), session.env, session.caller);
      var reply;
      reply, made := session.Perform(Step(Request.DeleteTable(name), Some(name)), DeleteTableJob(name), [],
                                     session.attempts, session.records);
      outcome := if reply.Got? then Produced(NoValue) else Passed(reply);
    }

    /** A cursor that cannot be read is refused before any call. */
    method ListItems(name: Str, pageSize: int, cursor: Option<Str>) returns (outcome: Outcome, ghost made: seq<Attempt>)
      requires session.Valid()
      modifies session
      ensures session.Valid() && session.Made(old(session.attempts), old(session.records), made)
      ensures Conforms(ListItemsJob(name, pageSize, cursor), session.env, made, outcome)
    {
      ghost var job := ListItemsJob(name, pageSize, cursor);
      NoCallsYet(job, session.env, session.caller);
      var start := ItemCursor.DecodeItemCursor(cursor);
      if start.Err? {
        return Raised(start.error), [];
      }
      var reply;
      reply, made := session.Perform(Step(Scan(name, pageSize, start.value), Some(name)), job, [],
                                     session.attempts, session.records);
      outcome := if reply.Got? then ScannedPage(reply.response) else Passed(reply);
    }

    method PutItem(name: Str, item: seq<DynamoValues.Field>) returns (outcome: Outcome, ghost made: seq<Attempt>)
      requires session.Valid()
      modifies session
      ensures session.Valid() && session.Made(old(session.attempts), old(session.records), made)
      ensures Conforms(PutItemJob(name, item), session.env, made, outcome)
    {
      NoCallsYet(PutItemJob(name, item), session.env, session.caller);
      var av := DynamoValues.ToAttributeValueMap(item);
      if av.Err? {
        return if av.error.Refused? then Raised(av.error.error) else Crashed, [];
      }
      var reply;
      reply, made := session.Perform(Step(Request.PutItem(name, av.value), Some(name)), PutItemJob(name, item), [],
                                     session.attempts, session.records);
      outcome := if reply.Got? then Produced(ItemValue(item)) else Passed(reply);
    }

    method DeleteItem(name: Str, key: seq<DynamoValues.Field>) returns (outcome: Outcome, ghost made: seq<Attempt>)
      requires session.Valid()
      modifies session
      ensures session.Valid() && session.Made(old(session.attempts), old(session.records), made)
      ensures Conforms(DeleteItemJob(name, key), session.env, made, outcome)
    {
      NoCallsYet(DeleteItemJob(name, key), session.env, session.caller);
      var av := DynamoValues.ToAttributeValueMap(key);
      if av.Err? {
        return if av.error.Refused? then Raised(av.error.error) else Crashed, [];
      }
      var reply;
      reply, made := session.Perform(Step(Request.DeleteItem(name, av.value), Some(name)), DeleteItemJob(name, key), [],
                                     session.attempts, session.records);
      outcome := if reply.Got? then Produced(NoValue) else Passed(reply);
    }
  }

  lemma DescribeSteps(job: Job, name: Str, env: Env, first: seq<Response>, r: Response)
    requires (job == GetTableJob(name) && first == []) || (job.CreateTableJob? && job.name == name && |first| == 1)
    ensures PlanOf(job, env, first) == Ask(Step(DescribeTable(name), Some(name)))
    ensures var table := ToTable(r.table, env);
      PlanOf(job, env, first + [r]) == Finish(if table == None then Crashed else Produced(TableValue(table.value)))
  {
    if job.CreateTableJob? { assert first[1..] == [] && (first + [r])[1..] == [r]; }
  }

  lemma TableSteps(names: seq<Str>, tables: seq<TableResource>, heard: seq<Response>, listed: Response, env: Env)
    requires listed.names == names && |heard| <= |names| && ToTables(heard, env) == Some(tables)
    ensures PlanOf(ListTablesJob, env, [listed] + heard)
         == if |heard| < |names| then Ask(Step(DescribeTable(names[|heard|]), Some(names[|heard|])))
            else Finish(Produced(TableValues(Sorting.Sort(tables, TableOrder))))
  {
    assert ([listed] + heard)[1..] == heard;
  }

  lemma NextTable(heard: seq<Response>, r: Response, listed: Response, env: Env)
    requires ToTables(heard, env).Some?
    ensures ToTables(heard + [r], env) == if ToTable(r.table, env) == None then None
                                          else Some(ToTables(heard, env).value + [ToTable(r.table, env).value])
    ensures ToTable(r.table, env) == None ==> PlanOf(ListTablesJob, env, [listed] + (heard + [r])) == Finish(Crashed)
  {
    assert (heard + [r])[..|heard|] == heard;
    assert ([listed] + (heard + [r]))[1..] == heard + [r];
  }
}
