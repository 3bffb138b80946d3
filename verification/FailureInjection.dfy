/** The failure injector: a registry of live rule objects, updated in place one lock region at a time. */
module FailureInjection {
  import opened Wrappers
  import opened Dict
  import opened Errors
  import opened RuleSearch
  import R = Registry

  class FailureRule {
    const id: string
    const service: string
    const operation: string
    const failure: FailureType
    const delayMs: int
    const probability: real
    var hitCount: nat

    /** The position of this rule among all rules ever created: its reference in the registry value. */
    ghost const ref: R.Ref

    constructor (id: string, service: string, operation: string, failure: FailureType, delayMs: int,
      probability: real, ghost ref: R.Ref)
      ensures Value() == R.Rule(id, service, operation, failure, delayMs, probability, 0)
      ensures this.ref == ref
    {
      this.ref := ref;
      this.id, this.service, this.operation := id, service, operation;
      this.failure, this.delayMs, this.probability := failure, delayMs, probability;
      hitCount := 0;
    }

    /** The rule as a value. */
    function Value(): R.Rule
      reads this
    {
      R.Rule(id, service, operation, failure, delayMs, probability, hitCount)
    }

    predicate Matches(svc: string, op: string) {
      (service == svc || service == R.WILDCARD) && (operation == op || operation == R.WILDCARD)
    }
  }

  class FailureInjector {
    var rules: seq<Entry<string, FailureRule>>
    var nextId: nat

    /** Every rule object this injector created, and the registry value it implements. */
    ghost var created: seq<FailureRule>
    ghost var view: R.Registry

    ghost predicate Valid()
      reads this, created
    {
      R.Valid(view) && nextId == view.nextId && Holds(view)
    }

    /** The objects carry the rules of v, and the dictionary is v's. */
    ghost predicate Holds(v: R.Registry)
      reads this`rules, this`created, created
    {
      && |created| == |v.objects|
      && (forall i :: 0 <= i < |created| ==> created[i].ref == i && created[i].Value() == v.objects[i])
      && |rules| == |v.live|
      && (forall i :: 0 <= i < |rules| ==> rules[i].key == v.live[i].key)
      && (forall i :: 0 <= i < |rules| ==>
            v.live[i].value < |created| && rules[i].value == created[v.live[i].value])
    }

    constructor ()
      ensures Valid() && view == R.Empty && created == []
    {
      rules, nextId := [], 1;
      created, view := [], R.Empty;
    }

    /** The registered rule objects, oldest first. */
    method ListRules() returns (items: seq<FailureRule>)
      requires Valid()
      ensures |items| == |view.live|
      ensures forall i :: 0 <= i < |items| ==>
        view.live[i].value < |created| && items[i] == created[view.live[i].value]
    {
      items := [];
      for i := 0 to |rules|
        invariant |items| == i
        invariant forall j :: 0 <= j < i ==> items[j] == rules[j].value
      {
        items := items + [rules[i].value];
      }
    }

    method AddRule(service: string, operation: string, failure: FailureType, delayMs: int, probability: real)
      returns (rule: FailureRule)
      requires Valid()
      modifies this
      ensures Valid()
      ensures fresh(rule) && created == old(created) + [rule]
      ensures view == R.AddRule(old(view), service, operation, failure, delayMs, probability)
      ensures rule.id == R.RuleId(old(nextId)) && rule.hitCount == 0
      ensures rule.service == service && rule.operation == operation && rule.failure == failure
      ensures rule.delayMs == (if delayMs < 0 then 0 else if delayMs > 30_000 then 30_000 else delayMs)
      ensures rule.probability == (if probability < 0.0 then 0.0 else if probability > 1.0 then 1.0 else probability)
    {
      var delay := R.Clamp(delayMs, 0, R.MAX_DELAY_MS);
      var chance := R.ClampReal(probability, 0.0, 1.0);
      rule := new FailureRule(R.RuleId(nextId), service, operation, failure, delay, chance, |created|);
      R.AddRuleValid(view, service, operation, failure, delayMs, probability);
      nextId := nextId + 1;
      Store(rule, view);
      view := R.AddRule(view, service, operation, failure, delayMs, probability);
    }

    /** Puts a new rule into the dictionary under its own id, behind all others. */
    method Store(rule: FailureRule, ghost v: R.Registry)
      requires Holds(v) && rule.ref == |v.objects| && !HasKey(v.live, rule.id)
      modifies this`rules, this`created
      ensures Holds(R.Registry(v.objects + [rule.Value()], v.live + [Entry(rule.id, |v.objects|)], v.nextId + 1))
      ensures created == old(created) + [rule]
    {
      SameKeys(rules, v.live, rule.id);
      rules := Put(rules, rule.id, rule);
      created := created + [rule];
    }

    method DeleteRule(ruleId: string) returns (removed: bool)
      requires Valid()
      modifies this
      ensures Valid() && created == old(created)
      ensures view == R.DeleteRule(old(view), ruleId)
      ensures removed <==> HasKey(old(view).live, ruleId)
    {
      removed := Pop(ruleId, view);
      R.DeleteRuleKeepsValid(view, ruleId);
      view := R.DeleteRule(view, ruleId);
    }

    /** Takes the entry of that id out of the dictionary and tells whether there was one. */
    method Pop(ruleId: string, ghost v: R.Registry) returns (removed: bool)
      requires Holds(v)
      modifies this`rules
      ensures Holds(R.DeleteRule(v, ruleId))
      ensures removed <==> HasKey(v.live, ruleId)
    {
      SameKeys(rules, v.live, ruleId);
      removed := HasKey(rules, ruleId);
      rules := Remove(rules, ruleId);
    }

    method Clear()
      requires Valid()
      modifies this
      ensures Valid() && created == old(created)
      ensures view == R.Clear(old(view))
    {
      rules := [];
      R.ClearValid(view);
      view := R.Clear(view);
    }

    /** First lock region of `apply`: the matching rule objects. */
    method Snapshot(service: string, operation: string, ghost v: R.Registry)
      returns (matching: seq<FailureRule>)
      requires Holds(v)
      ensures var refs := R.Matching(v, v.live, service, operation);
        && |matching| == |refs|
        && forall i :: 0 <= i < |matching| ==> matching[i] == created[refs[i]]
    {
      matching := [];
      ghost var refs: seq<R.Ref> := [];
      for i := 0 to |rules|
        invariant refs == R.Matching(v, v.live[..i], service, operation)
        invariant |matching| == |refs|
        invariant forall j :: 0 <= j < |refs| ==> refs[j] < |created| && matching[j] == created[refs[j]]
      {
        assert v.live[..i + 1][..i] == v.live[..i];
        var rule := rules[i].value;
        if rule.Matches(service, operation) {
          matching := matching + [rule];
          refs := refs + [v.live[i].value];
        }
      }
      assert v.live[..|rules|] == v.live;
    }

    /** Second lock region of `apply`: a held rule is counted if its id is still registered. */
    method CommitHit(rule: FailureRule, ghost v: R.Registry) returns (counted: bool)
      requires Holds(v) && rule in created
      modifies rule
      ensures rule.ref < |v.objects| && Holds(R.Commit(v, rule.ref))
      ensures counted == R.Registered(v, rule.ref)
    {
      SameKeys(rules, v.live, rule.id);
      assert rule.Value() == v.objects[rule.ref];
      counted := HasKey(rules, rule.id);
      if counted {
        rule.hitCount := rule.hitCount + 1;
      }
    }

    /** `apply` run without interruption. Sleeping is returned as `sleptMs`, raising as `raised`. */
    method Apply(service: string, operation: string, rolls: Rolls)
      returns (rollsUsed: nat, sleptMs: int, raised: Option<AppError>)
      requires Valid()
      modifies this`view, created
      ensures Valid()
      ensures view == ApplySpec(old(view), service, operation, rolls).reg
      ensures ApplySpec(old(view), service, operation, rolls).Leaves(rollsUsed, sleptMs, raised)
    {
      ghost var v := view;
      R.SnapshotRegistered(v, service, operation);
      rollsUsed, sleptMs, raised := ApplyHeld(service, operation, rolls, v);
      view := ApplySpec(v, service, operation, rolls).reg;
      ApplyKeepsValid(v, service, operation, rolls);
    }

    method ApplyHeld(service: string, operation: string, rolls: Rolls, ghost v: R.Registry)
      returns (rollsUsed: nat, sleptMs: int, raised: Option<AppError>)
      requires Holds(v)
      requires var refs := R.Matching(v, v.live, service, operation);
        forall i :: 0 <= i < |refs| ==> R.Registered(v, refs[i])
      modifies created
      ensures Holds(ApplySpec(v, service, operation, rolls).reg)
      ensures ApplySpec(v, service, operation, rolls).Leaves(rollsUsed, sleptMs, raised)
    {
      var matching := Snapshot(service, operation, v);
      rollsUsed, sleptMs, raised := TryRules(matching, rolls, v, R.Matching(v, v.live, service, operation));
    }

    /** The loop of `apply` over the snapshotted rules and what it leaves the call with. */
    method TryRules(matching: seq<FailureRule>, rolls: Rolls, ghost v: R.Registry, ghost refs: seq<R.Ref>)
      returns (rollsUsed: nat, sleptMs: int, raised: Option<AppError>)
      requires Holds(v) && |matching| == |refs|
      requires forall i :: 0 <= i < |refs| ==> refs[i] < |created| && matching[i] == created[refs[i]]
      requires forall i :: 0 <= i < |refs| ==> R.Registered(v, refs[i])
      modifies created
      ensures Holds(ApplyTo(v, refs, rolls).reg)
      ensures ApplyTo(v, refs, rolls).Leaves(rollsUsed, sleptMs, raised)
    {
      ghost var k := FirstFiring(v, refs, rolls, 0);
      TallySearch(v, refs, rolls, 0);
      var fired;
      rollsUsed, fired := FireFirst(matching, rolls, v, refs);
      if fired == None {
        return rollsUsed, 0, None;
      }
      var rule := fired.value;
      assert rule.Value() == R.Hit(v.objects[rule.ref]);
      sleptMs := rule.delayMs;
      raised := if rule.failure == LATENCY then None else Some(InjectedError(rule.failure));
    }

    method FireFirst(matching: seq<FailureRule>, rolls: Rolls, ghost v: R.Registry, ghost refs: seq<R.Ref>)
      returns (rollsUsed: nat, fired: Option<FailureRule>)
      requires Holds(v) && |matching| == |refs|
      requires forall i :: 0 <= i < |refs| ==> refs[i] < |created| && matching[i] == created[refs[i]]
      requires forall i :: 0 <= i < |refs| ==> R.Registered(v, refs[i])
      modifies created
      ensures rollsUsed == Search(v, refs, rolls, 0, 0).1
      ensures var k := Search(v, refs, rolls, 0, 0).0;
        if k == |refs| then fired == None && Holds(v)
        else fired == Some(matching[k]) && Holds(R.Commit(v, refs[k]))
    {
      rollsUsed := 0;
      for i := 0 to |matching|
        invariant Holds(v)
        invariant Search(v, refs, rolls, 0, 0) == Search(v, refs, rolls, i, rollsUsed)
      {
        var rule, hit := matching[i], false;
        rollsUsed, hit := TryRule(rule, rolls, rollsUsed, v);
        if hit {
          return rollsUsed, Some(rule);
        }
      }
      return rollsUsed, None;
    }

    /** One turn of the loop: roll, then count the hit if the rule is still registered. */
    method TryRule(rule: FailureRule, rolls: Rolls, used: nat, ghost v: R.Registry)
      returns (rollsUsed: nat, hit: bool)
      requires Holds(v) && rule in created
      modifies rule
      ensures rule.ref < |v.objects|
      ensures rollsUsed == used + if v.objects[rule.ref].probability < 1.0 then 1 else 0
      ensures hit == (v.objects[rule.ref].Fires(rolls(used)) && R.Registered(v, rule.ref))
      ensures Holds(if hit then R.Commit(v, rule.ref) else v)
    {
      assert rule.Value() == v.objects[rule.ref];
      rollsUsed := used;
      if rule.probability < 1.0 {
        var roll := rolls(rollsUsed);
        rollsUsed := rollsUsed + 1;
        if roll > rule.probability {
          return rollsUsed, false;
        }
      }
      hit := CommitHit(rule, v);
    }
  }
}
