/** The failure-rule registry as a value.

    A Python rule is an object: a call keeps references to the rules it snapshotted, whether or not
    they are still registered. `objects` is therefore every rule ever created, in creation order, and
    a reference is an index into it; `live` is the `_rules` dictionary, from rule id to reference. */
module Registry {
  import opened Dict
  import opened Errors
  import Decimal

  const WILDCARD := "*"
  const MAX_DELAY_MS := 30_000

  datatype Rule = Rule(
    id: string,
    service: string,
    operation: string,
    failure: FailureType,
    delayMs: int,
    probability: real,
    hitCount: nat)
  {
    predicate Matches(svc: string, op: string) {
      (service == svc || service == WILDCARD) && (operation == op || operation == WILDCARD)
    }

    /** Whether the rule fires on this roll of `random.random()`. */
    predicate Fires(roll: real) {
      !(probability < 1.0 && roll > probability)
    }
  }

  type Ref = nat

  datatype Registry = Registry(objects: seq<Rule>, live: seq<Entry<string, Ref>>, nextId: nat)

  const Empty := Registry([], [], 1)

  function DigitChar(d: Decimal.Digit): char {
    (48 + d) as char
  }

  /** The text `fr-{n}`. */
  function RuleId(n: nat): string {
    var ds := Decimal.Digits(n);
    "fr-" + seq(|ds|, i requires 0 <= i < |ds| => DigitChar(ds[i]))
  }

  function Clamp(x: int, lo: int, hi: int): int {
    var y := if x < lo then lo else x;
    if y > hi then hi else y
  }

  function ClampReal(x: real, lo: real, hi: real): real {
    var y := if x < lo then lo else x;
    if y > hi then hi else y
  }

  // ---- one atomic step per lock region ----

  function NewRule(n: nat, service: string, operation: string, failure: FailureType, delayMs: int,
    probability: real): Rule
  {
    Rule(RuleId(n), service, operation, failure, Clamp(delayMs, 0, MAX_DELAY_MS),
         ClampReal(probability, 0.0, 1.0), 0)
  }

  function AddRule(reg: Registry, service: string, operation: string, failure: FailureType,
    delayMs: int, probability: real): Registry
  {
    var rule := NewRule(reg.nextId, service, operation, failure, delayMs, probability);
    Registry(reg.objects + [rule], Put(reg.live, rule.id, |reg.objects|), reg.nextId + 1)
  }

  function DeleteRule(reg: Registry, id: string): Registry {
    reg.(live := Remove(reg.live, id))
  }

  function Clear(reg: Registry): Registry {
    reg.(live := [])
  }

  /** The first lock region of `apply`: references to the registered rules that match. */
  function Matching(reg: Registry, live: seq<Entry<string, Ref>>, svc: string, op: string): (refs: seq<Ref>)
    requires forall i :: 0 <= i < |live| ==> live[i].value < |reg.objects|
    ensures forall i :: 0 <= i < |refs| ==> refs[i] < |reg.objects|
  {
    if live == [] then []
    else
      var last := live[|live| - 1].value;
      Matching(reg, live[..|live| - 1], svc, op)
      + (if reg.objects[last].Matches(svc, op) then [last] else [])
  }

  /** `rule.id in self._rules`, asked of a rule some call holds a reference to. */
  predicate Registered(reg: Registry, r: Ref)
    requires r < |reg.objects|
  {
    HasKey(reg.live, reg.objects[r].id)
  }

  function Hit(rule: Rule): Rule {
    rule.(hitCount := rule.hitCount + 1)
  }

  /** The second lock region of `apply`: the held rule is counted if its id is still registered. */
  function Commit(reg: Registry, r: Ref): Registry
    requires r < |reg.objects|
  {
    if Registered(reg, r) then reg.(objects := reg.objects[r := Hit(reg.objects[r])]) else reg
  }

  // ---- the registry invariant ----

  ghost predicate Valid(reg: Registry) {
    && reg.nextId == |reg.objects| + 1
    && (forall i :: 0 <= i < |reg.objects| ==> RuleValid(reg.objects[i], i))
    && (forall i :: 0 <= i < |reg.live| ==> LiveEntryValid(reg.live[i], |reg.objects|))
    && (forall i, j :: 0 <= i < j < |reg.live| ==> reg.live[i].value < reg.live[j].value)
  }

  ghost predicate LiveEntryValid(e: Entry<string, Ref>, created: nat) {
    e.value < created && e.key == RuleId(e.value + 1)
  }

  ghost predicate RuleValid(rule: Rule, i: nat) {
    && rule.id == RuleId(i + 1)
    && 0 <= rule.delayMs <= MAX_DELAY_MS
    && 0.0 <= rule.probability <= 1.0
  }

  /** Rule ids are never shared: the number is read back from the text. */
  lemma RuleIdInjective(a: nat, b: nat)
    requires RuleId(a) == RuleId(b)
    ensures a == b
  {
    var da, db := Decimal.Digits(a), Decimal.Digits(b);
    var x, y := RuleId(a), RuleId(b);
    assert |x| == 3 + |da| && |y| == 3 + |db|;
    forall i | 0 <= i < |da| ensures da[i] == db[i] {
      assert x[3 + i] == DigitChar(da[i]) && y[3 + i] == DigitChar(db[i]);
    }
    assert da == db;
    Decimal.DigitsInjective(a, b);
  }

  lemma LiveKeysDistinct(reg: Registry)
    requires Valid(reg)
    ensures Distinct(reg.live)
  {
    forall i, j | 0 <= i < j < |reg.live| ensures reg.live[i].key != reg.live[j].key {
      if reg.live[i].key == reg.live[j].key {
        RuleIdInjective(reg.live[i].value + 1, reg.live[j].value + 1);
      }
    }
  }

  /** Finding a held rule's id in the registry means finding that very rule object. */
  lemma RegisteredIsSameObject(reg: Registry, r: Ref)
    requires Valid(reg) && r < |reg.objects|
    ensures Registered(reg, r) <==> Entry(RuleId(r + 1), r) in reg.live
    ensures Registered(reg, r) ==> reg.live[IndexOf(reg.live, reg.objects[r].id)].value == r
  {
    if Registered(reg, r) {
      var i := IndexOf(reg.live, reg.objects[r].id);
      RuleIdInjective(reg.live[i].value + 1, r + 1);
    }
    if Entry(RuleId(r + 1), r) in reg.live {
      var j :| 0 <= j < |reg.live| && reg.live[j] == Entry(RuleId(r + 1), r);
      LiveKeysDistinct(reg);
      FoundAt(reg.live, j);
    }
  }

  lemma EmptyValid()
    ensures Valid(Empty)
  {}

  /** A new rule gets an id no rule ever had, goes last, and every field is clamped or as given. */
  lemma AddRuleValid(reg: Registry, service: string, operation: string, failure: FailureType,
    delayMs: int, probability: real)
    requires Valid(reg)
    ensures Valid(AddRule(reg, service, operation, failure, delayMs, probability))
    ensures AddRule(reg, service, operation, failure, delayMs, probability).live
         == reg.live + [Entry(RuleId(reg.nextId), |reg.objects|)]
    ensures forall i :: 0 <= i < |reg.objects| ==> reg.objects[i].id != RuleId(reg.nextId)
    ensures !HasKey(reg.live, RuleId(reg.nextId))
  {
    forall i | 0 <= i < |reg.objects| ensures reg.objects[i].id != RuleId(reg.nextId) {
      if reg.objects[i].id == RuleId(reg.nextId) { RuleIdInjective(i + 1, reg.nextId); }
    }
    if HasKey(reg.live, RuleId(reg.nextId)) {
      RuleIdInjective(reg.live[IndexOf(reg.live, RuleId(reg.nextId))].value + 1, reg.nextId);
    }
  }

  /** The new rule is the last object and the only change among the objects. It has the fields given, no
      hits, a delay between 0 and 30,000 ms and a probability between 0 and 1, each the given one if that
      lies within and otherwise the nearer bound. */
  lemma AddedRule(reg: Registry, service: string, operation: string, failure: FailureType, delayMs: int,
    probability: real)
    ensures var reg' := AddRule(reg, service, operation, failure, delayMs, probability);
      && |reg'.objects| == |reg.objects| + 1 && reg'.objects[..|reg.objects|] == reg.objects
      && var rule := reg'.objects[|reg.objects|];
         && rule.id == RuleId(reg.nextId) && rule.hitCount == 0
         && rule.service == service && rule.operation == operation && rule.failure == failure
         && (delayMs <= 0 ==> rule.delayMs == 0)
         && (0 <= delayMs <= 30_000 ==> rule.delayMs == delayMs)
         && (30_000 <= delayMs ==> rule.delayMs == 30_000)
         && (probability <= 0.0 ==> rule.probability == 0.0)
         && (0.0 <= probability <= 1.0 ==> rule.probability == probability)
         && (1.0 <= probability ==> rule.probability == 1.0)
  {}

  /** The id reads "fr-" and the decimal digits of the number. */
  lemma RuleIdText(n: nat)
    ensures |RuleId(n)| > 3 && RuleId(n)[..3] == "fr-"
    ensures forall i :: 3 <= i < |RuleId(n)| ==> '0' <= RuleId(n)[i] <= '9'
    ensures Decimal.Value(seq(|RuleId(n)| - 3, i requires 0 <= i < |RuleId(n)| - 3 => DigitOf(RuleId(n)[i + 3]))) == n
  {
    var ds := Decimal.Digits(n);
    Decimal.ValueOfDigits(n);
    assert seq(|RuleId(n)| - 3, i requires 0 <= i < |RuleId(n)| - 3 => DigitOf(RuleId(n)[i + 3])) == ds;
  }

  function DigitOf(c: char): Decimal.Digit {
    if '0' <= c <= '9' then c as int - '0' as int else 0
  }

  lemma DeleteRuleKeepsValid(reg: Registry, id: string)
    requires Valid(reg)
    ensures Valid(DeleteRule(reg, id))
  {
    var live' := Remove(reg.live, id);
    forall i | 0 <= i < |live'| ensures LiveEntryValid(live'[i], |reg.objects|) {
      assert live'[i] in reg.live;
    }
  }

  /** Deleting drops exactly the rule of that id; every other rule stays registered. */
  lemma DeleteRuleValid(reg: Registry, id: string)
    requires Valid(reg)
    ensures Valid(DeleteRule(reg, id))
    ensures forall r :: 0 <= r < |reg.objects| ==>
      (Registered(DeleteRule(reg, id), r) <==> Registered(reg, r) && reg.objects[r].id != id)
  {
    DeleteRuleKeepsValid(reg, id);
    forall r | 0 <= r < |reg.objects|
      ensures Registered(DeleteRule(reg, id), r) <==> Registered(reg, r) && reg.objects[r].id != id
    {
      DeleteRuleRegistered(reg, id, r);
    }
  }

  lemma DeleteRuleRegistered(reg: Registry, id: string, r: Ref)
    requires Valid(reg) && Valid(DeleteRule(reg, id)) && r < |reg.objects|
    ensures Registered(DeleteRule(reg, id), r) <==> Registered(reg, r) && reg.objects[r].id != id
  {
    LiveKeysDistinct(reg);
    RegisteredIsSameObject(reg, r);
    RegisteredIsSameObject(DeleteRule(reg, id), r);
  }

  lemma ClearValid(reg: Registry)
    requires Valid(reg)
    ensures Valid(Clear(reg))
    ensures forall r :: 0 <= r < |reg.objects| ==> !Registered(Clear(reg), r)
  {}

  lemma CommitValid(reg: Registry, r: Ref)
    requires Valid(reg) && r < |reg.objects|
    ensures Valid(Commit(reg, r))
    ensures forall q :: 0 <= q < |reg.objects| ==> (Registered(Commit(reg, r), q) <==> Registered(reg, q))
  {}

  /** The snapshot holds exactly the registered matching rules, in creation order. */
  lemma {:induction false} MatchingExact(reg: Registry, live: seq<Entry<string, Ref>>, svc: string, op: string)
    requires forall i :: 0 <= i < |live| ==> live[i].value < |reg.objects|
    requires forall i, j :: 0 <= i < j < |live| ==> live[i].value < live[j].value
    ensures var refs := Matching(reg, live, svc, op);
      && (forall i, j :: 0 <= i < j < |refs| ==> refs[i] < refs[j])
      && (forall r :: r in refs <==>
            (exists e :: e in live && e.value == r && reg.objects[r].Matches(svc, op)))
  {
    if live != [] {
      var init, last := live[..|live| - 1], live[|live| - 1].value;
      MatchingExact(reg, init, svc, op);
      var refs := Matching(reg, init, svc, op);
      assert live == init + [live[|live| - 1]];
      forall r | r in refs ensures r < last {
        var e :| e in init && e.value == r;
      }
      assert forall i :: 0 <= i < |refs| ==> refs[i] in refs;
    }
  }

  /** What a snapshot of a valid registry means: registered and matching, in creation order. */
  lemma SnapshotMeaning(reg: Registry, svc: string, op: string)
    requires Valid(reg)
    ensures var refs := Matching(reg, reg.live, svc, op);
      && (forall i, j :: 0 <= i < j < |refs| ==> refs[i] < refs[j])
      && (forall r :: r in refs <==>
            0 <= r < |reg.objects| && Registered(reg, r) && reg.objects[r].Matches(svc, op))
  {
    MatchingExact(reg, reg.live, svc, op);
    var refs := Matching(reg, reg.live, svc, op);
    forall r: int ensures r in refs <==>
      0 <= r < |reg.objects| && Registered(reg, r) && reg.objects[r].Matches(svc, op)
    {
      if 0 <= r < |reg.objects| {
        RegisteredIsSameObject(reg, r);
        assert forall e :: e in reg.live && e.value == r ==> e == Entry(RuleId(r + 1), r);
      }
    }
  }

  lemma SnapshotRegistered(reg: Registry, svc: string, op: string)
    requires Valid(reg)
    ensures var refs := Matching(reg, reg.live, svc, op);
      forall i :: 0 <= i < |refs| ==> Registered(reg, refs[i])
  {
    SnapshotMeaning(reg, svc, op);
    var refs := Matching(reg, reg.live, svc, op);
    assert forall i :: 0 <= i < |refs| ==> refs[i] in refs;
  }
}
