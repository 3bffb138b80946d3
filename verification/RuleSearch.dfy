/** What one uninterrupted `apply` does, stated as a search rather than as a loop. */
module RuleSearch {
  import opened Wrappers
  import opened Errors
  import opened Registry

  /** The stream of `random.random()` results; the i-th one drawn is rolls(i). */
  type Rolls = nat -> real

  /** How many rolls the rules before position k draw: one for each rule that is not certain. */
  function RollsBefore(reg: Registry, refs: seq<Ref>, k: nat): nat
    requires k <= |refs|
    requires forall i :: 0 <= i < |refs| ==> refs[i] < |reg.objects|
  {
    if k == 0 then 0
    else RollsBefore(reg, refs, k - 1) + (if reg.objects[refs[k - 1]].probability < 1.0 then 1 else 0)
  }

  /** Whether the rule at position k passes the roll that is its own to draw. */
  predicate FiresAt(reg: Registry, refs: seq<Ref>, rolls: Rolls, k: nat)
    requires k < |refs|
    requires forall i :: 0 <= i < |refs| ==> refs[i] < |reg.objects|
  {
    reg.objects[refs[k]].Fires(rolls(RollsBefore(reg, refs, k)))
  }

  /** The first position from `from` on whose rule fires, or |refs| when none does. */
  function FirstFiring(reg: Registry, refs: seq<Ref>, rolls: Rolls, from: nat): (k: nat)
    requires from <= |refs|
    requires forall i :: 0 <= i < |refs| ==> refs[i] < |reg.objects|
    ensures from <= k <= |refs|
    ensures k < |refs| ==> FiresAt(reg, refs, rolls, k)
    ensures forall i :: from <= i < k ==> !FiresAt(reg, refs, rolls, i)
    decreases |refs| - from
  {
    if from == |refs| || FiresAt(reg, refs, rolls, from) then from
    else FirstFiring(reg, refs, rolls, from + 1)
  }

  /** The same search counting rolls as it goes: the position found and the rolls drawn. */
  function Search(reg: Registry, refs: seq<Ref>, rolls: Rolls, from: nat, used: nat): (r: (nat, nat))
    requires from <= |refs|
    requires forall i :: 0 <= i < |refs| ==> refs[i] < |reg.objects|
    ensures from <= r.0 <= |refs|
    decreases |refs| - from
  {
    if from == |refs| then (from, used)
    else
      var rule := reg.objects[refs[from]];
      var used' := used + if rule.probability < 1.0 then 1 else 0;
      if rule.Fires(rolls(used)) then (from, used') else Search(reg, refs, rolls, from + 1, used')
  }

  lemma {:induction false} TallySearch(reg: Registry, refs: seq<Ref>, rolls: Rolls, from: nat)
    requires from <= |refs|
    requires forall i :: 0 <= i < |refs| ==> refs[i] < |reg.objects|
    ensures var k := FirstFiring(reg, refs, rolls, from);
      Search(reg, refs, rolls, from, RollsBefore(reg, refs, from))
        == (k, RollsBefore(reg, refs, if k == |refs| then k else k + 1))
    decreases |refs| - from
  {
    if from < |refs| && !FiresAt(reg, refs, rolls, from) {
      TallySearch(reg, refs, rolls, from + 1);
    }
  }

  datatype Applied = Applied(
    reg: Registry,
    fired: Option<Ref>,
    rollsUsed: nat,
    sleptMs: int,
    raised: Option<AppError>)
  {
    /** The call is left having drawn `rolls` rolls, slept `ms` and raised `error`. */
    predicate Leaves(rolls: nat, ms: int, error: Option<AppError>) {
      rolls == rollsUsed && ms == sleptMs && error == raised
    }
  }

  function ApplySpec(reg: Registry, svc: string, op: string, rolls: Rolls): Applied
    requires forall i :: 0 <= i < |reg.live| ==> reg.live[i].value < |reg.objects|
  {
    ApplyTo(reg, Matching(reg, reg.live, svc, op), rolls)
  }

  /** The search over a given snapshot, nothing being unregistered meanwhile. */
  function ApplyTo(reg: Registry, refs: seq<Ref>, rolls: Rolls): Applied
    requires forall i :: 0 <= i < |refs| ==> refs[i] < |reg.objects|
  {
    var k := FirstFiring(reg, refs, rolls, 0);
    if k == |refs| then Applied(reg, None, RollsBefore(reg, refs, k), 0, None)
    else
      var rule := reg.objects[refs[k]];
      Applied(Commit(reg, refs[k]), Some(refs[k]), RollsBefore(reg, refs, k + 1), rule.delayMs,
              if rule.failure == LATENCY then None else Some(InjectedError(rule.failure)))
  }

  /** A rule of probability 1 fires on every roll; one of probability 0 fires exactly on a roll of 0,
      so over `random.random()`'s range [0, 1) "probability 0 never fires" holds iff the roll is not 0. */
  lemma ExtremeProbabilities(rule: Rule, roll: real)
    requires 0.0 <= roll < 1.0
    ensures rule.probability == 1.0 ==> rule.Fires(roll)
    ensures rule.probability == 0.0 ==> (!rule.Fires(roll) <==> roll != 0.0)
  {}

  /** The input on which a rule of probability 0 does fire. */
  lemma ZeroProbabilityCanFire()
    ensures NewRule(1, "s3", "CreateBucket", HTTP_500, 0, 0.0).Fires(0.0)
  {}

  /** `apply` fires rule q iff q is registered and matching, passes its roll, and every registered
      matching rule created before it fails its own. */
  lemma FiresExactlyTheFirst(reg: Registry, svc: string, op: string, rolls: Rolls, q: Ref)
    requires Valid(reg) && q < |reg.objects|
    ensures var refs := Matching(reg, reg.live, svc, op);
      ApplySpec(reg, svc, op, rolls).fired == Some(q) <==>
        exists k :: 0 <= k < |refs| && refs[k] == q && FiresAt(reg, refs, rolls, k)
          && forall i :: 0 <= i < k ==> !FiresAt(reg, refs, rolls, i)
  {
    SnapshotMeaning(reg, svc, op);
    var refs := Matching(reg, reg.live, svc, op);
    var f := FirstFiring(reg, refs, rolls, 0);
    forall k | 0 <= k < |refs| && refs[k] == q && FiresAt(reg, refs, rolls, k)
      && forall i :: 0 <= i < k ==> !FiresAt(reg, refs, rolls, i)
      ensures k == f
    {}
  }

  // ---- the search in words ----

  /** Registered, and for this service and operation or any. */
  ghost predicate Candidate(reg: Registry, svc: string, op: string, r: Ref) {
    && r < |reg.objects| && Registered(reg, r)
    && (reg.objects[r].service == svc || reg.objects[r].service == "*")
    && (reg.objects[r].operation == op || reg.objects[r].operation == "*")
  }

  /** The candidates created before rule q that are not certain: each draws a roll. */
  ghost function Drawers(reg: Registry, svc: string, op: string, q: Ref): set<Ref> {
    set r: Ref | 0 <= r < q && Candidate(reg, svc, op, r) && reg.objects[r].probability < 1.0
  }

  /** The rule is certain, or the roll drawn after those of the uncertain candidates before it is at most
      its probability. */
  ghost predicate Hits(reg: Registry, svc: string, op: string, rolls: Rolls, q: Ref)
    requires q < |reg.objects|
  {
    reg.objects[q].probability >= 1.0 || rolls(|Drawers(reg, svc, op, q)|) <= reg.objects[q].probability
  }

  /** The references of a snapshot up to position k. */
  lemma CandidatesBefore(reg: Registry, svc: string, op: string, k: nat)
    requires Valid(reg) && k < |Matching(reg, reg.live, svc, op)|
    ensures var refs := Matching(reg, reg.live, svc, op);
      forall r: Ref :: 0 <= r < refs[k] && Candidate(reg, svc, op, r) <==> r in refs[..k]
  {
    SnapshotMeaning(reg, svc, op);
    var refs := Matching(reg, reg.live, svc, op);
    forall r: Ref ensures 0 <= r < refs[k] && Candidate(reg, svc, op, r) <==> r in refs[..k] {
      if r in refs[..k] { assert r in refs; }
      if r < refs[k] && Candidate(reg, svc, op, r) {
        var i :| 0 <= i < |refs| && refs[i] == r;
      }
    }
  }

  lemma {:induction false} RollsAreDraws(reg: Registry, refs: seq<Ref>, k: nat)
    requires k <= |refs| && forall i :: 0 <= i < |refs| ==> refs[i] < |reg.objects|
    requires forall i, j :: 0 <= i < j < |refs| ==> refs[i] < refs[j]
    ensures RollsBefore(reg, refs, k) == |Uncertain(reg, refs[..k])|
  {
    if k > 0 {
      RollsAreDraws(reg, refs, k - 1);
      assert refs[..k] == refs[..k - 1] + [refs[k - 1]];
      UncertainNext(reg, refs[..k - 1], refs[k - 1]);
    }
  }

  /** The uncertain rules among these. */
  ghost function Uncertain(reg: Registry, refs: seq<Ref>): set<Ref>
    requires forall i :: 0 <= i < |refs| ==> refs[i] < |reg.objects|
  {
    set r: Ref | r in refs && reg.objects[r].probability < 1.0
  }

  lemma UncertainNext(reg: Registry, refs: seq<Ref>, r: Ref)
    requires r < |reg.objects| && r !in refs && forall i :: 0 <= i < |refs| ==> refs[i] < |reg.objects|
    ensures |Uncertain(reg, refs + [r])| == |Uncertain(reg, refs)| + if reg.objects[r].probability < 1.0 then 1 else 0
  {
    var more := refs + [r];
    assert forall x :: x in more <==> x in refs || x == r;
    if reg.objects[r].probability < 1.0 {
      assert Uncertain(reg, more) == Uncertain(reg, refs) + {r};
    } else {
      assert Uncertain(reg, more) == Uncertain(reg, refs);
    }
  }

  lemma RollIndex(reg: Registry, svc: string, op: string, k: nat)
    requires Valid(reg) && k < |Matching(reg, reg.live, svc, op)|
    ensures var refs := Matching(reg, reg.live, svc, op);
      RollsBefore(reg, refs, k) == |Drawers(reg, svc, op, refs[k])|
  {
    var refs := Matching(reg, reg.live, svc, op);
    SnapshotMeaning(reg, svc, op);
    CandidatesBefore(reg, svc, op, k);
    RollsAreDraws(reg, refs, k);
    assert Uncertain(reg, refs[..k]) == Drawers(reg, svc, op, refs[k]);
  }

  /** A candidate that hits, with no candidate before it that does. */
  ghost predicate FirstHit(reg: Registry, svc: string, op: string, rolls: Rolls, q: Ref) {
    && Candidate(reg, svc, op, q) && Hits(reg, svc, op, rolls, q)
    && forall r: Ref :: r < q && Candidate(reg, svc, op, r) ==> !Hits(reg, svc, op, rolls, r)
  }

  lemma OneFirstHit(reg: Registry, svc: string, op: string, rolls: Rolls, q: Ref, p: Ref)
    requires FirstHit(reg, svc, op, rolls, q) && FirstHit(reg, svc, op, rolls, p)
    ensures q == p
  {}

  lemma SnapshotHits(reg: Registry, svc: string, op: string, rolls: Rolls, k: nat)
    requires Valid(reg) && k < |Matching(reg, reg.live, svc, op)|
    ensures var refs := Matching(reg, reg.live, svc, op);
      Candidate(reg, svc, op, refs[k]) && (FiresAt(reg, refs, rolls, k) <==> Hits(reg, svc, op, rolls, refs[k]))
  {
    SnapshotMeaning(reg, svc, op);
    RollIndex(reg, svc, op, k);
    assert Matching(reg, reg.live, svc, op)[k] in Matching(reg, reg.live, svc, op);
  }

  lemma CandidatePosition(reg: Registry, svc: string, op: string, q: Ref) returns (k: nat)
    requires Valid(reg) && Candidate(reg, svc, op, q)
    ensures k < |Matching(reg, reg.live, svc, op)| && Matching(reg, reg.live, svc, op)[k] == q
  {
    SnapshotMeaning(reg, svc, op);
    assert q in Matching(reg, reg.live, svc, op);
    k :| 0 <= k < |Matching(reg, reg.live, svc, op)| && Matching(reg, reg.live, svc, op)[k] == q;
  }

  lemma SnapshotOrder(reg: Registry, svc: string, op: string, i: nat, k: nat)
    requires Valid(reg) && i < |Matching(reg, reg.live, svc, op)| && k < |Matching(reg, reg.live, svc, op)|
    requires Matching(reg, reg.live, svc, op)[i] < Matching(reg, reg.live, svc, op)[k]
    ensures i < k
  {
    SnapshotMeaning(reg, svc, op);
  }

  /** The position the search finds holds the first hit. */
  lemma FirstFiringHits(reg: Registry, svc: string, op: string, rolls: Rolls, f: nat)
    requires Valid(reg) && f < |Matching(reg, reg.live, svc, op)|
    requires f == FirstFiring(reg, Matching(reg, reg.live, svc, op), rolls, 0)
    ensures FirstHit(reg, svc, op, rolls, Matching(reg, reg.live, svc, op)[f])
  {
    var q := Matching(reg, reg.live, svc, op)[f];
    SnapshotHits(reg, svc, op, rolls, f);
    forall r: Ref | r < q && Candidate(reg, svc, op, r) ensures !Hits(reg, svc, op, rolls, r) {
      var i := CandidatePosition(reg, svc, op, r);
      SnapshotOrder(reg, svc, op, i, f);
      SnapshotHits(reg, svc, op, rolls, i);
    }
  }

  /** The search without its vocabulary: rule q is fired exactly if it is a candidate that hits and no
      candidate created before it hits. Then one roll was drawn for each uncertain candidate up to and
      including it. */
  lemma FiredInWords(reg: Registry, svc: string, op: string, rolls: Rolls, q: Ref)
    requires Valid(reg)
    ensures ApplySpec(reg, svc, op, rolls).fired == Some(q) <==> FirstHit(reg, svc, op, rolls, q)
    ensures ApplySpec(reg, svc, op, rolls).fired == Some(q) ==>
      ApplySpec(reg, svc, op, rolls).rollsUsed
      == |Drawers(reg, svc, op, q)| + if reg.objects[q].probability < 1.0 then 1 else 0
  {
    var f := FirstFiring(reg, Matching(reg, reg.live, svc, op), rolls, 0);
    if f < |Matching(reg, reg.live, svc, op)| {
      FirstFiringHits(reg, svc, op, rolls, f);
      RollIndex(reg, svc, op, f);
    }
    if FirstHit(reg, svc, op, rolls, q) {
      var k := CandidatePosition(reg, svc, op, q);
      SnapshotHits(reg, svc, op, rolls, k);
      OneFirstHit(reg, svc, op, rolls, q, Matching(reg, reg.live, svc, op)[f]);
    }
  }

  /** Without a fired rule no candidate hits. */
  lemma NothingFiredInWords(reg: Registry, svc: string, op: string, rolls: Rolls, q: Ref)
    requires Valid(reg) && ApplySpec(reg, svc, op, rolls).fired == None && Candidate(reg, svc, op, q)
    ensures !Hits(reg, svc, op, rolls, q)
  {
    var k := CandidatePosition(reg, svc, op, q);
    SnapshotHits(reg, svc, op, rolls, k);
  }

  /** Only the fired rule changes, by one hit; without a fired rule nothing changes and nothing is
      delayed; the fired rule alone decides the delay (never above the cap) and the error, so a
      firing LATENCY rule hides every failing rule created after it. */
  lemma ApplyEffect(reg: Registry, svc: string, op: string, rolls: Rolls)
    requires Valid(reg)
    ensures var a := ApplySpec(reg, svc, op, rolls);
      && Valid(a.reg) && a.reg.live == reg.live && a.reg.nextId == reg.nextId
      && |a.reg.objects| == |reg.objects|
      && (forall r :: 0 <= r < |reg.objects| ==>
            a.reg.objects[r] == if a.fired == Some(r) then Hit(reg.objects[r]) else reg.objects[r])
      && 0 <= a.sleptMs <= MAX_DELAY_MS
      && (a.fired == None ==> a.reg == reg && a.sleptMs == 0 && a.raised == None)
      && (a.fired.Some? ==>
            && a.fired.value < |reg.objects|
            && Registered(reg, a.fired.value)
            && reg.objects[a.fired.value].Matches(svc, op)
            && a.sleptMs == reg.objects[a.fired.value].delayMs
            && a.raised == (if reg.objects[a.fired.value].failure == LATENCY then None
                            else Some(InjectedError(reg.objects[a.fired.value].failure))))
  {
    SnapshotMeaning(reg, svc, op);
    var refs := Matching(reg, reg.live, svc, op);
    var k := FirstFiring(reg, refs, rolls, 0);
    if k < |refs| {
      assert refs[k] in refs;
      CommitValid(reg, refs[k]);
      assert RuleValid(reg.objects[refs[k]], refs[k]);
    }
  }

  lemma ApplyKeepsValid(reg: Registry, svc: string, op: string, rolls: Rolls)
    requires Valid(reg)
    ensures Valid(ApplySpec(reg, svc, op, rolls).reg)
  {
    ApplyEffect(reg, svc, op, rolls);
  }
}
