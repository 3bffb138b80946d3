/** How `apply` searches while other threads change the rules: every rule it passes over it has rolled for
    and either missed, or found unregistered when it came to count the hit. */
module InterruptedSearch {
  import opened Wrappers
  import opened Errors
  import opened Text
  import opened Registry
  import opened Accounting
  import opened Guarantees
  import opened Pipeline

  // ---- what happened to one snapshotted rule ----

  /** Event k is the roll of call c for the i-th rule of its snapshot. */
  ghost predicate RolledAt(maxHistory: nat, es: seq<Event>, c: nat, refs: seq<Ref>, i: nat, k: nat, roll: real) {
    && i < |refs| && k < |es| && es[k] == RollEvent(c, roll)
    && var s := Exec(maxHistory, es[..k]);
       c < |s.calls| && s.calls[c].phase == Trying(i) && refs[i] < |s.reg.objects|
  }

  /** The roll missed: the rule is not certain and the roll is above its probability. */
  ghost predicate MissedAt(maxHistory: nat, es: seq<Event>, c: nat, refs: seq<Ref>, i: nat, k: nat, roll: real) {
    && RolledAt(maxHistory, es, c, refs, i, k, roll)
    && var rule := Exec(maxHistory, es[..k]).reg.objects[refs[i]]; rule.probability < 1.0 && rule.probability < roll
  }

  /** The roll hit: the rule is certain, or the roll is at most its probability. */
  ghost predicate FiredAt(maxHistory: nat, es: seq<Event>, c: nat, refs: seq<Ref>, i: nat, k: nat, roll: real) {
    && RolledAt(maxHistory, es, c, refs, i, k, roll)
    && var rule := Exec(maxHistory, es[..k]).reg.objects[refs[i]]; rule.probability >= 1.0 || roll <= rule.probability
  }

  /** Event m is where call c came to count the i-th rule and found it no longer registered. */
  ghost predicate LapsedAt(maxHistory: nat, es: seq<Event>, c: nat, refs: seq<Ref>, i: nat, m: nat) {
    && i < |refs| && m < |es| && es[m] == CommitEvent(c)
    && var s := Exec(maxHistory, es[..m]);
       && c < |s.calls| && s.calls[c].phase == Committing(i)
       && refs[i] < |s.reg.objects| && !Registered(s.reg, refs[i])
  }

  ghost predicate Missed(maxHistory: nat, es: seq<Event>, c: nat, refs: seq<Ref>, i: nat) {
    exists k: nat, roll :: MissedAt(maxHistory, es, c, refs, i, k, roll)
  }

  ghost predicate Fired(maxHistory: nat, es: seq<Event>, c: nat, refs: seq<Ref>, i: nat) {
    exists k: nat, roll :: FiredAt(maxHistory, es, c, refs, i, k, roll)
  }

  ghost predicate Lapsed(maxHistory: nat, es: seq<Event>, c: nat, refs: seq<Ref>, i: nat) {
    exists k: nat, roll, m: nat ::
      FiredAt(maxHistory, es, c, refs, i, k, roll) && k < m && LapsedAt(maxHistory, es, c, refs, i, m)
  }

  ghost predicate PassedOver(maxHistory: nat, es: seq<Event>, c: nat, refs: seq<Ref>, i: nat) {
    Missed(maxHistory, es, c, refs, i) || Lapsed(maxHistory, es, c, refs, i)
  }

  ghost predicate AllPassedOver(maxHistory: nat, es: seq<Event>, c: nat, refs: seq<Ref>, n: nat) {
    n <= |refs| && forall i :: 0 <= i < n ==> PassedOver(maxHistory, es, c, refs, i)
  }

  // ---- the invariant ----

  /** The call's hit is at position p of its snapshot. */
  ghost predicate HitAt(maxHistory: nat, es: seq<Event>, c: nat, call: Call, p: nat) {
    && p < |call.snapshot| && call.hit == Some(call.snapshot[p])
    && Fired(maxHistory, es, c, call.snapshot, p)
    && AllPassedOver(maxHistory, es, c, call.snapshot, p)
  }

  ghost predicate SearchInv(maxHistory: nat, es: seq<Event>, c: nat, call: Call) {
    if call.phase.Started? then call.hit == None
    else if call.phase.Trying? then
      call.hit == None && AllPassedOver(maxHistory, es, c, call.snapshot, call.phase.i)
    else if call.phase.Committing? then
      && call.hit == None && AllPassedOver(maxHistory, es, c, call.snapshot, call.phase.i)
      && Fired(maxHistory, es, c, call.snapshot, call.phase.i)
    else if call.hit == None then
      !call.phase.Sleeping? && AllPassedOver(maxHistory, es, c, call.snapshot, |call.snapshot|)
    else exists p :: HitAt(maxHistory, es, c, call, p)
  }

  // ---- later events keep what happened ----

  lemma FiredStays(maxHistory: nat, es: seq<Event>, e: Event, c: nat, refs: seq<Ref>, i: nat, k: nat, roll: real)
    requires FiredAt(maxHistory, es, c, refs, i, k, roll)
    ensures FiredAt(maxHistory, es + [e], c, refs, i, k, roll)
  {
    PrefixOfSnoc(es, e, k);
  }

  lemma MissedStays(maxHistory: nat, es: seq<Event>, e: Event, c: nat, refs: seq<Ref>, i: nat, k: nat, roll: real)
    requires MissedAt(maxHistory, es, c, refs, i, k, roll)
    ensures MissedAt(maxHistory, es + [e], c, refs, i, k, roll)
  {
    PrefixOfSnoc(es, e, k);
  }

  lemma LapsedStays(maxHistory: nat, es: seq<Event>, e: Event, c: nat, refs: seq<Ref>, i: nat, m: nat)
    requires LapsedAt(maxHistory, es, c, refs, i, m)
    ensures LapsedAt(maxHistory, es + [e], c, refs, i, m)
  {
    PrefixOfSnoc(es, e, m);
  }

  lemma EverFiredStays(maxHistory: nat, es: seq<Event>, e: Event, c: nat, refs: seq<Ref>, i: nat)
    requires Fired(maxHistory, es, c, refs, i)
    ensures Fired(maxHistory, es + [e], c, refs, i)
  {
    var k: nat, roll :| FiredAt(maxHistory, es, c, refs, i, k, roll);
    FiredStays(maxHistory, es, e, c, refs, i, k, roll);
  }

  lemma PassedStays(maxHistory: nat, es: seq<Event>, e: Event, c: nat, refs: seq<Ref>, i: nat)
    requires PassedOver(maxHistory, es, c, refs, i)
    ensures PassedOver(maxHistory, es + [e], c, refs, i)
  {
    if Missed(maxHistory, es, c, refs, i) {
      var k: nat, roll :| MissedAt(maxHistory, es, c, refs, i, k, roll);
      MissedStays(maxHistory, es, e, c, refs, i, k, roll);
    } else {
      var k: nat, roll, m: nat :|
        FiredAt(maxHistory, es, c, refs, i, k, roll) && k < m && LapsedAt(maxHistory, es, c, refs, i, m);
      FiredStays(maxHistory, es, e, c, refs, i, k, roll);
      LapsedStays(maxHistory, es, e, c, refs, i, m);
    }
  }

  lemma AllStay(maxHistory: nat, es: seq<Event>, e: Event, c: nat, refs: seq<Ref>, n: nat)
    requires AllPassedOver(maxHistory, es, c, refs, n)
    ensures AllPassedOver(maxHistory, es + [e], c, refs, n)
  {
    forall i | 0 <= i < n ensures PassedOver(maxHistory, es + [e], c, refs, i) {
      PassedStays(maxHistory, es, e, c, refs, i);
    }
  }

  lemma InvStays(maxHistory: nat, es: seq<Event>, e: Event, c: nat, call: Call)
    requires SearchInv(maxHistory, es, c, call)
    ensures SearchInv(maxHistory, es + [e], c, call)
  {
    var refs := call.snapshot;
    if call.phase.Started? {
    } else if call.phase.Trying? {
      AllStay(maxHistory, es, e, c, refs, call.phase.i);
    } else if call.phase.Committing? {
      AllStay(maxHistory, es, e, c, refs, call.phase.i);
      EverFiredStays(maxHistory, es, e, c, refs, call.phase.i);
    } else if call.hit == None {
      AllStay(maxHistory, es, e, c, refs, |refs|);
    } else {
      var p :| HitAt(maxHistory, es, c, call, p);
      AllStay(maxHistory, es, e, c, refs, p);
      EverFiredStays(maxHistory, es, e, c, refs, p);
      assert HitAt(maxHistory, es + [e], c, call, p);
    }
  }

  // ---- a step of the call itself ----

  /** The step that has just been taken, seen from the run it ends. */
  lemma LastEvent(es: seq<Event>, e: Event)
    ensures |es| < |es + [e]| && (es + [e])[|es|] == e && (es + [e])[..|es|] == es
  {}

  lemma RollKeeps(maxHistory: nat, es: seq<Event>, e: Event, c: nat, s: State)
    requires s == Exec(maxHistory, es) && c < |s.calls| && s.calls[c].phase.Trying? && e.RollEvent? && e.call == c
    requires s.calls[c].phase.i < |s.calls[c].snapshot| && s.calls[c].snapshot[s.calls[c].phase.i] < |s.reg.objects|
    requires SearchInv(maxHistory, es, c, s.calls[c])
    ensures var call, i := s.calls[c], s.calls[c].phase.i;
      SearchInv(maxHistory, es + [e], c, Rolled(call, i, s.reg.objects[call.snapshot[i]], e.roll))
  {
    var call, i := s.calls[c], s.calls[c].phase.i;
    LastEvent(es, e);
    AllStay(maxHistory, es, e, c, call.snapshot, i);
    if s.reg.objects[call.snapshot[i]].Fires(e.roll) {
      assert FiredAt(maxHistory, es + [e], c, call.snapshot, i, |es|, e.roll);
    } else {
      assert MissedAt(maxHistory, es + [e], c, call.snapshot, i, |es|, e.roll);
      OneMorePassed(maxHistory, es + [e], c, call.snapshot, i);
    }
  }

  lemma OneMorePassed(maxHistory: nat, es: seq<Event>, c: nat, refs: seq<Ref>, n: nat)
    requires AllPassedOver(maxHistory, es, c, refs, n) && n < |refs| && PassedOver(maxHistory, es, c, refs, n)
    ensures AllPassedOver(maxHistory, es, c, refs, n + 1)
  {}

  lemma LapsesNow(maxHistory: nat, es: seq<Event>, c: nat, refs: seq<Ref>, i: nat)
    requires Fired(maxHistory, es, c, refs, i) && LapsedAt(maxHistory, es + [CommitEvent(c)], c, refs, i, |es|)
    ensures PassedOver(maxHistory, es + [CommitEvent(c)], c, refs, i)
  {
    var k: nat, roll :| FiredAt(maxHistory, es, c, refs, i, k, roll);
    FiredStays(maxHistory, es, CommitEvent(c), c, refs, i, k, roll);
    assert k < |es|;
  }

  lemma UnregisteredNow(maxHistory: nat, es: seq<Event>, c: nat, s: State, refs: seq<Ref>, i: nat)
    requires s == Exec(maxHistory, es) && c < |s.calls| && s.calls[c].phase == Committing(i)
    requires i < |refs| && refs[i] < |s.reg.objects| && !Registered(s.reg, refs[i])
    ensures LapsedAt(maxHistory, es + [CommitEvent(c)], c, refs, i, |es|)
  {
    LastEvent(es, CommitEvent(c));
  }

  lemma CommitKeeps(maxHistory: nat, es: seq<Event>, c: nat, s: State, call: Call, i: nat)
    requires s == Exec(maxHistory, es) && c < |s.calls| && s.calls[c] == call && call.phase == Committing(i)
    requires i < |call.snapshot| && call.snapshot[i] < |s.reg.objects|
    requires SearchInv(maxHistory, es, c, call)
    ensures SearchInv(maxHistory, es + [CommitEvent(c)], c,
                      Counted(call, i, Registered(s.reg, call.snapshot[i]), s.time))
  {
    var e, refs := CommitEvent(c), call.snapshot;
    AllStay(maxHistory, es, e, c, refs, i);
    EverFiredStays(maxHistory, es, e, c, refs, i);
    if Registered(s.reg, refs[i]) {
      assert HitAt(maxHistory, es + [e], c, Counted(call, i, true, s.time), i);
    } else {
      UnregisteredNow(maxHistory, es, c, s, refs, i);
      LapsesNow(maxHistory, es, c, refs, i);
      OneMorePassed(maxHistory, es + [e], c, refs, i);
    }
  }

  /** The other steps of a call leave snapshot and hit alone once the search is over. */
  lemma OtherKeeps(maxHistory: nat, es: seq<Event>, c: nat, call: Call, call': Call)
    requires SearchInv(maxHistory, es, c, call)
    requires !call.phase.Started? && !call.phase.Trying? && !call.phase.Committing?
    requires !call'.phase.Started? && !call'.phase.Trying? && !call'.phase.Committing? && !call'.phase.Sleeping?
    requires call'.snapshot == call.snapshot && call'.hit == call.hit
    ensures SearchInv(maxHistory, es, c, call')
  {
    if call.hit.Some? {
      var p :| HitAt(maxHistory, es, c, call, p);
      assert HitAt(maxHistory, es, c, call', p);
    }
  }

  /** Which step a call takes, as far as its search is concerned. */
  lemma StepCases(s: State, c: nat, e: Event)
    requires Wf(s) && c < |s.calls|
    ensures var call, call' := s.calls[c], CallStep(s, c, e).calls[c];
      || call' == call
      || (call.phase.Started? && call' == Snapshotted(call, s.reg, s.time))
      || (call.phase.Trying? && e.RollEvent?
          && call' == Rolled(call, call.phase.i, s.reg.objects[call.snapshot[call.phase.i]], e.roll))
      || (call.phase.Committing? && e.CommitEvent?
          && call' == Counted(call, call.phase.i, Registered(s.reg, call.snapshot[call.phase.i]), s.time))
      || (!call.phase.Started? && !call.phase.Trying? && !call.phase.Committing?
          && !call'.phase.Started? && !call'.phase.Trying? && !call'.phase.Committing? && !call'.phase.Sleeping?
          && call'.snapshot == call.snapshot && call'.hit == call.hit)
  {}

  lemma CallStepKeepsSearch(maxHistory: nat, es: seq<Event>, e: Event, c: nat, s: State)
    requires s == Exec(maxHistory, es) && c < |s.calls| && CallEvent(e) && e.call == c
    requires SearchInv(maxHistory, es, c, s.calls[c])
    ensures SearchInv(maxHistory, es + [e], c, CallStep(s, c, e).calls[c])
  {
    var call, call' := s.calls[c], CallStep(s, c, e).calls[c];
    StepCases(s, c, e);
    assert CallWf(call, |s.reg.objects|);
    if call' == call {
      InvStays(maxHistory, es, e, c, call);
    } else if call.phase.Started? {
      assert AllPassedOver(maxHistory, es + [e], c, call'.snapshot, 0);
    } else if call.phase.Trying? {
      RollKeeps(maxHistory, es, e, c, s);
    } else if call.phase.Committing? {
      CommitKeeps(maxHistory, es, c, s, call, call.phase.i);
    } else {
      InvStays(maxHistory, es, e, c, call);
      OtherKeeps(maxHistory, es + [e], c, call, call');
    }
  }

  lemma {:induction false} SearchHolds(maxHistory: nat, es: seq<Event>, c: nat)
    requires c < |Exec(maxHistory, es).calls|
    ensures SearchInv(maxHistory, es, c, Exec(maxHistory, es).calls[c])
  {
    if es != [] {
      var before, e := es[..|es| - 1], es[|es| - 1];
      var s := Exec(maxHistory, before);
      assert before + [e] == es;
      ExecSnoc(maxHistory, before, e);
      if c >= |s.calls| {
        NewCallIsStarted(s, e, c);
      } else {
        SearchHolds(maxHistory, before, c);
        if CallEvent(e) && e.call == c {
          CallStepKeepsSearch(maxHistory, before, e, c, s);
        } else {
          OtherCallsUntouched(s, e, c);
          InvStays(maxHistory, before, e, c, s.calls[c]);
        }
      }
    }
  }

  // ---- what it means ----

  /** The rule that hits a call fired on its roll, and every rule before it in the snapshot was passed over
      for cause. */
  lemma HitIsFirstToFire(maxHistory: nat, es: seq<Event>, c: nat) returns (p: nat)
    requires c < |Exec(maxHistory, es).calls| && Exec(maxHistory, es).calls[c].hit.Some?
    ensures var call := Exec(maxHistory, es).calls[c];
      && p < |call.snapshot| && call.snapshot[p] == call.hit.value
      && Fired(maxHistory, es, c, call.snapshot, p)
      && forall i :: 0 <= i < p ==> PassedOver(maxHistory, es, c, call.snapshot, i)
  {
    SearchHolds(maxHistory, es, c);
    p :| HitAt(maxHistory, es, c, Exec(maxHistory, es).calls[c], p);
  }

  /** A call comes to its provider call without a hit only after every snapshotted rule was passed over
      for cause. */
  lemma NoHitOnlyAfterAll(maxHistory: nat, es: seq<Event>, c: nat, i: nat)
    requires c < |Exec(maxHistory, es).calls|
    requires var call := Exec(maxHistory, es).calls[c];
      call.hit == None && (call.phase.Ready? || call.phase.Ending? || call.phase.Done?) && i < |call.snapshot|
    ensures PassedOver(maxHistory, es, c, Exec(maxHistory, es).calls[c].snapshot, i)
  {
    SearchHolds(maxHistory, es, c);
  }

  /** Whether the call has left this rule behind: it was hit by a later one, or is past `apply` unhit. */
  ghost predicate LeftBehind(call: Call, r: Ref) {
    if call.hit.Some? then r < call.hit.value else call.phase.Ready? || call.phase.Ending? || call.phase.Done?
  }

  /** No rule is skipped without cause: a rule that was registered and matched when the call took its
      snapshot, and that the call has left behind, was rolled for; it missed its roll, or fired and was
      unregistered by then. */
  lemma NoRuleIsSkipped(maxHistory: nat, es: seq<Event>, c: nat, r: Ref) returns (i: nat)
    requires c < |Exec(maxHistory, es).calls| && !Exec(maxHistory, es).calls[c].phase.Started?
    requires LeftBehind(Exec(maxHistory, es).calls[c], r)
    requires var call := Exec(maxHistory, es).calls[c];
      && call.snapshotAt <= |es|
      && var reg := Exec(maxHistory, es[..call.snapshotAt]).reg;
         && r < |reg.objects| && Registered(reg, r)
         && (reg.objects[r].service == call.service || reg.objects[r].service == "*")
         && (reg.objects[r].operation == call.operation || reg.objects[r].operation == "*")
    ensures var call := Exec(maxHistory, es).calls[c];
      && i < |call.snapshot| && call.snapshot[i] == r
      && PassedOver(maxHistory, es, c, call.snapshot, i)
  {
    i := InSnapshot(maxHistory, es, c, r);
    var call := Exec(maxHistory, es).calls[c];
    if call.hit.Some? {
      var p := HitIsFirstToFire(maxHistory, es, c);
      if p <= i { SnapshotAscends(maxHistory, es, c, p, i); }
    } else {
      NoHitOnlyAfterAll(maxHistory, es, c, i);
    }
  }

  /** A rule that was registered and matched at the snapshot is in it. */
  lemma InSnapshot(maxHistory: nat, es: seq<Event>, c: nat, r: Ref) returns (i: nat)
    requires c < |Exec(maxHistory, es).calls| && !Exec(maxHistory, es).calls[c].phase.Started?
    requires var call := Exec(maxHistory, es).calls[c];
      && call.snapshotAt <= |es|
      && var reg := Exec(maxHistory, es[..call.snapshotAt]).reg;
         r < |reg.objects| && Registered(reg, r) && reg.objects[r].Matches(call.service, call.operation)
    ensures i < |Exec(maxHistory, es).calls[c].snapshot| && Exec(maxHistory, es).calls[c].snapshot[i] == r
  {
    var call := Exec(maxHistory, es).calls[c];
    OriginOf(maxHistory, es, c);
    SnapshotMeaning(Exec(maxHistory, es[..call.snapshotAt]).reg, call.service, call.operation);
    i :| 0 <= i < |call.snapshot| && call.snapshot[i] == r;
  }

  /** A snapshot is in creation order. */
  lemma SnapshotAscends(maxHistory: nat, es: seq<Event>, c: nat, p: nat, i: nat)
    requires c < |Exec(maxHistory, es).calls| && !Exec(maxHistory, es).calls[c].phase.Started?
    requires p <= i < |Exec(maxHistory, es).calls[c].snapshot|
    ensures Exec(maxHistory, es).calls[c].snapshot[p] <= Exec(maxHistory, es).calls[c].snapshot[i]
  {
    var call := Exec(maxHistory, es).calls[c];
    OriginOf(maxHistory, es, c);
    SnapshotMeaning(Exec(maxHistory, es[..call.snapshotAt]).reg, call.service, call.operation);
  }
}
