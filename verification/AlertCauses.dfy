/** Over whole runs: every alert has a cause, and every cause raises its alert. */
module AlertCauses {
  import opened Common
  import opened Alerts
  import opened AlertStores
  import opened Conditions
  import opened RuleEngine
  import opened RuleRuns
  import opened Delivery

  /** The rule at `i` is on, the event is of the kind that it names, and the alert says so. */
  ghost predicate Caused(a: Alert, rules: seq<Rule>, e: DiscoveryEvent, ticks: seq<Tick>, describe: Describe, i: nat) {
    && i < |rules| == |ticks| && rules[i].enabled && Means(rules[i].condition, e)
    && AlertSays(a, rules[i], e, ticks[i].wall, describe)
  }

  ghost predicate CausedBySome(a: Alert, rules: seq<Rule>, e: DiscoveryEvent, ticks: seq<Tick>, describe: Describe) {
    exists i :: Caused(a, rules, e, ticks, describe, i)
  }

  ghost predicate AllCaused(alerts: seq<Alert>, rules: seq<Rule>, e: DiscoveryEvent, ticks: seq<Tick>,
                            describe: Describe) {
    forall j :: 0 <= j < |alerts| ==> CausedBySome(alerts[j], rules, e, ticks, describe)
  }

  /** The alert of `id` in `t` is the one in `s`, or has a cause. */
  ghost predicate OldOrCaused(id: nat, s: Store, t: Store, rules: seq<Rule>, e: DiscoveryEvent, ticks: seq<Tick>,
                              describe: Describe)
    requires id in t.alerts
  {
    (id in s.alerts && t.alerts[id] == s.alerts[id]) || CausedBySome(t.alerts[id], rules, e, ticks, describe)
  }

  ghost predicate StoreCaused(s: Store, t: Store, rules: seq<Rule>, e: DiscoveryEvent, ticks: seq<Tick>,
                              describe: Describe) {
    forall id :: id in t.alerts ==> OldOrCaused(id, s, t, rules, e, ticks, describe)
  }

  predicate SameRules(rules: seq<Rule>, rules': seq<Rule>) {
    |rules| == |rules'| && forall i :: 0 <= i < |rules| ==> SameRule(rules[i], rules'[i])
  }

  // ----- One event ---------------------------------------------------------------------------

  /** The round so far: the same rules, and a cause for all that was collected and stored. */
  ghost predicate RoundCaused(r: Round, rules: seq<Rule>, e: DiscoveryEvent, s: Store, ticks: seq<Tick>,
                              describe: Describe) {
    && SameRules(rules, r.rules)
    && AllCaused(r.alerts, rules, e, ticks, describe) && StoreCaused(s, r.store, rules, e, ticks, describe)
  }

  lemma CollectHasCauses(b: Round, rules: seq<Rule>, e: DiscoveryEvent, s: Store, ticks: seq<Tick>,
                         describe: Describe, k: nat)
    requires RoundCaused(b, rules, e, s, ticks, describe) && k < |rules| == |ticks| && b.rules[k] == rules[k]
    ensures RoundCaused(Collect(b, k, e, ticks[k], describe), rules, e, s, ticks, describe)
  {
    var v := Evaluate(rules[k], e, b.store, ticks[k], describe);
    EvaluateIsLawful(rules[k], e, b.store, ticks[k], describe);
    if v.alert.Some? {
      assert Caused(v.alert.value, rules, e, ticks, describe, k);
      StoreCausedNext(s, b.store, v.store, v.alert.value, rules, e, ticks, describe);
    }
  }

  lemma {:induction false} RoundHasCauses(rules: seq<Rule>, e: DiscoveryEvent, s: Store, ticks: seq<Tick>,
                                          describe: Describe, k: nat)
    requires k <= |rules| == |ticks|
    ensures RoundCaused(EvaluateTo(rules, e, s, ticks, describe, k), rules, e, s, ticks, describe)
  {
    if k > 0 {
      RoundHasCauses(rules, e, s, ticks, describe, k - 1);
      if EvaluateTo(rules, e, s, ticks, describe, k - 1).failed {
        NoNextRule(rules, e, s, ticks, describe, k - 1);
      } else {
        NextRule(rules, e, s, ticks, describe, k - 1);
        CollectHasCauses(EvaluateTo(rules, e, s, ticks, describe, k - 1), rules, e, s, ticks, describe, k - 1);
      }
    }
  }

  lemma StoreCausedNext(s: Store, t: Store, t': Store, a: Alert, rules: seq<Rule>, e: DiscoveryEvent,
                        ticks: seq<Tick>, describe: Describe)
    requires StoreCaused(s, t, rules, e, ticks, describe) && CausedBySome(a, rules, e, ticks, describe)
    requires t' == t || t' == Store(t.alerts[t.nextId := a], t.nextId + 1)
    ensures StoreCaused(s, t', rules, e, ticks, describe)
  {
    forall id | id in t'.alerts ensures OldOrCaused(id, s, t', rules, e, ticks, describe) {
      if id in t.alerts && t'.alerts[id] == t.alerts[id] {
        assert OldOrCaused(id, s, t, rules, e, ticks, describe);
      }
    }
  }

  // ----- Whole runs --------------------------------------------------------------------------

  /** Some event of the run, and some rule, caused the alert, whether or not it was acknowledged since. */
  ghost predicate Explained(a: Alert, rules: seq<Rule>, steps: seq<Step>, describe: Describe) {
    exists k :: 0 <= k < |steps| && steps[k].Event?
      && CausedBySome(a.(acknowledged := false), rules, steps[k].event, steps[k].ticks, describe)
  }

  ghost predicate AllExplained(alerts: seq<Alert>, rules: seq<Rule>, steps: seq<Step>, describe: Describe) {
    forall j :: 0 <= j < |alerts| ==> Explained(alerts[j], rules, steps, describe)
  }

  /** The alert of `id` was there from the start, but for its acknowledgement, or is explained. */
  ghost predicate OldOrExplained(id: nat, s: Store, t: Store, rules: seq<Rule>, steps: seq<Step>, describe: Describe)
    requires id in t.alerts
  {
    || (id in s.alerts && t.alerts[id].(acknowledged := false) == s.alerts[id].(acknowledged := false))
    || Explained(t.alerts[id], rules, steps, describe)
  }

  ghost predicate StoreExplained(s: Store, t: Store, rules: seq<Rule>, steps: seq<Step>, describe: Describe) {
    forall id :: id in t.alerts ==> OldOrExplained(id, s, t, rules, steps, describe)
  }

  /** A rule asks for the same thing, and says the same, whatever it has fired at. */
  lemma SameRulesSameCauses(a: Alert, rules: seq<Rule>, rules': seq<Rule>, e: DiscoveryEvent, ticks: seq<Tick>,
                            describe: Describe)
    requires SameRules(rules, rules') && CausedBySome(a, rules', e, ticks, describe)
    ensures CausedBySome(a, rules, e, ticks, describe) && !a.acknowledged
  {
    var i: nat :| Caused(a, rules', e, ticks, describe, i);
    assert SameRule(rules[i], rules'[i]);
    assert Caused(a, rules, e, ticks, describe, i);
  }

  lemma StaysExplained(a: Alert, rules: seq<Rule>, steps: seq<Step>, step: Step, describe: Describe)
    requires Explained(a, rules, steps, describe)
    ensures Explained(a, rules, steps + [step], describe)
  {
    var k :| 0 <= k < |steps| && steps[k].Event?
      && CausedBySome(a.(acknowledged := false), rules, steps[k].event, steps[k].ticks, describe);
    assert (steps + [step])[k] == steps[k];
  }

  lemma NewlyExplained(a: Alert, rules: seq<Rule>, rules': seq<Rule>, steps: seq<Step>, step: Step, describe: Describe)
    requires SameRules(rules, rules') && step.Event? && CausedBySome(a, rules', step.event, step.ticks, describe)
    ensures Explained(a, rules, steps + [step], describe)
  {
    SameRulesSameCauses(a, rules, rules', step.event, step.ticks, describe);
    assert a == a.(acknowledged := false) && (steps + [step])[|steps|] == step;
  }

  /** Only firing times changed in the rules, and all that is new has a cause in the run. */
  ghost predicate RunCaused(g: Engine, g': Engine, steps: seq<Step>, describe: Describe) {
    && SameRules(g.rules, g'.rules) && g.sent <= g'.sent
    && StoreExplained(g.store, g'.store, g.rules, steps, describe)
    && AllExplained(g'.sent[|g.sent|..], g.rules, steps, describe)
  }

  lemma ActHasCauses(g0: Engine, g: Engine, steps: seq<Step>, step: Step, describe: Describe)
    requires RunCaused(g0, g, steps, describe)
    ensures RunCaused(g0, Act(g, step, describe), steps + [step], describe)
  {
    var g' := Act(g, step, describe);
    if step.Event? && |step.ticks| == |g.rules| {
      RoundHasCauses(g.rules, step.event, g.store, step.ticks, describe, |g.rules|);
      EventHasCauses(g0, g, steps, step, EvaluateTo(g.rules, step.event, g.store, step.ticks, describe, |g.rules|),
                     describe);
    } else {
      forall id | id in g'.store.alerts
        ensures OldOrExplained(id, g0.store, g'.store, g0.rules, steps + [step], describe)
      {
        assert OldOrExplained(id, g0.store, g.store, g0.rules, steps, describe);
        if Explained(g.store.alerts[id], g0.rules, steps, describe) {
          StaysExplained(g.store.alerts[id], g0.rules, steps, step, describe);
        }
      }
    }
    SentIsExplained(g0.sent, g.sent, g'.sent, g0.rules, steps, step, describe);
  }

  lemma EventHasCauses(g0: Engine, g: Engine, steps: seq<Step>, step: Step, r: Round, describe: Describe)
    requires SameRules(g0.rules, g.rules) && StoreExplained(g0.store, g.store, g0.rules, steps, describe)
    requires step.Event? && AllCaused(r.alerts, g.rules, step.event, step.ticks, describe)
    requires StoreCaused(g.store, r.store, g.rules, step.event, step.ticks, describe)
    ensures StoreExplained(g0.store, r.store, g0.rules, steps + [step], describe)
    ensures AllExplained(Passing(r.alerts, step.accepts), g0.rules, steps + [step], describe)
  {
    forall id | id in r.store.alerts
      ensures OldOrExplained(id, g0.store, r.store, g0.rules, steps + [step], describe)
    {
      assert OldOrCaused(id, g.store, r.store, g.rules, step.event, step.ticks, describe);
      if id in g.store.alerts && r.store.alerts[id] == g.store.alerts[id] {
        assert OldOrExplained(id, g0.store, g.store, g0.rules, steps, describe);
        if Explained(g.store.alerts[id], g0.rules, steps, describe) {
          StaysExplained(g.store.alerts[id], g0.rules, steps, step, describe);
        }
      } else {
        NewlyExplained(r.store.alerts[id], g0.rules, g.rules, steps, step, describe);
      }
    }
    var out := Passing(r.alerts, step.accepts);
    forall j | 0 <= j < |out| ensures Explained(out[j], g0.rules, steps + [step], describe) {
      assert out[j] == r.alerts[j] && CausedBySome(r.alerts[j], g.rules, step.event, step.ticks, describe);
      NewlyExplained(out[j], g0.rules, g.rules, steps, step, describe);
    }
  }

  /**
   * Every alert that a run stores or sends has a cause: an event of the run and a rule that
   * was on and names that kind of event, of which the alert gives the name, the severity, the
   * kind, the device and the time. The rules themselves change only in when they last fired.
   */
  lemma {:induction false} AlertsHaveCauses(g: Engine, steps: seq<Step>, describe: Describe)
    ensures RunCaused(g, RuleRuns.After(g, steps, describe), steps, describe)
  {
    if steps != [] {
      var n := |steps| - 1;
      var before := RuleRuns.After(g, steps[..n], describe);
      AlertsHaveCauses(g, steps[..n], describe);
      ActHasCauses(g, before, steps[..n], steps[n], describe);
      assert steps[..n] + [steps[n]] == steps;
    }
  }

  lemma SentIsExplained(first: seq<Alert>, mid: seq<Alert>, last: seq<Alert>, rules: seq<Rule>, steps: seq<Step>,
                        step: Step, describe: Describe)
    requires first <= mid <= last && AllExplained(mid[|first|..], rules, steps, describe)
    requires AllExplained(last[|mid|..], rules, steps + [step], describe)
    ensures AllExplained(last[|first|..], rules, steps + [step], describe)
  {
    var out, old', new' := last[|first|..], mid[|first|..], last[|mid|..];
    forall j | 0 <= j < |out| ensures Explained(out[j], rules, steps + [step], describe) {
      if j < |old'| {
        assert out[j] == old'[j];
        StaysExplained(old'[j], rules, steps, step, describe);
      } else {
        assert out[j] == new'[j - |old'|];
      }
    }
  }

  // ----- The other way about -------------------------------------------------------------------

  /** The rule's turn comes: no rule before it meets a store that fails to answer. */
  ghost predicate TurnComes(rules: seq<Rule>, e: DiscoveryEvent, ticks: seq<Tick>, i: nat)
    requires i <= |rules| == |ticks|
  {
    forall j :: 0 <= j < i ==> !Refused(rules[j], e, ticks[j])
  }

  /** When rule `i` of `g` must raise an alert for the device. */
  ghost predicate MustAlert(g: Engine, step: Step, i: nat, m: Mac)
    requires i < |g.rules|
  {
    && step.Event? && |step.ticks| == |g.rules| && step.event.device.mac == m
    && TurnComes(g.rules, step.event, step.ticks, i)
    && g.rules[i].enabled && Means(g.rules[i].condition, step.event) && Rested(g.rules[i], m, step.ticks[i].now)
    && !step.ticks[i].fault.AckFails? && Unsilenced(g.rules[i], step.event, g.store)
  }

  lemma FiresIff(g: Engine, step: Step, describe: Describe, i: nat, m: Mac)
    requires i < |g.rules| && Sound(g)
    ensures Fires(g, step, describe, i, m) <==> MustAlert(g, step, i, m)
  {
    if step.Event? && |step.ticks| == |g.rules| {
      var b := EvaluateTo(g.rules, step.event, g.store, step.ticks, describe, i);
      RoundIsForetold(g.rules, step.event, g.store, step.ticks, describe, i);
      EvaluateIsLawful(g.rules[i], step.event, b.store, step.ticks[i], describe);
      SilencedAlike(g.rules[i], step.event, g.store, b.store, step.ticks[i], describe);
      UnsilencedIff(g.rules[i], step.event, g.store);
      UnsilencedIff(g.rules[i], step.event, b.store);
    }
  }

  /** The alert stays as it is. */
  predicate Holds(s: Store, id: nat, a: Alert) {
    id in s.alerts && id < s.nextId && s.alerts[id] == a
  }

  lemma CollectHolds(b: Round, k: nat, e: DiscoveryEvent, t: Tick, describe: Describe, id: nat, a: Alert)
    requires k < |b.rules| && Holds(b.store, id, a)
    ensures Holds(Collect(b, k, e, t, describe).store, id, a)
  {
  }

  lemma TurnHolds(rules: seq<Rule>, e: DiscoveryEvent, s: Store, ticks: seq<Tick>, describe: Describe, k: nat,
                  id: nat, a: Alert)
    requires k < |rules| == |ticks| && Holds(EvaluateTo(rules, e, s, ticks, describe, k).store, id, a)
    ensures Holds(EvaluateTo(rules, e, s, ticks, describe, k + 1).store, id, a)
  {
    if EvaluateTo(rules, e, s, ticks, describe, k).failed {
      NoNextRule(rules, e, s, ticks, describe, k);
    } else {
      NextRule(rules, e, s, ticks, describe, k);
      CollectHolds(EvaluateTo(rules, e, s, ticks, describe, k), k, e, ticks[k], describe, id, a);
    }
  }

  /** What is stored stays stored while later rules have their turn. */
  lemma {:induction false} StoredStays(rules: seq<Rule>, e: DiscoveryEvent, s: Store, ticks: seq<Tick>,
                                       describe: Describe, k: nat, n: nat, id: nat, a: Alert)
    requires k <= n <= |rules| == |ticks| && Holds(EvaluateTo(rules, e, s, ticks, describe, k).store, id, a)
    ensures Holds(EvaluateTo(rules, e, s, ticks, describe, n).store, id, a)
    decreases n
  {
    if k < n {
      StoredStays(rules, e, s, ticks, describe, k, n - 1, id, a);
      TurnHolds(rules, e, s, ticks, describe, n - 1, id, a);
    }
  }

  /** A new alert, stored under its own id, that tells of the rule and the event. */
  ghost predicate NewFor(id: nat, s: Store, t: Store, r: Rule, e: DiscoveryEvent, wall: Time, describe: Describe) {
    id in t.alerts && id >= s.nextId && t.alerts[id].id == id && AlertSays(t.alerts[id], r, e, wall, describe)
  }

  ghost predicate StoredFor(s: Store, t: Store, r: Rule, e: DiscoveryEvent, wall: Time, describe: Describe) {
    exists id :: NewFor(id, s, t, r, e, wall, describe)
  }

  lemma FiredIsStored(g: Engine, step: Step, describe: Describe, i: nat, m: Mac)
    requires i < |g.rules| && Sound(g) && MustAlert(g, step, i, m) && step.ticks[i].fault.NoFault?
    ensures StoredFor(g.store, Act(g, step, describe).store, g.rules[i], step.event, step.ticks[i].wall, describe)
  {
    FiresIff(g, step, describe, i, m);
    var b := EvaluateTo(g.rules, step.event, g.store, step.ticks, describe, i);
    RoundIsForetold(g.rules, step.event, g.store, step.ticks, describe, i);
    var v := Evaluate(g.rules[i], step.event, b.store, step.ticks[i], describe);
    EvaluateIsLawful(g.rules[i], step.event, b.store, step.ticks[i], describe);
    NextRule(g.rules, step.event, g.store, step.ticks, describe, i);
    StoredStays(g.rules, step.event, g.store, step.ticks, describe, i + 1, |g.rules|, b.store.nextId, v.alert.value);
    assert NewFor(b.store.nextId, g.store, Act(g, step, describe).store, g.rules[i], step.event, step.ticks[i].wall,
                  describe);
  }

  lemma {:induction false} SoundAlways(g: Engine, steps: seq<Step>, describe: Describe)
    requires Sound(g)
    ensures Sound(RuleRuns.After(g, steps, describe))
  {
    if steps != [] {
      SoundAlways(g, steps[..|steps| - 1], describe);
      var d := ActDeliversIff(RuleRuns.After(g, steps[..|steps| - 1], describe), steps[|steps| - 1], describe);
    }
  }

  /**
   * At every step of every run, rule `i` raises an alert for a device exactly when the step is
   * an event of that device and of the kind that the rule names, the rule is on and rested,
   * and the store answers that nothing silences it; what the store takes says all that.
   */
  lemma CausesRaiseAlerts(g: Engine, steps: seq<Step>, describe: Describe, k: nat, i: nat, m: Mac)
    requires Sound(g) && k < |steps| && i < |g.rules|
    ensures var now := RuleRuns.After(g, steps[..k], describe);
      && SameRule(g.rules[i], now.rules[i])
      && (Fires(now, steps[k], describe, i, m) <==> MustAlert(now, steps[k], i, m))
      && (MustAlert(now, steps[k], i, m) && steps[k].ticks[i].fault.NoFault? ==>
            StoredFor(now.store, RuleRuns.After(g, steps[..k + 1], describe).store, g.rules[i], steps[k].event,
                      steps[k].ticks[i].wall, describe))
  {
    var now := RuleRuns.After(g, steps[..k], describe);
    SoundAlways(g, steps[..k], describe);
    AlertsHaveCauses(g, steps[..k], describe);
    FiresIff(now, steps[k], describe, i, m);
    if MustAlert(now, steps[k], i, m) && steps[k].ticks[i].fault.NoFault? {
      FiredIsStored(now, steps[k], describe, i, m);
      SaidOfSameRule(now.store, Act(now, steps[k], describe).store, g.rules[i], now.rules[i], steps[k].event,
                     steps[k].ticks[i].wall, describe);
      assert steps[..k + 1][..k] == steps[..k];
    }
  }

  lemma SaidOfSameRule(s: Store, t: Store, r: Rule, r': Rule, e: DiscoveryEvent, wall: Time, describe: Describe)
    requires SameRule(r, r') && StoredFor(s, t, r', e, wall, describe)
    ensures StoredFor(s, t, r, e, wall, describe)
  {
    var id: nat :| NewFor(id, s, t, r', e, wall, describe);
    assert NewFor(id, s, t, r, e, wall, describe);
  }
}
