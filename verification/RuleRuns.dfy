/** Whole runs of the rule engine, with users acknowledging and deleting alerts in between. */
module RuleRuns {
  import opened Common
  import opened Devices
  import opened Alerts
  import opened AlertStores
  import opened Conditions
  import opened RuleEngine

  type Describe = (string, Device, EventType) -> string

  datatype Step =
    | Event(event: DiscoveryEvent, ticks: seq<Tick>, accepts: nat)
    | Ack(id: nat)
    | Remove(id: nat)

  function Act(g: Engine, step: Step, describe: Describe): (g': Engine)
    ensures |g'.rules| == |g.rules|
  {
    match step
    case Event(e, ticks, accepts) =>
      if |ticks| == |g.rules| then ProcessEvent(g, e, ticks, accepts, describe) else g
    case Ack(id) => g.(store := g.store.(alerts := Marked(g.store.alerts, id)))
    case Remove(id) => g.(store := g.store.(alerts := g.store.alerts - {id}))
  }

  function After(g: Engine, steps: seq<Step>, describe: Describe): (g': Engine)
    ensures |g'.rules| == |g.rules|
  {
    if steps == [] then g else Act(After(g, steps[..|steps| - 1], describe), steps[|steps| - 1], describe)
  }

  // ----- Suppression ------------------------------------------------------------------

  /** `id` is an acknowledged alert of this rule name and device. */
  predicate Silencing(s: Store, id: nat, name: string, mac: Mac) {
    id in s.alerts && Silences(s.alerts[id], name, mac)
  }

  /** No alert of this name and device has been added to `s` since `nextId` was `first`. */
  predicate NoneSince(s: Store, first: nat, name: string, mac: Mac) {
    first <= s.nextId
    && forall x :: x in s.alerts && x >= first ==> !(s.alerts[x].ruleName == name && s.alerts[x].mac == mac)
  }

  predicate Quiet(s: Store, id: nat, first: nat, name: string, mac: Mac) {
    Silencing(s, id, name, mac) && id < first && NoneSince(s, first, name, mac)
  }

  /** None of the alerts is of this name and device. */
  predicate NoneOf(alerts: seq<Alert>, name: string, mac: Mac) {
    forall i :: 0 <= i < |alerts| ==> !(alerts[i].ruleName == name && alerts[i].mac == mac)
  }

  /** What was sent since is not of this name and device. */
  predicate SilentSince(before: seq<Alert>, after: seq<Alert>, name: string, mac: Mac) {
    before <= after && NoneOf(after[|before|..], name, mac)
  }

  lemma SilentChain(before: seq<Alert>, between: seq<Alert>, more: seq<Alert>, name: string, mac: Mac)
    requires SilentSince(before, between, name, mac) && NoneOf(more, name, mac)
    ensures SilentSince(before, between + more, name, mac)
  {
  }

  lemma EvaluateStaysQuiet(r: Rule, e: DiscoveryEvent, s: Store, t: Tick, describe: Describe,
                           id: nat, first: nat, name: string, mac: Mac)
    requires Quiet(s, id, first, name, mac)
    ensures Quiet(Evaluate(r, e, s, t, describe).store, id, first, name, mac)
    ensures var alert := Evaluate(r, e, s, t, describe).alert; alert.Some? ==> NoneOf([alert.value], name, mac)
  {
  }

  lemma {:induction false} RoundStaysQuiet(rules: seq<Rule>, e: DiscoveryEvent, s: Store, ticks: seq<Tick>,
                                           describe: Describe, k: nat, id: nat, first: nat, name: string, mac: Mac)
    requires k <= |rules| == |ticks| && Quiet(s, id, first, name, mac)
    ensures Quiet(EvaluateTo(rules, e, s, ticks, describe, k).store, id, first, name, mac)
    ensures NoneOf(EvaluateTo(rules, e, s, ticks, describe, k).alerts, name, mac)
  {
    if k > 0 {
      RoundStaysQuiet(rules, e, s, ticks, describe, k - 1, id, first, name, mac);
      EvaluateStaysQuiet(rules[k - 1], e, EvaluateTo(rules, e, s, ticks, describe, k - 1).store, ticks[k - 1], describe,
                         id, first, name, mac);
    }
  }

  lemma ActStaysQuiet(g: Engine, step: Step, describe: Describe, id: nat, first: nat, name: string, mac: Mac)
    requires Quiet(g.store, id, first, name, mac) && step != Remove(id)
    ensures Quiet(Act(g, step, describe).store, id, first, name, mac)
    ensures exists more :: Act(g, step, describe).sent == g.sent + more && NoneOf(more, name, mac)
  {
    assert g.sent + [] == g.sent;
    if step.Event? && |step.ticks| == |g.rules| {
      RoundStaysQuiet(g.rules, step.event, g.store, step.ticks, describe, |g.rules|, id, first, name, mac);
      var r := EvaluateTo(g.rules, step.event, g.store, step.ticks, describe, |g.rules|);
      var more := if r.failed then [] else Passing(r.alerts, step.accepts);
      assert Act(g, step, describe).sent == g.sent + more && NoneOf(more, name, mac);
    } else {
      assert Act(g, step, describe).sent == g.sent + [];
    }
  }

  /**
   * From the acknowledgement of an alert until its deletion, no rule of that name, however
   * many there are, stores or sends an alert for that device, whatever happens and even when
   * the store fails.
   */
  lemma {:induction false} AcknowledgedStaysQuiet(g: Engine, steps: seq<Step>, describe: Describe, id: nat,
                                                  name: string, mac: Mac)
    requires Silencing(g.store, id, name, mac) && Keyed(g.store.alerts, g.store.nextId)
    requires forall i :: 0 <= i < |steps| ==> steps[i] != Remove(id)
    ensures Quiet(After(g, steps, describe).store, id, g.store.nextId, name, mac)
    ensures SilentSince(g.sent, After(g, steps, describe).sent, name, mac)
  {
    if steps != [] {
      var n := |steps| - 1;
      var before := After(g, steps[..n], describe);
      AcknowledgedStaysQuiet(g, steps[..n], describe, id, name, mac);
      ActStaysQuiet(before, steps[n], describe, id, g.store.nextId, name, mac);
      var more :| Act(before, steps[n], describe).sent == before.sent + more && NoneOf(more, name, mac);
      SilentChain(g.sent, before.sent, more, name, mac);
    }
  }

  /** Acknowledging an alert silences its rule's name for its device, until the alert is deleted. */
  lemma AcknowledgingSilences(g: Engine, steps: seq<Step>, describe: Describe, id: nat)
    requires id in g.store.alerts && Keyed(g.store.alerts, g.store.nextId)
    requires forall i :: 0 <= i < |steps| ==> steps[i] != Remove(id)
    ensures var a, g' := g.store.alerts[id], After(Act(g, Ack(id), describe), steps, describe);
      Quiet(g'.store, id, g.store.nextId, a.ruleName, a.mac) && SilentSince(g.sent, g'.sent, a.ruleName, a.mac)
  {
    var a := g.store.alerts[id];
    AcknowledgedStaysQuiet(Act(g, Ack(id), describe), steps, describe, id, a.ruleName, a.mac);
  }

  // ----- Delivery -----------------------------------------------------------------------

  /** The alerts stored under the ids `lo..hi`, in order. */
  function StoredBetween(s: Store, lo: nat, hi: nat): seq<Alert>
    decreases hi
  {
    if hi <= lo then []
    else StoredBetween(s, lo, hi - 1) + (if hi - 1 in s.alerts then [s.alerts[hi - 1]] else [])
  }

  lemma {:induction false} StoredBetweenFrame(s: Store, t: Store, lo: nat, hi: nat)
    requires forall id :: lo <= id < hi ==> (id in s.alerts <==> id in t.alerts)
    requires forall id :: lo <= id < hi && id in s.alerts && id in t.alerts ==> s.alerts[id] == t.alerts[id]
    ensures StoredBetween(s, lo, hi) == StoredBetween(t, lo, hi)
    decreases hi
  {
    if lo < hi { StoredBetweenFrame(s, t, lo, hi - 1); }
  }

  predicate Faultless(ticks: seq<Tick>) {
    forall i :: 0 <= i < |ticks| ==> ticks[i].fault.NoFault?
  }

  /** Without a fault, one evaluation either adds the alert it returns under the next id, or adds nothing. */
  lemma EvaluateStores(r: Rule, e: DiscoveryEvent, s: Store, t: Tick, describe: Describe)
    requires t.fault.NoFault?
    ensures var v := Evaluate(r, e, s, t, describe);
      && !v.failed
      && (v.alert.None? ==> v.store == s)
      && (v.alert.Some? ==>
            v.alert.value.id == s.nextId && v.store == Store(s.alerts[s.nextId := v.alert.value], s.nextId + 1))
  {
  }

  /** What the round has collected since `s` is what it has stored, in order, under consecutive ids. */
  predicate Collected(r: Round, s: Store) {
    && !r.failed && s.nextId <= r.store.nextId
    && r.alerts == StoredBetween(r.store, s.nextId, r.store.nextId)
    && |r.alerts| == r.store.nextId - s.nextId
    && forall i :: 0 <= i < |r.alerts| ==> r.alerts[i].id == s.nextId + i
  }

  lemma CollectStores(b: Round, s: Store, k: nat, e: DiscoveryEvent, t: Tick, describe: Describe)
    requires Collected(b, s) && k < |b.rules| && t.fault.NoFault?
    ensures Collected(Collect(b, k, e, t, describe), s)
  {
    var v := Evaluate(b.rules[k], e, b.store, t, describe);
    EvaluateStores(b.rules[k], e, b.store, t, describe);
    StoredBetweenFrame(b.store, v.store, s.nextId, b.store.nextId);
    if v.alert.None? {
      assert b.alerts + [] == b.alerts;
    }
  }

  /** Without faults, what a round collects is exactly what it stores, in order. */
  lemma {:induction false} RoundStoresWhatItCollects(rules: seq<Rule>, e: DiscoveryEvent, s: Store, ticks: seq<Tick>,
                                                     describe: Describe, k: nat)
    requires k <= |rules| == |ticks| && Faultless(ticks)
    ensures Collected(EvaluateTo(rules, e, s, ticks, describe, k), s)
  {
    if k > 0 {
      RoundStoresWhatItCollects(rules, e, s, ticks, describe, k - 1);
      NextRule(rules, e, s, ticks, describe, k - 1);
      CollectStores(EvaluateTo(rules, e, s, ticks, describe, k - 1), s, k - 1, e, ticks[k - 1], describe);
    }
  }

  /** Everything a run stored, in the order it was stored. */
  function Persisted(g: Engine, steps: seq<Step>, describe: Describe): seq<Alert> {
    if steps == [] then []
    else
      var before := After(g, steps[..|steps| - 1], describe);
      Persisted(g, steps[..|steps| - 1], describe)
      + StoredBetween(Act(before, steps[|steps| - 1], describe).store, before.store.nextId,
                      Act(before, steps[|steps| - 1], describe).store.nextId)
  }

  /** Events carry one tick per rule, meet a channel that stays open and a store that does not fail. */
  predicate Smooth(step: Step, rules: nat) {
    step.Event? ==> |step.ticks| == rules <= step.accepts && Faultless(step.ticks)
  }

  predicate IdsUp(s: seq<Alert>, below: nat) {
    (forall i, j :: 0 <= i < j < |s| ==> s[i].id < s[j].id) && forall i :: 0 <= i < |s| ==> s[i].id < below
  }

  lemma IdsUpMore(s: seq<Alert>, more: seq<Alert>, lo: nat)
    requires IdsUp(s, lo) && forall i :: 0 <= i < |more| ==> more[i].id == lo + i
    ensures IdsUp(s + more, lo + |more|)
  {
  }

  lemma ActDelivers(g: Engine, step: Step, describe: Describe)
    requires Smooth(step, |g.rules|) && IdsUp(g.sent, g.store.nextId)
    ensures var g' := Act(g, step, describe);
      g'.sent == g.sent + StoredBetween(g'.store, g.store.nextId, g'.store.nextId) && IdsUp(g'.sent, g'.store.nextId)
  {
    if step.Event? {
      RoundStoresWhatItCollects(g.rules, step.event, g.store, step.ticks, describe, |g.rules|);
      AlertsAtMost(g.rules, step.event, g.store, step.ticks, describe, |g.rules|);
      IdsUpMore(g.sent, EvaluateTo(g.rules, step.event, g.store, step.ticks, describe, |g.rules|).alerts,
                g.store.nextId);
    }
  }

  /**
   * Delivery: while the channel is open and the store does not fail, exactly the alerts that
   * were stored are sent, in that order and with strictly increasing ids.
   */
  lemma {:induction false} SentIsPersisted(g: Engine, steps: seq<Step>, describe: Describe)
    requires g.sent == [] && forall i :: 0 <= i < |steps| ==> Smooth(steps[i], |g.rules|)
    ensures var g' := After(g, steps, describe);
      g'.sent == Persisted(g, steps, describe) && IdsUp(g'.sent, g'.store.nextId)
  {
    if steps != [] {
      var n := |steps| - 1;
      SentIsPersisted(g, steps[..n], describe);
      ActDelivers(After(g, steps[..n], describe), steps[n], describe);
    }
  }

  /** A store failure at a later rule loses what earlier rules had stored: it is never sent. */
  lemma FaultLosesDelivery(g: Engine, e: DiscoveryEvent, t0: Tick, t1: Tick, accepts: nat, describe: Describe)
    requires |g.rules| == 2 && e.Discovered? && t0.fault.NoFault? && t1.fault.AckFails?
    requires forall i :: 0 <= i < 2 ==>
      g.rules[i].enabled && g.rules[i].condition.AnyNewDevice? && g.rules[i].cooldownSeconds == 0
    requires !Acknowledged(g.store.alerts, g.rules[0].name, e.device.mac)
    ensures var g' := Act(g, Event(e, [t0, t1], accepts), describe);
      g'.sent == g.sent && g'.store.nextId == g.store.nextId + 1 && g.store.nextId in g'.store.alerts
  {
    var ticks := [t0, t1];
    var first := EvaluateTo(g.rules, e, g.store, ticks, describe, 1);
    assert EvaluateTo(g.rules, e, g.store, ticks, describe, 0) == Round(g.rules, g.store, [], false);
    assert first.store == Evaluate(g.rules[0], e, g.store, t0, describe).store;
    assert EvaluateTo(g.rules, e, g.store, ticks, describe, 2).failed;
  }

  // ----- Cooldown ---------------------------------------------------------------------------

  /** A matching event that reached a rule; `silent` when the store then kept it from alerting. */
  datatype Probe = Probe(at: Time, silent: bool)

  /** Rule `i` is reached by the event and its condition holds for device `m`. */
  ghost predicate Reached(g: Engine, step: Step, describe: Describe, i: nat, m: Mac)
    requires i < |g.rules|
  {
    && step.Event? && |step.ticks| == |g.rules| && step.event.device.mac == m
    && g.rules[i].enabled && Means(g.rules[i].condition, step.event)
    && !EvaluateTo(g.rules, step.event, g.store, step.ticks, describe, i).failed
  }

  ghost function ProbeOf(g: Engine, step: Step, describe: Describe, i: nat, m: Mac): Probe
    requires i < |g.rules| && Reached(g, step, describe, i, m)
  {
    var s := EvaluateTo(g.rules, step.event, g.store, step.ticks, describe, i).store;
    Probe(step.ticks[i].now, step.ticks[i].fault.AckFails? || Acknowledged(s.alerts, g.rules[i].name, m))
  }

  /** The matching events of a run, for rule `i` and device `m`. */
  ghost function Probes(g: Engine, steps: seq<Step>, describe: Describe, i: nat, m: Mac): seq<Probe>
    requires i < |g.rules|
  {
    if steps == [] then []
    else
      var n := |steps| - 1;
      var before := After(g, steps[..n], describe);
      Probes(g, steps[..n], describe, i, m)
      + (if Reached(before, steps[n], describe, i, m) then [ProbeOf(before, steps[n], describe, i, m)] else [])
  }

  /** Rule `i` produces an alert for `m` in this step. */
  predicate Fires(g: Engine, step: Step, describe: Describe, i: nat, m: Mac)
    requires i < |g.rules|
  {
    && step.Event? && |step.ticks| == |g.rules| && step.event.device.mac == m
    && var b := EvaluateTo(g.rules, step.event, g.store, step.ticks, describe, i);
       !b.failed && Evaluate(g.rules[i], step.event, b.store, step.ticks[i], describe).alert.Some?
  }

  /** The times at which rule `i` produced alerts for `m`. */
  function FireTimes(g: Engine, steps: seq<Step>, describe: Describe, i: nat, m: Mac): seq<Time>
    requires i < |g.rules|
  {
    if steps == [] then []
    else
      var n := |steps| - 1;
      var before := After(g, steps[..n], describe);
      FireTimes(g, steps[..n], describe, i, m)
      + (if Fires(before, steps[n], describe, i, m) then [steps[n].ticks[i].now] else [])
  }

  /** Greedy thinning: keep a probe when the last kept one is at least `gap` old. */
  function Thin(ps: seq<Probe>, gap: Time): seq<Probe> {
    if ps == [] then []
    else
      var kept := Thin(ps[..|ps| - 1], gap);
      if kept == [] || ps[|ps| - 1].at >= kept[|kept| - 1].at + gap then kept + [ps[|ps| - 1]] else kept
  }

  /** The times of the probes that were not silenced. */
  function Loud(ps: seq<Probe>): seq<Time> {
    if ps == [] then []
    else Loud(ps[..|ps| - 1]) + (if ps[|ps| - 1].silent then [] else [ps[|ps| - 1].at])
  }

  /** The rule remembers exactly the last probe the thinning kept. */
  predicate Remembers(r: Rule, m: Mac, kept: seq<Probe>) {
    r.cooldownSeconds != 0 ==>
      if kept == [] then m !in r.lastFired else m in r.lastFired && r.lastFired[m] == kept[|kept| - 1].at
  }

  /** The fields of a rule that never change. */
  predicate SameRule(r: Rule, r': Rule) {
    r' == r.(lastFired := r'.lastFired)
  }

  lemma {:induction false} RuleAfterRound(rules: seq<Rule>, e: DiscoveryEvent, s: Store, ticks: seq<Tick>,
                                          describe: Describe, i: nat, k: nat)
    requires i < k <= |rules| == |ticks|
    ensures var b := EvaluateTo(rules, e, s, ticks, describe, i);
      EvaluateTo(rules, e, s, ticks, describe, k).rules[i]
      == if b.failed then rules[i] else Evaluate(rules[i], e, b.store, ticks[i], describe).rule
    decreases k
  {
    if i < k - 1 {
      RuleAfterRound(rules, e, s, ticks, describe, i, k - 1);
    }
  }

  /** One evaluation, seen through the thinning. */
  lemma EvaluateThins(r: Rule, e: DiscoveryEvent, s: Store, t: Tick, describe: Describe, kept: seq<Probe>)
    requires Remembers(r, e.device.mac, kept) && (kept != [] ==> kept[|kept| - 1].at <= t.now)
    requires r.enabled && Means(r.condition, e)
    ensures var v := Evaluate(r, e, s, t, describe);
      var p := Probe(t.now, t.fault.AckFails? || Acknowledged(s.alerts, r.name, e.device.mac));
      var keep := kept == [] || t.now >= kept[|kept| - 1].at + Cooldown(r);
      && SameRule(r, v.rule)
      && Remembers(v.rule, e.device.mac, if keep then kept + [p] else kept)
      && (v.alert.Some? <==> keep && !p.silent)
  {
    FitsMeans(r.condition, e);
  }

  lemma EvaluateOther(r: Rule, e: DiscoveryEvent, s: Store, t: Tick, describe: Describe, m: Mac, kept: seq<Probe>)
    requires Remembers(r, m, kept) && (e.device.mac != m || !r.enabled || !Means(r.condition, e))
    ensures var v := Evaluate(r, e, s, t, describe);
      SameRule(r, v.rule) && Remembers(v.rule, m, kept) && (e.device.mac == m ==> v.alert.None?)
  {
    FitsMeans(r.condition, e);
  }

  /** The probes kept after one more step. */
  ghost function KeptAfter(g: Engine, step: Step, describe: Describe, i: nat, m: Mac, kept: seq<Probe>): seq<Probe>
    requires i < |g.rules|
  {
    if Reached(g, step, describe, i, m)
       && (kept == [] || step.ticks[i].now >= kept[|kept| - 1].at + Cooldown(g.rules[i]))
    then kept + [ProbeOf(g, step, describe, i, m)] else kept
  }

  lemma ActThins(g: Engine, step: Step, describe: Describe, i: nat, m: Mac, kept: seq<Probe>)
    requires i < |g.rules| && Remembers(g.rules[i], m, kept)
    requires step.Event? && |step.ticks| == |g.rules| && kept != [] ==> kept[|kept| - 1].at <= step.ticks[i].now
    ensures var g' := Act(g, step, describe); var kept' := KeptAfter(g, step, describe, i, m, kept);
      && SameRule(g.rules[i], g'.rules[i])
      && Remembers(g'.rules[i], m, kept')
      && (Fires(g, step, describe, i, m) <==> kept' != kept && !kept'[|kept|].silent)
  {
    if step.Event? && |step.ticks| == |g.rules| {
      var b := EvaluateTo(g.rules, step.event, g.store, step.ticks, describe, i);
      RuleAfterRound(g.rules, step.event, g.store, step.ticks, describe, i, |g.rules|);
      if !b.failed {
        if Reached(g, step, describe, i, m) {
          EvaluateThins(g.rules[i], step.event, b.store, step.ticks[i], describe, kept);
        } else {
          EvaluateOther(g.rules[i], step.event, b.store, step.ticks[i], describe, m, kept);
        }
      }
    }
  }

  /** No event of the run reads a later monotonic time than `t` for rule `i`. */
  predicate AllBefore(steps: seq<Step>, i: nat, t: Time) {
    forall j :: 0 <= j < |steps| && steps[j].Event? && i < |steps[j].ticks| ==> steps[j].ticks[i].now <= t
  }

  /** Rule `i` reads a clock that never goes back. */
  predicate Clocked(steps: seq<Step>, i: nat) {
    forall j, k ::
      0 <= j <= k < |steps| && steps[j].Event? && steps[k].Event? && i < |steps[j].ticks| && i < |steps[k].ticks| ==>
        steps[j].ticks[i].now <= steps[k].ticks[i].now
  }

  lemma {:induction false} ProbesBefore(g: Engine, steps: seq<Step>, describe: Describe, i: nat, m: Mac, t: Time)
    requires i < |g.rules| && AllBefore(steps, i, t)
    ensures forall p :: p in Probes(g, steps, describe, i, m) ==> p.at <= t
  {
    if steps != [] { ProbesBefore(g, steps[..|steps| - 1], describe, i, m, t); }
  }

  lemma {:induction false} ThinIsPart(ps: seq<Probe>, gap: Time)
    ensures forall p :: p in Thin(ps, gap) ==> p in ps
  {
    if ps != [] { ThinIsPart(ps[..|ps| - 1], gap); }
  }

  lemma ThinSnoc(ps: seq<Probe>, p: Probe, gap: Time)
    ensures Thin(ps + [p], gap) ==
      var kept := Thin(ps, gap); if kept == [] || p.at >= kept[|kept| - 1].at + gap then kept + [p] else kept
  {
    assert (ps + [p])[..|ps|] == ps;
  }

  lemma LoudSnoc(ps: seq<Probe>, p: Probe)
    ensures Loud(ps + [p]) == Loud(ps) + (if p.silent then [] else [p.at])
  {
    assert (ps + [p])[..|ps|] == ps;
  }

  /**
   * Cooldown is greedy thinning: over every run with a clock that does not go back, a fresh
   * rule alerts for a device exactly at the matching events that the thinning by its
   * cooldown keeps and that are not silenced; a silenced match still starts the cooldown.
   */
  lemma {:induction false} CooldownIsThinning(g: Engine, steps: seq<Step>, describe: Describe, i: nat, m: Mac)
    requires i < |g.rules| && g.rules[i].lastFired == map[] && Clocked(steps, i)
    ensures var kept := Thin(Probes(g, steps, describe, i, m), Cooldown(g.rules[i]));
      && FireTimes(g, steps, describe, i, m) == Loud(kept)
      && SameRule(g.rules[i], After(g, steps, describe).rules[i])
      && Remembers(After(g, steps, describe).rules[i], m, kept)
  {
    if steps != [] {
      var n := |steps| - 1;
      var before, step := After(g, steps[..n], describe), steps[n];
      var ps := Probes(g, steps[..n], describe, i, m);
      var kept := Thin(ps, Cooldown(g.rules[i]));
      CooldownIsThinning(g, steps[..n], describe, i, m);
      if step.Event? && |step.ticks| == |g.rules| {
        ProbesBefore(g, steps[..n], describe, i, m, step.ticks[i].now);
        ThinIsPart(ps, Cooldown(g.rules[i]));
        assert kept != [] ==> kept[|kept| - 1] in kept;
      }
      ActThins(before, step, describe, i, m, kept);
      OneMoreProbe(g, steps, describe, i, m, ps, kept);
    }
  }

  lemma OneMoreProbe(g: Engine, steps: seq<Step>, describe: Describe, i: nat, m: Mac, ps: seq<Probe>, kept: seq<Probe>)
    requires steps != [] && i < |g.rules| && kept == Thin(ps, Cooldown(g.rules[i]))
    requires ps == Probes(g, steps[..|steps| - 1], describe, i, m)
    requires SameRule(g.rules[i], After(g, steps[..|steps| - 1], describe).rules[i])
    ensures var kept' := KeptAfter(After(g, steps[..|steps| - 1], describe), steps[|steps| - 1], describe, i, m, kept);
      && Thin(Probes(g, steps, describe, i, m), Cooldown(g.rules[i])) == kept'
      && Loud(kept') == Loud(kept)
         + (if kept' != kept && !kept'[|kept|].silent then [steps[|steps| - 1].ticks[i].now] else [])
  {
    var before, step := After(g, steps[..|steps| - 1], describe), steps[|steps| - 1];
    if Reached(before, step, describe, i, m) {
      var p := ProbeOf(before, step, describe, i, m);
      ThinSnoc(ps, p, Cooldown(g.rules[i]));
      LoudSnoc(kept, p);
      assert Loud(kept) + [] == Loud(kept);
      assert |kept + [p]| != |kept|;
    } else {
      assert ps + [] == ps;
      assert Loud(kept) + [] == Loud(kept);
    }
  }

  // ----- Spacing ------------------------------------------------------------------------------

  predicate Apart(ts: seq<Time>, gap: Time) {
    forall a :: 0 <= a < |ts| - 1 ==> ts[a] + gap <= ts[a + 1]
  }

  /** Kept probes are a cooldown apart, and so are those among them that were loud. */
  lemma {:induction false} LoudApart(ps: seq<Probe>, gap: Time)
    ensures var kept := Thin(ps, gap); var ts := Loud(kept);
      Apart(ts, gap) && (ts != [] ==> kept != [] && ts[|ts| - 1] <= kept[|kept| - 1].at)
  {
    if ps != [] {
      var n := |ps| - 1;
      LoudApart(ps[..n], gap);
      var kept, p := Thin(ps[..n], gap), ps[n];
      LoudSnoc(kept, p);
      if kept != [] && p.at >= kept[|kept| - 1].at + gap {
        ApartSnoc(Loud(kept), gap, p.at);
      }
    }
  }

  lemma ApartSnoc(ts: seq<Time>, gap: Time, t: Time)
    requires Apart(ts, gap) && (ts != [] ==> ts[|ts| - 1] + gap <= t)
    ensures Apart(ts + [t], gap)
  {
  }

  lemma {:induction false} ApartMeans(ts: seq<Time>, gap: Time, a: nat, b: nat)
    requires Apart(ts, gap) && a <= b < |ts|
    ensures ts[a] + (b - a) * gap <= ts[b]
    decreases b
  {
    if a < b {
      ApartMeans(ts, gap, a, b - 1);
      assert (b - a) * gap == (b - 1 - a) * gap + gap;
    }
  }

  /** Consecutive alerts of a rule for a device are at least its cooldown apart. */
  lemma AlertsAreSpaced(g: Engine, steps: seq<Step>, describe: Describe, i: nat, m: Mac)
    requires i < |g.rules| && g.rules[i].lastFired == map[] && Clocked(steps, i)
    ensures Apart(FireTimes(g, steps, describe, i, m), Cooldown(g.rules[i]))
  {
    CooldownIsThinning(g, steps, describe, i, m);
    LoudApart(Probes(g, steps, describe, i, m), Cooldown(g.rules[i]));
  }

  /** Alert floods are bounded: an interval of length `span` holds at most span / cooldown + 1 alerts. */
  lemma AlertsPerSpan(g: Engine, steps: seq<Step>, describe: Describe, i: nat, m: Mac, a: nat, b: nat, span: Time)
    requires i < |g.rules| && g.rules[i].lastFired == map[] && Clocked(steps, i) && g.rules[i].cooldownSeconds > 0
    requires a <= b < |FireTimes(g, steps, describe, i, m)|
    requires FireTimes(g, steps, describe, i, m)[b] - FireTimes(g, steps, describe, i, m)[a] <= span
    ensures b - a + 1 <= span / Cooldown(g.rules[i]) + 1
  {
    AlertsAreSpaced(g, steps, describe, i, m);
    ApartMeans(FireTimes(g, steps, describe, i, m), Cooldown(g.rules[i]), a, b);
    AtMost(b - a, Cooldown(g.rules[i]), span);
  }

  lemma AtMost(n: nat, gap: nat, span: nat)
    requires gap > 0 && n * gap <= span
    ensures n <= span / gap
  {
    var q := span / gap;
    assert span == q * gap + span % gap;
    assert (q + 1) * gap == q * gap + gap;
    if n > q { Multiply(q + 1, n, gap); }
  }

  lemma Multiply(a: nat, b: nat, gap: nat)
    requires a <= b
    ensures a * gap <= b * gap
  {
    assert b * gap == a * gap + (b - a) * gap;
  }
}
