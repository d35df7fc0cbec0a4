/** The rule engine: per-device cooldown, acknowledgement suppression and delivery. */
module RuleEngine {
  import opened Common
  import opened Devices
  import opened Alerts
  import opened AlertStores
  import opened Conditions

  datatype Rule = Rule(name: string, enabled: bool, condition: RuleCondition, severity: Severity,
                       cooldownSeconds: nat, lastFired: map<Mac, Time>)

  // ----- Cooldown ---------------------------------------------------------------------

  function Cooldown(r: Rule): Time {
    r.cooldownSeconds * NANOS_PER_SECOND
  }

  predicate OnCooldown(r: Rule, mac: Mac, now: Time) {
    r.cooldownSeconds != 0 && mac in r.lastFired && Elapsed(now, r.lastFired[mac]) < Cooldown(r)
  }

  /** The rule after `check_and_record_cooldown`, which lets the match pass unless on cooldown. */
  function Checked(r: Rule, mac: Mac, now: Time): Rule {
    if r.cooldownSeconds == 0 || OnCooldown(r, mac, now) then r else r.(lastFired := r.lastFired[mac := now])
  }

  // ----- One rule, one event --------------------------------------------------------------

  /** What a store call may do besides its job: `is_acknowledged` or `insert_alert` may fail. */
  datatype Fault = NoFault | AckFails | InsertFails

  /** The clock readings of one evaluation, monotonic and wall, and the store's mood. */
  datatype Tick = Tick(now: Time, wall: Time, fault: Fault)

  /** The content of the alert store. */
  datatype Store = Store(alerts: map<nat, Alert>, nextId: nat)

  function NewAlert(r: Rule, e: DiscoveryEvent, t: Tick, describe: (string, Device, EventType) -> string): Alert {
    Alert(0, r.name, r.severity, EventTypeOf(e), e.device.mac,
          describe(r.name, e.device, EventTypeOf(e)), e.device, t.wall, false)
  }

  function WithAlert(s: Store, a: Alert): Store {
    Store(s.alerts[s.nextId := a.(id := s.nextId)], s.nextId + 1)
  }

  datatype Evaluation = Evaluation(rule: Rule, store: Store, alert: Option<Alert>, failed: bool)

  /** `evaluate_rule`: condition, then cooldown (recorded at once), then acknowledgement, then persistence. */
  function Evaluate(r: Rule, e: DiscoveryEvent, s: Store, t: Tick, describe: (string, Device, EventType) -> string)
    : Evaluation
  {
    if !r.enabled || !Fits(r.condition, e) || OnCooldown(r, e.device.mac, t.now) then Evaluation(r, s, None, false)
    else
      var r' := Checked(r, e.device.mac, t.now);
      if t.fault.AckFails? then Evaluation(r', s, None, true)
      else if Acknowledged(s.alerts, r.name, e.device.mac) then Evaluation(r', s, None, false)
      else if t.fault.InsertFails? then Evaluation(r', s, Some(NewAlert(r, e, t, describe)), false)
      else
        Evaluation(r', WithAlert(s, NewAlert(r, e, t, describe)), Some(NewAlert(r, e, t, describe).(id := s.nextId)),
                   false)
  }

  // ----- What an evaluation must do -----------------------------------------------------------

  /** The rule has no cooldown, or has not fired for the device, or did so at least a cooldown ago. */
  predicate Rested(r: Rule, mac: Mac, now: Time) {
    r.cooldownSeconds == 0 || mac !in r.lastFired || now >= r.lastFired[mac] + r.cooldownSeconds * 1_000_000_000
  }

  lemma RestedIff(r: Rule, mac: Mac, now: Time)
    ensures Rested(r, mac, now) <==> !OnCooldown(r, mac, now)
  {
  }

  /** The alert tells of the rule, the event's kind, the device as it then was and the wall time. */
  ghost predicate AlertSays(a: Alert, r: Rule, e: DiscoveryEvent, wall: Time,
                            describe: (string, Device, EventType) -> string) {
    && a.ruleName == r.name && a.severity == r.severity && !a.acknowledged
    && a.mac == e.device.mac && a.snapshot == e.device && a.timestamp == wall
    && (e.Discovered? ==> a.eventType == NewDevice)
    && (e.Updated? ==> a.eventType == ProtocolChange)
    && (e.Offline? ==> a.eventType == DeviceOffline)
    && a.message == describe(r.name, e.device, a.eventType)
  }

  /** The rule is on, the event is of the kind that its condition names, and it may fire again for the device. */
  ghost predicate Asks(r: Rule, e: DiscoveryEvent, now: Time) {
    r.enabled && Means(r.condition, e) && Rested(r, e.device.mac, now)
  }

  /** No acknowledged alert of the rule's name is there for the device. */
  predicate Unsilenced(r: Rule, e: DiscoveryEvent, s: Store) {
    forall id :: id in s.alerts && s.alerts[id].acknowledged ==>
      !(s.alerts[id].ruleName == r.name && s.alerts[id].mac == e.device.mac)
  }

  /** Which evaluations raise an alert, with what, and what becomes of the rule and the store. */
  ghost predicate Lawful(r: Rule, e: DiscoveryEvent, s: Store, t: Tick,
                         describe: (string, Device, EventType) -> string, v: Evaluation) {
    && (v.alert.Some? <==> Asks(r, e, t.now) && !t.fault.AckFails? && Unsilenced(r, e, s))
    && (v.failed <==> Asks(r, e, t.now) && t.fault.AckFails?)
    && (v.alert.Some? ==> AlertSays(v.alert.value, r, e, t.wall, describe))
    && (if v.alert.Some? && t.fault.NoFault?
        then v.alert.value.id == s.nextId && v.store == Store(s.alerts[s.nextId := v.alert.value], s.nextId + 1)
        else v.store == s && (v.alert.Some? ==> v.alert.value.id == 0))
    && (if Asks(r, e, t.now) && r.cooldownSeconds != 0
        then v.rule == r.(lastFired := r.lastFired[e.device.mac := t.now]) else v.rule == r)
  }

  lemma EvaluateIsLawful(r: Rule, e: DiscoveryEvent, s: Store, t: Tick,
                         describe: (string, Device, EventType) -> string)
    ensures Lawful(r, e, s, t, describe, Evaluate(r, e, s, t, describe))
  {
    FitsMeans(r.condition, e);
    RestedIff(r, e.device.mac, t.now);
    UnsilencedIff(r, e, s);
  }

  lemma UnsilencedIff(r: Rule, e: DiscoveryEvent, s: Store)
    ensures Unsilenced(r, e, s) <==> !Acknowledged(s.alerts, r.name, e.device.mac)
  {
  }

  // ----- All rules, one event ---------------------------------------------------------------

  /** The rules, the store and the alerts collected after some of the rules; `failed` stops the loop. */
  datatype Round = Round(rules: seq<Rule>, store: Store, alerts: seq<Alert>, failed: bool)

  function EvaluateTo(rules: seq<Rule>, e: DiscoveryEvent, s: Store, ticks: seq<Tick>,
                      describe: (string, Device, EventType) -> string, k: nat): (r: Round)
    requires k <= |rules| == |ticks|
    ensures |r.rules| == |rules| && forall i :: k <= i < |rules| ==> r.rules[i] == rules[i]
  {
    if k == 0 then Round(rules, s, [], false)
    else
      var before := EvaluateTo(rules, e, s, ticks, describe, k - 1);
      if before.failed then before else Collect(before, k - 1, e, ticks[k - 1], describe)
  }

  /** The round after the rule at `k` has been evaluated. */
  function Collect(before: Round, k: nat, e: DiscoveryEvent, t: Tick,
                   describe: (string, Device, EventType) -> string): (r: Round)
    requires k < |before.rules|
    ensures |r.rules| == |before.rules| && forall i :: 0 <= i < |r.rules| && i != k ==> r.rules[i] == before.rules[i]
  {
    var v := Evaluate(before.rules[k], e, before.store, t, describe);
    Round(before.rules[k := v.rule], v.store,
          before.alerts + (if v.alert.Some? then [v.alert.value] else []), v.failed)
  }

  lemma NextRule(rules: seq<Rule>, e: DiscoveryEvent, s: Store, ticks: seq<Tick>,
                 describe: (string, Device, EventType) -> string, k: nat)
    requires k < |rules| == |ticks| && !EvaluateTo(rules, e, s, ticks, describe, k).failed
    ensures EvaluateTo(rules, e, s, ticks, describe, k + 1)
         == Collect(EvaluateTo(rules, e, s, ticks, describe, k), k, e, ticks[k], describe)
  {
  }

  /** The engine: its rules, the store's content and what went out on the alert channel. */
  datatype Engine = Engine(rules: seq<Rule>, store: Store, sent: seq<Alert>)

  /** What gets through when the channel takes `accepts` more alerts before it closes. */
  function Passing(alerts: seq<Alert>, accepts: nat): seq<Alert> {
    if accepts < |alerts| then alerts[..accepts] else alerts
  }

  function ProcessEvent(g: Engine, e: DiscoveryEvent, ticks: seq<Tick>, accepts: nat,
                        describe: (string, Device, EventType) -> string): Engine
    requires |g.rules| == |ticks|
  {
    var r := EvaluateTo(g.rules, e, g.store, ticks, describe, |g.rules|);
    Engine(r.rules, r.store, if r.failed then g.sent else g.sent + Passing(r.alerts, accepts))
  }

  class RuleEngine {
    var rules: seq<Rule>
    var sent: seq<Alert>
    const store: InMemoryAlertStore
    const describe: (string, Device, EventType) -> string

    constructor (rules: seq<Rule>, store: InMemoryAlertStore, describe: (string, Device, EventType) -> string)
      ensures this.rules == rules && this.sent == [] && this.store == store && this.describe == describe
    {
      this.rules, this.sent, this.store, this.describe := rules, [], store, describe;
    }

    ghost function Contents(): Engine
      reads this, store
    {
      Engine(rules, Store(store.alerts, store.nextId), sent)
    }

    /** `evaluate_rule` on the rule at `k`, whose cooldown state is changed in place. */
    method EvaluateRule(k: nat, e: DiscoveryEvent, t: Tick) returns (alert: Option<Alert>, failed: bool)
      requires store.Valid() && k < |rules| && rules[k].enabled
      modifies this`rules, store
      ensures store.Valid()
      ensures var v := Evaluate(old(rules)[k], e, Store(old(store.alerts), old(store.nextId)), t, describe);
        && rules == old(rules)[k := v.rule] && Store(store.alerts, store.nextId) == v.store
        && alert == v.alert && failed == v.failed
      ensures Lawful(old(rules)[k], e, Store(old(store.alerts), old(store.nextId)), t, describe,
                     Evaluation(rules[k], Store(store.alerts, store.nextId), alert, failed))
    {
      EvaluateIsLawful(rules[k], e, Store(store.alerts, store.nextId), t, describe);
      var rule := rules[k];
      var mac := e.device.mac;
      if !Fits(rule.condition, e) {
        return None, false;
      }
      if rule.cooldownSeconds != 0 {
        if mac in rule.lastFired && Elapsed(t.now, rule.lastFired[mac]) < Cooldown(rule) {
          return None, false;
        }
        rules := rules[k := rule.(lastFired := rule.lastFired[mac := t.now])];
      }
      if t.fault.AckFails? {
        return None, true;
      }
      var acknowledged := store.IsAcknowledged(rule.name, mac);
      if acknowledged {
        return None, false;
      }
      var fresh' := NewAlert(rule, e, t, describe);
      if t.fault.InsertFails? {
        return Some(fresh'), false;
      }
      var id := store.InsertAlert(fresh');
      return Some(fresh'.(id := id)), false;
    }

    /** The loop body of `process_event`: a rule that is not enabled is passed over. */
    method CollectFrom(k: nat, e: DiscoveryEvent, t: Tick, alerts: seq<Alert>)
      returns (alerts': seq<Alert>, failed: bool)
      requires store.Valid() && k < |rules|
      modifies this`rules, store
      ensures store.Valid()
      ensures Round(rules, Store(store.alerts, store.nextId), alerts', failed)
           == Collect(Round(old(rules), Store(old(store.alerts), old(store.nextId)), alerts, false), k, e, t, describe)
    {
      alerts', failed := alerts, false;
      if rules[k].enabled {
        var alert;
        alert, failed := EvaluateRule(k, e, t);
        if alert.Some? {
          alerts' := alerts' + [alert.value];
        }
      }
    }

    /** `fire_alert`: one send, which a closed channel refuses without stopping the others. */
    method FireAlert(alert: Alert, taken: bool)
      modifies this`sent
      ensures sent == if taken then old(sent) + [alert] else old(sent)
    {
      if taken {
        sent := sent + [alert];
      }
    }

    /** The sending loop of `process_event`. */
    method FireAll(alerts: seq<Alert>, accepts: nat)
      modifies this`sent
      ensures sent == old(sent) + Passing(alerts, accepts)
    {
      var i := 0;
      while i < |alerts|
        invariant 0 <= i <= |alerts| && sent == old(sent) + Passing(alerts[..i], accepts)
      {
        assert alerts[..i + 1] == alerts[..i] + [alerts[i]];
        PassingSnoc(alerts[..i], alerts[i], accepts);
        FireAlert(alerts[i], i < accepts);
        i := i + 1;
      }
      assert alerts[..i] == alerts;
    }

    /** `process_event`: evaluate every enabled rule, then send what was collected. */
    method ProcessOne(e: DiscoveryEvent, ticks: seq<Tick>, accepts: nat)
      requires store.Valid() && |ticks| == |rules|
      modifies this, store
      ensures store.Valid() && Contents() == ProcessEvent(old(Contents()), e, ticks, accepts, describe)
    {
      var alerts: seq<Alert> := [];
      ghost var g := Contents();
      var k := 0;
      while k < |rules|
        invariant 0 <= k <= |rules| == |g.rules| && store.Valid() && sent == g.sent
        invariant Round(rules, Store(store.alerts, store.nextId), alerts, false)
               == EvaluateTo(g.rules, e, g.store, ticks, describe, k)
      {
        var failed;
        NextRule(g.rules, e, g.store, ticks, describe, k);
        alerts, failed := CollectFrom(k, e, ticks[k], alerts);
        if failed {
          FailureStays(g.rules, e, g.store, ticks, describe, k + 1, |g.rules|);
          return;
        }
        k := k + 1;
      }
      FireAll(alerts, accepts);
    }
  }

  lemma PassingSnoc(alerts: seq<Alert>, a: Alert, accepts: nat)
    ensures Passing(alerts + [a], accepts)
         == if |alerts| < accepts then Passing(alerts, accepts) + [a] else Passing(alerts, accepts)
  {
  }

  lemma NoNextRule(rules: seq<Rule>, e: DiscoveryEvent, s: Store, ticks: seq<Tick>,
                   describe: (string, Device, EventType) -> string, k: nat)
    requires k < |rules| == |ticks| && EvaluateTo(rules, e, s, ticks, describe, k).failed
    ensures EvaluateTo(rules, e, s, ticks, describe, k + 1) == EvaluateTo(rules, e, s, ticks, describe, k)
  {
  }

  /** A rule hands over at most one alert. */
  lemma {:induction false} AlertsAtMost(rules: seq<Rule>, e: DiscoveryEvent, s: Store, ticks: seq<Tick>,
                                        describe: (string, Device, EventType) -> string, k: nat)
    requires k <= |rules| == |ticks|
    ensures |EvaluateTo(rules, e, s, ticks, describe, k).alerts| <= k
  {
    if k > 0 { AlertsAtMost(rules, e, s, ticks, describe, k - 1); }
  }

  lemma {:induction false} FailureStays(rules: seq<Rule>, e: DiscoveryEvent, s: Store, ticks: seq<Tick>,
                                        describe: (string, Device, EventType) -> string, k: nat, n: nat)
    requires k <= n <= |rules| == |ticks| && EvaluateTo(rules, e, s, ticks, describe, k).failed
    ensures EvaluateTo(rules, e, s, ticks, describe, n) == EvaluateTo(rules, e, s, ticks, describe, k)
    decreases n
  {
    if k < n {
      FailureStays(rules, e, s, ticks, describe, k, n - 1);
      NoNextRule(rules, e, s, ticks, describe, n - 1);
    }
  }
}
