/** When exactly the alerts that are sent are the alerts that are stored. */
module Delivery {
  import opened Alerts
  import opened AlertStores
  import opened Conditions
  import opened RuleEngine
  import opened RuleRuns

  // ----- One rule ------------------------------------------------------------------------

  /** The store fails to answer, and the event is given up. */
  ghost predicate Refused(r: Rule, e: DiscoveryEvent, t: Tick) {
    Asks(r, e, t.now) && t.fault.AckFails?
  }

  /** The rule alerts if its turn comes. */
  ghost predicate WouldAlert(r: Rule, e: DiscoveryEvent, s: Store, t: Tick) {
    Asks(r, e, t.now) && Unsilenced(r, e, s)
  }

  /** What a rule does when its turn comes: whether it alerts, with what, and whether the store takes it. */
  datatype Offer = Offer(alerts: bool, alert: Alert, storable: bool)

  ghost function OfferOf(r: Rule, e: DiscoveryEvent, s: Store, t: Tick, describe: Describe): Offer {
    Offer(WouldAlert(r, e, s, t), NewAlert(r, e, t, describe), t.fault.NoFault?)
  }

  /** The offers of all rules, told from the rules and the store before the event. */
  ghost function Offers(rules: seq<Rule>, e: DiscoveryEvent, s: Store, ticks: seq<Tick>, describe: Describe)
    : (os: seq<Offer>)
    requires |rules| == |ticks|
    ensures |os| == |rules|
  {
    seq(|rules|, j requires 0 <= j < |rules| == |ticks| => OfferOf(rules[j], e, s, ticks[j], describe))
  }

  lemma OfferAt(rules: seq<Rule>, e: DiscoveryEvent, s: Store, ticks: seq<Tick>, describe: Describe, j: nat)
    requires j < |rules| == |ticks|
    ensures Offers(rules, e, s, ticks, describe)[j] == OfferOf(rules[j], e, s, ticks[j], describe)
  {
  }

  /** What a rule hands over for sending, `id` being the next id; an alert that could not be stored has id 0. */
  function Handed(o: Offer, id: nat): seq<Alert> {
    if o.alerts then [o.alert.(id := if o.storable then id else 0)] else []
  }

  /** What a rule stores. */
  function Kept(o: Offer, id: nat): seq<Alert> {
    if o.alerts && o.storable then [o.alert.(id := id)] else []
  }

  // ----- A sequence of offers ------------------------------------------------------------------

  /** What the first `k` rules store, `next` being the next id. */
  function Insertions(os: seq<Offer>, next: nat, k: nat): seq<Alert>
    requires k <= |os|
  {
    if k == 0 then []
    else Insertions(os, next, k - 1) + Kept(os[k - 1], next + |Insertions(os, next, k - 1)|)
  }

  /** What they hand over for sending. */
  function Handovers(os: seq<Offer>, next: nat, k: nat): seq<Alert>
    requires k <= |os|
  {
    if k == 0 then [] else Handovers(os, next, k - 1) + Handed(os[k - 1], next + |Insertions(os, next, k - 1)|)
  }

  /** How many of them alert. */
  function Rank(os: seq<Offer>, k: nat): nat
    requires k <= |os|
  {
    if k == 0 then 0 else Rank(os, k - 1) + (if os[k - 1].alerts then 1 else 0)
  }

  /** Of the first `n` rules that alert, exactly those store their alerts whose alerts are among the first `room`. */
  predicate Matched(os: seq<Offer>, n: nat, room: nat)
    requires n <= |os|
  {
    forall j :: 0 <= j < n ==> MatchedAt(os, j, room)
  }

  predicate MatchedAt(os: seq<Offer>, j: nat, room: nat)
    requires j < |os|
  {
    os[j].alerts ==> (os[j].storable <==> Rank(os, j) < room)
  }

  /** Ids from `lo` up to `hi`, or 0 where `zero` allows it. */
  predicate IdsWithin(s: seq<Alert>, lo: nat, hi: nat, zero: bool) {
    forall i :: 0 <= i < |s| ==> (lo <= s[i].id < hi) || (zero && s[i].id == 0)
  }

  /** One more alert handed over: it must be stored exactly when it gets through. */
  lemma PassingStep(d: seq<Alert>, p: seq<Alert>, x: Alert, kept: bool, lo: nat, room: nat)
    requires lo > 0 && IdsWithin(d, lo, lo + |p|, true) && IdsWithin(p, lo, lo + |p|, false)
    requires x.id == if kept then lo + |p| else 0
    ensures Passing(d + [x], room) == (if kept then p + [x] else p)
       <==> Passing(d, room) == p && (kept <==> |d| < room)
  {
    PassingSnoc(d, x, room);
    var got, want := Passing(d + [x], room), if kept then p + [x] else p;
    if kept && |d| >= room {
      assert forall i :: 0 <= i < |got| ==> got[i] == d[i];
      assert want[|p|] == x;
    } else if kept {
      assert Passing(d, room) == d && d == (d + [x])[..|d|] && p == (p + [x])[..|p|];
    } else if |d| < room {
      assert got[|d|] == x;
    }
  }

  /**
   * What holds of the alerts handed over, those stored, how many there are and whether the
   * store calls match the room in the channel so far.
   */
  ghost predicate Agree(d: seq<Alert>, p: seq<Alert>, rank: nat, matched: bool, lo: nat, room: nat) {
    && IdsWithin(d, lo, lo + |p|, true) && IdsWithin(p, lo, lo + |p|, false)
    && |d| == rank && (matched <==> Passing(d, room) == p)
  }

  lemma AgreeNext(o: Offer, d: seq<Alert>, p: seq<Alert>, rank: nat, matched: bool, lo: nat, room: nat,
                  d': seq<Alert>, p': seq<Alert>, rank': nat, matched': bool)
    requires lo > 0 && Agree(d, p, rank, matched, lo, room)
    requires d' == d + Handed(o, lo + |p|) && p' == p + Kept(o, lo + |p|)
    requires rank' == rank + if o.alerts then 1 else 0
    requires matched' <==> matched && (o.alerts ==> (o.storable <==> rank < room))
    ensures Agree(d', p', rank', matched', lo, room)
  {
    if o.alerts {
      PassingStep(d, p, o.alert.(id := if o.storable then lo + |p| else 0), o.storable, lo, room);
    }
    assert d + [] == d && p + [] == p;
  }

  lemma MatchedSnoc(os: seq<Offer>, n: nat, room: nat)
    requires 0 < n <= |os|
    ensures Matched(os, n, room)
       <==> Matched(os, n - 1, room) && (os[n - 1].alerts ==> (os[n - 1].storable <==> Rank(os, n - 1) < room))
  {
    assert Matched(os, n, room) ==> MatchedAt(os, n - 1, room);
  }

  lemma Unfold(os: seq<Offer>, next: nat, n: nat)
    requires 0 < n <= |os|
    ensures Rank(os, n) == Rank(os, n - 1) + if os[n - 1].alerts then 1 else 0
    ensures var id := next + |Insertions(os, next, n - 1)|;
      && Handovers(os, next, n) == Handovers(os, next, n - 1) + Handed(os[n - 1], id)
      && Insertions(os, next, n) == Insertions(os, next, n - 1) + Kept(os[n - 1], id)
  {
  }

  /** What gets through is what is stored if and only if the store calls match the room in the channel. */
  lemma {:induction false} PassingIsInsertionsIff(os: seq<Offer>, next: nat, n: nat, room: nat)
    requires n <= |os| && next > 0
    ensures Agree(Handovers(os, next, n), Insertions(os, next, n), Rank(os, n), Matched(os, n, room), next, room)
  {
    if n > 0 {
      var d, p := Handovers(os, next, n - 1), Insertions(os, next, n - 1);
      var rank, matched := Rank(os, n - 1), Matched(os, n - 1, room);
      assert Agree(d, p, rank, matched, next, room) by { PassingIsInsertionsIff(os, next, n - 1, room); }
      Unfold(os, next, n);
      MatchedSnoc(os, n, room);
      AgreeNext(os[n - 1], d, p, rank, matched, next, room,
                Handovers(os, next, n), Insertions(os, next, n), Rank(os, n), Matched(os, n, room));
    }
  }

  lemma {:induction false} HandedOver(os: seq<Offer>, next: nat, n: nat, j: nat)
    requires j < n <= |os| && next > 0 && os[j].alerts && !os[j].storable
    ensures Rank(os, j) < |Handovers(os, next, n)| && Handovers(os, next, n)[Rank(os, j)] == os[j].alert.(id := 0)
    decreases n
  {
    PassingIsInsertionsIff(os, next, n - 1, 0);
    Unfold(os, next, n);
    if j < n - 1 { HandedOver(os, next, n - 1, j); }
  }

  // ----- The round is what the state before it says ----------------------------------------------

  /** The rules whose turn comes and passes: those before the first refused one, of the first `k`. */
  ghost function Stop(rules: seq<Rule>, e: DiscoveryEvent, ticks: seq<Tick>, k: nat): (n: nat)
    requires k <= |rules| == |ticks|
    ensures n <= k && (n < k ==> Refused(rules[n], e, ticks[n]))
    ensures forall j :: 0 <= j < n ==> !Refused(rules[j], e, ticks[j])
  {
    if k == 0 then 0
    else
      var n := Stop(rules, e, ticks, k - 1);
      if n == k - 1 && !Refused(rules[k - 1], e, ticks[k - 1]) then k else n
  }

  /** New alerts are not acknowledged: the same rules and devices are silenced as before. */
  ghost predicate SameSilence(s: Store, t: Store) {
    forall name, mac :: Acknowledged(t.alerts, name, mac) <==> Acknowledged(s.alerts, name, mac)
  }

  /** From `s`, `stored` was added and nothing else. */
  ghost predicate Grown(s: Store, t: Store, stored: seq<Alert>) {
    && Keyed(t.alerts, t.nextId) && SameSilence(s, t)
    && t.nextId == s.nextId + |stored| && StoredBetween(t, s.nextId, t.nextId) == stored
  }

  lemma GrownByNothing(s: Store)
    requires Keyed(s.alerts, s.nextId)
    ensures Grown(s, s, [])
  {
  }

  lemma InsertKeepsSilence(s: Store, a: Alert)
    requires Keyed(s.alerts, s.nextId) && !a.acknowledged
    ensures SameSilence(s, WithAlert(s, a))
  {
    var t := WithAlert(s, a);
    forall name, mac ensures Acknowledged(t.alerts, name, mac) <==> Acknowledged(s.alerts, name, mac) {
      assert forall id :: id in s.alerts ==> id in t.alerts && t.alerts[id] == s.alerts[id];
    }
  }

  lemma GrownByOne(s: Store, t: Store, stored: seq<Alert>, a: Alert)
    requires Grown(s, t, stored) && !a.acknowledged && t.nextId > 0
    ensures Grown(s, WithAlert(t, a), stored + [a.(id := t.nextId)])
  {
    InsertKeepsSilence(t, a);
    StoredBetweenFrame(t, WithAlert(t, a), s.nextId, t.nextId);
  }

  /** The round so far: what was handed over and what was stored. */
  ghost predicate RoundIs(r: Round, s: Store, failed: bool, handed: seq<Alert>, stored: seq<Alert>) {
    r.failed == failed && r.alerts == handed && Grown(s, r.store, stored)
  }

  lemma EvaluateIs(r: Rule, e: DiscoveryEvent, s: Store, t: Tick, describe: Describe)
    ensures var v, o := Evaluate(r, e, s, t, describe), OfferOf(r, e, s, t, describe);
      && (v.failed <==> Refused(r, e, t))
      && (!v.failed ==> (if v.alert.Some? then [v.alert.value] else []) == Handed(o, s.nextId))
      && (v.failed ==> v.alert.None? && v.store == s)
      && v.store == if !v.failed && o.alerts && o.storable then WithAlert(s, o.alert) else s
  {
    EvaluateIsLawful(r, e, s, t, describe);
  }

  lemma SilencedAlike(r: Rule, e: DiscoveryEvent, s: Store, s': Store, t: Tick, describe: Describe)
    requires SameSilence(s, s')
    ensures OfferOf(r, e, s, t, describe) == OfferOf(r, e, s', t, describe)
  {
    UnsilencedIff(r, e, s);
    UnsilencedIff(r, e, s');
  }

  lemma CollectRefused(b: Round, s: Store, k: nat, e: DiscoveryEvent, t: Tick, describe: Describe,
                       handed: seq<Alert>, stored: seq<Alert>)
    requires k < |b.rules| && RoundIs(b, s, false, handed, stored) && Refused(b.rules[k], e, t)
    ensures RoundIs(Collect(b, k, e, t, describe), s, true, handed, stored)
  {
    EvaluateIs(b.rules[k], e, b.store, t, describe);
    assert handed + [] == handed;
  }

  lemma CollectPassed(b: Round, s: Store, k: nat, e: DiscoveryEvent, t: Tick, describe: Describe,
                      handed: seq<Alert>, stored: seq<Alert>)
    requires k < |b.rules| && s.nextId > 0 && RoundIs(b, s, false, handed, stored) && !Refused(b.rules[k], e, t)
    ensures var o, id := OfferOf(b.rules[k], e, s, t, describe), s.nextId + |stored|;
      RoundIs(Collect(b, k, e, t, describe), s, false, handed + Handed(o, id), stored + Kept(o, id))
  {
    var o := OfferOf(b.rules[k], e, s, t, describe);
    EvaluateIs(b.rules[k], e, b.store, t, describe);
    SilencedAlike(b.rules[k], e, s, b.store, t, describe);
    if o.alerts && o.storable {
      GrownByOne(s, b.store, stored, o.alert);
    } else {
      assert stored + [] == stored;
    }
  }

  ghost predicate OfferIs(o: Offer, rules: seq<Rule>, e: DiscoveryEvent, s: Store, ticks: seq<Tick>, describe: Describe,
                    j: nat)
    requires j < |rules| == |ticks|
  {
    o == OfferOf(rules[j], e, s, ticks[j], describe)
  }

  lemma {:induction false} RoundFollows(rules: seq<Rule>, e: DiscoveryEvent, s: Store, ticks: seq<Tick>,
                                        describe: Describe, os: seq<Offer>, k: nat)
    requires k <= |rules| == |ticks| == |os| && Keyed(s.alerts, s.nextId) && s.nextId > 0
    requires forall j :: 0 <= j < |os| ==> OfferIs(os[j], rules, e, s, ticks, describe, j)
    ensures var n := Stop(rules, e, ticks, k);
      RoundIs(EvaluateTo(rules, e, s, ticks, describe, k), s, n < k, Handovers(os, s.nextId, n),
              Insertions(os, s.nextId, n))
  {
    if k == 0 {
      GrownByNothing(s);
    } else {
      RoundFollows(rules, e, s, ticks, describe, os, k - 1);
      var before := EvaluateTo(rules, e, s, ticks, describe, k - 1);
      if !before.failed {
        NextRule(rules, e, s, ticks, describe, k - 1);
        StopNext(rules, e, ticks, k);
        if Refused(rules[k - 1], e, ticks[k - 1]) {
          CollectRefused(before, s, k - 1, e, ticks[k - 1], describe, Handovers(os, s.nextId, k - 1),
                         Insertions(os, s.nextId, k - 1));
        } else {
          assert OfferIs(os[k - 1], rules, e, s, ticks, describe, k - 1);
          ForetoldNext(before, s, k, e, ticks[k - 1], describe, os);
        }
      }
    }
  }

  /**
   * A round over the first `k` rules hands over and stores exactly what the rules before the
   * first refused one do, all told from the rules and the store before the event.
   */
  lemma RoundIsForetold(rules: seq<Rule>, e: DiscoveryEvent, s: Store, ticks: seq<Tick>, describe: Describe, k: nat)
    requires k <= |rules| == |ticks| && Keyed(s.alerts, s.nextId) && s.nextId > 0
    ensures var n, os := Stop(rules, e, ticks, k), Offers(rules, e, s, ticks, describe);
      RoundIs(EvaluateTo(rules, e, s, ticks, describe, k), s, n < k, Handovers(os, s.nextId, n),
              Insertions(os, s.nextId, n))
  {
    var os := Offers(rules, e, s, ticks, describe);
    forall j | 0 <= j < |os| ensures OfferIs(os[j], rules, e, s, ticks, describe, j) {
      OfferAt(rules, e, s, ticks, describe, j);
    }
    RoundFollows(rules, e, s, ticks, describe, os, k);
  }

  lemma StopNext(rules: seq<Rule>, e: DiscoveryEvent, ticks: seq<Tick>, k: nat)
    requires 0 < k <= |rules| == |ticks| && Stop(rules, e, ticks, k - 1) == k - 1
    ensures Stop(rules, e, ticks, k) == if Refused(rules[k - 1], e, ticks[k - 1]) then k - 1 else k
  {
  }

  lemma ForetoldNext(b: Round, s: Store, k: nat, e: DiscoveryEvent, t: Tick, describe: Describe, os: seq<Offer>)
    requires 0 < k <= |b.rules| == |os| && s.nextId > 0 && os[k - 1] == OfferOf(b.rules[k - 1], e, s, t, describe)
    requires !Refused(b.rules[k - 1], e, t)
    requires RoundIs(b, s, false, Handovers(os, s.nextId, k - 1), Insertions(os, s.nextId, k - 1))
    ensures RoundIs(Collect(b, k - 1, e, t, describe), s, false, Handovers(os, s.nextId, k),
                    Insertions(os, s.nextId, k))
  {
    Unfold(os, s.nextId, k);
    CollectPassed(b, s, k - 1, e, t, describe, Handovers(os, s.nextId, k - 1), Insertions(os, s.nextId, k - 1));
  }

  // ----- One event ---------------------------------------------------------------------------------

  /** The offers an event meets. */
  ghost function Met(g: Engine, e: DiscoveryEvent, ticks: seq<Tick>, describe: Describe): (os: seq<Offer>)
    requires |ticks| == |g.rules|
    ensures |os| == |g.rules|
  {
    Offers(g.rules, e, g.store, ticks, describe)
  }

  /** How many rules have their turn. */
  ghost function Turns(g: Engine, e: DiscoveryEvent, ticks: seq<Tick>): (n: nat)
    requires |ticks| == |g.rules|
    ensures n <= |g.rules|
  {
    Stop(g.rules, e, ticks, |g.rules|)
  }

  /** How many alerts of the event can get through: none when the event is given up. */
  ghost function Room(g: Engine, e: DiscoveryEvent, ticks: seq<Tick>, accepts: nat): nat
    requires |ticks| == |g.rules|
  {
    if Turns(g, e, ticks) == |g.rules| then accepts else 0
  }

  /** Of the alerting rules whose turn comes, exactly those store their alerts whose alerts get through. */
  ghost predicate Lossless(g: Engine, e: DiscoveryEvent, ticks: seq<Tick>, accepts: nat, describe: Describe)
    requires |ticks| == |g.rules|
  {
    Matched(Met(g, e, ticks, describe), Turns(g, e, ticks), Room(g, e, ticks, accepts))
  }

  /** What a step adds to the store. */
  function Added(g: Engine, g': Engine): seq<Alert> {
    StoredBetween(g'.store, g.store.nextId, g'.store.nextId)
  }

  /** Ids are below the next one, which is not 0. */
  predicate Sound(g: Engine) {
    Keyed(g.store.alerts, g.store.nextId) && g.store.nextId > 0
  }

  /** What one event sends: the alerts handed over, as far as there is room. */
  ghost function Outgoing(g: Engine, e: DiscoveryEvent, ticks: seq<Tick>, accepts: nat, describe: Describe): seq<Alert>
    requires |ticks| == |g.rules|
  {
    Passing(Handovers(Met(g, e, ticks, describe), g.store.nextId, Turns(g, e, ticks)), Room(g, e, ticks, accepts))
  }

  /** What one event sends and stores, whatever fails: the rules before the first refused one decide. */
  lemma EventDelivers(g: Engine, e: DiscoveryEvent, ticks: seq<Tick>, accepts: nat, describe: Describe)
    requires |ticks| == |g.rules| && Sound(g)
    ensures var g' := Act(g, Event(e, ticks, accepts), describe);
      && Sound(g') && g'.store.nextId == g.store.nextId + |Added(g, g')|
      && Added(g, g') == Insertions(Met(g, e, ticks, describe), g.store.nextId, Turns(g, e, ticks))
      && g'.sent == g.sent + Outgoing(g, e, ticks, accepts, describe)
  {
    RoundIsForetold(g.rules, e, g.store, ticks, describe, |g.rules|);
    assert g.sent + [] == g.sent;
  }

  lemma AppendsSame(s: seq<Alert>, d: seq<Alert>, p: seq<Alert>)
    ensures s + d == s + p <==> d == p
  {
    if s + d == s + p {
      assert d == (s + d)[|s|..] && p == (s + p)[|s|..];
    }
  }

  /** For every engine and event, exactly what is stored is sent if and only if the event is lossless. */
  lemma DeliveryIff(g: Engine, e: DiscoveryEvent, ticks: seq<Tick>, accepts: nat, describe: Describe)
    requires |ticks| == |g.rules| && Sound(g)
    ensures var g' := Act(g, Event(e, ticks, accepts), describe);
      g'.sent == g.sent + Added(g, g') <==> Lossless(g, e, ticks, accepts, describe)
  {
    var os, n := Met(g, e, ticks, describe), Turns(g, e, ticks);
    EventDelivers(g, e, ticks, accepts, describe);
    PassingIsInsertionsIff(os, g.store.nextId, n, Room(g, e, ticks, accepts));
    AppendsSame(g.sent, Outgoing(g, e, ticks, accepts, describe), Insertions(os, g.store.nextId, n));
  }

  /** The other way about: an alert that could not be stored is sent all the same, with id 0. */
  lemma UnstoredIsSent(g: Engine, e: DiscoveryEvent, ticks: seq<Tick>, accepts: nat, describe: Describe, j: nat)
    requires |ticks| == |g.rules| && Sound(g) && Turns(g, e, ticks) == |g.rules|
    requires j < |g.rules| && WouldAlert(g.rules[j], e, g.store, ticks[j]) && ticks[j].fault.InsertFails?
    requires Rank(Met(g, e, ticks, describe), j) < accepts
    ensures var g' := Act(g, Event(e, ticks, accepts), describe);
      NewAlert(g.rules[j], e, ticks[j], describe) in g'.sent[|g.sent|..] && 0 !in g'.store.alerts
  {
    var os, out := Met(g, e, ticks, describe), Outgoing(g, e, ticks, accepts, describe);
    EventDelivers(g, e, ticks, accepts, describe);
    OfferAt(g.rules, e, g.store, ticks, describe, j);
    HandedOver(os, g.store.nextId, |g.rules|, j);
    assert out[Rank(os, j)] == NewAlert(g.rules[j], e, ticks[j], describe);
    assert (g.sent + out)[|g.sent|..] == out;
  }

  // ----- Whole runs --------------------------------------------------------------------------------------

  ghost predicate LosslessStep(g: Engine, step: Step, describe: Describe) {
    step.Event? && |step.ticks| == |g.rules| ==> Lossless(g, step.event, step.ticks, step.accepts, describe)
  }

  ghost predicate LosslessRun(g: Engine, steps: seq<Step>, describe: Describe) {
    steps == [] ||
    (LosslessRun(g, steps[..|steps| - 1], describe)
     && LosslessStep(RuleRuns.After(g, steps[..|steps| - 1], describe), steps[|steps| - 1], describe))
  }

  lemma {:induction false} StoredIds(s: Store, lo: nat, hi: nat)
    requires Keyed(s.alerts, s.nextId)
    ensures IdsWithin(StoredBetween(s, lo, hi), lo, hi, false)
    decreases hi
  {
    if lo < hi { StoredIds(s, lo, hi - 1); }
  }

  /** What a step sends has new ids or none; what it stores has new ids. */
  lemma ActDeliversIff(g: Engine, step: Step, describe: Describe) returns (d: seq<Alert>)
    requires Sound(g)
    ensures var g' := Act(g, step, describe);
      && Sound(g') && g.store.nextId <= g'.store.nextId && g'.sent == g.sent + d
      && IdsWithin(d, g.store.nextId, g'.store.nextId, true)
      && IdsWithin(Added(g, g'), g.store.nextId, g'.store.nextId, false)
      && (d == Added(g, g') <==> LosslessStep(g, step, describe))
  {
    var g' := Act(g, step, describe);
    d := [];
    if step.Event? && |step.ticks| == |g.rules| {
      EventDelivers(g, step.event, step.ticks, step.accepts, describe);
      DeliveryIff(g, step.event, step.ticks, step.accepts, describe);
      PassingIsInsertionsIff(Met(g, step.event, step.ticks, describe), g.store.nextId,
                             Turns(g, step.event, step.ticks), step.accepts);
      d := Outgoing(g, step.event, step.ticks, step.accepts, describe);
      AppendsSame(g.sent, d, Added(g, g'));
    }
    assert g.sent + [] == g.sent;
    StoredIds(g'.store, g.store.nextId, g'.store.nextId);
  }

  /** Ids tell the steps apart: two histories agree if and only if they agreed before and in the last step. */
  lemma AgreeStepwise(sent: seq<Alert>, d: seq<Alert>, stored: seq<Alert>, p: seq<Alert>, mid: nat, hi: nat)
    requires IdsWithin(sent, 1, mid, true) && IdsWithin(d, mid, hi, true)
    requires IdsWithin(stored, 1, mid, false) && IdsWithin(p, mid, hi, false) && mid > 0
    ensures sent + d == stored + p <==> sent == stored && d == p
  {
    var a, b := sent + d, stored + p;
    if |sent| < |stored| {
      assert d != [] ==> a[|sent|] == d[0] && b[|sent|] == stored[|sent|];
    } else if |sent| > |stored| {
      assert p != [] ==> b[|stored|] == p[0] && a[|stored|] == sent[|stored|];
    } else if a == b {
      assert sent == a[..|sent|] && d == a[|sent|..] && stored == b[..|stored|] && p == b[|stored|..];
    }
  }

  lemma IdsJoin(s: seq<Alert>, d: seq<Alert>, lo: nat, mid: nat, hi: nat, zero: bool)
    requires IdsWithin(s, lo, mid, zero) && IdsWithin(d, mid, hi, zero) && lo <= mid <= hi
    ensures IdsWithin(s + d, lo, hi, zero)
  {
  }

  /**
   * Delivery over whole runs: the alerts sent are the alerts stored, in order, if and only if
   * every event of the run was lossless; a loss is never made up for.
   */
  lemma {:induction false} RunDeliveryIff(g: Engine, steps: seq<Step>, describe: Describe)
    requires g.sent == [] && Sound(g)
    ensures var g' := RuleRuns.After(g, steps, describe);
      && Sound(g') && IdsWithin(g'.sent, 1, g'.store.nextId, true)
      && IdsWithin(Persisted(g, steps, describe), 1, g'.store.nextId, false)
      && (g'.sent == Persisted(g, steps, describe) <==> LosslessRun(g, steps, describe))
  {
    if steps != [] {
      var n := |steps| - 1;
      RunDeliveryIff(g, steps[..n], describe);
      var before := RuleRuns.After(g, steps[..n], describe);
      var after, stored := Act(before, steps[n], describe), Persisted(g, steps[..n], describe);
      var d := ActDeliversIff(before, steps[n], describe);
      var p := Added(before, after);
      AgreeStepwise(before.sent, d, stored, p, before.store.nextId, after.store.nextId);
      IdsJoin(before.sent, d, 1, before.store.nextId, after.store.nextId, true);
      IdsJoin(stored, p, 1, before.store.nextId, after.store.nextId, false);
    }
  }
}
