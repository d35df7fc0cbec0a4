/** What whole packet runs of the discovery engine keep: its events and its counters. */
module DiscoveryRuns {
  import opened Common
  import opened Protocols
  import opened Devices
  import opened Discovery
  import Sums
  import WriteBack

  // ----- The events as a view of the store ----------------------------------------

  /** `b` has all `a` has: sets only grow, names once set stay. */
  predicate Grows(a: View, b: View) {
    && a.protocols <= b.protocols && a.ips <= b.ips
    && (a.hostname.Some? ==> b.hostname == a.hostname)
    && (a.vendorClass.Some? ==> b.vendorClass == a.vendorClass)
  }

  predicate Outgrows(a: View, b: View) {
    Grows(a, b) && a != b
  }

  lemma GrowthChains(a: View, b: View, c: View)
    requires Grows(a, b)
    ensures Grows(b, c) ==> Grows(a, c)
    ensures Outgrows(b, c) ==> Outgrows(a, c)
  {
  }

  lemma PacketsOnlyGrow(d: Device, p: Packet)
    ensures Grows(Visible(d), Visible(AsSource(d, p))) && Grows(Visible(d), Visible(AsDestination(d, p)))
    ensures AsSource(d, p).mac == d.mac && AsDestination(d, p).mac == d.mac
    ensures AsSource(d, p).firstSeen == d.firstSeen && AsDestination(d, p).firstSeen == d.firstSeen
  {
  }

  /** A replacement that keeps the key and only grows what is visible. */
  predicate Suitable(w: World, after: Device, m: Mac) {
    after.mac == m && (m in w.store ==> Grows(Visible(w.store[m]), Visible(after)))
  }

  lemma SourceSuits(w: World, p: Packet, oui: Mac -> Option<Text>)
    requires Keyed(w.store)
    ensures Suitable(w, SourceAfter(w, p, oui), p.src)
  {
    PacketsOnlyGrow(if p.src in w.store then w.store[p.src] else Created(p.src, p.srcBorn, oui(p.src)), p);
  }

  lemma DestinationSuits(w: World, p: Packet, oui: Mac -> Option<Text>)
    requires Keyed(w.store)
    ensures Suitable(w, DestinationAfter(w, p, oui), p.dst)
  {
    PacketsOnlyGrow(if p.dst in w.store then w.store[p.dst] else Created(p.dst, p.dstBorn, oui(p.dst)), p);
  }

  function About(a: Attempt): Mac {
    a.event.device.mac
  }

  function Seen(a: Attempt): View {
    Visible(a.event.device)
  }

  /** The latest attempt about `m`. */
  function LastTry(log: seq<Attempt>, m: Mac): (a: Option<Attempt>)
    ensures a.Some? ==> About(a.value) == m
  {
    if log == [] then None
    else if About(log[|log| - 1]) == m then Some(log[|log| - 1])
    else LastTry(log[..|log| - 1], m)
  }

  /** The latest event about `m` that reached the channel. */
  function LastTaken(log: seq<Attempt>, m: Mac): Option<Attempt> {
    if log == [] then None
    else if About(log[|log| - 1]) == m && log[|log| - 1].taken then Some(log[|log| - 1])
    else LastTaken(log[..|log| - 1], m)
  }

  lemma LastSnoc(log: seq<Attempt>, a: Attempt, m: Mac)
    ensures LastTry(log + [a], m) == if About(a) == m then Some(a) else LastTry(log, m)
    ensures LastTaken(log + [a], m) == if About(a) == m && a.taken then Some(a) else LastTaken(log, m)
  {
    assert (log + [a])[..|log|] == log;
  }

  /** The latest attempt carries what is stored; the latest taken one does so exactly when it is that attempt. */
  predicate Told(now: View, tried: Option<Attempt>, taken: Option<Attempt>, initial: Option<Device>) {
    && (if tried.None? then initial.Some? && Visible(initial.value) == now && taken.None? else Seen(tried.value) == now)
    && (taken.Some? ==> Grows(Seen(taken.value), now))
    && (tried.Some? ==> (tried.value.taken <==> taken.Some? && Seen(taken.value) == now))
  }

  ghost predicate Faithful(w: World, initial: map<Mac, Device>, m: Mac) {
    if m in w.store then Told(Visible(w.store[m]), LastTry(w.log, m), LastTaken(w.log, m), Known(initial, m))
    else m !in initial && LastTry(w.log, m).None? && LastTaken(w.log, m).None?
  }

  lemma ReplaceStaysFaithful(w: World, initial: map<Mac, Device>, after: Device, full: bool, m: Mac)
    requires Faithful(w, initial, m)
    requires Suitable(w, after, after.mac)
    ensures Faithful(Replace(w, after, full), initial, m)
  {
    var news := News(Known(w.store, after.mac), after, full);
    if news == [] {
      assert w.log + news == w.log;
    } else {
      LastSnoc(w.log, news[0], m);
    }
  }

  lemma ProcessStaysFaithful(w: World, initial: map<Mac, Device>, p: Packet, oui: Mac -> Option<Text>, m: Mac)
    requires Keyed(w.store) && Faithful(w, initial, m)
    ensures Keyed(Process(w, p, oui).store) && Faithful(Process(w, p, oui), initial, m)
  {
    var source := SourceAfter(w, p, oui);
    SourceSuits(w, p, oui);
    ReplaceStaysFaithful(w, initial, source, p.srcFull, m);
    if p.src != p.dst {
      var w' := Replace(w, source, p.srcFull);
      DestinationSuits(w', p, oui);
      ReplaceStaysFaithful(w', initial, DestinationAfter(w', p, oui), p.dstFull, m);
    }
  }

  /**
   * Over every packet run and every pattern of full channels: a stored device about which
   * nothing was tried looks as it did at the start; otherwise the last attempt carries its
   * current protocols, names and IPs, and the last event that reached the channel does so
   * exactly when that last attempt was taken.
   */
  lemma {:induction false} EventsAreFaithful(initial: map<Mac, Device>, ps: seq<Packet>, oui: Mac -> Option<Text>,
                                             m: Mac)
    requires Keyed(initial)
    ensures var w := Run(World(initial, []), ps, oui);
      Keyed(w.store) && Faithful(w, initial, m)
  {
    if ps != [] {
      EventsAreFaithful(initial, ps[..|ps| - 1], oui, m);
      ProcessStaysFaithful(Run(World(initial, []), ps[..|ps| - 1], oui), initial, ps[|ps| - 1], oui, m);
    }
  }

  // ----- No event without news ------------------------------------------------------

  /** Every attempt about a device outgrows the earlier ones about it, and the store outgrows none. */
  ghost predicate OnlyNews(w: World) {
    && (forall i, j :: 0 <= i < j < |w.log| && About(w.log[i]) == About(w.log[j]) ==>
          Outgrows(Seen(w.log[i]), Seen(w.log[j])))
    && (forall i :: 0 <= i < |w.log| ==>
          About(w.log[i]) in w.store && Grows(Seen(w.log[i]), Visible(w.store[About(w.log[i])])))
  }

  /** And it outgrows what was stored about the device at the start. */
  ghost predicate NewsSince(w: World, initial: map<Mac, Device>) {
    && (forall m :: m in initial ==> m in w.store && Grows(Visible(initial[m]), Visible(w.store[m])))
    && (forall i :: 0 <= i < |w.log| && About(w.log[i]) in initial ==>
          Outgrows(Visible(initial[About(w.log[i])]), Seen(w.log[i])))
  }

  lemma ReplaceIsOnlyNews(w: World, after: Device, full: bool)
    requires OnlyNews(w)
    requires Suitable(w, after, after.mac)
    ensures OnlyNews(Replace(w, after, full))
  {
    var w' := Replace(w, after, full);
    forall i | 0 <= i < |w.log| && About(w.log[i]) == after.mac
      ensures Grows(Seen(w.log[i]), Visible(after))
      ensures Visible(w.store[after.mac]) != Visible(after) ==> Outgrows(Seen(w.log[i]), Visible(after))
    {
      GrowthChains(Seen(w.log[i]), Visible(w.store[after.mac]), Visible(after));
    }
    assert forall i :: 0 <= i < |w.log| ==> w'.log[i] == w.log[i];
  }

  lemma ReplaceIsNewsSince(w: World, initial: map<Mac, Device>, after: Device, full: bool)
    requires NewsSince(w, initial) && Suitable(w, after, after.mac)
    ensures NewsSince(Replace(w, after, full), initial)
  {
    var w' := Replace(w, after, full);
    if after.mac in initial {
      GrowthChains(Visible(initial[after.mac]), Visible(w.store[after.mac]), Visible(after));
    }
    assert forall i :: 0 <= i < |w.log| ==> w'.log[i] == w.log[i];
  }

  lemma ProcessIsOnlyNews(w: World, initial: map<Mac, Device>, p: Packet, oui: Mac -> Option<Text>)
    requires Keyed(w.store) && OnlyNews(w) && NewsSince(w, initial)
    ensures Keyed(Process(w, p, oui).store) && OnlyNews(Process(w, p, oui)) && NewsSince(Process(w, p, oui), initial)
  {
    var source := SourceAfter(w, p, oui);
    SourceSuits(w, p, oui);
    ReplaceIsOnlyNews(w, source, p.srcFull);
    ReplaceIsNewsSince(w, initial, source, p.srcFull);
    if p.src != p.dst {
      var w' := Replace(w, source, p.srcFull);
      DestinationSuits(w', p, oui);
      ReplaceIsOnlyNews(w', DestinationAfter(w', p, oui), p.dstFull);
      ReplaceIsNewsSince(w', initial, DestinationAfter(w', p, oui), p.dstFull);
    }
  }

  /**
   * No two events about a device say the same, and none says what was stored about it at the
   * start: counter-only updates are silent for ever.
   */
  lemma {:induction false} RunsAreOnlyNews(initial: map<Mac, Device>, ps: seq<Packet>, oui: Mac -> Option<Text>)
    requires Keyed(initial)
    ensures var w := Run(World(initial, []), ps, oui); Keyed(w.store) && OnlyNews(w) && NewsSince(w, initial)
  {
    if ps != [] {
      RunsAreOnlyNews(initial, ps[..|ps| - 1], oui);
      ProcessIsOnlyNews(Run(World(initial, []), ps[..|ps| - 1], oui), initial, ps[|ps| - 1], oui);
    }
  }

  /** The engine's upserts keep `first_seen`, which is what the write-back cache counts on. */
  lemma EngineUpsertsPreserve(s: WriteBack.State, log: seq<Attempt>, p: Packet, oui: Mac -> Option<Text>)
    requires Keyed(s.cache)
    ensures var w := World(s.cache, log);
      && WriteBack.Preserving(s, WriteBack.Upsert(SourceAfter(w, p, oui)))
      && WriteBack.Preserving(s, WriteBack.Upsert(DestinationAfter(w, p, oui)))
  {
    var w := World(s.cache, log);
    PacketsOnlyGrow(if p.src in w.store then w.store[p.src] else Created(p.src, p.srcBorn, oui(p.src)), p);
    PacketsOnlyGrow(if p.dst in w.store then w.store[p.dst] else Created(p.dst, p.dstBorn, oui(p.dst)), p);
  }

  // ----- Counters of every device -----------------------------------------------------

  /** The traffic of `m` in a run: what it sent, and what others sent it. */
  function TrafficOf(ps: seq<Packet>, m: Mac): seq<Traffic> {
    if ps == [] then []
    else TrafficOf(ps[..|ps| - 1], m) + Share(ps[|ps| - 1], m)
  }

  function Share(p: Packet, m: Mac): seq<Traffic> {
    if p.src == m then [Sent(p.length, p.protocol, p.now)]
    else if p.dst == m then [Received(p.length, p.protocol, p.now)]
    else []
  }

  datatype Tally = Tally(packets: nat, sent: nat, received: nat, protocols: set<Protocol>, stats: map<Protocol, nat>)

  function TallyOf(d: Device): Tally {
    Tally(d.packetCount, d.bytesSent, d.bytesReceived, d.protocols, d.stats)
  }

  function TallyIn(store: map<Mac, Device>, m: Mac): Tally {
    if m in store then TallyOf(store[m]) else Tally(0, 0, 0, {}, map[])
  }

  /** One record, on the counters alone. */
  function Bump(t: Tally, r: Traffic): Tally {
    Tally(Saturating(t.packets, 1),
          if r.Sent? then Saturating(t.sent, r.bytes) else t.sent,
          if r.Received? then Saturating(t.received, r.bytes) else t.received,
          t.protocols + {r.protocol},
          t.stats[r.protocol := Saturating(if r.protocol in t.stats then t.stats[r.protocol] else 0, 1)])
  }

  lemma RecordBumps(d: Device, p: Packet)
    ensures TallyOf(AsSource(d, p)) == Bump(TallyOf(d), Sent(p.length, p.protocol, p.now))
    ensures TallyOf(AsDestination(d, p)) == Bump(TallyOf(d), Received(p.length, p.protocol, p.now))
  {
  }

  function BumpAll(ts: seq<Traffic>): Tally {
    if ts == [] then Tally(0, 0, 0, {}, map[]) else Bump(BumpAll(ts[..|ts| - 1]), ts[|ts| - 1])
  }

  lemma {:induction false} BumpAllIsRecordAll(ts: seq<Traffic>)
    ensures BumpAll(ts) == TallyOf(RecordAll(New(0, 0), ts))
  {
    if ts != [] {
      BumpAllIsRecordAll(ts[..|ts| - 1]);
    }
  }

  /** What one packet adds to the counters of `m`. */
  function Bumped(t: Tally, share: seq<Traffic>): Tally
    requires |share| <= 1
  {
    if share == [] then t else Bump(t, share[0])
  }

  lemma SourceBumps(w: World, p: Packet, oui: Mac -> Option<Text>)
    ensures TallyOf(SourceAfter(w, p, oui)) == Bump(TallyIn(w.store, p.src), Sent(p.length, p.protocol, p.now))
  {
    RecordBumps(if p.src in w.store then w.store[p.src] else Created(p.src, p.srcBorn, oui(p.src)), p);
  }

  lemma DestinationBumps(w: World, p: Packet, oui: Mac -> Option<Text>)
    ensures TallyOf(DestinationAfter(w, p, oui)) == Bump(TallyIn(w.store, p.dst), Received(p.length, p.protocol, p.now))
  {
    RecordBumps(if p.dst in w.store then w.store[p.dst] else Created(p.dst, p.dstBorn, oui(p.dst)), p);
  }

  lemma ReplaceTally(w: World, after: Device, full: bool, m: Mac)
    ensures TallyIn(Replace(w, after, full).store, m) == if m == after.mac then TallyOf(after) else TallyIn(w.store, m)
  {
  }

  lemma ProcessBumps(w: World, p: Packet, oui: Mac -> Option<Text>, m: Mac)
    requires Keyed(w.store)
    ensures Keyed(Process(w, p, oui).store)
    ensures TallyIn(Process(w, p, oui).store, m) == Bumped(TallyIn(w.store, m), Share(p, m))
  {
    var source := SourceAfter(w, p, oui);
    SourceSuits(w, p, oui);
    SourceBumps(w, p, oui);
    ReplaceTally(w, source, p.srcFull, m);
    if p.src != p.dst {
      var w' := Replace(w, source, p.srcFull);
      var destination := DestinationAfter(w', p, oui);
      DestinationSuits(w', p, oui);
      DestinationBumps(w', p, oui);
      ReplaceTally(w', destination, p.dstFull, m);
    }
  }

  lemma BumpAllShare(ts: seq<Traffic>, share: seq<Traffic>)
    requires |share| <= 1
    ensures BumpAll(ts + share) == Bumped(BumpAll(ts), share)
  {
    if share == [] {
      assert ts + share == ts;
    } else {
      assert (ts + share)[..|ts|] == ts;
    }
  }

  lemma {:induction false} RunCounts(ps: seq<Packet>, oui: Mac -> Option<Text>, m: Mac)
    ensures Keyed(Run(World(map[], []), ps, oui).store)
    ensures TallyIn(Run(World(map[], []), ps, oui).store, m) == BumpAll(TrafficOf(ps, m))
  {
    if ps != [] {
      var n := |ps| - 1;
      RunCounts(ps[..n], oui, m);
      ProcessBumps(Run(World(map[], []), ps[..n], oui), ps[n], oui, m);
      BumpAllShare(TrafficOf(ps[..n], m), Share(ps[n], m));
    }
  }

  /**
   * From an empty store, whatever the packets: every device's counters are the true
   * totals of its own traffic, capped at the largest 64-bit number, and its packet
   * count is the capped sum of its per-protocol counts.
   */
  lemma DeviceCountersExact(ps: seq<Packet>, oui: Mac -> Option<Text>, m: Mac)
    requires m in Run(World(map[], []), ps, oui).store
    ensures var d := Run(World(map[], []), ps, oui).store[m]; var ts := TrafficOf(ps, m);
      && Counts(d.packetCount, |ts|)
      && Counts(d.bytesSent, TrueSent(ts)) && Counts(d.bytesReceived, TrueReceived(ts))
      && d.stats.Keys == d.protocols && Balanced(d)
      && forall p :: p in d.protocols ==> Counts(d.stats[p], Occurrences(ts, p))
  {
    var ts := TrafficOf(ps, m);
    RunCounts(ps, oui, m);
    BumpAllIsRecordAll(ts);
    CountersExact(0, 0, ts);
    PacketCountIsStatsTotal(0, 0, ts);
  }

  // ----- Conservation -------------------------------------------------------------------

  function SentBy(store: map<Mac, Device>): map<Mac, nat> {
    map m | m in store :: store[m].bytesSent
  }

  function ReceivedBy(store: map<Mac, Device>): map<Mac, nat> {
    map m | m in store :: store[m].bytesReceived
  }

  function PacketsOf(store: map<Mac, Device>): map<Mac, nat> {
    map m | m in store :: store[m].packetCount
  }

  /** Octets of all packets. */
  function Octets(ps: seq<Packet>): nat {
    if ps == [] then 0 else Octets(ps[..|ps| - 1]) + ps[|ps| - 1].length
  }

  /** Octets of the packets between different stations. */
  function OctetsAcross(ps: seq<Packet>): nat {
    if ps == [] then 0
    else OctetsAcross(ps[..|ps| - 1]) + (if ps[|ps| - 1].src == ps[|ps| - 1].dst then 0 else ps[|ps| - 1].length)
  }

  /** Stations touched, over all packets. */
  function Touches(ps: seq<Packet>): nat {
    if ps == [] then 0 else Touches(ps[..|ps| - 1]) + (if ps[|ps| - 1].src == ps[|ps| - 1].dst then 1 else 2)
  }

  datatype Totals = Totals(sent: nat, received: nat, packets: nat)

  ghost function StoreTotals(store: map<Mac, Device>): Totals {
    Totals(Sums.Total(SentBy(store)), Sums.Total(ReceivedBy(store)), Sums.Total(PacketsOf(store)))
  }

  /** Counters are at most the totals. */
  lemma PartsOfTotals(store: map<Mac, Device>, m: Mac)
    requires m in store
    ensures var t := StoreTotals(store);
      store[m].bytesSent <= t.sent && store[m].bytesReceived <= t.received && store[m].packetCount <= t.packets
  {
    Sums.TotalSplit(SentBy(store), m);
    Sums.TotalSplit(ReceivedBy(store), m);
    Sums.TotalSplit(PacketsOf(store), m);
  }

  /** Replacing one device moves each total by what its counters moved. */
  lemma PutTotals(store: map<Mac, Device>, m: Mac, d: Device)
    ensures var t, t', was := StoreTotals(store), StoreTotals(store[m := d]), TallyIn(store, m);
      && t'.sent + was.sent == t.sent + d.bytesSent
      && t'.received + was.received == t.received + d.bytesReceived
      && t'.packets + was.packets == t.packets + d.packetCount
  {
    PutSent(store, m, d);
    PutReceived(store, m, d);
    PutPackets(store, m, d);
  }

  lemma PutSent(store: map<Mac, Device>, m: Mac, d: Device)
    ensures Sums.Total(SentBy(store[m := d])) + TallyIn(store, m).sent == Sums.Total(SentBy(store)) + d.bytesSent
  {
    Sums.TotalPut(SentBy(store), m, d.bytesSent);
    assert SentBy(store[m := d]) == SentBy(store)[m := d.bytesSent];
  }

  lemma PutReceived(store: map<Mac, Device>, m: Mac, d: Device)
    ensures Sums.Total(ReceivedBy(store[m := d])) + TallyIn(store, m).received
         == Sums.Total(ReceivedBy(store)) + d.bytesReceived
  {
    Sums.TotalPut(ReceivedBy(store), m, d.bytesReceived);
    assert ReceivedBy(store[m := d]) == ReceivedBy(store)[m := d.bytesReceived];
  }

  lemma PutPackets(store: map<Mac, Device>, m: Mac, d: Device)
    ensures Sums.Total(PacketsOf(store[m := d])) + TallyIn(store, m).packets
         == Sums.Total(PacketsOf(store)) + d.packetCount
  {
    Sums.TotalPut(PacketsOf(store), m, d.packetCount);
    assert PacketsOf(store[m := d]) == PacketsOf(store)[m := d.packetCount];
  }

  function Plus(t: Totals, sent: nat, received: nat): Totals {
    Totals(t.sent + sent, t.received + received, t.packets + 1)
  }

  /** `t` fits below the 64-bit cap. */
  predicate Fits(t: Totals) {
    t.sent <= U64_MAX && t.received <= U64_MAX && t.packets <= U64_MAX
  }

  /** One record moves the totals by what passed, below the cap. */
  lemma BumpTotals(store: map<Mac, Device>, m: Mac, d: Device, r: Traffic)
    requires TallyOf(d) == Bump(TallyIn(store, m), r)
    requires var sent, received := if r.Sent? then r.bytes else 0, if r.Received? then r.bytes else 0;
      Fits(Plus(StoreTotals(store), sent, received))
    ensures StoreTotals(store[m := d])
         == Plus(StoreTotals(store), if r.Sent? then r.bytes else 0, if r.Received? then r.bytes else 0)
  {
    PutTotals(store, m, d);
    if m in store { PartsOfTotals(store, m); }
  }

  lemma SourceTotals(w: World, p: Packet, oui: Mac -> Option<Text>)
    requires Keyed(w.store) && Fits(Plus(StoreTotals(w.store), p.length, 0))
    ensures var w' := Replace(w, SourceAfter(w, p, oui), p.srcFull);
      Keyed(w'.store) && StoreTotals(w'.store) == Plus(StoreTotals(w.store), p.length, 0)
  {
    var d := SourceAfter(w, p, oui);
    SourceSuits(w, p, oui);
    SourceBumps(w, p, oui);
    BumpTotals(w.store, p.src, d, Sent(p.length, p.protocol, p.now));
    ReplaceStores(w, d, p.srcFull);
  }

  lemma ReplaceStores(w: World, after: Device, full: bool)
    requires Keyed(w.store)
    ensures Replace(w, after, full).store == w.store[after.mac := after] && Keyed(Replace(w, after, full).store)
  {
  }

  lemma DestinationTotals(w: World, p: Packet, oui: Mac -> Option<Text>)
    requires Keyed(w.store) && Fits(Plus(StoreTotals(w.store), 0, p.length))
    ensures var w' := Replace(w, DestinationAfter(w, p, oui), p.dstFull);
      Keyed(w'.store) && StoreTotals(w'.store) == Plus(StoreTotals(w.store), 0, p.length)
  {
    var d := DestinationAfter(w, p, oui);
    DestinationSuits(w, p, oui);
    DestinationBumps(w, p, oui);
    BumpTotals(w.store, p.dst, d, Received(p.length, p.protocol, p.now));
    ReplaceStores(w, d, p.dstFull);
  }

  /**
   * Conservation: from an empty store, and while the true totals fit 64 bits, the devices
   * together have sent every octet seen, received every octet that went to another
   * station, and counted one packet for each station touched.
   */
  lemma {:induction false} TrafficConserved(ps: seq<Packet>, oui: Mac -> Option<Text>)
    requires Octets(ps) <= U64_MAX && Touches(ps) <= U64_MAX
    ensures OctetsAcross(ps) <= Octets(ps)
    ensures var w := Run(World(map[], []), ps, oui);
      Keyed(w.store) && StoreTotals(w.store) == Totals(Octets(ps), OctetsAcross(ps), Touches(ps))
  {
    if ps != [] {
      var n := |ps| - 1;
      TrafficConserved(ps[..n], oui);
      var t := Totals(Octets(ps[..n]), OctetsAcross(ps[..n]), Touches(ps[..n]));
      ProcessTotals(Run(World(map[], []), ps[..n], oui), ps[n], oui, t);
    }
  }

  lemma ProcessTotals(w: World, p: Packet, oui: Mac -> Option<Text>, t: Totals)
    requires Keyed(w.store) && StoreTotals(w.store) == t && Fits(Plus(t, p.length, 0))
    requires p.src != p.dst ==> Fits(Plus(Plus(t, p.length, 0), 0, p.length))
    ensures Keyed(Process(w, p, oui).store)
    ensures StoreTotals(Process(w, p, oui).store)
         == if p.src == p.dst then Plus(t, p.length, 0) else Plus(Plus(t, p.length, 0), 0, p.length)
  {
    SourceTotals(w, p, oui);
    if p.src != p.dst {
      DestinationTotals(Replace(w, SourceAfter(w, p, oui), p.srcFull), p, oui);
    }
  }
}
