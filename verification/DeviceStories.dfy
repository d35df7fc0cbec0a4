/** Every field of a device's record, told from the packets that touched it. */
module DeviceStories {
  import opened Common
  import opened Devices
  import opened Discovery
  import opened DiscoveryRuns

  // ----- One device, alone ---------------------------------------------------------------

  /** The packet has `m` as source or destination. */
  predicate Meets(p: Packet, m: Mac) {
    p.src == m || p.dst == m
  }

  /** What a packet makes of the device, which it creates when there is none. */
  function Touched(d: Option<Device>, p: Packet, m: Mac, oui: Mac -> Option<Text>): Device {
    var before := if d.Some? then d.value else Created(m, if p.src == m then p.srcBorn else p.dstBorn, oui(m));
    if p.src == m then AsSource(before, p) else AsDestination(before, p)
  }

  function Alone(d: Option<Device>, ps: seq<Packet>, m: Mac, oui: Mac -> Option<Text>): Option<Device> {
    if ps == [] then d
    else
      var n := |ps| - 1;
      var before := Alone(d, ps[..n], m, oui);
      if Meets(ps[n], m) then Some(Touched(before, ps[n], m, oui)) else before
  }

  lemma ReplaceKnown(w: World, after: Device, full: bool, m: Mac)
    ensures Known(Replace(w, after, full).store, m) == if m == after.mac then Some(after) else Known(w.store, m)
  {
  }

  lemma ProcessTouches(w: World, p: Packet, oui: Mac -> Option<Text>, m: Mac)
    requires Keyed(w.store)
    ensures Keyed(Process(w, p, oui).store)
    ensures Known(Process(w, p, oui).store, m)
         == if Meets(p, m) then Some(Touched(Known(w.store, m), p, m, oui)) else Known(w.store, m)
  {
    var source := SourceAfter(w, p, oui);
    SourceSuits(w, p, oui);
    ReplaceKnown(w, source, p.srcFull, m);
    if p.src != p.dst {
      var w' := Replace(w, source, p.srcFull);
      ReplaceStores(w, source, p.srcFull);
      DestinationSuits(w', p, oui);
      ReplaceStores(w', DestinationAfter(w', p, oui), p.dstFull);
      ReplaceKnown(w', DestinationAfter(w', p, oui), p.dstFull, m);
    }
  }

  /** A run of the engine treats every device as if there were no other. */
  lemma {:induction false} RunIsAlone(initial: map<Mac, Device>, ps: seq<Packet>, oui: Mac -> Option<Text>, m: Mac)
    requires Keyed(initial)
    ensures var w := Run(World(initial, []), ps, oui);
      Keyed(w.store) && Known(w.store, m) == Alone(Known(initial, m), ps, m, oui)
  {
    if ps != [] {
      RunIsAlone(initial, ps[..|ps| - 1], oui, m);
      ProcessTouches(Run(World(initial, []), ps[..|ps| - 1], oui), ps[|ps| - 1], oui, m);
    }
  }

  // ----- Which packets matter ----------------------------------------------------------------

  /** The packet comes from `m` and brings a name. */
  predicate Names(p: Packet, m: Mac) {
    p.src == m && (p.dhcpHostname.Some? || p.mdnsHostname.Some?)
  }

  /** The name it brings: DHCP before mDNS. */
  function Offered(p: Packet): Option<Text> {
    if p.dhcpHostname.Some? then p.dhcpHostname else p.mdnsHostname
  }

  predicate Classifies(p: Packet, m: Mac) {
    p.src == m && p.dhcpVendorClass.Some?
  }

  /** The packet has the address at either end. */
  predicate Carries(p: Packet, ip: Ip) {
    p.ips.Some? && (p.ips.value.0 == ip || p.ips.value.1 == ip)
  }

  predicate MeetsAt(ps: seq<Packet>, m: Mac, i: nat) {
    i < |ps| && Meets(ps[i], m)
  }

  predicate CarriesAt(ps: seq<Packet>, m: Mac, ip: Ip, i: nat) {
    i < |ps| && Meets(ps[i], m) && Carries(ps[i], ip)
  }

  predicate NamesAt(ps: seq<Packet>, m: Mac, i: nat) {
    i < |ps| && Names(ps[i], m)
  }

  predicate ClassifiesAt(ps: seq<Packet>, m: Mac, i: nat) {
    i < |ps| && Classifies(ps[i], m)
  }

  predicate FirstMeets(ps: seq<Packet>, m: Mac, i: nat) {
    MeetsAt(ps, m, i) && forall j :: 0 <= j < i ==> !MeetsAt(ps, m, j)
  }

  predicate LastMeets(ps: seq<Packet>, m: Mac, i: nat) {
    MeetsAt(ps, m, i) && forall j :: i < j < |ps| ==> !MeetsAt(ps, m, j)
  }

  predicate FirstNames(ps: seq<Packet>, m: Mac, i: nat) {
    NamesAt(ps, m, i) && forall j :: 0 <= j < i ==> !NamesAt(ps, m, j)
  }

  predicate FirstClassifies(ps: seq<Packet>, m: Mac, i: nat) {
    ClassifiesAt(ps, m, i) && forall j :: 0 <= j < i ==> !ClassifiesAt(ps, m, j)
  }

  function Front(ps: seq<Packet>): (front: seq<Packet>)
    requires ps != []
    ensures |front| == |ps| - 1 && forall i :: 0 <= i < |front| ==> front[i] == ps[i]
  {
    ps[..|ps| - 1]
  }

  // ----- Field by field ---------------------------------------------------------------------------

  /** A device is known exactly when it was from the start or a packet has met it. */
  lemma {:induction false} KnownIffMet(d: Option<Device>, ps: seq<Packet>, m: Mac, oui: Mac -> Option<Text>)
    ensures Alone(d, ps, m, oui).Some? <==> d.Some? || exists i :: MeetsAt(ps, m, i)
    ensures (forall i :: !MeetsAt(ps, m, i)) ==> Alone(d, ps, m, oui) == d
  {
    if ps != [] {
      var front, n := Front(ps), |ps| - 1;
      KnownIffMet(d, front, m, oui);
      assert forall i :: MeetsAt(ps, m, i) <==> MeetsAt(front, m, i) || (i == n && Meets(ps[n], m));
      assert Meets(ps[n], m) ==> MeetsAt(ps, m, n);
    }
  }

  /** `last_seen` is the clock reading of the last packet that met the device. */
  lemma {:induction false} LastSeenIs(d: Option<Device>, ps: seq<Packet>, m: Mac, oui: Mac -> Option<Text>, i: nat)
    requires LastMeets(ps, m, i)
    ensures Alone(d, ps, m, oui).Some? && Alone(d, ps, m, oui).value.lastSeen == ps[i].now
  {
    var n := |ps| - 1;
    if i < n {
      assert !MeetsAt(ps, m, n);
      assert forall j :: MeetsAt(Front(ps), m, j) ==> MeetsAt(ps, m, j);
      LastSeenIs(d, Front(ps), m, oui, i);
    }
  }

  lemma TouchedIps(d: Option<Device>, p: Packet, m: Mac, oui: Mac -> Option<Text>, ip: Ip)
    ensures ip in Touched(d, p, m, oui).ips <==> (d.Some? && ip in d.value.ips) || Carries(p, ip)
  {
  }

  lemma CarriesSnoc(ps: seq<Packet>, m: Mac, ip: Ip)
    requires ps != []
    ensures (exists i :: CarriesAt(ps, m, ip, i))
       <==> (exists i :: CarriesAt(Front(ps), m, ip, i)) || (Meets(ps[|ps| - 1], m) && Carries(ps[|ps| - 1], ip))
  {
    var n := |ps| - 1;
    assert Meets(ps[n], m) && Carries(ps[n], ip) ==> CarriesAt(ps, m, ip, n);
    assert forall i :: CarriesAt(Front(ps), m, ip, i) ==> CarriesAt(ps, m, ip, i);
    assert forall i :: CarriesAt(ps, m, ip, i) ==> i == n || CarriesAt(Front(ps), m, ip, i);
  }

  lemma NoneCarries(ps: seq<Packet>, m: Mac, ip: Ip)
    requires forall i :: !MeetsAt(ps, m, i)
    ensures forall i :: !CarriesAt(ps, m, ip, i)
  {
    assert forall i :: CarriesAt(ps, m, ip, i) ==> MeetsAt(ps, m, i);
  }

  /** The addresses are those from the start and both ends of exactly the packets that met the device. */
  lemma {:induction false} IpsAre(d: Option<Device>, ps: seq<Packet>, m: Mac, oui: Mac -> Option<Text>, ip: Ip)
    requires Alone(d, ps, m, oui).Some?
    ensures ip in Alone(d, ps, m, oui).value.ips
       <==> (d.Some? && ip in d.value.ips) || exists i :: CarriesAt(ps, m, ip, i)
  {
    if ps != [] {
      var front := Front(ps);
      CarriesSnoc(ps, m, ip);
      TouchedIps(Alone(d, front, m, oui), ps[|ps| - 1], m, oui, ip);
      if Alone(d, front, m, oui).Some? {
        IpsAre(d, front, m, oui, ip);
      } else {
        KnownIffMet(d, front, m, oui);
        NoneCarries(front, m, ip);
      }
    }
  }

  /** The hostname from the start, or the first that a packet from the device brought. */
  predicate HostnameFits(d: Option<Device>, ps: seq<Packet>, m: Mac, hostname: Option<Text>) {
    if d.Some? && d.value.hostname.Some? then hostname == d.value.hostname
    else
      && (hostname.None? ==> forall i :: 0 <= i < |ps| ==> !NamesAt(ps, m, i))
      && (forall i :: 0 <= i < |ps| && FirstNames(ps, m, i) ==> hostname == Offered(ps[i]))
      && (hostname.Some? ==> exists i :: 0 <= i < |ps| && FirstNames(ps, m, i))
  }

  predicate VendorClassFits(d: Option<Device>, ps: seq<Packet>, m: Mac, vendorClass: Option<Text>) {
    if d.Some? && d.value.vendorClass.Some? then vendorClass == d.value.vendorClass
    else
      && (vendorClass.None? ==> forall i :: 0 <= i < |ps| ==> !ClassifiesAt(ps, m, i))
      && (forall i :: 0 <= i < |ps| && FirstClassifies(ps, m, i) ==> vendorClass == ps[i].dhcpVendorClass)
      && (vendorClass.Some? ==> exists i :: 0 <= i < |ps| && FirstClassifies(ps, m, i))
  }

  function HostnameOf(d: Option<Device>): Option<Text> {
    if d.Some? then d.value.hostname else None
  }

  function VendorClassOf(d: Option<Device>): Option<Text> {
    if d.Some? then d.value.vendorClass else None
  }

  lemma TouchedNames(d: Option<Device>, p: Packet, m: Mac, oui: Mac -> Option<Text>)
    ensures var t := Touched(d, p, m, oui);
      && t.hostname == (if HostnameOf(d).None? && Names(p, m) then Offered(p) else HostnameOf(d))
      && t.vendorClass == (if VendorClassOf(d).None? && Classifies(p, m) then p.dhcpVendorClass else VendorClassOf(d))
  {
  }

  lemma {:induction false} HostnameIs(d: Option<Device>, ps: seq<Packet>, m: Mac, oui: Mac -> Option<Text>)
    ensures HostnameFits(d, ps, m, HostnameOf(Alone(d, ps, m, oui)))
  {
    if ps != [] {
      var front, n := Front(ps), |ps| - 1;
      HostnameIs(d, front, m, oui);
      TouchedNames(Alone(d, front, m, oui), ps[n], m, oui);
      FirstNamesSnoc(ps, m);
    }
  }

  lemma FirstNamesSnoc(ps: seq<Packet>, m: Mac)
    requires ps != []
    ensures var n := |ps| - 1;
      && (forall i :: 0 <= i < n ==> (NamesAt(ps, m, i) <==> NamesAt(Front(ps), m, i)))
      && (forall i :: 0 <= i < n ==> (FirstNames(ps, m, i) <==> FirstNames(Front(ps), m, i)))
      && (NamesAt(ps, m, n) <==> Names(ps[n], m))
      && (FirstNames(ps, m, n) <==> Names(ps[n], m) && forall i :: 0 <= i < n ==> !NamesAt(Front(ps), m, i))
  {
  }

  lemma {:induction false} VendorClassIs(d: Option<Device>, ps: seq<Packet>, m: Mac, oui: Mac -> Option<Text>)
    ensures VendorClassFits(d, ps, m, VendorClassOf(Alone(d, ps, m, oui)))
  {
    if ps != [] {
      var front, n := Front(ps), |ps| - 1;
      VendorClassIs(d, front, m, oui);
      TouchedNames(Alone(d, front, m, oui), ps[n], m, oui);
      FirstClassifiesSnoc(ps, m);
    }
  }

  lemma FirstClassifiesSnoc(ps: seq<Packet>, m: Mac)
    requires ps != []
    ensures var n := |ps| - 1;
      && (forall i :: 0 <= i < n ==> (ClassifiesAt(ps, m, i) <==> ClassifiesAt(Front(ps), m, i)))
      && (forall i :: 0 <= i < n ==> (FirstClassifies(ps, m, i) <==> FirstClassifies(Front(ps), m, i)))
      && (ClassifiesAt(ps, m, n) <==> Classifies(ps[n], m))
      && (FirstClassifies(ps, m, n)
          <==> Classifies(ps[n], m) && forall i :: 0 <= i < n ==> !ClassifiesAt(Front(ps), m, i))
  {
  }

  predicate CreationFits(d: Option<Device>, ps: seq<Packet>, m: Mac, vendor: Option<Text>, a: Device) {
    if d.Some? then a.vendor == d.value.vendor && a.firstSeen == d.value.firstSeen
    else
      && a.vendor == vendor
      && forall i :: 0 <= i < |ps| && FirstMeets(ps, m, i) ==>
           a.firstSeen == if ps[i].src == m then ps[i].srcBorn else ps[i].dstBorn
  }

  /** MAC, vendor and `first_seen` are those of the creation, by the first packet that met the device. */
  lemma {:induction false} CreationIs(d: Option<Device>, ps: seq<Packet>, m: Mac, oui: Mac -> Option<Text>)
    requires Alone(d, ps, m, oui).Some? && (d.Some? ==> d.value.mac == m)
    ensures Alone(d, ps, m, oui).value.mac == m && CreationFits(d, ps, m, oui(m), Alone(d, ps, m, oui).value)
  {
    if ps != [] {
      var front, n := Front(ps), |ps| - 1;
      assert forall i :: 0 <= i < n ==> (MeetsAt(ps, m, i) <==> MeetsAt(front, m, i));
      assert forall i :: 0 <= i < n ==> (FirstMeets(ps, m, i) <==> FirstMeets(front, m, i));
      KnownIffMet(d, front, m, oui);
      if Alone(d, front, m, oui).Some? {
        CreationIs(d, front, m, oui);
      }
    }
  }

  // ----- The whole record ---------------------------------------------------------------------------

  /**
   * Over every packet run from every store, the record of a device is, field by field, what the
   * packets that met it say; the counters and protocols are the subject of `DeviceCountersExact`.
   */
  lemma RecordIs(initial: map<Mac, Device>, ps: seq<Packet>, oui: Mac -> Option<Text>, m: Mac)
    requires Keyed(initial)
    ensures var store, before := Run(World(initial, []), ps, oui).store, Known(initial, m);
      && (m in store <==> m in initial || exists i :: MeetsAt(ps, m, i))
      && (m in store ==>
            var d := store[m];
            && d.mac == m
            && ((forall i :: !MeetsAt(ps, m, i)) ==> before == Some(d))
            && (forall i :: 0 <= i < |ps| && LastMeets(ps, m, i) ==> d.lastSeen == ps[i].now)
            && (forall ip :: ip in d.ips <==>
                  (before.Some? && ip in before.value.ips) || exists i :: CarriesAt(ps, m, ip, i))
            && HostnameFits(before, ps, m, d.hostname)
            && VendorClassFits(before, ps, m, d.vendorClass)
            && CreationFits(before, ps, m, oui(m), d))
  {
    var before := Known(initial, m);
    RunIsAlone(initial, ps, oui, m);
    KnownIffMet(before, ps, m, oui);
    if Alone(before, ps, m, oui).Some? {
      forall i | 0 <= i < |ps| && LastMeets(ps, m, i) ensures Alone(before, ps, m, oui).value.lastSeen == ps[i].now {
        LastSeenIs(before, ps, m, oui, i);
      }
      forall ip ensures ip in Alone(before, ps, m, oui).value.ips <==>
        (before.Some? && ip in before.value.ips) || exists i :: CarriesAt(ps, m, ip, i) {
        IpsAre(before, ps, m, oui, ip);
      }
      HostnameIs(before, ps, m, oui);
      VendorClassIs(before, ps, m, oui);
      CreationIs(before, ps, m, oui);
    }
  }
}
