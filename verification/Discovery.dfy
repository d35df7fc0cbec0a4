/** The discovery engine: per-packet updates of the device store and the events it sends. */
module Discovery {
  import opened Common
  import opened Protocols
  import opened Devices

  /**
   * A decoded and classified packet: addresses, length, what the DHCP and mDNS parsers
   * found, the shared clock reading, the readings `Device::new` would make, and whether
   * the event channel is full when the event about either end is sent.
   */
  datatype Packet = Packet(
    src: Mac, dst: Mac, ips: Option<(Ip, Ip)>, length: nat, protocol: Protocol,
    dhcpHostname: Option<Text>, dhcpVendorClass: Option<Text>, mdnsHostname: Option<Text>,
    now: Time, srcBorn: Time, dstBorn: Time, srcFull: bool, dstFull: bool)

  datatype Event = Discovered(device: Device) | Updated(device: Device)

  /** A `try_send`, and whether the channel took it. */
  datatype Attempt = Attempt(event: Event, taken: bool)

  // ----- What one packet does to a device ------------------------------------

  function Created(mac: Mac, born: Time, vendor: Option<Text>): Device {
    New(mac, born).(vendor := vendor)
  }

  function WithIps(d: Device, ips: Option<(Ip, Ip)>): Device {
    if ips.None? then d else AddIp(AddIp(d, ips.value.0), ips.value.1)
  }

  /** The first name wins, DHCP before mDNS within one packet. */
  function Named(d: Device, p: Packet): Device {
    var a := if p.dhcpHostname.Some? && d.hostname.None? then d.(hostname := p.dhcpHostname) else d;
    var b := if p.mdnsHostname.Some? && a.hostname.None? then a.(hostname := p.mdnsHostname) else a;
    if p.dhcpVendorClass.Some? && b.vendorClass.None? then b.(vendorClass := p.dhcpVendorClass) else b
  }

  function AsSource(d: Device, p: Packet): Device {
    WithIps(Named(RecordSent(d, p.length, p.protocol, p.now), p), p.ips)
  }

  function AsDestination(d: Device, p: Packet): Device {
    WithIps(RecordReceived(d, p.length, p.protocol, p.now), p.ips)
  }

  // ----- What one packet does to the engine ------------------------------------

  /** The store, and every event the engine tried to send. */
  datatype World = World(store: map<Mac, Device>, log: seq<Attempt>)

  /** What an observer of events is told about. */
  datatype View = View(protocols: set<Protocol>, hostname: Option<Text>, vendorClass: Option<Text>, ips: set<Ip>)

  function Visible(d: Device): View {
    View(d.protocols, d.hostname, d.vendorClass, d.ips)
  }

  function Known(store: map<Mac, Device>, m: Mac): Option<Device> {
    if m in store then Some(store[m]) else None
  }

  /** The attempts that replacing `before` by `after` should cause: news only. */
  function News(before: Option<Device>, after: Device, full: bool): seq<Attempt> {
    if before.None? then [Attempt(Discovered(after), !full)]
    else if Visible(before.value) != Visible(after) then [Attempt(Updated(after), !full)]
    else []
  }

  function Replace(w: World, after: Device, full: bool): World {
    World(w.store[after.mac := after], w.log + News(Known(w.store, after.mac), after, full))
  }

  function SourceAfter(w: World, p: Packet, oui: Mac -> Option<Text>): Device {
    AsSource(if p.src in w.store then w.store[p.src] else Created(p.src, p.srcBorn, oui(p.src)), p)
  }

  function DestinationAfter(w: World, p: Packet, oui: Mac -> Option<Text>): Device {
    AsDestination(if p.dst in w.store then w.store[p.dst] else Created(p.dst, p.dstBorn, oui(p.dst)), p)
  }

  function Process(w: World, p: Packet, oui: Mac -> Option<Text>): World {
    var w' := Replace(w, SourceAfter(w, p, oui), p.srcFull);
    if p.src == p.dst then w' else Replace(w', DestinationAfter(w', p, oui), p.dstFull)
  }

  function Run(w: World, ps: seq<Packet>, oui: Mac -> Option<Text>): World {
    if ps == [] then w else Process(Run(w, ps[..|ps| - 1], oui), ps[|ps| - 1], oui)
  }

  /** Devices are stored under the MAC they carry. */
  predicate Keyed(store: map<Mac, Device>) {
    forall m :: m in store ==> store[m].mac == m
  }

  /** The events that reached the channel. */
  function Delivered(log: seq<Attempt>): seq<Event> {
    if log == [] then []
    else Delivered(log[..|log| - 1]) + (if log[|log| - 1].taken then [log[|log| - 1].event] else [])
  }

  lemma DeliveredSnoc(log: seq<Attempt>, a: Attempt)
    ensures Delivered(log + [a]) == Delivered(log) + (if a.taken then [a.event] else [])
  {
    assert (log + [a])[..|log|] == log;
  }

  // ----- The engine --------------------------------------------------------------

  /** Comparing the sizes of two IP sets is comparing the sets, when one contains the other. */
  lemma GrownSetsBySize<T>(a: set<T>, b: set<T>)
    requires a <= b
    ensures |a| == |b| <==> a == b
  {
    assert b == a + (b - a);
    assert |b| == |a| + |b - a|;
  }

  /** The source half of `update_devices`, on the engine's copy of the device. */
  method TouchSource(before: Device, p: Packet) returns (device: Device, changed: bool)
    ensures device == AsSource(before, p) && device.mac == before.mac
    ensures changed <==> Visible(before) != Visible(device)
  {
    device := before;
    var prevProtocols := device.protocols;
    var prevHostname := device.hostname;
    var prevVendorClass := device.vendorClass;
    var prevIpCount := |device.ips|;
    device := RecordSent(device, p.length, p.protocol, p.now);
    if p.dhcpHostname.Some? && device.hostname.None? {
      device := device.(hostname := p.dhcpHostname);
    }
    if p.mdnsHostname.Some? && device.hostname.None? {
      device := device.(hostname := p.mdnsHostname);
    }
    if p.dhcpVendorClass.Some? && device.vendorClass.None? {
      device := device.(vendorClass := p.dhcpVendorClass);
    }
    if p.ips.Some? {
      device := AddIp(device, p.ips.value.0);
      device := AddIp(device, p.ips.value.1);
    }
    GrownSetsBySize(before.ips, device.ips);
    changed := device.protocols != prevProtocols || device.hostname != prevHostname
               || device.vendorClass != prevVendorClass || |device.ips| != prevIpCount;
  }

  /** The destination half, which compares only protocols and the number of IPs. */
  method TouchDestination(before: Device, p: Packet) returns (device: Device, changed: bool)
    ensures device == AsDestination(before, p) && device.mac == before.mac
    ensures changed <==> Visible(before) != Visible(device)
  {
    device := before;
    var prevProtocols := device.protocols;
    var prevIpCount := |device.ips|;
    device := RecordReceived(device, p.length, p.protocol, p.now);
    if p.ips.Some? {
      device := AddIp(device, p.ips.value.1);
      device := AddIp(device, p.ips.value.0);
    }
    assert device.ips == AsDestination(before, p).ips;
    GrownSetsBySize(before.ips, device.ips);
    changed := device.protocols != prevProtocols || |device.ips| != prevIpCount;
  }

  class DiscoveryEngine {
    var store: map<Mac, Device>
    var sent: seq<Event>
    ghost var log: seq<Attempt>
    const oui: Mac -> Option<Text>

    ghost predicate Valid()
      reads this
    {
      Keyed(store) && sent == Delivered(log)
    }

    constructor (store: map<Mac, Device>, oui: Mac -> Option<Text>)
      requires Keyed(store)
      ensures Valid() && this.store == store && this.sent == [] && this.log == [] && this.oui == oui
    {
      this.store, this.sent, this.log, this.oui := store, [], [], oui;
    }

    method TrySend(event: Event, full: bool)
      requires Valid()
      modifies this`sent, this`log
      ensures Valid() && log == old(log) + [Attempt(event, !full)]
    {
      DeliveredSnoc(log, Attempt(event, !full));
      log := log + [Attempt(event, !full)];
      if !full {
        sent := sent + [event];
      }
    }

    /** The upsert and the event that end each half. */
    method Publish(ghost before: Option<Device>, after: Device, isNew: bool, changed: bool, full: bool)
      requires Valid() && before == Known(store, after.mac) && isNew == before.None?
      requires before.Some? ==> changed == (Visible(before.value) != Visible(after))
      modifies this
      ensures Valid() && World(store, log) == Replace(World(old(store), old(log)), after, full)
    {
      store := store[after.mac := after];
      if isNew {
        TrySend(Discovered(after), full);
      } else if changed {
        TrySend(Updated(after), full);
      }
    }

    /** `update_devices` */
    method UpdateDevices(p: Packet)
      requires Valid()
      modifies this
      ensures Valid() && World(store, log) == Process(World(old(store), old(log)), p, oui)
    {
      var isNew := p.src !in store;
      var device := if isNew then Created(p.src, p.srcBorn, oui(p.src)) else store[p.src];
      var after, changed := TouchSource(device, p);
      Publish(Known(store, p.src), after, isNew, changed, p.srcFull);
      if p.src != p.dst {
        isNew := p.dst !in store;
        device := if isNew then Created(p.dst, p.dstBorn, oui(p.dst)) else store[p.dst];
        after, changed := TouchDestination(device, p);
        Publish(Known(store, p.dst), after, isNew, changed, p.dstFull);
      }
    }
  }
}
