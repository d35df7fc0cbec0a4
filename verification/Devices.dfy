/** The device record, its saturating counters, and its database row. */
module Devices {
  import opened Common
  import opened Protocols
  import Sums

  datatype Device = Device(
    mac: Mac,
    ips: set<Ip>,
    hostname: Option<Text>,
    firstSeen: Time,
    lastSeen: Time,
    packetCount: nat,
    bytesSent: nat,
    bytesReceived: nat,
    protocols: set<Protocol>,
    vendor: Option<Text>,
    vendorClass: Option<Text>,
    stats: map<Protocol, nat>)

  /** `u64::saturating_add` */
  function Saturating(a: nat, b: nat): nat {
    Capped(a + b)
  }

  function Capped(n: nat): nat {
    if n > U64_MAX then U64_MAX else n
  }

  /** `Device::new`, its clock reading being `now`. */
  function New(mac: Mac, now: Time): Device {
    Device(mac, {}, None, now, now, 0, 0, 0, {}, None, None, map[])
  }

  /** The part common to `record_sent` and `record_received`. */
  function Counted(d: Device, protocol: Protocol, now: Time): Device {
    d.(packetCount := Saturating(d.packetCount, 1),
       protocols := d.protocols + {protocol},
       stats := d.stats[protocol := Saturating(if protocol in d.stats then d.stats[protocol] else 0, 1)],
       lastSeen := now)
  }

  function RecordSent(d: Device, bytes: nat, protocol: Protocol, now: Time): Device {
    Counted(d, protocol, now).(bytesSent := Saturating(d.bytesSent, bytes))
  }

  function RecordReceived(d: Device, bytes: nat, protocol: Protocol, now: Time): Device {
    Counted(d, protocol, now).(bytesReceived := Saturating(d.bytesReceived, bytes))
  }

  function AddIp(d: Device, ip: Ip): Device {
    d.(ips := d.ips + {ip})
  }

  /** A 64-bit counter of `total` things that stops at the top. */
  predicate Counts(counter: nat, total: nat) {
    counter == if total < 0x1_0000_0000_0000_0000 then total else 0xFFFF_FFFF_FFFF_FFFF
  }

  // ----- Counters over whole lives -------------------------------------------

  datatype Traffic = Sent(bytes: nat, protocol: Protocol, at: Time) | Received(bytes: nat, protocol: Protocol, at: Time)

  function Record(d: Device, t: Traffic): Device {
    match t
    case Sent(bytes, protocol, at) => RecordSent(d, bytes, protocol, at)
    case Received(bytes, protocol, at) => RecordReceived(d, bytes, protocol, at)
  }

  function RecordAll(d: Device, ts: seq<Traffic>): Device {
    if ts == [] then d else Record(RecordAll(d, ts[..|ts| - 1]), ts[|ts| - 1])
  }

  /** Uncapped totals of what really passed. */
  function TrueSent(ts: seq<Traffic>): nat {
    if ts == [] then 0 else TrueSent(ts[..|ts| - 1]) + (if ts[|ts| - 1].Sent? then ts[|ts| - 1].bytes else 0)
  }

  function TrueReceived(ts: seq<Traffic>): nat {
    if ts == [] then 0 else TrueReceived(ts[..|ts| - 1]) + (if ts[|ts| - 1].Received? then ts[|ts| - 1].bytes else 0)
  }

  function Occurrences(ts: seq<Traffic>, p: Protocol): nat {
    if ts == [] then 0 else Occurrences(ts[..|ts| - 1], p) + (if ts[|ts| - 1].protocol == p then 1 else 0)
  }

  /**
   * The counters of a device after any traffic: each is its true total, capped;
   * the per-protocol counts have exactly the protocols as keys.
   */
  lemma {:induction false} CountersExact(mac: Mac, born: Time, ts: seq<Traffic>)
    ensures var d := RecordAll(New(mac, born), ts);
      && Counts(d.packetCount, |ts|)
      && Counts(d.bytesSent, TrueSent(ts))
      && Counts(d.bytesReceived, TrueReceived(ts))
      && d.stats.Keys == d.protocols
      && forall p :: (p in d.protocols <==> Occurrences(ts, p) > 0)
                  && (p in d.protocols ==> Counts(d.stats[p], Occurrences(ts, p)))
  {
    if ts != [] {
      CountersExact(mac, born, ts[..|ts| - 1]);
    }
  }

  /** What every device keeps about its packet count. */
  ghost predicate Balanced(d: Device) {
    d.packetCount == Capped(Sums.Total(d.stats))
  }

  lemma RecordKeepsBalance(d: Device, t: Traffic)
    requires Balanced(d)
    ensures Balanced(Record(d, t))
  {
    var was := if t.protocol in d.stats then d.stats[t.protocol] else 0;
    Sums.TotalPut(d.stats, t.protocol, Saturating(was, 1));
    if t.protocol in d.stats {
      Sums.TotalSplit(d.stats, t.protocol);
    }
  }

  /** The packet count is the capped sum of the per-protocol counts, saturated or not. */
  lemma {:induction false} PacketCountIsStatsTotal(mac: Mac, born: Time, ts: seq<Traffic>)
    ensures Balanced(RecordAll(New(mac, born), ts))
  {
    if ts != [] {
      PacketCountIsStatsTotal(mac, born, ts[..|ts| - 1]);
      RecordKeepsBalance(RecordAll(New(mac, born), ts[..|ts| - 1]), ts[|ts| - 1]);
    }
  }

  // ----- Database rows ---------------------------------------------------------

  /** One row of the devices table; times in milliseconds, sets and maps as text. */
  datatype Row = Row(
    ips: set<Ip>,
    hostname: Option<Text>,
    firstSeen: nat,
    lastSeen: nat,
    packetCount: nat,
    bytesSent: nat,
    bytesReceived: nat,
    protocols: seq<string>,
    vendor: Option<Text>,
    vendorClass: Option<Text>,
    stats: seq<(string, nat)>)

  /** The column values a flush binds for `d`. */
  function RowOf(d: Device): Row {
    Row(d.ips, d.hostname, d.firstSeen / NANOS_PER_MILLI, d.lastSeen / NANOS_PER_MILLI,
        d.packetCount, d.bytesSent, d.bytesReceived,
        ProtocolsToText(d.protocols), d.vendor, d.vendorClass, StatsToText(d.stats))
  }

  /** `row_to_device` */
  function DeviceOf(mac: Mac, r: Row): Device {
    Device(mac, r.ips, r.hostname, r.firstSeen * NANOS_PER_MILLI, r.lastSeen * NANOS_PER_MILLI,
           r.packetCount, r.bytesSent, r.bytesReceived,
           ProtocolsRead(r.protocols), r.vendor, r.vendorClass, StatsRead(r.stats))
  }

  /** `d` with its times cut to whole milliseconds. */
  function Millis(d: Device): Device {
    d.(firstSeen := d.firstSeen / NANOS_PER_MILLI * NANOS_PER_MILLI,
       lastSeen := d.lastSeen / NANOS_PER_MILLI * NANOS_PER_MILLI)
  }

  /** Storing and loading loses nothing but the parts of a millisecond. */
  lemma RowRoundTrip(d: Device)
    ensures DeviceOf(d.mac, RowOf(d)) == Millis(d)
  {
    ProtocolsRoundTrip(d.protocols);
    StatsRoundTrip(d.stats);
  }

  /** `INSERT ... ON CONFLICT(mac) DO UPDATE`: an existing row keeps its `first_seen`. */
  function MergedRow(existing: Option<Row>, d: Device): Row {
    if existing.Some? then RowOf(d).(firstSeen := existing.value.firstSeen) else RowOf(d)
  }

  /** The same write, seen through the devices that rows read back as. */
  function Merged(existing: Option<Device>, d: Device): Device {
    if existing.Some? then Millis(d).(firstSeen := existing.value.firstSeen) else Millis(d)
  }

  lemma MergedRowReadsBack(existing: Option<Row>, d: Device)
    ensures DeviceOf(d.mac, MergedRow(existing, d))
         == Merged(if existing.Some? then Some(DeviceOf(d.mac, existing.value)) else None, d)
  {
    RowRoundTrip(d);
  }

  /** Everything a row must carry of a device, `first_seen` aside. */
  function Columns(d: Device): Device {
    Millis(d).(firstSeen := 0)
  }

  /** Devices have the same columns when they differ in `first_seen` and parts of a millisecond at most. */
  lemma ColumnsMean(a: Device, b: Device)
    ensures Columns(a) == Columns(b)
       <==> && a.lastSeen / 1_000_000 == b.lastSeen / 1_000_000
            && a == b.(firstSeen := a.firstSeen, lastSeen := a.lastSeen)
  {
  }
}
