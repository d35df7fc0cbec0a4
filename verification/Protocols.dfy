/** Protocol identifiers and the text form under which counts are stored. */
module Protocols {
  import opened Common

  datatype Protocol =
    | Arp | Ipv4 | Icmp | Tcp | Udp | Dns | Dhcp | Http | Https | Mdns | Ntp
    | Other(number: Byte)

  /** Decimal text of an octet, without leading zeros. */
  function Decimal(n: Byte): string {
    if n < 10 then [Digit(n)]
    else if n < 100 then [Digit(n / 10), Digit(n % 10)]
    else [Digit(n / 100), Digit(n / 10 % 10), Digit(n % 10)]
  }

  /** `Display for Protocol` */
  function Display(p: Protocol): string {
    match p
    case Arp => "ARP"
    case Ipv4 => "IPv4"
    case Icmp => "ICMP"
    case Tcp => "TCP"
    case Udp => "UDP"
    case Dns => "DNS"
    case Dhcp => "DHCP"
    case Http => "HTTP"
    case Https => "HTTPS"
    case Mdns => "mDNS"
    case Ntp => "NTP"
    case Other(n) => "UNKNOWN(" + Decimal(n) + ")"
  }

  function ParseDigits(s: string, acc: nat): Option<nat> {
    if s == [] then Some(acc)
    else if '0' <= s[0] <= '9' then ParseDigits(s[1..], acc * 10 + (s[0] - '0') as nat)
    else None
  }

  /** `u8::from_str`: an optional plus sign, at least one digit, at most 255. */
  function ParseU8(s: string): Option<Byte> {
    var digits := if s != [] && s[0] == '+' then s[1..] else s;
    if digits == [] then None
    else match ParseDigits(digits, 0)
      case None => None
      case Some(n) => if n < 256 then Some(n) else None
  }

  /** `FromStr for Protocol`, shared in substance by the two column readers. */
  function FromStr(s: string): Option<Protocol> {
    if s == "ARP" then Some(Arp)
    else if s == "IPv4" then Some(Ipv4)
    else if s == "ICMP" then Some(Icmp)
    else if s == "TCP" then Some(Tcp)
    else if s == "UDP" then Some(Udp)
    else if s == "DNS" then Some(Dns)
    else if s == "DHCP" then Some(Dhcp)
    else if s == "HTTP" then Some(Http)
    else if s == "HTTPS" then Some(Https)
    else if s == "mDNS" then Some(Mdns)
    else if s == "NTP" then Some(Ntp)
    else if "UNKNOWN(" <= s && |s| > 8 && s[|s| - 1] == ')' then
      match ParseU8(s[8..|s| - 1])
      case None => None
      case Some(n) => Some(Other(n))
    else None
  }

  lemma DecimalParses(n: Byte)
    ensures Decimal(n) != [] && Decimal(n)[0] != '+' && ParseDigits(Decimal(n), 0) == Some(n)
  {
    var s := Decimal(n);
    OneDigit(n % 10, if n < 10 then 0 else n / 10);
    if 10 <= n < 100 {
      assert s[1..] == [Digit(n % 10)];
    } else if n >= 100 {
      assert s[1..] == [Digit(n / 10 % 10), Digit(n % 10)];
      assert s[1..][1..] == [Digit(n % 10)];
      assert ParseDigits(s[1..], n / 100) == ParseDigits(s[1..][1..], n / 100 * 10 + n / 10 % 10);
    }
  }

  lemma OneDigit(d: nat, acc: nat)
    requires d < 10
    ensures ParseDigits([Digit(d)], acc) == Some(acc * 10 + d)
  {
    var none := [Digit(d)][1..];
    assert ParseDigits(none, acc * 10 + d) == Some(acc * 10 + d);
  }

  lemma DisplayParses(p: Protocol)
    ensures FromStr(Display(p)) == Some(p)
  {
    if p.Other? {
      var s := Display(p);
      DecimalParses(p.number);
      assert s[0] == 'U' && s[1] == 'N';
      assert s[8..|s| - 1] == Decimal(p.number);
    }
  }

  // ----- The two text columns -------------------------------------------------

  /** Every protocol, in the order a `BTreeSet<Protocol>` is walked. */
  function Catalogue(): seq<Protocol> {
    [Arp, Ipv4, Icmp, Tcp, Udp, Dns, Dhcp, Http, Https, Mdns, Ntp] + seq(256, i requires 0 <= i < 256 => Other(i))
  }

  lemma Catalogued(p: Protocol)
    ensures p in Catalogue()
  {
    var c := Catalogue();
    match p
    case Arp => assert c[0] == p;
    case Ipv4 => assert c[1] == p;
    case Icmp => assert c[2] == p;
    case Tcp => assert c[3] == p;
    case Udp => assert c[4] == p;
    case Dns => assert c[5] == p;
    case Dhcp => assert c[6] == p;
    case Http => assert c[7] == p;
    case Https => assert c[8] == p;
    case Mdns => assert c[9] == p;
    case Ntp => assert c[10] == p;
    case Other(n) => assert c[11 + n] == p;
  }

  /** `protocol_stats_to_json`: a list of (text, count) pairs, one per protocol in `order`. */
  function StatsColumn(stats: map<Protocol, nat>, order: seq<Protocol>): seq<(string, nat)> {
    if order == [] then []
    else if order[0] in stats then [(Display(order[0]), stats[order[0]])] + StatsColumn(stats, order[1..])
    else StatsColumn(stats, order[1..])
  }

  /** What inserting the pairs one by one leaves; unreadable texts are skipped. */
  function StatsRead(column: seq<(string, nat)>): map<Protocol, nat> {
    if column == [] then map[]
    else
      var (text, count) := column[|column| - 1];
      var before := StatsRead(column[..|column| - 1]);
      if FromStr(text).Some? then before[FromStr(text).value := count] else before
  }

  /** `protocol_stats_from_json`: the loop that fills the map. */
  method ReadStats(column: seq<(string, nat)>) returns (stats: map<Protocol, nat>)
    ensures stats == StatsRead(column)
  {
    stats := map[];
    var i := 0;
    while i < |column|
      invariant 0 <= i <= |column|
      invariant stats == StatsRead(column[..i])
    {
      var (text, count) := column[i];
      var proto := FromStr(text);
      assert column[..i + 1][..i] == column[..i];
      if proto.Some? {
        stats := stats[proto.value := count];
      }
      i := i + 1;
    }
    assert column[..|column|] == column;
  }

  lemma {:induction false} StatsReadCons(pair: (string, nat), rest: seq<(string, nat)>)
    ensures StatsRead([pair] + rest) == StatsRead([pair]) + StatsRead(rest)
  {
    if rest == [] {
      assert [pair] + rest == [pair];
    } else {
      var n := |rest| - 1;
      StatsReadCons(pair, rest[..n]);
      assert ([pair] + rest)[..n + 1] == [pair] + rest[..n];
    }
  }

  lemma {:induction false} StatsReadColumn(stats: map<Protocol, nat>, order: seq<Protocol>)
    ensures StatsRead(StatsColumn(stats, order)) == map p | p in stats && p in order :: stats[p]
  {
    if order != [] {
      StatsReadColumn(stats, order[1..]);
      assert order == [order[0]] + order[1..];
      if order[0] in stats {
        var pair := (Display(order[0]), stats[order[0]]);
        DisplayParses(order[0]);
        assert StatsRead([pair]) == map[order[0] := stats[order[0]]] by {
          var none: seq<(string, nat)> := [pair][..0];
          assert StatsRead(none) == map[];
        }
        StatsReadCons(pair, StatsColumn(stats, order[1..]));
      }
    }
  }

  function StatsToText(stats: map<Protocol, nat>): seq<(string, nat)> {
    StatsColumn(stats, Catalogue())
  }

  /** Per-protocol counts survive storage as text. */
  lemma StatsRoundTrip(stats: map<Protocol, nat>)
    ensures StatsRead(StatsToText(stats)) == stats
  {
    StatsReadColumn(stats, Catalogue());
    forall p | p in stats ensures p in Catalogue() { Catalogued(p); }
  }

  /** `protocols_to_json`: the texts of a set, in order. */
  function ProtocolsColumn(protocols: set<Protocol>, order: seq<Protocol>): seq<string> {
    if order == [] then []
    else (if order[0] in protocols then [Display(order[0])] else []) + ProtocolsColumn(protocols, order[1..])
  }

  function ProtocolsToText(protocols: set<Protocol>): seq<string> {
    ProtocolsColumn(protocols, Catalogue())
  }

  /** `protocols_from_json`: every text that names a protocol. */
  function ProtocolsRead(column: seq<string>): set<Protocol> {
    if column == [] then {}
    else (if FromStr(column[0]).Some? then {FromStr(column[0]).value} else {}) + ProtocolsRead(column[1..])
  }

  lemma {:induction false} ProtocolsReadColumn(protocols: set<Protocol>, order: seq<Protocol>)
    ensures ProtocolsRead(ProtocolsColumn(protocols, order)) == set p | p in protocols && p in order
  {
    if order != [] {
      ProtocolsReadColumn(protocols, order[1..]);
      DisplayParses(order[0]);
      var rest := ProtocolsColumn(protocols, order[1..]);
      assert order == [order[0]] + order[1..];
      if order[0] in protocols {
        assert ([Display(order[0])] + rest)[1..] == rest;
      } else {
        assert [] + rest == rest;
      }
    }
  }

  /** The protocol set survives storage as text. */
  lemma ProtocolsRoundTrip(protocols: set<Protocol>)
    ensures ProtocolsRead(ProtocolsToText(protocols)) == protocols
  {
    ProtocolsReadColumn(protocols, Catalogue());
    forall p | p in protocols ensures p in Catalogue() { Catalogued(p); }
  }
}
