/** Discovery events, rule conditions, and what the conditions mean. */
module Conditions {
  import opened Common
  import opened Devices
  import opened Alerts

  datatype DiscoveryEvent = Discovered(device: Device) | Updated(device: Device) | Offline(device: Device)

  datatype RuleCondition =
    | AnyNewDevice
    | NewDeviceByVendor(vendor: Common.Text)
    | NewDeviceByMacPrefix(prefix: Common.Text)
    | WhenOffline(afterSeconds: nat)
    | WhenUpdated

  // ----- Conditions ------------------------------------------------------------------

  function LowerByte(b: Byte): Byte {
    if 0x41 <= b <= 0x5A then b + 0x20 else b
  }

  function LowerText(s: Common.Text): Common.Text {
    seq(|s|, i requires 0 <= i < |s| => LowerByte(s[i]))
  }

  predicate Contains(s: Common.Text, part: Common.Text) {
    exists i :: 0 <= i <= |s| && part <= s[i..]
  }

  function HexDigit(n: nat): Byte
    requires n < 16
  {
    if n < 10 then 0x30 + n else 0x41 + (n - 10)
  }

  /** The upper-case colon form of the lowest `octets` octets of a MAC. */
  function MacText(mac: nat, octets: nat): Common.Text {
    if octets == 0 then []
    else
      var last := [HexDigit(mac / 16 % 16), HexDigit(mac % 16)];
      if octets == 1 then last else MacText(mac / 256, octets - 1) + [0x3A] + last
  }

  function EventTypeOf(e: DiscoveryEvent): EventType {
    match e
    case Discovered(_) => NewDevice
    case Updated(_) => ProtocolChange
    case Offline(_) => DeviceOffline
  }

  /** Whether a rule's condition holds; the silence threshold is the scanner's business. */
  predicate Fits(condition: RuleCondition, e: DiscoveryEvent) {
    match condition
    case AnyNewDevice => e.Discovered?
    case NewDeviceByVendor(vendor) =>
      e.Discovered? && e.device.vendor.Some? && Contains(LowerText(e.device.vendor.value), LowerText(vendor))
    case NewDeviceByMacPrefix(prefix) => e.Discovered? && LowerText(prefix) <= LowerText(MacText(e.device.mac, 6))
    case WhenOffline(_) => e.Offline?
    case WhenUpdated => e.Updated?
  }

  // ----- What a condition means --------------------------------------------------------

  /** The same octet up to ASCII case. */
  predicate SameLetter(a: Byte, b: Byte) {
    a == b || ('A' as int <= a <= 'Z' as int && b == a + 32) || ('A' as int <= b <= 'Z' as int && a == b + 32)
  }

  predicate SameLetters(s: Common.Text, t: Common.Text) {
    |s| == |t| && forall i :: 0 <= i < |s| ==> SameLetter(s[i], t[i])
  }

  lemma LowerIsSameLetters(s: Common.Text, t: Common.Text)
    ensures LowerText(s) == LowerText(t) <==> SameLetters(s, t)
  {
    if LowerText(s) == LowerText(t) {
      forall i | 0 <= i < |s| ensures SameLetter(s[i], t[i]) {
        assert LowerText(s)[i] == LowerText(t)[i];
      }
    }
  }

  /** `part` stands in `s` at `k`, up to ASCII case. */
  predicate StandsAt(s: Common.Text, part: Common.Text, k: nat) {
    k + |part| <= |s| && SameLetters(s[k..k + |part|], part)
  }

  lemma PrefixIsSameLetters(s: Common.Text, part: Common.Text)
    ensures LowerText(part) <= LowerText(s) <==> StandsAt(s, part, 0)
  {
    if |part| <= |s| {
      LowerIsSameLetters(s[..|part|], part);
      assert LowerText(s)[..|part|] == LowerText(s[..|part|]);
    }
  }

  lemma ContainsIsStanding(s: Common.Text, part: Common.Text)
    ensures Contains(LowerText(s), LowerText(part)) <==> exists k :: StandsAt(s, part, k)
  {
    var low := LowerText(s);
    forall k: nat | k <= |s| ensures LowerText(part) <= low[k..] <==> StandsAt(s, part, k) {
      assert low[k..] == LowerText(s[k..]);
      PrefixIsSameLetters(s[k..], part);
      assert k + |part| <= |s| ==> s[k..][..|part|] == s[k..k + |part|];
    }
  }

  /** The value of an upper-case hexadecimal digit. */
  function HexValue(b: Byte): nat {
    if '0' as int <= b <= '9' as int then b - '0' as int
    else if 'A' as int <= b <= 'F' as int then b - 'A' as int + 10
    else 16
  }

  /** The octet of the number that has `back` octets after it. */
  function OctetFromEnd(mac: nat, back: nat): nat {
    if back == 0 then mac % 256 else OctetFromEnd(mac / 256, back - 1)
  }

  /** Two digits, the upper one first, for an octet. */
  predicate WritesOctet(digits: Common.Text, octet: nat) {
    && |digits| == 2 && HexValue(digits[0]) < 16 && HexValue(digits[1]) < 16
    && octet == 16 * HexValue(digits[0]) + HexValue(digits[1])
  }

  /** Octet `i`, most significant first, stands in its place as two digits, with a colon after all but the last. */
  predicate OctetPlaced(text: Common.Text, mac: nat, octets: nat, i: nat)
    requires i < octets && |text| == 3 * octets - 1
  {
    && WritesOctet(text[3 * i..3 * i + 2], OctetFromEnd(mac, octets - 1 - i))
    && (i < octets - 1 ==> text[3 * i + 2] == ':' as int)
  }

  /** The number's octets as two hexadecimal digits each, with colons between them. */
  predicate SpellsOctets(text: Common.Text, mac: nat, octets: nat) {
    octets > 0 && |text| == 3 * octets - 1 && forall i :: 0 <= i < octets ==> OctetPlaced(text, mac, octets, i)
  }

  /** Whether the event is of the kind that the condition names. */
  ghost predicate Means(condition: RuleCondition, e: DiscoveryEvent) {
    match condition
    case AnyNewDevice => e.Discovered?
    case NewDeviceByVendor(vendor) =>
      e.Discovered? && e.device.vendor.Some? && exists k :: StandsAt(e.device.vendor.value, vendor, k)
    case NewDeviceByMacPrefix(prefix) =>
      e.Discovered? && exists text :: SpellsOctets(text, e.device.mac, 6) && StandsAt(text, prefix, 0)
    case WhenOffline(_) => e.Offline?
    case WhenUpdated => e.Updated?
  }

  lemma HexDigitIs(n: nat)
    requires n < 16
    ensures HexValue(HexDigit(n)) == n
  {
  }

  /** The octets of the number without its last one are the earlier octets of the number. */
  lemma FrontStaysPlaced(front: Common.Text, more: Common.Text, mac: nat, octets: nat, i: nat)
    requires i < octets && |front| == 3 * octets - 1 && |more| == 3 && more[0] == ':' as int
    requires OctetPlaced(front, mac / 256, octets, i)
    ensures OctetPlaced(front + more, mac, octets + 1, i)
  {
    var text := front + more;
    assert text[3 * i..3 * i + 2] == front[3 * i..3 * i + 2];
    assert i < octets - 1 ==> text[3 * i + 2] == front[3 * i + 2];
  }

  lemma LastIsPlaced(front: Common.Text, more: Common.Text, mac: nat, octets: nat)
    requires octets > 0 && |front| == 3 * octets && |more| == 2
    requires WritesOctet(more, mac % 256)
    ensures OctetPlaced(front + more, mac, octets + 1, octets)
  {
    assert (front + more)[3 * octets..3 * octets + 2] == more;
  }

  lemma LowOctet(k: nat, low: nat)
    requires low < 256
    ensures (256 * k + low) % 256 == low
  {
  }

  lemma LastDigits(mac: nat)
    ensures WritesOctet([HexDigit(mac / 16 % 16), HexDigit(mac % 16)], mac % 256)
  {
    var h := mac / 16;
    var k, a, b := h / 16, h % 16, mac % 16;
    HexDigitIs(a);
    HexDigitIs(b);
    assert mac == 16 * h + b && h == 16 * k + a;
    LowOctet(k, 16 * a + b);
  }

  lemma {:induction false} MacTextSpells(mac: nat, octets: nat)
    requires octets > 0
    ensures SpellsOctets(MacText(mac, octets), mac, octets)
  {
    var last := [HexDigit(mac / 16 % 16), HexDigit(mac % 16)];
    LastDigits(mac);
    if octets == 1 {
      assert last[0..2] == last;
      assert OctetPlaced(MacText(mac, 1), mac, 1, 0);
    } else {
      var front := MacText(mac / 256, octets - 1);
      MacTextSpells(mac / 256, octets - 1);
      SpellsOneMore(front, last, mac, octets - 1);
    }
  }

  lemma SpellsOneMore(front: Common.Text, last: Common.Text, mac: nat, octets: nat)
    requires SpellsOctets(front, mac / 256, octets) && WritesOctet(last, mac % 256)
    ensures SpellsOctets(front + [0x3A] + last, mac, octets + 1)
  {
    var text, all := front + [0x3A] + last, octets + 1;
    forall i | 0 <= i < all ensures OctetPlaced(text, mac, all, i) {
      if i < octets {
        assert OctetPlaced(front, mac / 256, octets, i);
        FrontStaysPlaced(front, [0x3A] + last, mac, octets, i);
        assert front + ([0x3A] + last) == text;
      } else {
        LastIsPlaced(front + [0x3A], last, mac, octets);
      }
    }
  }

  lemma DigitsAreUnique(digits: Common.Text, other: Common.Text, octet: nat)
    requires WritesOctet(digits, octet) && WritesOctet(other, octet)
    ensures digits == other
  {
  }

  /** There is only one such text. */
  lemma SpellingIsUnique(text: Common.Text, other: Common.Text, mac: nat, octets: nat)
    requires SpellsOctets(text, mac, octets) && SpellsOctets(other, mac, octets)
    ensures text == other
  {
    forall j | 0 <= j < |text| ensures text[j] == other[j] {
      var i := j / 3;
      assert OctetPlaced(text, mac, octets, i) && OctetPlaced(other, mac, octets, i);
      DigitsAreUnique(text[3 * i..3 * i + 2], other[3 * i..3 * i + 2], OctetFromEnd(mac, octets - 1 - i));
      assert j == 3 * i + 2 || text[j] == text[3 * i..3 * i + 2][j - 3 * i];
      assert j == 3 * i + 2 || other[j] == other[3 * i..3 * i + 2][j - 3 * i];
    }
  }

  lemma PrefixMeans(mac: Mac, prefix: Common.Text)
    ensures LowerText(prefix) <= LowerText(MacText(mac, 6))
       <==> exists text :: SpellsOctets(text, mac, 6) && StandsAt(text, prefix, 0)
  {
    var own := MacText(mac, 6);
    MacTextSpells(mac, 6);
    PrefixIsSameLetters(own, prefix);
    forall text | SpellsOctets(text, mac, 6) ensures text == own {
      SpellingIsUnique(text, own, mac, 6);
    }
  }

  /** A condition holds exactly of the events that it means. */
  lemma FitsMeans(condition: RuleCondition, e: DiscoveryEvent)
    ensures Fits(condition, e) <==> Means(condition, e)
  {
    match condition
    case NewDeviceByVendor(vendor) =>
      if e.device.vendor.Some? { ContainsIsStanding(e.device.vendor.value, vendor); }
    case NewDeviceByMacPrefix(prefix) => PrefixMeans(e.device.mac, prefix);
    case _ =>
  }
}
