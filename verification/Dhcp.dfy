/** The DHCP option walk of dhcp.rs, its encoder and what it finds. */
module Dhcp {
  import opened Common
  import Utf8

  /** The code looks for the cookie at octet 240, four octets past where RFC 2131 puts it. */
  const COOKIE_AT: nat := 240
  const OPTIONS_AT: nat := 244
  const COOKIE: seq<Byte> := [0x63, 0x82, 0x53, 0x63]

  const HOSTNAME: Byte := 12
  const MESSAGE_TYPE: Byte := 53
  const VENDOR_CLASS: Byte := 60
  const END: Byte := 255

  datatype DhcpInfo = DhcpInfo(hostname: Option<Text>, vendorClass: Option<Text>, messageType: Option<Byte>)

  const NO_INFO := DhcpInfo(None, None, None)

  /** A parse returns an answer, or panics on an index out of range. */
  datatype Result = Returned(info: Option<DhcpInfo>) | Panicked

  // ----- Options --------------------------------------------------------------------

  datatype Opt = Pad | Opt(tag: Byte, value: seq<Byte>)

  predicate Encodable(o: Opt) {
    o.Opt? ==> o.tag != 0 && o.tag != 255 && |o.value| < 256
  }

  function Bytes(o: Opt): seq<Byte>
    requires Encodable(o)
  {
    match o
    case Pad => [0]
    case Opt(tag, value) => [tag, |value|] + value
  }

  predicate AllEncodable(os: seq<Opt>) {
    forall i :: 0 <= i < |os| ==> Encodable(os[i])
  }

  function EncodeAll(os: seq<Opt>): seq<Byte>
    requires AllEncodable(os)
  {
    if os == [] then [] else Bytes(os[0]) + EncodeAll(os[1..])
  }

  /** The options a payload holds from `at` on, up to an End octet or the first one cut short. */
  function Options(p: seq<Byte>, at: nat): seq<Opt>
    decreases |p| - at
  {
    if at + 1 >= |p| || p[at] == END then []
    else if p[at] == 0 then [Pad] + Options(p, at + 1)
    else if at + 2 + p[at + 1] > |p| then []
    else [Opt(p[at], p[at + 2..at + 2 + p[at + 1]])] + Options(p, at + 2 + p[at + 1])
  }

  // ----- What the options say ----------------------------------------------------------

  /** `trim_end_matches('\\0')` */
  function TrimNuls(s: Text): Text {
    if s != [] && s[|s| - 1] == 0 then TrimNuls(s[..|s| - 1]) else s
  }

  /** The text of an option value, when it is UTF-8 and more than padding. */
  function Usable(value: seq<Byte>): Option<Text> {
    if Utf8.Valid(value) && TrimNuls(value) != [] then Some(TrimNuls(value)) else None
  }

  /** What is extracted is itself well-formed text. */
  lemma {:induction false} TrimmedIsUtf8(s: Text)
    requires Utf8.Valid(s)
    ensures Utf8.Valid(TrimNuls(s))
  {
    if s != [] && s[|s| - 1] == 0 {
      assert s == s[..|s| - 1] + [0];
      Utf8.ValidDropNul(s[..|s| - 1]);
      TrimmedIsUtf8(s[..|s| - 1]);
    }
  }

  /** `t` is what is left of `s` when only NULs are cut off its end, and all of them. */
  predicate Trimmed(s: Text, t: Text) {
    t <= s && (t != [] ==> t[|t| - 1] != 0) && forall i :: |t| <= i < |s| ==> s[i] == 0
  }

  lemma {:induction false} TrimNulsIff(s: Text, t: Text)
    ensures t == TrimNuls(s) <==> Trimmed(s, t)
  {
    if s != [] && s[|s| - 1] == 0 {
      var front := s[..|s| - 1];
      TrimNulsIff(front, t);
      if Trimmed(s, t) {
        assert t != s;
        assert t <= front;
      }
    }
  }

  /** A value is usable when it is the encoding of a text, and more than NULs; it loses those at its end. */
  lemma UsableIff(value: seq<Byte>, t: Text)
    ensures Usable(value) == Some(t) <==> t != [] && Trimmed(value, t) && exists cs :: value == Utf8.EncodeText(cs)
  {
    TrimNulsIff(value, t);
    Utf8.ValidIff(value);
  }

  /** The last usable value of an option with this tag. */
  function LastUsable(os: seq<Opt>, tag: Byte): Option<Text> {
    if os == [] then None
    else
      var o := os[|os| - 1];
      if o.Opt? && o.tag == tag && Usable(o.value).Some? then Usable(o.value)
      else LastUsable(os[..|os| - 1], tag)
  }

  /** The first octet of the last message-type option; empty ones have none. */
  function LastType(os: seq<Opt>): Option<Byte> {
    if os == [] then None
    else
      var o := os[|os| - 1];
      if o.Opt? && o.tag == MESSAGE_TYPE && o.value != [] then Some(o.value[0]) else LastType(os[..|os| - 1])
  }

  /** An empty message-type option, on which the code indexes out of range. */
  predicate Poisonous(o: Opt) {
    o.Opt? && o.tag == MESSAGE_TYPE && o.value == []
  }

  predicate AnyPoisonous(os: seq<Opt>) {
    exists i :: 0 <= i < |os| && Poisonous(os[i])
  }

  function Summary(os: seq<Opt>): DhcpInfo {
    DhcpInfo(LastUsable(os, HOSTNAME), LastUsable(os, VENDOR_CLASS), LastType(os))
  }

  predicate HasCookie(p: seq<Byte>) {
    |p| >= OPTIONS_AT && p[COOKIE_AT..OPTIONS_AT] == COOKIE
  }

  /** What `parse_dhcp` should return for any payload. */
  predicate Correct(p: seq<Byte>, r: Result) {
    if !HasCookie(p) then r == Returned(None)
    else
      var os := Options(p, OPTIONS_AT);
      if AnyPoisonous(os) then r == Panicked
      else r == Returned(Some(Summary(os)))
  }

  // ----- The loop ---------------------------------------------------------------------------

  /** `parse_dhcp` */
  method ParseDhcp(payload: seq<Byte>) returns (r: Result)
    ensures Correct(payload, r)
  {
    if |payload| < 240 {
      return Returned(None);
    }
    if |payload| < 244 {
      return Returned(None);
    }
    assert payload[240..244] == [payload[240], payload[241], payload[242], payload[243]];
    if payload[240] != 0x63 || payload[241] != 0x82 || payload[242] != 0x53 || payload[243] != 0x63 {
      return Returned(None);
    }
    var info := NO_INFO;
    var offset := 244;
    ghost var seen: seq<Opt> := [];
    ScanStart(payload);
    while offset + 1 < |payload|
      invariant 244 <= offset <= |payload|
      invariant Scanned(payload, offset, seen, info)
      decreases |payload| - offset
    {
      var tag := payload[offset];
      if tag == 255 {
        break;
      }
      if tag == 0 {
        ScanPad(payload, offset, seen, info);
        seen := seen + [Pad];
        offset := offset + 1;
        continue;
      }
      var len := payload[offset + 1];
      if offset + 2 + len > |payload| {
        break;
      }
      var value := payload[offset + 2..offset + 2 + len];
      ScanOption(payload, offset, seen, info, tag, value);
      if tag == 53 && len == 0 {
        return Panicked;
      }
      info := UpdateInfo(info, tag, value);
      seen := seen + [Opt(tag, value)];
      offset := offset + 2 + len;
    }
    ScanDone(payload, offset, seen, info);
    return Returned(Some(info));
  }

  /** The `match` on the option's tag; `value[0]` is out of range for an empty message type. */
  method UpdateInfo(info: DhcpInfo, tag: Byte, value: seq<Byte>) returns (info': DhcpInfo)
    requires !Poisonous(Opt(tag, value)) && tag != 0
    ensures info' == Absorb(info, Opt(tag, value))
  {
    info' := info;
    if tag == 12 {
      var text := Usable(value);
      if text.Some? {
        info' := info'.(hostname := text);
      }
    } else if tag == 60 {
      var text := Usable(value);
      if text.Some? {
        info' := info'.(vendorClass := text);
      }
    } else if tag == 53 {
      info' := info'.(messageType := Some(value[0]));
    }
  }

  /** What the loop knows at `offset`: the options before it, all harmless, and their summary. */
  ghost predicate Scanned(p: seq<Byte>, at: nat, seen: seq<Opt>, info: DhcpInfo) {
    Options(p, OPTIONS_AT) == seen + Options(p, at) && !AnyPoisonous(seen) && info == Summary(seen)
  }

  /** The loop moves over one pad or option, or stops for good at an empty message type. */
  lemma ScanOne(p: seq<Byte>, at: nat, seen: seq<Opt>, info: DhcpInfo, o: Opt, next: nat)
    requires Scanned(p, at, seen, info) && at < next && Options(p, at) == [o] + Options(p, next)
    ensures Poisonous(o) ==> AnyPoisonous(Options(p, OPTIONS_AT))
    ensures !Poisonous(o) ==> Scanned(p, next, seen + [o], Absorb(info, o))
  {
    Regroup(seen, o, Options(p, next));
    SummaryAbsorbs(seen, o);
    PoisonSnoc(seen, o);
    if Poisonous(o) {
      PoisonFound(seen, o, Options(p, next));
    }
  }

  lemma ScanPad(p: seq<Byte>, at: nat, seen: seq<Opt>, info: DhcpInfo)
    requires Scanned(p, at, seen, info) && at + 1 < |p| && p[at] == 0
    ensures Scanned(p, at + 1, seen + [Pad], info)
  {
    ScanOne(p, at, seen, info, Pad, at + 1);
  }

  lemma ScanOption(p: seq<Byte>, at: nat, seen: seq<Opt>, info: DhcpInfo, tag: Byte, value: seq<Byte>)
    requires Scanned(p, at, seen, info) && HasCookie(p)
    requires at + 1 < |p| && p[at] == tag != 0 && tag != END
    requires at + 2 + p[at + 1] <= |p| && value == p[at + 2..at + 2 + p[at + 1]]
    ensures if Poisonous(Opt(tag, value)) then Correct(p, Panicked)
            else Scanned(p, at + 2 + p[at + 1], seen + [Opt(tag, value)], Absorb(info, Opt(tag, value)))
  {
    ScanOne(p, at, seen, info, Opt(tag, value), at + 2 + p[at + 1]);
  }

  /** The loop ends at the end of the payload, at an End octet, or at an option cut short. */
  lemma ScanDone(p: seq<Byte>, at: nat, seen: seq<Opt>, info: DhcpInfo)
    requires Scanned(p, at, seen, info) && HasCookie(p)
    requires at + 1 >= |p| || p[at] == END || (p[at] != 0 && at + 2 + p[at + 1] > |p|)
    ensures Correct(p, Returned(Some(info)))
  {
    assert seen + [] == seen;
  }

  lemma ScanStart(p: seq<Byte>)
    requires HasCookie(p)
    ensures Scanned(p, OPTIONS_AT, [], NO_INFO)
  {
    assert [] + Options(p, OPTIONS_AT) == Options(p, OPTIONS_AT);
  }

  lemma Regroup(seen: seq<Opt>, o: Opt, rest: seq<Opt>)
    ensures seen + ([o] + rest) == (seen + [o]) + rest
  {
  }

  lemma PoisonSnoc(os: seq<Opt>, o: Opt)
    ensures AnyPoisonous(os + [o]) <==> AnyPoisonous(os) || Poisonous(o)
  {
    var more := os + [o];
    assert more[|os|] == o && forall i :: 0 <= i < |os| ==> more[i] == os[i];
  }

  lemma PoisonFound(seen: seq<Opt>, o: Opt, rest: seq<Opt>)
    requires Poisonous(o)
    ensures AnyPoisonous((seen + [o]) + rest)
  {
    assert ((seen + [o]) + rest)[|seen|] == o;
  }

  /** The update the loop makes for one option. */
  function Absorb(info: DhcpInfo, o: Opt): DhcpInfo {
    if o.Pad? then info
    else if o.tag == HOSTNAME then (if Usable(o.value).Some? then info.(hostname := Usable(o.value)) else info)
    else if o.tag == VENDOR_CLASS then (if Usable(o.value).Some? then info.(vendorClass := Usable(o.value)) else info)
    else if o.tag == MESSAGE_TYPE && o.value != [] then info.(messageType := Some(o.value[0]))
    else info
  }

  lemma SummaryAbsorbs(os: seq<Opt>, o: Opt)
    ensures Summary(os + [o]) == Absorb(Summary(os), o)
  {
    SummarySnoc(os, o);
  }

  /** How one more option changes the summary. */
  lemma SummarySnoc(os: seq<Opt>, o: Opt)
    ensures Summary(os + [o]) == DhcpInfo(
      if o.Opt? && o.tag == HOSTNAME && Usable(o.value).Some? then Usable(o.value) else LastUsable(os, HOSTNAME),
      if o.Opt? && o.tag == VENDOR_CLASS && Usable(o.value).Some? then Usable(o.value)
      else LastUsable(os, VENDOR_CLASS),
      if o.Opt? && o.tag == MESSAGE_TYPE && o.value != [] then Some(o.value[0]) else LastType(os))
  {
    assert (os + [o])[..|os|] == os;
  }

  // ----- What a summary tells ---------------------------------------------------------------

  /** The option at `i` has the tag and a text with more than NULs. */
  predicate TextAt(os: seq<Opt>, tag: Byte, i: nat) {
    && i < |os| && os[i].Opt? && os[i].tag == tag
    && Utf8.Valid(os[i].value) && exists k :: 0 <= k < |os[i].value| && os[i].value[k] != 0
  }

  predicate LastTextAt(os: seq<Opt>, tag: Byte, i: nat) {
    TextAt(os, tag, i) && forall j: nat :: i < j < |os| ==> !TextAt(os, tag, j)
  }

  /** `t` is the text of the last option that has the tag and a text. */
  ghost predicate LastText(os: seq<Opt>, tag: Byte, t: Option<Text>) {
    if t.None? then forall i: nat :: !TextAt(os, tag, i)
    else exists i: nat :: LastTextAt(os, tag, i) && Trimmed(os[i].value, t.value)
  }

  predicate TypeAt(os: seq<Opt>, i: nat) {
    i < |os| && os[i].Opt? && os[i].tag == 53 && os[i].value != []
  }

  predicate LastTypeAt(os: seq<Opt>, i: nat) {
    TypeAt(os, i) && forall j: nat :: i < j < |os| ==> !TypeAt(os, j)
  }

  /** `t` is the first octet of the last option 53 that has one. */
  ghost predicate LastTypeIs(os: seq<Opt>, t: Option<Byte>) {
    if t.None? then forall i: nat :: !TypeAt(os, i)
    else exists i: nat :: LastTypeAt(os, i) && os[i].value[0] == t.value
  }

  /** Hostname, vendor class and message type of the options 12, 60 and 53. */
  ghost predicate Tells(info: DhcpInfo, os: seq<Opt>) {
    LastText(os, 12, info.hostname) && LastText(os, 60, info.vendorClass) && LastTypeIs(os, info.messageType)
  }

  lemma UsableIsText(value: seq<Byte>)
    ensures Usable(value).Some? <==> Utf8.Valid(value) && exists k :: 0 <= k < |value| && value[k] != 0
    ensures Usable(value).Some? ==> Trimmed(value, Usable(value).value)
  {
    var t := TrimNuls(value);
    TrimNulsIff(value, t);
    if t != [] { assert value[|t| - 1] != 0; }
  }

  lemma OneMoreText(front: seq<Opt>, o: Opt, tag: Byte, t: Option<Text>)
    requires LastText(front, tag, t)
    ensures LastText(front + [o], tag, if o.Opt? && o.tag == tag && Usable(o.value).Some? then Usable(o.value) else t)
  {
    var os, n := front + [o], |front|;
    if o.Opt? { UsableIsText(o.value); }
    assert forall i: nat :: i < n ==> os[i] == front[i];
    assert forall i: nat :: i < n ==> (TextAt(os, tag, i) <==> TextAt(front, tag, i));
    if TextAt(os, tag, n) {
      assert LastTextAt(os, tag, n);
    } else if t.Some? {
      var i: nat :| LastTextAt(front, tag, i) && Trimmed(front[i].value, t.value);
      assert LastTextAt(os, tag, i);
    }
  }

  lemma {:induction false} LastUsableTells(os: seq<Opt>, tag: Byte)
    ensures LastText(os, tag, LastUsable(os, tag))
  {
    if os != [] {
      var n := |os| - 1;
      LastUsableTells(os[..n], tag);
      OneMoreText(os[..n], os[n], tag, LastUsable(os[..n], tag));
      assert os[..n] + [os[n]] == os;
    }
  }

  lemma OneMoreType(front: seq<Opt>, o: Opt, t: Option<Byte>)
    requires LastTypeIs(front, t)
    ensures LastTypeIs(front + [o], if o.Opt? && o.tag == 53 && o.value != [] then Some(o.value[0]) else t)
  {
    var os, n := front + [o], |front|;
    assert forall i: nat :: i < n ==> os[i] == front[i];
    assert forall i: nat :: i < n ==> (TypeAt(os, i) <==> TypeAt(front, i));
    if TypeAt(os, n) {
      assert LastTypeAt(os, n);
    } else if t.Some? {
      var i: nat :| LastTypeAt(front, i) && front[i].value[0] == t.value;
      assert LastTypeAt(os, i);
    }
  }

  lemma {:induction false} LastTypeTells(os: seq<Opt>)
    ensures LastTypeIs(os, LastType(os))
  {
    if os != [] {
      var n := |os| - 1;
      LastTypeTells(os[..n]);
      OneMoreType(os[..n], os[n], LastType(os[..n]));
      assert os[..n] + [os[n]] == os;
    }
  }

  // ----- Round trip ---------------------------------------------------------------------------

  /** All of `os`, except that a pad in the very last octet is not looked at. */
  predicate ReadsAs(found: seq<Opt>, os: seq<Opt>) {
    found == os || found + [Pad] == os
  }

  lemma FourParts(a: seq<Byte>, b: seq<Byte>, c: seq<Byte>, d: seq<Byte>)
    ensures var p := a + b + c + d; var i, j := |a| + |b|, |a| + |b| + |c|;
      p[|a|..i] == b && p[i..j] == c && p[j..] == d && |p| == j + |d|
  {
  }

  lemma Rebracket(pre: seq<Byte>, first: seq<Byte>, others: seq<Byte>, rest: seq<Byte>)
    ensures pre + (first + others) + rest == pre + first + others + rest
    ensures pre + first + others + rest == (pre + first) + (others + rest)
  {
  }

  lemma Shift(pre: seq<Byte>, first: seq<Byte>, others: seq<Byte>, all: seq<Byte>, rest: seq<Byte>, p: seq<Byte>)
    requires all == first + others && p == pre + (all + rest)
    ensures p == (pre + first) + (others + rest)
  {
  }

  lemma OptionIsPlaced(pre: seq<Byte>, head: seq<Byte>, value: seq<Byte>, rest: seq<Byte>, bytes: seq<Byte>,
                       p: seq<Byte>)
    requires |head| == 2 && bytes == head + value && p == pre + bytes + rest
    ensures var at := |pre|;
      && at + 2 + |value| <= |p| && p[at] == head[0] && p[at + 1] == head[1]
      && p[at + 2..at + 2 + |value|] == value
  {
    Rebracket(pre, head, value, rest);
    FourParts(pre, head, value, rest);
    assert p[|pre|] == p[|pre|..|pre| + 2][0] && p[|pre| + 1] == p[|pre|..|pre| + 2][1];
  }

  lemma OptionIsRead(p: seq<Byte>, at: nat, tag: Byte, value: seq<Byte>)
    requires tag != 0 && tag != 255 && at + 2 + |value| <= |p|
    requires p[at] == tag && p[at + 1] == |value| && p[at + 2..at + 2 + |value|] == value
    ensures Options(p, at) == [Opt(tag, value)] + Options(p, at + 2 + |value|)
  {
  }

  lemma PadIsRead(pre: seq<Byte>, rest: seq<Byte>)
    ensures var p := pre + [0] + rest;
      Options(p, |pre|) == if rest == [] then [] else [Pad] + Options(p, |pre| + 1)
  {
  }

  lemma EndIsRead(pre: seq<Byte>, rest: seq<Byte>)
    requires rest == [] || rest[0] == 255
    ensures Options(pre + rest, |pre|) == []
  {
  }

  /** One option, or a pad that is not the payload's last octet, is read and passed over. */
  lemma FirstIsRead(pre: seq<Byte>, o: Opt, bytes: seq<Byte>, rest: seq<Byte>, p: seq<Byte>)
    requires Encodable(o) && bytes == Bytes(o) && p == pre + bytes + rest
    ensures Options(p, |pre|) == if o == Pad && rest == [] then [] else [o] + Options(p, |pre| + |bytes|)
  {
    if o == Pad {
      PadIsRead(pre, rest);
    } else {
      OptionIsPlaced(pre, [o.tag, |o.value|], o.value, rest, bytes, p);
      OptionIsRead(p, |pre|, o.tag, o.value);
    }
  }

  lemma ReadsAsCons(o: Opt, found: seq<Opt>, os: seq<Opt>)
    requires ReadsAs(found, os)
    ensures ReadsAs([o] + found, [o] + os)
  {
    assert [o] + found + [Pad] == [o] + (found + [Pad]);
  }

  /** What an option or pad in front of a list adds to what is read. */
  lemma FrontIsRead(pre: seq<Byte>, o: Opt, bytes: seq<Byte>, tail: seq<Opt>, after: seq<Byte>, os: seq<Opt>,
                    p: seq<Byte>)
    requires Encodable(o) && bytes == Bytes(o) && p == (pre + bytes) + after && os == [o] + tail
    requires ReadsAs(Options(p, |pre| + |bytes|), tail) && (after == [] ==> tail == [])
    ensures ReadsAs(Options(p, |pre|), os)
  {
    var found := Options(p, |pre| + |bytes|);
    FirstIsRead(pre, o, bytes, after, p);
    if o == Pad && after == [] {
      assert [o] + tail == [] + [Pad];
    } else {
      ReadsAsCons(o, found, tail);
    }
  }

  /** Options and pads are read where they were written, before End and anything or at the end of the payload. */
  lemma {:induction false} WrittenOptionsAreRead(pre: seq<Byte>, os: seq<Opt>, rest: seq<Byte>, p: seq<Byte>)
    requires AllEncodable(os) && (rest == [] || rest[0] == 255) && p == pre + (EncodeAll(os) + rest)
    ensures ReadsAs(Options(p, |pre|), os)
    decreases |os|
  {
    if os == [] {
      assert [] + rest == rest;
      EndIsRead(pre, rest);
    } else {
      var o, tail := os[0], os[1..];
      var bytes, others := Bytes(o), EncodeAll(tail);
      var after := others + rest;
      Shift(pre, bytes, others, EncodeAll(os), rest, p);
      WrittenOptionsAreRead(pre + bytes, tail, rest, p);
      assert after == [] ==> tail == [];
      FrontIsRead(pre, o, bytes, tail, after, os, p);
    }
  }

  lemma PadChangesNothing(os: seq<Opt>)
    ensures Summary(os + [Pad]) == Summary(os) && (AnyPoisonous(os + [Pad]) <==> AnyPoisonous(os))
  {
    SummarySnoc(os, Pad);
    PoisonSnoc(os, Pad);
  }

  /**
   * Round trip: for every list of options and pads after the cookie, ended by End and anything
   * or by the end of the payload, the parser reports the last usable hostname and vendor class
   * and the last message type; it panics exactly when there is an empty option 53.
   */
  lemma EncodedOptionsUnderstood(header: seq<Byte>, os: seq<Opt>, rest: seq<Byte>, r: Result)
    requires |header| == 240 && (rest == [] || rest[0] == 255)
    requires AllEncodable(os)
    requires Correct(header + [0x63, 0x82, 0x53, 0x63] + EncodeAll(os) + rest, r)
    ensures if Opt(53, []) in os then r == Panicked else r.Returned? && r.info.Some? && Tells(r.info.value, os)
  {
    CookieIsFound(header, EncodeAll(os), rest);
    Rebracket(header, COOKIE, EncodeAll(os), rest);
    WrittenOptionsAreRead(header + COOKIE, os, rest, header + COOKIE + EncodeAll(os) + rest);
    PadChangesNothing(Options(header + COOKIE + EncodeAll(os) + rest, 244));
    LastUsableTells(os, HOSTNAME);
    LastUsableTells(os, VENDOR_CLASS);
    LastTypeTells(os);
    PoisonIsEmpty(os);
  }

  lemma PoisonIsEmpty(os: seq<Opt>)
    ensures AnyPoisonous(os) <==> Opt(53, []) in os
  {
    forall i | 0 <= i < |os| ensures Poisonous(os[i]) <==> os[i] == Opt(53, []) {}
  }

  lemma CookieIsFound(header: seq<Byte>, options: seq<Byte>, rest: seq<Byte>)
    requires |header| == 240
    ensures HasCookie(header + COOKIE + options + rest) && |header + COOKIE| == 244
  {
    FourParts(header, COOKIE, options, rest);
  }
}
