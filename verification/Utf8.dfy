/**
 * The check made by `std::str::from_utf8`: well-formed byte sequences of
 * table 3-7 of the Unicode standard, and what the parsers rely on about it.
 */
module Utf8 {
  import opened Common

  predicate Continuation(b: Byte) { 0x80 <= b < 0xC0 }

  /** The second octet allowed after lead octet `lead`. */
  predicate SecondAllowed(lead: Byte, b: Byte) {
    && Continuation(b)
    && (lead == 0xE0 ==> 0xA0 <= b)
    && (lead == 0xED ==> b < 0xA0)
    && (lead == 0xF0 ==> 0x90 <= b)
    && (lead == 0xF4 ==> b < 0x90)
  }

  /** Octets of the character that `lead` starts, or 0 when `lead` cannot start one. */
  function Width(lead: Byte): (w: nat)
    ensures w <= 4
  {
    if lead < 0x80 then 1
    else if 0xC2 <= lead < 0xE0 then 2
    else if 0xE0 <= lead < 0xF0 then 3
    else if 0xF0 <= lead < 0xF5 then 4
    else 0
  }

  /** `s` starts with one whole well-formed character of `Width(s[0])` octets. */
  predicate StartsWithChar(s: Text)
    requires s != []
  {
    var w := Width(s[0]);
    && 0 < w <= |s|
    && (w >= 2 ==> SecondAllowed(s[0], s[1]))
    && (w >= 3 ==> Continuation(s[2]))
    && (w >= 4 ==> Continuation(s[3]))
  }

  predicate Valid(s: Text)
  {
    s == [] || (StartsWithChar(s) && Valid(s[Width(s[0])..]))
  }

  /** Gluing valid strings gives a valid string, and a valid prefix can be cut off. */
  lemma {:induction false} ValidConcat(a: Text, b: Text)
    requires Valid(a)
    ensures Valid(a + b) <==> Valid(b)
  {
    if a == [] {
      assert a + b == b;
    } else {
      var w := Width(a[0]);
      ValidConcat(a[w..], b);
      assert (a + b)[w..] == a[w..] + b;
    }
  }

  /** A NUL octet is always a character of its own, so it can be cut off the end. */
  lemma {:induction false} ValidDropNul(s: Text)
    requires Valid(s + [0])
    ensures Valid(s)
  {
    if s != [] {
      var w := Width(s[0]);
      assert (s + [0])[0] == s[0];
      assert (s + [0])[|s|] == 0;
      assert w <= |s|;
      assert (s + [0])[w..] == s[w..] + [0];
      ValidDropNul(s[w..]);
    }
  }

  // ----- What is accepted ----------------------------------------------------------------

  /** A code point that is not a surrogate. */
  type Scalar = c: int | 0 <= c < 0xD800 || 0xE000 <= c < 0x11_0000

  /** The lowest six bits, as an octet that continues a character. */
  function Tail(c: nat): Byte { 0x80 + c % 64 }

  /** The encoding of one character, section 3 of RFC 3629. */
  function EncodeChar(c: Scalar): Text {
    if c < 0x80 then [c]
    else if c < 0x800 then [0xC0 + c / 64, Tail(c)]
    else if c < 0x1_0000 then [0xE0 + c / 64 / 64, Tail(c / 64), Tail(c)]
    else [0xF0 + c / 64 / 64 / 64, Tail(c / 64 / 64), Tail(c / 64), Tail(c)]
  }

  function EncodeText(cs: seq<Scalar>): Text {
    if cs == [] then [] else EncodeChar(cs[0]) + EncodeText(cs[1..])
  }

  lemma CharIsAccepted(c: Scalar, rest: Text)
    ensures var s := EncodeChar(c) + rest;
      StartsWithChar(s) && s[..Width(s[0])] == EncodeChar(c) && s[Width(s[0])..] == rest
  {
    var s := EncodeChar(c) + rest;
    assert s[0] == EncodeChar(c)[0] && Width(s[0]) == |EncodeChar(c)|;
  }

  /** `high` followed by the six bits that `b` continues it with. */
  function Joined(high: nat, b: Byte): nat
    requires Continuation(b)
  {
    64 * high + (b as int - 0x80)
  }

  lemma JoinedSplits(high: nat, b: Byte)
    requires Continuation(b)
    ensures Joined(high, b) / 64 == high && Tail(Joined(high, b)) == b
  {
  }

  lemma TwoOctets(lead: nat, a: Byte)
    requires 2 <= lead < 32 && Continuation(a)
    ensures var c := Joined(lead, a); c < 0x800 && EncodeChar(c) == [0xC0 + lead, a]
  {
    JoinedSplits(lead, a);
  }

  lemma ThreeOctets(lead: nat, a: Byte, b: Byte)
    requires lead < 16 && SecondAllowed(0xE0 + lead, a) && Continuation(b)
    ensures var c := Joined(Joined(lead, a), b);
      c < 0x1_0000 && !(0xD800 <= c < 0xE000) && EncodeChar(c) == [0xE0 + lead, a, b]
  {
    var high := Joined(lead, a);
    JoinedSplits(lead, a);
    JoinedSplits(high, b);
    assert Joined(high, b) >= 0x800;
  }

  lemma FourOctets(lead: nat, a: Byte, b: Byte, d: Byte)
    requires lead < 5 && SecondAllowed(0xF0 + lead, a) && Continuation(b) && Continuation(d)
    ensures var c := Joined(Joined(Joined(lead, a), b), d);
      0x1_0000 <= c < 0x11_0000 && EncodeChar(c) == [0xF0 + lead, a, b, d]
  {
    var top := Joined(lead, a);
    var high := Joined(top, b);
    JoinedSplits(lead, a);
    JoinedSplits(top, b);
    JoinedSplits(high, d);
    assert 0x10 <= top < 0x110;
    assert 0x400 <= high < 0x4400;
    FourGroups(Joined(high, d), high, top, lead);
  }

  lemma FourGroups(c: Scalar, high: nat, top: nat, lead: nat)
    requires c >= 0x1_0000 && c / 64 == high && high / 64 == top && top / 64 == lead < 5
    ensures EncodeChar(c) == [0xF0 + lead, Tail(top), Tail(high), Tail(c)]
  {
  }

  /** The character that a well-formed start stands for. */
  lemma CharIsRead(s: Text) returns (c: Scalar)
    requires s != [] && StartsWithChar(s)
    ensures EncodeChar(c) == s[..Width(s[0])]
  {
    match Width(s[0])
    case 1 => c := s[0];
    case 2 =>
      TwoOctets(s[0] as int - 0xC0, s[1]);
      c := Joined(s[0] as int - 0xC0, s[1]);
    case 3 =>
      ThreeOctets(s[0] as int - 0xE0, s[1], s[2]);
      c := Joined(Joined(s[0] as int - 0xE0, s[1]), s[2]);
    case _ =>
      FourOctets(s[0] as int - 0xF0, s[1], s[2], s[3]);
      c := Joined(Joined(Joined(s[0] as int - 0xF0, s[1]), s[2]), s[3]);
  }

  lemma {:induction false} EncodedIsValid(cs: seq<Scalar>)
    ensures Valid(EncodeText(cs))
  {
    if cs != [] {
      EncodedIsValid(cs[1..]);
      CharIsAccepted(cs[0], EncodeText(cs[1..]));
    }
  }

  lemma {:induction false} ValidIsEncoded(s: Text) returns (cs: seq<Scalar>)
    requires Valid(s)
    ensures s == EncodeText(cs)
  {
    cs := [];
    if s != [] {
      var w := Width(s[0]);
      var c := CharIsRead(s);
      var rest := ValidIsEncoded(s[w..]);
      cs := [c] + rest;
      assert cs[1..] == rest && s == s[..w] + s[w..];
    }
  }

  /** Accepted are the encodings of the texts, and nothing else. */
  lemma ValidIff(s: Text)
    ensures Valid(s) <==> exists cs :: s == EncodeText(cs)
  {
    if Valid(s) {
      var cs := ValidIsEncoded(s);
    }
    forall cs | s == EncodeText(cs) ensures Valid(s) { EncodedIsValid(cs); }
  }
}
