/**
 * Compressed domain names: the reader of mdns.rs, a grammar for what it
 * should accept, and a writer whose output it must read back.
 */
module DnsName {
  import opened Common
  import Utf8

  const MAX_JUMPS: nat := 10
  const DOT: Byte := 0x2E

  type Label = Text

  /** A length octet has its two top bits clear or mixed; both set mark a pointer. */
  predicate IsPointer(b: Byte) { b >= 0xC0 }

  function Target(hi: Byte, lo: Byte): (t: nat)
    requires IsPointer(hi)
    ensures t < 0x4000
  {
    (hi - 0xC0) * 256 + lo
  }

  /** The masks and shifts of the source are the comparison and the sum used here. */
  lemma PointerBits(hi: bv8, lo: bv8)
    ensures (hi & 0xC0 == 0xC0) <==> hi >= 0xC0
    ensures hi >= 0xC0 ==>
      ((hi as bv16 & 0x3F) << 8) | lo as bv16 == (hi as bv16 - 0xC0) * 256 + lo as bv16
  {
  }

  // ----- Recursive decoder ------------------------------------------------

  /** What a name spells, and the offset just past its bytes in place. */
  datatype Decoded = Decoded(labels: seq<Label>, end: nat)

  /** What the octets at `at` ask a reader to do next. */
  datatype Move = Fail | Stop | Jump(to: nat) | Take(text: Label, to: nat)

  function Look(p: seq<Byte>, start: nat, at: nat, budget: nat): (m: Move)
    ensures m.Jump? ==> budget > 0 && at + 2 <= |p|
    ensures m.Stop? ==> at < |p|
    ensures m.Take? ==> at < m.to <= |p|
  {
    if at >= |p| then Fail
    else if IsPointer(p[at]) then
      if at + 1 >= |p| || budget == 0 || Target(p[at], p[at + 1]) >= start then Fail
      else Jump(Target(p[at], p[at + 1]))
    else if p[at] == 0 then Stop
    else if at + 1 + p[at] > |p| then Fail
    else Take(p[at + 1..at + 1 + p[at]], at + 1 + p[at])
  }

  /** Walks a name from `at`; pointers must lead below `start`, at most `budget` of them. */
  function Decode(p: seq<Byte>, start: nat, at: nat, budget: nat): (r: Option<Decoded>)
    ensures r.Some? ==> at < r.value.end <= |p|
    decreases budget, |p| - at
  {
    match Look(p, start, at, budget)
    case Fail => None
    case Stop => Some(Decoded([], at + 1))
    case Jump(to) => Redirect(Decode(p, start, to, budget - 1), at + 2)
    case Take(text, to) => Prepend(text, Decode(p, start, to, budget))
  }

  function Redirect(r: Option<Decoded>, end: nat): Option<Decoded> {
    if r.None? then None else Some(Decoded(r.value.labels, end))
  }

  function Prepend(text: Label, r: Option<Decoded>): Option<Decoded> {
    if r.None? then None else Some(Decoded([text] + r.value.labels, r.value.end))
  }

  predicate AllUtf8(labels: seq<Label>) {
    forall i :: 0 <= i < |labels| ==> Utf8.Valid(labels[i])
  }

  /** `labels.join(".")` */
  function Join(labels: seq<Label>): Text {
    if labels == [] then []
    else if |labels| == 1 then labels[0]
    else labels[0] + [DOT] + Join(labels[1..])
  }

  // ----- What a reported name looks like ------------------------------------------

  /** The octets of the first `k` labels. */
  function Ahead(labels: seq<Label>, k: nat): nat
    requires k <= |labels|
  {
    if k == 0 then 0 else Ahead(labels, k - 1) + |labels[k - 1]|
  }

  /** Label `i` stands in `text` after the labels and dots before it, with a full stop right in front of it. */
  predicate Stands(text: Text, labels: seq<Label>, i: nat)
    requires i < |labels|
  {
    var at := Ahead(labels, i) + i;
    && at + |labels[i]| <= |text| && text[at..at + |labels[i]|] == labels[i]
    && (i > 0 ==> text[at - 1] == 0x2E)
  }

  /** `text` is the labels in their order, full stops between them, and nothing else. */
  predicate Dotted(text: Text, labels: seq<Label>) {
    && labels != [] && |text| == Ahead(labels, |labels|) + |labels| - 1
    && forall i :: 0 <= i < |labels| ==> Stands(text, labels, i)
  }

  /** What a name of these labels is reported as: nothing for the root. */
  predicate Says(name: Option<Text>, labels: seq<Label>) {
    if labels == [] then name.None? else name.Some? && Dotted(name.value, labels)
  }

  lemma {:induction false} AheadCons(labels: seq<Label>, k: nat)
    requires 0 < k <= |labels|
    ensures Ahead(labels, k) == |labels[0]| + Ahead(labels[1..], k - 1)
  {
    if k > 1 { AheadCons(labels, k - 1); }
  }

  lemma StandsCons(labels: seq<Label>, rest: Text, i: nat)
    requires |labels| > 1 && 0 < i < |labels| && Stands(rest, labels[1..], i - 1)
    ensures Stands(labels[0] + [DOT] + rest, labels, i)
  {
    var text, n := labels[0] + [DOT] + rest, |labels[0]| + 1;
    var at := Ahead(labels[1..], i - 1) + i - 1;
    AheadCons(labels, i);
    assert text[n + at..n + at + |labels[i]|] == rest[at..at + |labels[i]|];
  }

  /** Joining puts every label in its place. */
  lemma {:induction false} JoinIsDotted(labels: seq<Label>)
    requires labels != []
    ensures Dotted(Join(labels), labels)
  {
    if |labels| > 1 {
      var rest := Join(labels[1..]);
      JoinIsDotted(labels[1..]);
      AheadCons(labels, |labels|);
      forall i | 0 <= i < |labels| ensures Stands(Join(labels), labels, i) {
        if i > 0 {
          assert Stands(rest, labels[1..], i - 1);
          StandsCons(labels, rest, i);
        } else {
          assert Join(labels)[..|labels[0]|] == labels[0];
        }
      }
    } else {
      assert Ahead(labels, 1) == Ahead(labels, 0) + |labels[0]|;
      assert Stands(Join(labels), labels, 0);
    }
  }

  /** Two texts of the same labels agree up to the end of label `k`. */
  lemma {:induction false} DottedAgree(text: Text, other: Text, labels: seq<Label>, k: nat)
    requires Dotted(text, labels) && Dotted(other, labels) && k < |labels|
    ensures var end := Ahead(labels, k + 1) + k;
      end <= |text| && end <= |other| && text[..end] == other[..end]
  {
    assert Stands(text, labels, k) && Stands(other, labels, k);
    var at := Ahead(labels, k) + k;
    if k > 0 {
      DottedAgree(text, other, labels, k - 1);
      assert text[..at] == text[..at - 1] + [text[at - 1]] && other[..at] == other[..at - 1] + [other[at - 1]];
    }
    var end := at + |labels[k]|;
    assert text[..end] == text[..at] + text[at..end] && other[..end] == other[..at] + other[at..end];
  }

  /** So the labels leave no choice about the text. */
  lemma DottedIsUnique(text: Text, other: Text, labels: seq<Label>)
    requires Dotted(text, labels) && Dotted(other, labels)
    ensures text == other
  {
    DottedAgree(text, other, labels, |labels| - 1);
    assert text[..|text|] == text && other[..|other|] == other;
  }

  /** What `read_name` and `skip_name` return: the end offset and perhaps a name. */
  datatype NameRead = NameRead(end: nat, name: Option<Text>)

  /** What a finished walk is reported as; `collect` asks for the text too. */
  function Report(whole: Option<Decoded>, collect: bool): Option<NameRead> {
    if whole.None? || (collect && !AllUtf8(whole.value.labels)) then None
    else Some(NameRead(whole.value.end,
                       if collect && whole.value.labels != [] then Some(Join(whole.value.labels)) else None))
  }

  function ReadName(p: seq<Byte>, offset: nat): (r: Option<NameRead>)
    ensures r.Some? ==> offset < r.value.end <= |p|
  {
    Report(Decode(p, offset, offset, MAX_JUMPS), true)
  }

  function SkipName(p: seq<Byte>, offset: nat): (r: Option<NameRead>)
    ensures r.Some? ==> offset < r.value.end <= |p|
  {
    Report(Decode(p, offset, offset, MAX_JUMPS), false)
  }

  // ----- The loop of the source -------------------------------------------

  /** What the rest of a walk adds to the labels already read. */
  function Resume(seen: seq<Label>, end: Option<nat>, rest: Option<Decoded>): Option<Decoded> {
    match rest
    case None => None
    case Some(d) => Some(Decoded(seen + d.labels, if end.Some? then end.value else d.end))
  }

  lemma ResumeAfterLabel(seen: seq<Label>, text: Label, end: Option<nat>, rest: Option<Decoded>)
    ensures Resume(seen, end, Prepend(text, rest)) == Resume(seen + [text], end, rest)
  {
    if rest.Some? {
      assert seen + ([text] + rest.value.labels) == (seen + [text]) + rest.value.labels;
    }
  }

  /** The iterations that a walk from `at` makes, failing ones included; a bad label ends a collecting walk. */
  function Moves(p: seq<Byte>, start: nat, at: nat, budget: nat, collect: bool): nat
    decreases budget, |p| - at
  {
    match Look(p, start, at, budget)
    case Fail => 1
    case Stop => 1
    case Jump(to) => 1 + Moves(p, start, to, budget - 1, collect)
    case Take(text, to) => if collect && !Utf8.Valid(text) then 1 else 1 + Moves(p, start, to, budget, collect)
  }

  /** Every segment passes over the payload once, so a walk costs a payload's length for each jump left. */
  lemma {:induction false} MovesPerSegment(p: seq<Byte>, start: nat, at: nat, budget: nat, collect: bool)
    ensures Moves(p, start, at, budget, collect) <= 1 + Rest(p, at) + budget * |p|
    decreases budget, |p| - at
  {
    match Look(p, start, at, budget)
    case Fail =>
    case Stop =>
    case Jump(to) =>
      MovesPerSegment(p, start, to, budget - 1, collect);
      assert budget * |p| == (budget - 1) * |p| + |p|;
    case Take(text, to) =>
      MovesPerSegment(p, start, to, budget, collect);
  }

  /** Octets from `at` to the end. */
  function Rest(p: seq<Byte>, at: nat): nat {
    if at < |p| then |p| - at else 0
  }

  /** At the very start of a payload no pointer can be followed. */
  lemma {:induction false} MovesFromZero(p: seq<Byte>, at: nat, budget: nat, collect: bool)
    ensures Moves(p, 0, at, budget, collect) <= 1 + Rest(p, at)
    decreases |p| - at
  {
    match Look(p, 0, at, budget)
    case Fail =>
    case Stop =>
    case Take(_, to) =>
      MovesFromZero(p, to, budget, collect);
  }

  /** However the pointers are arranged, a name takes at most eleven iterations per octet of the payload. */
  lemma MovesBounded(p: seq<Byte>, start: nat, collect: bool)
    ensures Moves(p, start, start, MAX_JUMPS, collect) <= if p == [] then 1 else 11 * |p|
  {
    if start == 0 {
      MovesFromZero(p, 0, MAX_JUMPS, collect);
    } else if start < |p| {
      MovesPerSegment(p, start, start, MAX_JUMPS, collect);
    }
  }

  /** A walk under way: what is read and what is left to read. */
  ghost predicate Walking(p: seq<Byte>, start: nat, seen: seq<Label>, end: Option<nat>, at: nat, budget: nat) {
    Decode(p, start, start, MAX_JUMPS) == Resume(seen, end, Decode(p, start, at, budget))
  }

  lemma WalkStart(p: seq<Byte>, start: nat)
    ensures Walking(p, start, [], None, start, MAX_JUMPS)
  {
    var w := Decode(p, start, start, MAX_JUMPS);
    assert w.Some? ==> [] + w.value.labels == w.value.labels;
  }

  lemma WalkLabel(p: seq<Byte>, start: nat, seen: seq<Label>, end: Option<nat>, at: nat, budget: nat,
                  text: Label, to: nat)
    requires Walking(p, start, seen, end, at, budget)
    requires Look(p, start, at, budget) == Take(text, to)
    ensures Walking(p, start, seen + [text], end, to, budget)
  {
    ResumeAfterLabel(seen, text, end, Decode(p, start, to, budget));
  }

  lemma WalkJump(p: seq<Byte>, start: nat, seen: seq<Label>, end: Option<nat>, at: nat, budget: nat, to: nat)
    requires Walking(p, start, seen, end, at, budget)
    requires Look(p, start, at, budget) == Jump(to)
    ensures Walking(p, start, seen, if end.None? then Some(at + 2) else end, to, budget - 1)
  {
  }

  lemma WalkStop(p: seq<Byte>, start: nat, seen: seq<Label>, end: Option<nat>, at: nat, budget: nat)
    requires Walking(p, start, seen, end, at, budget)
    requires Look(p, start, at, budget).Stop?
    ensures Decode(p, start, start, MAX_JUMPS) == Some(Decoded(seen, if end.Some? then end.value else at + 1))
  {
    assert seen + [] == seen;
  }

  lemma WalkFail(p: seq<Byte>, start: nat, seen: seq<Label>, end: Option<nat>, at: nat, budget: nat)
    requires Walking(p, start, seen, end, at, budget)
    requires Look(p, start, at, budget).Fail?
    ensures Decode(p, start, start, MAX_JUMPS).None?
  {
  }

  lemma WalkBad(p: seq<Byte>, start: nat, seen: seq<Label>, end: Option<nat>, at: nat, budget: nat)
    requires Walking(p, start, seen, end, at, budget)
    requires !AllUtf8(seen)
    ensures Report(Decode(p, start, start, MAX_JUMPS), true).None?
  {
    var rest := Decode(p, start, at, budget);
    if rest.Some? {
      var i :| 0 <= i < |seen| && !Utf8.Valid(seen[i]);
      assert (seen + rest.value.labels)[i] == seen[i];
    }
  }

  /**
   * The loop: early exits, in-place state and a lazily fixed end offset.
   * `steps` counts its iterations.
   */
  method ReadNameInternal(payload: seq<Byte>, start: nat, collect: bool)
    returns (r: Option<NameRead>, ghost steps: nat)
    ensures r == if collect then ReadName(payload, start) else SkipName(payload, start)
    ensures collect && r.Some? ==> exists path :: Spells(payload, start, path, r.value)
    ensures steps == Moves(payload, start, start, MAX_JUMPS, collect)
  {
    var offset: nat := start;
    var labels: seq<Text> := [];
    var endOffset: Option<nat> := None;
    var jumps := 0;
    ghost var seen: seq<Label> := [];
    ghost var budget: nat := MAX_JUMPS;
    WalkStart(payload, start);
    steps := 0;
    while true
      invariant 0 <= jumps && jumps + budget == MAX_JUMPS
      invariant Walking(payload, start, seen, endOffset, offset, budget)
      invariant steps + Moves(payload, start, offset, budget, collect)
             == Moves(payload, start, start, MAX_JUMPS, collect)
      invariant collect ==> labels == seen && AllUtf8(seen)
      decreases budget, |payload| - offset
    {
      if offset >= |payload| {
        WalkFail(payload, start, seen, endOffset, offset, budget);
        return None, steps + 1;
      }
      var len := payload[offset];
      if IsPointer(len) {
        if offset + 1 >= |payload| {
          WalkFail(payload, start, seen, endOffset, offset, budget);
          return None, steps + 1;
        }
        var pointer := Target(len, payload[offset + 1]);
        ghost var end := endOffset;
        if endOffset.None? {
          endOffset := Some(offset + 2);
        }
        jumps := jumps + 1;
        if jumps > 10 || pointer >= start {
          WalkFail(payload, start, seen, end, offset, budget);
          return None, steps + 1;
        }
        WalkJump(payload, start, seen, end, offset, budget, pointer);
        budget, steps := budget - 1, steps + 1;
        offset := pointer;
        continue;
      }
      if len == 0 {
        WalkStop(payload, start, seen, endOffset, offset, budget);
        offset := offset + 1;
        var finalEnd := if endOffset.Some? then endOffset.value else offset;
        var name := if collect && labels != [] then Some(Join(labels)) else None;
        if collect {
          ghost var path := ReadSpells(payload, start);
        }
        return Some(NameRead(finalEnd, name)), steps + 1;
      }
      var labelEnd := offset + 1 + len;
      if labelEnd > |payload| {
        WalkFail(payload, start, seen, endOffset, offset, budget);
        return None, steps + 1;
      }
      var text := payload[offset + 1..labelEnd];
      WalkLabel(payload, start, seen, endOffset, offset, budget, text, labelEnd);
      seen := seen + [text];
      if collect {
        if !Utf8.Valid(text) {
          assert seen[|seen| - 1] == text;
          WalkBad(payload, start, seen, endOffset, labelEnd, budget);
          return None, steps + 1;
        }
        labels := labels + [text];
      }
      offset, steps := labelEnd, steps + 1;
    }
  }

  // ----- Grammar of names ---------------------------------------------------

  /** The path a reader takes: labels and pointers up to a zero octet. */
  datatype Layout = Zero | Lab(text: Label, next: Layout) | Ptr(to: nat, next: Layout)

  function LabelBytes(text: Label): seq<Byte>
    requires |text| < 0xC0
  {
    [|text|] + text
  }

  function PointerBytes(to: nat): seq<Byte>
    requires to < 0x4000
  {
    [0xC0 + to / 256, to % 256]
  }

  /** The octets of `p` from `at` are laid out as `path` says. */
  predicate Holds(p: seq<Byte>, at: nat, path: Layout)
    decreases path
  {
    match path
    case Zero => at < |p| && p[at] == 0
    case Lab(text, next) =>
      && 0 < |text| < 0xC0 && at + 1 + |text| <= |p|
      && p[at..at + 1 + |text|] == LabelBytes(text)
      && Holds(p, at + 1 + |text|, next)
    case Ptr(to, next) =>
      && to < 0x4000 && at + 2 <= |p|
      && p[at..at + 2] == PointerBytes(to)
      && Holds(p, to, next)
  }

  function Labels(path: Layout): seq<Label> {
    match path
    case Zero => []
    case Lab(text, next) => [text] + Labels(next)
    case Ptr(_, next) => Labels(next)
  }

  function Hops(path: Layout): nat {
    match path
    case Zero => 0
    case Lab(_, next) => Hops(next)
    case Ptr(_, next) => 1 + Hops(next)
  }

  predicate Below(path: Layout, start: nat) {
    match path
    case Zero => true
    case Lab(_, next) => Below(next, start)
    case Ptr(to, next) => to < start && Below(next, start)
  }

  /** Where the name ends in place: after its first pointer or its zero octet. */
  function EndOf(path: Layout, at: nat): nat {
    match path
    case Zero => at + 1
    case Lab(text, next) => EndOf(next, at + 1 + |text|)
    case Ptr(_, _) => at + 2
  }

  lemma LookShape(p: seq<Byte>, start: nat, at: nat, budget: nat)
    ensures var m := Look(p, start, at, budget);
      && (m.Jump? ==> m.to < start && m.to < 0x4000)
      && (m.Take? ==> 0 < |m.text| < 0xC0 && m.to == at + 1 + |m.text|)
  {
  }

  lemma LookAtLabel(p: seq<Byte>, start: nat, at: nat, budget: nat, text: Label)
    requires 0 < |text| < 0xC0 && at + 1 + |text| <= |p|
    ensures p[at..at + 1 + |text|] == LabelBytes(text)
       <==> Look(p, start, at, budget) == Take(text, at + 1 + |text|)
  {
    var to := at + 1 + |text|;
    assert p[at] == p[at..to][0];
    assert p[at + 1..to] == p[at..to][1..];
  }

  /** Two octets are the pointer to `to` exactly when they read as it. */
  lemma PointerNames(hi: Byte, lo: Byte, to: nat)
    requires to < 0x4000
    ensures [hi, lo] == PointerBytes(to) <==> IsPointer(hi) && Target(hi, lo) == to
  {
    var bytes := PointerBytes(to);
    assert to == to / 256 * 256 + to % 256;
    assert bytes[0] == 0xC0 + to / 256 && bytes[1] == to % 256;
    if hi >= 0xC0 && (hi - 0xC0) * 256 + lo == to {
      assert to / 256 == hi - 0xC0 && to % 256 == lo;
    }
  }

  lemma LookAtPointer(p: seq<Byte>, start: nat, at: nat, budget: nat, to: nat)
    requires to < 0x4000 && at + 2 <= |p|
    ensures p[at..at + 2] == PointerBytes(to) ==>
      Look(p, start, at, budget) == if budget > 0 && to < start then Jump(to) else Fail
    ensures Look(p, start, at, budget) == Jump(to) ==> p[at..at + 2] == PointerBytes(to)
  {
    var hi, lo := p[at], p[at + 1];
    assert p[at..at + 2] == [hi, lo];
    PointerNames(hi, lo, to);
  }

  /** What reading a laid-out name gives. */
  function Outcome(path: Layout, start: nat, at: nat, budget: nat): Option<Decoded> {
    if Hops(path) <= budget && Below(path, start) then Some(Decoded(Labels(path), EndOf(path, at))) else None
  }

  lemma OutcomeOfLabel(text: Label, next: Layout, start: nat, at: nat, budget: nat)
    ensures Outcome(Lab(text, next), start, at, budget) == Prepend(text, Outcome(next, start, at + 1 + |text|, budget))
  {
  }

  lemma OutcomeOfPointer(to: nat, next: Layout, start: nat, at: nat, budget: nat)
    ensures Outcome(Ptr(to, next), start, at, budget)
         == if budget > 0 && to < start then Redirect(Outcome(next, start, to, budget - 1), at + 2) else None
  {
  }

  lemma DecodeByLook(p: seq<Byte>, start: nat, at: nat, budget: nat, m: Move)
    requires Look(p, start, at, budget) == m
    ensures m.Fail? ==> Decode(p, start, at, budget).None?
    ensures m.Take? ==> Decode(p, start, at, budget) == Prepend(m.text, Decode(p, start, m.to, budget))
    ensures m.Jump? ==>
      budget > 0 && Decode(p, start, at, budget) == Redirect(Decode(p, start, m.to, budget - 1), at + 2)
  {
  }

  lemma LabelIsRead(p: seq<Byte>, start: nat, at: nat, budget: nat, text: Label, next: Layout)
    requires 0 < |text| < 0xC0 && at + 1 + |text| <= |p| && p[at..at + 1 + |text|] == LabelBytes(text)
    requires Decode(p, start, at + 1 + |text|, budget) == Outcome(next, start, at + 1 + |text|, budget)
    ensures Decode(p, start, at, budget) == Outcome(Lab(text, next), start, at, budget)
  {
    LookAtLabel(p, start, at, budget, text);
    DecodeByLook(p, start, at, budget, Take(text, at + 1 + |text|));
    OutcomeOfLabel(text, next, start, at, budget);
  }

  lemma PointerIsRead(p: seq<Byte>, start: nat, at: nat, budget: nat, to: nat, next: Layout)
    requires to < 0x4000 && at + 2 <= |p| && p[at..at + 2] == PointerBytes(to)
    requires budget > 0 && to < start ==> Decode(p, start, to, budget - 1) == Outcome(next, start, to, budget - 1)
    ensures Decode(p, start, at, budget) == Outcome(Ptr(to, next), start, at, budget)
  {
    LookAtPointer(p, start, at, budget, to);
    DecodeByLook(p, start, at, budget, if budget > 0 && to < start then Jump(to) else Fail);
    OutcomeOfPointer(to, next, start, at, budget);
  }

  /** A laid-out name is read exactly when its pointers are few enough and lead below `start`. */
  lemma {:induction false} DecodeLaidOut(p: seq<Byte>, start: nat, at: nat, budget: nat, path: Layout)
    requires Holds(p, at, path)
    ensures Decode(p, start, at, budget) == Outcome(path, start, at, budget)
    decreases path
  {
    match path
    case Zero =>
    case Lab(text, next) =>
      DecodeLaidOut(p, start, at + 1 + |text|, budget, next);
      LabelIsRead(p, start, at, budget, text, next);
    case Ptr(to, next) =>
      if budget > 0 && to < start {
        DecodeLaidOut(p, start, to, budget - 1, next);
      }
      PointerIsRead(p, start, at, budget, to, next);
  }

  /** Whatever is read was laid out: the reader accepts nothing outside the grammar. */
  lemma {:induction false} DecodeFollowsLayout(p: seq<Byte>, start: nat, at: nat, budget: nat) returns (path: Layout)
    requires Decode(p, start, at, budget).Some?
    ensures Holds(p, at, path) && Hops(path) <= budget && Below(path, start)
    ensures Decode(p, start, at, budget) == Some(Decoded(Labels(path), EndOf(path, at)))
    decreases budget, |p| - at
  {
    LookShape(p, start, at, budget);
    match Look(p, start, at, budget)
    case Fail =>
      assert false;
    case Stop =>
      path := Zero;
    case Jump(to) =>
      var next := DecodeFollowsLayout(p, start, to, budget - 1);
      path := Ptr(to, next);
      LookAtPointer(p, start, at, budget, to);
    case Take(text, to) =>
      var next := DecodeFollowsLayout(p, start, to, budget);
      path := Lab(text, next);
      LookAtLabel(p, start, at, budget, text);
  }

  /** `path` is laid out at `at`, and what is read says its labels, up to where it ends in place. */
  predicate Spells(p: seq<Byte>, at: nat, path: Layout, r: NameRead) {
    Holds(p, at, path) && Says(r.name, Labels(path)) && r.end == EndOf(path, at)
  }

  /** What is reported of a name is its labels with full stops between them. */
  lemma ReportSpells(p: seq<Byte>, offset: nat, path: Layout)
    requires Holds(p, offset, path) && ReadName(p, offset).Some?
    ensures Spells(p, offset, path, ReadName(p, offset).value)
  {
    DecodeLaidOut(p, offset, offset, MAX_JUMPS, path);
    if Labels(path) != [] { JoinIsDotted(Labels(path)); }
  }

  lemma ReadSpells(p: seq<Byte>, offset: nat) returns (path: Layout)
    requires ReadName(p, offset).Some?
    ensures Spells(p, offset, path, ReadName(p, offset).value)
  {
    path := DecodeFollowsLayout(p, offset, offset, MAX_JUMPS);
    ReportSpells(p, offset, path);
  }

  /** A name that is laid out with more than ten pointers is never read. */
  lemma ElevenPointersFail(p: seq<Byte>, offset: nat, path: Layout)
    requires Holds(p, offset, path) && Hops(path) > 10
    ensures ReadName(p, offset).None? && SkipName(p, offset).None?
  {
    DecodeLaidOut(p, offset, offset, MAX_JUMPS, path);
  }

  /**
   * `skip_name` and `read_name` walk alike: reading succeeds exactly when skipping
   * does and every label on the path is UTF-8, and then the ends are equal.
   */
  lemma ReadIsSkipPlusUtf8(p: seq<Byte>, offset: nat, path: Layout)
    requires Holds(p, offset, path)
    ensures ReadName(p, offset).Some? <==> SkipName(p, offset).Some? && AllUtf8(Labels(path))
    ensures ReadName(p, offset).Some? ==> ReadName(p, offset).value.end == SkipName(p, offset).value.end
    ensures SkipName(p, offset).Some? ==> SkipName(p, offset).value.end == EndOf(path, offset)
  {
    DecodeLaidOut(p, offset, offset, MAX_JUMPS, path);
  }

  /** The end offset depends only on the octets of the name in place. */
  lemma {:induction false} EndIsLocal(p: seq<Byte>, q: seq<Byte>, start: nat, at: nat, budget: nat)
    requires Decode(p, start, at, budget).Some? && Decode(q, start, at, budget).Some?
    requires Decode(p, start, at, budget).value.end <= |q|
    requires forall i :: at <= i < Decode(p, start, at, budget).value.end ==> p[i] == q[i]
    ensures Decode(p, start, at, budget).value.end == Decode(q, start, at, budget).value.end
    decreases |p| - at
  {
    assert p[at] == q[at];
    match Look(p, start, at, budget)
    case Fail =>
    case Stop =>
    case Jump(_) =>
    case Take(_, to) =>
      assert Look(q, start, at, budget).to == to;
      EndIsLocal(p, q, start, to, budget);
  }

  /** What is laid out in a message stays so after anything is appended. */
  lemma {:induction false} HoldsStays(p: seq<Byte>, more: seq<Byte>, at: nat, path: Layout)
    requires Holds(p, at, path)
    ensures Holds(p + more, at, path)
    decreases path
  {
    match path
    case Zero =>
    case Lab(text, next) =>
      assert (p + more)[at..at + 1 + |text|] == p[at..at + 1 + |text|];
      HoldsStays(p, more, at + 1 + |text|, next);
    case Ptr(to, next) =>
      assert (p + more)[at..at + 2] == p[at..at + 2];
      HoldsStays(p, more, to, next);
  }

  /** A name already in a message reads the same after anything is appended. */
  lemma DecodeStays(p: seq<Byte>, more: seq<Byte>, start: nat, at: nat, budget: nat)
    requires Decode(p, start, at, budget).Some?
    ensures Decode(p + more, start, at, budget) == Decode(p, start, at, budget)
  {
    var path := DecodeFollowsLayout(p, start, at, budget);
    HoldsStays(p, more, at, path);
    DecodeLaidOut(p + more, start, at, budget, path);
  }

  // ----- Writer --------------------------------------------------------------

  predicate Writable(labels: seq<Label>) {
    forall i :: 0 <= i < |labels| ==> 0 < |labels[i]| < 0xC0
  }

  /** Spells out `labels`, then ends the name or points to an earlier tail. */
  function Encode(labels: seq<Label>, tail: Option<nat>): seq<Byte>
    requires Writable(labels)
    requires tail.Some? ==> tail.value < 0x4000
  {
    if labels != [] then LabelBytes(labels[0]) + Encode(labels[1..], tail)
    else if tail.Some? then PointerBytes(tail.value)
    else [0]
  }

  /** The path a reader takes through `Encode(labels, tail)`. */
  function Spell(labels: seq<Label>, tail: Option<(nat, Layout)>): (path: Layout) {
    if labels != [] then Lab(labels[0], Spell(labels[1..], tail))
    else if tail.Some? then Ptr(tail.value.0, tail.value.1)
    else Zero
  }

  lemma {:induction false} SpellShape(labels: seq<Label>, tail: Option<(nat, Layout)>, at: nat)
    requires Writable(labels) && (tail.Some? ==> tail.value.0 < 0x4000)
    ensures var path := Spell(labels, tail);
      var bytes := Encode(labels, if tail.Some? then Some(tail.value.0) else None);
      && Labels(path) == labels + (if tail.Some? then Labels(tail.value.1) else [])
      && Hops(path) == (if tail.Some? then 1 + Hops(tail.value.1) else 0)
      && EndOf(path, at) == at + |bytes|
      && (forall start :: Below(path, start) <==> (tail.Some? ==> tail.value.0 < start && Below(tail.value.1, start)))
  {
    if labels != [] {
      SpellShape(labels[1..], tail, at + 1 + |labels[0]|);
      assert labels == [labels[0]] + labels[1..];
    }
  }

  lemma {:induction false} EncodedIsLaidOut(p: seq<Byte>, at: nat, labels: seq<Label>, tail: Option<(nat, Layout)>)
    requires Writable(labels) && (tail.Some? ==> tail.value.0 < 0x4000 && Holds(p, tail.value.0, tail.value.1))
    requires var bytes := Encode(labels, if tail.Some? then Some(tail.value.0) else None);
      at + |bytes| <= |p| && p[at..at + |bytes|] == bytes
    ensures Holds(p, at, Spell(labels, tail))
    decreases |labels|
  {
    var pointer := if tail.Some? then Some(tail.value.0) else None;
    var bytes := Encode(labels, pointer);
    if labels != [] {
      var first := LabelBytes(labels[0]);
      var others := Encode(labels[1..], pointer);
      assert p[at..at + |first|] == bytes[..|first|] == first;
      assert p[at + |first|..at + |bytes|] == bytes[|first|..] == others;
      EncodedIsLaidOut(p, at + |first|, labels[1..], tail);
    } else if tail.None? {
      assert p[at] == p[at..at + 1][0];
    }
  }

  /** `at` is a place in `msg` that a pointer can name and that reads as `labels`, one jump being spent. */
  predicate Reaches(msg: seq<Byte>, at: nat, labels: seq<Label>) {
    && at < |msg| && at < 0x4000
    && Decode(msg, |msg|, at, MAX_JUMPS - 1).Some?
    && Decode(msg, |msg|, at, MAX_JUMPS - 1).value.labels == labels
  }

  /** The name at `at` says `labels` and ends at `end`. */
  predicate ReadsAs(p: seq<Byte>, at: nat, labels: seq<Label>, end: nat) {
    ReadName(p, at).Some? && ReadName(p, at).value.end == end && Says(ReadName(p, at).value.name, labels)
  }

  /**
   * Round trip: labels written after any message, their tail replaced by a pointer
   * to any earlier place that reads as `others` in at most nine jumps, are read back with
   * full stops between them, the end just past what was written, whatever follows it.
   */
  lemma RoundTrip(msg: seq<Byte>, labels: seq<Label>, tail: Option<nat>, others: seq<Label>, rest: seq<Byte>)
    requires Writable(labels) && AllUtf8(labels) && AllUtf8(others)
    requires if tail.None? then others == [] else Reaches(msg, tail.value, others)
    ensures ReadsAs(msg + Encode(labels, tail) + rest, |msg|, labels + others, |msg| + |Encode(labels, tail)|)
  {
    var path := WrittenIsLaidOut(msg, labels, tail, others, rest);
    AllUtf8Concat(labels, others);
    LaidOutIsRead(msg + Encode(labels, tail) + rest, |msg|, path);
  }

  lemma LaidOutIsRead(p: seq<Byte>, at: nat, path: Layout)
    requires Holds(p, at, path) && Hops(path) <= MAX_JUMPS && Below(path, at) && AllUtf8(Labels(path))
    ensures ReadsAs(p, at, Labels(path), EndOf(path, at))
  {
    DecodeLaidOut(p, at, at, MAX_JUMPS, path);
    ReportSpells(p, at, path);
  }

  lemma AllUtf8Concat(a: seq<Label>, b: seq<Label>)
    requires AllUtf8(a) && AllUtf8(b)
    ensures AllUtf8(a + b)
  {
  }

  lemma WrittenIsLaidOut(msg: seq<Byte>, labels: seq<Label>, tail: Option<nat>, others: seq<Label>, rest: seq<Byte>)
    returns (path: Layout)
    requires Writable(labels)
    requires if tail.None? then others == [] else Reaches(msg, tail.value, others)
    ensures Holds(msg + Encode(labels, tail) + rest, |msg|, path)
    ensures Labels(path) == labels + others && EndOf(path, |msg|) == |msg| + |Encode(labels, tail)|
    ensures Hops(path) <= MAX_JUMPS && Below(path, |msg|)
  {
    var bytes := Encode(labels, tail);
    var p := msg + bytes + rest;
    var via: Option<(nat, Layout)> := None;
    if tail.Some? {
      var there := DecodeFollowsLayout(msg, |msg|, tail.value, MAX_JUMPS - 1);
      assert p == msg + (bytes + rest);
      HoldsStays(msg, bytes + rest, tail.value, there);
      via := Some((tail.value, there));
    }
    assert p[|msg|..|msg| + |bytes|] == bytes;
    EncodedIsLaidOut(p, |msg|, labels, via);
    SpellShape(labels, via, |msg|);
    path := Spell(labels, via);
  }

  /** Every name the reader reports is itself well-formed text. */
  lemma {:induction false} JoinIsUtf8(labels: seq<Label>)
    requires AllUtf8(labels)
    ensures Utf8.Valid(Join(labels))
  {
    if |labels| > 1 {
      JoinIsUtf8(labels[1..]);
      DottedIsUtf8(labels[0], Join(labels[1..]));
    }
  }

  lemma DottedIsUtf8(a: Text, b: Text)
    requires Utf8.Valid(a) && Utf8.Valid(b)
    ensures Utf8.Valid(a + [DOT] + b)
  {
    DotIsUtf8();
    Utf8.ValidConcat([DOT], b);
    Utf8.ValidConcat(a, [DOT] + b);
    assert a + [DOT] + b == a + ([DOT] + b);
  }

  lemma DotIsUtf8()
    ensures Utf8.Valid([DOT])
  {
    assert [DOT][1..] == [];
  }
}
