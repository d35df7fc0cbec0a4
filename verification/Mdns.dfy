/** The record walk of mdns.rs: from a payload to a hostname, an instance and a service type. */
module Mdns {
  import opened Common
  import opened DnsName

  const PTR: nat := 12
  const SRV: nat := 33
  const HEADER: nat := 12

  datatype MdnsInfo = MdnsInfo(hostname: Option<Text>, instance: Option<Text>, serviceType: Option<Text>)

  datatype Record = Record(name: Option<Text>, kind: nat, next: nat, target: Option<Text>, rdata: Option<Text>)

  /** `parse_record` */
  function ParseRecord(p: seq<Byte>, offset: nat): (r: Option<Record>)
    ensures r.Some? ==> offset + 11 <= r.value.next <= |p|
  {
    match ReadName(p, offset)
    case None => None
    case Some(NameRead(end, name)) =>
      if end + 10 > |p| then None
      else
        var kind := U16(p[end], p[end + 1]);
        var length := U16(p[end + 8], p[end + 9]);
        var start := end + 10;
        if start + length > |p| then None
        else if kind == PTR then
          match ReadName(p, start)
          case None => None
          case Some(n) => Some(Record(name, kind, start + length, None, n.name))
        else if kind == SRV && length >= 7 then
          match ReadName(p, start + 6)
          case None => None
          case Some(n) => Some(Record(name, kind, start + length, n.name, None))
        else Some(Record(name, kind, start + length, None, None))
  }

  // ----- What a walk should find ------------------------------------------

  /** Where `n` questions from `at` end, each a name and four more octets. */
  function QuestionsEnd(p: seq<Byte>, at: nat, n: nat): (end: Option<nat>)
    ensures end.Some? ==> at + 5 * n <= end.value
    ensures end.Some? && at <= |p| ==> end.value <= |p|
    decreases n
  {
    if n == 0 then Some(at)
    else match SkipName(p, at)
      case None => None
      case Some(name) => if name.end + 4 > |p| then None else QuestionsEnd(p, name.end + 4, n - 1)
  }

  /** How many of `n` questions from `at` are passed before the first bad one. */
  function QuestionsPassed(p: seq<Byte>, at: nat, n: nat): (q: nat)
    ensures q <= n
    decreases n
  {
    if n == 0 then 0
    else match SkipName(p, at)
      case None => 0
      case Some(name) => if name.end + 4 > |p| then 0 else 1 + QuestionsPassed(p, name.end + 4, n - 1)
  }

  /** The well-formed records from `at`, at most `n` of them, up to the first bad one. */
  function Records(p: seq<Byte>, at: nat, n: nat): (rs: seq<Record>)
    ensures |rs| <= n && (at <= |p| ==> at + 11 * |rs| <= |p|)
    decreases n
  {
    if n == 0 then []
    else match ParseRecord(p, at)
      case None => []
      case Some(r) => [r] + Records(p, r.next, n - 1)
  }

  /** The target of the first SRV record that has one. */
  function FirstTarget(rs: seq<Record>): Option<Text> {
    if rs == [] then None
    else if rs[0].kind == SRV && rs[0].target.Some? then rs[0].target
    else FirstTarget(rs[1..])
  }

  /** The first PTR record whose data is a readable name. */
  function FirstService(rs: seq<Record>): (r: Option<Record>)
    ensures r.Some? ==> r.value.rdata.Some?
  {
    if rs == [] then None
    else if rs[0].kind == PTR && rs[0].rdata.Some? then Some(rs[0])
    else FirstService(rs[1..])
  }

  /** The owner name of the last PTR record. */
  function LastPtrName(rs: seq<Record>): Option<Text> {
    if rs == [] then None
    else if rs[|rs| - 1].kind == PTR then rs[|rs| - 1].name
    else LastPtrName(rs[..|rs| - 1])
  }

  /**
   * Instance and service type come from the first PTR with readable data; when no
   * PTR has any, there is no instance and the last PTR names the service type.
   */
  function Summary(rs: seq<Record>): MdnsInfo {
    var service := FirstService(rs);
    if service.Some? then MdnsInfo(FirstTarget(rs), service.value.rdata, service.value.name)
    else MdnsInfo(FirstTarget(rs), None, LastPtrName(rs))
  }

  function Counts(p: seq<Byte>): (c: (nat, nat))
    requires |p| >= HEADER
  {
    (U16(p[4], p[5]), U16(p[6], p[7]) + U16(p[8], p[9]) + U16(p[10], p[11]))
  }

  /** A walk cut short by a bad record needs a hostname or an instance to count. */
  function Verdict(info: MdnsInfo, complete: bool): Option<MdnsInfo> {
    if info.hostname.Some? || info.instance.Some? || (complete && info.serviceType.Some?) then Some(info) else None
  }

  function Parsed(p: seq<Byte>): Option<MdnsInfo> {
    if |p| < HEADER then None
    else
      var (questions, records) := Counts(p);
      match QuestionsEnd(p, HEADER, questions)
      case None => None
      case Some(at) =>
        var rs := Records(p, at, records);
        Verdict(Summary(rs), |rs| == records)
  }

  /** The records that are walked: none when the questions are bad. */
  function Walk(p: seq<Byte>): seq<Record>
    requires |p| >= HEADER
  {
    var (questions, records) := Counts(p);
    match QuestionsEnd(p, HEADER, questions)
    case None => []
    case Some(at) => Records(p, at, records)
  }

  // ----- What a walk can cost -----------------------------------------------

  /** Questions passed take five octets each, and all of them lie before the questions' end. */
  lemma {:induction false} QuestionsFit(p: seq<Byte>, at: nat, n: nat)
    requires at <= |p|
    ensures at + 5 * QuestionsPassed(p, at, n) <= |p|
    ensures QuestionsEnd(p, at, n).Some? ==>
      QuestionsPassed(p, at, n) == n && at + 5 * n <= QuestionsEnd(p, at, n).value <= |p|
    decreases n
  {
    if n > 0 && SkipName(p, at).Some? && SkipName(p, at).value.end + 4 <= |p| {
      QuestionsFit(p, SkipName(p, at).value.end + 4, n - 1);
    }
  }

  /** Whatever the header claims, the questions and records that are walked fit the payload. */
  lemma WalkFitsPayload(p: seq<Byte>)
    requires |p| >= HEADER
    ensures 5 * QuestionsPassed(p, HEADER, Counts(p).0) + 11 * |Walk(p)| <= |p| - HEADER
  {
    var (questions, records) := Counts(p);
    QuestionsFit(p, HEADER, questions);
    var end := QuestionsEnd(p, HEADER, questions);
  }

  // ----- One more record at the end ----------------------------------------

  lemma {:induction false} FirstTargetSnoc(rs: seq<Record>, r: Record)
    ensures FirstTarget(rs + [r]) ==
      if FirstTarget(rs).Some? then FirstTarget(rs) else if r.kind == SRV then r.target else None
  {
    if rs != [] {
      FirstTargetSnoc(rs[1..], r);
      assert (rs + [r])[1..] == rs[1..] + [r];
    }
  }

  lemma {:induction false} FirstServiceSnoc(rs: seq<Record>, r: Record)
    ensures FirstService(rs + [r]) ==
      if FirstService(rs).Some? then FirstService(rs)
      else if r.kind == PTR && r.rdata.Some? then Some(r) else None
  {
    if rs != [] {
      FirstServiceSnoc(rs[1..], r);
      assert (rs + [r])[1..] == rs[1..] + [r];
    }
  }

  /** The updates the loop makes to `info` for one record. */
  function Absorb(info: MdnsInfo, r: Record): MdnsInfo {
    var hosted := if info.hostname.None? && r.kind == SRV && r.target.Some? then info.(hostname := r.target) else info;
    if info.instance.None? && r.kind == PTR then hosted.(instance := r.rdata, serviceType := r.name) else hosted
  }

  lemma SummarySnoc(rs: seq<Record>, r: Record)
    ensures Summary(rs + [r]) == Absorb(Summary(rs), r)
  {
    FirstTargetSnoc(rs, r);
    FirstServiceSnoc(rs, r);
    assert (rs + [r])[..|rs|] == rs;
  }

  /** `q` of `n` questions are passed and the next one is at `at`. */
  ghost predicate Skipping(p: seq<Byte>, n: nat, q: nat, at: nat) {
    && q <= n
    && QuestionsEnd(p, HEADER, n) == QuestionsEnd(p, at, n - q)
    && QuestionsPassed(p, HEADER, n) == q + QuestionsPassed(p, at, n - q)
  }

  lemma SkipOne(p: seq<Byte>, n: nat, q: nat, at: nat, name: Option<NameRead>)
    requires Skipping(p, n, q, at) && q < n && name == SkipName(p, at)
    ensures if name.None? || name.value.end + 4 > |p|
            then QuestionsEnd(p, HEADER, n).None? && QuestionsPassed(p, HEADER, n) == q
            else Skipping(p, n, q + 1, name.value.end + 4)
  {
  }

  lemma SkippedAll(p: seq<Byte>, n: nat, at: nat)
    requires Skipping(p, n, n, at)
    ensures QuestionsEnd(p, HEADER, n) == Some(at) && QuestionsPassed(p, HEADER, n) == n
  {
  }

  /** The question loop; `questions` counts the entries it really passed. */
  method SkipQuestions(payload: seq<Byte>, qdcount: nat) returns (end: Option<nat>, ghost questions: nat)
    requires |payload| >= HEADER
    ensures end == QuestionsEnd(payload, HEADER, qdcount)
    ensures questions == QuestionsPassed(payload, HEADER, qdcount)
  {
    var offset: nat := HEADER;
    var q := 0;
    questions := 0;
    while q < qdcount
      invariant 0 <= q == questions <= qdcount
      invariant Skipping(payload, qdcount, q, offset)
    {
      var name, _ := ReadNameInternal(payload, offset, false);
      SkipOne(payload, qdcount, q, offset, name);
      if name.None? || name.value.end + 4 > |payload| {
        return None, questions;
      }
      offset := name.value.end + 4;
      q, questions := q + 1, questions + 1;
    }
    SkippedAll(payload, qdcount, offset);
    end := Some(offset);
  }

  /** What the loop's updates leave in `info` after all of `rs`. */
  function Gathered(rs: seq<Record>): MdnsInfo {
    if rs == [] then MdnsInfo(None, None, None)
    else Absorb(Gathered(rs[..|rs| - 1]), rs[|rs| - 1])
  }

  /** The running updates find what the declarative summary says. */
  lemma {:induction false} GatheredIsSummary(rs: seq<Record>)
    ensures Gathered(rs) == Summary(rs)
  {
    if rs != [] {
      GatheredIsSummary(rs[..|rs| - 1]);
      SummarySnoc(rs[..|rs| - 1], rs[|rs| - 1]);
      assert rs == rs[..|rs| - 1] + [rs[|rs| - 1]];
    }
  }

  /** A record walk under way: `found` read so far, `offset` reached, `info` gathered. */
  ghost predicate Walked(p: seq<Byte>, first: nat, total: nat, found: seq<Record>, offset: nat, info: MdnsInfo) {
    && |found| <= total
    && first + 11 * |found| <= offset <= |p|
    && Records(p, first, total) == found + Records(p, offset, total - |found|)
    && info == Gathered(found)
  }

  lemma WalkedNothing(p: seq<Byte>, first: nat, total: nat)
    requires first <= |p|
    ensures Walked(p, first, total, [], first, MdnsInfo(None, None, None))
  {
    assert [] + Records(p, first, total) == Records(p, first, total);
  }

  lemma WalkedOneMore(p: seq<Byte>, first: nat, total: nat, found: seq<Record>, offset: nat, info: MdnsInfo)
    requires Walked(p, first, total, found, offset, info)
    requires |found| < total && ParseRecord(p, offset).Some?
    ensures var r := ParseRecord(p, offset).value; Walked(p, first, total, found + [r], r.next, Absorb(info, r))
  {
    var r := ParseRecord(p, offset).value;
    GatheredSnoc(found, r);
    MoveAcross(found, r, Records(p, r.next, total - |found| - 1));
  }

  lemma GatheredSnoc(rs: seq<Record>, r: Record)
    ensures Gathered(rs + [r]) == Absorb(Gathered(rs), r)
  {
    assert (rs + [r])[..|rs|] == rs;
  }

  lemma MoveAcross(found: seq<Record>, r: Record, rest: seq<Record>)
    ensures found + ([r] + rest) == (found + [r]) + rest
  {
  }

  lemma WalkedAll(p: seq<Byte>, first: nat, total: nat, found: seq<Record>, offset: nat, info: MdnsInfo)
    requires Walked(p, first, total, found, offset, info)
    requires |found| == total || ParseRecord(p, offset).None?
    ensures found == Records(p, first, total) && info == Summary(found)
  {
    GatheredIsSummary(found);
    assert found + [] == found;
  }

  /** One section of `count` records, left early at the first bad one. */
  method WalkSection(payload: seq<Byte>, ghost first: nat, ghost total: nat, count: nat,
                     start: nat, before: MdnsInfo, ghost read: seq<Record>)
    returns (offset: nat, info: MdnsInfo, ok: bool, ghost found: seq<Record>)
    requires Walked(payload, first, total, read, start, before)
    requires |read| + count <= total
    ensures Walked(payload, first, total, found, offset, info)
    ensures if ok then |found| == |read| + count
            else |found| < |read| + count && ParseRecord(payload, offset).None?
  {
    offset, info, found := start, before, read;
    var k := 0;
    while k < count
      invariant 0 <= k <= count
      invariant |found| == |read| + k
      invariant Walked(payload, first, total, found, offset, info)
    {
      var record := ParseRecord(payload, offset);
      if record.None? {
        return offset, info, false, found;
      }
      WalkedOneMore(payload, first, total, found, offset, info);
      ghost var old' := info;
      offset := record.value.next;
      if info.hostname.None? && record.value.kind == SRV && record.value.target.Some? {
        info := info.(hostname := record.value.target);
      }
      if info.instance.None? && record.value.kind == PTR {
        info := info.(instance := record.value.rdata, serviceType := record.value.name);
      }
      assert info == Absorb(old', record.value);
      found := found + [record.value];
      k := k + 1;
    }
    ok := true;
  }

  /** The loop over the sections. */
  method WalkSections(payload: seq<Byte>, first: nat, sections: seq<nat>)
    returns (info: MdnsInfo, complete: bool, ghost found: seq<Record>)
    requires first <= |payload|
    ensures found == Records(payload, first, SumTo(sections, |sections|))
    ensures info == Summary(Records(payload, first, SumTo(sections, |sections|)))
    ensures complete <==> |Records(payload, first, SumTo(sections, |sections|))| == SumTo(sections, |sections|)
  {
    var offset := first;
    info, complete, found := MdnsInfo(None, None, None), true, [];
    ghost var total := SumTo(sections, |sections|);
    WalkedNothing(payload, first, total);
    var s := 0;
    while s < |sections|
      invariant 0 <= s <= |sections|
      invariant |found| == SumTo(sections, s)
      invariant Walked(payload, first, total, found, offset, info)
    {
      SumToMonotone(sections, s + 1, |sections|);
      offset, info, complete, found := WalkSection(payload, first, total, sections[s], offset, info, found);
      if !complete {
        WalkedAll(payload, first, total, found, offset, info);
        return info, false, found;
      }
      s := s + 1;
    }
    WalkedAll(payload, first, total, found, offset, info);
    complete := true;
  }

  /** `parse_mdns`; `questions` and `found` record what its loops really walked. */
  method ParseMdns(payload: seq<Byte>) returns (r: Option<MdnsInfo>, ghost questions: nat, ghost found: seq<Record>)
    ensures r == Parsed(payload)
    ensures |payload| < HEADER ==> questions == 0 && found == []
    ensures |payload| >= HEADER ==>
      questions == QuestionsPassed(payload, HEADER, Counts(payload).0) && found == Walk(payload)
  {
    questions, found := 0, [];
    if |payload| < HEADER {
      return None, questions, found;
    }
    var qdcount := U16(payload[4], payload[5]);
    var sections := [U16(payload[6], payload[7]), U16(payload[8], payload[9]), U16(payload[10], payload[11])];
    assert SumTo(sections, 1) == sections[0];
    assert SumTo(sections, 3) == Counts(payload).1;
    var start: Option<nat>;
    start, questions := SkipQuestions(payload, qdcount);
    QuestionsFit(payload, HEADER, qdcount);
    if start.None? {
      return None, questions, found;
    }
    var info, complete;
    info, complete, found := WalkSections(payload, start.value, sections);
    if !complete {
      return if info.hostname.Some? || info.instance.Some? then Some(info) else None, questions, found;
    }
    r := if info.hostname.None? && info.instance.None? && info.serviceType.None? then None else Some(info);
  }

  lemma {:induction false} SumToMonotone(counts: seq<nat>, i: nat, j: nat)
    requires i <= j <= |counts|
    ensures SumTo(counts, i) <= SumTo(counts, j)
    decreases j
  {
    if i < j { SumToMonotone(counts, i, j - 1); }
  }

  ghost function SumTo(counts: seq<nat>, k: nat): nat
    requires k <= |counts|
  {
    if k == 0 then 0 else SumTo(counts, k - 1) + counts[k - 1]
  }
}
