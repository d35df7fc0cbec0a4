/** A writer for mDNS messages, and why the parser reports what was written. */
module MdnsWritten {
  import opened Common
  import opened DnsName
  import opened Mdns

  // ----- What is written ------------------------------------------------------------

  /** A 16-bit field, high octet first. */
  function Field(v: nat): seq<Byte>
    requires v < 0x1_0000
  {
    [v / 256, v % 256]
  }

  /** Labels spelled out, then perhaps a pointer to an earlier place that reads as `others`. */
  datatype Name = Name(labels: seq<Label>, tail: Option<nat>, others: seq<Label>)

  function Spelled(n: Name): seq<Label> {
    n.labels + n.others
  }

  /** After `msg`, the name can be written and its pointer leads to what it should. */
  predicate Follows(msg: seq<Byte>, n: Name) {
    Writable(n.labels) && if n.tail.None? then n.others == [] else Reaches(msg, n.tail.value, n.others)
  }

  predicate Readable(n: Name) {
    AllUtf8(n.labels) && AllUtf8(n.others)
  }

  predicate Encodes(n: Name) {
    Writable(n.labels) && (n.tail.Some? ==> n.tail.value < 0x4000)
  }

  function NameBytes(n: Name): seq<Byte>
    requires Encodes(n)
  {
    Encode(n.labels, n.tail)
  }

  /** The data of a record: a name, a service with its target, or anything else, read or not. */
  datatype Body =
    | Pointer(name: Name)
    | Service(priority: nat, weight: nat, port: nat, target: Name)
    | Raw(kind: nat, octets: seq<Byte>)

  /** A record; the time to live is any four octets. */
  datatype Rec = Rec(owner: Name, klass: nat, ttl: seq<Byte>, body: Body)

  /** Type 12 is PTR, 33 is SRV; an SRV record with fewer than seven octets of data has no target. */
  function Kind(b: Body): nat {
    match b
    case Pointer(_) => 12
    case Service(_, _, _, _) => 33
    case Raw(kind, _) => kind
  }

  predicate BodyEncodes(b: Body) {
    match b
    case Pointer(name) => Encodes(name)
    case Service(priority, weight, port, target) =>
      priority < 0x1_0000 && weight < 0x1_0000 && port < 0x1_0000 && Encodes(target)
    case Raw(kind, octets) => kind < 0x1_0000 && kind != 12 && (kind == 33 ==> |octets| < 7)
  }

  function Ports(b: Body): seq<Byte>
    requires BodyEncodes(b) && b.Service?
  {
    Field(b.priority) + Field(b.weight) + Field(b.port)
  }

  function BodyBytes(b: Body): seq<Byte>
    requires BodyEncodes(b)
  {
    match b
    case Pointer(name) => NameBytes(name)
    case Service(_, _, _, target) => Ports(b) + NameBytes(target)
    case Raw(_, octets) => octets
  }

  predicate RecEncodes(r: Rec) {
    && Encodes(r.owner) && r.klass < 0x1_0000 && |r.ttl| == 4
    && BodyEncodes(r.body) && |BodyBytes(r.body)| < 0x1_0000
  }

  /** The ten octets between the owner and the data. */
  function Fixed(r: Rec): seq<Byte>
    requires RecEncodes(r)
  {
    Field(Kind(r.body)) + Field(r.klass) + r.ttl + Field(|BodyBytes(r.body)|)
  }

  function RecBytes(r: Rec): seq<Byte>
    requires RecEncodes(r)
  {
    NameBytes(r.owner) + Fixed(r) + BodyBytes(r.body)
  }

  /** After `msg`, the record's names lead to what they should. */
  predicate RecFollows(msg: seq<Byte>, r: Rec) {
    && RecEncodes(r) && Follows(msg, r.owner) && Readable(r.owner)
    && var data := msg + NameBytes(r.owner) + Fixed(r);
       match r.body
       case Pointer(name) => Follows(data, name) && Readable(name)
       case Service(_, _, _, target) => Follows(data + Ports(r.body), target) && Readable(target)
       case Raw(_, _) => true
  }

  /** The labels of the target, if there is one. */
  function TargetOf(b: Body): seq<Label> {
    if b.Service? then Spelled(b.target) else []
  }

  /** The labels of the name that a pointer leads to. */
  function NameOf(b: Body): seq<Label> {
    if b.Pointer? then Spelled(b.name) else []
  }

  /** What is parsed is what was written. */
  predicate SaysRecord(x: Record, r: Rec) {
    && x.kind == Kind(r.body) && Says(x.name, Spelled(r.owner))
    && Says(x.target, TargetOf(r.body)) && Says(x.rdata, NameOf(r.body))
  }

  // ----- Ways to split a message ---------------------------------------------------------

  lemma TwoParts(msg: seq<Byte>, x: seq<Byte>, y: seq<Byte>, rest: seq<Byte>)
    ensures msg + (x + y) + rest == msg + x + (y + rest)
    ensures msg + (x + y) + rest == (msg + x) + y + rest
  {
  }

  lemma ThreeParts(msg: seq<Byte>, x: seq<Byte>, y: seq<Byte>, z: seq<Byte>, rest: seq<Byte>)
    ensures msg + (x + y + z) + rest == msg + x + (y + z + rest)
    ensures msg + (x + y + z) + rest == (msg + x) + y + (z + rest)
    ensures msg + (x + y + z) + rest == (msg + x + y) + z + rest
  {
  }

  lemma FourWays(h: seq<Byte>, q: seq<Byte>, r: seq<Byte>, rest: seq<Byte>)
    ensures h + (q + r + rest) == h + q + (r + rest)
    ensures h + (q + r + rest) == (h + q) + r + rest
  {
  }

  // ----- One record --------------------------------------------------------------------

  lemma NameIsRead(p: seq<Byte>, msg: seq<Byte>, n: Name, rest: seq<Byte>)
    requires Follows(msg, n) && Readable(n) && Encodes(n) && p == msg + NameBytes(n) + rest
    ensures ReadsAs(p, |msg|, Spelled(n), |msg| + |NameBytes(n)|)
  {
    RoundTrip(msg, n.labels, n.tail, n.others, rest);
  }

  lemma NameIsSkipped(p: seq<Byte>, msg: seq<Byte>, n: Name, rest: seq<Byte>)
    requires Follows(msg, n) && Encodes(n) && p == msg + NameBytes(n) + rest
    ensures SkipName(p, |msg|) == Some(NameRead(|msg| + |NameBytes(n)|, None))
  {
    var path := WrittenIsLaidOut(msg, n.labels, n.tail, n.others, rest);
    DecodeLaidOut(p, |msg|, |msg|, MAX_JUMPS, path);
  }

  lemma FieldReads(v: nat)
    requires v < 0x1_0000
    ensures |Field(v)| == 2 && U16(Field(v)[0], Field(v)[1]) == v
  {
  }

  /** The type and the length stand where the parser looks for them. */
  lemma FixedReads(p: seq<Byte>, a: seq<Byte>, r: Rec, rest: seq<Byte>)
    requires RecEncodes(r) && p == a + Fixed(r) + rest
    ensures |Fixed(r)| == 10 && |p| == |a| + 10 + |rest|
    ensures U16(p[|a|], p[|a| + 1]) == Kind(r.body) && U16(p[|a| + 8], p[|a| + 9]) == |BodyBytes(r.body)|
  {
    var f := Fixed(r);
    FieldReads(Kind(r.body));
    FieldReads(|BodyBytes(r.body)|);
    assert f[0] == Field(Kind(r.body))[0] && f[1] == Field(Kind(r.body))[1];
    assert f[8] == Field(|BodyBytes(r.body)|)[0] && f[9] == Field(|BodyBytes(r.body)|)[1];
    assert p[|a|] == f[0] && p[|a| + 1] == f[1] && p[|a| + 8] == f[8] && p[|a| + 9] == f[9];
  }

  /** How a record is taken apart, once its owner has been read. */
  predicate Opens(p: seq<Byte>, at: nat, end: nat, kind: nat, length: nat) {
    && ReadName(p, at).Some? && ReadName(p, at).value.end == end && end + 10 + length <= |p|
    && U16(p[end], p[end + 1]) == kind && U16(p[end + 8], p[end + 9]) == length
  }

  lemma PointerParses(p: seq<Byte>, at: nat, end: nat, length: nat)
    requires Opens(p, at, end, 12, length) && ReadName(p, end + 10).Some?
    ensures ParseRecord(p, at)
         == Some(Record(ReadName(p, at).value.name, 12, end + 10 + length, None, ReadName(p, end + 10).value.name))
  {
  }

  lemma ServiceParses(p: seq<Byte>, at: nat, end: nat, length: nat)
    requires Opens(p, at, end, 33, length) && length >= 7 && ReadName(p, end + 16).Some?
    ensures ParseRecord(p, at)
         == Some(Record(ReadName(p, at).value.name, 33, end + 10 + length, ReadName(p, end + 16).value.name, None))
  {
  }

  lemma RawParses(p: seq<Byte>, at: nat, end: nat, kind: nat, length: nat)
    requires Opens(p, at, end, kind, length) && kind != 12 && (kind == 33 ==> length < 7)
    ensures ParseRecord(p, at) == Some(Record(ReadName(p, at).value.name, kind, end + 10 + length, None, None))
  {
  }

  /** The parser returns the record written at `at`, and where it ends. */
  predicate Parses(p: seq<Byte>, at: nat, r: Rec, end: nat) {
    ParseRecord(p, at).Some? && ParseRecord(p, at).value.next == end && SaysRecord(ParseRecord(p, at).value, r)
  }

  lemma OwnerOpens(p: seq<Byte>, msg: seq<Byte>, r: Rec, rest: seq<Byte>)
    requires RecFollows(msg, r) && p == msg + RecBytes(r) + rest
    ensures var end := |msg| + |NameBytes(r.owner)|;
      && Opens(p, |msg|, end, Kind(r.body), |BodyBytes(r.body)|) && |Fixed(r)| == 10
      && Says(ReadName(p, |msg|).value.name, Spelled(r.owner))
  {
    var owner, fixed, body := NameBytes(r.owner), Fixed(r), BodyBytes(r.body);
    ThreeParts(msg, owner, fixed, body, rest);
    NameIsRead(p, msg, r.owner, fixed + body + rest);
    FixedReads(p, msg + owner, r, body + rest);
  }

  lemma EncodeNotEmpty(n: Name)
    requires Encodes(n)
    ensures NameBytes(n) != []
  {
  }

  /** Owner, fixed part and data of `r` are where a parser looks for them, the owner ending at `end`. */
  ghost predicate Placed(p: seq<Byte>, at: nat, end: nat, r: Rec, length: nat) {
    && Opens(p, at, end, Kind(r.body), length) && Says(ReadName(p, at).value.name, Spelled(r.owner))
    && match r.body
       case Pointer(name) => ReadsAs(p, end + 10, Spelled(name), end + 10 + length)
       case Service(_, _, _, target) => length >= 7 && ReadsAs(p, end + 16, Spelled(target), end + 10 + length)
       case Raw(kind, _) => kind != 12 && (kind == 33 ==> length < 7)
  }

  lemma PlacedIsParsed(p: seq<Byte>, at: nat, end: nat, r: Rec, length: nat)
    requires Placed(p, at, end, r, length)
    ensures Parses(p, at, r, end + 10 + length)
  {
    match r.body
    case Pointer(_) => PointerParses(p, at, end, length);
    case Service(_, _, _, _) => ServiceParses(p, at, end, length);
    case Raw(kind, _) => RawParses(p, at, end, kind, length);
  }

  lemma PointerIsPlaced(p: seq<Byte>, at: nat, end: nat, r: Rec, name: Name, data: seq<Byte>, rest: seq<Byte>)
    requires Encodes(name) && r.body == Pointer(name) && Opens(p, at, end, 12, |NameBytes(name)|)
    requires Says(ReadName(p, at).value.name, Spelled(r.owner)) && |data| == end + 10
    requires Follows(data, name) && Readable(name) && p == data + NameBytes(name) + rest
    ensures Placed(p, at, end, r, |NameBytes(name)|)
  {
    NameIsRead(p, data, name, rest);
  }

  lemma ServiceIsPlaced(p: seq<Byte>, at: nat, end: nat, r: Rec, ports: seq<Byte>, target: Name, data: seq<Byte>,
                        rest: seq<Byte>)
    requires Encodes(target) && r.body.Service? && r.body.target == target && |ports| == 6
    requires Opens(p, at, end, 33, 6 + |NameBytes(target)|)
    requires Says(ReadName(p, at).value.name, Spelled(r.owner)) && |data| == end + 10
    requires Follows(data + ports, target) && Readable(target) && p == data + (ports + NameBytes(target)) + rest
    ensures Placed(p, at, end, r, 6 + |NameBytes(target)|)
  {
    assert p == (data + ports) + NameBytes(target) + rest by { TwoParts(data, ports, NameBytes(target), rest); }
    NameIsRead(p, data + ports, target, rest);
    EncodeNotEmpty(target);
  }

  lemma PortsLength(b: Body)
    requires BodyEncodes(b) && b.Service?
    ensures |Ports(b)| == 6 && BodyBytes(b) == Ports(b) + NameBytes(b.target)
  {
  }

  /** Owner and fixed part are in place, and the data follows. */
  ghost predicate Opened(p: seq<Byte>, msg: seq<Byte>, r: Rec, data: seq<Byte>, end: nat, rest: seq<Byte>)
    requires RecEncodes(r)
  {
    && Opens(p, |msg|, end, Kind(r.body), |BodyBytes(r.body)|) && Says(ReadName(p, |msg|).value.name, Spelled(r.owner))
    && |data| == end + 10 && p == data + BodyBytes(r.body) + rest
  }

  lemma RecIsOpened(p: seq<Byte>, msg: seq<Byte>, r: Rec, rest: seq<Byte>)
    requires RecFollows(msg, r) && p == msg + RecBytes(r) + rest
    ensures Opened(p, msg, r, msg + NameBytes(r.owner) + Fixed(r), |msg| + |NameBytes(r.owner)|, rest)
  {
    var owner, fixed, body := NameBytes(r.owner), Fixed(r), BodyBytes(r.body);
    OwnerOpens(p, msg, r, rest);
    assert p == (msg + owner + fixed) + body + rest by { ThreeParts(msg, owner, fixed, body, rest); }
  }

  lemma OpenedIsPlaced(p: seq<Byte>, msg: seq<Byte>, r: Rec, data: seq<Byte>, end: nat, rest: seq<Byte>)
    requires RecFollows(msg, r) && data == msg + NameBytes(r.owner) + Fixed(r) && Opened(p, msg, r, data, end, rest)
    ensures Placed(p, |msg|, end, r, |BodyBytes(r.body)|)
  {
    if r.body.Pointer? {
      PointerIsPlaced(p, |msg|, end, r, r.body.name, data, rest);
    } else if r.body.Service? {
      PortsLength(r.body);
      ServiceIsPlaced(p, |msg|, end, r, Ports(r.body), r.body.target, data, rest);
    }
  }

  lemma RecLength(r: Rec)
    requires RecEncodes(r)
    ensures |RecBytes(r)| == |NameBytes(r.owner)| + 10 + |BodyBytes(r.body)|
  {
    FieldReads(Kind(r.body));
    FieldReads(r.klass);
    FieldReads(|BodyBytes(r.body)|);
  }

  /**
   * Record round trip: for every message before and anything after, a written record is parsed
   * with its owner, type, instance or target, and the parser moves on to just past it.
   */
  lemma RecordRoundTrip(msg: seq<Byte>, r: Rec, rest: seq<Byte>)
    requires RecFollows(msg, r)
    ensures Parses(msg + RecBytes(r) + rest, |msg|, r, |msg| + |RecBytes(r)|)
  {
    RecordIsParsed(msg + RecBytes(r) + rest, msg, r, rest, |msg| + |RecBytes(r)|);
  }

  lemma RecordIsParsed(p: seq<Byte>, msg: seq<Byte>, r: Rec, rest: seq<Byte>, to: nat)
    requires RecFollows(msg, r) && p == msg + RecBytes(r) + rest && to == |msg| + |RecBytes(r)|
    ensures Parses(p, |msg|, r, to)
  {
    var owner, length := NameBytes(r.owner), |BodyBytes(r.body)|;
    RecIsOpened(p, msg, r, rest);
    OpenedIsPlaced(p, msg, r, msg + owner + Fixed(r), |msg| + |owner|, rest);
    RecLength(r);
    PlacedIsParsed(p, |msg|, |msg| + |owner|, r, length);
  }

  // ----- Many records -----------------------------------------------------------------

  predicate AllEncode(rs: seq<Rec>) {
    forall i :: 0 <= i < |rs| ==> RecEncodes(rs[i])
  }

  function RecsBytes(rs: seq<Rec>): seq<Byte>
    requires AllEncode(rs)
  {
    if rs == [] then [] else RecBytes(rs[0]) + RecsBytes(rs[1..])
  }

  /** After `msg`, each record follows those before it. */
  predicate RecsFollow(msg: seq<Byte>, rs: seq<Rec>)
    requires AllEncode(rs)
    decreases |rs|
  {
    rs == [] || (RecFollows(msg, rs[0]) && RecsFollow(msg + RecBytes(rs[0]), rs[1..]))
  }

  predicate SayAll(xs: seq<Record>, rs: seq<Rec>) {
    |xs| == |rs| && forall i :: 0 <= i < |rs| ==> SaysRecord(xs[i], rs[i])
  }

  lemma SayAllCons(x: Record, r: Rec, xs: seq<Record>, rs: seq<Rec>)
    requires SaysRecord(x, r) && SayAll(xs, rs)
    ensures SayAll([x] + xs, [r] + rs)
  {
  }

  lemma RecsCons(r: Rec, rs: seq<Rec>)
    requires RecEncodes(r) && AllEncode(rs)
    ensures AllEncode([r] + rs) && RecsBytes([r] + rs) == RecBytes(r) + RecsBytes(rs)
  {
    assert ([r] + rs)[1..] == rs;
  }

  lemma OneMoreIsFound(msg: seq<Byte>, r: Rec, rs: seq<Rec>, first: seq<Byte>, more: seq<Byte>, rest: seq<Byte>)
    requires RecFollows(msg, r) && first == RecBytes(r)
    requires SayAll(Records((msg + first) + more + rest, |msg + first|, |rs|), rs)
    ensures SayAll(Records(msg + (first + more) + rest, |msg|, |rs| + 1), [r] + rs)
  {
    var p := (msg + first) + more + rest;
    assert msg + (first + more) + rest == p && msg + first + (more + rest) == p by { TwoParts(msg, first, more, rest); }
    assert Parses(p, |msg|, r, |msg + first|) by { RecordRoundTrip(msg, r, more + rest); }
    WalkOn(p, |msg|, r, |msg + first|, rs);
  }

  /** The record walk finds every record that was written. */
  lemma {:induction false} RecordsAreFound(msg: seq<Byte>, rs: seq<Rec>, rest: seq<Byte>)
    requires AllEncode(rs) && RecsFollow(msg, rs)
    ensures SayAll(Records(msg + RecsBytes(rs) + rest, |msg|, |rs|), rs)
    decreases |rs|
  {
    if rs != [] {
      var r, others := rs[0], rs[1..];
      assert rs == [r] + others;
      RecordsAreFound(msg + RecBytes(r), others, rest);
      RecsCons(r, others);
      OneMoreIsFound(msg, r, others, RecBytes(r), RecsBytes(others), rest);
    }
  }

  lemma WalkOn(p: seq<Byte>, at: nat, r: Rec, end: nat, others: seq<Rec>)
    requires Parses(p, at, r, end) && SayAll(Records(p, end, |others|), others)
    ensures SayAll(Records(p, at, |others| + 1), [r] + others)
  {
    SayAllCons(ParseRecord(p, at).value, r, Records(p, end, |others|), others);
  }

  // ----- Questions -------------------------------------------------------------------

  /** A question; its type and class are any four octets, and its name need not be text. */
  datatype Question = Question(name: Name, fields: seq<Byte>)

  predicate QuestionsEncode(qs: seq<Question>) {
    forall i :: 0 <= i < |qs| ==> Encodes(qs[i].name) && |qs[i].fields| == 4
  }

  function QuestionBytes(q: Question): seq<Byte>
    requires Encodes(q.name)
  {
    NameBytes(q.name) + q.fields
  }

  function QuestionsBytes(qs: seq<Question>): seq<Byte>
    requires QuestionsEncode(qs)
  {
    if qs == [] then [] else QuestionBytes(qs[0]) + QuestionsBytes(qs[1..])
  }

  predicate QuestionsFollow(msg: seq<Byte>, qs: seq<Question>)
    requires QuestionsEncode(qs)
    decreases |qs|
  {
    qs == [] || (Follows(msg, qs[0].name) && QuestionsFollow(msg + QuestionBytes(qs[0]), qs[1..]))
  }

  lemma QuestionsCons(q: Question, qs: seq<Question>)
    requires Encodes(q.name) && |q.fields| == 4 && QuestionsEncode(qs)
    ensures QuestionsEncode([q] + qs) && QuestionsBytes([q] + qs) == QuestionBytes(q) + QuestionsBytes(qs)
  {
    assert ([q] + qs)[1..] == qs;
  }

  lemma QuestionIsPassed(p: seq<Byte>, msg: seq<Byte>, q: Question, rest: seq<Byte>, n: nat)
    requires Encodes(q.name) && |q.fields| == 4 && Follows(msg, q.name) && p == msg + QuestionBytes(q) + rest
    ensures QuestionsEnd(p, |msg|, n + 1) == QuestionsEnd(p, |msg| + |QuestionBytes(q)|, n)
  {
    TwoParts(msg, NameBytes(q.name), q.fields, rest);
    NameIsSkipped(p, msg, q.name, q.fields + rest);
  }

  lemma OneMoreIsPassed(msg: seq<Byte>, q: Question, n: nat, first: seq<Byte>, more: seq<Byte>, rest: seq<Byte>)
    requires Encodes(q.name) && |q.fields| == 4 && Follows(msg, q.name) && first == QuestionBytes(q)
    requires QuestionsEnd((msg + first) + more + rest, |msg + first|, n) == Some(|(msg + first) + more|)
    ensures QuestionsEnd(msg + (first + more) + rest, |msg|, n + 1) == Some(|msg + (first + more)|)
  {
    var p := (msg + first) + more + rest;
    assert msg + (first + more) + rest == p && msg + first + (more + rest) == p by { TwoParts(msg, first, more, rest); }
    QuestionIsPassed(p, msg, q, more + rest, n);
  }

  lemma {:induction false} QuestionsArePassed(msg: seq<Byte>, qs: seq<Question>, rest: seq<Byte>)
    requires QuestionsEncode(qs) && QuestionsFollow(msg, qs)
    ensures QuestionsEnd(msg + QuestionsBytes(qs) + rest, |msg|, |qs|) == Some(|msg + QuestionsBytes(qs)|)
    decreases |qs|
  {
    if qs != [] {
      var q, others := qs[0], qs[1..];
      assert qs == [q] + others;
      QuestionsArePassed(msg + QuestionBytes(q), others, rest);
      QuestionsCons(q, others);
      OneMoreIsPassed(msg, q, |others|, QuestionBytes(q), QuestionsBytes(others), rest);
    }
  }

  // ----- Whole messages -----------------------------------------------------------------

  /** Identifier and flags are any four octets; the three sections follow the questions. */
  datatype Message = Message(start: seq<Byte>, questions: seq<Question>, answers: seq<Rec>, authorities: seq<Rec>,
                             additionals: seq<Rec>)

  function AllRecs(m: Message): seq<Rec> {
    m.answers + m.authorities + m.additionals
  }

  predicate MessageEncodes(m: Message) {
    && |m.start| == 4 && QuestionsEncode(m.questions) && AllEncode(AllRecs(m)) && |m.questions| < 0x1_0000
    && |m.answers| < 0x1_0000 && |m.authorities| < 0x1_0000 && |m.additionals| < 0x1_0000
  }

  function HeaderBytes(m: Message): (h: seq<Byte>)
    requires MessageEncodes(m)
    ensures |h| == 12
  {
    m.start + Field(|m.questions|) + Field(|m.answers|) + Field(|m.authorities|) + Field(|m.additionals|)
  }

  function MessageBytes(m: Message): seq<Byte>
    requires MessageEncodes(m)
  {
    HeaderBytes(m) + QuestionsBytes(m.questions) + RecsBytes(AllRecs(m))
  }

  /** All pointers lead to what they should. */
  predicate Consistent(m: Message) {
    && MessageEncodes(m) && QuestionsFollow(HeaderBytes(m), m.questions)
    && RecsFollow(HeaderBytes(m) + QuestionsBytes(m.questions), AllRecs(m))
  }

  /** The target of the first service that has one. */
  function Host(rs: seq<Rec>): seq<Label> {
    if rs == [] then [] else if TargetOf(rs[0].body) != [] then TargetOf(rs[0].body) else Host(rs[1..])
  }

  /** Instance and service type: of the first pointer that names something. */
  function Instance(rs: seq<Rec>): (seq<Label>, seq<Label>) {
    if rs == [] then ([], [])
    else if NameOf(rs[0].body) != [] then (NameOf(rs[0].body), Spelled(rs[0].owner))
    else Instance(rs[1..])
  }

  /** The owner of the last record of type 12. */
  function LastOwner(rs: seq<Rec>): seq<Label> {
    if rs == [] then []
    else if Kind(rs[|rs| - 1].body) == 12 then Spelled(rs[|rs| - 1].owner)
    else LastOwner(rs[..|rs| - 1])
  }

  function ServiceType(rs: seq<Rec>): seq<Label> {
    if Instance(rs).0 != [] then Instance(rs).1 else LastOwner(rs)
  }

  /** What the parser should report of these records. */
  predicate Tells(r: Option<MdnsInfo>, rs: seq<Rec>) {
    if Host(rs) == [] && Instance(rs).0 == [] && ServiceType(rs) == [] then r.None?
    else
      && r.Some? && Says(r.value.hostname, Host(rs)) && Says(r.value.instance, Instance(rs).0)
      && Says(r.value.serviceType, ServiceType(rs))
  }

  lemma {:induction false} HostIsTarget(xs: seq<Record>, rs: seq<Rec>)
    requires SayAll(xs, rs)
    ensures Says(FirstTarget(xs), Host(rs))
  {
    if rs != [] {
      assert SaysRecord(xs[0], rs[0]);
      assert SayAll(xs[1..], rs[1..]);
      HostIsTarget(xs[1..], rs[1..]);
    }
  }

  lemma {:induction false} InstanceIsService(xs: seq<Record>, rs: seq<Rec>)
    requires SayAll(xs, rs)
    ensures var x := FirstService(xs);
      && (x.None? <==> Instance(rs).0 == [])
      && (x.Some? ==> Says(x.value.rdata, Instance(rs).0) && Says(x.value.name, Instance(rs).1))
  {
    if rs != [] {
      assert SaysRecord(xs[0], rs[0]);
      assert SayAll(xs[1..], rs[1..]);
      InstanceIsService(xs[1..], rs[1..]);
    }
  }

  lemma SayAllSnoc(xs: seq<Record>, rs: seq<Rec>)
    requires SayAll(xs, rs) && rs != []
    ensures SayAll(xs[..|xs| - 1], rs[..|rs| - 1]) && SaysRecord(xs[|xs| - 1], rs[|rs| - 1])
  {
    var ys, qs := xs[..|xs| - 1], rs[..|rs| - 1];
    forall i | 0 <= i < |qs| ensures SaysRecord(ys[i], qs[i]) {
      assert SaysRecord(xs[i], rs[i]);
    }
  }

  lemma {:induction false} OwnerIsLast(xs: seq<Record>, rs: seq<Rec>)
    requires SayAll(xs, rs)
    ensures Says(LastPtrName(xs), LastOwner(rs))
  {
    if rs != [] {
      SayAllSnoc(xs, rs);
      OwnerIsLast(xs[..|xs| - 1], rs[..|rs| - 1]);
      LastOf(xs, rs);
    }
  }

  lemma LastOf(xs: seq<Record>, rs: seq<Rec>)
    requires xs != [] && rs != []
    ensures LastPtrName(xs) == if xs[|xs| - 1].kind == 12 then xs[|xs| - 1].name else LastPtrName(xs[..|xs| - 1])
    ensures LastOwner(rs)
         == if Kind(rs[|rs| - 1].body) == 12 then Spelled(rs[|rs| - 1].owner) else LastOwner(rs[..|rs| - 1])
  {
  }

  lemma SummaryTells(xs: seq<Record>, rs: seq<Rec>)
    requires SayAll(xs, rs)
    ensures Tells(Verdict(Summary(xs), true), rs)
  {
    HostIsTarget(xs, rs);
    InstanceIsService(xs, rs);
    OwnerIsLast(xs, rs);
  }

  lemma HeaderCounts(p: seq<Byte>, m: Message, rest: seq<Byte>)
    requires MessageEncodes(m) && p == HeaderBytes(m) + rest
    ensures Counts(p) == (|m.questions|, |AllRecs(m)|)
  {
    var h := HeaderBytes(m);
    var q, a, b, c := Field(|m.questions|), Field(|m.answers|), Field(|m.authorities|), Field(|m.additionals|);
    FieldReads(|m.questions|);
    FieldReads(|m.answers|);
    FieldReads(|m.authorities|);
    FieldReads(|m.additionals|);
    assert h[4] == q[0] && h[5] == q[1] && h[6] == a[0] && h[7] == a[1];
    assert h[8] == b[0] && h[9] == b[1] && h[10] == c[0] && h[11] == c[1];
    assert forall i :: 4 <= i < 12 ==> p[i] == h[i];
  }

  /**
   * Message round trip: of every written message, whatever follows it, the parser reports the
   * first named target as hostname, and instance and service type of the first pointer that
   * names something, or else the last pointer's owner as service type.
   */
  lemma MessageRoundTrip(m: Message, rest: seq<Byte>)
    requires Consistent(m)
    ensures Tells(Parsed(MessageBytes(m) + rest), AllRecs(m))
  {
    var p, h := MessageBytes(m) + rest, HeaderBytes(m);
    var q, r := QuestionsBytes(m.questions), RecsBytes(AllRecs(m));
    assert p == h + (q + r + rest) by { ThreeParts([], h, q, r, rest); }
    HeaderCounts(p, m, q + r + rest);
    BodyIsParsed(p, h, m.questions, AllRecs(m), q, r, rest);
  }

  lemma BodyIsParsed(p: seq<Byte>, h: seq<Byte>, qs: seq<Question>, rs: seq<Rec>, q: seq<Byte>, r: seq<Byte>,
                     rest: seq<Byte>)
    requires |h| == HEADER && p == h + (q + r + rest) && Counts(p) == (|qs|, |rs|)
    requires QuestionsEncode(qs) && q == QuestionsBytes(qs) && QuestionsFollow(h, qs)
    requires AllEncode(rs) && r == RecsBytes(rs) && RecsFollow(h + q, rs)
    ensures Tells(Parsed(p), rs)
  {
    assert p == h + q + (r + rest) && p == (h + q) + r + rest by { FourWays(h, q, r, rest); }
    assert QuestionsEnd(p, HEADER, |qs|) == Some(|h + q|) by { QuestionsArePassed(h, qs, r + rest); }
    assert SayAll(Records(p, |h + q|, |rs|), rs) by { RecordsAreFound(h + q, rs, rest); }
    FoundTells(p, |qs|, rs, |h + q|);
  }

  lemma FoundTells(p: seq<Byte>, questions: nat, rs: seq<Rec>, at: nat)
    requires |p| >= HEADER && Counts(p) == (questions, |rs|) && QuestionsEnd(p, HEADER, questions) == Some(at)
    requires SayAll(Records(p, at, |rs|), rs)
    ensures Tells(Parsed(p), rs)
  {
    SummaryTells(Records(p, at, |rs|), rs);
  }
}
