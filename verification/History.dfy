/** Daily device snapshots: one row per device and date, listed by date. */
module History {
  import opened Common
  import opened Devices
  import Dates

  /** A day's copy of a device; the device holds the MAC address. */
  datatype Snapshot = Snapshot(date: string, takenAt: Time, state: Device)

  /** `UNIQUE(mac, snapshot_date)` */
  datatype Key = Key(mac: Mac, date: string)

  function KeyOf(s: Snapshot): Key {
    Key(s.state.mac, s.date)
  }

  /** The columns beside the key. */
  datatype HistoryRow = HistoryRow(takenAt: nat, state: Row)

  /** `row_to_snapshot` */
  function SnapshotOf(k: Key, r: HistoryRow): Snapshot {
    Snapshot(k.date, r.takenAt * NANOS_PER_MILLI, DeviceOf(k.mac, r.state))
  }

  /** What reading every row gives. */
  function Read(rows: map<Key, HistoryRow>): (table: map<Key, Snapshot>)
    ensures table.Keys == rows.Keys
  {
    map k | k in rows :: SnapshotOf(k, rows[k])
  }

  function Millisecond(t: Time): Time {
    t / NANOS_PER_MILLI * NANOS_PER_MILLI
  }

  function StateAt(table: map<Key, Snapshot>, k: Key): Option<Device> {
    if k in table then Some(table[k].state) else None
  }

  // ----- Writes --------------------------------------------------------------------

  datatype Op = Insert(snapshot: Snapshot) | DeleteBefore(date: string)

  function Put(table: map<Key, Snapshot>, s: Snapshot): map<Key, Snapshot> {
    table[KeyOf(s) := Snapshot(s.date, Millisecond(s.takenAt), Merged(StateAt(table, KeyOf(s)), s.state))]
  }

  predicate Old(k: Key, before: string) {
    Dates.Before(k.date, before)
  }

  function Purged(table: map<Key, Snapshot>, before: string): map<Key, Snapshot> {
    map k | k in table && !Old(k, before) :: table[k]
  }

  function Apply(table: map<Key, Snapshot>, op: Op): map<Key, Snapshot> {
    match op
    case Insert(s) => Put(table, s)
    case DeleteBefore(date) => Purged(table, date)
  }

  function Front(ops: seq<Op>): (r: seq<Op>)
    requires ops != []
    ensures |r| == |ops| - 1
  {
    ops[..|ops| - 1]
  }

  /** The table after a sequence of calls, from an empty database. */
  function Run(ops: seq<Op>): map<Key, Snapshot> {
    if ops == [] then map[] else Apply(Run(Front(ops)), ops[|ops| - 1])
  }

  // ----- What the table holds ----------------------------------------------------------

  predicate Inserts(op: Op, k: Key) {
    op.Insert? && KeyOf(op.snapshot) == k
  }

  predicate Removes(op: Op, k: Key) {
    op.DeleteBefore? && Old(k, op.date)
  }

  /** Call `i` inserted for `k` and no later call removed `k`. */
  predicate Counts(ops: seq<Op>, k: Key, i: nat) {
    i < |ops| && Inserts(ops[i], k) && forall j :: i < j < |ops| ==> !Removes(ops[j], k)
  }

  predicate FirstCounts(ops: seq<Op>, k: Key, i: nat) {
    Counts(ops, k, i) && forall j :: 0 <= j < i ==> !Counts(ops, k, j)
  }

  predicate LastCounts(ops: seq<Op>, k: Key, i: nat) {
    Counts(ops, k, i) && forall j :: i < j < |ops| ==> !Counts(ops, k, j)
  }

  /** How one more call changes which insertions count. */
  lemma CountsStep(ops: seq<Op>, k: Key, i: nat)
    requires ops != []
    ensures var n := |ops| - 1;
      Counts(ops, k, i)
      <==> if i < n then Counts(Front(ops), k, i) && !Removes(ops[n], k) else i == n && Inserts(ops[n], k)
  {
    var n := |ops| - 1;
    if i < n && Counts(Front(ops), k, i) && !Removes(ops[n], k) {
      forall j | i < j < |ops| ensures !Removes(ops[j], k) {
        assert j < n ==> Front(ops)[j] == ops[j];
      }
    }
    if i < n && Counts(ops, k, i) {
      forall j | i < j < n ensures !Removes(Front(ops)[j], k) {
        assert Front(ops)[j] == ops[j];
      }
    }
  }

  /** A key is present exactly when one of its insertions was not followed by its removal. */
  lemma {:induction false} PresentIff(ops: seq<Op>, k: Key)
    ensures k in Run(ops) <==> exists i :: Counts(ops, k, i)
  {
    if ops != [] {
      var n := |ops| - 1;
      PresentIff(Front(ops), k);
      CountsStep(ops, k, n);
      if i :| Counts(ops, k, i) {
        CountsStep(ops, k, i);
      }
      if i :| Counts(Front(ops), k, i) {
        CountsStep(ops, k, i);
      }
    }
  }

  /**
   * Last write wins per device and date, but for `first_seen`, which is that of the first
   * insertion since the key was last removed.
   */
  lemma {:induction false} LastWriteWins(ops: seq<Op>, k: Key, first: nat, last: nat)
    requires FirstCounts(ops, k, first) && LastCounts(ops, k, last)
    ensures k in Run(ops)
    ensures var a, b := ops[first].snapshot, ops[last].snapshot;
      Run(ops)[k]
      == Snapshot(k.date, Millisecond(b.takenAt), Millis(b.state).(firstSeen := Millisecond(a.state.firstSeen)))
  {
    var n := |ops| - 1;
    PresentIff(ops, k);
    var before := Front(ops);
    CountsStep(ops, k, n);
    CountsStep(ops, k, first);
    CountsStep(ops, k, last);
    if Inserts(ops[n], k) {
      assert last == n by { assert Counts(ops, k, n); }
      if first < n {
        FirstBefore(ops, k, first);
        var latest := LastOf(before, k, first);
        LastWriteWins(before, k, first, latest);
      } else {
        NoneBefore(ops, k);
        PresentIff(before, k);
      }
    } else {
      assert first < n && last < n && !Removes(ops[n], k);
      FirstBefore(ops, k, first);
      LastBefore(ops, k, last);
      LastWriteWins(before, k, first, last);
    }
  }

  lemma FirstBefore(ops: seq<Op>, k: Key, first: nat)
    requires first < |ops| - 1 && FirstCounts(ops, k, first)
    ensures FirstCounts(Front(ops), k, first)
  {
    CountsStep(ops, k, first);
    forall j | 0 <= j < first ensures !Counts(Front(ops), k, j) {
      CountsStep(ops, k, j);
    }
  }

  lemma LastBefore(ops: seq<Op>, k: Key, last: nat)
    requires last < |ops| - 1 && LastCounts(ops, k, last)
    ensures LastCounts(Front(ops), k, last)
  {
    CountsStep(ops, k, last);
    forall j | last < j < |ops| - 1 ensures !Counts(Front(ops), k, j) {
      CountsStep(ops, k, j);
    }
  }

  lemma NoneBefore(ops: seq<Op>, k: Key)
    requires ops != [] && Inserts(ops[|ops| - 1], k) && FirstCounts(ops, k, |ops| - 1)
    ensures !exists i :: Counts(Front(ops), k, i)
  {
    forall i: nat ensures !Counts(Front(ops), k, i) {
      CountsStep(ops, k, i);
    }
  }

  lemma {:induction false} LastOf(ops: seq<Op>, k: Key, i: nat) returns (last: nat)
    requires Counts(ops, k, i)
    ensures LastCounts(ops, k, last)
    decreases |ops| - i
  {
    if j :| i < j < |ops| && Counts(ops, k, j) {
      last := LastOf(ops, k, j);
    } else {
      last := i;
    }
  }

  // ----- Range queries ----------------------------------------------------------------

  datatype Value = MacValue(mac: Mac) | DateValue(date: string)

  /** A condition on a column and the parameter, numbered from 1, that it refers to. */
  datatype Clause = MacIs(index: nat) | DateAtLeast(index: nat) | DateAtMost(index: nat)

  predicate Satisfies(k: Key, c: Clause, params: seq<Value>) {
    1 <= c.index <= |params| &&
    match (c, params[c.index - 1])
    case (MacIs(_), MacValue(mac)) => k.mac == mac
    case (DateAtLeast(_), DateValue(date)) => !Dates.Before(k.date, date)
    case (DateAtMost(_), DateValue(date)) => !Dates.Before(date, k.date)
    case _ => false
  }

  predicate Where(k: Key, clauses: seq<Clause>, params: seq<Value>) {
    forall i :: 0 <= i < |clauses| ==> Satisfies(k, clauses[i], params)
  }

  /** The rows a caller asks for: one device, from one date to another, both included. */
  predicate InRange(k: Key, mac: Mac, from: Option<string>, to: Option<string>) {
    k.mac == mac && (from.Some? ==> !Dates.Before(k.date, from.value)) && (to.Some? ==> !Dates.Before(to.value, k.date))
  }

  /** The query text of `list_history`: its numbered conditions mean the range. */
  method BuildRange(mac: Mac, from: Option<string>, to: Option<string>)
    returns (clauses: seq<Clause>, params: seq<Value>)
    ensures forall k :: Where(k, clauses, params) <==> InRange(k, mac, from, to)
  {
    clauses, params := [MacIs(1)], [MacValue(mac)];
    var index := 2;
    forall k ensures Where(k, clauses, params) <==> InRange(k, mac, None, None) {
      assert Satisfies(k, clauses[0], params) <==> k.mac == mac;
    }
    if from.Some? {
      ghost var c, p := clauses, params;
      clauses := clauses + [DateAtLeast(index)];
      params := params + [DateValue(from.value)];
      index := index + 1;
      forall k ensures Where(k, clauses, params) <==> InRange(k, mac, from, None) {
        WhereSnoc(k, c, p, DateAtLeast(|p| + 1), DateValue(from.value));
      }
    }
    if to.Some? {
      ghost var c, p := clauses, params;
      clauses := clauses + [DateAtMost(index)];
      params := params + [DateValue(to.value)];
      forall k ensures Where(k, clauses, params) <==> InRange(k, mac, from, to) {
        WhereSnoc(k, c, p, DateAtMost(|p| + 1), DateValue(to.value));
      }
    }
  }

  lemma WhereSnoc(k: Key, clauses: seq<Clause>, params: seq<Value>, c: Clause, v: Value)
    requires c.index == |params| + 1 && forall i :: 0 <= i < |clauses| ==> clauses[i].index <= |params|
    ensures Where(k, clauses + [c], params + [v]) <==> Where(k, clauses, params) && Satisfies(k, c, params + [v])
  {
    var clauses', params' := clauses + [c], params + [v];
    assert clauses'[|clauses|] == c;
    assert forall i :: 0 <= i < |clauses| ==> clauses'[i] == clauses[i];
    assert forall i :: 0 <= i < |clauses| ==> (Satisfies(k, clauses[i], params) <==> Satisfies(k, clauses[i], params'));
  }

  // ----- Listings ------------------------------------------------------------------------

  predicate Ascending(s: seq<Snapshot>) {
    forall i, j :: 0 <= i < j < |s| ==> Dates.Before(s[i].date, s[j].date)
  }

  /** Rows are read back under their own keys. */
  predicate OwnKeys(table: map<Key, Snapshot>) {
    forall k :: k in table ==> KeyOf(table[k]) == k
  }

  /** The snapshots in `s` are those of the keys in `among` that lie in the range. */
  predicate Holds(table: map<Key, Snapshot>, among: set<Key>, mac: Mac, from: Option<string>, to: Option<string>,
                  s: seq<Snapshot>) {
    && (forall x :: x in s ==>
          KeyOf(x) in among && KeyOf(x) in table && table[KeyOf(x)] == x && InRange(KeyOf(x), mac, from, to))
    && (forall k :: k in among && k in table && InRange(k, mac, from, to) ==> table[k] in s)
  }

  /** The rows in range, each once, by strictly ascending date. */
  predicate IsHistory(table: map<Key, Snapshot>, mac: Mac, from: Option<string>, to: Option<string>, s: seq<Snapshot>) {
    Ascending(s) && Holds(table, table.Keys, mac, from, to, s)
  }

  function Take(s: seq<Snapshot>, limit: Option<nat>): seq<Snapshot> {
    if limit.Some? && limit.value < |s| then s[..limit.value] else s
  }

  /** Where a date goes in an ascending sequence that does not have it. */
  method Place(s: seq<Snapshot>, x: Snapshot) returns (at: nat)
    requires Ascending(s) && forall y :: y in s ==> y.date != x.date
    ensures at <= |s|
    ensures Ascending(Inserted(s, at, x))
  {
    at := 0;
    while at < |s| && Dates.Before(s[at].date, x.date)
      invariant at <= |s| && forall i :: 0 <= i < at ==> Dates.Before(s[i].date, x.date)
    {
      at := at + 1;
    }
    forall i | at <= i < |s| ensures Dates.Before(x.date, s[i].date) {
      Dates.BeforeTotal(s[at].date, x.date);
      if i > at {
        Dates.BeforeTransitive(x.date, s[at].date, s[i].date);
      }
    }
    InsertKeepsOrder(s, at, x);
  }

  function Inserted(s: seq<Snapshot>, at: nat, x: Snapshot): (r: seq<Snapshot>)
    requires at <= |s|
    ensures forall y :: y in r <==> y == x || y in s
  {
    assert s == s[..at] + s[at..];
    s[..at] + [x] + s[at..]
  }

  lemma InsertKeepsOrder(s: seq<Snapshot>, at: nat, x: Snapshot)
    requires Ascending(s) && at <= |s|
    requires forall i :: 0 <= i < at ==> Dates.Before(s[i].date, x.date)
    requires forall i :: at <= i < |s| ==> Dates.Before(x.date, s[i].date)
    ensures Ascending(Inserted(s, at, x))
  {
    var r := Inserted(s, at, x);
    forall i, j | 0 <= i < j < |r| ensures Dates.Before(r[i].date, r[j].date) {
      assert j > at ==> r[j] == s[j - 1];
      assert i > at ==> r[i] == s[i - 1];
      assert j < at ==> r[j] == s[j];
      assert i < at ==> r[i] == s[i];
    }
  }

  lemma HoldsStep(table: map<Key, Snapshot>, among: set<Key>, mac: Mac, from: Option<string>, to: Option<string>,
                  s: seq<Snapshot>, k: Key, at: nat)
    requires Holds(table, among, mac, from, to, s) && k in table && k !in among && KeyOf(table[k]) == k && at <= |s|
    ensures InRange(k, mac, from, to) ==> Holds(table, among + {k}, mac, from, to, Inserted(s, at, table[k]))
    ensures !InRange(k, mac, from, to) ==> Holds(table, among + {k}, mac, from, to, s)
  {
  }

  method PlaceRow(s: seq<Snapshot>, k: Key, x: Snapshot, ghost table: map<Key, Snapshot>, ghost among: set<Key>,
                  ghost mac: Mac, ghost from: Option<string>, ghost to: Option<string>) returns (s': seq<Snapshot>)
    requires Ascending(s) && Holds(table, among, mac, from, to, s)
    requires k in table && table[k] == x && k !in among && KeyOf(x) == k && InRange(k, mac, from, to)
    ensures Ascending(s') && Holds(table, among + {k}, mac, from, to, s')
  {
    NewDate(table, among, mac, from, to, s, k);
    var at := Place(s, x);
    HoldsStep(table, among, mac, from, to, s, k, at);
    s' := Inserted(s, at, x);
  }

  /** `SELECT ... WHERE ... ORDER BY snapshot_date ASC` */
  method SelectAscending(rows: map<Key, HistoryRow>, clauses: seq<Clause>, params: seq<Value>,
                         ghost mac: Mac, ghost from: Option<string>, ghost to: Option<string>)
    returns (s: seq<Snapshot>)
    requires OwnKeys(Read(rows))
    requires forall k :: Where(k, clauses, params) <==> InRange(k, mac, from, to)
    ensures IsHistory(Read(rows), mac, from, to, s)
  {
    s := [];
    var rest := rows.Keys;
    ghost var table := Read(rows);
    ghost var done: set<Key> := {};
    while rest != {}
      invariant rest <= rows.Keys && done == rows.Keys - rest
      invariant Ascending(s) && Holds(table, done, mac, from, to, s)
      decreases rest
    {
      var k :| k in rest;
      if Where(k, clauses, params) {
        s := PlaceRow(s, k, SnapshotOf(k, rows[k]), table, done, mac, from, to);
      } else {
        HoldsStep(table, done, mac, from, to, s, k, 0);
      }
      rest := rest - {k};
      done := done + {k};
    }
    assert done == table.Keys;
  }

  lemma NewDate(table: map<Key, Snapshot>, among: set<Key>, mac: Mac, from: Option<string>, to: Option<string>,
                s: seq<Snapshot>, k: Key)
    requires Holds(table, among, mac, from, to, s) && k !in among && k.mac == mac
    ensures forall y :: y in s ==> y.date != k.date
  {
    forall y | y in s ensures y.date != k.date {
      assert KeyOf(y).mac == mac;
    }
  }

  /** There is only one such listing, so the table determines what `list_history` returns. */
  lemma ListingIsUnique(table: map<Key, Snapshot>, mac: Mac, from: Option<string>, to: Option<string>,
                        s: seq<Snapshot>, t: seq<Snapshot>)
    requires IsHistory(table, mac, from, to, s) && IsHistory(table, mac, from, to, t)
    ensures s == t
  {
    forall x ensures x in s <==> x in t {
      assert x in s ==> table[KeyOf(x)] in t;
      assert x in t ==> table[KeyOf(x)] in s;
    }
    AscendingIsUnique(s, t);
  }

  lemma {:induction false} AscendingIsUnique(s: seq<Snapshot>, t: seq<Snapshot>)
    requires Ascending(s) && Ascending(t) && forall x :: x in s <==> x in t
    ensures s == t
  {
    assert s != [] ==> s[0] in s;
    assert t != [] ==> t[0] in t;
    if s != [] {
      SameHead(s, t);
      TailMembers(s);
      TailMembers(t);
      AscendingIsUnique(s[1..], t[1..]);
      assert s == [s[0]] + s[1..] && t == [t[0]] + t[1..];
    }
  }

  lemma SameHead(s: seq<Snapshot>, t: seq<Snapshot>)
    requires Ascending(s) && Ascending(t) && s != [] && t != [] && s[0] in t && t[0] in s
    ensures s[0] == t[0]
  {
    var i :| 0 <= i < |t| && t[i] == s[0];
    var j :| 0 <= j < |s| && s[j] == t[0];
    if i > 0 && j > 0 {
      Dates.BeforeTransitive(t[0].date, s[0].date, t[0].date);
      Dates.BeforeIrreflexive(t[0].date);
    }
  }

  lemma TailMembers(s: seq<Snapshot>)
    requires Ascending(s) && s != []
    ensures Ascending(s[1..]) && forall x :: x in s[1..] <==> x in s && x != s[0]
  {
    assert s == [s[0]] + s[1..];
    forall x | x in s[1..] ensures x != s[0] {
      Dates.BeforeIrreflexive(s[0].date);
    }
  }

  /** A limit keeps the earliest dates: whatever it cuts off is later than everything kept. */
  lemma LimitKeepsEarliest(table: map<Key, Snapshot>, mac: Mac, from: Option<string>, to: Option<string>,
                           full: seq<Snapshot>, limit: Option<nat>, k: Key)
    requires IsHistory(table, mac, from, to, full) && k in table && InRange(k, mac, from, to)
    requires table[k] !in Take(full, limit)
    ensures limit.Some? && |Take(full, limit)| == limit.value < |full|
    ensures forall x :: x in Take(full, limit) ==> Dates.Before(x.date, table[k].date)
  {
    assert table[k] in full;
    var i :| 0 <= i < |full| && full[i] == table[k];
    var kept := Take(full, limit);
    assert forall j :: 0 <= j < |kept| ==> kept[j] == full[j] && kept[j] in kept;
  }

  /** With dates written YYYY-MM-DD, the range is the calendar's. */
  lemma RangeIsCalendar(mac: Mac, day: Dates.Date, from: Dates.Date, to: Dates.Date)
    requires Dates.Writable(day) && Dates.Writable(from) && Dates.Writable(to)
    ensures InRange(Key(mac, Dates.DateText(day)), mac, Some(Dates.DateText(from)), Some(Dates.DateText(to)))
       <==> !Dates.Earlier(day, from) && !Dates.Earlier(to, day)
  {
    Dates.TextOrderIsCalendarOrder(day, from);
    Dates.TextOrderIsCalendarOrder(to, day);
  }

  // ----- The store ---------------------------------------------------------------------------

  function Written(existing: Option<HistoryRow>, s: Snapshot): HistoryRow {
    HistoryRow(s.takenAt / NANOS_PER_MILLI,
               MergedRow(if existing.Some? then Some(existing.value.state) else None, s.state))
  }

  lemma WrittenReadsBack(existing: Option<HistoryRow>, s: Snapshot)
    ensures SnapshotOf(KeyOf(s), Written(existing, s))
         == Snapshot(s.date, Millisecond(s.takenAt),
                     Merged(if existing.Some? then Some(DeviceOf(s.state.mac, existing.value.state)) else None,
                            s.state))
  {
    MergedRowReadsBack(if existing.Some? then Some(existing.value.state) else None, s.state);
  }

  lemma ReadsUnderOwnKeys(rows: map<Key, HistoryRow>)
    ensures OwnKeys(Read(rows))
  {
  }

  lemma PutReads(rows: map<Key, HistoryRow>, s: Snapshot, row: HistoryRow)
    requires row == Written(if KeyOf(s) in rows then Some(rows[KeyOf(s)]) else None, s)
    ensures Read(rows[KeyOf(s) := row]) == Put(Read(rows), s)
  {
    WrittenReadsBack(if KeyOf(s) in rows then Some(rows[KeyOf(s)]) else None, s);
  }

  ghost function Outdated(table: map<Key, Snapshot>, before: string): set<Key> {
    set k | k in table && Old(k, before)
  }

  lemma PurgeReads(rows: map<Key, HistoryRow>, before: string, gone: set<Key>)
    requires gone == set k | k in rows && Dates.Before(k.date, before)
    ensures Read(rows - gone) == Purged(Read(rows), before)
    ensures gone == Outdated(Read(rows), before)
    ensures |rows - gone| + |gone| == |rows|
  {
    assert (rows - gone).Keys == rows.Keys - gone;
  }

  lemma SizeOfRead(rows: map<Key, HistoryRow>)
    ensures |Read(rows)| == |rows|
  {
    assert |Read(rows)| == |Read(rows).Keys| && |rows| == |rows.Keys|;
  }

  class SqliteHistoryStore {
    var rows: map<Key, HistoryRow>

    ghost function Table(): map<Key, Snapshot>
      reads this
    {
      Read(rows)
    }

    constructor ()
      ensures Table() == map[]
    {
      rows := map[];
    }

    /** `INSERT ... ON CONFLICT(mac, snapshot_date) DO UPDATE`, which leaves `first_seen` alone. */
    method InsertSnapshot(s: Snapshot)
      modifies this
      ensures Table() == Apply(old(Table()), Insert(s))
    {
      var k := KeyOf(s);
      var row := Written(if k in rows then Some(rows[k]) else None, s);
      PutReads(rows, s, row);
      rows := rows[k := row];
    }

    /** `DELETE ... WHERE snapshot_date < ?1` */
    method DeleteOlder(before: string) returns (deleted: nat)
      modifies this
      ensures Table() == Apply(old(Table()), DeleteBefore(before))
      ensures deleted == |Outdated(old(Table()), before)|
      ensures |Table()| + deleted == |old(Table())|
    {
      var gone := set k | k in rows && Dates.Before(k.date, before);
      PurgeReads(rows, before, gone);
      SizeOfRead(rows);
      SizeOfRead(rows - gone);
      rows := rows - gone;
      deleted := |gone|;
    }

    method ListHistory(mac: Mac, from: Option<string>, to: Option<string>, limit: Option<nat>)
      returns (r: seq<Snapshot>)
      ensures exists full :: IsHistory(Table(), mac, from, to, full) && r == Take(full, limit)
    {
      var clauses, params := BuildRange(mac, from, to);
      ReadsUnderOwnKeys(rows);
      r := SelectAscending(rows, clauses, params, mac, from, to);
      ghost var full := r;
      r := if limit.Some? && limit.value < |r| then r[..limit.value] else r;
      assert IsHistory(Table(), mac, from, to, full) && r == Take(full, limit);
    }
  }
}
