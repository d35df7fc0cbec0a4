/** The in-memory and the SQLite alert store, and why a caller cannot tell them apart. */
module AlertStores {
  import opened Common
  import opened Alerts

  // ----- Listings -----------------------------------------------------------------

  function Take<T>(s: seq<T>, limit: Option<nat>): seq<T> {
    if limit.Some? && limit.value < |s| then s[..limit.value] else s
  }

  /** Newest first, ties in any order. */
  predicate NewestFirst(s: seq<Alert>) {
    forall i, j :: 0 <= i < j < |s| ==> s[i].timestamp >= s[j].timestamp
  }

  predicate DistinctIds(s: seq<Alert>) {
    forall i, j :: 0 <= i < j < |s| ==> s[i].id != s[j].id
  }

  /** `s` holds the matching alerts, each once. */
  predicate Selects(alerts: map<nat, Alert>, f: AlertFilter, s: seq<Alert>) {
    && DistinctIds(s)
    && (forall a :: a in s ==> a.id in alerts && alerts[a.id] == a && Matches(f, a))
    && (forall id :: id in alerts && Matches(f, alerts[id]) ==> alerts[id] in s)
  }

  /** A result the in-memory store may list, before the limit: the map's own order decides ties. */
  predicate IsListing(alerts: map<nat, Alert>, f: AlertFilter, s: seq<Alert>) {
    Selects(alerts, f, s) && NewestFirst(s)
  }

  // ----- The in-memory store ---------------------------------------------------------

  /** Alerts are stored under their own ids, all below the next one. */
  predicate Keyed(alerts: map<nat, Alert>, nextId: nat) {
    forall id :: id in alerts ==> alerts[id].id == id && 0 < id < nextId
  }

  class InMemoryAlertStore {
    var alerts: map<nat, Alert>
    var nextId: nat

    ghost predicate Valid()
      reads this
    {
      nextId >= 1 && Keyed(alerts, nextId)
    }

    constructor ()
      ensures Valid() && alerts == map[] && nextId == 1
    {
      alerts, nextId := map[], 1;
    }

    method InsertAlert(alert: Alert) returns (id: nat)
      requires Valid()
      modifies this
      ensures Valid() && id == old(nextId) && nextId == id + 1
      ensures alerts == old(alerts)[id := alert.(id := id)]
    {
      id := nextId;
      nextId := nextId + 1;
      alerts := alerts[id := alert.(id := id)];
    }

    method AcknowledgeAlert(id: nat) returns (ok: bool)
      requires Valid()
      modifies this`alerts
      ensures Valid() && ok == (id in old(alerts))
      ensures alerts == if ok then old(alerts)[id := old(alerts)[id].(acknowledged := true)] else old(alerts)
    {
      ok := id in alerts;
      if ok {
        alerts := alerts[id := alerts[id].(acknowledged := true)];
      }
    }

    method DeleteAlert(id: nat)
      requires Valid()
      modifies this`alerts
      ensures Valid() && alerts == old(alerts) - {id}
    {
      alerts := alerts - {id};
    }

    method CountAlerts() returns (n: nat)
      ensures n == |alerts|
    {
      n := |alerts|;
    }

    method GetAlert(id: nat) returns (r: Option<Alert>)
      ensures r == if id in alerts then Some(alerts[id]) else None
    {
      r := if id in alerts then Some(alerts[id]) else None;
    }

    method IsAcknowledged(ruleName: string, mac: Mac) returns (yes: bool)
      ensures yes <==> Acknowledged(alerts, ruleName, mac)
    {
      var rest := alerts.Keys;
      while rest != {}
        invariant rest <= alerts.Keys
        invariant forall id :: id in alerts && id !in rest ==> !Silences(alerts[id], ruleName, mac)
        decreases rest
      {
        var id :| id in rest;
        if Silences(alerts[id], ruleName, mac) {
          return true;
        }
        rest := rest - {id};
      }
      yes := false;
    }

    /** `list_alerts`: filter in the map's order, sort newest first, cut to the limit. */
    method ListAlerts(f: AlertFilter) returns (r: seq<Alert>)
      requires Valid()
      ensures exists full :: IsListing(alerts, f, full) && r == Take(full, f.limit)
    {
      var sorted: seq<Alert> := [];
      var rest := alerts.Keys;
      while rest != {}
        invariant rest <= alerts.Keys
        invariant Selects(alerts - rest, f, sorted) && NewestFirst(sorted)
        decreases rest
      {
        var id :| id in rest;
        if Matches(f, alerts[id]) {
          var at := Place(sorted, alerts[id]);
          InsertSelects(alerts, rest, f, sorted, id, at);
          InsertKeepsOrder(sorted, at, alerts[id]);
          sorted := Inserted(sorted, at, alerts[id]);
        } else {
          SelectsSkip(alerts, rest, f, sorted, id);
        }
        rest := rest - {id};
      }
      assert alerts - rest == alerts;
      r := if f.limit.Some? && f.limit.value < |sorted| then sorted[..f.limit.value] else sorted;
      assert IsListing(alerts, f, sorted) && r == Take(sorted, f.limit);
    }
  }

  predicate Silences(a: Alert, ruleName: string, mac: Mac) {
    a.ruleName == ruleName && a.mac == mac && a.acknowledged
  }

  predicate Acknowledged(alerts: map<nat, Alert>, ruleName: string, mac: Mac) {
    exists id :: id in alerts && Silences(alerts[id], ruleName, mac)
  }

  /** Where an alert goes in a newest-first sequence: before the first older one. */
  method Place(s: seq<Alert>, a: Alert) returns (at: nat)
    ensures at <= |s|
    ensures forall i :: 0 <= i < at ==> s[i].timestamp >= a.timestamp
    ensures at < |s| ==> s[at].timestamp < a.timestamp
  {
    at := 0;
    while at < |s| && s[at].timestamp >= a.timestamp
      invariant at <= |s| && forall i :: 0 <= i < at ==> s[i].timestamp >= a.timestamp
    {
      at := at + 1;
    }
  }

  lemma SelectsSkip(alerts: map<nat, Alert>, rest: set<nat>, f: AlertFilter, s: seq<Alert>, id: nat)
    requires Selects(alerts - rest, f, s) && id in rest && id in alerts && !Matches(f, alerts[id])
    ensures Selects(alerts - (rest - {id}), f, s)
  {
    assert forall x :: x in alerts - (rest - {id}) && x != id ==> x in alerts - rest;
  }

  function Inserted(s: seq<Alert>, at: nat, a: Alert): (r: seq<Alert>)
    requires at <= |s|
    ensures forall x :: x in r <==> x == a || x in s
  {
    assert s == s[..at] + s[at..];
    s[..at] + [a] + s[at..]
  }

  lemma InsertKeepsOrder(s: seq<Alert>, at: nat, a: Alert)
    requires NewestFirst(s) && at <= |s|
    requires forall i :: 0 <= i < at ==> s[i].timestamp >= a.timestamp
    requires at < |s| ==> s[at].timestamp < a.timestamp
    ensures NewestFirst(Inserted(s, at, a))
  {
    var r := Inserted(s, at, a);
    forall i, j | 0 <= i < j < |r| ensures r[i].timestamp >= r[j].timestamp {
      assert j > at ==> r[j] == s[j - 1];
      assert i > at ==> r[i] == s[i - 1];
    }
  }

  lemma InsertKeepsDistinct(s: seq<Alert>, at: nat, a: Alert)
    requires DistinctIds(s) && at <= |s| && forall x :: x in s ==> x.id != a.id
    ensures DistinctIds(Inserted(s, at, a))
  {
    var r := Inserted(s, at, a);
    forall i, j | 0 <= i < j < |r| ensures r[i].id != r[j].id {
      assert j > at ==> r[j] == s[j - 1];
      assert i > at ==> r[i] == s[i - 1];
      assert j < at ==> r[j] == s[j];
      assert i < at ==> r[i] == s[i];
    }
  }

  lemma InsertSelects(alerts: map<nat, Alert>, rest: set<nat>, f: AlertFilter, s: seq<Alert>, id: nat, at: nat)
    requires Selects(alerts - rest, f, s) && at <= |s|
    requires id in rest && id in alerts && alerts[id].id == id && Matches(f, alerts[id])
    ensures Selects(alerts - (rest - {id}), f, Inserted(s, at, alerts[id]))
  {
    InsertKeepsDistinct(s, at, alerts[id]);
    assert forall x :: x in alerts - (rest - {id}) <==> x == id || x in alerts - rest;
  }

  // ----- The SQLite store ---------------------------------------------------------------

  /** The matching alerts with ids up to `n`, highest id first. */
  function ByIdDown(alerts: map<nat, Alert>, f: AlertFilter, n: nat): seq<Alert> {
    if n == 0 then []
    else if n in alerts && Matches(f, alerts[n]) then [alerts[n]] + ByIdDown(alerts, f, n - 1)
    else ByIdDown(alerts, f, n - 1)
  }

  function StoredAll(s: seq<Alert>): (r: seq<Alert>)
    ensures |r| == |s|
  {
    if s == [] then [] else [Stored(s[0])] + StoredAll(s[1..])
  }

  /** Every row is the row of the alert it stands for. */
  predicate Represents(rows: map<nat, AlertRow>, alerts: map<nat, Alert>) {
    rows.Keys == alerts.Keys && forall id :: id in rows && id in alerts ==> rows[id] == RowOf(alerts[id])
  }

  class SqliteAlertStore {
    var rows: map<nat, AlertRow>
    var sequence: nat             // sqlite_sequence: the largest id ever given out
    ghost var alerts: map<nat, Alert>

    ghost predicate Valid()
      reads this
    {
      Represents(rows, alerts) && Keyed(alerts, sequence + 1)
    }

    constructor ()
      ensures Valid() && alerts == map[] && sequence == 0
    {
      rows, sequence, alerts := map[], 0, map[];
    }

    method InsertAlert(alert: Alert) returns (id: nat)
      requires Valid()
      modifies this
      ensures Valid() && id == old(sequence) + 1 && sequence == id
      ensures alerts == old(alerts)[id := alert.(id := id)]
    {
      id := sequence + 1;
      sequence := id;
      rows := rows[id := RowOf(alert)];
      alerts := alerts[id := alert.(id := id)];
    }

    method AcknowledgeAlert(id: nat) returns (ok: bool)
      requires Valid()
      modifies this`rows, this`alerts
      ensures Valid() && ok == (id in old(alerts))
      ensures alerts == if ok then old(alerts)[id := old(alerts)[id].(acknowledged := true)] else old(alerts)
    {
      ok := id in rows;
      if ok {
        rows := rows[id := rows[id].(acknowledged := 1)];
        alerts := alerts[id := alerts[id].(acknowledged := true)];
      }
    }

    method DeleteAlert(id: nat)
      requires Valid()
      modifies this`rows, this`alerts
      ensures Valid() && alerts == old(alerts) - {id}
    {
      rows := rows - {id};
      alerts := alerts - {id};
    }

    method CountAlerts() returns (n: nat)
      requires Valid()
      ensures n == |alerts|
    {
      assert rows.Keys == alerts.Keys;
      n := |rows|;
    }

    method GetAlert(id: nat) returns (r: Option<Alert>)
      requires Valid()
      ensures r == if id in alerts then Some(Stored(alerts[id])) else None
    {
      if id !in rows {
        return None;
      }
      var alert := ReadRow(id, rows[id], alerts[id]);
      r := Some(alert);
    }

    /** `SELECT COUNT(*) ... acknowledged = 1`, compared with zero. */
    method IsAcknowledged(ruleName: string, mac: Mac) returns (yes: bool)
      requires Valid()
      ensures yes <==> Acknowledged(alerts, ruleName, mac)
    {
      var rest := rows.Keys;
      var count := 0;
      while rest != {}
        invariant rest <= rows.Keys && 0 <= count
        invariant count > 0 <==> exists id :: id in alerts && id !in rest && Silences(alerts[id], ruleName, mac)
        decreases rest
      {
        var id :| id in rest;
        var row := rows[id];
        assert row == RowOf(alerts[id]);
        if row.ruleName == ruleName && row.mac == mac && row.acknowledged == 1 {
          count := count + 1;
          assert Silences(alerts[id], ruleName, mac);
        }
        rest := rest - {id};
      }
      yes := count > 0;
    }

    /** `list_alerts`: the rows that the WHERE clause selects, `ORDER BY id DESC LIMIT`. */
    method ListAlerts(f: AlertFilter) returns (r: seq<Alert>)
      requires Valid()
      ensures r == StoredAll(Take(ByIdDown(alerts, f, sequence), f.limit))
    {
      var clauses, params := BuildFilter(f);
      r := SelectDown(rows, clauses, params, sequence, f, alerts);
      StoredAllTake(ByIdDown(alerts, f, sequence), f.limit);
      r := if f.limit.Some? && f.limit.value < |r| then r[..f.limit.value] else r;
    }
  }

  /** `SELECT ... WHERE ... ORDER BY id DESC` */
  method SelectDown(rows: map<nat, AlertRow>, clauses: seq<Clause>, params: seq<Value>, last: nat,
                    ghost f: AlertFilter, ghost alerts: map<nat, Alert>) returns (r: seq<Alert>)
    requires Represents(rows, alerts) && Keyed(alerts, last + 1)
    requires forall id :: id in alerts ==> (Where(RowOf(alerts[id]), clauses, params) <==> Matches(f, alerts[id]))
    ensures r == StoredAll(ByIdDown(alerts, f, last))
  {
    r := [];
    ghost var picked: seq<Alert> := [];
    var id := last;
    while id > 0
      invariant 0 <= id <= last
      invariant picked + ByIdDown(alerts, f, id) == ByIdDown(alerts, f, last)
      invariant r == StoredAll(picked)
    {
      PickOne(alerts, f, id, picked);
      if id in rows && Where(rows[id], clauses, params) {
        var alert := ReadRow(id, rows[id], alerts[id]);
        picked := picked + [alerts[id]];
        r := r + [alert];
      }
      id := id - 1;
    }
    assert picked + [] == picked;
  }

  method ReadRow(id: nat, row: AlertRow, ghost a: Alert) returns (alert: Alert)
    requires row == RowOf(a) && a.id == id
    ensures alert == Stored(a)
  {
    var read := AlertOf(id, row);
    RowReadsBack(a);
    alert := read.value;
  }

  lemma PickOne(alerts: map<nat, Alert>, f: AlertFilter, id: nat, picked: seq<Alert>)
    requires id > 0
    ensures var more := if id in alerts && Matches(f, alerts[id]) then picked + [alerts[id]] else picked;
      && picked + ByIdDown(alerts, f, id) == more + ByIdDown(alerts, f, id - 1)
      && StoredAll(more) == StoredAll(picked) + (if more == picked then [] else [Stored(alerts[id])])
  {
    var rest := ByIdDown(alerts, f, id - 1);
    if id in alerts && Matches(f, alerts[id]) {
      Shift(picked, alerts[id], rest);
      StoredAllSnoc(picked, alerts[id]);
      assert |picked + [alerts[id]]| != |picked|;
    }
  }

  lemma Shift(a: seq<Alert>, x: Alert, b: seq<Alert>)
    ensures a + ([x] + b) == (a + [x]) + b
  {
  }

  lemma {:induction false} StoredAllSnoc(s: seq<Alert>, a: Alert)
    ensures StoredAll(s + [a]) == StoredAll(s) + [Stored(a)]
  {
    if s == [] {
      assert s + [a] == [a] && [a][1..] == [];
    } else {
      StoredAllSnoc(s[1..], a);
      assert (s + [a])[1..] == s[1..] + [a];
    }
  }

  lemma {:induction false} StoredAllAt(s: seq<Alert>, i: nat)
    requires i < |s|
    ensures StoredAll(s)[i] == Stored(s[i])
  {
    if i > 0 { StoredAllAt(s[1..], i - 1); }
  }

  lemma StoredAllTake(s: seq<Alert>, limit: Option<nat>)
    ensures Take(StoredAll(s), limit) == StoredAll(Take(s, limit))
  {
    forall i | 0 <= i < |Take(s, limit)|
      ensures Take(StoredAll(s), limit)[i] == StoredAll(Take(s, limit))[i]
    {
      StoredAllAt(s, i);
      StoredAllAt(Take(s, limit), i);
    }
  }

  // ----- Equivalence -------------------------------------------------------------------------

  /** Later alerts are newer: timestamps strictly increase with ids. */
  predicate Increasing(alerts: map<nat, Alert>) {
    forall i, j :: i in alerts && j in alerts && i < j ==> alerts[i].timestamp < alerts[j].timestamp
  }

  predicate NonDecreasing(alerts: map<nat, Alert>) {
    forall i, j :: i in alerts && j in alerts && i < j ==> alerts[i].timestamp <= alerts[j].timestamp
  }

  predicate IdsDown(s: seq<Alert>) {
    forall i, j :: 0 <= i < j < |s| ==> s[i].id > s[j].id
  }

  /** `s` is exactly the matching alerts with ids up to `n`. */
  predicate SelectsUpTo(alerts: map<nat, Alert>, f: AlertFilter, s: seq<Alert>, n: nat) {
    && (forall a :: a in s ==> 0 < a.id <= n && a.id in alerts && alerts[a.id] == a && Matches(f, a))
    && (forall id :: 0 < id <= n && id in alerts && Matches(f, alerts[id]) ==> alerts[id] in s)
  }

  predicate OwnIds(alerts: map<nat, Alert>) {
    forall id :: id in alerts ==> alerts[id].id == id
  }

  lemma SkipSelects(alerts: map<nat, Alert>, f: AlertFilter, s: seq<Alert>, n: nat)
    requires n > 0 && !(n in alerts && Matches(f, alerts[n]))
    ensures SelectsUpTo(alerts, f, s, n) <==> SelectsUpTo(alerts, f, s, n - 1)
  {
  }

  lemma TailSelects(alerts: map<nat, Alert>, f: AlertFilter, s: seq<Alert>, n: nat)
    requires OwnIds(alerts)
    requires IdsDown(s) && SelectsUpTo(alerts, f, s, n) && n > 0 && s != [] && s[0].id == n
    ensures IdsDown(s[1..]) && SelectsUpTo(alerts, f, s[1..], n - 1)
  {
    var rest := s[1..];
    forall a | a in rest ensures a in s && a.id <= n - 1 {
      var k :| 0 <= k < |rest| && rest[k] == a;
      assert s[k + 1] == a;
    }
    forall id | 0 < id <= n - 1 && id in alerts && Matches(f, alerts[id]) ensures alerts[id] in rest {
      var k :| 0 <= k < |s| && s[k] == alerts[id];
      assert s[k] == rest[k - 1];
    }
  }

  lemma NothingUpToZero(alerts: map<nat, Alert>, f: AlertFilter, s: seq<Alert>)
    requires SelectsUpTo(alerts, f, s, 0)
    ensures s == []
  {
    if s != [] { HeadIsMember(s); }
  }

  lemma HeadIsMember(s: seq<Alert>)
    requires s != []
    ensures s[0] in s
  {
  }

  /** `s` lists the matching alerts with ids up to `n`, highest id first. */
  predicate ListsDown(alerts: map<nat, Alert>, f: AlertFilter, s: seq<Alert>, n: nat) {
    IdsDown(s) && SelectsUpTo(alerts, f, s, n)
  }

  lemma {:induction false} DescendingIsUnique(alerts: map<nat, Alert>, f: AlertFilter, s: seq<Alert>, n: nat)
    requires OwnIds(alerts) && ListsDown(alerts, f, s, n)
    ensures s == ByIdDown(alerts, f, n)
    decreases n
  {
    if n == 0 {
      NothingUpToZero(alerts, f, s);
    } else if n in alerts && Matches(f, alerts[n]) {
      FirstIsHighest(alerts, f, s, n);
      assert ListsDown(alerts, f, s[1..], n - 1) by { TailSelects(alerts, f, s, n); }
      DescendingIsUnique(alerts, f, s[1..], n - 1);
      DownByHead(alerts, f, s, n);
    } else {
      assert ListsDown(alerts, f, s, n - 1) by { SkipSelects(alerts, f, s, n); }
      DescendingIsUnique(alerts, f, s, n - 1);
    }
  }

  lemma DownByHead(alerts: map<nat, Alert>, f: AlertFilter, s: seq<Alert>, n: nat)
    requires n > 0 && n in alerts && Matches(f, alerts[n]) && s != [] && s[0] == alerts[n]
    requires s[1..] == ByIdDown(alerts, f, n - 1)
    ensures s == ByIdDown(alerts, f, n)
  {
    assert s == [s[0]] + s[1..];
  }

  lemma FirstIsHighest(alerts: map<nat, Alert>, f: AlertFilter, s: seq<Alert>, n: nat)
    requires OwnIds(alerts) && IdsDown(s) && SelectsUpTo(alerts, f, s, n)
    requires n > 0 && n in alerts && Matches(f, alerts[n])
    ensures s != [] && s[0] == alerts[n] && s[0].id == n
  {
    HighestFirst(s, alerts[n]);
  }

  lemma HighestFirst(s: seq<Alert>, a: Alert)
    requires IdsDown(s) && a in s && forall x :: x in s ==> x.id <= a.id
    ensures s != [] && s[0] == a
  {
    var k :| 0 <= k < |s| && s[k] == a;
    assert s[0] in s;
  }

  lemma NewestFirstIsIdsDown(alerts: map<nat, Alert>, f: AlertFilter, s: seq<Alert>)
    requires IsListing(alerts, f, s) && Increasing(alerts)
    ensures IdsDown(s)
  {
    forall i, j | 0 <= i < j < |s| ensures s[i].id > s[j].id {
      assert s[i] in s && s[j] in s;
    }
  }

  /**
   * With strictly increasing timestamps, whatever order the map yields its alerts in, the
   * in-memory store lists exactly the alerts and the order that the SQLite store lists.
   */
  lemma ListingsAgree(alerts: map<nat, Alert>, f: AlertFilter, full: seq<Alert>, last: nat)
    requires Keyed(alerts, last + 1) && Increasing(alerts) && IsListing(alerts, f, full)
    ensures StoredAll(Take(full, f.limit)) == StoredAll(Take(ByIdDown(alerts, f, last), f.limit))
    ensures full == ByIdDown(alerts, f, last)
  {
    NewestFirstIsIdsDown(alerts, f, full);
    DescendingIsUnique(alerts, f, full, last);
  }

  lemma ConsSelects(alerts: map<nat, Alert>, f: AlertFilter, rest: seq<Alert>, n: nat)
    requires n > 0 && n in alerts && alerts[n].id == n && Matches(f, alerts[n])
    requires IdsDown(rest) && SelectsUpTo(alerts, f, rest, n - 1)
    ensures IdsDown([alerts[n]] + rest) && SelectsUpTo(alerts, f, [alerts[n]] + rest, n)
  {
    var s := [alerts[n]] + rest;
    forall i, j | 0 <= i < j < |s| ensures s[i].id > s[j].id {
      assert s[j] == rest[j - 1] && rest[j - 1] in rest;
      assert i > 0 ==> s[i] == rest[i - 1];
    }
  }

  lemma {:induction false} ByIdDownSelects(alerts: map<nat, Alert>, f: AlertFilter, n: nat)
    requires OwnIds(alerts)
    ensures SelectsUpTo(alerts, f, ByIdDown(alerts, f, n), n) && IdsDown(ByIdDown(alerts, f, n))
  {
    if n > 0 {
      ByIdDownSelects(alerts, f, n - 1);
      var rest := ByIdDown(alerts, f, n - 1);
      if n in alerts && Matches(f, alerts[n]) {
        ConsSelects(alerts, f, rest, n);
      } else {
        SkipSelects(alerts, f, rest, n);
      }
    }
  }

  /** Listing by id, as SQLite does, is something the in-memory store may do too. */
  predicate MayListById(alerts: map<nat, Alert>, f: AlertFilter, last: nat) {
    IsListing(alerts, f, ByIdDown(alerts, f, last))
  }

  lemma IdsDownDistinct(s: seq<Alert>)
    requires IdsDown(s)
    ensures DistinctIds(s)
  {
  }

  /**
   * The condition is exact: the order by id is an order the in-memory store may list, for
   * every filter, if and only if no alert is older than one with a smaller id.
   */
  lemma OrdersAgreeIff(alerts: map<nat, Alert>, last: nat)
    requires Keyed(alerts, last + 1)
    ensures (forall f :: MayListById(alerts, f, last)) <==> NonDecreasing(alerts)
  {
    if NonDecreasing(alerts) {
      forall f ensures MayListById(alerts, f, last) {
        ByIdDownSelects(alerts, f, last);
        IdsDownDistinct(ByIdDown(alerts, f, last));
        OldestLast(alerts, ByIdDown(alerts, f, last));
      }
    } else {
      var i, j :| i in alerts && j in alerts && i < j && alerts[i].timestamp > alerts[j].timestamp;
      OutOfOrder(alerts, last, i, j);
    }
  }

  lemma OutOfOrder(alerts: map<nat, Alert>, last: nat, i: nat, j: nat)
    requires Keyed(alerts, last + 1) && i in alerts && j in alerts && i < j
    requires alerts[i].timestamp > alerts[j].timestamp
    ensures !MayListById(alerts, AlertFilter(None, None, None, None), last)
  {
    var all := AlertFilter(None, None, None, None);
    var s := ByIdDown(alerts, all, last);
    ByIdDownSelects(alerts, all, last);
    assert alerts[i] in s && alerts[j] in s;
    var a :| 0 <= a < |s| && s[a] == alerts[i];
    var b :| 0 <= b < |s| && s[b] == alerts[j];
    assert b < a;
  }

  lemma OldestLast(alerts: map<nat, Alert>, s: seq<Alert>)
    requires NonDecreasing(alerts) && IdsDown(s) && forall a :: a in s ==> a.id in alerts && alerts[a.id] == a
    ensures NewestFirst(s)
  {
    forall i, j | 0 <= i < j < |s| ensures s[i].timestamp >= s[j].timestamp {
      assert s[i] in s && s[j] in s;
    }
  }

  // ----- Whole runs of both stores -------------------------------------------------------------

  datatype Op =
    | Insert(alert: Alert) | Acknowledge(id: nat) | Delete(id: nat)
    | Count | Get(id: nat) | Ask(ruleName: string, mac: Mac) | List(filter: AlertFilter)

  /** What an operation returns. */
  datatype Reply =
    | Given(id: nat) | Found(ok: bool) | Gone
    | Tally(n: nat) | Fetched(alert: Option<Alert>) | Answer(yes: bool) | Listed(alerts: seq<Alert>)

  /** A reply, up to what storage changes in the alerts it carries. */
  function StoredReply(r: Reply): Reply {
    match r
    case Fetched(Some(a)) => Fetched(Some(Stored(a)))
    case Listed(alerts) => Listed(StoredAll(alerts))
    case _ => r
  }

  function StoredReplies(rs: seq<Reply>): (r: seq<Reply>)
    ensures |r| == |rs|
  {
    seq(|rs|, i requires 0 <= i < |rs| => StoredReply(rs[i]))
  }

  /** The alerts after an operation that is given the id `next` if it inserts. */
  function After(alerts: map<nat, Alert>, next: nat, op: Op): map<nat, Alert> {
    match op
    case Insert(a) => alerts[next := a.(id := next)]
    case Acknowledge(id) => Marked(alerts, id)
    case Delete(id) => alerts - {id}
    case _ => alerts
  }

  function NextAfter(next: nat, op: Op): nat {
    if op.Insert? then next + 1 else next
  }

  /** The reply, listings aside, as the alerts determine it. */
  function PlainReply(alerts: map<nat, Alert>, next: nat, op: Op): Reply {
    match op
    case Insert(_) => Given(next)
    case Acknowledge(id) => Found(id in alerts)
    case Delete(_) => Gone
    case Count => Tally(|alerts|)
    case Get(id) => Fetched(if id in alerts then Some(alerts[id]) else None)
    case Ask(ruleName, mac) => Answer(Acknowledged(alerts, ruleName, mac))
    case List(_) => Listed([])
  }

  function InsertedAlerts(ops: seq<Op>): seq<Alert> {
    if ops == [] then []
    else InsertedAlerts(ops[..|ops| - 1]) + (if ops[|ops| - 1].Insert? then [ops[|ops| - 1].alert] else [])
  }

  predicate Newer(s: seq<Alert>) {
    forall i, j :: 0 <= i < j < |s| ==> s[i].timestamp < s[j].timestamp
  }

  /** Every stored alert was inserted before everything still to come. */
  predicate AllFrom(alerts: map<nat, Alert>, inserted: seq<Alert>) {
    forall id :: id in alerts ==> exists k :: 0 <= k < |inserted| && inserted[k].timestamp == alerts[id].timestamp
  }

  function Marked(alerts: map<nat, Alert>, id: nat): map<nat, Alert> {
    if id in alerts then alerts[id := alerts[id].(acknowledged := true)] else alerts
  }

  /** A reply the in-memory store may give: the map's own order decides ties in listings. */
  ghost predicate MemReply(alerts: map<nat, Alert>, next: nat, op: Op, r: Reply) {
    if op.List? then exists full :: IsListing(alerts, op.filter, full) && r == Listed(Take(full, op.filter.limit))
    else r == PlainReply(alerts, next, op)
  }

  /** The reply the SQLite store gives. */
  function SqlReply(alerts: map<nat, Alert>, next: nat, op: Op): Reply
    requires next > 0
  {
    if op.List? then Listed(StoredAll(Take(ByIdDown(alerts, op.filter, next - 1), op.filter.limit)))
    else StoredReply(PlainReply(alerts, next, op))
  }

  /** The alerts and the next id after a sequence of calls on a fresh store. */
  function AlertsAfter(ops: seq<Op>): map<nat, Alert> {
    if ops == [] then map[] else After(AlertsAfter(ops[..|ops| - 1]), NextId(ops[..|ops| - 1]), ops[|ops| - 1])
  }

  function NextId(ops: seq<Op>): (next: nat)
    ensures next > 0
  {
    if ops == [] then 1 else NextAfter(NextId(ops[..|ops| - 1]), ops[|ops| - 1])
  }

  /** A sequence of replies that a fresh in-memory store may give. */
  ghost predicate MemRun(ops: seq<Op>, rs: seq<Reply>) {
    |rs| == |ops|
    && (ops == [] ||
        var n := |ops| - 1;
        MemRun(ops[..n], rs[..n]) && MemReply(AlertsAfter(ops[..n]), NextId(ops[..n]), ops[n], rs[n]))
  }

  /** The replies that a fresh SQLite store gives. */
  function SqlRun(ops: seq<Op>): (rs: seq<Reply>)
    ensures |rs| == |ops|
  {
    if ops == [] then []
    else
      var n := |ops| - 1;
      SqlRun(ops[..n]) + [SqlReply(AlertsAfter(ops[..n]), NextId(ops[..n]), ops[n])]
  }

  /** One call of the in-memory store. */
  method ReplyOf(mem: InMemoryAlertStore, op: Op) returns (r: Reply)
    requires mem.Valid()
    modifies mem
    ensures mem.Valid()
    ensures mem.alerts == After(old(mem.alerts), old(mem.nextId), op) && mem.nextId == NextAfter(old(mem.nextId), op)
    ensures MemReply(old(mem.alerts), old(mem.nextId), op, r)
  {
    match op
    case Insert(a) =>
      var id := mem.InsertAlert(a);
      r := Given(id);
    case Acknowledge(id) =>
      var ok := mem.AcknowledgeAlert(id);
      r := Found(ok);
    case Delete(id) =>
      mem.DeleteAlert(id);
      r := Gone;
    case Count =>
      var n := mem.CountAlerts();
      r := Tally(n);
    case Get(id) =>
      var alert := mem.GetAlert(id);
      r := Fetched(alert);
    case Ask(ruleName, mac) =>
      var yes := mem.IsAcknowledged(ruleName, mac);
      r := Answer(yes);
    case List(filter) =>
      var alerts := mem.ListAlerts(filter);
      r := Listed(alerts);
  }

  predicate Writes(op: Op) {
    op.Insert? || op.Acknowledge? || op.Delete?
  }

  /** One call of the SQLite store. */
  method SqlReplyOf(sql: SqliteAlertStore, op: Op) returns (r: Reply)
    requires sql.Valid()
    modifies sql
    ensures sql.Valid()
    ensures sql.alerts == After(old(sql.alerts), old(sql.sequence) + 1, op)
    ensures sql.sequence + 1 == NextAfter(old(sql.sequence) + 1, op)
    ensures r == SqlReply(old(sql.alerts), old(sql.sequence) + 1, op)
  {
    if Writes(op) {
      r := SqlWrite(sql, op);
    } else {
      QueryKeeps(sql.alerts, sql.sequence + 1, op);
      r := SqlQuery(sql, op);
    }
  }

  lemma QueryKeeps(alerts: map<nat, Alert>, next: nat, op: Op)
    requires !Writes(op)
    ensures After(alerts, next, op) == alerts && NextAfter(next, op) == next
  {
  }

  method SqlWrite(sql: SqliteAlertStore, op: Op) returns (r: Reply)
    requires sql.Valid() && Writes(op)
    modifies sql
    ensures sql.Valid()
    ensures sql.alerts == After(old(sql.alerts), old(sql.sequence) + 1, op)
    ensures sql.sequence + 1 == NextAfter(old(sql.sequence) + 1, op)
    ensures r == SqlReply(old(sql.alerts), old(sql.sequence) + 1, op)
  {
    match op
    case Insert(a) =>
      var id := sql.InsertAlert(a);
      r := Given(id);
    case Acknowledge(id) =>
      var ok := sql.AcknowledgeAlert(id);
      r := Found(ok);
    case Delete(id) =>
      sql.DeleteAlert(id);
      r := Gone;
  }

  method SqlQuery(sql: SqliteAlertStore, op: Op) returns (r: Reply)
    requires sql.Valid() && !Writes(op)
    ensures r == SqlReply(sql.alerts, sql.sequence + 1, op)
  {
    match op
    case Count =>
      var n := sql.CountAlerts();
      r := Tally(n);
    case Get(id) =>
      var alert := sql.GetAlert(id);
      r := Fetched(alert);
    case Ask(ruleName, mac) =>
      var yes := sql.IsAcknowledged(ruleName, mac);
      r := Answer(yes);
    case List(filter) =>
      var alerts := sql.ListAlerts(filter);
      r := Listed(alerts);
  }

  lemma StaysIncreasing(alerts: map<nat, Alert>, next: nat, inserted: seq<Alert>, a: Alert)
    requires Keyed(alerts, next) && Increasing(alerts) && AllFrom(alerts, inserted) && Newer(inserted + [a])
    ensures Increasing(alerts[next := a.(id := next)]) && AllFrom(alerts[next := a.(id := next)], inserted + [a])
  {
    var more, all := alerts[next := a.(id := next)], inserted + [a];
    forall id | id in alerts
      ensures alerts[id].timestamp < a.timestamp
      ensures exists k :: 0 <= k < |all| && all[k].timestamp == alerts[id].timestamp
    {
      var k :| 0 <= k < |inserted| && inserted[k].timestamp == alerts[id].timestamp;
      assert all[k] == inserted[k] && all[|inserted|] == a;
    }
    assert all[|inserted|].timestamp == more[next].timestamp;
  }

  lemma StaysIncreasingMarked(alerts: map<nat, Alert>, inserted: seq<Alert>, id: nat)
    requires Increasing(alerts) && AllFrom(alerts, inserted)
    ensures Increasing(Marked(alerts, id)) && AllFrom(Marked(alerts, id), inserted)
    ensures Increasing(alerts - {id}) && AllFrom(alerts - {id}, inserted)
  {
    assert forall x :: x in alerts ==> Marked(alerts, id)[x].timestamp == alerts[x].timestamp;
  }

  /** Ids below the next one, newer alerts under higher ids, and none that was not inserted. */
  ghost predicate InOrder(alerts: map<nat, Alert>, next: nat, inserted: seq<Alert>) {
    Keyed(alerts, next) && Increasing(alerts) && AllFrom(alerts, inserted)
  }

  lemma KeyedAfter(alerts: map<nat, Alert>, next: nat, op: Op)
    requires Keyed(alerts, next) && next > 0
    ensures Keyed(After(alerts, next, op), NextAfter(next, op))
  {
  }

  /** What one operation keeps of the order of ids and timestamps. */
  lemma OrderKept(alerts: map<nat, Alert>, next: nat, inserted: seq<Alert>, op: Op)
    requires InOrder(alerts, next, inserted) && next > 0
    requires op.Insert? ==> Newer(inserted + [op.alert])
    ensures InOrder(After(alerts, next, op), NextAfter(next, op),
                    if op.Insert? then inserted + [op.alert] else inserted)
  {
    KeyedAfter(alerts, next, op);
    if op.Insert? {
      StaysIncreasing(alerts, next, inserted, op.alert);
    } else if op.Acknowledge? || op.Delete? {
      StaysIncreasingMarked(alerts, inserted, op.id);
    }
  }

  lemma {:induction false} RunsStayOrdered(ops: seq<Op>)
    requires Newer(InsertedAlerts(ops))
    ensures InOrder(AlertsAfter(ops), NextId(ops), InsertedAlerts(ops))
  {
    if ops != [] {
      var n := |ops| - 1;
      InsertedSnoc(ops);
      RunsStayOrdered(ops[..n]);
      OrderKept(AlertsAfter(ops[..n]), NextId(ops[..n]), InsertedAlerts(ops[..n]), ops[n]);
    }
  }

  lemma InsertedSnoc(ops: seq<Op>)
    requires ops != [] && Newer(InsertedAlerts(ops))
    ensures var n := |ops| - 1;
      && Newer(InsertedAlerts(ops[..n]))
      && InsertedAlerts(ops)
         == if ops[n].Insert? then InsertedAlerts(ops[..n]) + [ops[n].alert] else InsertedAlerts(ops[..n])
  {
    assert InsertedAlerts(ops[..|ops| - 1]) <= InsertedAlerts(ops);
  }

  /** One call: any reply of the in-memory store is the SQLite store's, up to what storage changes. */
  lemma RepliesAgree(alerts: map<nat, Alert>, next: nat, op: Op, r: Reply)
    requires next > 0 && Keyed(alerts, next) && Increasing(alerts) && MemReply(alerts, next, op, r)
    ensures StoredReply(r) == SqlReply(alerts, next, op)
  {
    if op.List? {
      var full :| IsListing(alerts, op.filter, full) && r == Listed(Take(full, op.filter.limit));
      ListingsAgree(alerts, op.filter, full, next - 1);
    }
  }

  /**
   * Store equivalence: for every sequence of calls with strictly increasing alert timestamps,
   * every sequence of replies that the in-memory store may give is the one that the SQLite
   * store gives, up to what storage changes (`Stored`) in the alerts that a reply carries.
   */
  lemma {:induction false} StoresAgree(ops: seq<Op>, rs: seq<Reply>)
    requires Newer(InsertedAlerts(ops)) && MemRun(ops, rs)
    ensures StoredReplies(rs) == SqlRun(ops)
  {
    if ops != [] {
      var n := |ops| - 1;
      InsertedSnoc(ops);
      StoresAgree(ops[..n], rs[..n]);
      RunsStayOrdered(ops[..n]);
      RepliesAgree(AlertsAfter(ops[..n]), NextId(ops[..n]), ops[n], rs[n]);
      StoredRepliesSnoc(rs[..n], rs[n]);
      assert rs == rs[..n] + [rs[n]];
    }
  }

  /** One call of both stores, which hold the same alerts before and after it. */
  method StepBoth(mem: InMemoryAlertStore, sql: SqliteAlertStore, op: Op) returns (r: Reply, q: Reply)
    requires mem.Valid() && sql.Valid() && mem.alerts == sql.alerts && mem.nextId == sql.sequence + 1
    modifies mem, sql
    ensures mem.Valid() && sql.Valid() && mem.alerts == sql.alerts && mem.nextId == sql.sequence + 1
    ensures mem.alerts == After(old(mem.alerts), old(mem.nextId), op) && mem.nextId == NextAfter(old(mem.nextId), op)
    ensures MemReply(old(mem.alerts), old(mem.nextId), op, r) && q == SqlReply(old(mem.alerts), old(mem.nextId), op)
  {
    r := ReplyOf(mem, op);
    q := SqlReplyOf(sql, op);
  }

  /** Both stores, fresh and given the same calls, reply as these sequences say. */
  method RunBoth(ops: seq<Op>) returns (memReplies: seq<Reply>, sqlReplies: seq<Reply>)
    ensures MemRun(ops, memReplies) && sqlReplies == SqlRun(ops)
    ensures Newer(InsertedAlerts(ops)) ==> sqlReplies == StoredReplies(memReplies)
  {
    var mem := new InMemoryAlertStore();
    var sql := new SqliteAlertStore();
    memReplies, sqlReplies := [], [];
    var i := 0;
    while i < |ops|
      invariant 0 <= i <= |ops|
      invariant fresh(mem) && fresh(sql) && mem.Valid() && sql.Valid()
      invariant mem.alerts == sql.alerts && mem.nextId == sql.sequence + 1
      invariant Ran(ops[..i], mem.alerts, mem.nextId, memReplies, sqlReplies)
    {
      ghost var alerts, next := mem.alerts, mem.nextId;
      var r, q := StepBoth(mem, sql, ops[i]);
      RanOne(ops, i, alerts, next, memReplies, sqlReplies, r);
      memReplies, sqlReplies := memReplies + [r], sqlReplies + [q];
      i := i + 1;
    }
    assert ops[..i] == ops;
    RanAll(ops, mem.alerts, mem.nextId, memReplies, sqlReplies);
  }

  /** Where both stores are after `ops`, and what they have replied. */
  ghost predicate Ran(ops: seq<Op>, alerts: map<nat, Alert>, next: nat, rs: seq<Reply>, qs: seq<Reply>) {
    alerts == AlertsAfter(ops) && next == NextId(ops) && MemRun(ops, rs) && qs == SqlRun(ops)
  }

  lemma RanOne(ops: seq<Op>, i: nat, alerts: map<nat, Alert>, next: nat, rs: seq<Reply>, qs: seq<Reply>, r: Reply)
    requires i < |ops| && Ran(ops[..i], alerts, next, rs, qs) && MemReply(alerts, next, ops[i], r)
    ensures Ran(ops[..i + 1], After(alerts, next, ops[i]), NextAfter(next, ops[i]), rs + [r],
                qs + [SqlReply(alerts, next, ops[i])])
  {
    assert ops[..i + 1][..i] == ops[..i] && (rs + [r])[..i] == rs;
  }

  lemma RanAll(ops: seq<Op>, alerts: map<nat, Alert>, next: nat, rs: seq<Reply>, qs: seq<Reply>)
    requires Ran(ops, alerts, next, rs, qs)
    ensures Newer(InsertedAlerts(ops)) ==> qs == StoredReplies(rs)
  {
    if Newer(InsertedAlerts(ops)) {
      StoresAgree(ops, rs);
    }
  }

  lemma StoredRepliesSnoc(rs: seq<Reply>, r: Reply)
    ensures StoredReplies(rs + [r]) == StoredReplies(rs) + [StoredReply(r)]
  {
  }
}
