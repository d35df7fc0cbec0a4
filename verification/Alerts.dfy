/** Alerts, their rows in the alerts table, and the filters for listing them. */
module Alerts {
  import opened Common
  import opened Devices

  datatype Severity = Info | Warning | Critical

  datatype EventType = NewDevice | DeviceOffline | ProtocolChange | Custom(name: string)

  datatype Alert = Alert(
    id: nat, ruleName: string, severity: Severity, eventType: EventType, mac: Mac,
    message: string, snapshot: Device, timestamp: Time, acknowledged: bool)

  datatype AlertFilter = AlertFilter(
    severity: Option<Severity>, acknowledged: Option<bool>, ruleName: Option<string>, limit: Option<nat>)

  // ----- Text forms -------------------------------------------------------------

  function SeverityText(s: Severity): string {
    match s
    case Info => "info"
    case Warning => "warning"
    case Critical => "critical"
  }

  function Lower(s: string): (r: string)
    ensures |r| == |s|
  {
    seq(|s|, i requires 0 <= i < |s| => if 'A' <= s[i] <= 'Z' then s[i] - 'A' + 'a' else s[i])
  }

  /** `FromStr for Severity`, which ignores ASCII case and takes "warn" too. */
  function ParseSeverity(s: string): Option<Severity> {
    var t := Lower(s);
    if t == "info" then Some(Info)
    else if t == "warning" || t == "warn" then Some(Warning)
    else if t == "critical" then Some(Critical)
    else None
  }

  function EventText(e: EventType): string {
    match e
    case NewDevice => "new_device"
    case DeviceOffline => "device_offline"
    case ProtocolChange => "protocol_change"
    case Custom(name) => name
  }

  function ParseEventType(s: string): EventType {
    if s == "new_device" then NewDevice
    else if s == "device_offline" then DeviceOffline
    else if s == "protocol_change" then ProtocolChange
    else Custom(s)
  }

  lemma SeveritySurvives(s: Severity)
    ensures ParseSeverity(SeverityText(s)) == Some(s)
  {
    assert Lower(SeverityText(s)) == SeverityText(s);
  }

  /** The same text up to ASCII case, `lower` being in lower case. */
  predicate Spells(s: string, lower: string) {
    |s| == |lower|
    && forall i :: 0 <= i < |s| ==> s[i] == lower[i] || ('A' <= s[i] <= 'Z' && s[i] as int + 32 == lower[i] as int)
  }

  lemma LowerSpells(s: string, lower: string)
    requires forall i :: 0 <= i < |lower| ==> 'a' <= lower[i] <= 'z'
    ensures Lower(s) == lower <==> Spells(s, lower)
  {
    if Lower(s) == lower {
      forall i | 0 <= i < |s|
        ensures s[i] == lower[i] || ('A' <= s[i] <= 'Z' && s[i] as int + 32 == lower[i] as int)
      {
        assert Lower(s)[i] == lower[i];
      }
    }
    if Spells(s, lower) {
      forall i | 0 <= i < |s| ensures Lower(s)[i] == lower[i] {}
    }
  }

  /** The severities' own names, and one more for warnings, in any case; nothing else is a severity. */
  lemma SeverityParsesIff(s: string, v: Severity)
    ensures ParseSeverity(s) == Some(v)
       <==> Spells(s, SeverityText(v)) || (v.Warning? && Spells(s, "warn"))
  {
    LowerSpells(s, "info");
    LowerSpells(s, "warning");
    LowerSpells(s, "warn");
    LowerSpells(s, "critical");
  }

  /** A custom event type survives storage exactly when it is not named like a built-in one. */
  lemma EventTypeSurvivesIff(e: EventType)
    ensures ParseEventType(EventText(e)) == e
       <==> !(e.Custom? && e.name in ["new_device", "device_offline", "protocol_change"])
  {
  }

  // ----- Rows --------------------------------------------------------------------

  /** A row of the alerts table, its key aside; the flag is an SQL integer. */
  datatype AlertRow = AlertRow(
    ruleName: string, severity: string, eventType: string, mac: Mac,
    message: string, snapshot: Device, timestamp: nat, acknowledged: int)

  function RowOf(a: Alert): AlertRow {
    AlertRow(a.ruleName, SeverityText(a.severity), EventText(a.eventType), a.mac,
             a.message, Millis(a.snapshot), a.timestamp / NANOS_PER_MILLI, if a.acknowledged then 1 else 0)
  }

  /** `row_to_alert` */
  function AlertOf(id: nat, r: AlertRow): Option<Alert> {
    match ParseSeverity(r.severity)
    case None => None
    case Some(severity) =>
      Some(Alert(id, r.ruleName, severity, ParseEventType(r.eventType), r.mac, r.message, r.snapshot,
                 r.timestamp * NANOS_PER_MILLI, r.acknowledged != 0))
  }

  /** What storage may change: parts of a millisecond, and custom names that collide with built-in ones. */
  function Stored(a: Alert): Alert {
    a.(eventType := ParseEventType(EventText(a.eventType)), snapshot := Millis(a.snapshot),
       timestamp := a.timestamp / NANOS_PER_MILLI * NANOS_PER_MILLI)
  }

  lemma RowReadsBack(a: Alert)
    ensures AlertOf(a.id, RowOf(a)) == Some(Stored(a))
  {
    SeveritySurvives(a.severity);
  }

  // ----- Filters -------------------------------------------------------------------

  /** The closure of the in-memory store. */
  predicate Matches(f: AlertFilter, a: Alert) {
    && (f.severity.Some? ==> a.severity == f.severity.value)
    && (f.acknowledged.Some? ==> a.acknowledged == f.acknowledged.value)
    && (f.ruleName.Some? ==> a.ruleName == f.ruleName.value)
  }

  datatype Column = SeverityColumn | AcknowledgedColumn | RuleNameColumn

  datatype Value = Text(text: string) | Number(number: int)

  /** `column = ?index`, parameters being numbered from 1. */
  datatype Clause = Clause(column: Column, index: nat)

  function Field(r: AlertRow, c: Column): Value {
    match c
    case SeverityColumn => Value.Text(r.severity)
    case AcknowledgedColumn => Number(r.acknowledged)
    case RuleNameColumn => Value.Text(r.ruleName)
  }

  /** A clause that refers to a missing parameter holds of nothing. */
  predicate Satisfies(r: AlertRow, c: Clause, params: seq<Value>) {
    1 <= c.index <= |params| && Field(r, c.column) == params[c.index - 1]
  }

  /** The clauses joined by AND; no clause, no WHERE. */
  predicate Where(r: AlertRow, clauses: seq<Clause>, params: seq<Value>) {
    forall i :: 0 <= i < |clauses| ==> Satisfies(r, clauses[i], params)
  }

  lemma WhereSnoc(r: AlertRow, clauses: seq<Clause>, params: seq<Value>, column: Column, v: Value)
    requires forall i :: 0 <= i < |clauses| ==> clauses[i].index <= |params|
    ensures Where(r, clauses + [Clause(column, |params| + 1)], params + [v])
       <==> Where(r, clauses, params) && Field(r, column) == v
  {
    var clauses', params' := clauses + [Clause(column, |params| + 1)], params + [v];
    assert clauses'[|clauses|] == Clause(column, |params| + 1);
    assert forall i :: 0 <= i < |clauses| ==> clauses'[i] == clauses[i];
    assert forall i :: 0 <= i < |clauses| ==> (Satisfies(r, clauses[i], params) <==> Satisfies(r, clauses[i], params'));
  }

  function FilterPart(f: AlertFilter, column: Column): Option<Value> {
    match column
    case SeverityColumn => if f.severity.None? then None else Some(Value.Text(SeverityText(f.severity.value)))
    case AcknowledgedColumn =>
      if f.acknowledged.None? then None else Some(Number(if f.acknowledged.value then 1 else 0))
    case RuleNameColumn => if f.ruleName.None? then None else Some(Value.Text(f.ruleName.value))
  }

  predicate PartHolds(f: AlertFilter, r: AlertRow, column: Column) {
    FilterPart(f, column).Some? ==> Field(r, column) == FilterPart(f, column).value
  }

  lemma PartsAreMatch(f: AlertFilter, a: Alert)
    ensures Matches(f, a) <==>
      (forall c :: PartHolds(f, RowOf(a), c))
  {
    if f.severity.Some? {
      SeveritySurvives(a.severity);
      SeveritySurvives(f.severity.value);
    }
    assert PartHolds(f, RowOf(a), SeverityColumn) <==> (f.severity.Some? ==> a.severity == f.severity.value);
    assert PartHolds(f, RowOf(a), AcknowledgedColumn)
      <==> (f.acknowledged.Some? ==> a.acknowledged == f.acknowledged.value);
    assert PartHolds(f, RowOf(a), RuleNameColumn) <==> (f.ruleName.Some? ==> a.ruleName == f.ruleName.value);
  }

  /** One optional part of `build_filter`: its parameter and the clause that refers to it. */
  method PushPart(f: AlertFilter, column: Column, clauses: seq<Clause>, params: seq<Value>)
    returns (clauses': seq<Clause>, params': seq<Value>)
    requires forall i :: 0 <= i < |clauses| ==> clauses[i].index <= |params|
    ensures forall i :: 0 <= i < |clauses'| ==> clauses'[i].index <= |params'|
    ensures forall r :: Where(r, clauses', params') <==> Where(r, clauses, params) && PartHolds(f, r, column)
  {
    clauses', params' := clauses, params;
    var v := FilterPart(f, column);
    if v.Some? {
      params' := params' + [v.value];
      clauses' := clauses' + [Clause(column, |params'|)];
      forall r {
        WhereSnoc(r, clauses, params, column, v.value);
      }
    }
  }

  /**
   * `build_filter`: the numbered clauses and parameters select a stored alert exactly
   * when the in-memory closure accepts it, for every combination of filters.
   */
  method BuildFilter(f: AlertFilter) returns (clauses: seq<Clause>, params: seq<Value>)
    ensures forall a :: Where(RowOf(a), clauses, params) <==> Matches(f, a)
  {
    clauses, params := [], [];
    clauses, params := PushPart(f, SeverityColumn, clauses, params);
    clauses, params := PushPart(f, AcknowledgedColumn, clauses, params);
    clauses, params := PushPart(f, RuleNameColumn, clauses, params);
    forall a ensures Where(RowOf(a), clauses, params) <==> Matches(f, a) {
      PartsAreMatch(f, a);
    }
  }
}
