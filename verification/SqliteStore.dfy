/** `SqliteStore` as the object it is, used by one thread: the cache, the dirty set and text rows. */
module SqliteStore {
  import opened Common
  import opened Devices
  import WriteBack

  type Table = map<Mac, Row>

  /** The devices that the rows of a table read back as. */
  function ReadTable(table: Table): map<Mac, Device> {
    map m | m in table :: DeviceOf(m, table[m])
  }

  /** The rows after storing those of `macs` that are cached. */
  function Flushed(rows: map<Mac, Device>, cache: map<Mac, Device>, macs: set<Mac>): map<Mac, Device> {
    map m | m in rows.Keys + (macs * cache.Keys) ::
      if m in macs && m in cache then Merged(WriteBack.Lookup(rows, m), cache[m]) else rows[m]
  }

  lemma ReadTablePut(table: Table, m: Mac, row: Row)
    ensures ReadTable(table[m := row]) == ReadTable(table)[m := DeviceOf(m, row)]
  {
  }

  lemma FlushedPut(rows: map<Mac, Device>, cache: map<Mac, Device>, macs: set<Mac>, m: Mac)
    requires m !in macs && m in cache
    ensures WriteBack.Lookup(Flushed(rows, cache, macs), m) == WriteBack.Lookup(rows, m)
    ensures Flushed(rows, cache, macs + {m})
         == Flushed(rows, cache, macs)[m := Merged(WriteBack.Lookup(rows, m), cache[m])]
  {
    var a, b := Flushed(rows, cache, macs + {m}), Flushed(rows, cache, macs);
    assert a.Keys == b.Keys + {m};
    assert forall x :: x in b && x != m ==> a[x] == b[x];
  }

  /** The statement `flush` executes for one device: the row to write over `existing`. */
  method BindRow(existing: Option<Row>, d: Device) returns (row: Row)
    ensures DeviceOf(d.mac, row) == Merged(if existing.Some? then Some(DeviceOf(d.mac, existing.value)) else None, d)
  {
    row := MergedRow(existing, d);
    MergedRowReadsBack(existing, d);
  }

  /** Storing one more MAC's row, as text, moves the rows on by that MAC. */
  lemma FlushedOneMore(table: Table, rows: map<Mac, Device>, cache: map<Mac, Device>, macs: set<Mac>, m: Mac, row: Row)
    requires ReadTable(table) == Flushed(rows, cache, macs)
    requires m !in macs && m in cache && cache[m].mac == m
    requires DeviceOf(m, row) == Merged(if m in table then Some(DeviceOf(m, table[m])) else None, cache[m])
    ensures ReadTable(table[m := row]) == Flushed(rows, cache, macs + {m})
  {
    ReadTablePut(table, m, row);
    FlushedPut(rows, cache, macs, m);
    assert WriteBack.Lookup(ReadTable(table), m) == if m in table then Some(DeviceOf(m, table[m])) else None;
  }

  predicate FreshIn(rows: map<Mac, Device>, cache: map<Mac, Device>, m: Mac) {
    WriteBack.SameColumns(WriteBack.Lookup(rows, m), WriteBack.Lookup(cache, m))
  }

  /** Stored MACs become fresh, the others stay as fresh as they were. */
  lemma FlushedFreshness(rows: map<Mac, Device>, cache: map<Mac, Device>, macs: set<Mac>, m: Mac)
    requires m in cache && (m in macs || FreshIn(rows, cache, m))
    ensures FreshIn(Flushed(rows, cache, macs), cache, m)
  {
  }

  lemma FlushedNothing(rows: map<Mac, Device>, cache: map<Mac, Device>)
    ensures Flushed(rows, cache, {}) == rows
  {
  }

  lemma ElementsSnoc(order: seq<Mac>, m: Mac)
    ensures WriteBack.Elements(order + [m]) == WriteBack.Elements(order) + {m}
  {
  }

  /** The elements of a set in some order, as a `DashSet` iterator yields them. */
  method Collect(macs: set<Mac>) returns (order: seq<Mac>)
    ensures WriteBack.Elements(order) == macs && WriteBack.Distinct(order) && |order| == |macs|
  {
    order := [];
    var rest := macs;
    while rest != {}
      invariant rest <= macs && WriteBack.Elements(order) == macs - rest
      invariant WriteBack.Distinct(order) && |order| + |rest| == |macs|
      decreases rest
    {
      var m :| m in rest;
      assert forall i :: 0 <= i < |order| ==> order[i] in WriteBack.Elements(order);
      ElementsSnoc(order, m);
      order, rest := order + [m], rest - {m};
    }
  }

  // ----- A flush as steps of the interleaved protocol -----------------------------------

  /** The states that the steps pass through, from `s` to `t`. */
  predicate Trail(states: seq<WriteBack.State>, steps: seq<WriteBack.Step>, s: WriteBack.State, t: WriteBack.State) {
    WriteBack.Chain(states, steps) && states[0] == s && states[|steps|] == t
  }

  /** The steps, each enabled when it is taken, lead from `s` to `t`. */
  ghost predicate Leads(s: WriteBack.State, steps: seq<WriteBack.Step>, t: WriteBack.State) {
    exists states :: Trail(states, steps, s, t)
  }

  lemma NoStep(s: WriteBack.State)
    ensures Leads(s, [], s)
  {
    assert Trail([s], [], s, s);
  }

  lemma OneMoreStep(s: WriteBack.State, steps: seq<WriteBack.Step>, t: WriteBack.State, step: WriteBack.Step,
                    u: WriteBack.State)
    requires Leads(s, steps, t) && WriteBack.Moves(t, step, u)
    ensures Leads(s, steps + [step], u)
  {
    var states :| Trail(states, steps, s, t);
    LongerChain(states, steps, step);
    assert Trail(states + [u], steps + [step], s, u);
  }

  lemma TwoMoreSteps(s: WriteBack.State, steps: seq<WriteBack.Step>, t: WriteBack.State, first: WriteBack.Step,
                     u: WriteBack.State, second: WriteBack.Step, v: WriteBack.State)
    requires Leads(s, steps, t) && WriteBack.Moves(t, first, u) && WriteBack.Moves(u, second, v)
    ensures Leads(s, steps + [first] + [second], v)
  {
    OneMoreStep(s, steps, t, first, u);
    OneMoreStep(s, steps + [first], u, second, v);
  }

  lemma LongerChain(states: seq<WriteBack.State>, steps: seq<WriteBack.Step>, step: WriteBack.Step)
    requires WriteBack.Chain(states, steps) && WriteBack.Enabled(states[|steps|], step)
    ensures WriteBack.Chain(states + [WriteBack.Apply(states[|steps|], step)], steps + [step])
  {
    var states', steps' := states + [WriteBack.Apply(states[|steps|], step)], steps + [step];
    forall j | 0 <= j < |steps'| ensures WriteBack.Linked(states', steps', j) {
      assert j < |steps| ==> WriteBack.Linked(states, steps, j);
    }
  }

  /** What the class does in a call continues any run of the protocol. */
  lemma RunGoesOn(table: map<Mac, Device>, all: seq<WriteBack.Step>, k: nat, t: WriteBack.State)
    requires k <= |all| && WriteBack.IsRun(table, all[..k]) && Leads(WriteBack.After(table, all[..k]), all[k..], t)
    ensures WriteBack.IsRun(table, all) && WriteBack.After(table, all) == t
  {
    var states :| Trail(states, all[k..], WriteBack.After(table, all[..k]), t);
    forall i: nat | i < |all| && Follows(table, all, k, states, i) ensures Follows(table, all, k, states, i + 1) {
      ChainMoves(states, all, k, i);
      RunMoves(table, all, i, states[i - k], states[i + 1 - k]);
    }
    StepByStep(k, |all|, (i: nat) => Follows(table, all, k, states, i));
    assert all[..|all|] == all;
  }

  /** After `i` steps of a run, the last `i - k` of which pass through `states`. */
  predicate Follows(table: map<Mac, Device>, all: seq<WriteBack.Step>, k: nat, states: seq<WriteBack.State>, i: nat) {
    && k <= i <= |all| && i - k < |states|
    && WriteBack.IsRun(table, all[..i]) && WriteBack.After(table, all[..i]) == states[i - k]
  }

  lemma ChainMoves(states: seq<WriteBack.State>, all: seq<WriteBack.Step>, k: nat, i: nat)
    requires k <= i < |all| && WriteBack.Chain(states, all[k..])
    ensures WriteBack.Moves(states[i - k], all[i], states[i + 1 - k])
  {
    assert WriteBack.Linked(states, all[k..], i - k);
  }

  lemma RunMoves(table: map<Mac, Device>, all: seq<WriteBack.Step>, i: nat, s: WriteBack.State, t: WriteBack.State)
    requires i < |all| && WriteBack.IsRun(table, all[..i]) && WriteBack.After(table, all[..i]) == s
    requires WriteBack.Moves(s, all[i], t)
    ensures WriteBack.IsRun(table, all[..i + 1]) && WriteBack.After(table, all[..i + 1]) == t
  {
    WriteBack.ExtendRun(table, all[..i], all[i], s);
    assert all[..i + 1] == all[..i] + [all[i]];
  }

  /** The snapshot and the first `k` reads and stores of a flush. */
  function WriteSteps(order: seq<Mac>, k: nat): seq<WriteBack.Step>
    requires k <= |order|
  {
    if k == 0 then [WriteBack.Snapshot(order)]
    else WriteSteps(order, k - 1) + [WriteBack.Read(order[k - 1])] + [WriteBack.Store(order[k - 1])]
  }

  /** All of the writing loop and the first `k` un-marks. */
  function UnmarkSteps(order: seq<Mac>, k: nat): seq<WriteBack.Step>
    requires k <= |order|
  {
    if k == 0 then WriteSteps(order, |order|) + [WriteBack.Stored]
    else UnmarkSteps(order, k - 1) + [WriteBack.Unmark(order[k - 1])]
  }

  /** A whole flush, in which the statement numbered `failing` is refused, if there is one. */
  function FlushSteps(order: seq<Mac>, failing: int): seq<WriteBack.Step> {
    if order == [] then [WriteBack.Snapshot([])]
    else if 0 <= failing < |order| then
      WriteSteps(order, failing) + [WriteBack.Read(order[failing])] + [WriteBack.StoreFails]
    else UnmarkSteps(order, |order|) + [WriteBack.Done]
  }

  /** No flush runs, and `order` is what a snapshot of the dirty set may yield. */
  predicate Ready(s: WriteBack.State, order: seq<Mac>) {
    && s.flush.Idle? && WriteBack.Keyed(s.cache)
    && WriteBack.Distinct(order) && WriteBack.Elements(order) == s.dirty
    && forall i :: 0 <= i < |order| ==> order[i] in s.cache
  }

  /** The first `k` MACs. */
  function FirstOf(order: seq<Mac>, k: nat): set<Mac>
    requires k <= |order|
  {
    if k == 0 then {} else FirstOf(order, k - 1) + {order[k - 1]}
  }

  lemma {:induction false} FirstOfIs(order: seq<Mac>, k: nat)
    requires k <= |order|
    ensures forall m :: m in FirstOf(order, k) <==> exists i :: 0 <= i < k && order[i] == m
  {
    if k > 0 { FirstOfIs(order, k - 1); }
  }

  lemma FirstOfAll(order: seq<Mac>)
    ensures FirstOf(order, |order|) == WriteBack.Elements(order)
  {
    FirstOfIs(order, |order|);
  }

  lemma NotYetFirst(order: seq<Mac>, k: nat)
    requires k < |order| && WriteBack.Distinct(order)
    ensures order[k] !in FirstOf(order, k)
  {
    FirstOfIs(order, k);
  }

  function Stored(s: WriteBack.State, order: seq<Mac>, k: nat): WriteBack.State
    requires k <= |order|
  {
    s.(table := Flushed(s.table, s.cache, FirstOf(order, k)), flush := WriteBack.Writing(order, k, None))
  }

  /** The device at `k` has been read too. */
  function Buffered(s: WriteBack.State, order: seq<Mac>, k: nat): WriteBack.State
    requires k < |order| && order[k] in s.cache
  {
    Stored(s, order, k).(flush := WriteBack.Writing(order, k, Some(s.cache[order[k]])))
  }

  lemma ReadMoves(s: WriteBack.State, order: seq<Mac>, k: nat)
    requires k < |order| && order[k] in s.cache
    ensures WriteBack.Moves(Stored(s, order, k), WriteBack.Read(order[k]), Buffered(s, order, k))
    ensures WriteBack.Moves(Buffered(s, order, k), WriteBack.StoreFails, Stored(s, order, k).(flush := WriteBack.Idle))
  {
  }

  lemma StoreMoves(s: WriteBack.State, order: seq<Mac>, k: nat)
    requires WriteBack.Keyed(s.cache) && WriteBack.Distinct(order) && k < |order| && order[k] in s.cache
    ensures WriteBack.Moves(Buffered(s, order, k), WriteBack.Store(order[k]), Stored(s, order, k + 1))
  {
    NotYetFirst(order, k);
    FlushedPut(s.table, s.cache, FirstOf(order, k), order[k]);
  }

  lemma SnapshotMoves(s: WriteBack.State, order: seq<Mac>)
    requires Ready(s, order) && order != []
    ensures WriteBack.Moves(s, WriteBack.Snapshot(order), Stored(s, order, 0))
  {
    FlushedNothing(s.table, s.cache);
  }

  lemma {:induction false} WritesLead(s: WriteBack.State, order: seq<Mac>, k: nat)
    requires Ready(s, order) && order != [] && k <= |order|
    ensures Leads(s, WriteSteps(order, k), Stored(s, order, k))
  {
    if k == 0 {
      NoStep(s);
      SnapshotMoves(s, order);
      OneMoreStep(s, [], s, WriteBack.Snapshot(order), Stored(s, order, 0));
      assert [] + [WriteBack.Snapshot(order)] == WriteSteps(order, 0);
    } else {
      var steps, m := WriteSteps(order, k - 1), order[k - 1];
      var t, u, v := Stored(s, order, k - 1), Buffered(s, order, k - 1), Stored(s, order, k);
      assert Leads(s, steps, t) by { WritesLead(s, order, k - 1); }
      assert WriteBack.Moves(t, WriteBack.Read(m), u) by { ReadMoves(s, order, k - 1); }
      assert WriteBack.Moves(u, WriteBack.Store(m), v) by { StoreMoves(s, order, k - 1); }
      TwoMoreSteps(s, steps, t, WriteBack.Read(m), u, WriteBack.Store(m), v);
    }
  }

  function Unmarked(s: WriteBack.State, order: seq<Mac>, k: nat): WriteBack.State
    requires k <= |order|
  {
    Stored(s, order, |order|).(dirty := s.dirty - FirstOf(order, k), flush := WriteBack.Unmarking(order, k))
  }

  lemma StoredMoves(s: WriteBack.State, order: seq<Mac>)
    ensures WriteBack.Moves(Stored(s, order, |order|), WriteBack.Stored, Unmarked(s, order, 0))
  {
  }

  lemma UnmarkMoves(s: WriteBack.State, order: seq<Mac>, k: nat)
    requires k < |order|
    ensures WriteBack.Moves(Unmarked(s, order, k), WriteBack.Unmark(order[k]), Unmarked(s, order, k + 1))
  {
    assert s.dirty - FirstOf(order, k) - {order[k]} == s.dirty - FirstOf(order, k + 1);
  }

  lemma {:induction false} UnmarksLead(s: WriteBack.State, order: seq<Mac>, k: nat)
    requires Ready(s, order) && order != [] && k <= |order|
    ensures Leads(s, UnmarkSteps(order, k), Unmarked(s, order, k))
  {
    if k == 0 {
      WritesLead(s, order, |order|);
      StoredMoves(s, order);
      OneMoreStep(s, WriteSteps(order, |order|), Stored(s, order, |order|), WriteBack.Stored, Unmarked(s, order, 0));
    } else {
      UnmarksLead(s, order, k - 1);
      UnmarkMoves(s, order, k - 1);
      OneMoreStep(s, UnmarkSteps(order, k - 1), Unmarked(s, order, k - 1), WriteBack.Unmark(order[k - 1]),
                  Unmarked(s, order, k));
    }
  }

  /** What a flush leaves: the MACs before the refused statement stored, and no mark unless it failed. */
  function AfterFlush(s: WriteBack.State, order: seq<Mac>, failing: int): WriteBack.State {
    if 0 <= failing < |order| then s.(table := Flushed(s.table, s.cache, FirstOf(order, failing)))
    else s.(table := Flushed(s.table, s.cache, s.dirty), dirty := {})
  }

  lemma FailureLeads(s: WriteBack.State, order: seq<Mac>, failing: nat)
    requires Ready(s, order) && failing < |order|
    ensures Leads(s, FlushSteps(order, failing), AfterFlush(s, order, failing))
  {
    var steps, m := WriteSteps(order, failing), order[failing];
    var t, u, v := Stored(s, order, failing), Buffered(s, order, failing), AfterFlush(s, order, failing);
    assert Leads(s, steps, t) by { WritesLead(s, order, failing); }
    assert WriteBack.Moves(t, WriteBack.Read(m), u) && WriteBack.Moves(u, WriteBack.StoreFails, v) by {
      ReadMoves(s, order, failing);
    }
    TwoMoreSteps(s, steps, t, WriteBack.Read(m), u, WriteBack.StoreFails, v);
  }

  lemma DoneMoves(s: WriteBack.State, order: seq<Mac>, failing: int)
    requires Ready(s, order) && !(0 <= failing < |order|)
    ensures WriteBack.Moves(Unmarked(s, order, |order|), WriteBack.Done, AfterFlush(s, order, failing))
  {
    FirstOfAll(order);
    assert s.dirty - s.dirty == {};
  }

  lemma SuccessLeads(s: WriteBack.State, order: seq<Mac>, failing: int)
    requires Ready(s, order) && order != [] && !(0 <= failing < |order|)
    ensures Leads(s, FlushSteps(order, failing), AfterFlush(s, order, failing))
  {
    UnmarksLead(s, order, |order|);
    DoneMoves(s, order, failing);
    OneMoreStep(s, UnmarkSteps(order, |order|), Unmarked(s, order, |order|), WriteBack.Done,
                AfterFlush(s, order, failing));
  }

  lemma NothingLeads(s: WriteBack.State, failing: int)
    requires Ready(s, [])
    ensures Leads(s, FlushSteps([], failing), AfterFlush(s, [], failing))
  {
    FlushedNothing(s.table, s.cache);
    NoStep(s);
    assert s.dirty == {};
    OneMoreStep(s, [], s, WriteBack.Snapshot([]), AfterFlush(s, [], failing));
    assert [] + [WriteBack.Snapshot([])] == FlushSteps([], failing);
  }

  /** A flush by one thread is a run of the protocol's steps. */
  lemma FlushLeads(s: WriteBack.State, order: seq<Mac>, failing: int)
    requires Ready(s, order)
    ensures Leads(s, FlushSteps(order, failing), AfterFlush(s, order, failing))
  {
    if order == [] {
      NothingLeads(s, failing);
    } else if 0 <= failing < |order| {
      FailureLeads(s, order, failing);
    } else {
      SuccessLeads(s, order, failing);
    }
  }

  /** Every clean cached device has all its columns in its row. */
  ghost predicate InSync(s: WriteBack.State) {
    && s.dirty <= s.cache.Keys && WriteBack.Keyed(s.cache)
    && forall m :: m in s.cache && m !in s.dirty ==> WriteBack.Fresh(s, m)
  }

  lemma FlushSyncs(s: WriteBack.State, order: seq<Mac>, failing: int)
    requires InSync(s) && Ready(s, order)
    ensures InSync(AfterFlush(s, order, failing))
    ensures !(0 <= failing < |order|) ==> WriteBack.AllFresh(AfterFlush(s, order, failing))
  {
    var t := AfterFlush(s, order, failing);
    var done := if 0 <= failing < |order| then FirstOf(order, failing) else s.dirty;
    forall m | m in t.cache && m !in t.dirty ensures WriteBack.Fresh(t, m) {
      assert m !in s.dirty ==> WriteBack.Fresh(s, m);
      FlushedFreshness(s.table, s.cache, done, m);
    }
  }

  lemma UpsertSyncs(s: WriteBack.State, d: Device)
    requires InSync(s)
    ensures InSync(s.(cache := s.cache[d.mac := d], dirty := s.dirty + {d.mac}))
  {
    var t := s.(cache := s.cache[d.mac := d], dirty := s.dirty + {d.mac});
    forall m | m in t.cache && m !in t.dirty ensures WriteBack.Fresh(t, m) {
      assert WriteBack.Fresh(s, m);
    }
  }

  /** An upsert by one thread is a cache write and a mark. */
  lemma UpsertLeads(s: WriteBack.State, d: Device)
    requires s.pending == multiset{}
    ensures Leads(s, [WriteBack.Upsert(d), WriteBack.Mark(d.mac)],
                  s.(cache := s.cache[d.mac := d], dirty := s.dirty + {d.mac}))
  {
    var first, second := WriteBack.Upsert(d), WriteBack.Mark(d.mac);
    var t, u := WriteBack.Apply(s, first), s.(cache := s.cache[d.mac := d], dirty := s.dirty + {d.mac});
    assert WriteBack.Moves(t, second, u) by { assert WriteBack.Apply(t, second).pending == multiset{}; }
    NoStep(s);
    OneMoreStep(s, [], s, first, t);
    OneMoreStep(s, [] + [first], t, second, u);
    assert [] + [first] + [second] == [first, second];
  }

  /** Storing the next MAC's row moves the rows on to the next of the flushed states. */
  lemma StoredOneMore(table: Table, rows: map<Mac, Device>, cache: map<Mac, Device>, order: seq<Mac>, k: nat, row: Row)
    requires k < |order| && WriteBack.Distinct(order) && order[k] in cache && cache[order[k]].mac == order[k]
    requires ReadTable(table) == Flushed(rows, cache, FirstOf(order, k))
    requires DeviceOf(order[k], row)
          == Merged(if order[k] in table then Some(DeviceOf(order[k], table[order[k]])) else None, cache[order[k]])
    ensures ReadTable(table[order[k] := row]) == Flushed(rows, cache, FirstOf(order, k + 1))
  {
    NotYetFirst(order, k);
    FlushedOneMore(table, rows, cache, FirstOf(order, k), order[k], row);
  }

  /** The rows of the first `k` MACs are stored. */
  predicate Reached(table: Table, rows: map<Mac, Device>, cache: map<Mac, Device>, order: seq<Mac>, k: nat) {
    k <= |order| && ReadTable(table) == Flushed(rows, cache, FirstOf(order, k))
  }

  lemma NothingReached(table: Table, cache: map<Mac, Device>, order: seq<Mac>)
    ensures Reached(table, ReadTable(table), cache, order, 0)
  {
    FlushedNothing(ReadTable(table), cache);
  }

  /** Every MAC of `order` is cached under its own key, and listed once. */
  predicate Storable(cache: map<Mac, Device>, order: seq<Mac>) {
    && WriteBack.Distinct(order) && WriteBack.Keyed(cache)
    && forall i :: 0 <= i < |order| ==> order[i] in cache
  }

  // ----- The store -------------------------------------------------------------------------

  method RowToDevice(mac: Mac, row: Row) returns (d: Device)
    ensures d == DeviceOf(mac, row)
  {
    d := DeviceOf(mac, row);
  }

  /** `load_all`: every row is upserted into an empty cache, in the order the database yields them. */
  method LoadAll(stored: Table) returns (cache: map<Mac, Device>)
    ensures cache == ReadTable(stored)
  {
    ghost var rows := ReadTable(stored);
    cache := map[];
    var rest := stored.Keys;
    while rest != {}
      invariant rest <= stored.Keys && cache.Keys == stored.Keys - rest
      invariant forall m :: m in cache ==> m in rows && cache[m] == rows[m]
      decreases rest
    {
      var m :| m in rest;
      var d := RowToDevice(m, stored[m]);
      cache, rest := cache[m := d], rest - {m};
    }
  }

  class SqliteStore {
    var cache: map<Mac, Device>
    var dirty: set<Mac>
    var table: Table

    /** The protocol state that this object is in, no call being under way. */
    ghost function Abstract(): WriteBack.State
      reads this
    {
      WriteBack.State(cache, dirty, multiset{}, ReadTable(table), WriteBack.Idle)
    }

    ghost predicate Synced()
      reads this
    {
      InSync(Abstract())
    }

    /** `open` */
    constructor Open(stored: Table)
      ensures table == stored && dirty == {} && cache == ReadTable(stored)
      ensures Synced() && Abstract() == WriteBack.Open(ReadTable(stored))
    {
      table, dirty := stored, {};
      new;
      cache := LoadAll(stored);
      assert WriteBack.Keyed(cache);
    }

    method Get(mac: Mac) returns (d: Option<Device>)
      ensures d == WriteBack.Lookup(cache, mac)
    {
      d := if mac in cache then Some(cache[mac]) else None;
    }

    method Upsert(d: Device)
      requires Synced()
      modifies this
      ensures cache == old(cache)[d.mac := d] && dirty == old(dirty) + {d.mac} && table == old(table)
      ensures Synced()
      ensures Leads(old(Abstract()), [WriteBack.Upsert(d), WriteBack.Mark(d.mac)], Abstract())
    {
      UpsertLeads(Abstract(), d);
      UpsertSyncs(Abstract(), d);
      cache := cache[d.mac := d];
      dirty := dirty + {d.mac};
    }

    /** One statement of `flush`: the row of the MAC at `k`. */
    method StoreRow(order: seq<Mac>, k: nat, ghost rows: map<Mac, Device>)
      requires k < |order| && Storable(cache, order)
      requires Reached(table, rows, cache, order, k)
      modifies this`table
      ensures Reached(table, rows, cache, order, k + 1)
    {
      var m := order[k];
      var row := BindRow(if m in table then Some(table[m]) else None, cache[m]);
      StoredOneMore(table, rows, cache, order, k, row);
      table := table[m := row];
    }

    /** The writing loop of `flush`; the statement numbered `failing` is refused, if any is. */
    method StoreRows(order: seq<Mac>, failing: int) returns (written: nat)
      requires Storable(cache, order)
      modifies this`table
      ensures written == if 0 <= failing < |order| then failing else |order|
      ensures ReadTable(table) == Flushed(old(ReadTable(table)), cache, FirstOf(order, written))
    {
      ghost var rows := ReadTable(table);
      NothingReached(table, cache, order);
      written := 0;
      while written < |order|
        invariant written <= |order| && (0 <= failing < |order| ==> written <= failing)
        invariant Reached(table, rows, cache, order, written)
      {
        if written == failing {
          return;
        }
        StoreRow(order, written, rows);
        written := written + 1;
      }
    }

    /**
     * `flush`. On success nothing is left dirty and every row is up to date; on an error
     * the rows of some MACs may be new but every mark is kept, so that the next flush
     * starts from at least the same MACs. Either way it is a run of the protocol's steps,
     * in the order in which the dirty set yields its MACs.
     */
    method Flush(failing: int) returns (written: Option<nat>, ghost order: seq<Mac>)
      requires Synced()
      modifies this`table, this`dirty
      ensures Synced()
      ensures Ready(old(Abstract()), order) && Abstract() == AfterFlush(old(Abstract()), order, failing)
      ensures Leads(old(Abstract()), FlushSteps(order, failing), Abstract())
      ensures written == if 0 <= failing < |order| then None else Some(|old(dirty)|)
      ensures written.Some? ==> dirty == {} && WriteBack.AllFresh(Abstract())
      ensures written.None? ==> dirty == old(dirty)
    {
      var macs := Collect(dirty);
      order := macs;
      ghost var before := Abstract();
      assert forall i :: 0 <= i < |macs| ==> macs[i] in WriteBack.Elements(macs);
      FlushLeads(before, macs, failing);
      FlushSyncs(before, macs, failing);
      FirstOfAll(macs);
      var n := StoreRows(macs, failing);
      if n < |macs| {
        return None, order;
      }
      Unmark(macs);
      written := Some(n);
    }

    /** The second loop of `flush`. */
    method Unmark(order: seq<Mac>)
      modifies this`dirty
      ensures dirty == old(dirty) - WriteBack.Elements(order)
    {
      var i := 0;
      while i < |order|
        invariant i <= |order| && dirty == old(dirty) - WriteBack.Elements(order[..i])
      {
        assert WriteBack.Elements(order[..i + 1]) == WriteBack.Elements(order[..i]) + {order[i]};
        dirty := dirty - {order[i]};
        i := i + 1;
      }
      assert order[..i] == order;
    }
  }
}
