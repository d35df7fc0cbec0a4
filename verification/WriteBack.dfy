/**
 * The write-back cache as a protocol of small steps: any number of concurrent
 * upserts, one flush at a time, crashes and reopenings, in any interleaving.
 */
module WriteBack {
  import opened Common
  import opened Devices

  // ----- States and steps -----------------------------------------------------

  /** Where the flush that holds the connection lock has got to. */
  datatype Flush =
    | Idle
    | Writing(order: seq<Mac>, next: nat, buffer: Option<Device>)
    | Unmarking(order: seq<Mac>, next: nat)

  /**
   * `table` maps each stored MAC to the device its row reads back as;
   * `pending` holds one entry per upsert that has
   * written the cache but not yet marked.
   */
  datatype State = State(
    cache: map<Mac, Device>,
    dirty: set<Mac>,
    pending: multiset<Mac>,
    table: map<Mac, Device>,
    flush: Flush)

  datatype Step =
    | Upsert(device: Device)       // upsert: cache.upsert
    | Mark(mac: Mac)               // upsert: dirty.insert
    | Snapshot(order: seq<Mac>)    // flush: collect the dirty set
    | Read(mac: Mac)               // flush: cache.get
    | Store(mac: Mac)              // flush: conn.execute succeeds
    | StoreFails                   // flush: conn.execute fails, flush returns the error
    | Stored                       // flush: the writing loop is over
    | Unmark(mac: Mac)             // flush: dirty.remove
    | Done                         // flush returns
    | Crash                        // the process dies and the database is opened again

  function Put(table: map<Mac, Device>, d: Device): map<Mac, Device> {
    table[d.mac := Merged(if d.mac in table then Some(table[d.mac]) else None, d)]
  }

  function Open(table: map<Mac, Device>): State {
    State(table, {}, multiset{}, table, Idle)
  }

  function Elements(order: seq<Mac>): set<Mac> {
    set m | m in order
  }

  predicate Distinct(order: seq<Mac>) {
    forall i, j :: 0 <= i < j < |order| ==> order[i] != order[j]
  }

  predicate Enabled(s: State, step: Step) {
    match step
    case Upsert(_) => true
    case Mark(m) => m in s.pending
    case Snapshot(order) => s.flush.Idle? && Distinct(order) && Elements(order) == s.dirty
    case Read(m) =>
      s.flush.Writing? && s.flush.buffer.None? && s.flush.next < |s.flush.order| && s.flush.order[s.flush.next] == m
    case Store(m) =>
      s.flush.Writing? && s.flush.buffer.Some? && s.flush.next < |s.flush.order| && s.flush.order[s.flush.next] == m
    case StoreFails => s.flush.Writing? && s.flush.buffer.Some?
    case Stored => s.flush.Writing? && s.flush.next == |s.flush.order|
    case Unmark(m) => s.flush.Unmarking? && s.flush.next < |s.flush.order| && s.flush.order[s.flush.next] == m
    case Done => s.flush.Unmarking? && s.flush.next == |s.flush.order|
    case Crash => true
  }

  function Apply(s: State, step: Step): State
    requires Enabled(s, step)
  {
    match step
    case Upsert(d) => s.(cache := s.cache[d.mac := d], pending := s.pending + multiset{d.mac})
    case Mark(m) => s.(dirty := s.dirty + {m}, pending := s.pending - multiset{m})
    case Snapshot(order) => if order == [] then s else s.(flush := Writing(order, 0, None))
    case Read(m) =>
      if m in s.cache then s.(flush := Writing(s.flush.order, s.flush.next, Some(s.cache[m])))
      else s.(flush := Writing(s.flush.order, s.flush.next + 1, None))
    case Store(_) =>
      s.(table := Put(s.table, s.flush.buffer.value),
         flush := Writing(s.flush.order, s.flush.next + 1, None))
    case StoreFails => s.(flush := Idle)
    case Stored => s.(flush := Unmarking(s.flush.order, 0))
    case Unmark(m) => s.(dirty := s.dirty - {m}, flush := Unmarking(s.flush.order, s.flush.next + 1))
    case Done => s.(flush := Idle)
    case Crash => Open(s.table)
  }

  /** Rows are kept under the MAC they carry. */
  predicate Keyed(table: map<Mac, Device>) {
    forall m :: m in table ==> table[m].mac == m
  }

  /** The state a sequence of steps leads to from opening `table`; steps that are not enabled do nothing. */
  function After(table: map<Mac, Device>, steps: seq<Step>): State {
    if steps == [] then Open(table)
    else
      var s := After(table, steps[..|steps| - 1]);
      if Enabled(s, steps[|steps| - 1]) then Apply(s, steps[|steps| - 1]) else s
  }

  /** A run of the protocol: every step is enabled when it is taken. */
  predicate IsRun(table: map<Mac, Device>, steps: seq<Step>) {
    if steps == [] then Keyed(table)
    else IsRun(table, steps[..|steps| - 1]) && Enabled(After(table, steps[..|steps| - 1]), steps[|steps| - 1])
  }

  lemma {:induction false} RunPrefix(table: map<Mac, Device>, steps: seq<Step>, i: nat)
    requires IsRun(table, steps) && i <= |steps|
    ensures IsRun(table, steps[..i])
    decreases |steps|
  {
    if i < |steps| {
      RunPrefix(table, steps[..|steps| - 1], i);
      assert steps[..|steps| - 1][..i] == steps[..i];
    } else {
      assert steps[..i] == steps;
    }
  }

  // ----- History of one MAC ------------------------------------------------------

  /**
   * Indices of the latest steps about one MAC since the last crash, -1 for none:
   * its cache write, its mark, the flush's snapshot, its read, its un-mark; `stored`
   * is the read whose value its row holds, `epoch` the number of steps up to the crash.
   */
  datatype History = History(upsert: int, mark: int, snapshot: int, read: int, unmark: int, stored: int, epoch: nat)

  const NOTHING := History(-1, -1, -1, -1, -1, -1, 0)

  function Advance(h: History, step: Step, n: nat, m: Mac): History {
    match step
    case Upsert(d) => if d.mac == m then h.(upsert := n) else h
    case Mark(x) => if x == m then h.(mark := n) else h
    case Snapshot(_) => h.(snapshot := n)
    case Read(x) => if x == m then h.(read := n) else h
    case Store(x) => if x == m then h.(stored := h.read) else h
    case Unmark(x) => if x == m then h.(unmark := n) else h
    case Crash => NOTHING.(epoch := n + 1)
    case _ => h
  }

  function Hist(steps: seq<Step>, m: Mac): History {
    if steps == [] then NOTHING
    else Advance(Hist(steps[..|steps| - 1], m), steps[|steps| - 1], |steps| - 1, m)
  }

  // ----- What every step keeps --------------------------------------------------

  /** Every MAC known anywhere is cached, under its own key. */
  ghost predicate Known(s: State) {
    && s.dirty <= s.cache.Keys
    && s.table.Keys <= s.cache.Keys
    && (forall m :: m in s.pending ==> m in s.cache)
    && Keyed(s.cache) && Keyed(s.table)
  }

  /** What the flush still has to deal with is dirty. */
  ghost predicate Owed(flush: Flush, dirty: set<Mac>) {
    match flush
    case Idle => true
    case Writing(order, next, buffer) =>
      && Distinct(order) && next <= |order|
      && (forall i :: 0 <= i < |order| ==> order[i] in dirty)
      && (buffer.Some? ==> next < |order| && buffer.value.mac == order[next])
    case Unmarking(order, next) =>
      && Distinct(order) && next <= |order|
      && (forall i :: next <= i < |order| ==> order[i] in dirty)
  }

  ghost predicate Shaped(s: State) {
    Known(s) && Owed(s.flush, s.dirty)
  }

  /** Only upserts, marks, stores and crashes touch more than the flush and the dirty set. */
  lemma FlushFrame(s: State, step: Step)
    requires Enabled(s, step) && !step.Upsert? && !step.Mark? && !step.Store? && !step.Crash?
    ensures var t := Apply(s, step);
      t.cache == s.cache && t.table == s.table && t.pending == s.pending && t.dirty <= s.dirty
  {
  }

  lemma UpsertKeepsKnown(s: State, d: Device)
    requires Known(s)
    ensures Known(Apply(s, Upsert(d)))
  {
    var t := Apply(s, Upsert(d));
    assert t.cache.Keys == s.cache.Keys + {d.mac};
  }

  lemma MarkKeepsKnown(s: State, m: Mac)
    requires Known(s) && m in s.pending
    ensures Known(Apply(s, Mark(m)))
  {
    var t := Apply(s, Mark(m));
    assert t.dirty == s.dirty + {m};
    assert forall x :: x in t.pending ==> x in s.pending;
  }

  lemma PutKeepsKeyed(table: map<Mac, Device>, d: Device)
    requires Keyed(table)
    ensures Keyed(Put(table, d)) && Put(table, d).Keys == table.Keys + {d.mac}
  {
  }

  lemma ApplyKeepsKnown(s: State, step: Step)
    requires Shaped(s) && Enabled(s, step)
    ensures Known(Apply(s, step))
  {
    if step.Upsert? {
      UpsertKeepsKnown(s, step.device);
    } else if step.Mark? {
      MarkKeepsKnown(s, step.mac);
    } else if step.Store? {
      PutKeepsKeyed(s.table, s.flush.buffer.value);
      assert s.flush.order[s.flush.next] in s.dirty;
    } else if !step.Crash? {
      FlushFrame(s, step);
    }
  }

  lemma ApplyKeepsOwed(s: State, step: Step)
    requires Shaped(s) && Enabled(s, step)
    ensures Owed(Apply(s, step).flush, Apply(s, step).dirty)
  {
    if step.Snapshot? {
      forall i | 0 <= i < |step.order| ensures step.order[i] in s.dirty {
        assert step.order[i] in Elements(step.order);
      }
    }
  }

  lemma {:induction false} RunKeepsShape(table: map<Mac, Device>, steps: seq<Step>)
    requires IsRun(table, steps)
    ensures Shaped(After(table, steps))
  {
    if steps != [] {
      var n := |steps| - 1;
      RunKeepsShape(table, steps[..n]);
      ApplyKeepsKnown(After(table, steps[..n]), steps[n]);
      ApplyKeepsOwed(After(table, steps[..n]), steps[n]);
    }
  }

  /** Marks follow upserts, and a mark only goes away by a later un-mark. */
  predicate MarksFollow(s: State, h: History, m: Mac) {
    && (if m in s.pending then h.upsert >= 0 else h.upsert >= 0 ==> h.mark > h.upsert)
    && (if m in s.dirty then h.mark >= 0 && h.upsert >= 0 else h.mark >= 0 ==> h.unmark > h.mark)
  }

  predicate In(i: int, lo: nat, hi: nat) {
    i == -1 || lo <= i < hi
  }

  /** All indices lie before step `n` and after the last crash. */
  predicate Before(h: History, n: nat) {
    && h.epoch <= n
    && In(h.upsert, h.epoch, n) && In(h.mark, h.epoch, n) && In(h.snapshot, h.epoch, n)
    && In(h.read, h.epoch, n) && In(h.unmark, h.epoch, n) && In(h.stored, h.epoch, n)
  }

  lemma AdvanceBefore(h: History, step: Step, n: nat, m: Mac)
    requires Before(h, n)
    ensures Before(Advance(h, step, n, m), n + 1)
  {
  }

  lemma {:induction false} HistBefore(steps: seq<Step>, m: Mac)
    ensures Before(Hist(steps, m), |steps|)
  {
    if steps != [] {
      var n := |steps| - 1;
      HistBefore(steps[..n], m);
      AdvanceBefore(Hist(steps[..n], m), steps[n], n, m);
    }
  }

  lemma MarksFollowStep(s: State, h: History, step: Step, n: nat, m: Mac)
    requires MarksFollow(s, h, m) && Before(h, n) && Enabled(s, step)
    ensures MarksFollow(Apply(s, step), Advance(h, step, n, m), m)
  {
    if !step.Upsert? && !step.Mark? && !step.Store? && !step.Crash? {
      FlushFrame(s, step);
    }
  }

  lemma {:induction false} MarksFollowAlways(table: map<Mac, Device>, steps: seq<Step>, m: Mac)
    requires IsRun(table, steps)
    ensures MarksFollow(After(table, steps), Hist(steps, m), m)
  {
    if steps != [] {
      var n := |steps| - 1;
      MarksFollowAlways(table, steps[..n], m);
      HistBefore(steps[..n], m);
      MarksFollowStep(After(table, steps[..n]), Hist(steps[..n], m), steps[n], n, m);
    }
  }

  /** The flush has read `m` and holds its device, not yet stored. */
  predicate Buffered(s: State, m: Mac) {
    s.flush.Writing? && s.flush.buffer.Some? && s.flush.buffer.value.mac == m
  }

  /** The running flush has already stored `m`. */
  predicate Passed(s: State, m: Mac) {
    match s.flush
    case Idle => false
    case Writing(order, next, _) => exists i :: 0 <= i < next && i < |order| && order[i] == m
    case Unmarking(order, _) => exists i :: 0 <= i < |order| && order[i] == m
  }

  /** What a flush has stored was read after its snapshot, and only such MACs get un-marked. */
  predicate StoredInTurn(s: State, h: History, m: Mac) {
    && (!s.flush.Idle? ==> h.snapshot >= 0)
    && (Buffered(s, m) ==> h.read > h.snapshot)
    && (Passed(s, m) ==> h.stored > h.snapshot)
    && (h.unmark >= 0 ==> h.stored >= 0)
  }

  /** How a MAC comes to be buffered or passed. */
  lemma FlushMoves(s: State, step: Step, m: Mac)
    requires Shaped(s) && Enabled(s, step)
    ensures Buffered(Apply(s, step), m) ==> Buffered(s, m) || step == Read(m)
    ensures step.Snapshot? ==> !Buffered(Apply(s, step), m)
    ensures !Apply(s, step).flush.Idle? ==> !s.flush.Idle? || step.Snapshot?
  {
    if step.Read? {
      assert step.mac in s.dirty;
    }
  }

  lemma FlushPasses(s: State, step: Step, m: Mac)
    requires Shaped(s) && Enabled(s, step)
    ensures Passed(Apply(s, step), m) ==> Passed(s, m) || step == Store(m)
    ensures step.Snapshot? ==> !Passed(Apply(s, step), m)
  {
    if step.Read? {
      ReadPasses(s, step.mac, m);
    } else if step.Store? {
      StorePasses(s, step.mac, m);
    }
  }

  lemma ReadPasses(s: State, x: Mac, m: Mac)
    requires Shaped(s) && Enabled(s, Read(x))
    ensures Passed(Apply(s, Read(x)), m) ==> Passed(s, m)
  {
    assert x in s.dirty;
  }

  lemma StorePasses(s: State, x: Mac, m: Mac)
    requires Enabled(s, Store(x))
    ensures Passed(Apply(s, Store(x)), m) ==> Passed(s, m) || x == m
  {
    var t := Apply(s, Store(x));
    if Passed(t, m) && x != m {
      var i :| 0 <= i < t.flush.next && i < |t.flush.order| && t.flush.order[i] == m;
      assert i < s.flush.next && s.flush.order[i] == m;
    }
  }

  lemma UnmarkedWasPassed(s: State, m: Mac)
    requires Enabled(s, Unmark(m))
    ensures Passed(s, m)
  {
    assert s.flush.order[s.flush.next] == m;
  }

  lemma StoredInTurnStep(s: State, h: History, step: Step, n: nat, m: Mac)
    requires Shaped(s) && StoredInTurn(s, h, m) && Before(h, n) && Enabled(s, step)
    ensures StoredInTurn(Apply(s, step), Advance(h, step, n, m), m)
  {
    FlushMoves(s, step, m);
    FlushPasses(s, step, m);
    if step == Store(m) {
      assert Buffered(s, m);
    } else if step == Unmark(m) {
      UnmarkedWasPassed(s, m);
    }
  }

  lemma {:induction false} StoredInTurnAlways(table: map<Mac, Device>, steps: seq<Step>, m: Mac)
    requires IsRun(table, steps)
    ensures StoredInTurn(After(table, steps), Hist(steps, m), m)
  {
    if steps != [] {
      var n := |steps| - 1;
      StoredInTurnAlways(table, steps[..n], m);
      HistBefore(steps[..n], m);
      RunKeepsShape(table, steps[..n]);
      StoredInTurnStep(After(table, steps[..n]), Hist(steps[..n], m), steps[n], n, m);
    }
  }

  // ----- Where a row's value comes from -------------------------------------------

  /** The device the cache held for `m` just before step `i`. */
  function Held(table: map<Mac, Device>, steps: seq<Step>, i: int, m: Mac): Option<Device> {
    if 0 <= i <= |steps| && m in After(table, steps[..i]).cache
    then Some(After(table, steps[..i]).cache[m]) else None
  }

  lemma HeldEarlier(table: map<Mac, Device>, steps: seq<Step>, i: int, m: Mac)
    requires steps != [] && i < |steps|
    ensures Held(table, steps[..|steps| - 1], i, m) == Held(table, steps, i, m)
  {
    if i >= 0 {
      assert steps[..|steps| - 1][..i] == steps[..i];
    }
  }

  function Lookup(t: map<Mac, Device>, m: Mac): Option<Device> {
    if m in t then Some(t[m]) else None
  }

  lemma HeldNow(table: map<Mac, Device>, steps: seq<Step>, m: Mac)
    ensures Held(table, steps, |steps|, m) == Lookup(After(table, steps).cache, m)
    ensures steps != [] ==>
      Held(table, steps, |steps| - 1, m) == Lookup(After(table, steps[..|steps| - 1]).cache, m)
  {
    assert steps[..|steps|] == steps;
  }

  /** Nothing but an upsert of `m` or a crash changes what the cache holds for it. */
  lemma CacheFrame(s: State, step: Step, m: Mac)
    requires Enabled(s, step) && !step.Crash? && (step.Upsert? ==> step.device.mac != m)
    ensures Lookup(Apply(s, step).cache, m) == Lookup(s.cache, m)
  {
    if !step.Upsert? && !step.Mark? && !step.Store? {
      FlushFrame(s, step);
    }
  }

  lemma QuietStep(h: History, step: Step, n: nat, m: Mac, i: int)
    requires Before(h, n) && i <= n
    requires Advance(h, step, n, m).epoch <= i && Advance(h, step, n, m).upsert < i
    ensures h.epoch <= i && h.upsert < i && !step.Crash? && (step.Upsert? ==> step.device.mac != m)
  {
  }

  lemma {:induction false} HeldSince(table: map<Mac, Device>, steps: seq<Step>, m: Mac, i: int)
    requires IsRun(table, steps) && Hist(steps, m).epoch <= i <= |steps| && Hist(steps, m).upsert < i
    ensures Held(table, steps, i, m) == Held(table, steps, |steps|, m)
    decreases |steps|
  {
    if i < |steps| {
      var n := |steps| - 1;
      HistBefore(steps[..n], m);
      QuietStep(Hist(steps[..n], m), steps[n], n, m, i);
      HeldSince(table, steps[..n], m, i);
      HeldEarlier(table, steps, i, m);
      HeldNow(table, steps[..n], m);
      HeldNow(table, steps, m);
      CacheFrame(After(table, steps[..n]), steps[n], m);
    }
  }

  predicate SameColumns(a: Option<Device>, b: Option<Device>) {
    a.Some? && b.Some? && Columns(a.value) == Columns(b.value)
  }

  /** The buffer holds what was read; the row holds what was read for it, or what was loaded. */
  predicate Backed(s: State, h: History, m: Mac, read: Option<Device>, stored: Option<Device>, loaded: Option<Device>) {
    && (Buffered(s, m) ==> h.read >= 0 && s.flush.buffer == read)
    && (if h.stored >= 0 then SameColumns(Lookup(s.table, m), stored) else Lookup(s.table, m) == loaded)
  }

  lemma TableFrame(s: State, step: Step, m: Mac)
    requires Enabled(s, step) && Shaped(s) && !step.Crash? && step != Store(m)
    ensures Lookup(Apply(s, step).table, m) == Lookup(s.table, m)
  {
    if step.Store? {
      assert step.mac == s.flush.buffer.value.mac;
    } else if !step.Upsert? && !step.Mark? {
      FlushFrame(s, step);
    }
  }

  lemma PutColumns(table: map<Mac, Device>, d: Device)
    ensures SameColumns(Lookup(Put(table, d), d.mac), Some(d))
  {
  }

  lemma BufferFrame(s: State, step: Step, m: Mac)
    requires Shaped(s) && Enabled(s, step) && Buffered(Apply(s, step), m)
    ensures if step == Read(m) then Apply(s, step).flush.buffer == Lookup(s.cache, m)
            else Buffered(s, m) && Apply(s, step).flush.buffer == s.flush.buffer
  {
    if step.Read? {
      assert step.mac in s.dirty;
    }
  }

  lemma BackedStep(s: State, h: History, step: Step, n: nat, m: Mac,
                   read: Option<Device>, stored: Option<Device>, loaded: Option<Device>)
    requires Shaped(s) && Before(h, n) && Enabled(s, step) && !step.Crash?
    requires Backed(s, h, m, read, stored, loaded)
    ensures Backed(Apply(s, step), Advance(h, step, n, m), m,
                   if step == Read(m) then Lookup(s.cache, m) else read,
                   if step == Store(m) then read else stored, loaded)
  {
    AdvanceFields(h, step, n, m);
    if Buffered(Apply(s, step), m) {
      BufferFrame(s, step, m);
    }
    if step == Store(m) {
      assert Buffered(s, m);
      PutColumns(s.table, s.flush.buffer.value);
    } else {
      TableFrame(s, step, m);
    }
  }

  lemma AdvanceFields(h: History, step: Step, n: nat, m: Mac)
    requires !step.Crash?
    ensures var h' := Advance(h, step, n, m);
      && h'.read == (if step == Read(m) then n else h.read)
      && h'.stored == (if step == Store(m) then h.read else h.stored)
      && h'.epoch == h.epoch
  {
  }

  /** How the history's values move with one more step. */
  lemma HeldAdvance(table: map<Mac, Device>, steps: seq<Step>, m: Mac)
    requires steps != [] && !steps[|steps| - 1].Crash?
    ensures var n := |steps| - 1; var p := steps[..n]; var h, h' := Hist(p, m), Hist(steps, m);
      && Held(table, steps, h'.read, m)
         == (if steps[n] == Read(m) then Lookup(After(table, p).cache, m) else Held(table, p, h.read, m))
      && Held(table, steps, h'.stored, m)
         == (if steps[n] == Store(m) then Held(table, p, h.read, m) else Held(table, p, h.stored, m))
      && Held(table, steps, h'.epoch, m) == Held(table, p, h.epoch, m)
  {
    var n := |steps| - 1;
    var h := Hist(steps[..n], m);
    HistBefore(steps[..n], m);
    AdvanceFields(h, steps[n], n, m);
    assert Hist(steps, m) == Advance(h, steps[n], n, m);
    HeldEarlier(table, steps, h.read, m);
    HeldEarlier(table, steps, h.stored, m);
    HeldEarlier(table, steps, h.epoch, m);
    HeldNow(table, steps, m);
  }

  /**
   * Provenance: in every reachable state the row of a MAC carries a value that the
   * cache really held for it, namely at the read its last store came from, or,
   * when no flush has stored it since the database was opened, at the opening.
   */
  lemma {:induction false} RowProvenance(table: map<Mac, Device>, steps: seq<Step>, m: Mac)
    requires IsRun(table, steps)
    ensures var h := Hist(steps, m);
      Backed(After(table, steps), h, m, Held(table, steps, h.read, m), Held(table, steps, h.stored, m),
             Held(table, steps, h.epoch, m))
  {
    HeldNow(table, steps, m);
    if steps != [] && !steps[|steps| - 1].Crash? {
      var n := |steps| - 1;
      var h := Hist(steps[..n], m);
      RowProvenance(table, steps[..n], m);
      HistBefore(steps[..n], m);
      RunKeepsShape(table, steps[..n]);
      BackedStep(After(table, steps[..n]), h, steps[n], n, m, Held(table, steps[..n], h.read, m),
                 Held(table, steps[..n], h.stored, m), Held(table, steps[..n], h.epoch, m));
      HeldAdvance(table, steps, m);
    }
  }

  // ----- Main results ---------------------------------------------------------------

  /** The row of `m` carries every column of the cached device. */
  predicate Fresh(s: State, m: Mac) {
    SameColumns(Lookup(s.table, m), Lookup(s.cache, m))
  }

  lemma FreshWhenStoredAfterUpsert(table: map<Mac, Device>, steps: seq<Step>, m: Mac)
    requires IsRun(table, steps) && m in After(table, steps).cache
    requires var h := Hist(steps, m); h.stored > h.upsert || h.upsert == -1
    ensures Fresh(After(table, steps), m)
  {
    var h := Hist(steps, m);
    HistBefore(steps, m);
    RowProvenance(table, steps, m);
    HeldSince(table, steps, m, if h.stored >= 0 then h.stored else h.epoch);
    HeldNow(table, steps, m);
  }

  /** The latest upsert of `m` fell wholly between the read behind its row and its un-mark. */
  predicate Overtaken(h: History) {
    0 <= h.stored < h.upsert < h.mark < h.unmark
  }

  /**
   * In every reachable state, a cached MAC that is neither dirty nor mid-upsert has a
   * fresh row, unless its latest upsert was overtaken by a flush; and then the row is
   * fresh exactly when that upsert changed no column of what the flush had read.
   */
  lemma CleanRowsAreFresh(table: map<Mac, Device>, steps: seq<Step>, m: Mac)
    requires IsRun(table, steps)
    requires var s := After(table, steps); m in s.cache && m !in s.dirty && m !in s.pending
    ensures var h := Hist(steps, m);
      && (Fresh(After(table, steps), m) || Overtaken(h))
      && (Fresh(After(table, steps), m) <==>
          (Overtaken(h) ==> SameColumns(Held(table, steps, h.stored, m), Held(table, steps, |steps|, m))))
  {
    var s, h := After(table, steps), Hist(steps, m);
    assert MarksFollow(s, h, m) by { MarksFollowAlways(table, steps, m); }
    assert StoredInTurn(s, h, m) by { StoredInTurnAlways(table, steps, m); }
    assert h.upsert == -1 || (h.upsert >= 0 && h.upsert != h.stored) by {
      HistKinds(steps, m);
    }
    if h.stored > h.upsert || h.upsert == -1 {
      FreshWhenStoredAfterUpsert(table, steps, m);
    } else {
      MustBeOvertaken(s, h, m);
      RowProvenance(table, steps, m);
      HeldNow(table, steps, m);
      Transfer(Lookup(s.table, m), Held(table, steps, h.stored, m), Held(table, steps, |steps|, m));
    }
  }

  lemma MustBeOvertaken(s: State, h: History, m: Mac)
    requires MarksFollow(s, h, m) && StoredInTurn(s, h, m) && m !in s.dirty && m !in s.pending
    requires h.stored < h.upsert && h.upsert >= 0
    ensures Overtaken(h)
  {
  }

  lemma Transfer(row: Option<Device>, read: Option<Device>, now: Option<Device>)
    requires SameColumns(row, read)
    ensures SameColumns(row, now) <==> SameColumns(read, now)
  {
  }

  predicate IsUpsert(step: Step, m: Mac) {
    step.Upsert? && step.device.mac == m
  }

  /** Index `i`, if there is one, is that of `step`. */
  predicate IndexOf(steps: seq<Step>, i: int, step: Step) {
    i == -1 || (0 <= i < |steps| && steps[i] == step)
  }

  /** The recorded indices are of steps of the named kinds, and the epoch starts after a crash. */
  predicate KindsAre(steps: seq<Step>, h: History, m: Mac) {
    && (h.upsert == -1 || (0 <= h.upsert < |steps| && IsUpsert(steps[h.upsert], m)))
    && (h.snapshot == -1 || (0 <= h.snapshot < |steps| && steps[h.snapshot].Snapshot?))
    && IndexOf(steps, h.mark, Mark(m)) && IndexOf(steps, h.unmark, Unmark(m))
    && IndexOf(steps, h.read, Read(m)) && IndexOf(steps, h.stored, Read(m))
    && (h.epoch == 0 || (h.epoch <= |steps| && steps[h.epoch - 1].Crash?))
  }

  lemma KindsStay(steps: seq<Step>, h: History, m: Mac)
    requires steps != [] && KindsAre(steps[..|steps| - 1], h, m)
    ensures KindsAre(steps, h, m)
  {
  }

  lemma KindsAdvance(steps: seq<Step>, h: History, n: nat, m: Mac)
    requires |steps| == n + 1 && KindsAre(steps, h, m)
    ensures KindsAre(steps, Advance(h, steps[n], n, m), m)
  {
    match steps[n]
    case Upsert(_) =>
    case Mark(_) =>
    case Snapshot(_) =>
    case Read(_) =>
    case Store(_) =>
    case Unmark(_) =>
    case Crash =>
    case _ =>
  }

  lemma {:induction false} HistKinds(steps: seq<Step>, m: Mac)
    ensures KindsAre(steps, Hist(steps, m), m)
  {
    if steps != [] {
      HistKinds(steps[..|steps| - 1], m);
      KindsStay(steps, Hist(steps[..|steps| - 1], m), m);
      KindsAdvance(steps, Hist(steps[..|steps| - 1], m), |steps| - 1, m);
    }
  }

  /** A run in which a device is changed between its read and its un-mark: the change is never stored. */
  function LosingRun(d: Device, changed: Device): seq<Step> {
    [Upsert(d), Mark(d.mac), Snapshot([d.mac]), Read(d.mac), Store(d.mac), Stored,
     Upsert(changed), Mark(d.mac), Unmark(d.mac), Done]
  }

  function LosingState(d: Device, changed: Device, i: nat): State {
    var m := d.mac;
    var cached := if i == 0 then map[] else if i <= 6 then map[m := d] else map[m := changed];
    var stored := if i <= 4 then map[] else map[m := Millis(d)];
    State(cached, if 2 <= i <= 8 then {m} else {}, if i == 1 || i == 7 then multiset{m} else multiset{}, stored,
          if i <= 2 || i == 10 then Idle
          else if i <= 5 then Writing([m], if i == 5 then 1 else 0, if i == 4 then Some(d) else None)
          else Unmarking([m], if i == 9 then 1 else 0))
  }

  /** `step` leads from one state of the losing run to the next. */
  predicate Leads(d: Device, changed: Device, i: nat, step: Step) {
    Enabled(LosingState(d, changed, i), step)
    && Apply(LosingState(d, changed, i), step) == LosingState(d, changed, i + 1)
  }

  lemma LosingUpserts(d: Device, changed: Device)
    requires changed.mac == d.mac
    ensures Leads(d, changed, 0, Upsert(d)) && Leads(d, changed, 6, Upsert(changed))
  {
  }

  lemma LosingMarks(d: Device, changed: Device)
    requires changed.mac == d.mac
    ensures Leads(d, changed, 1, Mark(d.mac)) && Leads(d, changed, 7, Mark(d.mac))
  {
  }

  lemma LosingReads(d: Device, changed: Device)
    requires changed.mac == d.mac
    ensures Leads(d, changed, 2, Snapshot([d.mac])) && Leads(d, changed, 3, Read(d.mac))
    ensures Leads(d, changed, 4, Store(d.mac))
  {
    assert Elements([d.mac]) == {d.mac};
  }

  lemma LosingUnmarks(d: Device, changed: Device)
    requires changed.mac == d.mac
    ensures Leads(d, changed, 5, Stored) && Leads(d, changed, 8, Unmark(d.mac)) && Leads(d, changed, 9, Done)
  {
  }

  lemma LosingStep(d: Device, changed: Device, i: nat)
    requires changed.mac == d.mac && i < 10
    ensures Leads(d, changed, i, LosingRun(d, changed)[i])
  {
    LosingUpserts(d, changed);
    LosingMarks(d, changed);
    LosingReads(d, changed);
    LosingUnmarks(d, changed);
  }

  lemma ExtendRun(table: map<Mac, Device>, steps: seq<Step>, step: Step, s: State)
    requires IsRun(table, steps) && After(table, steps) == s && Enabled(s, step)
    ensures IsRun(table, steps + [step]) && After(table, steps + [step]) == Apply(s, step)
  {
    assert (steps + [step])[..|steps|] == steps;
  }

  /** `step` is enabled in `s` and leads to `t`. */
  predicate Moves(s: State, step: Step, t: State) {
    Enabled(s, step) && Apply(s, step) == t
  }

  predicate Linked(states: seq<State>, steps: seq<Step>, j: nat)
    requires |states| == |steps| + 1 && j < |steps|
  {
    Moves(states[j], steps[j], states[j + 1])
  }

  predicate Chain(states: seq<State>, steps: seq<Step>) {
    |states| == |steps| + 1 && forall j :: 0 <= j < |steps| ==> Linked(states, steps, j)
  }

  /** A list of states that follow each other is a run. */
  lemma {:induction false} FollowStates(table: map<Mac, Device>, steps: seq<Step>, states: seq<State>, i: nat)
    requires Keyed(table) && Chain(states, steps) && states[0] == Open(table) && i <= |steps|
    ensures IsRun(table, steps[..i]) && After(table, steps[..i]) == states[i]
  {
    if i > 0 {
      FollowStates(table, steps, states, i - 1);
      assert Linked(states, steps, i - 1);
      assert steps[..i] == steps[..i - 1] + [steps[i - 1]];
      ExtendRun(table, steps[..i - 1], steps[i - 1], states[i - 1]);
    }
  }

  /** The exception is real: nothing is dirty or pending afterwards, and the row is out of date. */
  lemma UpdatesCanBeLost(d: Device, changed: Device)
    requires changed.mac == d.mac && Columns(changed) != Columns(d)
    ensures IsRun(map[], LosingRun(d, changed))
    ensures var s := After(map[], LosingRun(d, changed));
      s.dirty == {} && s.pending == multiset{} && s.flush.Idle? && d.mac in s.cache && !Fresh(s, d.mac)
  {
    var all, states := LosingRun(d, changed), LosingStates(d, changed);
    LosingChain(d, changed);
    FollowStates(map[], all, states, 10);
    assert all[..10] == all;
    LosingEnd(d, changed);
  }

  function LosingStates(d: Device, changed: Device): seq<State> {
    seq(11, i requires 0 <= i => LosingState(d, changed, i))
  }

  lemma LosingChain(d: Device, changed: Device)
    requires changed.mac == d.mac
    ensures Chain(LosingStates(d, changed), LosingRun(d, changed)) && LosingState(d, changed, 0) == Open(map[])
  {
    var all, states := LosingRun(d, changed), LosingStates(d, changed);
    forall j | 0 <= j < 10 ensures Linked(states, all, j) {
      LosingStep(d, changed, j);
    }
  }

  lemma LosingEnd(d: Device, changed: Device)
    requires changed.mac == d.mac && Columns(changed) != Columns(d)
    ensures var s := LosingState(d, changed, 10);
      s.dirty == {} && s.pending == multiset{} && s.flush.Idle? && d.mac in s.cache && !Fresh(s, d.mac)
  {
  }

  /**
   * What a flush passes with no upsert since its snapshot is stored for good: so the
   * next flush after any later upsert repairs a row that was overtaken.
   */
  lemma QuietFlushStores(table: map<Mac, Device>, steps: seq<Step>, m: Mac)
    requires IsRun(table, steps) && Passed(After(table, steps), m)
    requires var h := Hist(steps, m); h.upsert < h.snapshot
    requires m in After(table, steps).cache
    ensures Fresh(After(table, steps), m)
  {
    StoredInTurnAlways(table, steps, m);
    FreshWhenStoredAfterUpsert(table, steps, m);
  }

  /** A flush that fails keeps every mark it started from. */
  lemma FailedFlushKeepsMarks(table: map<Mac, Device>, steps: seq<Step>)
    requires IsRun(table, steps) && Enabled(After(table, steps), StoreFails)
    ensures var s := After(table, steps); var t := Apply(s, StoreFails);
      t.dirty == s.dirty && t.cache == s.cache && t.flush.Idle? && forall m :: m in s.flush.order ==> m in t.dirty
  {
    RunKeepsShape(table, steps);
  }

  lemma AdvanceGrows(h: History, step: Step, n: nat, m: Mac)
    requires Before(h, n) && h.stored <= h.read
    ensures Advance(h, step, n, m).stored <= Advance(h, step, n, m).read
    ensures !step.Crash? ==> h.stored <= Advance(h, step, n, m).stored
  {
  }

  lemma {:induction false} StoredBeforeRead(steps: seq<Step>, m: Mac)
    ensures Hist(steps, m).stored <= Hist(steps, m).read
  {
    if steps != [] {
      var n := |steps| - 1;
      StoredBeforeRead(steps[..n], m);
      HistBefore(steps[..n], m);
      AdvanceGrows(Hist(steps[..n], m), steps[n], n, m);
    }
  }

  lemma StoredRow(table: map<Mac, Device>, steps: seq<Step>, m: Mac)
    requires IsRun(table, steps) && Hist(steps, m).stored >= 0
    ensures SameColumns(Lookup(Apply(After(table, steps), Crash).cache, m),
                        Held(table, steps, Hist(steps, m).stored, m))
  {
    var s, h := After(table, steps), Hist(steps, m);
    var read, stored := Held(table, steps, h.read, m), Held(table, steps, h.stored, m);
    CrashLoads(s);
    assert Backed(s, h, m, read, stored, Held(table, steps, h.epoch, m)) by { RowProvenance(table, steps, m); }
  }

  /** A crash loses the cache and loads the rows. */
  lemma CrashLoads(s: State)
    ensures Apply(s, Crash).cache == s.table
  {
  }

  lemma PassedStored(table: map<Mac, Device>, steps: seq<Step>, m: Mac)
    requires IsRun(table, steps) && Passed(After(table, steps), m)
    ensures -1 <= Hist(steps, m).snapshot < Hist(steps, m).stored
  {
    StoredInTurnAlways(table, steps, m);
    HistBefore(steps, m);
  }

  // ----- first_seen -------------------------------------------------------------------

  function Born(d: Device): nat {
    d.firstSeen / NANOS_PER_MILLI
  }

  /** An upsert of a cached MAC keeps its `first_seen`, as the discovery engine's upserts do. */
  predicate Preserving(s: State, step: Step) {
    step.Upsert? && step.device.mac in s.cache ==> Born(step.device) == Born(s.cache[step.device.mac])
  }

  predicate PreservingRun(table: map<Mac, Device>, steps: seq<Step>) {
    steps == [] ||
    (PreservingRun(table, steps[..|steps| - 1]) && Preserving(After(table, steps[..|steps| - 1]), steps[|steps| - 1]))
  }

  /** Rows and the buffer carry the cached `first_seen`. */
  predicate Pinned(s: State) {
    && (forall m :: m in s.table && m in s.cache ==> Born(s.table[m]) == Born(s.cache[m]))
    && (s.flush.Writing? && s.flush.buffer.Some? && s.flush.buffer.value.mac in s.cache ==>
        Born(s.flush.buffer.value) == Born(s.cache[s.flush.buffer.value.mac]))
  }

  lemma PinnedStep(s: State, step: Step)
    requires Shaped(s) && Pinned(s) && Enabled(s, step) && Preserving(s, step)
    ensures Pinned(Apply(s, step))
  {
    if step.Store? {
      assert step.mac in s.dirty;
      MergedBorn(Lookup(s.table, step.mac), s.flush.buffer.value);
    } else if step.Upsert? {
      assert s.table.Keys <= s.cache.Keys;
      assert s.flush.Writing? && s.flush.buffer.Some? ==> s.flush.order[s.flush.next] in s.dirty;
    } else if !step.Mark? && !step.Crash? {
      FlushFrame(s, step);
    }
  }

  lemma MergedBorn(existing: Option<Device>, d: Device)
    ensures Born(Merged(existing, d)) == if existing.Some? then Born(existing.value) else Born(d)
  {
  }

  lemma {:induction false} PinnedAlways(table: map<Mac, Device>, steps: seq<Step>)
    requires IsRun(table, steps) && PreservingRun(table, steps)
    ensures Pinned(After(table, steps))
  {
    if steps != [] {
      var n := |steps| - 1;
      PinnedAlways(table, steps[..n]);
      RunKeepsShape(table, steps[..n]);
      PinnedStep(After(table, steps[..n]), steps[n]);
    }
  }

  predicate AllFresh(s: State) {
    forall m :: m in s.cache ==> Fresh(s, m)
  }

  /** Same devices under the same MACs, up to parts of a millisecond. */
  predicate SameDevices(a: map<Mac, Device>, b: map<Mac, Device>) {
    a.Keys == b.Keys && forall m :: m in a && m in b ==> Millis(a[m]) == Millis(b[m])
  }

  lemma FreshTableIsCache(s: State)
    requires Known(s) && Pinned(s) && AllFresh(s)
    ensures SameDevices(s.table, s.cache)
  {
    forall m | m in s.cache
      ensures m in s.table && Millis(s.table[m]) == Millis(s.cache[m])
    {
      assert Fresh(s, m);
      SameEverywhere(s.table[m], s.cache[m]);
    }
  }

  /**
   * When every cached row is fresh, as after a flush with no upsert in its way, opening
   * the database again rebuilds the same device map, up to parts of a millisecond.
   */
  lemma ReopenRestores(table: map<Mac, Device>, steps: seq<Step>)
    requires IsRun(table, steps) && PreservingRun(table, steps) && AllFresh(After(table, steps))
    ensures SameDevices(Apply(After(table, steps), Crash).cache, After(table, steps).cache)
  {
    var s := After(table, steps);
    assert Known(s) by { RunKeepsShape(table, steps); }
    assert Pinned(s) by { PinnedAlways(table, steps); }
    FreshTableIsCache(s);
  }

  // ----- Flushes that nothing interrupts ---------------------------------------------------

  predicate AtomicRun(table: map<Mac, Device>, steps: seq<Step>) {
    steps == [] ||
    (AtomicRun(table, steps[..|steps| - 1]) && Alone(After(table, steps[..|steps| - 1]), steps[|steps| - 1]))
  }

  /** Upserts do not run while a flush does. */
  predicate Alone(s: State, step: Step) {
    step.Upsert? || step.Mark? ==> s.flush.Idle?
  }

  predicate Undisturbed(s: State, h: History) {
    (!s.flush.Idle? ==> h.mark < h.snapshot) && (h.mark < h.unmark ==> h.mark < h.stored)
  }

  lemma UndisturbedStep(s: State, h: History, step: Step, n: nat, m: Mac)
    requires Shaped(s) && Enabled(s, step) && Alone(s, step) && Before(h, n) && h.stored <= h.read
    requires Undisturbed(s, h) && StoredInTurn(s, h, m)
    ensures Undisturbed(Apply(s, step), Advance(h, step, n, m))
  {
    FlushMoves(s, step, m);
    if step == Unmark(m) {
      UnmarkedWasPassed(s, m);
    }
  }

  lemma {:induction false} NeverDisturbed(table: map<Mac, Device>, steps: seq<Step>, m: Mac)
    requires IsRun(table, steps) && AtomicRun(table, steps)
    ensures Undisturbed(After(table, steps), Hist(steps, m)) && !Overtaken(Hist(steps, m))
  {
    if steps != [] {
      var n := |steps| - 1;
      NeverDisturbed(table, steps[..n], m);
      HistBefore(steps[..n], m);
      RunKeepsShape(table, steps[..n]);
      StoredBeforeRead(steps[..n], m);
      StoredInTurnAlways(table, steps[..n], m);
      UndisturbedStep(After(table, steps[..n]), Hist(steps[..n], m), steps[n], n, m);
    }
  }

  /**
   * With flushes that nothing interrupts, no update is ever lost: whenever nothing is dirty
   * or in flight, opening the database again rebuilds the same device map.
   */
  lemma AtomicFlushesLoseNothing(table: map<Mac, Device>, steps: seq<Step>)
    requires IsRun(table, steps) && PreservingRun(table, steps) && AtomicRun(table, steps)
    requires After(table, steps).dirty == {} && After(table, steps).pending == multiset{}
    ensures SameDevices(Apply(After(table, steps), Crash).cache, After(table, steps).cache)
  {
    var s := After(table, steps);
    forall m | m in s.cache ensures Fresh(s, m) {
      NeverDisturbed(table, steps, m);
      CleanRowsAreFresh(table, steps, m);
    }
    ReopenRestores(table, steps);
  }

  lemma SameEverywhere(a: Device, b: Device)
    requires Columns(a) == Columns(b) && Born(a) == Born(b)
    ensures Millis(a) == Millis(b)
  {
    assert Millis(a) == Columns(a).(firstSeen := Born(a) * NANOS_PER_MILLI);
    assert Millis(b) == Columns(b).(firstSeen := Born(b) * NANOS_PER_MILLI);
  }

  /** No later step since the last crash is of the kind that an index records: each is the latest. */
  lemma {:induction false} HistIsLatest(steps: seq<Step>, m: Mac, i: nat)
    requires Hist(steps, m).epoch <= i < |steps|
    ensures var h := Hist(steps, m);
      && (steps[i].Upsert? && steps[i].device.mac == m ==> i <= h.upsert)
      && (steps[i] == Mark(m) ==> i <= h.mark)
      && (steps[i] == Read(m) ==> i <= h.read)
      && (steps[i] == Unmark(m) ==> i <= h.unmark)
      && (steps[i].Snapshot? ==> i <= h.snapshot)
  {
    var n := |steps| - 1;
    HistBefore(steps[..n], m);
    if i < n && !steps[n].Crash? {
      AdvanceFields(Hist(steps[..n], m), steps[n], n, m);
      HistIsLatest(steps[..n], m, i);
    }
  }
}
