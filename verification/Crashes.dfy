/** How much a crash can lose: what every later crash recovers of the state at a successful flush. */
module Crashes {
  import opened Common
  import opened Devices
  import opened WriteBack

  /** What the cache holds for `m` once the database has been opened again after `steps`. */
  function Reopened(table: map<Mac, Device>, steps: seq<Step>, m: Mac): Option<Device> {
    Lookup(Apply(After(table, steps), Crash).cache, m)
  }

  /** A crash after `steps` recovers the columns of a device that the cache held for `m` at step `n` or later. */
  ghost predicate RecoversSince(table: map<Mac, Device>, steps: seq<Step>, n: nat, m: Mac) {
    exists i :: n <= i <= |steps| && SameColumns(Reopened(table, steps, m), Held(table, steps, i, m))
  }

  /** From step `n` on the process does not crash. */
  predicate NoCrash(steps: seq<Step>, n: nat) {
    forall j :: n <= j < |steps| ==> !steps[j].Crash?
  }

  /** The flush that takes its snapshot at step `n` succeeds, at step `d`; with nothing dirty it does so at once. */
  predicate Succeeds(steps: seq<Step>, n: nat, d: nat) {
    && n < |steps| && steps[n].Snapshot?
    && if steps[n].order == [] then d == n
       else n < d < |steps| && steps[d].Done? && forall j :: n < j < d ==> !steps[j].Snapshot? && !steps[j].Crash?
  }

  // ----- Rows since an idle moment ------------------------------------------------------

  /** Since step `n`, when the row was `row`, what is read, and so what is stored, is of step `n` or later. */
  predicate Since(s: State, h: History, m: Mac, n: nat, row: Option<Device>) {
    && (!s.flush.Idle? ==> h.snapshot >= n)
    && (Buffered(s, m) ==> h.read >= n)
    && (h.stored >= n || Lookup(s.table, m) == row)
  }

  lemma SinceStep(s: State, h: History, step: Step, i: nat, m: Mac, n: nat, row: Option<Device>)
    requires Shaped(s) && Enabled(s, step) && !step.Crash? && n <= i && Since(s, h, m, n, row)
    ensures Since(Apply(s, step), Advance(h, step, i, m), m, n, row)
  {
    AdvanceFields(h, step, i, m);
    FlushMoves(s, step, m);
    if step == Store(m) {
      assert Buffered(s, m);
    } else {
      TableFrame(s, step, m);
    }
  }

  ghost predicate SinceAt(table: map<Mac, Device>, all: seq<Step>, m: Mac, n: nat, row: Option<Device>, i: nat) {
    i <= |all| && Since(After(table, all[..i]), Hist(all[..i], m), m, n, row)
  }

  /** One step further along a run. */
  lemma OneStep(table: map<Mac, Device>, all: seq<Step>, m: Mac, i: nat)
    requires IsRun(table, all) && i < |all|
    ensures var s, h := After(table, all[..i]), Hist(all[..i], m);
      && Shaped(s) && Before(h, i) && Enabled(s, all[i])
      && After(table, all[..i + 1]) == Apply(s, all[i])
      && Hist(all[..i + 1], m) == Advance(h, all[i], i, m)
  {
    RunPrefix(table, all, i + 1);
    assert all[..i + 1][..i] == all[..i];
    RunKeepsShape(table, all[..i]);
    HistBefore(all[..i], m);
  }

  lemma SinceIdle(table: map<Mac, Device>, all: seq<Step>, m: Mac, n: nat)
    requires IsRun(table, all) && n <= |all| && NoCrash(all, n) && After(table, all[..n]).flush.Idle?
    ensures Since(After(table, all), Hist(all, m), m, n, Lookup(After(table, all[..n]).table, m))
  {
    var row := Lookup(After(table, all[..n]).table, m);
    forall i: nat | n <= i < |all| && SinceAt(table, all, m, n, row, i) ensures SinceAt(table, all, m, n, row, i + 1) {
      OneStep(table, all, m, i);
      SinceStep(After(table, all[..i]), Hist(all[..i], m), all[i], i, m, n, row);
    }
    StepByStep(n, |all|, (i: nat) => SinceAt(table, all, m, n, row, i));
    assert all[..|all|] == all;
  }

  /** A row that was fresh at an idle moment never falls behind it. */
  lemma FreshStaysRecent(table: map<Mac, Device>, all: seq<Step>, m: Mac, n: nat)
    requires IsRun(table, all) && n <= |all| && NoCrash(all, n)
    requires After(table, all[..n]).flush.Idle? && Fresh(After(table, all[..n]), m)
    ensures RecoversSince(table, all, n, m)
  {
    SinceIdle(table, all, m, n);
    CrashLoads(After(table, all));
    var h := Hist(all, m);
    if h.stored >= n {
      StoredRow(table, all, m);
      HistBefore(all, m);
      assert SameColumns(Reopened(table, all, m), Held(table, all, h.stored, m));
    } else {
      assert SameColumns(Reopened(table, all, m), Held(table, all, n, m));
    }
  }

  // ----- What a flush passes ---------------------------------------------------------------

  function OrderOf(f: Flush): seq<Mac> {
    if f.Idle? then [] else f.order
  }

  /** The flush under way is the one whose snapshot, `order`, was taken at step `n`. */
  predicate Under(s: State, h: History, n: nat, order: seq<Mac>) {
    h.snapshot == n && (s.flush.Idle? || OrderOf(s.flush) == order)
  }

  lemma UnderStep(s: State, h: History, step: Step, i: nat, m: Mac, n: nat, order: seq<Mac>)
    requires Enabled(s, step) && !step.Snapshot? && !step.Crash? && Under(s, h, n, order)
    ensures Under(Apply(s, step), Advance(h, step, i, m), n, order)
  {
  }

  ghost predicate UnderAt(table: map<Mac, Device>, all: seq<Step>, m: Mac, n: nat, i: nat) {
    i <= |all| && n < |all| && all[n].Snapshot? && Under(After(table, all[..i]), Hist(all[..i], m), n, all[n].order)
  }

  /** When the flush of step `n` is done, it has passed every MAC of its snapshot. */
  lemma DoneHasPassed(table: map<Mac, Device>, all: seq<Step>, m: Mac, n: nat, d: nat)
    requires IsRun(table, all) && Succeeds(all, n, d) && m in After(table, all[..n]).dirty
    ensures n < d && Passed(After(table, all[..d]), m) && Hist(all[..d], m).snapshot == n
  {
    OneStep(table, all, m, n);
    var order := all[n].order;
    assert m in order;
    assert UnderAt(table, all, m, n, n + 1);
    forall i: nat | n + 1 <= i < d && UnderAt(table, all, m, n, i) ensures UnderAt(table, all, m, n, i + 1) {
      OneStep(table, all, m, i);
      UnderStep(After(table, all[..i]), Hist(all[..i], m), all[i], i, m, n, order);
    }
    StepByStep(n + 1, d, (i: nat) => UnderAt(table, all, m, n, i));
    OneStep(table, all, m, d);
    DonePasses(After(table, all[..d]), m);
  }

  lemma DonePasses(s: State, m: Mac)
    requires Enabled(s, Done) && m in OrderOf(s.flush)
    ensures Passed(s, m)
  {
    var i :| 0 <= i < |s.flush.order| && s.flush.order[i] == m;
  }

  // ----- Runs with crashes in them ------------------------------------------------------------

  /** Rows are never deleted. */
  lemma RowsStay(table: map<Mac, Device>, all: seq<Step>, m: Mac, n: nat)
    requires IsRun(table, all) && n <= |all| && m in After(table, all[..n]).table
    ensures m in After(table, all).table
  {
    forall i: nat | n <= i < |all| && HasRow(table, all, m, i) ensures HasRow(table, all, m, i + 1) {
      OneStep(table, all, m, i);
      RowStays(After(table, all[..i]), all[i], m);
    }
    StepByStep(n, |all|, (i: nat) => HasRow(table, all, m, i));
    assert all[..|all|] == all;
  }

  ghost predicate HasRow(table: map<Mac, Device>, all: seq<Step>, m: Mac, i: nat) {
    i <= |all| && m in After(table, all[..i]).table
  }

  lemma RowStays(s: State, step: Step, m: Mac)
    requires Enabled(s, step) && m in s.table
    ensures m in Apply(s, step).table
  {
    if !step.Upsert? && !step.Mark? && !step.Store? && !step.Crash? {
      FlushFrame(s, step);
    }
  }

  lemma FirstCrash(all: seq<Step>, n: nat) returns (c: nat)
    requires n <= |all| && !NoCrash(all, n)
    ensures n <= c < |all| && all[c].Crash? && NoCrash(all[..c], n)
    decreases |all| - n
  {
    c := n;
    if !all[n].Crash? {
      c := FirstCrash(all, n + 1);
      assert forall j :: n <= j < c ==> !all[..c][j].Crash?;
    }
  }

  /** After a crash, everything recorded is later than it. */
  lemma EpochAfter(all: seq<Step>, m: Mac, c: nat)
    requires c < |all| && all[c].Crash?
    ensures c < Hist(all, m).epoch <= |all|
  {
    assert all[..c + 1][..c] == all[..c];
    forall i: nat | c + 1 <= i < |all| && EpochAt(all, m, c, i) ensures EpochAt(all, m, c, i + 1) {
      assert all[..i + 1][..i] == all[..i];
    }
    StepByStep(c + 1, |all|, (i: nat) => EpochAt(all, m, c, i));
    assert all[..|all|] == all;
    HistBefore(all, m);
  }

  ghost predicate EpochAt(all: seq<Step>, m: Mac, c: nat, i: nat) {
    i <= |all| && c < Hist(all[..i], m).epoch
  }

  /** What is opened again later is at least what a crash has opened. */
  lemma RecoversOpened(table: map<Mac, Device>, all: seq<Step>, m: Mac, c: nat) returns (i: nat)
    requires IsRun(table, all) && c < |all| && all[c].Crash? && m in After(table, all).table
    ensures c < i <= |all| && SameColumns(Reopened(table, all, m), Held(table, all, i, m))
  {
    EpochAfter(all, m, c);
    HistBefore(all, m);
    var h := Hist(all, m);
    i := if h.stored >= 0 then h.stored else h.epoch;
    if h.stored >= 0 {
      StoredRow(table, all, m);
    } else {
      UnstoredRow(table, all, m);
      ReopenedHasColumns(table, all, m);
    }
  }

  lemma ReopenedHasColumns(table: map<Mac, Device>, steps: seq<Step>, m: Mac)
    requires m in After(table, steps).table
    ensures SameColumns(Reopened(table, steps, m), Reopened(table, steps, m))
  {
    CrashLoads(After(table, steps));
  }

  /** A row that no flush has stored since the database was opened is what was opened. */
  lemma UnstoredRow(table: map<Mac, Device>, steps: seq<Step>, m: Mac)
    requires IsRun(table, steps) && Hist(steps, m).stored < 0
    ensures Reopened(table, steps, m) == Held(table, steps, Hist(steps, m).epoch, m)
  {
    var s, h := After(table, steps), Hist(steps, m);
    var read, stored := Held(table, steps, h.read, m), Held(table, steps, h.stored, m);
    CrashLoads(s);
    assert Backed(s, h, m, read, stored, Held(table, steps, h.epoch, m)) by { RowProvenance(table, steps, m); }
  }

  /** Once the process has crashed since step `n`, a MAC is recovered as of `n` or later if and only if it has a row. */
  lemma RecoversIffStored(table: map<Mac, Device>, all: seq<Step>, m: Mac, n: nat)
    requires IsRun(table, all) && n <= |all| && !NoCrash(all, n)
    ensures RecoversSince(table, all, n, m) <==> m in After(table, all).table
  {
    var c := FirstCrash(all, n);
    CrashLoads(After(table, all));
    if m in After(table, all).table {
      var i := RecoversOpened(table, all, m, c);
      assert SameColumns(Reopened(table, all, m), Held(table, all, i, m));
    }
  }

  // ----- The bound -----------------------------------------------------------------------------

  /** The condition on the state at a flush's snapshot. */
  ghost predicate Kept(table: map<Mac, Device>, all: seq<Step>, m: Mac, n: nat)
    requires n <= |all|
  {
    var s := After(table, all[..n]);
    m in s.cache && (m in s.dirty || (m !in s.pending && !Overtaken(Hist(all[..n], m))))
  }

  /**
   * What a crash can lose: once a flush has succeeded, every later crash, however many there
   * are, recovers, for each MAC that was dirty at its snapshot, or neither mid-upsert nor
   * overtaken by an earlier flush, a value that the cache held at that snapshot or later.
   */
  lemma CrashLosesNothingOlder(table: map<Mac, Device>, all: seq<Step>, m: Mac, n: nat, d: nat)
    requires IsRun(table, all) && Succeeds(all, n, d) && Kept(table, all, m, n)
    ensures RecoversSince(table, all, n, m)
  {
    if NoCrash(all, n) {
      FirstCrashLosesNothingOlder(table, all, m, n, d);
    } else {
      var c := FirstCrash(all, n);
      RunPrefix(table, all, c);
      SucceedsBefore(all, n, d, c);
      assert all[..c][..n] == all[..n];
      FirstCrashLosesNothingOlder(table, all[..c], m, n, d);
      CrashLoads(After(table, all[..c]));
      RowsStay(table, all, m, c);
      RecoversIffStored(table, all, m, n);
    }
  }

  /** A flush that succeeds does so before the first crash after its snapshot. */
  lemma SucceedsBefore(all: seq<Step>, n: nat, d: nat, c: nat)
    requires Succeeds(all, n, d) && n <= c < |all| && all[c].Crash?
    ensures Succeeds(all[..c], n, d)
  {
  }

  lemma FirstCrashLosesNothingOlder(table: map<Mac, Device>, all: seq<Step>, m: Mac, n: nat, d: nat)
    requires IsRun(table, all) && Succeeds(all, n, d) && NoCrash(all, n) && Kept(table, all, m, n)
    ensures RecoversSince(table, all, n, m)
  {
    RunPrefix(table, all, n);
    OneStep(table, all, m, n);
    if m in After(table, all[..n]).dirty {
      DoneHasPassed(table, all, m, n, d);
      var i := FirstCrashRecovers(table, all, m, d);
      assert SameColumns(Reopened(table, all, m), Held(table, all, i, m));
    } else {
      CleanRowsAreFresh(table, all[..n], m);
      FreshStaysRecent(table, all, m, n);
    }
  }

  ghost predicate StoredAt(all: seq<Step>, m: Mac, least: int, i: nat) {
    i <= |all| && least <= Hist(all[..i], m).stored <= Hist(all[..i], m).read
  }

  /** Without a crash, later stores are of later reads. */
  lemma StoredNeverOlder(all: seq<Step>, m: Mac, d: nat)
    requires d <= |all| && NoCrash(all, d)
    ensures Hist(all[..d], m).stored <= Hist(all, m).stored
  {
    var least := Hist(all[..d], m).stored;
    StoredBeforeRead(all[..d], m);
    forall i: nat | d <= i < |all| && StoredAt(all, m, least, i) ensures StoredAt(all, m, least, i + 1) {
      assert all[..i + 1][..i] == all[..i];
      HistBefore(all[..i], m);
      AdvanceGrows(Hist(all[..i], m), all[i], i, m);
    }
    StepByStep(d, |all|, (i: nat) => StoredAt(all, m, least, i));
    assert all[..|all|] == all;
  }

  lemma FirstCrashRecovers(table: map<Mac, Device>, all: seq<Step>, m: Mac, d: nat) returns (i: int)
    requires IsRun(table, all) && d <= |all| && NoCrash(all, d) && Passed(After(table, all[..d]), m)
    ensures Hist(all[..d], m).snapshot < i < |all|
    ensures SameColumns(Reopened(table, all, m), Held(table, all, i, m))
  {
    RunPrefix(table, all, d);
    PassedStored(table, all[..d], m);
    StoredNeverOlder(all, m, d);
    HistBefore(all, m);
    i := Hist(all, m).stored;
    StoredRow(table, all, m);
  }

  /** Once a flush has passed a MAC, every later crash recovers a value held for it after that flush's snapshot. */
  lemma CrashRecovers(table: map<Mac, Device>, all: seq<Step>, m: Mac, d: nat) returns (i: int)
    requires IsRun(table, all) && d <= |all| && Passed(After(table, all[..d]), m)
    ensures Hist(all[..d], m).snapshot < i <= |all| && (NoCrash(all, d) ==> i < |all|)
    ensures SameColumns(Reopened(table, all, m), Held(table, all, i, m))
  {
    if NoCrash(all, d) {
      i := FirstCrashRecovers(table, all, m, d);
    } else {
      var c := FirstCrash(all, d);
      PassedHasRow(table, all, m, d);
      RowsStay(table, all, m, d);
      i := RecoversOpened(table, all, m, c);
      HistBefore(all[..d], m);
    }
  }

  lemma PassedHasRow(table: map<Mac, Device>, all: seq<Step>, m: Mac, d: nat)
    requires IsRun(table, all) && d <= |all| && Passed(After(table, all[..d]), m)
    ensures m in After(table, all[..d]).table
  {
    RunPrefix(table, all, d);
    PassedStored(table, all[..d], m);
    StoredRow(table, all[..d], m);
    CrashLoads(After(table, all[..d]));
  }

  // ----- The two cases left out -------------------------------------------------------------------

  /** Neither a mark of `m` nor a crash since step `n`. */
  predicate Unmarked(all: seq<Step>, n: nat, m: Mac) {
    forall j :: n <= j < |all| ==> !all[j].Crash? && all[j] != Mark(m)
  }

  /** No upsert of `m` begins from step `n` on. */
  predicate NoUpsert(all: seq<Step>, n: nat, m: Mac) {
    forall j :: n <= j < |all| ==> !IsUpsert(all[j], m)
  }

  /** `m` is not dirty, no flush has it on its list, and its row is `row`. */
  predicate Shelved(s: State, m: Mac, row: Option<Device>) {
    m !in s.dirty && m !in OrderOf(s.flush) && Lookup(s.table, m) == row
  }

  lemma ShelvedStep(s: State, step: Step, m: Mac, row: Option<Device>)
    requires Shaped(s) && Enabled(s, step) && Shelved(s, m, row) && !step.Crash? && step != Mark(m)
    ensures Shelved(Apply(s, step), m, row)
  {
    if step.Snapshot? {
      assert m !in Elements(step.order);
    }
    assert step != Store(m);
    TableFrame(s, step, m);
  }

  ghost predicate ShelvedAt(table: map<Mac, Device>, all: seq<Step>, m: Mac, row: Option<Device>, i: nat) {
    i <= |all| && Shelved(After(table, all[..i]), m, row)
  }

  /** Flushes pass over a MAC that is not marked: its row stays as it is. */
  lemma UnmarkedRowStays(table: map<Mac, Device>, all: seq<Step>, m: Mac, n: nat)
    requires IsRun(table, all) && n <= |all| && Unmarked(all, n, m)
    requires After(table, all[..n]).flush.Idle? && m !in After(table, all[..n]).dirty
    ensures Lookup(After(table, all).table, m) == Lookup(After(table, all[..n]).table, m)
  {
    var row := Lookup(After(table, all[..n]).table, m);
    forall i: nat | n <= i < |all| && ShelvedAt(table, all, m, row, i) ensures ShelvedAt(table, all, m, row, i + 1) {
      OneStep(table, all, m, i);
      ShelvedStep(After(table, all[..i]), all[i], m, row);
    }
    StepByStep(n, |all|, (i: nat) => ShelvedAt(table, all, m, row, i));
    assert all[..|all|] == all;
  }

  lemma HeldUntouched(table: map<Mac, Device>, all: seq<Step>, m: Mac, n: nat, i: nat)
    requires IsRun(table, all) && n <= i <= |all| && NoCrash(all, n) && NoUpsert(all, n, m)
    ensures Held(table, all, i, m) == Held(table, all, |all|, m)
  {
    HistKinds(all, m);
    HistBefore(all, m);
    HeldSince(table, all, m, i);
  }

  /** A row that was fresh at an idle moment, or was read for since, is recent. */
  lemma RecoversIfFreshOrStored(table: map<Mac, Device>, all: seq<Step>, m: Mac, n: nat)
    requires IsRun(table, all) && n <= |all| && NoCrash(all, n) && After(table, all[..n]).flush.Idle?
    requires Fresh(After(table, all[..n]), m) || Hist(all, m).stored >= n
    ensures RecoversSince(table, all, n, m)
  {
    if Hist(all, m).stored >= n {
      HistBefore(all, m);
      StoredRow(table, all, m);
      assert SameColumns(Reopened(table, all, m), Held(table, all, Hist(all, m).stored, m));
    } else {
      FreshStaysRecent(table, all, m, n);
    }
  }

  /**
   * The condition is exact: with no new upsert of a MAC since an idle moment, whatever marks
   * and flushes follow, the next crash recovers it as of that moment if and only if its row
   * was fresh then or a flush has stored it from a read since. For a MAC that is neither
   * dirty nor mid-upsert there, `CleanRowsAreFresh` says when it is fresh.
   */
  lemma RecoversIffFresh(table: map<Mac, Device>, all: seq<Step>, m: Mac, n: nat)
    requires IsRun(table, all) && n <= |all| && NoCrash(all, n) && NoUpsert(all, n, m)
    requires After(table, all[..n]).flush.Idle?
    ensures RecoversSince(table, all, n, m) <==> Fresh(After(table, all[..n]), m) || Hist(all, m).stored >= n
  {
    if Fresh(After(table, all[..n]), m) || Hist(all, m).stored >= n {
      RecoversIfFreshOrStored(table, all, m, n);
    } else {
      SinceIdle(table, all, m, n);
      CrashLoads(After(table, all));
      forall i: nat | n <= i <= |all| ensures Held(table, all, i, m) == Lookup(After(table, all[..n]).cache, m) {
        HeldUntouched(table, all, m, n, i);
        HeldUntouched(table, all, m, n, n);
      }
    }
  }

  /** A snapshot reads nothing: with nothing after it, no store can be of a later read. */
  lemma NothingStoredYet(all: seq<Step>, m: Mac, n: nat)
    requires |all| == n + 1 && all[n].Snapshot?
    ensures Hist(all, m).stored < n
  {
    HistKinds(all, m);
  }

  /** An upsert under way: the cache is written, the mark is not, and the flush finds nothing to do. */
  function PendingRun(d: Device): seq<Step> {
    [Upsert(d), Snapshot([])]
  }

  /** Both conditions are needed: a device caught mid-upsert by a successful flush is lost by a crash. */
  lemma PendingCanBeLost(d: Device)
    ensures var all := PendingRun(d);
      && IsRun(map[], all) && Succeeds(all, 1, 1) && NoCrash(all, 1)
      && d.mac in After(map[], all[..1]).cache && d.mac in After(map[], all[..1]).pending
      && !RecoversSince(map[], all, 1, d.mac)
  {
    var all := PendingRun(d);
    PendingState(d);
    assert all[..1] == [Upsert(d)];
    assert Elements([]) == {};
    ExtendRun(map[], [Upsert(d)], Snapshot([]), MidUpsert(d));
    assert [Upsert(d)] + [Snapshot([])] == all;
    NothingStoredYet(all, d.mac, 1);
    RecoversIffFresh(map[], all, d.mac, 1);
  }

  /** The cache is written and the mark is not. */
  function MidUpsert(d: Device): State {
    State(map[d.mac := d], {}, multiset{d.mac}, map[], Idle)
  }

  lemma PendingState(d: Device)
    ensures IsRun(map[], [Upsert(d)]) && After(map[], [Upsert(d)]) == MidUpsert(d)
  {
    ExtendRun(map[], [], Upsert(d), Open(map[]));
    assert [] + [Upsert(d)] == [Upsert(d)];
  }

  /** The losing run, followed by another flush that finds nothing to do. */
  function OvertakenRun(d: Device, changed: Device): seq<Step> {
    LosingRun(d, changed) + [Snapshot([])]
  }

  /** A device whose update a flush has overtaken is not saved by the next flush either. */
  lemma OvertakenStaysLost(d: Device, changed: Device)
    requires changed.mac == d.mac && Columns(changed) != Columns(d)
    ensures var all := OvertakenRun(d, changed);
      && IsRun(map[], all) && Succeeds(all, 10, 10) && NoCrash(all, 10)
      && d.mac in After(map[], all[..10]).cache && d.mac !in After(map[], all[..10]).pending
      && !RecoversSince(map[], all, 10, d.mac)
  {
    var all, before := OvertakenRun(d, changed), LosingRun(d, changed);
    assert all[..10] == before;
    UpdatesCanBeLost(d, changed);
    assert Elements([]) == {};
    ExtendRun(map[], before, Snapshot([]), After(map[], before));
    NothingStoredYet(all, d.mac, 10);
    RecoversIffFresh(map[], all, d.mac, 10);
  }
}
