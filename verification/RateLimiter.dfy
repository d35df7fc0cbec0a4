/** The sliding-window limiter on failed authentication, against counting over the full history. */
module RateLimiter {
  import opened Common

  /** Times in nanoseconds; `maxFailures` is a u32, 0 switching the limiter off. */
  datatype Config = Config(maxFailures: nat, window: Time, block: Time)

  datatype Entry = Entry(timestamps: seq<Time>, blockedUntil: Option<Time>)

  const EMPTY := Entry([], None)

  function Retain(ts: seq<Time>, now: Time, window: Time): (r: seq<Time>)
    ensures |r| <= |ts|
  {
    if ts == [] then []
    else Retain(ts[..|ts| - 1], now, window) + (if Elapsed(now, ts[|ts| - 1]) < window then [ts[|ts| - 1]] else [])
  }

  predicate EntryBlocked(e: Entry, now: Time) {
    e.blockedUntil.Some? && now < e.blockedUntil.value
  }

  /** What `record_failure` leaves in one IP's entry; the list length is cast to a u32. */
  function Record(cfg: Config, e: Entry, now: Time): Entry {
    if EntryBlocked(e, now) then e
    else
      var ts := Retain(e.timestamps, now, cfg.window) + [now];
      if |ts| % 0x1_0000_0000 >= cfg.maxFailures then Entry([], Some(now + cfg.block)) else Entry(ts, None)
  }

  function Lookup(failures: map<Ip, Entry>, ip: Ip): Entry {
    if ip in failures then failures[ip] else EMPTY
  }

  class RateLimiter {
    const cfg: Config
    var failures: map<Ip, Entry>

    constructor (cfg: Config)
      ensures this.cfg == cfg && failures == map[]
    {
      this.cfg, this.failures := cfg, map[];
    }

    method IsBlocked(ip: Ip, now: Time) returns (blocked: bool)
      ensures blocked <==> cfg.maxFailures != 0 && EntryBlocked(Lookup(failures, ip), now)
    {
      if cfg.maxFailures == 0 || ip !in failures {
        return false;
      }
      blocked := failures[ip].blockedUntil.Some? && now < failures[ip].blockedUntil.value;
    }

    /** Changes the entry of `ip` and no other. */
    method RecordFailure(ip: Ip, now: Time)
      modifies this
      ensures cfg.maxFailures == 0 ==> failures == old(failures)
      ensures cfg.maxFailures != 0 ==>
        failures == old(failures)[ip := Record(cfg, Lookup(old(failures), ip), now)]
    {
      if cfg.maxFailures == 0 {
        return;
      }
      var entry := if ip in failures then failures[ip] else EMPTY;
      if entry.blockedUntil.Some? && now < entry.blockedUntil.value {
        failures := failures[ip := entry];
        return;
      }
      var timestamps := [];
      var i := 0;
      while i < |entry.timestamps|
        invariant 0 <= i <= |entry.timestamps|
        invariant timestamps == Retain(entry.timestamps[..i], now, cfg.window)
      {
        assert entry.timestamps[..i + 1][..i] == entry.timestamps[..i];
        if Elapsed(now, entry.timestamps[i]) < cfg.window {
          timestamps := timestamps + [entry.timestamps[i]];
        }
        i := i + 1;
      }
      assert entry.timestamps[..i] == entry.timestamps;
      timestamps := timestamps + [now];
      if |timestamps| % 0x1_0000_0000 >= cfg.maxFailures {
        entry := Entry([], Some(now + cfg.block));
      } else {
        entry := Entry(timestamps, None);
      }
      failures := failures[ip := entry];
    }
  }

  // ----- Counting over the full history ---------------------------------------------

  datatype Verdict = Ignored | Counted | Triggered

  /** A recorded failure of one IP and what became of it. */
  datatype Call = Call(at: Time, verdict: Verdict)

  /** Blocked at `now`: some trigger, however old, covers it. */
  predicate Covered(past: seq<Call>, now: Time, block: Time) {
    exists i :: 0 <= i < |past| && past[i].verdict.Triggered? && past[i].at <= now < past[i].at + block
  }

  /** Times of all counted failures since the last trigger, never pruned. */
  function Since(past: seq<Call>): seq<Time> {
    if past == [] || past[|past| - 1].verdict.Triggered? then []
    else Since(past[..|past| - 1]) + (if past[|past| - 1].verdict.Counted? then [past[|past| - 1].at] else [])
  }

  /** What should become of a failure at `now`, judged on the full history. */
  ghost function Judge(cfg: Config, past: seq<Call>, now: Time): Verdict {
    if Covered(past, now, cfg.block) then Ignored
    else if |Retain(Since(past), now, cfg.window)| + 1 >= cfg.maxFailures then Triggered
    else Counted
  }

  ghost function Chronicle(cfg: Config, calls: seq<Time>): seq<Call> {
    if calls == [] then []
    else
      var past := Chronicle(cfg, calls[..|calls| - 1]);
      past + [Call(calls[|calls| - 1], Judge(cfg, past, calls[|calls| - 1]))]
  }

  function Replay(cfg: Config, calls: seq<Time>): Entry {
    if calls == [] then EMPTY else Record(cfg, Replay(cfg, calls[..|calls| - 1]), calls[|calls| - 1])
  }

  predicate Clocked(calls: seq<Time>) {
    forall i, j :: 0 <= i <= j < |calls| ==> calls[i] <= calls[j]
  }

  // ----- The pruned entry decides alike -----------------------------------------------

  lemma {:induction false} RetainTwice(ts: seq<Time>, now: Time, later: Time, window: Time)
    requires now <= later && forall i :: 0 <= i < |ts| ==> ts[i] <= now
    ensures Retain(Retain(ts, now, window), later, window) == Retain(ts, later, window)
  {
    if ts != [] {
      var rest, t := ts[..|ts| - 1], ts[|ts| - 1];
      RetainTwice(rest, now, later, window);
      var kept := Retain(rest, now, window);
      if Elapsed(now, t) < window {
        assert (kept + [t])[..|kept|] == kept;
      } else {
        assert kept + [] == kept;
      }
    }
  }

  lemma RetainSnoc(ts: seq<Time>, t: Time, later: Time, window: Time)
    ensures Retain(ts + [t], later, window)
         == Retain(ts, later, window) + (if Elapsed(later, t) < window then [t] else [])
  {
    assert (ts + [t])[..|ts|] == ts;
  }

  predicate Until(past: seq<Call>, last: Time) {
    && (forall i :: 0 <= i < |past| ==> past[i].at <= last)
    && (forall i :: 0 <= i < |Since(past)| ==> Since(past)[i] <= last)
  }

  /** At time `t` the entry blocks and prunes as the full history would. */
  ghost predicate Alike(cfg: Config, e: Entry, past: seq<Call>, t: Time) {
    && (EntryBlocked(e, t) <==> Covered(past, t, cfg.block))
    && Retain(e.timestamps, t, cfg.window) == Retain(Since(past), t, cfg.window)
  }

  /** From `last` on, the entry stands for the full history. */
  ghost predicate Mirrors(cfg: Config, e: Entry, past: seq<Call>, last: Time) {
    && Until(past, last)
    && |e.timestamps| < cfg.maxFailures
    && forall t :: t >= last ==> Alike(cfg, e, past, t)
  }

  lemma SinceSnoc(past: seq<Call>, c: Call)
    ensures Since(past + [c]) == match c.verdict
      case Triggered => []
      case Counted => Since(past) + [c.at]
      case Ignored => Since(past)
  {
    assert (past + [c])[..|past|] == past;
    assert Since(past) + [] == Since(past);
  }

  lemma CoveredSnoc(past: seq<Call>, c: Call, t: Time, block: Time)
    ensures Covered(past + [c], t, block)
       <==> Covered(past, t, block) || (c.verdict.Triggered? && c.at <= t < c.at + block)
  {
    if Covered(past, t, block) {
      var i :| 0 <= i < |past| && past[i].verdict.Triggered? && past[i].at <= t < past[i].at + block;
      assert (past + [c])[i] == past[i];
    }
    if c.verdict.Triggered? && c.at <= t < c.at + block {
      assert (past + [c])[|past|] == c;
    }
  }

  /** Once uncovered, past triggers never cover again. */
  lemma UncoveredStays(past: seq<Call>, now: Time, later: Time, block: Time)
    requires now <= later && !Covered(past, now, block)
    requires forall i :: 0 <= i < |past| ==> past[i].at <= now
    ensures !Covered(past, later, block)
  {
  }

  /** The entry after a call, told by the full history's verdict. */
  lemma RecordByVerdict(cfg: Config, e: Entry, past: seq<Call>, last: Time, now: Time)
    requires 0 < cfg.maxFailures < 0x1_0000_0000 && last <= now && Mirrors(cfg, e, past, last)
    ensures Record(cfg, e, now) == match Judge(cfg, past, now)
      case Ignored => e
      case Triggered => Entry([], Some(now + cfg.block))
      case Counted => Entry(Retain(Since(past), now, cfg.window) + [now], None)
    ensures |Record(cfg, e, now).timestamps| < cfg.maxFailures
  {
    assert Alike(cfg, e, past, now);
  }

  lemma UntilSnoc(past: seq<Call>, last: Time, c: Call)
    requires Until(past, last) && last <= c.at
    ensures Until(past + [c], c.at)
  {
    SinceSnoc(past, c);
    assert forall i :: 0 <= i < |past| ==> (past + [c])[i] == past[i];
  }

  lemma BlocksAlike(cfg: Config, e: Entry, past: seq<Call>, last: Time, now: Time, t: Time)
    requires 0 < cfg.maxFailures < 0x1_0000_0000 && last <= now <= t && Mirrors(cfg, e, past, last)
    ensures EntryBlocked(Record(cfg, e, now), t)
       <==> Covered(past + [Call(now, Judge(cfg, past, now))], t, cfg.block)
  {
    RecordByVerdict(cfg, e, past, last, now);
    assert Alike(cfg, e, past, t);
    CoveredSnoc(past, Call(now, Judge(cfg, past, now)), t, cfg.block);
    if !Judge(cfg, past, now).Ignored? {
      UncoveredStays(past, now, t, cfg.block);
    }
  }

  lemma PrunesAlike(cfg: Config, e: Entry, past: seq<Call>, last: Time, now: Time, t: Time)
    requires 0 < cfg.maxFailures < 0x1_0000_0000 && last <= now <= t && Mirrors(cfg, e, past, last)
    ensures Retain(Record(cfg, e, now).timestamps, t, cfg.window)
         == Retain(Since(past + [Call(now, Judge(cfg, past, now))]), t, cfg.window)
  {
    RecordByVerdict(cfg, e, past, last, now);
    assert Alike(cfg, e, past, t);
    SinceSnoc(past, Call(now, Judge(cfg, past, now)));
    if Judge(cfg, past, now).Counted? {
      RetainTwice(Since(past), now, t, cfg.window);
      RetainSnoc(Retain(Since(past), now, cfg.window), now, t, cfg.window);
      RetainSnoc(Since(past), now, t, cfg.window);
    }
  }

  lemma RecordMirrors(cfg: Config, e: Entry, past: seq<Call>, last: Time, now: Time)
    requires 0 < cfg.maxFailures < 0x1_0000_0000 && last <= now && Mirrors(cfg, e, past, last)
    ensures Mirrors(cfg, Record(cfg, e, now), past + [Call(now, Judge(cfg, past, now))], now)
  {
    var c := Call(now, Judge(cfg, past, now));
    RecordByVerdict(cfg, e, past, last, now);
    UntilSnoc(past, last, c);
    forall t | t >= now ensures Alike(cfg, Record(cfg, e, now), past + [c], t) {
      BlocksAlike(cfg, e, past, last, now, t);
      PrunesAlike(cfg, e, past, last, now, t);
    }
  }

  /**
   * Refinement: over every run with a clock that does not go back, the pruned entry
   * blocks at any later time exactly when some trigger covers that time, and its list
   * stays below the threshold, so the cast to u32 never loses anything.
   */
  lemma {:induction false} EntryRefinesHistory(cfg: Config, calls: seq<Time>)
    requires 0 < cfg.maxFailures < 0x1_0000_0000 && Clocked(calls)
    ensures Mirrors(cfg, Replay(cfg, calls), Chronicle(cfg, calls), if calls == [] then 0 else calls[|calls| - 1])
  {
    if calls != [] {
      var n := |calls| - 1;
      EntryRefinesHistory(cfg, calls[..n]);
      RecordMirrors(cfg, Replay(cfg, calls[..n]), Chronicle(cfg, calls[..n]), if n == 0 then 0 else calls[n - 1],
                    calls[n]);
    }
  }

  // ----- Bounds on what gets through ------------------------------------------------------

  predicate Ordered(past: seq<Call>) {
    forall i, j :: 0 <= i <= j < |past| ==> past[i].at <= past[j].at
  }

  /** Call `j` got the verdict that the calls before it demand. */
  ghost predicate JudgedAt(cfg: Config, past: seq<Call>, j: nat)
    requires j < |past|
  {
    past[j].verdict == Judge(cfg, past[..j], past[j].at)
  }

  ghost predicate Judged(cfg: Config, past: seq<Call>) {
    Ordered(past) && forall j :: 0 <= j < |past| ==> JudgedAt(cfg, past, j)
  }

  /** Every replayed history is judged call by call. */
  lemma {:induction false} ChronicleIsJudged(cfg: Config, calls: seq<Time>)
    requires Clocked(calls)
    ensures var past := Chronicle(cfg, calls);
      |past| == |calls| && (forall i :: 0 <= i < |calls| ==> past[i].at == calls[i]) && Judged(cfg, past)
  {
    if calls != [] {
      var n := |calls| - 1;
      ChronicleIsJudged(cfg, calls[..n]);
      JudgedSnoc(cfg, Chronicle(cfg, calls[..n]), calls[n]);
    }
  }

  lemma JudgedSnoc(cfg: Config, past: seq<Call>, now: Time)
    requires Judged(cfg, past) && forall i :: 0 <= i < |past| ==> past[i].at <= now
    ensures Judged(cfg, past + [Call(now, Judge(cfg, past, now))])
  {
    var more := past + [Call(now, Judge(cfg, past, now))];
    forall j | 0 <= j < |more| ensures JudgedAt(cfg, more, j) {
      if j < |past| {
        assert JudgedAt(cfg, past, j);
        assert more[..j] == past[..j];
      } else {
        assert more[..j] == past;
      }
    }
  }

  /** Failures counted since the last trigger that are still inside the window at `now`. */
  ghost function Recent(past: seq<Call>, now: Time, window: Time): set<nat> {
    set i: nat | i < |past| && past[i].verdict.Counted? && now < past[i].at + window
                 && forall k :: i < k < |past| ==> !past[k].verdict.Triggered?
  }

  lemma {:induction false} RetainedAreRecent(past: seq<Call>, now: Time, window: Time)
    requires forall i :: 0 <= i < |past| ==> past[i].at <= now
    ensures |Retain(Since(past), now, window)| == |Recent(past, now, window)|
  {
    if past == [] {
      assert Recent(past, now, window) == {};
    } else if past[|past| - 1].verdict.Triggered? {
      assert Recent(past, now, window) == {};
    } else {
      var front, c := past[..|past| - 1], past[|past| - 1];
      RetainedAreRecent(front, now, window);
      RecentSnoc(front, c, now, window);
      assert past == front + [c];
      SinceSnoc(front, c);
      if c.verdict.Counted? { RetainSnoc(Since(front), c.at, now, window); }
    }
  }

  lemma RecentSnoc(front: seq<Call>, c: Call, now: Time, window: Time)
    requires !c.verdict.Triggered?
    ensures Recent(front + [c], now, window)
         == Recent(front, now, window) + (if c.verdict.Counted? && now < c.at + window then {|front|} else {})
  {
    var past := front + [c];
    forall i: nat | i < |front| ensures i in Recent(past, now, window) <==> i in Recent(front, now, window) {
      assert past[i] == front[i];
      assert (forall k :: i < k < |past| ==> !past[k].verdict.Triggered?)
        <==> (forall k :: i < k < |front| ==> !front[k].verdict.Triggered?) by {
        assert forall k :: i < k < |front| ==> past[k] == front[k];
      }
    }
  }

  /** The verdict on every failure of every run, by the block that covers it and the failures that still count. */
  lemma VerdictsAreTrue(cfg: Config, calls: seq<Time>, j: nat)
    requires Clocked(calls) && j < |calls|
    ensures |Chronicle(cfg, calls)| == |calls|
    ensures var past := Chronicle(cfg, calls); var before := past[..j];
      && past[j].at == calls[j]
      && (past[j].verdict.Ignored? <==> Covered(before, calls[j], cfg.block))
      && (past[j].verdict.Triggered?
          <==> !Covered(before, calls[j], cfg.block)
               && |Recent(before, calls[j], cfg.window)| + 1 >= cfg.maxFailures)
  {
    var past := Chronicle(cfg, calls);
    ChronicleIsJudged(cfg, calls);
    assert JudgedAt(cfg, past, j);
    RetainedAreRecent(past[..j], calls[j], cfg.window);
  }

  /** After a trigger nothing is counted, and nothing triggers, until the block is over. */
  lemma TriggersAreSpaced(cfg: Config, past: seq<Call>, i: nat, j: nat)
    requires Judged(cfg, past) && i < j < |past|
    requires past[i].verdict.Triggered? && !past[j].verdict.Ignored?
    ensures past[j].at >= past[i].at + cfg.block
  {
    assert JudgedAt(cfg, past, j);
    assert past[..j][i] == past[i];
  }

  /** Failures that were not ignored, among the calls `lo..hi`. */
  function Live(past: seq<Call>, lo: nat, hi: nat): nat
    requires lo <= hi <= |past|
  {
    if lo == hi then 0 else Live(past, lo, hi - 1) + (if past[hi - 1].verdict.Ignored? then 0 else 1)
  }

  predicate NoTrigger(past: seq<Call>, lo: nat, hi: nat) {
    forall k :: lo <= k < hi && k < |past| ==> !past[k].verdict.Triggered?
  }

  /** All live failures of a stretch without trigger are still counted within the window. */
  lemma {:induction false} LiveAreRetained(past: seq<Call>, lo: nat, hi: nat, now: Time, window: Time)
    requires lo <= hi <= |past| && NoTrigger(past, lo, hi)
    requires forall k :: lo <= k < hi ==> Elapsed(now, past[k].at) < window
    ensures Live(past, lo, hi) <= |Retain(Since(past[..hi]), now, window)|
    decreases hi - lo
  {
    if lo < hi {
      LiveAreRetained(past, lo, hi - 1, now, window);
      var before, c := past[..hi - 1], past[hi - 1];
      assert past[..hi] == before + [c];
      SinceSnoc(before, c);
      RetainSnoc(Since(before), c.at, now, window);
    }
  }

  lemma CountedMeansFew(cfg: Config, past: seq<Call>, lo: nat, j: nat)
    requires Judged(cfg, past) && lo <= j < |past| && past[j].verdict.Counted? && NoTrigger(past, lo, j)
    requires past[j].at - past[lo].at < cfg.window
    ensures Live(past, lo, j) + 1 < cfg.maxFailures
  {
    assert JudgedAt(cfg, past, j);
    forall k | lo <= k < j ensures Elapsed(past[j].at, past[k].at) < cfg.window {
      assert past[lo].at <= past[k].at;
    }
    LiveAreRetained(past, lo, j, past[j].at, cfg.window);
  }

  /** Before any trigger, fewer than `maxFailures` live failures fit in a window. */
  lemma {:induction false} FewWithoutTrigger(cfg: Config, past: seq<Call>, lo: nat, hi: nat)
    requires Judged(cfg, past) && cfg.maxFailures > 0 && lo <= hi <= |past| && NoTrigger(past, lo, hi)
    requires lo < hi ==> past[hi - 1].at - past[lo].at < cfg.window
    ensures Live(past, lo, hi) < cfg.maxFailures
    decreases hi - lo
  {
    if lo < hi {
      if past[hi - 1].verdict.Counted? {
        CountedMeansFew(cfg, past, lo, hi - 1);
      } else {
        assert lo < hi - 1 ==> past[hi - 2].at <= past[hi - 1].at;
        FewWithoutTrigger(cfg, past, lo, hi - 1);
      }
    }
  }

  /**
   * Rate bound: when a block lasts at least as long as the window, the failures of one IP
   * that are not turned away within less than one window number at most `maxFailures`.
   */
  lemma {:induction false} RateBound(cfg: Config, past: seq<Call>, lo: nat, hi: nat)
    requires Judged(cfg, past) && cfg.maxFailures > 0 && cfg.block >= cfg.window
    requires lo < hi <= |past| && past[hi - 1].at - past[lo].at < cfg.window
    ensures Live(past, lo, hi) <= cfg.maxFailures
    decreases hi
  {
    assert lo < hi - 1 ==> past[hi - 2].at <= past[hi - 1].at;
    if past[hi - 1].verdict.Ignored? {
      if lo < hi - 1 {
        RateBound(cfg, past, lo, hi - 1);
      }
    } else {
      forall k | lo <= k < hi - 1 ensures !past[k].verdict.Triggered? {
        assert past[lo].at <= past[k].at;
        if past[k].verdict.Triggered? {
          TriggersAreSpaced(cfg, past, k, hi - 1);
        }
      }
      FewWithoutTrigger(cfg, past, lo, hi - 1);
    }
  }

  // ----- The condition of the bound is needed ----------------------------------------------

  lemma ChronicleSnoc(cfg: Config, calls: seq<Time>, now: Time)
    ensures Chronicle(cfg, calls + [now])
         == Chronicle(cfg, calls) + [Call(now, Judge(cfg, Chronicle(cfg, calls), now))]
  {
    assert (calls + [now])[..|calls|] == calls;
  }

  /** `n` failures counted at time 0 and nothing else. */
  ghost predicate Flat(past: seq<Call>, n: nat, window: Time) {
    && |past| == n && (forall i :: 0 <= i < n ==> past[i] == Call(0, Counted))
    && |Retain(Since(past), 0, window)| == n
  }

  lemma FlatSnoc(past: seq<Call>, n: nat, window: Time)
    requires Flat(past, n, window) && window > 0
    ensures Flat(past + [Call(0, Counted)], n + 1, window)
  {
    SinceSnoc(past, Call(0, Counted));
    RetainSnoc(Since(past), 0, 0, window);
  }

  lemma FlatVerdict(cfg: Config, past: seq<Call>, n: nat)
    requires Flat(past, n, cfg.window) && n + 1 < cfg.maxFailures
    ensures Judge(cfg, past, 0) == Counted
  {
  }

  lemma CountedNext(cfg: Config, calls: seq<Time>, n: nat)
    requires cfg.window > 0 && n + 1 < cfg.maxFailures && Flat(Chronicle(cfg, calls), n, cfg.window)
    ensures Flat(Chronicle(cfg, calls + [0]), n + 1, cfg.window)
  {
    var past := Chronicle(cfg, calls);
    FlatVerdict(cfg, past, n);
    ChronicleSnoc(cfg, calls, 0);
    FlatSnoc(past, n, cfg.window);
  }

  /** Below the threshold, any number of failures at one instant are all counted. */
  lemma {:induction false} CountedAtOnce(cfg: Config, n: nat) returns (calls: seq<Time>)
    requires cfg.window > 0 && n < cfg.maxFailures
    ensures |calls| == n && forall i :: 0 <= i < n ==> calls[i] == 0
    ensures Flat(Chronicle(cfg, calls), n, cfg.window)
  {
    if n == 0 {
      calls := [];
    } else {
      var fewer := CountedAtOnce(cfg, n - 1);
      CountedNext(cfg, fewer, n - 1);
      calls := fewer + [0];
    }
  }

  predicate NoneIgnored(past: seq<Call>) {
    forall i :: 0 <= i < |past| ==> !past[i].verdict.Ignored?
  }

  lemma {:induction false} AllLive(past: seq<Call>, lo: nat, hi: nat)
    requires lo <= hi <= |past| && NoneIgnored(past)
    ensures Live(past, lo, hi) == hi - lo
    decreases hi
  {
    if lo < hi { AllLive(past, lo, hi - 1); }
  }

  /** A call that no trigger covers is live. */
  lemma UncoveredIsLive(cfg: Config, calls: seq<Time>, now: Time)
    requires NoneIgnored(Chronicle(cfg, calls)) && !Covered(Chronicle(cfg, calls), now, cfg.block)
    ensures NoneIgnored(Chronicle(cfg, calls + [now]))
    ensures |Chronicle(cfg, calls + [now])| == |Chronicle(cfg, calls)| + 1
    ensures Chronicle(cfg, calls + [now])[|Chronicle(cfg, calls)|].at == now
  {
    ChronicleSnoc(cfg, calls, now);
  }

  lemma FlatIsLive(cfg: Config, past: seq<Call>, n: nat)
    requires Flat(past, n, cfg.window)
    ensures NoneIgnored(past) && !Covered(past, 0, cfg.block)
  {
  }

  /** A block counted from time 0 covers nothing from its end on. */
  lemma NotCoveredAfterBlock(cfg: Config, calls: seq<Time>)
    requires forall i :: 0 <= i < |calls| ==> calls[i] == 0
    ensures !Covered(Chronicle(cfg, calls), cfg.block, cfg.block)
  {
    ChronicleIsJudged(cfg, calls);
  }

  /** With a block shorter than the window, one failure too many gets through within a window. */
  lemma ShortBlockBreaksBound(cfg: Config) returns (calls: seq<Time>)
    requires cfg.maxFailures > 0 && cfg.block < cfg.window
    ensures Clocked(calls) && |calls| == cfg.maxFailures + 1 && calls[cfg.maxFailures] - calls[0] < cfg.window
    ensures var past := Chronicle(cfg, calls);
      |past| == cfg.maxFailures + 1 && Live(past, 0, cfg.maxFailures + 1) == cfg.maxFailures + 1
  {
    var zeros := CountedAtOnce(cfg, cfg.maxFailures - 1);
    FlatIsLive(cfg, Chronicle(cfg, zeros), cfg.maxFailures - 1);
    UncoveredIsLive(cfg, zeros, 0);
    NotCoveredAfterBlock(cfg, zeros + [0]);
    UncoveredIsLive(cfg, zeros + [0], cfg.block);
    calls := zeros + [0] + [cfg.block];
    assert Clocked(calls);
    AllLive(Chronicle(cfg, calls), 0, cfg.maxFailures + 1);
  }
}
