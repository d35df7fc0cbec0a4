/** How many guesses one address gets, when its requests may overlap in any way. */
module AuthRuns {
  import opened Common
  import opened RateLimiter
  import opened Auth

  /** The parts of an authenticator that do not change. */
  datatype Keys = Keys(readKey: Option<Hash>, adminKey: Option<Hash>, sha: string -> Hash, cfg: Config)

  /** Requests are checked, and the limiter is on. */
  predicate Guarded(k: Keys) {
    k.readKey.Some? && 0 < k.cfg.maxFailures < 0x1_0000_0000
  }

  /** What a request is told that meets `e` when it is checked at `at`. */
  function Answer(k: Keys, e: Entry, q: Request, at: Time): Outcome {
    if EntryBlocked(e, at) then Refused(RateLimited) else Decide(k.readKey, k.adminKey, k.sha, q)
  }

  /** The two moments at which a request touches the limiter; `who` names the request while it is served. */
  datatype Step =
    | Begin(who: nat, q: Request, at: Time)   // is_blocked, then the decision
    | Note(who: nat, at: Time)                // record_failure, then "invalid key"

  /** A request that matched no key: when it was checked, and how many failures were recorded by then. */
  datatype Guess = Guess(checked: Time, seen: nat)

  /** One address: its entry, the requests still to be recorded, and what was recorded so far. */
  datatype State = State(entry: Entry, waiting: map<nat, Guess>, calls: seq<Time>, guesses: seq<Guess>)

  const START := State(EMPTY, map[], [], [])

  predicate Enabled(s: State, step: Step) {
    match step
    case Begin(who, _, _) => who !in s.waiting
    case Note(who, _) => who in s.waiting
  }

  function Apply(k: Keys, s: State, step: Step): State
    requires Enabled(s, step)
  {
    match step
    case Begin(who, q, at) =>
      if Answer(k, s.entry, q, at) != Refused(InvalidKey) then s
      else s.(waiting := s.waiting[who := Guess(at, |s.calls|)])
    case Note(who, at) =>
      State(Record(k.cfg, s.entry, at), s.waiting - {who}, s.calls + [at], s.guesses + [s.waiting[who]])
  }

  function After(k: Keys, steps: seq<Step>): State {
    if steps == [] then START
    else
      var s := After(k, steps[..|steps| - 1]);
      if Enabled(s, steps[|steps| - 1]) then Apply(k, s, steps[|steps| - 1]) else s
  }

  function Latest(steps: seq<Step>): Time {
    if steps == [] then 0 else steps[|steps| - 1].at
  }

  /** Any interleaving of requests, in which every step is enabled and the clock does not go back. */
  predicate IsRun(k: Keys, steps: seq<Step>) {
    steps == [] ||
    var n := |steps| - 1;
    IsRun(k, steps[..n]) && Enabled(After(k, steps[..n]), steps[n]) && Latest(steps[..n]) <= steps[n].at
  }

  // ----- What every run keeps --------------------------------------------------------------

  /** The request was not blocked when it was checked, after the first `seen` failures. */
  ghost predicate Fair(cfg: Config, calls: seq<Time>, g: Guess) {
    && g.seen <= |calls| && !Covered(Chronicle(cfg, calls[..g.seen]), g.checked, cfg.block)
    && (forall i :: 0 <= i < g.seen ==> calls[i] <= g.checked)
    && (forall i :: g.seen <= i < |calls| ==> g.checked <= calls[i])
  }

  lemma FairStays(cfg: Config, calls: seq<Time>, g: Guess, at: Time)
    requires Fair(cfg, calls, g) && g.checked <= at
    ensures Fair(cfg, calls + [at], g)
  {
    assert (calls + [at])[..g.seen] == calls[..g.seen];
  }

  ghost predicate AllFair(cfg: Config, s: State, now: Time) {
    && (forall who :: who in s.waiting ==> Fair(cfg, s.calls, s.waiting[who]) && s.waiting[who].checked <= now)
    && (forall n :: 0 <= n < |s.guesses| ==> Fair(cfg, s.calls, s.guesses[n]) && s.guesses[n].seen <= n)
  }

  /** The entry is that of the recorded failures, all of them up to `now`. */
  ghost predicate Replayed(cfg: Config, s: State, now: Time) {
    && s.entry == Replay(cfg, s.calls) && |s.guesses| == |s.calls|
    && Clocked(s.calls) && forall i :: 0 <= i < |s.calls| ==> s.calls[i] <= now
  }

  lemma ReplayedStep(k: Keys, s: State, step: Step, now: Time)
    requires Replayed(k.cfg, s, now) && Enabled(s, step) && now <= step.at
    ensures Replayed(k.cfg, Apply(k, s, step), step.at)
  {
    ReplaySnoc(k, s, step);
    if step.Note? {
      ClockedSnoc(s.calls, step.at);
    }
  }

  lemma ReplaySnoc(k: Keys, s: State, step: Step)
    requires s.entry == Replay(k.cfg, s.calls) && Enabled(s, step)
    ensures Apply(k, s, step).entry == Replay(k.cfg, Apply(k, s, step).calls)
  {
    if step.Note? {
      assert (s.calls + [step.at])[..|s.calls|] == s.calls;
    }
  }

  lemma ClockedSnoc(calls: seq<Time>, at: Time)
    requires Clocked(calls) && forall i :: 0 <= i < |calls| ==> calls[i] <= at
    ensures Clocked(calls + [at])
  {
  }

  /** A request that is not blocked finds no trigger that covers its check. */
  lemma UnblockedIsFair(k: Keys, s: State, at: Time, now: Time)
    requires Guarded(k) && Replayed(k.cfg, s, now) && now <= at && !EntryBlocked(s.entry, at)
    ensures Fair(k.cfg, s.calls, Guess(at, |s.calls|))
  {
    EntryRefinesHistory(k.cfg, s.calls);
    assert Alike(k.cfg, s.entry, Chronicle(k.cfg, s.calls), at);
    assert s.calls[..|s.calls|] == s.calls;
  }

  lemma NoteStaysFair(k: Keys, s: State, who: nat, at: Time, now: Time)
    requires AllFair(k.cfg, s, now) && |s.guesses| == |s.calls| && who in s.waiting && now <= at
    requires forall n :: 0 <= n < |s.guesses| ==> s.guesses[n].checked <= now
    ensures AllFair(k.cfg, Apply(k, s, Note(who, at)), at)
  {
    var t := Apply(k, s, Note(who, at));
    forall w | w in t.waiting ensures Fair(k.cfg, t.calls, t.waiting[w]) && t.waiting[w].checked <= at {
      FairStays(k.cfg, s.calls, s.waiting[w], at);
    }
    forall n | 0 <= n < |t.guesses| ensures Fair(k.cfg, t.calls, t.guesses[n]) && t.guesses[n].seen <= n {
      FairStays(k.cfg, s.calls, if n < |s.guesses| then s.guesses[n] else s.waiting[who], at);
    }
  }

  lemma BeginStaysFair(k: Keys, s: State, step: Step, now: Time)
    requires Guarded(k) && step.Begin? && Enabled(s, step) && now <= step.at
    requires AllFair(k.cfg, s, now) && Replayed(k.cfg, s, now)
    ensures AllFair(k.cfg, Apply(k, s, step), step.at)
  {
    if !EntryBlocked(s.entry, step.at) {
      UnblockedIsFair(k, s, step.at, now);
    }
  }

  /** Checks precede their records. */
  lemma CheckedBefore(cfg: Config, s: State, now: Time)
    requires AllFair(cfg, s, now) && Replayed(cfg, s, now)
    ensures forall n :: 0 <= n < |s.guesses| ==> s.guesses[n].checked <= now
  {
    forall n | 0 <= n < |s.guesses| ensures s.guesses[n].checked <= now {
      assert Fair(cfg, s.calls, s.guesses[n]);
      assert s.guesses[n].checked <= s.calls[n] <= now;
    }
  }

  lemma {:induction false} RunsAreFair(k: Keys, steps: seq<Step>)
    requires Guarded(k) && IsRun(k, steps)
    ensures AllFair(k.cfg, After(k, steps), Latest(steps)) && Replayed(k.cfg, After(k, steps), Latest(steps))
  {
    if steps != [] {
      var n := |steps| - 1;
      var s, step, now := After(k, steps[..n]), steps[n], Latest(steps[..n]);
      RunsAreFair(k, steps[..n]);
      ReplayedStep(k, s, step, now);
      if step.Note? {
        CheckedBefore(k.cfg, s, now);
        NoteStaysFair(k, s, step.who, step.at, now);
      } else {
        BeginStaysFair(k, s, step, now);
      }
    }
  }

  // ----- Which guesses the limiter ignores ---------------------------------------------------------

  /** Failure `n`, whose request was checked after `seen` failures, was overtaken: a block began in between. */
  predicate Overtaken(past: seq<Call>, seen: nat, n: nat, block: Time)
    requires n < |past|
  {
    exists i :: seen <= i < n && past[i].verdict.Triggered? && past[n].at < past[i].at + block
  }

  lemma {:induction false} ChroniclePrefix(cfg: Config, calls: seq<Time>, n: nat)
    requires n <= |calls|
    ensures |Chronicle(cfg, calls)| == |calls| && Chronicle(cfg, calls[..n]) == Chronicle(cfg, calls)[..n]
    decreases |calls|
  {
    if n == |calls| {
      assert calls[..n] == calls;
      ChronicleLength(cfg, calls);
    } else {
      var before := calls[..|calls| - 1];
      ChroniclePrefix(cfg, before, n);
      assert before[..n] == calls[..n];
    }
  }

  lemma {:induction false} ChronicleLength(cfg: Config, calls: seq<Time>)
    ensures |Chronicle(cfg, calls)| == |calls|
  {
    if calls != [] { ChronicleLength(cfg, calls[..|calls| - 1]); }
  }

  /** A recorded failure is ignored if and only if a block began between its check and its record and still lasts. */
  lemma IgnoredIffOvertaken(cfg: Config, calls: seq<Time>, g: Guess, n: nat)
    requires Clocked(calls) && n < |calls| && Fair(cfg, calls, g) && g.seen <= n
    ensures var past := Chronicle(cfg, calls);
      |past| == |calls| && (past[n].verdict.Ignored? <==> Overtaken(past, g.seen, n, cfg.block))
  {
    var past := Chronicle(cfg, calls);
    ChronicleIsJudged(cfg, calls);
    ChroniclePrefix(cfg, calls, g.seen);
    assert JudgedAt(cfg, past, n);
    var earlier, at := past[..n], past[n].at;
    if Covered(earlier, at, cfg.block) {
      var i :| 0 <= i < |earlier| && earlier[i].verdict.Triggered? && earlier[i].at <= at < earlier[i].at + cfg.block;
      OldBlocksAreOver(cfg, calls, g, n, i);
      assert past[i] == earlier[i];
    }
    if Overtaken(past, g.seen, n, cfg.block) {
      var i :| g.seen <= i < n && past[i].verdict.Triggered? && at < past[i].at + cfg.block;
      assert earlier[i] == past[i];
    }
  }

  /** A block that began before the check was over by then. */
  lemma OldBlocksAreOver(cfg: Config, calls: seq<Time>, g: Guess, n: nat, i: nat)
    requires Clocked(calls) && n < |calls| && Fair(cfg, calls, g) && g.seen <= n && i < n
    requires |Chronicle(cfg, calls)| == |calls| && Judged(cfg, Chronicle(cfg, calls))
    requires forall j :: 0 <= j < |calls| ==> Chronicle(cfg, calls)[j].at == calls[j]
    requires var past := Chronicle(cfg, calls); past[i].verdict.Triggered? && past[n].at < past[i].at + cfg.block
    ensures g.seen <= i
  {
    ChroniclePrefix(cfg, calls, g.seen);
    assert g.checked <= calls[n];
  }

  // ----- The bound ------------------------------------------------------------------------------------

  /** How many of the failures `lo..hi` were overtaken. */
  function Overtakings(past: seq<Call>, guesses: seq<Guess>, lo: nat, hi: nat, block: Time): nat
    requires lo <= hi <= |past| == |guesses|
  {
    if lo == hi then 0
    else
      Overtakings(past, guesses, lo, hi - 1, block)
      + (if Overtaken(past, guesses[hi - 1].seen, hi - 1, block) then 1 else 0)
  }

  /** The recorded failures of a run, and the requests behind them. */
  ghost predicate FairHistory(cfg: Config, calls: seq<Time>, guesses: seq<Guess>) {
    && Clocked(calls) && |guesses| == |calls| == |Chronicle(cfg, calls)|
    && forall n :: 0 <= n < |guesses| ==> Fair(cfg, calls, guesses[n]) && guesses[n].seen <= n
  }

  lemma {:induction false} LiveOrOvertaken(cfg: Config, calls: seq<Time>, guesses: seq<Guess>, lo: nat, hi: nat)
    requires FairHistory(cfg, calls, guesses) && lo <= hi <= |calls|
    ensures var past := Chronicle(cfg, calls);
      hi - lo == Live(past, lo, hi) + Overtakings(past, guesses, lo, hi, cfg.block)
    decreases hi
  {
    if lo < hi {
      LiveOrOvertaken(cfg, calls, guesses, lo, hi - 1);
      IgnoredIffOvertaken(cfg, calls, guesses[hi - 1], hi - 1);
    }
  }

  lemma RunsAreFairHistories(k: Keys, steps: seq<Step>)
    requires Guarded(k) && IsRun(k, steps)
    ensures FairHistory(k.cfg, After(k, steps).calls, After(k, steps).guesses)
  {
    RunsAreFair(k, steps);
    ChronicleLength(k.cfg, After(k, steps).calls);
  }

  /**
   * Brute force, requests overlapping in any way: of the requests of one address that are told
   * "invalid key", those that a block did not overtake between check and record are counted,
   * and number at most `maxFailures` within less than one window, provided that the block
   * lasts at least the window.
   */
  lemma GuessesAreBounded(k: Keys, steps: seq<Step>, lo: nat, hi: nat)
    requires Guarded(k) && k.cfg.block >= k.cfg.window && IsRun(k, steps)
    requires var calls := After(k, steps).calls; lo < hi <= |calls| && calls[hi - 1] - calls[lo] < k.cfg.window
    ensures var s := After(k, steps); var past := Chronicle(k.cfg, s.calls);
      && |past| == |s.guesses| == |s.calls|
      && hi - lo == Live(past, lo, hi) + Overtakings(past, s.guesses, lo, hi, k.cfg.block)
      && hi - lo <= k.cfg.maxFailures + Overtakings(past, s.guesses, lo, hi, k.cfg.block)
  {
    var s := After(k, steps);
    RunsAreFairHistories(k, steps);
    ChronicleIsJudged(k.cfg, s.calls);
    LiveOrOvertaken(k.cfg, s.calls, s.guesses, lo, hi);
    RateBound(k.cfg, Chronicle(k.cfg, s.calls), lo, hi);
  }

  // ----- The bound by concurrency ----------------------------------------------------------------------------

  /** At no time are more than `c` requests of the address checked and still to be recorded. */
  predicate AtMost(k: Keys, steps: seq<Step>, c: nat) {
    |After(k, steps).waiting.Keys| <= c && (steps == [] || AtMost(k, steps[..|steps| - 1], c))
  }

  /** The recorded failures after `i` whose requests were checked before failure `i` was recorded. */
  function Straddling(guesses: seq<Guess>, i: nat): set<nat> {
    set n: nat | i < n < |guesses| && guesses[n].seen <= i
  }

  /** The requests still to be recorded that were checked before failure `i` was recorded. */
  function Lagging(waiting: map<nat, Guess>, i: nat): set<nat> {
    set who | who in waiting && waiting[who].seen <= i
  }

  /** Each recorded failure had at most `c - 1` requests beside it. */
  ghost predicate Crowded(s: State, c: nat) {
    |s.guesses| == |s.calls|
    && forall i :: 0 <= i < |s.guesses| ==> |Straddling(s.guesses, i)| + |Lagging(s.waiting, i)| <= c - 1
  }

  lemma SmallerSet(a: set<nat>, b: set<nat>)
    requires a <= b
    ensures |a| <= |b|
  {
    assert b == a + (b - a);
  }

  lemma BeginCrowds(k: Keys, s: State, step: Step, c: nat)
    requires Crowded(s, c) && step.Begin? && Enabled(s, step)
    ensures Crowded(Apply(k, s, step), c)
  {
    var t := Apply(k, s, step);
    forall i | 0 <= i < |s.guesses| ensures |Straddling(t.guesses, i)| + |Lagging(t.waiting, i)| <= c - 1 {
      assert Lagging(t.waiting, i) == Lagging(s.waiting, i);
    }
  }

  lemma OneMoreStraddles(guesses: seq<Guess>, g: Guess, i: nat)
    requires i < |guesses|
    ensures |Straddling(guesses + [g], i)| == |Straddling(guesses, i)| + if g.seen <= i then 1 else 0
  {
    var more, a := guesses + [g], Straddling(guesses, i);
    assert forall n :: 0 <= n < |guesses| ==> more[n] == guesses[n];
    assert Straddling(more, i) == if g.seen <= i then a + {|guesses|} else a;
  }

  lemma OneLessLags(waiting: map<nat, Guess>, who: nat, i: nat)
    requires who in waiting
    ensures |Lagging(waiting, i)| == |Lagging(waiting - {who}, i)| + if waiting[who].seen <= i then 1 else 0
  {
    var b := Lagging(waiting - {who}, i);
    assert Lagging(waiting, i) == if waiting[who].seen <= i then b + {who} else b;
  }

  /** Recording moves a request from those waiting to those recorded. */
  lemma NoteMoves(s: State, who: nat, i: nat)
    requires who in s.waiting && i < |s.guesses|
    ensures |Straddling(s.guesses + [s.waiting[who]], i)| + |Lagging(s.waiting - {who}, i)|
         == |Straddling(s.guesses, i)| + |Lagging(s.waiting, i)|
  {
    OneMoreStraddles(s.guesses, s.waiting[who], i);
    OneLessLags(s.waiting, who, i);
  }

  lemma NoteCrowds(k: Keys, s: State, who: nat, at: Time, c: nat)
    requires Crowded(s, c) && who in s.waiting && |s.waiting.Keys| <= c
    ensures Crowded(Apply(k, s, Note(who, at)), c)
  {
    var t := Apply(k, s, Note(who, at));
    forall i | 0 <= i < |t.guesses| ensures |Straddling(t.guesses, i)| + |Lagging(t.waiting, i)| <= c - 1 {
      if i < |s.guesses| {
        NoteMoves(s, who, i);
      } else {
        assert Straddling(t.guesses, i) == {};
        SmallerSet(Lagging(t.waiting, i), s.waiting.Keys - {who});
      }
    }
  }

  lemma {:induction false} RunsCrowd(k: Keys, steps: seq<Step>, c: nat)
    requires IsRun(k, steps) && AtMost(k, steps, c)
    ensures Crowded(After(k, steps), c)
  {
    if steps != [] {
      var n := |steps| - 1;
      RunsCrowd(k, steps[..n], c);
      if steps[n].Begin? {
        BeginCrowds(k, After(k, steps[..n]), steps[n], c);
      } else {
        NoteCrowds(k, After(k, steps[..n]), steps[n].who, steps[n].at, c);
      }
    }
  }

  /** A trigger whose block is not over when the failures `lo..hi` begin. */
  predicate Matters(past: seq<Call>, lo: nat, hi: nat, block: Time, i: nat)
    requires lo < hi <= |past|
  {
    i < hi && past[i].verdict.Triggered? && past[lo].at < past[i].at + block
  }

  /** Within less than one window, no more than two triggers matter. */
  lemma TwoTriggersMatter(cfg: Config, past: seq<Call>, lo: nat, hi: nat) returns (a: nat, b: nat)
    requires Judged(cfg, past) && cfg.block >= cfg.window && lo < hi <= |past|
    requires past[hi - 1].at - past[lo].at < cfg.window
    ensures forall i :: Matters(past, lo, hi, cfg.block, i) ==> i == a || i == b
  {
    a, b := hi, hi;
    if i :| Matters(past, lo, hi, cfg.block, i) {
      a, b := i, i;
      if j :| Matters(past, lo, hi, cfg.block, j) && j != i {
        b := j;
        forall l | Matters(past, lo, hi, cfg.block, l) && l != i && l != j ensures false {
          ThreeTriggersTooFar(cfg, past, lo, hi, i, j, l);
        }
      }
    }
  }

  lemma SortedTriggersTooFar(cfg: Config, past: seq<Call>, lo: nat, hi: nat, i: nat, j: nat, l: nat)
    requires Judged(cfg, past) && cfg.block >= cfg.window && lo < hi <= |past| && i < j < l
    requires Matters(past, lo, hi, cfg.block, i) && Matters(past, lo, hi, cfg.block, j)
    requires Matters(past, lo, hi, cfg.block, l)
    ensures past[hi - 1].at - past[lo].at >= cfg.window
  {
    TriggersAreSpaced(cfg, past, i, j);
    TriggersAreSpaced(cfg, past, j, l);
    assert past[l].at <= past[hi - 1].at;
  }

  lemma ThreeTriggersTooFar(cfg: Config, past: seq<Call>, lo: nat, hi: nat, i: nat, j: nat, l: nat)
    requires Judged(cfg, past) && cfg.block >= cfg.window && lo < hi <= |past|
    requires i != j && j != l && i != l
    requires Matters(past, lo, hi, cfg.block, i) && Matters(past, lo, hi, cfg.block, j)
    requires Matters(past, lo, hi, cfg.block, l)
    ensures past[hi - 1].at - past[lo].at >= cfg.window
  {
    var x := if i < j && i < l then i else if j < l then j else l;
    var z := if i > j && i > l then i else if j > l then j else l;
    var y := if i != x && i != z then i else if j != x && j != z then j else l;
    SortedTriggersTooFar(cfg, past, lo, hi, x, y, z);
  }

  /** The overtaken failures among `lo..hi`. */
  function OvertakenSet(past: seq<Call>, guesses: seq<Guess>, lo: nat, hi: nat, block: Time): set<nat>
    requires lo <= hi <= |past| == |guesses|
  {
    set n: nat | lo <= n < hi && Overtaken(past, guesses[n].seen, n, block)
  }

  lemma OvertakenSnoc(past: seq<Call>, guesses: seq<Guess>, lo: nat, hi: nat, block: Time)
    requires lo < hi <= |past| == |guesses|
    ensures OvertakenSet(past, guesses, lo, hi, block)
         == OvertakenSet(past, guesses, lo, hi - 1, block)
            + if Overtaken(past, guesses[hi - 1].seen, hi - 1, block) then {hi - 1} else {}
  {
  }

  lemma {:induction false} OvertakingsCount(past: seq<Call>, guesses: seq<Guess>, lo: nat, hi: nat, block: Time)
    requires lo <= hi <= |past| == |guesses|
    ensures Overtakings(past, guesses, lo, hi, block) == |OvertakenSet(past, guesses, lo, hi, block)|
    decreases hi
  {
    if lo == hi {
      assert OvertakenSet(past, guesses, lo, hi, block) == {};
    } else {
      OvertakingsCount(past, guesses, lo, hi - 1, block);
      OvertakenSnoc(past, guesses, lo, hi, block);
      assert hi - 1 !in OvertakenSet(past, guesses, lo, hi - 1, block);
    }
  }

  /** What is overtaken straddles one of the triggers that matter. */
  lemma OvertakenStraddle(cfg: Config, past: seq<Call>, guesses: seq<Guess>, lo: nat, hi: nat, a: nat, b: nat)
    requires Judged(cfg, past) && lo < hi <= |past| == |guesses|
    requires forall i :: Matters(past, lo, hi, cfg.block, i) ==> i == a || i == b
    ensures OvertakenSet(past, guesses, lo, hi, cfg.block) <= Straddling(guesses, a) + Straddling(guesses, b)
  {
    forall n | n in OvertakenSet(past, guesses, lo, hi, cfg.block)
      ensures n in Straddling(guesses, a) + Straddling(guesses, b)
    {
      var i :| guesses[n].seen <= i < n && past[i].verdict.Triggered? && past[n].at < past[i].at + cfg.block;
      assert past[lo].at <= past[n].at;
      assert Matters(past, lo, hi, cfg.block, i);
    }
  }

  lemma FewOvertaken(cfg: Config, s: State, c: nat, lo: nat, hi: nat)
    requires c > 0 && cfg.block >= cfg.window && Crowded(s, c)
    requires var past := Chronicle(cfg, s.calls);
      && Judged(cfg, past) && |past| == |s.guesses| && lo < hi <= |past| && past[hi - 1].at - past[lo].at < cfg.window
    ensures Overtakings(Chronicle(cfg, s.calls), s.guesses, lo, hi, cfg.block) <= 2 * (c - 1)
  {
    var past := Chronicle(cfg, s.calls);
    var a, b := TwoTriggersMatter(cfg, past, lo, hi);
    OvertakingsCount(past, s.guesses, lo, hi, cfg.block);
    OvertakenStraddle(cfg, past, s.guesses, lo, hi, a, b);
    var x, y := Straddling(s.guesses, a), Straddling(s.guesses, b);
    SmallerSet(OvertakenSet(past, s.guesses, lo, hi, cfg.block), x + y);
    StraddlingFew(s, c, a);
    StraddlingFew(s, c, b);
  }

  lemma StraddlingFew(s: State, c: nat, i: nat)
    requires c > 0 && Crowded(s, c)
    ensures |Straddling(s.guesses, i)| <= c - 1
  {
    if i >= |s.guesses| {
      assert Straddling(s.guesses, i) == {};
    }
  }

  /**
   * Brute force, by a number that can be set beforehand: when at most `c` requests of an address
   * are under way at a time, and the block lasts at least the window, at most
   * `maxFailures + 2 * (c - 1)` of them are told "invalid key" within less than one window.
   */
  lemma GuessesBoundedByConcurrency(k: Keys, steps: seq<Step>, c: nat, lo: nat, hi: nat)
    requires Guarded(k) && k.cfg.block >= k.cfg.window && IsRun(k, steps) && c > 0 && AtMost(k, steps, c)
    requires var calls := After(k, steps).calls; lo < hi <= |calls| && calls[hi - 1] - calls[lo] < k.cfg.window
    ensures hi - lo <= k.cfg.maxFailures + 2 * (c - 1)
  {
    var s := After(k, steps);
    GuessesAreBounded(k, steps, lo, hi);
    RunsAreFairHistories(k, steps);
    ChronicleIsJudged(k.cfg, s.calls);
    RunsCrowd(k, steps, c);
    FewOvertaken(k.cfg, s, c, lo, hi);
  }

  // ----- Requests one after the other ----------------------------------------------------------------------

  /** A request begins only when no other is under way. */
  predicate Sequential(k: Keys, steps: seq<Step>) {
    steps == [] ||
    var n := |steps| - 1;
    Sequential(k, steps[..n]) && (steps[n].Begin? ==> After(k, steps[..n]).waiting == map[])
  }

  /** At most one request is waiting, and nothing was recorded since its check. */
  predicate InTurn(s: State) {
    && (forall who :: who in s.waiting ==> s.waiting.Keys == {who} && s.waiting[who].seen == |s.calls|)
    && |s.guesses| == |s.calls| && forall n :: 0 <= n < |s.guesses| ==> s.guesses[n].seen == n
  }

  lemma InTurnStep(k: Keys, s: State, step: Step)
    requires InTurn(s) && Enabled(s, step) && (step.Begin? ==> s.waiting == map[])
    ensures InTurn(Apply(k, s, step))
  {
  }

  lemma {:induction false} SequentialInTurn(k: Keys, steps: seq<Step>)
    requires IsRun(k, steps) && Sequential(k, steps)
    ensures InTurn(After(k, steps))
  {
    if steps != [] {
      SequentialInTurn(k, steps[..|steps| - 1]);
      InTurnStep(k, After(k, steps[..|steps| - 1]), steps[|steps| - 1]);
    }
  }

  /** Without overlap the limiter never ignores a guess that is answered. */
  lemma NoGuessIgnored(k: Keys, steps: seq<Step>)
    requires Guarded(k) && IsRun(k, steps) && Sequential(k, steps)
    ensures NoneIgnored(Chronicle(k.cfg, After(k, steps).calls))
  {
    var s := After(k, steps);
    RunsAreFairHistories(k, steps);
    SequentialInTurn(k, steps);
    forall n | 0 <= n < |s.calls| ensures !Chronicle(k.cfg, s.calls)[n].verdict.Ignored? {
      IgnoredIffOvertaken(k.cfg, s.calls, s.guesses[n], n);
    }
  }

  /** Without overlap, at most `maxFailures` requests within less than one window are told "invalid key". */
  lemma SequentialGuessesAreBounded(k: Keys, steps: seq<Step>, lo: nat, hi: nat)
    requires Guarded(k) && k.cfg.block >= k.cfg.window && IsRun(k, steps) && Sequential(k, steps)
    requires var calls := After(k, steps).calls; lo < hi <= |calls| && calls[hi - 1] - calls[lo] < k.cfg.window
    ensures hi - lo <= k.cfg.maxFailures
  {
    GuessesAreBounded(k, steps, lo, hi);
    NoGuessIgnored(k, steps);
    AllLive(Chronicle(k.cfg, After(k, steps).calls), lo, hi);
  }

  // ----- Requests that overlap --------------------------------------------------------------------------------

  /** `n` requests are checked at time 0 before any of them is recorded. */
  function Begins(q: Request, n: nat): seq<Step> {
    if n == 0 then [] else Begins(q, n - 1) + [Begin(n - 1, q, 0)]
  }

  /** Then the first `j` of them are recorded, at time 0 as well. */
  function Burst(q: Request, n: nat, j: nat): seq<Step> {
    if j == 0 then Begins(q, n) else Burst(q, n, j - 1) + [Note(j - 1, 0)]
  }

  /** Requests `j` to `n` are waiting and `j` failures are recorded, all at time 0. */
  ghost predicate Halfway(s: State, n: nat, j: nat) {
    && (forall who :: who in s.waiting <==> j <= who < n)
    && |s.calls| == j && (forall i :: 0 <= i < j ==> s.calls[i] == 0)
    && (j == 0 ==> s.entry == EMPTY)
  }

  lemma OneMore(k: Keys, steps: seq<Step>, step: Step)
    requires IsRun(k, steps) && Latest(steps) == 0 && step.at == 0 && Enabled(After(k, steps), step)
    ensures IsRun(k, steps + [step]) && After(k, steps + [step]) == Apply(k, After(k, steps), step)
    ensures Latest(steps + [step]) == 0
  {
    assert (steps + [step])[..|steps|] == steps;
  }

  lemma OneMoreBegun(k: Keys, q: Request, s: State, n: nat)
    requires Decide(k.readKey, k.adminKey, k.sha, q) == Refused(InvalidKey) && n > 0 && Halfway(s, n - 1, 0)
    ensures Enabled(s, Begin(n - 1, q, 0)) && Halfway(Apply(k, s, Begin(n - 1, q, 0)), n, 0)
  {
  }

  lemma OneMoreNoted(k: Keys, s: State, n: nat, j: nat)
    requires 0 < j <= n && Halfway(s, n, j - 1)
    ensures Enabled(s, Note(j - 1, 0)) && Halfway(Apply(k, s, Note(j - 1, 0)), n, j)
  {
  }

  lemma {:induction false} BeginsRun(k: Keys, q: Request, n: nat)
    requires Guarded(k) && Decide(k.readKey, k.adminKey, k.sha, q) == Refused(InvalidKey)
    ensures IsRun(k, Begins(q, n)) && Latest(Begins(q, n)) == 0 && Halfway(After(k, Begins(q, n)), n, 0)
  {
    if n > 0 {
      BeginsRun(k, q, n - 1);
      OneMoreBegun(k, q, After(k, Begins(q, n - 1)), n);
      OneMore(k, Begins(q, n - 1), Begin(n - 1, q, 0));
    }
  }

  lemma {:induction false} BurstRuns(k: Keys, q: Request, n: nat, j: nat)
    requires Guarded(k) && Decide(k.readKey, k.adminKey, k.sha, q) == Refused(InvalidKey) && j <= n
    ensures IsRun(k, Burst(q, n, j)) && Latest(Burst(q, n, j)) == 0 && Halfway(After(k, Burst(q, n, j)), n, j)
  {
    if j == 0 {
      BeginsRun(k, q, n);
    } else {
      BurstRuns(k, q, n, j - 1);
      OneMoreNoted(k, After(k, Burst(q, n, j - 1)), n, j);
      OneMore(k, Burst(q, n, j - 1), Note(j - 1, 0));
    }
  }

  /**
   * Overlap defeats the limiter: whatever `maxFailures` is, any number of requests of one
   * address that are all checked before the first is recorded are all told "invalid key",
   * at one instant.
   */
  lemma OverlapBreaksBound(k: Keys, q: Request, n: nat)
    requires Guarded(k) && Decide(k.readKey, k.adminKey, k.sha, q) == Refused(InvalidKey)
    ensures IsRun(k, Burst(q, n, n))
    ensures var calls := After(k, Burst(q, n, n)).calls; |calls| == n && forall i :: 0 <= i < n ==> calls[i] == 0
  {
    BurstRuns(k, q, n, n);
  }

  // ----- Many addresses -----------------------------------------------------------------------------------------

  /** A step of a request from `ip`. */
  datatype Turn = Turn(ip: Ip, step: Step)

  /** The limiter's map, and the requests still to be recorded. */
  datatype World = World(failures: map<Ip, Entry>, waiting: set<(Ip, nat)>)

  predicate Possible(w: World, t: Turn) {
    t.step.Note? <==> (t.ip, t.step.who) in w.waiting
  }

  function Take(k: Keys, w: World, t: Turn): World {
    match t.step
    case Begin(who, q, at) =>
      if Answer(k, Lookup(w.failures, t.ip), q, at) == Refused(InvalidKey) then w.(waiting := w.waiting + {(t.ip, who)})
      else w
    case Note(who, at) =>
      World(w.failures[t.ip := Record(k.cfg, Lookup(w.failures, t.ip), at)], w.waiting - {(t.ip, who)})
  }

  function WorldAfter(k: Keys, turns: seq<Turn>): World {
    if turns == [] then World(map[], {}) else Take(k, WorldAfter(k, turns[..|turns| - 1]), turns[|turns| - 1])
  }

  function LatestTurn(turns: seq<Turn>): Time {
    if turns == [] then 0 else turns[|turns| - 1].step.at
  }

  predicate IsWorldRun(k: Keys, turns: seq<Turn>) {
    turns == [] ||
    var n := |turns| - 1;
    && IsWorldRun(k, turns[..n]) && Possible(WorldAfter(k, turns[..n]), turns[n])
    && LatestTurn(turns[..n]) <= turns[n].step.at
  }

  /** The steps of one address. */
  function Own(turns: seq<Turn>, ip: Ip): seq<Step> {
    if turns == [] then []
    else Own(turns[..|turns| - 1], ip) + (if turns[|turns| - 1].ip == ip then [turns[|turns| - 1].step] else [])
  }

  /** The limiter and the waiting requests, seen from one address. */
  ghost predicate Projects(w: World, ip: Ip, s: State) {
    Lookup(w.failures, ip) == s.entry && forall who :: (ip, who) in w.waiting <==> who in s.waiting
  }

  lemma TakeProjects(k: Keys, w: World, t: Turn, ip: Ip, s: State)
    requires Projects(w, ip, s) && Possible(w, t)
    ensures t.ip == ip ==> Enabled(s, t.step) && Projects(Take(k, w, t), ip, Apply(k, s, t.step))
    ensures t.ip != ip ==> Projects(Take(k, w, t), ip, s)
  {
  }

  lemma OwnStep(k: Keys, steps: seq<Step>, step: Step)
    requires IsRun(k, steps) && Enabled(After(k, steps), step) && Latest(steps) <= step.at
    ensures IsRun(k, steps + [step]) && After(k, steps + [step]) == Apply(k, After(k, steps), step)
  {
    assert (steps + [step])[..|steps|] == steps;
  }

  /**
   * Addresses do not touch each other: over every run of requests from any addresses, the steps
   * of one address are a run of its own, and its entry in the limiter is the one that replaying
   * its own failures gives.
   */
  lemma {:induction false} AddressesAreApart(k: Keys, turns: seq<Turn>, ip: Ip)
    requires IsWorldRun(k, turns)
    ensures IsRun(k, Own(turns, ip)) && Latest(Own(turns, ip)) <= LatestTurn(turns)
    ensures Projects(WorldAfter(k, turns), ip, After(k, Own(turns, ip)))
    ensures Lookup(WorldAfter(k, turns).failures, ip) == Replay(k.cfg, After(k, Own(turns, ip)).calls)
  {
    if turns != [] {
      var n := |turns| - 1;
      var before, t := Own(turns[..n], ip), turns[n];
      AddressesAreApart(k, turns[..n], ip);
      TakeProjects(k, WorldAfter(k, turns[..n]), t, ip, After(k, before));
      if t.ip == ip {
        OwnStep(k, before, t.step);
        ReplaySnoc(k, After(k, before), t.step);
      } else {
        assert before + [] == before;
      }
    }
  }

  /** A call of `check` that nothing interrupts is a begin and, for "invalid key", a note: what `Check` promises. */
  lemma CheckIsTwoTurns(k: Keys, w: World, ip: Ip, who: nat, q: Request)
    requires Guarded(k) && (ip, who) !in w.waiting
    ensures var begun := Take(k, w, Turn(ip, Begin(who, q, q.checked)));
      if Answer(k, Lookup(w.failures, ip), q, q.checked) == Refused(InvalidKey) then
        && Possible(begun, Turn(ip, Note(who, q.recorded)))
        && Take(k, begun, Turn(ip, Note(who, q.recorded)))
           == World(w.failures[ip := Record(k.cfg, Lookup(w.failures, ip), q.recorded)], w.waiting)
      else begun == w
  {
  }
}
