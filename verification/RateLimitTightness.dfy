/** The bound on attempts per window is attained, for every limit, every window and every number n of requests
    past the check: n - 1 requests pass the check and linger while others, one at a time, use up the limit; the
    lingering ones are counted last. Done once across the last tick of a window, and once more in the next. */
module RateLimitTightness {
  import opened Prelude
  import opened RateLimiter
  import opened RateLimitRuns

  // ---- states and runs between them ------------------------------------------------------------------

  /** A run from s to t with at most n requests past the check, distinct keys and no reset of the key. */
  ghost predicate Leads(cfg: Config, n: nat, s: System, events: seq<Event>, t: System) {
    && Run(cfg, s, events) == t && AtMostPending(cfg, s, events, n)
    && DistinctKeys(events) && Reset(cfg.watched) !in events
  }

  ghost predicate Reaches(cfg: Config, n: nat, s: System, t: System) {
    exists events :: Leads(cfg, n, s, events, t)
  }

  lemma {:induction false} PendingSplits(cfg: Config, s: System, before: seq<Event>, after: seq<Event>, n: nat)
    requires AtMostPending(cfg, s, before, n) && AtMostPending(cfg, Run(cfg, s, before), after, n)
    ensures AtMostPending(cfg, s, before + after, n)
    decreases |before|
  {
    if before == [] {
      assert before + after == after;
    } else {
      assert (before + after)[0] == before[0] && (before + after)[1..] == before[1..] + after;
      PendingSplits(cfg, Apply(cfg, s, before[0]), before[1..], after, n);
    }
  }

  lemma ReachesOn(cfg: Config, n: nat, s: System, t: System, u: System)
    requires Reaches(cfg, n, s, t) && Reaches(cfg, n, t, u)
    ensures Reaches(cfg, n, s, u)
  {
    var before, after :| Leads(cfg, n, s, before, t) && Leads(cfg, n, t, after, u);
    RunSplits(cfg, s, before, after);
    PendingSplits(cfg, s, before, after, n);
    assert forall e :: e in before + after <==> e in before || e in after;
    assert Leads(cfg, n, s, before + after, u);
  }

  lemma ReachesItself(cfg: Config, n: nat, s: System)
    requires |Pending(s, cfg.watched)| <= n
    ensures Reaches(cfg, n, s, s)
  {
    assert Leads(cfg, n, s, [], s);
  }

  lemma OneStep(cfg: Config, n: nat, s: System, e: Event, t: System)
    requires Apply(cfg, s, e) == t && (e.Arrive? ==> Distinct(e.keys)) && e != Reset(cfg.watched)
    requires |Pending(s, cfg.watched)| <= n && |Pending(t, cfg.watched)| <= n
    ensures Reaches(cfg, n, s, t)
  {
    assert [e][1..] == [] && Run(cfg, t, []) == t && AtMostPending(cfg, t, [], n);
    assert Leads(cfg, n, s, [e], t);
  }

  // ---- one request at a time, besides k that linger ---------------------------------------------------

  /** The requests lo, ..., lo + k - 1 linger; all others are over and have numbers below h. */
  ghost predicate Ready(s: System, key: string, lo: nat, k: nat, h: nat) {
    && lo + k <= h
    && (forall x :: lo <= x < lo + k ==> x in s.handlers && s.handlers[x] == Handler([key], Passed))
    && (forall x :: x in s.handlers ==> x < h && (lo <= x < lo + k || s.handlers[x].phase == Finished))
  }

  /** Besides the lingering requests only h may be under way. */
  ghost predicate OthersFinished(s: System, lo: nat, k: nat, h: nat) {
    forall x :: x in s.handlers && x != h && !(lo <= x < lo + k) ==> s.handlers[x].phase == Finished
  }

  lemma {:induction false} RangeSize(pending: set<nat>, lo: nat, k: nat)
    requires forall x :: x in pending ==> lo <= x < lo + k
    ensures |pending| <= k
    decreases k
  {
    if k == 0 {
      assert pending == {};
    } else {
      RangeSize(pending - {lo}, lo + 1, k - 1);
      assert pending <= (pending - {lo}) + {lo};
    }
  }

  lemma FewPending(s: System, key: string, lo: nat, k: nat, h: nat)
    requires OthersFinished(s, lo, k, h)
    ensures |Pending(s, key)| <= k + 1
  {
    RangeSize(Pending(s, key) - {h}, lo, k);
    RemoveSize(Pending(s, key), Pending(s, key) - {h}, h);
  }

  /** A step while h is the one request under way. */
  lemma StepOf(cfg: Config, n: nat, s: System, e: Event, t: System, lo: nat, k: nat, h: nat)
    requires k < n && OthersFinished(s, lo, k, h) && OthersFinished(t, lo, k, h)
    requires Apply(cfg, s, e) == t && (e.Arrive? ==> Distinct(e.keys)) && e != Reset(cfg.watched)
    ensures Reaches(cfg, n, s, t)
  {
    FewPending(s, cfg.watched, lo, k, h);
    FewPending(t, cfg.watched, lo, k, h);
    OneStep(cfg, n, s, e, t);
  }

  /** Handler h in a phase, with its one key. */
  function With(s: System, h: nat, key: string, phase: Phase): System {
    s.(handlers := s.handlers[h := Handler([key], phase)])
  }

  lemma IsChecked(cfg: Config, n: nat, s: System, lo: nat, k: nat, h: nat)
    requires k < n && h !in s.handlers && OthersFinished(s, lo, k, h)
    requires LiveCount(s.counters, cfg.watched, s.now) < cfg.maxAttempts
    ensures Reaches(cfg, n, s, With(s, h, cfg.watched, Passed))
  {
    var key := cfg.watched;
    var arrived, below, passed := With(s, h, key, Checking(0)), With(s, h, key, Checking(1)), With(s, h, key, Passed);
    StepOf(cfg, n, s, Arrive(h, [key]), arrived, lo, k, h);
    StepOf(cfg, n, arrived, Check(h), below, lo, k, h);
    StepOf(cfg, n, below, Check(h), passed, lo, k, h);
    ReachesOn(cfg, n, s, arrived, below);
    ReachesOn(cfg, n, s, below, passed);
  }

  lemma RecordingSteps(cfg: Config, s: System, h: nat)
    ensures Apply(cfg, With(s, h, cfg.watched, Passed), StartRecording(h)) == With(s, h, cfg.watched, Recording(0))
    ensures Apply(cfg, With(s, h, cfg.watched, Recording(0)), Record(h, Applied))
         == With(Count(cfg, s, cfg.watched), h, cfg.watched, Recording(1))
    ensures Apply(cfg, With(s, h, cfg.watched, Recording(1)), Record(h, Applied)) == With(s, h, cfg.watched, Finished)
  {
  }

  lemma ThreeSteps(cfg: Config, n: nat, s: seq<System>, e: seq<Event>, lo: nat, k: nat, h: nat)
    requires |s| == 4 && |e| == 3 && k < n && forall i :: 0 <= i < 4 ==> OthersFinished(s[i], lo, k, h)
    requires forall i :: 0 <= i < 3 ==> Apply(cfg, s[i], e[i]) == s[i + 1] && !e[i].Arrive? && !e[i].Reset?
    ensures Reaches(cfg, n, s[0], s[3])
  {
    StepOf(cfg, n, s[0], e[0], s[1], lo, k, h);
    StepOf(cfg, n, s[1], e[1], s[2], lo, k, h);
    StepOf(cfg, n, s[2], e[2], s[3], lo, k, h);
    ReachesOn(cfg, n, s[0], s[1], s[2]);
    ReachesOn(cfg, n, s[0], s[2], s[3]);
  }

  lemma IsCounted(cfg: Config, n: nat, s: System, lo: nat, k: nat, h: nat)
    requires k < n && OthersFinished(s, lo, k, h)
    ensures Reaches(cfg, n, With(s, h, cfg.watched, Passed), With(Count(cfg, s, cfg.watched), h, cfg.watched, Finished))
  {
    var key, counted := cfg.watched, Count(cfg, s, cfg.watched);
    RecordingSteps(cfg, s, h);
    RecordingSteps(cfg, counted, h);
    ThreeSteps(cfg, n, [With(s, h, key, Passed), With(s, h, key, Recording(0)),
                        With(counted, h, key, Recording(1)), With(counted, h, key, Finished)],
               [StartRecording(h), Record(h, Applied), Record(h, Applied)], lo, k, h);
  }

  // ---- what counting leaves behind -------------------------------------------------------------------

  /** m attempts were counted between s and t, all at the instant of s. */
  ghost predicate Spent(cfg: Config, s: System, t: System, m: nat, from: int, to: int) {
    && t.now == s.now && s.worstOpen == t.worstOpen
    && LiveCount(t.counters, cfg.watched, t.now) == LiveCount(s.counters, cfg.watched, s.now) + m
    && (m == 0 ==> t.counters == s.counters)
    && (m > 0 ==> cfg.watched in t.counters && t.counters[cfg.watched].deadline == DeadlineAfter(cfg, s))
    && CountIn(t.attempts, from, to) == CountIn(s.attempts, from, to) + (if from <= s.now < to then m else 0)
  }

  /** The end of the window an attempt made now falls into. */
  function DeadlineAfter(cfg: Config, s: System): int {
    if LiveCount(s.counters, cfg.watched, s.now) > 0 then s.counters[cfg.watched].deadline else s.now + Window(cfg)
  }

  lemma OneIsSpent(cfg: Config, s: System, h: nat, from: int, to: int)
    requires cfg.seconds > 0
    ensures Spent(cfg, s, With(Count(cfg, s, cfg.watched), h, cfg.watched, Finished), 1, from, to)
  {
    RecordCountsOne(s.counters, cfg.watched, cfg.seconds, s.now, cfg.watched, s.now);
    var t := Count(cfg, s, cfg.watched);
    assert t.attempts[..|t.attempts| - 1] == s.attempts;
  }

  lemma SpentAddsUp(cfg: Config, s: System, middle: System, t: System, a: nat, b: nat, from: int, to: int)
    requires Spent(cfg, s, middle, a, from, to) && Spent(cfg, middle, t, b, from, to)
    ensures Spent(cfg, s, t, a + b, from, to)
  {
  }

  lemma {:induction false} SinglesRun(cfg: Config, n: nat, s: System, lo: nat, k: nat, h: nat, m: nat,
                                      from: int, to: int) returns (t: System)
    requires cfg.seconds > 0 && k < n && Ready(s, cfg.watched, lo, k, h)
    requires LiveCount(s.counters, cfg.watched, s.now) + m <= cfg.maxAttempts
    ensures Reaches(cfg, n, s, t) && Ready(t, cfg.watched, lo, k, h + m) && Spent(cfg, s, t, m, from, to)
    decreases m
  {
    if m == 0 {
      t := s;
      FewPending(s, cfg.watched, lo, k, h);
      ReachesItself(cfg, n, s);
    } else {
      var next := With(Count(cfg, s, cfg.watched), h, cfg.watched, Finished);
      IsChecked(cfg, n, s, lo, k, h);
      IsCounted(cfg, n, s, lo, k, h);
      ReachesOn(cfg, n, s, With(s, h, cfg.watched, Passed), next);
      OneIsSpent(cfg, s, h, from, to);
      t := SinglesRun(cfg, n, next, lo, k, h + 1, m - 1, from, to);
      SpentAddsUp(cfg, s, next, t, 1, m - 1, from, to);
      ReachesOn(cfg, n, s, next, t);
    }
  }

  /** The requests lo + j, ... join those that linger; nothing else changes. */
  lemma {:induction false} PassesRun(cfg: Config, n: nat, s: System, lo: nat, j: nat, k: nat) returns (t: System)
    requires j + k < n && Ready(s, cfg.watched, lo, j, lo + j)
    requires LiveCount(s.counters, cfg.watched, s.now) < cfg.maxAttempts
    ensures Reaches(cfg, n, s, t) && Ready(t, cfg.watched, lo, j + k, lo + j + k) && t == s.(handlers := t.handlers)
    decreases k
  {
    if k == 0 {
      t := s;
      FewPending(s, cfg.watched, lo, j, lo + j);
      ReachesItself(cfg, n, s);
    } else {
      var next := With(s, lo + j, cfg.watched, Passed);
      IsChecked(cfg, n, s, lo, j, lo + j);
      t := PassesRun(cfg, n, next, lo, j + 1, k - 1);
      ReachesOn(cfg, n, s, next, t);
    }
  }

  lemma FirstOfGroup(cfg: Config, s: System, lo: nat, k: nat, h: nat)
    requires k > 0 && Ready(s, cfg.watched, lo, k, h)
    ensures With(s, lo, cfg.watched, Passed) == s && OthersFinished(s, lo + 1, k - 1, lo)
    ensures Ready(With(Count(cfg, s, cfg.watched), lo, cfg.watched, Finished), cfg.watched, lo + 1, k - 1, h)
  {
  }

  /** The lingering requests are counted. */
  lemma {:induction false} RecordingsRun(cfg: Config, n: nat, s: System, lo: nat, k: nat, h: nat,
                                         from: int, to: int) returns (t: System)
    requires cfg.seconds > 0 && k < n && Ready(s, cfg.watched, lo, k, h)
    ensures Reaches(cfg, n, s, t) && Ready(t, cfg.watched, h, 0, h) && Spent(cfg, s, t, k, from, to)
    decreases k
  {
    if k == 0 {
      t := s;
      FewPending(s, cfg.watched, lo, k, h);
      ReachesItself(cfg, n, s);
    } else {
      var next := With(Count(cfg, s, cfg.watched), lo, cfg.watched, Finished);
      FirstOfGroup(cfg, s, lo, k, h);
      IsCounted(cfg, n, s, lo + 1, k - 1, lo);
      OneIsSpent(cfg, s, lo, from, to);
      t := RecordingsRun(cfg, n, next, lo + 1, k - 1, h, from, to);
      SpentAddsUp(cfg, s, next, t, 1, k - 1, from, to);
      ReachesOn(cfg, n, s, next, t);
    }
  }

  // ---- the burst ---------------------------------------------------------------------------------------

  /** Time passes while only the lingering requests are under way. */
  lemma WaitRuns(cfg: Config, n: nat, s: System, duration: nat, lo: nat, k: nat, h: nat) returns (t: System)
    requires k < n && Ready(s, cfg.watched, lo, k, h)
    ensures t == s.(now := s.now + duration) && Reaches(cfg, n, s, t) && Ready(t, cfg.watched, lo, k, h)
  {
    t := s.(now := s.now + duration);
    StepOf(cfg, n, s, Wait(duration), t, lo, k, h);
  }

  lemma SpentSince(cfg: Config, s: System, lingering: System, t: System, m: nat, from: int, to: int)
    requires lingering == s.(handlers := lingering.handlers) && Spent(cfg, lingering, t, m, from, to)
    ensures Spent(cfg, s, t, m, from, to)
  {
  }

  /** k requests linger and m attempts are counted. */
  lemma LingerAndUse(cfg: Config, n: nat, s: System, h: nat, k: nat, m: nat, from: int, to: int) returns (t: System)
    requires cfg.maxAttempts > 0 && cfg.seconds > 0 && k < n && m <= cfg.maxAttempts
    requires Ready(s, cfg.watched, h, 0, h) && LiveCount(s.counters, cfg.watched, s.now) == 0
    ensures Reaches(cfg, n, s, t) && Ready(t, cfg.watched, h, k, h + k + m) && Spent(cfg, s, t, m, from, to)
  {
    var lingering := PassesRun(cfg, n, s, h, 0, k);
    t := SinglesRun(cfg, n, lingering, h, k, h + k, m, from, to);
    SpentSince(cfg, s, lingering, t, m, from, to);
    ReachesOn(cfg, n, s, lingering, t);
  }

  /** m attempts more, and then the lingering requests. */
  lemma UseAndRecord(cfg: Config, n: nat, s: System, lo: nat, k: nat, h: nat, m: nat, from: int, to: int)
    returns (t: System)
    requires cfg.seconds > 0 && k < n && Ready(s, cfg.watched, lo, k, h)
    requires LiveCount(s.counters, cfg.watched, s.now) + m <= cfg.maxAttempts
    ensures Reaches(cfg, n, s, t) && Ready(t, cfg.watched, h + m, 0, h + m) && Spent(cfg, s, t, m + k, from, to)
  {
    var used := SinglesRun(cfg, n, s, lo, k, h, m, from, to);
    t := RecordingsRun(cfg, n, used, lo, k, h + m, from, to);
    SpentAddsUp(cfg, s, used, t, m, k, from, to);
    ReachesOn(cfg, n, s, used, t);
  }

  /** A window filled beyond its limit: k requests linger, the limit is used up, and the k are counted. */
  lemma WholeWindowRuns(cfg: Config, n: nat, s: System, h: nat, k: nat, from: int, to: int) returns (t: System)
    requires cfg.maxAttempts > 0 && cfg.seconds > 0 && k < n
    requires Ready(s, cfg.watched, h, 0, h) && LiveCount(s.counters, cfg.watched, s.now) == 0
    ensures Reaches(cfg, n, s, t) && Spent(cfg, s, t, cfg.maxAttempts + k, from, to)
  {
    var lingering := LingerAndUse(cfg, n, s, h, k, 0, from, to);
    t := UseAndRecord(cfg, n, lingering, h, k, h + k, cfg.maxAttempts, from, to);
    SpentAddsUp(cfg, s, lingering, t, 0, cfg.maxAttempts + k, from, to);
    ReachesOn(cfg, n, s, lingering, t);
  }

  /** The same, with all attempts but the first one waiting for the last tick of the window. */
  lemma SplitWindowRuns(cfg: Config, n: nat, start: int, k: nat, from: int, to: int) returns (t: System, h: nat)
    requires cfg.maxAttempts > 0 && cfg.seconds > 0 && k < n
    requires from == start + Window(cfg) - 1 && to == from + Window(cfg)
    ensures Reaches(cfg, n, Initial(start), t) && Ready(t, cfg.watched, h, 0, h) && t.now == from && t.worstOpen == 0
    ensures cfg.watched in t.counters && t.counters[cfg.watched].deadline == start + Window(cfg)
    ensures CountIn(t.attempts, from, to) == cfg.maxAttempts - 1 + k
  {
    var one := LingerAndUse(cfg, n, Initial(start), 0, k, 1, from, to);
    var late := WaitRuns(cfg, n, one, Window(cfg) - 1, 0, k, k + 1);
    t := UseAndRecord(cfg, n, late, 0, k, k + 1, cfg.maxAttempts - 1, from, to);
    h := k + 1 + (cfg.maxAttempts - 1);
    ReachesOn(cfg, n, Initial(start), one, late);
    ReachesOn(cfg, n, Initial(start), late, t);
  }

  lemma BurstRuns(cfg: Config, n: nat, start: int) returns (t: System)
    requires cfg.maxAttempts > 0 && cfg.seconds > 0 && n > 0
    ensures Reaches(cfg, n, Initial(start), t) && t.worstOpen == 0
    ensures CountIn(t.attempts, start + Window(cfg) - 1, start + Window(cfg) - 1 + Window(cfg))
         == 2 * (cfg.maxAttempts + n - 1) - 1
  {
    var from := start + Window(cfg) - 1;
    var to := from + Window(cfg);
    var full, h := SplitWindowRuns(cfg, n, start, n - 1, from, to);
    var over := WaitRuns(cfg, n, full, 1, h, 0, h);
    t := WholeWindowRuns(cfg, n, over, h, n - 1, from, to);
    ReachesOn(cfg, n, Initial(start), full, over);
    ReachesOn(cfg, n, Initial(start), over, t);
  }

  /** For every limit, every number n > 0 of requests past the check and every window of at least a second the
      bound on attempts per window is attained, without a limiter error. */
  lemma BoundIsAttained(cfg: Config, n: nat, start: int)
    requires cfg.maxAttempts > 0 && cfg.seconds > 0 && n > 0
    ensures var from := start + Window(cfg) - 1;
            exists events :: && Leads(cfg, n, Initial(start), events, Run(cfg, Initial(start), events))
                             && Run(cfg, Initial(start), events).worstOpen == 0
                             && CountIn(Run(cfg, Initial(start), events).attempts, from, from + Window(cfg))
                                  == 2 * (cfg.maxAttempts + n - 1) - 1
  {
    var t := BurstRuns(cfg, n, start);
    var events :| Leads(cfg, n, Initial(start), events, t);
    assert Run(cfg, Initial(start), events) == t;
  }

  // ---- when a limiter limits at all --------------------------------------------------------------------

  /** The counter of a key can reach the limit in some run exactly when the window is at least a second. A
      limiter built with a shorter one never refuses anybody. */
  lemma LimitsExactly(maxAttempts: nat, window: nat, key: string, start: int)
    requires maxAttempts > 0
    ensures var cfg := Config(maxAttempts, WholeSeconds(window), key);
            (exists events ::
               var s := Run(cfg, Initial(start), events); LiveCount(s.counters, key, s.now) >= maxAttempts)
            <==> window >= SECOND
  {
    var cfg := Config(maxAttempts, WholeSeconds(window), key);
    if window >= SECOND {
      var s := SinglesRun(cfg, 1, Initial(start), 0, 0, 0, maxAttempts, 0, 0);
      var events :| Leads(cfg, 1, Initial(start), events, s);
      assert LiveCount(Run(cfg, Initial(start), events).counters, key, s.now) >= maxAttempts;
    } else {
      forall events ensures var s := Run(cfg, Initial(start), events); LiveCount(s.counters, key, s.now) < maxAttempts {
        NeverCounted(cfg, Initial(start), events);
      }
    }
  }
}
