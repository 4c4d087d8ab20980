/** Many handlers sharing one limiter: each checks its keys one by one, and later counts its attempt
    under the same keys one by one, with anything happening in between. */
module RateLimitRuns {
  import opened Prelude
  import opened RateLimiter

  /** The limiter and the one key whose history is kept. */
  datatype Config = Config(maxAttempts: nat, seconds: nat, watched: string)

  datatype Phase = Checking(next: nat) | Passed | Recording(next: nat) | Finished

  datatype Handler = Handler(keys: seq<string>, phase: Phase)

  /** A counted attempt: its instant, when its window was opened, and the counter value it got. */
  datatype Attempt = Attempt(time: int, start: int, ord: nat)

  /** failedOpen counts, for the current window of the watched key, the requests on it that a limiter error
      let through where a working limiter would have refused them; worstOpen is the most in any window. */
  datatype System = System(
    now: int,
    counters: Counters,
    handlers: map<nat, Handler>,
    attempts: seq<Attempt>,
    failedOpen: nat,
    worstOpen: nat)

  datatype Event =
    | Wait(duration: nat)
    | Arrive(h: nat, keys: seq<string>)
    | Check(h: nat)
    | CheckFails(h: nat)
    | StartRecording(h: nat)
    | Record(h: nat, write: Write)
    | Leave(h: nat)
    | Reset(key: string)

  function Window(cfg: Config): int {
    cfg.seconds * SECOND
  }

  function Move(s: System, h: nat, phase: Phase): System
    requires h in s.handlers
  {
    s.(handlers := s.handlers[h := s.handlers[h].(phase := phase)])
  }

  function Count(cfg: Config, s: System, key: string): System {
    var counters := AfterRecord(s.counters, key, cfg.seconds, s.now);
    if key != cfg.watched then s.(counters := counters)
    else
      var ord := LiveCount(s.counters, key, s.now) + 1;
      var start := if ord == 1 then s.now else s.counters[key].deadline - Window(cfg);
      s.(counters := counters, attempts := s.attempts + [Attempt(s.now, start, ord)],
         failedOpen := if ord == 1 then 0 else s.failedOpen)
  }

  /** Letting h through now exceeds the limit of the watched key: the counter is full and h did not pass the
      check of that key while it was not. */
  predicate Overruns(cfg: Config, s: System, h: nat)
    requires h in s.handlers
  {
    && cfg.watched in s.handlers[h].keys
    && !Past(s.handlers[h], cfg.watched)
    && LiveCount(s.counters, cfg.watched, s.now) >= cfg.maxAttempts
  }

  function Apply(cfg: Config, s: System, e: Event): System {
    match e
    case Wait(duration) => s.(now := s.now + duration)
    case Arrive(h, keys) =>
      if h in s.handlers then s else s.(handlers := s.handlers[h := Handler(keys, Checking(0))])
    case Check(h) =>
      if h !in s.handlers || !s.handlers[h].phase.Checking? then s
      else
        var Handler(keys, Checking(i)) := s.handlers[h];
        if i >= |keys| then Move(s, h, Passed)
        else if LiveCount(s.counters, keys[i], s.now) < cfg.maxAttempts then Move(s, h, Checking(i + 1))
        else Move(s, h, Finished)
    case CheckFails(h) =>
      if h !in s.handlers || !s.handlers[h].phase.Checking? then s
      else if Overruns(cfg, s, h) then
        Move(s, h, Passed).(failedOpen := s.failedOpen + 1,
                            worstOpen := if s.worstOpen > s.failedOpen then s.worstOpen else s.failedOpen + 1)
      else Move(s, h, Passed)
    case StartRecording(h) =>
      if h in s.handlers && s.handlers[h].phase.Passed? then Move(s, h, Recording(0)) else s
    case Record(h, write) =>
      if h !in s.handlers || !s.handlers[h].phase.Recording? then s
      else
        var Handler(keys, Recording(i)) := s.handlers[h];
        if i >= |keys| then Move(s, h, Finished)
        else
          var counted := if write.Lost? then s else Count(cfg, s, keys[i]);
          Move(counted, h, if write.Applied? then Recording(i + 1) else Finished)
    case Leave(h) => if h in s.handlers then Move(s, h, Finished) else s
    case Reset(key) => s.(counters := s.counters - {key})
  }

  function Run(cfg: Config, s: System, events: seq<Event>): System
    decreases |events|
  {
    if events == [] then s else Run(cfg, Apply(cfg, s, events[0]), events[1..])
  }

  function Initial(now: int): System {
    System(now, map[], map[], [], 0, 0)
  }

  lemma {:induction false} RunSplits(cfg: Config, s: System, before: seq<Event>, after: seq<Event>)
    ensures Run(cfg, s, before + after) == Run(cfg, Run(cfg, s, before), after)
    decreases |before|
  {
    if before == [] {
      assert before + after == after;
    } else {
      assert (before + after)[0] == before[0] && (before + after)[1..] == before[1..] + after;
      RunSplits(cfg, Apply(cfg, s, before[0]), before[1..], after);
    }
  }

  // ---- who is past the check ---------------------------------------------------------------------

  /** The handler was let through on the key and may still count an attempt under it. */
  predicate Past(h: Handler, key: string) {
    match h.phase
    case Checking(i) => exists j :: 0 <= j < i && j < |h.keys| && h.keys[j] == key
    case Passed => key in h.keys
    case Recording(i) => exists j :: i <= j < |h.keys| && h.keys[j] == key
    case Finished => false
  }

  function Pending(s: System, key: string): set<nat> {
    set h | h in s.handlers && Past(s.handlers[h], key)
  }

  predicate Distinct(keys: seq<string>) {
    forall i, j :: 0 <= i < j < |keys| ==> keys[i] != keys[j]
  }

  /** In every state of the run at most n handlers are past the check of the watched key. */
  ghost predicate AtMostPending(cfg: Config, s: System, events: seq<Event>, n: nat)
    decreases |events|
  {
    && |Pending(s, cfg.watched)| <= n
    && (events != [] ==> AtMostPending(cfg, Apply(cfg, s, events[0]), events[1..], n))
  }

  /** Requests name each key once, as RateLimitKeys does. */
  predicate DistinctKeys(events: seq<Event>) {
    forall e :: e in events && e.Arrive? ==> Distinct(e.keys)
  }

  ghost predicate KeysOk(s: System) {
    forall h :: h in s.handlers ==> Distinct(s.handlers[h].keys)
  }

  /** The largest value the watched counter can reach. */
  function Ceiling(cfg: Config, n: nat, failedOpen: nat): int {
    cfg.maxAttempts + n - 1 + failedOpen
  }

  ghost predicate Bounded(cfg: Config, s: System, n: nat) {
    LiveCount(s.counters, cfg.watched, s.now) + |Pending(s, cfg.watched)| <= Ceiling(cfg, n, s.failedOpen)
  }

  /** Moving one handler changes the pending set by at most that handler. */
  lemma MovePending(s: System, h: nat, phase: Phase, key: string)
    requires h in s.handlers
    ensures var next := Pending(Move(s, h, phase), key);
            && next - {h} == Pending(s, key) - {h}
            && (h in next <==> Past(s.handlers[h].(phase := phase), key))
  {
  }

  lemma RemoveSize(a: set<nat>, b: set<nat>, h: nat)
    requires a - {h} == b - {h}
    ensures |a| == |b - {h}| + (if h in a then 1 else 0)
    ensures |b| == |b - {h}| + (if h in b then 1 else 0)
  {
    if h in a { assert a == (a - {h}) + {h}; } else { assert a == a - {h}; }
    if h in b { assert b == (b - {h}) + {h}; } else { assert b == b - {h}; }
  }

  /** The pending count before and after one handler moves. */
  lemma MoveSize(s: System, h: nat, phase: Phase, key: string)
    requires h in s.handlers
    ensures |Pending(Move(s, h, phase), key)|
         == |Pending(s, key)| - (if Past(s.handlers[h], key) then 1 else 0)
            + (if Past(s.handlers[h].(phase := phase), key) then 1 else 0)
  {
    MovePending(s, h, phase, key);
    RemoveSize(Pending(Move(s, h, phase), key), Pending(s, key), h);
    assert h in Pending(s, key) <==> Past(s.handlers[h], key);
  }

  /** The watched count and the number of handlers pending on it, together. */
  function Load(cfg: Config, s: System): nat {
    LiveCount(s.counters, cfg.watched, s.now) + |Pending(s, cfg.watched)|
  }

  /** Counting an attempt moves it from pending to counted; no step but a passed check or a limiter
      error adds to the load. */
  lemma RecordKeepsLoad(cfg: Config, s: System, h: nat, write: Write)
    requires KeysOk(s)
    ensures Load(cfg, Apply(cfg, s, Record(h, write))) <= Load(cfg, s)
  {
    var e := Record(h, write);
    if h in s.handlers && s.handlers[h].phase.Recording? {
      var Handler(keys, Recording(i)) := s.handlers[h];
      if i >= |keys| {
        MoveSize(s, h, Finished, cfg.watched);
      } else {
        var counted := if write.Lost? then s else Count(cfg, s, keys[i]);
        var phase := if write.Applied? then Recording(i + 1) else Finished;
        assert Pending(counted, cfg.watched) == Pending(s, cfg.watched);
        MoveSize(counted, h, phase, cfg.watched);
        assert keys[i] == cfg.watched ==> Past(s.handlers[h], cfg.watched);
      }
    }
  }

  lemma CheckLoad(cfg: Config, s: System, h: nat)
    requires KeysOk(s)
    ensures var next := Apply(cfg, s, Check(h));
            || Load(cfg, next) <= Load(cfg, s)
            || LiveCount(next.counters, cfg.watched, next.now) < cfg.maxAttempts
  {
    if h in s.handlers && s.handlers[h].phase.Checking? {
      var Handler(keys, Checking(i)) := s.handlers[h];
      var phase := if i >= |keys| then Passed
                   else if LiveCount(s.counters, keys[i], s.now) < cfg.maxAttempts then Checking(i + 1)
                   else Finished;
      MoveSize(s, h, phase, cfg.watched);
    }
  }

  lemma FailedCheckLoad(cfg: Config, s: System, h: nat)
    ensures var next := Apply(cfg, s, CheckFails(h));
            || Load(cfg, next) <= Load(cfg, s) + next.failedOpen - s.failedOpen
            || LiveCount(next.counters, cfg.watched, next.now) < cfg.maxAttempts
  {
    if h in s.handlers && s.handlers[h].phase.Checking? {
      MoveSize(s, h, Passed, cfg.watched);
      assert Pending(Apply(cfg, s, CheckFails(h)), cfg.watched) == Pending(Move(s, h, Passed), cfg.watched);
    }
  }

  lemma OtherLoad(cfg: Config, s: System, e: Event)
    requires !e.Check? && !e.CheckFails? && !e.Record?
    ensures Load(cfg, Apply(cfg, s, e)) <= Load(cfg, s)
  {
    match e
    case Arrive(h, keys) => assert h !in s.handlers ==>
        Pending(Apply(cfg, s, e), cfg.watched) == Pending(s, cfg.watched);
    case StartRecording(h) => if h in s.handlers { MoveSize(s, h, Recording(0), cfg.watched); }
    case Leave(h) => if h in s.handlers { MoveSize(s, h, Finished, cfg.watched); }
    case Wait(_) => assert Pending(Apply(cfg, s, e), cfg.watched) == Pending(s, cfg.watched);
    case Reset(_) => assert Pending(Apply(cfg, s, e), cfg.watched) == Pending(s, cfg.watched);
    case _ =>
  }

  lemma RecordKeepsBound(cfg: Config, s: System, h: nat, write: Write, n: nat)
    requires cfg.maxAttempts > 0 && KeysOk(s) && Bounded(cfg, s, n) && |Pending(s, cfg.watched)| <= n
    ensures Bounded(cfg, Apply(cfg, s, Record(h, write)), n)
  {
    RecordKeepsLoad(cfg, s, h, write);
    var next := Apply(cfg, s, Record(h, write));
    if next.failedOpen != s.failedOpen { assert Load(cfg, s) <= n; }
  }

  lemma ApplyKeepsBound(cfg: Config, s: System, e: Event, n: nat)
    requires cfg.maxAttempts > 0 && KeysOk(s) && Bounded(cfg, s, n) && |Pending(s, cfg.watched)| <= n
    requires |Pending(Apply(cfg, s, e), cfg.watched)| <= n
    requires e.Arrive? ==> Distinct(e.keys)
    ensures KeysOk(Apply(cfg, s, e)) && Bounded(cfg, Apply(cfg, s, e), n)
  {
    match e
    case Check(h) => CheckLoad(cfg, s, h);
    case CheckFails(h) => FailedCheckLoad(cfg, s, h);
    case Record(h, write) => RecordKeepsBound(cfg, s, h, write, n);
    case _ => OtherLoad(cfg, s, e);
  }

  lemma {:induction false} RunKeepsBound(cfg: Config, s: System, events: seq<Event>, n: nat)
    requires cfg.maxAttempts > 0 && KeysOk(s) && Bounded(cfg, s, n)
    requires AtMostPending(cfg, s, events, n) && DistinctKeys(events)
    ensures KeysOk(Run(cfg, s, events)) && Bounded(cfg, Run(cfg, s, events), n)
    decreases |events|
  {
    if events != [] {
      assert events[0] in events;
      ApplyKeepsBound(cfg, s, events[0], n);
      RunKeepsBound(cfg, Apply(cfg, s, events[0]), events[1..], n);
    }
  }

  /** In every interleaving in which at most n handlers are ever past the check of a key, its counter
      and the attempts still to be counted never exceed max + n - 1, plus one for each request on this key
      that a limiter error let through, in the current window and with the counter full. */
  lemma CounterNeverExceedsCeiling(cfg: Config, start: int, events: seq<Event>, n: nat)
    requires cfg.maxAttempts > 0
    requires AtMostPending(cfg, Initial(start), events, n) && DistinctKeys(events)
    ensures var s := Run(cfg, Initial(start), events);
            LiveCount(s.counters, cfg.watched, s.now) + |Pending(s, cfg.watched)|
              <= cfg.maxAttempts + n - 1 + s.failedOpen
  {
    assert Pending(Initial(start), cfg.watched) == {};
    RunKeepsBound(cfg, Initial(start), events, n);
  }

  // ---- how many attempts fit into any interval of one window -------------------------------------

  /** The history of a key that is never reset: counter values climb by one inside a window, and a new
      window opens at its first attempt, no earlier than the end of the one before. */
  ghost predicate Chain(attempts: seq<Attempt>, window: int) {
    && (attempts != [] ==> attempts[0].ord == 1 && attempts[0].start == attempts[0].time)
    && (forall i :: 0 <= i < |attempts| ==> attempts[i].start <= attempts[i].time)
    && (forall i :: 0 < i < |attempts| ==> Follows(attempts[i - 1], attempts[i], window))
  }

  ghost predicate Follows(a: Attempt, b: Attempt, window: int) {
    && a.time <= b.time
    && if b.ord == 1 then b.start == b.time && a.start + window <= b.start
       else b.start == a.start && b.ord == a.ord + 1
  }

  /** The stored counter is the last attempt's. */
  ghost predicate Tracks(cfg: Config, s: System) {
    && Chain(s.attempts, Window(cfg))
    && (s.attempts == [] <==> cfg.watched !in s.counters)
    && (s.attempts != [] ==>
          var last := s.attempts[|s.attempts| - 1];
          && s.counters[cfg.watched] == Counter(last.ord, last.start + Window(cfg))
          && last.time <= s.now && last.ord > 0)
  }

  ghost predicate OrdsAtMost(attempts: seq<Attempt>, k: int) {
    forall i :: 0 <= i < |attempts| ==> attempts[i].ord <= k
  }

  lemma CountKeepsTracks(cfg: Config, s: System, key: string)
    requires cfg.seconds > 0 && Tracks(cfg, s)
    ensures Tracks(cfg, Count(cfg, s, key))
  {
    var next := Count(cfg, s, key);
    if key == cfg.watched && s.attempts != [] {
      var last, added := s.attempts[|s.attempts| - 1], next.attempts[|s.attempts|];
      assert Follows(last, added, Window(cfg));
      forall i | 0 < i < |next.attempts| ensures Follows(next.attempts[i - 1], next.attempts[i], Window(cfg)) {
        if i < |s.attempts| { assert Follows(s.attempts[i - 1], s.attempts[i], Window(cfg)); }
      }
    }
  }

  lemma ApplyKeepsTracks(cfg: Config, s: System, e: Event)
    requires cfg.seconds > 0 && Tracks(cfg, s) && e != Reset(cfg.watched)
    ensures Tracks(cfg, Apply(cfg, s, e))
  {
    if e.Record? && e.h in s.handlers && s.handlers[e.h].phase.Recording? {
      var Handler(keys, Recording(i)) := s.handlers[e.h];
      if i < |keys| && !e.write.Lost? { CountKeepsTracks(cfg, s, keys[i]); }
    }
  }

  /** A new attempt gets the counter value it leaves behind. */
  lemma NewOrd(cfg: Config, s: System, e: Event, k: int)
    requires cfg.seconds > 0 && Tracks(cfg, s) && e != Reset(cfg.watched)
    requires OrdsAtMost(s.attempts, k) && LiveCount(Apply(cfg, s, e).counters, cfg.watched, Apply(cfg, s, e).now) <= k
    ensures OrdsAtMost(Apply(cfg, s, e).attempts, k)
  {
    ApplyKeepsTracks(cfg, s, e);
    var next := Apply(cfg, s, e);
    if next.attempts != s.attempts {
      var keys, i := s.handlers[e.h].keys, s.handlers[e.h].phase.next;
      RecordCountsOne(s.counters, keys[i], cfg.seconds, s.now, keys[i], s.now);
      assert next.now == s.now && next.attempts == s.attempts + [next.attempts[|s.attempts|]];
    }
  }

  /** What one step of a run keeps, where worst is the highest count of let-through requests of any window. */
  ghost predicate Kept(cfg: Config, s: System, n: nat, worst: nat) {
    && KeysOk(s) && Bounded(cfg, s, n) && Tracks(cfg, s) && s.failedOpen <= s.worstOpen <= worst
    && OrdsAtMost(s.attempts, Ceiling(cfg, n, worst))
  }

  lemma StepKeeps(cfg: Config, s: System, e: Event, n: nat, worst: nat)
    requires cfg.maxAttempts > 0 && cfg.seconds > 0 && Kept(cfg, s, n, worst)
    requires |Pending(s, cfg.watched)| <= n && |Pending(Apply(cfg, s, e), cfg.watched)| <= n
    requires (e.Arrive? ==> Distinct(e.keys)) && e != Reset(cfg.watched) && Apply(cfg, s, e).worstOpen <= worst
    ensures Kept(cfg, Apply(cfg, s, e), n, worst)
  {
    ApplyKeepsBound(cfg, s, e, n);
    ApplyKeepsTracks(cfg, s, e);
    NewOrd(cfg, s, e, Ceiling(cfg, n, worst));
  }

  lemma {:induction false} RunTracks(cfg: Config, s: System, events: seq<Event>, n: nat, worst: nat)
    requires cfg.maxAttempts > 0 && cfg.seconds > 0 && Kept(cfg, s, n, worst)
    requires AtMostPending(cfg, s, events, n) && DistinctKeys(events) && Reset(cfg.watched) !in events
    requires worst == Run(cfg, s, events).worstOpen
    ensures Kept(cfg, Run(cfg, s, events), n, worst)
    decreases |events|
  {
    if events != [] {
      var e, next := events[0], Apply(cfg, s, events[0]);
      assert e in events;
      WorstOpenGrows(cfg, next, events[1..]);
      StepKeeps(cfg, s, e, n, worst);
      RunTracks(cfg, next, events[1..], n, worst);
    }
  }

  lemma {:induction false} WorstOpenGrows(cfg: Config, s: System, events: seq<Event>)
    ensures s.worstOpen <= Run(cfg, s, events).worstOpen
    decreases |events|
  {
    if events != [] { WorstOpenGrows(cfg, Apply(cfg, s, events[0]), events[1..]); }
  }

  /** Within a chain whose counters never pass k, the next window opens soon after attempt i. */
  lemma {:induction false} NextWindow(attempts: seq<Attempt>, window: int, k: int, i: nat) returns (p: nat)
    requires Chain(attempts, window) && OrdsAtMost(attempts, k)
    requires i < |attempts| && i + k - attempts[i].ord + 1 < |attempts|
    ensures i < p <= i + k - attempts[i].ord + 1 && p < |attempts|
    ensures attempts[p].ord == 1 && attempts[p].time >= attempts[i].start + window
    decreases |attempts| - i
  {
    assert Follows(attempts[i], attempts[i + 1], window);
    if attempts[i + 1].ord == 1 {
      p := i + 1;
    } else {
      p := NextWindow(attempts, window, k, i + 1);
    }
  }

  lemma {:induction false} TimesAscend(attempts: seq<Attempt>, window: int, i: nat, j: nat)
    requires Chain(attempts, window) && i <= j < |attempts|
    ensures attempts[i].time <= attempts[j].time
    decreases j - i
  {
    if i < j {
      assert Follows(attempts[j - 1], attempts[j], window);
      TimesAscend(attempts, window, i, j - 1);
    }
  }

  /** 2k attempts in a row never fit into a half-open interval of one window. */
  lemma TwiceCeilingNeverFits(attempts: seq<Attempt>, window: int, k: int, i: nat)
    requires Chain(attempts, window) && OrdsAtMost(attempts, k) && k > 0 && window > 0
    requires i + 2 * k - 1 < |attempts|
    ensures attempts[i + 2 * k - 1].time >= attempts[i].time + window
  {
    assert attempts[i].ord >= 1 by { OrdsPositive(attempts, window, i); }
    var p := NextWindow(attempts, window, k, i);
    if attempts[i].ord == 1 {
      assert attempts[i].start == attempts[i].time by {
        if i > 0 { assert Follows(attempts[i - 1], attempts[i], window); }
      }
      TimesAscend(attempts, window, p, i + 2 * k - 1);
    } else {
      TimesAscend(attempts, window, i, p);
      var q := NextWindow(attempts, window, k, p);
      assert attempts[p].start == attempts[p].time by { assert Follows(attempts[p - 1], attempts[p], window); }
      TimesAscend(attempts, window, q, i + 2 * k - 1);
    }
  }

  /** 3k attempts in a row never fit into two windows either. */
  lemma ThriceCeilingNeverFits(attempts: seq<Attempt>, window: int, k: int, i: nat)
    requires Chain(attempts, window) && OrdsAtMost(attempts, k) && k > 0 && window > 0
    requires i + 3 * k - 1 < |attempts|
    ensures attempts[i + 3 * k - 1].time >= attempts[i].time + 2 * window
  {
    OrdsPositive(attempts, window, i);
    var p := NextWindow(attempts, window, k, i);
    var q := NextWindow(attempts, window, k, p);
    assert attempts[p].start == attempts[p].time by { assert Follows(attempts[p - 1], attempts[p], window); }
    assert attempts[q].start == attempts[q].time by { assert Follows(attempts[q - 1], attempts[q], window); }
    if attempts[i].ord == 1 {
      assert attempts[i].start == attempts[i].time by {
        if i > 0 { assert Follows(attempts[i - 1], attempts[i], window); }
      }
      TimesAscend(attempts, window, q, i + 3 * k - 1);
    } else {
      var r := NextWindow(attempts, window, k, q);
      TimesAscend(attempts, window, i, p);
      TimesAscend(attempts, window, r, i + 3 * k - 1);
    }
  }

  lemma {:induction false} OrdsPositive(attempts: seq<Attempt>, window: int, i: nat)
    requires Chain(attempts, window) && i < |attempts|
    ensures attempts[i].ord >= 1
  {
    if i > 0 {
      OrdsPositive(attempts, window, i - 1);
      assert Follows(attempts[i - 1], attempts[i], window);
    }
  }

  /** The attempts counted at an instant in [from, to). */
  function CountIn(attempts: seq<Attempt>, from: int, to: int): nat {
    if attempts == [] then 0
    else CountIn(attempts[..|attempts| - 1], from, to)
         + (if from <= attempts[|attempts| - 1].time < to then 1 else 0)
  }

  /** Because instants ascend, those attempts are consecutive. */
  lemma {:induction false} CountedAreConsecutive(attempts: seq<Attempt>, window: int, from: int, to: int)
    returns (i: nat)
    requires Chain(attempts, window)
    ensures i + CountIn(attempts, from, to) <= |attempts|
    ensures forall j :: i <= j < i + CountIn(attempts, from, to) ==> from <= attempts[j].time < to
    ensures CountIn(attempts, from, to) > 0 && attempts[|attempts| - 1].time < to ==>
        i + CountIn(attempts, from, to) == |attempts|
    decreases |attempts|
  {
    if attempts == [] {
      i := 0;
    } else {
      var init, last := attempts[..|attempts| - 1], attempts[|attempts| - 1];
      i := CountedAreConsecutive(init, window, from, to);
      if init != [] { assert Follows(attempts[|attempts| - 2], last, window); }
      if from <= last.time < to && CountIn(init, from, to) == 0 { i := |init|; }
      if CountIn(init, from, to) > 0 && last.time < to {
        TimesAscend(attempts, window, i, |attempts| - 1);
      }
    }
  }

  lemma ReachedAttempts(cfg: Config, start: int, events: seq<Event>, n: nat)
    requires cfg.maxAttempts > 0 && cfg.seconds > 0
    requires AtMostPending(cfg, Initial(start), events, n) && DistinctKeys(events) && Reset(cfg.watched) !in events
    ensures var s := Run(cfg, Initial(start), events);
            Chain(s.attempts, Window(cfg)) && OrdsAtMost(s.attempts, Ceiling(cfg, n, s.worstOpen))
  {
    assert Pending(Initial(start), cfg.watched) == {};
    RunTracks(cfg, Initial(start), events, n, Run(cfg, Initial(start), events).worstOpen);
  }

  /** On a key that is never reset, with a window of at least a second, any half-open interval as long as the
      window's whole seconds holds at most 2K - 1 counted attempts, where K is the highest ceiling of the counter in
      any of its windows. */
  lemma AttemptsPerWindow(cfg: Config, start: int, events: seq<Event>, n: nat, from: int)
    requires cfg.maxAttempts > 0 && cfg.seconds > 0 && n > 0
    requires AtMostPending(cfg, Initial(start), events, n) && DistinctKeys(events) && Reset(cfg.watched) !in events
    ensures var s := Run(cfg, Initial(start), events);
            CountIn(s.attempts, from, from + Window(cfg)) <= 2 * (cfg.maxAttempts + n - 1 + s.worstOpen) - 1
  {
    var s := Run(cfg, Initial(start), events);
    ReachedAttempts(cfg, start, events, n);
    var k := Ceiling(cfg, n, s.worstOpen);
    var i := CountedAreConsecutive(s.attempts, Window(cfg), from, from + Window(cfg));
    if CountIn(s.attempts, from, from + Window(cfg)) >= 2 * k {
      TwiceCeilingNeverFits(s.attempts, Window(cfg), k, i);
    }
  }

  /** An interval as long as the configured window, which may have a fraction of a second more than its counters
      live, holds at most 3K - 1. */
  lemma AttemptsPerConfiguredWindow(maxAttempts: nat, window: nat, key: string, start: int, events: seq<Event>, n: nat,
                                    from: int)
    requires maxAttempts > 0 && window >= SECOND && n > 0
    requires var cfg := Config(maxAttempts, WholeSeconds(window), key);
             AtMostPending(cfg, Initial(start), events, n) && DistinctKeys(events) && Reset(key) !in events
    ensures var s := Run(Config(maxAttempts, WholeSeconds(window), key), Initial(start), events);
            CountIn(s.attempts, from, from + window) <= 3 * (maxAttempts + n - 1 + s.worstOpen) - 1
  {
    var cfg := Config(maxAttempts, WholeSeconds(window), key);
    var s := Run(cfg, Initial(start), events);
    ReachedAttempts(cfg, start, events, n);
    var k := Ceiling(cfg, n, s.worstOpen);
    var i := CountedAreConsecutive(s.attempts, Window(cfg), from, from + window);
    assert window < 2 * Window(cfg);
    if CountIn(s.attempts, from, from + window) >= 3 * k {
      ThriceCeilingNeverFits(s.attempts, Window(cfg), k, i);
    }
  }

  // ---- a limiter with a window under a second ----------------------------------------------------

  /** With no whole second in the window a key that has no counter never gets one, whatever happens, so no
      check of it ever refuses anyone. */
  lemma {:induction false} NeverCounted(cfg: Config, s: System, events: seq<Event>)
    requires cfg.seconds == 0 && cfg.watched !in s.counters
    ensures cfg.watched !in Run(cfg, s, events).counters
    decreases |events|
  {
    if events != [] { NeverCounted(cfg, Apply(cfg, s, events[0]), events[1..]); }
  }
}
