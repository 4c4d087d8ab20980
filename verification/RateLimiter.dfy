/** The Redis attempt counters behind login, send-code and service-token limits. */
module RateLimiter {
  import opened Prelude

  /** Nanoseconds in a second: EXPIRE takes whole seconds, time.Duration counts nanoseconds. */
  const SECOND: int := 1_000_000_000

  datatype Counter = Counter(n: nat, deadline: int)

  type Counters = map<string, Counter>

  /** GET: a counter whose deadline has come is gone. */
  function LiveCount(counters: Counters, key: string, now: int): nat {
    if key in counters && now < counters[key].deadline then counters[key].n else 0
  }

  /** INCR, and EXPIRE on the first increment only. EXPIRE with no positive time deletes the key. */
  function AfterRecord(counters: Counters, key: string, seconds: nat, now: int): Counters {
    var n := LiveCount(counters, key, now) + 1;
    if n > 1 then counters[key := Counter(n, counters[key].deadline)]
    else if seconds == 0 then counters - {key}
    else counters[key := Counter(1, now + seconds * SECOND)]
  }

  function WholeSeconds(window: nat): nat {
    window / SECOND
  }

  /** Record the keys in turn, each at its instant, up to a write that reports failure. */
  function RecordAll(counters: Counters, keys: seq<string>, prefix: string, writes: seq<Write>, seconds: nat,
                     times: seq<int>): (Counters, bool)
    requires |writes| == |keys| == |times|
    decreases |keys|
  {
    if keys == [] then (counters, true)
    else
      var next := if writes[0].Lost? then counters else AfterRecord(counters, prefix + keys[0], seconds, times[0]);
      if writes[0].Applied? then RecordAll(next, keys[1..], prefix, writes[1..], seconds, times[1..]) else (next, false)
  }

  /** Ask about every key in turn, each at its instant; the first error or refusal decides. */
  function CheckAll(counters: Counters, keys: seq<string>, prefix: string, max: nat, fails: seq<bool>,
                    times: seq<int>): Option<bool>
    requires |fails| == |keys| == |times|
    decreases |keys|
  {
    if keys == [] then Some(true)
    else if fails[0] then None
    else if LiveCount(counters, prefix + keys[0], times[0]) >= max then Some(false)
    else CheckAll(counters, keys[1..], prefix, max, fails[1..], times[1..])
  }

  /** A request passes without an error exactly when no check fails and no key has reached its limit. */
  lemma {:induction false} PassingMeansAllBelow(counters: Counters, keys: seq<string>, prefix: string, max: nat,
                                                fails: seq<bool>, times: seq<int>)
    requires |fails| == |keys| == |times|
    ensures CheckAll(counters, keys, prefix, max, fails, times) == Some(true)
       <==> forall i :: 0 <= i < |keys| ==> !fails[i] && LiveCount(counters, prefix + keys[i], times[i]) < max
    decreases |keys|
  {
    if keys != [] {
      PassingMeansAllBelow(counters, keys[1..], prefix, max, fails[1..], times[1..]);
      if CheckAll(counters, keys[1..], prefix, max, fails[1..], times[1..]) == Some(true) {
        forall i | 0 < i < |keys| ensures !fails[i] && LiveCount(counters, prefix + keys[i], times[i]) < max {
          assert keys[i] == keys[1..][i - 1] && fails[i] == fails[1..][i - 1] && times[i] == times[1..][i - 1];
        }
      }
      if forall i :: 0 <= i < |keys| ==> !fails[i] && LiveCount(counters, prefix + keys[i], times[i]) < max {
        forall i | 0 <= i < |keys| - 1
          ensures !fails[1..][i] && LiveCount(counters, prefix + keys[1..][i], times[1..][i]) < max
        {
          assert keys[1..][i] == keys[i + 1] && fails[1..][i] == fails[i + 1] && times[1..][i] == times[i + 1];
        }
      }
    }
  }

  /** Key i is full when it is asked about, and before it every key is answered for and below its limit. */
  predicate RefusedAt(counters: Counters, keys: seq<string>, prefix: string, max: nat, fails: seq<bool>,
                      times: seq<int>, i: nat)
    requires |fails| == |keys| == |times|
  {
    && i < |keys| && !fails[i] && LiveCount(counters, prefix + keys[i], times[i]) >= max
    && forall j :: 0 <= j < i ==> !fails[j] && LiveCount(counters, prefix + keys[j], times[j]) < max
  }

  /** A request is refused exactly when the first key that fails to be below its limit is full, not unanswered. */
  lemma {:induction false} RefusedExactly(counters: Counters, keys: seq<string>, prefix: string, max: nat,
                                          fails: seq<bool>, times: seq<int>)
    requires |fails| == |keys| == |times|
    ensures CheckAll(counters, keys, prefix, max, fails, times) == Some(false)
       <==> exists i: nat :: RefusedAt(counters, keys, prefix, max, fails, times, i)
    decreases |keys|
  {
    if keys != [] {
      RefusedExactly(counters, keys[1..], prefix, max, fails[1..], times[1..]);
      if i: nat :| RefusedAt(counters, keys[1..], prefix, max, fails[1..], times[1..], i) {
        if !fails[0] && LiveCount(counters, prefix + keys[0], times[0]) < max {
          assert RefusedAt(counters, keys, prefix, max, fails, times, i + 1);
        }
      }
      if i: nat :| RefusedAt(counters, keys, prefix, max, fails, times, i) {
        if i > 0 { assert RefusedAt(counters, keys[1..], prefix, max, fails[1..], times[1..], i - 1); }
      }
      if !fails[0] && LiveCount(counters, prefix + keys[0], times[0]) >= max {
        assert RefusedAt(counters, keys, prefix, max, fails, times, 0);
      }
    }
  }

  /** The Redis database the limiters share. */
  class Redis {
    var counters: Counters

    constructor ()
      ensures counters == map[]
    {
      counters := map[];
    }
  }

  class Limiter {
    const rdb: Redis
    const prefix: string
    const maxAttempts: nat
    const window: nat

    constructor (rdb: Redis, prefix: string, maxAttempts: nat, window: nat)
      requires maxAttempts > 0 && window > 0
      ensures this.rdb == rdb && this.prefix == prefix && this.maxAttempts == maxAttempts && this.window == window
    {
      this.rdb, this.prefix, this.maxAttempts, this.window := rdb, prefix, maxAttempts, window;
    }

    predicate Allows(key: string, now: int)
      reads rdb
    {
      LiveCount(rdb.counters, prefix + key, now) < maxAttempts
    }

    method IsAllowed(key: string, now: int, fails: bool) returns (r: Option<bool>)
      ensures r == if fails then None else Some(Allows(key, now))
    {
      if fails { return None; }
      var fullKey := prefix + key;
      if fullKey !in rdb.counters || rdb.counters[fullKey].deadline <= now { return Some(0 < maxAttempts); }
      return Some(rdb.counters[fullKey].n < maxAttempts);
    }

    method Record(key: string, now: int, w: Write) returns (ok: bool)
      modifies rdb
      ensures rdb.counters
           == if w.Lost? then old(rdb.counters)
              else AfterRecord(old(rdb.counters), prefix + key, WholeSeconds(window), now)
      ensures ok == w.Applied?
    {
      if w.Lost? { return false; }
      var fullKey := prefix + key;
      var n := 1;
      if fullKey in rdb.counters && now < rdb.counters[fullKey].deadline {
        n := rdb.counters[fullKey].n + 1;
      }
      if n == 1 {
        var seconds := window / SECOND;
        if seconds == 0 {
          rdb.counters := rdb.counters - {fullKey};
        } else {
          rdb.counters := rdb.counters[fullKey := Counter(1, now + seconds * SECOND)];
        }
      } else {
        rdb.counters := rdb.counters[fullKey := rdb.counters[fullKey].(n := n)];
      }
      return w.Applied?;
    }

    method Reset(key: string, w: Write) returns (ok: bool)
      modifies rdb
      ensures rdb.counters == if w.Lost? then old(rdb.counters) else old(rdb.counters) - {prefix + key}
      ensures ok == w.Applied?
    {
      if !w.Lost? { rdb.counters := rdb.counters - {prefix + key}; }
      return w.Applied?;
    }

    method RateLimitAllowed(keys: seq<string>, times: seq<int>, fails: seq<bool>) returns (r: Option<bool>)
      requires |fails| == |keys| == |times|
      ensures r == CheckAll(rdb.counters, keys, prefix, maxAttempts, fails, times)
    {
      ghost var goal := CheckAll(rdb.counters, keys, prefix, maxAttempts, fails, times);
      for i := 0 to |keys|
        invariant goal == CheckAll(rdb.counters, keys[i..], prefix, maxAttempts, fails[i..], times[i..])
      {
        assert keys[i..][1..] == keys[i + 1..] && fails[i..][1..] == fails[i + 1..]
          && times[i..][1..] == times[i + 1..];
        var allowed := IsAllowed(keys[i], times[i], fails[i]);
        if allowed.None? { return None; }
        if !allowed.value { return Some(false); }
      }
      return Some(true);
    }

    method RecordRateLimit(keys: seq<string>, times: seq<int>, writes: seq<Write>) returns (ok: bool)
      requires |writes| == |keys| == |times|
      modifies rdb
      ensures (rdb.counters, ok) == RecordAll(old(rdb.counters), keys, prefix, writes, WholeSeconds(window), times)
    {
      ghost var goal := RecordAll(rdb.counters, keys, prefix, writes, WholeSeconds(window), times);
      for i := 0 to |keys|
        invariant goal == RecordAll(rdb.counters, keys[i..], prefix, writes[i..], WholeSeconds(window), times[i..])
      {
        assert keys[i..][1..] == keys[i + 1..] && writes[i..][1..] == writes[i + 1..]
          && times[i..][1..] == times[i + 1..];
        var recorded := Record(keys[i], times[i], writes[i]);
        if !recorded { return false; }
      }
      return true;
    }
  }

  // ---- keys ------------------------------------------------------------------------------------

  /** The key of an email; folded gives its trimmed lower-case form. */
  function EmailKey(folded: string -> string, scope: string, email: string): string {
    scope + ":email:" + folded(email)
  }

  /** The keys one request is counted under: its email always, its client when a header names one. */
  function RateLimitKeys(folded: string -> string, scope: string, email: string, client: string): (keys: seq<string>)
    ensures 1 <= |keys| <= 2 && keys[0] == EmailKey(folded, scope, email)
    ensures |keys| == 2 <==> client != ""
    ensures client != "" ==> keys[1] == scope + ":client:" + client
  {
    [EmailKey(folded, scope, email)] + (if client == "" then [] else [scope + ":client:" + client])
  }

  /** No email key is ever a client key, so resetting an email key after a success leaves every client
      counter alone and one request is never counted twice under one key. */
  lemma ClientKeysAreNeverEmailKeys(folded: string -> string, scope: string, email: string, client: string)
    ensures EmailKey(folded, scope, email) != scope + ":client:" + client
    ensures forall i, j :: 0 <= i < j < |RateLimitKeys(folded, scope, email, client)|
              ==> RateLimitKeys(folded, scope, email, client)[i] != RateLimitKeys(folded, scope, email, client)[j]
  {
    assert EmailKey(folded, scope, email)[|scope| + 1] == 'e';
    assert (scope + ":client:" + client)[|scope| + 1] == 'c';
  }

  // ---- one counter -----------------------------------------------------------------------------

  /** Counting one key leaves every other counter alone, and the count goes up by one. */
  lemma RecordCountsOne(counters: Counters, key: string, seconds: nat, now: int, other: string, later: int)
    requires seconds > 0
    ensures LiveCount(AfterRecord(counters, key, seconds, now), key, now) == LiveCount(counters, key, now) + 1
    ensures other != key ==>
              LiveCount(AfterRecord(counters, key, seconds, now), other, later) == LiveCount(counters, other, later)
  {
  }

  lemma SamePrefix(prefix: string, a: string, b: string)
    requires prefix + a == prefix + b
    ensures a == b
  {
    assert (prefix + a)[|prefix|..] == a && (prefix + b)[|prefix|..] == b;
  }

  lemma {:induction false} RecordingSparesOthers(counters: Counters, keys: seq<string>, prefix: string,
                                                 writes: seq<Write>, seconds: nat, times: seq<int>, other: string,
                                                 later: int)
    requires |writes| == |keys| == |times| && seconds > 0
    requires forall j :: 0 <= j < |keys| ==> other != prefix + keys[j]
    ensures LiveCount(RecordAll(counters, keys, prefix, writes, seconds, times).0, other, later)
         == LiveCount(counters, other, later)
    decreases |keys|
  {
    if keys != [] {
      var next := if writes[0].Lost? then counters else AfterRecord(counters, prefix + keys[0], seconds, times[0]);
      assert other != prefix + keys[0];
      RecordCountsOne(counters, prefix + keys[0], seconds, times[0], other, later);
      forall j | 0 <= j < |keys| - 1 ensures other != prefix + keys[1..][j] { assert other != prefix + keys[j + 1]; }
      RecordingSparesOthers(next, keys[1..], prefix, writes[1..], seconds, times[1..], other, later);
    }
  }

  /** With writes that go through, a request counts one under each of its keys, at that key's instant. */
  lemma {:induction false} RecordsEveryKey(counters: Counters, keys: seq<string>, prefix: string, writes: seq<Write>,
                                           seconds: nat, times: seq<int>, i: nat)
    requires |writes| == |keys| == |times| && seconds > 0 && i < |keys| && (forall w :: w in writes ==> w.Applied?)
    requires forall j, k :: 0 <= j < k < |keys| ==> keys[j] != keys[k]
    ensures LiveCount(RecordAll(counters, keys, prefix, writes, seconds, times).0, prefix + keys[i], times[i])
         == LiveCount(counters, prefix + keys[i], times[i]) + 1
    decreases |keys|
  {
    var key := prefix + keys[0];
    var next := AfterRecord(counters, key, seconds, times[0]);
    assert writes[0] in writes;
    RecordCountsOne(counters, key, seconds, times[0], prefix + keys[i], times[i]);
    forall j | 0 < j < |keys| ensures key != prefix + keys[j] {
      if key == prefix + keys[j] { SamePrefix(prefix, keys[0], keys[j]); }
    }
    if i == 0 {
      RecordingSparesOthers(next, keys[1..], prefix, writes[1..], seconds, times[1..], key, times[0]);
    } else {
      assert forall w :: w in writes[1..] ==> w in writes;
      RecordsEveryKey(next, keys[1..], prefix, writes[1..], seconds, times[1..], i - 1);
    }
  }

  /** n attempts on one key at one instant. */
  function RecordTimes(counters: Counters, key: string, seconds: nat, now: int, n: nat): Counters {
    if n == 0 then counters else AfterRecord(RecordTimes(counters, key, seconds, now, n - 1), key, seconds, now)
  }

  lemma {:induction false} RecordedInARow(counters: Counters, key: string, seconds: nat, now: int, n: nat)
    requires LiveCount(counters, key, now) == 0
    ensures LiveCount(RecordTimes(counters, key, seconds, now, n), key, now) == if seconds > 0 then n else 0
  {
    if n > 0 { RecordedInARow(counters, key, seconds, now, n - 1); }
  }

  /** As many attempts as the limit allows, on a key with no live counter, bring the counter to the limit
      exactly when the window is at least a second. A shorter one becomes EXPIRE 0, which deletes the counter
      as soon as it is made. */
  lemma {:induction false} LimitIsReachedExactly(counters: Counters, key: string, window: nat, now: int, max: nat)
    requires LiveCount(counters, key, now) == 0 && max > 0
    ensures LiveCount(RecordTimes(counters, key, WholeSeconds(window), now, max), key, now) == max <==> window >= SECOND
  {
    RecordedInARow(counters, key, WholeSeconds(window), now, max);
  }
}
