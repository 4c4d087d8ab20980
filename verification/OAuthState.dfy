/** The in-memory OAuth state store: values with deadlines that are swept whenever the store is used,
    shown to answer like a plain history of adds and consumes. */
module OAuthState {
  import opened Prelude

  datatype State = State(provider: string, redirectURL: string, expiresAt: int)

  type Values = map<string, State>

  /** time.Minute, the lifetime used when none is configured. */
  const MINUTE: int := 60_000_000_000

  /** The deadline itself is still in time: only a later instant is past it. */
  predicate Expired(v: State, now: int) {
    now > v.expiresAt
  }

  function Swept(values: Values, now: int): Values {
    map k | k in values && !Expired(values[k], now) :: values[k]
  }

  /** A call reads the clock twice: for the sweep and for its own business. */
  datatype Op =
    | Add(state: string, provider: string, redirectURL: string, sweptAt: int, at: int)
    | Consume(state: string, sweptAt: int, at: int)

  /** The values and the answer after one call. */
  function Perform(values: Values, ttl: int, op: Op): (Values, Option<State>) {
    var swept := Swept(values, op.sweptAt);
    match op
    case Add(state, provider, redirectURL, _, at) => (swept[state := State(provider, redirectURL, at + ttl)], None)
    case Consume(state, _, at) =>
      if state !in swept then (swept, None)
      else (swept - {state}, if Expired(swept[state], at) then None else Some(swept[state]))
  }

  class StateStore {
    const ttl: int
    var values: Values

    constructor (ttl: int)
      ensures values == map[] && this.ttl == if ttl <= 0 then MINUTE else ttl
    {
      this.ttl := if ttl <= 0 then MINUTE else ttl;
      values := map[];
    }

    method Add(state: string, provider: string, redirectURL: string, sweptAt: int, at: int)
      modifies this
      ensures values == Perform(old(values), ttl, Op.Add(state, provider, redirectURL, sweptAt, at)).0
    {
      CleanupLocked(sweptAt);
      values := values[state := State(provider, redirectURL, at + ttl)];
    }

    method Consume(state: string, sweptAt: int, at: int) returns (r: Option<State>)
      modifies this
      ensures (values, r) == Perform(old(values), ttl, Op.Consume(state, sweptAt, at))
    {
      CleanupLocked(sweptAt);
      if state !in values { return None; }
      var value := values[state];
      values := values - {state};
      if at > value.expiresAt { return None; }
      return Some(value);
    }

    /** Delete expired values while visiting every key, in no particular order. */
    method CleanupLocked(now: int)
      modifies this
      ensures values == Swept(old(values), now)
    {
      var rest := values.Keys;
      while rest != {}
        invariant rest <= old(values).Keys
        invariant values == map k | k in old(values) && (k in rest || !Expired(old(values)[k], now)) :: old(values)[k]
        decreases rest
      {
        var key :| key in rest;
        if now > values[key].expiresAt { values := values - {key}; }
        rest := rest - {key};
      }
    }
  }

  // ---- against a plain history -----------------------------------------------------------------------

  function Replay(ttl: int, history: seq<Op>): Values {
    if history == [] then map[] else Perform(Replay(ttl, history[..|history| - 1]), ttl, history[|history| - 1]).0
  }

  /** The clock never runs backwards. */
  ghost predicate Ordered(history: seq<Op>) {
    && (forall i :: 0 <= i < |history| ==> history[i].sweptAt <= history[i].at)
    && (forall i, j :: 0 <= i < j < |history| ==> history[i].at <= history[j].sweptAt)
  }

  /** The data of the latest Add of a state, unless it has been consumed since. */
  function Outstanding(ttl: int, history: seq<Op>, state: string): Option<State> {
    if history == [] then None
    else
      var last := history[|history| - 1];
      if last.state != state then Outstanding(ttl, history[..|history| - 1], state)
      else if last.Add? then Some(State(last.provider, last.redirectURL, last.at + ttl))
      else None
  }

  /** The store holds what is outstanding, except for values that are past their deadline for good. */
  lemma {:induction false} StoreTracksHistory(ttl: int, history: seq<Op>, state: string, now: int)
    requires Ordered(history) && forall i :: 0 <= i < |history| ==> history[i].at <= now
    ensures var values, outstanding := Replay(ttl, history), Outstanding(ttl, history, state);
            if state in values then outstanding == Some(values[state])
            else outstanding.Some? ==> Expired(outstanding.value, now)
  {
    if history != [] {
      var init, last := history[..|history| - 1], history[|history| - 1];
      StoreTracksHistory(ttl, init, state, last.sweptAt);
    }
  }

  /** Consume returns the latest Add's data exactly when that is not past its deadline and has not been
      consumed since. */
  lemma ConsumeAnswersHistory(ttl: int, history: seq<Op>, state: string, sweptAt: int, at: int)
    requires Ordered(history + [Consume(state, sweptAt, at)])
    ensures var outstanding := Outstanding(ttl, history, state);
            Perform(Replay(ttl, history), ttl, Consume(state, sweptAt, at)).1
              == if outstanding.Some? && at <= outstanding.value.expiresAt then outstanding else None
  {
    var all := history + [Consume(state, sweptAt, at)];
    assert all[|history|] == Consume(state, sweptAt, at);
    forall i | 0 <= i < |history| ensures history[i].at <= sweptAt { assert all[i] == history[i]; }
    assert Ordered(history) by {
      forall i, j | 0 <= i < j < |history|
        ensures history[i].at <= history[j].sweptAt
      {
        assert all[i] == history[i] && all[j] == history[j];
      }
      forall i | 0 <= i < |history| ensures history[i].sweptAt <= history[i].at { assert all[i] == history[i]; }
    }
    StoreTracksHistory(ttl, history, state, sweptAt);
  }

  /** Each Add is consumed at most once: after a Consume nothing is outstanding until the next Add. */
  lemma {:induction false} ConsumedOnce(ttl: int, before: seq<Op>, state: string, sweptAt: int, at: int, after: seq<Op>)
    requires forall op :: op in after && op.Add? ==> op.state != state
    ensures Outstanding(ttl, before + [Consume(state, sweptAt, at)] + after, state) == None
    decreases |after|
  {
    var history := before + [Consume(state, sweptAt, at)] + after;
    if after == [] {
      assert history[|history| - 1] == Consume(state, sweptAt, at);
    } else {
      var last := after[|after| - 1];
      assert last in after && history[|history| - 1] == last;
      assert history[..|history| - 1] == before + [Consume(state, sweptAt, at)] + after[..|after| - 1];
      ConsumedOnce(ttl, before, state, sweptAt, at, after[..|after| - 1]);
    }
  }

  /** The answers of a history of calls. */
  function Answers(values: Values, ttl: int, history: seq<Op>): seq<Option<State>>
    decreases |history|
  {
    if history == [] then []
    else
      var (next, answer) := Perform(values, ttl, history[0]);
      [answer] + Answers(next, ttl, history[1..])
  }

  /** A sweep at any instant changes no answer of any later history, and nothing the store holds after it. */
  lemma SweepIsInvisible(values: Values, ttl: int, now: int, later: seq<Op>)
    requires later != [] && now <= later[0].sweptAt
    ensures Answers(Swept(values, now), ttl, later) == Answers(values, ttl, later)
    ensures Perform(Swept(values, now), ttl, later[0]).0 == Perform(values, ttl, later[0]).0
  {
    assert Swept(Swept(values, now), later[0].sweptAt) == Swept(values, later[0].sweptAt);
  }
}
