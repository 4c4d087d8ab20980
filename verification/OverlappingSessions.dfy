/** Refresh and revoke requests that overlap: each store call is a step of its own. Exactly when a refresh token is
    spent more than once. */
module OverlappingSessions {
  import opened Prelude
  import opened Revocations
  import Sessions

  datatype Token = Token(expiresAt: int, lineage: nat)

  /** Where a request is: its token is validated; it has passed the lookup, at an instant at which seen tokens had
      been spent; or it is over. */
  datatype Phase = Validated | Passed(at: int, seen: nat) | Over

  datatype Request = Request(id: string, phase: Phase)

  /** spent lists the tokens refreshed or revoked with success; retired is the set of tokens a revocation took effect
      for. */
  datatype System = System(
    now: int,
    tokens: map<string, Token>,
    lineages: nat,
    entries: Entries,
    requests: map<nat, Request>,
    spent: seq<string>,
    retired: set<string>)

  /** The pair a refresh hands out; a revocation hands out none. */
  type NewToken = Option<(string, int)>

  /** A request gives up when its user is gone or unreadable or the pair can not be signed. readAt is the instant the
      remaining life of the token is computed at, before the key is set. */
  datatype Step =
    | Wait(duration: nat)
    | LogIn(id: string, expiresAt: int)
    | Validate(r: nat, id: string)
    | LookUp(r: nat, fails: bool)
    | GiveUp(r: nat)
    | Revoke(r: nat, issued: NewToken, readAt: int, write: Write)

  function Move(s: System, r: nat, phase: Phase): System
    requires r in s.requests
  {
    s.(requests := s.requests[r := s.requests[r].(phase := phase)])
  }

  predicate IsPassed(s: System, r: nat) {
    r in s.requests && s.requests[r].phase.Passed? && s.requests[r].id in s.tokens
  }

  /** revokeRefreshClaims of a request that got that far, and the pair it answers with. */
  function Revoked(s: System, r: nat, issued: NewToken, readAt: int, write: Write): System
    requires IsPassed(s, r)
  {
    var id, t := s.requests[r].id, s.tokens[s.requests[r].id];
    var entries := AfterRevoke(s.entries, id, t.expiresAt, readAt, s.now, write);
    var ok := RevokeSucceeds(id, t.expiresAt, readAt, write);
    var retired := if ok || entries != s.entries then s.retired + {id} else s.retired;
    var over := Move(s, r, Over).(entries := entries, retired := retired);
    if !ok then over
    else if issued.None? then over.(spent := s.spent + [id])
    else over.(spent := s.spent + [id], tokens := s.tokens[issued.value.0 := Token(issued.value.1, t.lineage)])
  }

  function Perform(s: System, e: Step): System {
    match e
    case Wait(duration) => s.(now := s.now + duration)
    case LogIn(id, expiresAt) => s.(tokens := s.tokens[id := Token(expiresAt, s.lineages)], lineages := s.lineages + 1)
    case Validate(r, id) =>
      if r in s.requests || id !in s.tokens || s.tokens[id].expiresAt <= s.now then s
      else s.(requests := s.requests[r := Request(id, Validated)])
    case LookUp(r, fails) =>
      if r !in s.requests || !s.requests[r].phase.Validated? then s
      else if fails || Reported(s.entries, s.requests[r].id, s.now) then Move(s, r, Over)
      else Move(s, r, Passed(s.now, |s.spent|))
    case GiveUp(r) => if r in s.requests then Move(s, r, Over) else s
    case Revoke(r, issued, readAt, write) => if IsPassed(s, r) then Revoked(s, r, issued, readAt, write) else s
  }

  /** Token IDs are drawn fresh, and a request computes the remaining life after its lookup. */
  ghost predicate Possible(s: System, e: Step) {
    match e
    case LogIn(id, _) => id != "" && id !in s.tokens
    case Revoke(r, issued, readAt, _) =>
      && (issued.Some? ==> issued.value.0 != "" && issued.value.0 !in s.tokens)
      && (IsPassed(s, r) ==> s.requests[r].phase.at <= readAt <= s.now)
    case _ => true
  }

  function PerformAll(s: System, steps: seq<Step>): System
    decreases |steps|
  {
    if steps == [] then s else PerformAll(Perform(s, steps[0]), steps[1..])
  }

  ghost predicate PossibleRun(s: System, steps: seq<Step>)
    decreases |steps|
  {
    steps != [] ==> Possible(s, steps[0]) && PossibleRun(Perform(s, steps[0]), steps[1..])
  }

  function Initial(now: int): System {
    System(now, map[], 0, map[], map[], [], {})
  }

  // ---- what every interleaving keeps -------------------------------------------------------------------

  /** A retired token is expired or still has its key. */
  ghost predicate Blocked(s: System, id: string) {
    && id in s.tokens
    && (s.tokens[id].expiresAt <= s.now || (id in s.entries && s.tokens[id].expiresAt <= s.entries[id]))
  }

  /** What a request that passed the lookup saw: a token that had been spent by then was past its expiry. */
  ghost predicate SawRight(s: System, q: Request) {
    q.phase.Passed? ==>
      && q.id in s.tokens && q.phase.at <= s.now && q.phase.seen <= |s.spent|
      && (q.id in s.spent[..q.phase.seen] ==> s.tokens[q.id].expiresAt <= q.phase.at)
  }

  ghost predicate Sound(s: System) {
    && "" !in s.tokens
    && (forall r :: r in s.requests ==> s.requests[r].id in s.tokens && SawRight(s, s.requests[r]))
    && (forall id :: id in s.entries ==> id in s.retired)
    && (forall id :: id in s.retired ==> Blocked(s, id))
    && (forall id :: id in s.spent ==> id in s.retired)
  }

  lemma LookUpIsSound(s: System, r: nat, fails: bool)
    requires Sound(s)
    ensures Sound(Perform(s, LookUp(r, fails)))
  {
    var next := Perform(s, LookUp(r, fails));
    if r in s.requests && next.requests[r].phase.Passed? && s.requests[r].phase.Validated? {
      var id := s.requests[r].id;
      assert s.spent[..|s.spent|] == s.spent;
      if id in s.spent { assert Blocked(s, id); }
    }
    forall q | q in next.requests ensures next.requests[q].id in next.tokens && SawRight(next, next.requests[q]) {
      assert q in s.requests && SawRight(s, s.requests[q]);
    }
    forall id | id in next.retired ensures Blocked(next, id) { assert Blocked(s, id); }
  }

  lemma RevokedEntries(s: System, r: nat, issued: NewToken, readAt: int, write: Write)
    requires Sound(s) && Possible(s, Revoke(r, issued, readAt, write)) && IsPassed(s, r)
    ensures var next := Revoked(s, r, issued, readAt, write);
            && (forall id :: id in next.entries ==> id in next.retired)
            && (forall id :: id in next.retired ==> Blocked(next, id))
  {
    var next := Revoked(s, r, issued, readAt, write);
    forall id | id in next.retired ensures Blocked(next, id) {
      if id in s.retired { assert Blocked(s, id); }
    }
  }

  lemma RevokedRequests(s: System, r: nat, issued: NewToken, readAt: int, write: Write)
    requires Sound(s) && Possible(s, Revoke(r, issued, readAt, write)) && IsPassed(s, r)
    ensures var next := Revoked(s, r, issued, readAt, write);
            forall q :: q in next.requests ==> next.requests[q].id in next.tokens && SawRight(next, next.requests[q])
  {
    var next := Revoked(s, r, issued, readAt, write);
    forall q | q in next.requests ensures next.requests[q].id in next.tokens && SawRight(next, next.requests[q]) {
      assert q in s.requests && SawRight(s, s.requests[q]);
      if next.requests[q].phase.Passed? {
        var seen := next.requests[q].phase.seen;
        assert next.spent[..seen] == s.spent[..seen];
      }
    }
  }

  lemma StepIsSound(s: System, e: Step)
    requires Sound(s) && Possible(s, e)
    ensures Sound(Perform(s, e))
  {
    match e
    case LookUp(r, fails) => LookUpIsSound(s, r, fails);
    case Revoke(r, issued, readAt, write) =>
      if IsPassed(s, r) {
        RevokedEntries(s, r, issued, readAt, write);
        RevokedRequests(s, r, issued, readAt, write);
      }
    case _ =>
      var next := Perform(s, e);
      forall q | q in next.requests ensures next.requests[q].id in next.tokens && SawRight(next, next.requests[q]) {
        assert q in s.requests ==> SawRight(s, s.requests[q]);
      }
      forall id | id in next.retired ensures Blocked(next, id) { assert Blocked(s, id); }
  }

  lemma {:induction false} RunIsSound(s: System, steps: seq<Step>)
    requires Sound(s) && PossibleRun(s, steps)
    ensures Sound(PerformAll(s, steps))
    decreases |steps|
  {
    if steps != [] {
      StepIsSound(s, steps[0]);
      RunIsSound(Perform(s, steps[0]), steps[1..]);
    }
  }

  // ---- exactly when a token is spent twice ---------------------------------------------------------------

  /** The revocation of r succeeds, so its token is spent by it. */
  predicate Spends(s: System, e: Step) {
    && e.Revoke? && IsPassed(s, e.r)
    && RevokeSucceeds(s.requests[e.r].id, s.tokens[s.requests[e.r].id].expiresAt, e.readAt, e.write)
  }

  /** Somebody else spent the token of r after r looked it up. */
  predicate Overtaken(s: System, r: nat)
    requires IsPassed(s, r)
  {
    s.requests[r].phase.seen <= |s.spent| && s.requests[r].id in s.spent[s.requests[r].phase.seen..]
  }

  /** The token of r had been spent before r looked it up, but was past its expiry by then. */
  predicate LookedUpLate(s: System, r: nat)
    requires IsPassed(s, r)
  {
    var Request(id, Passed(at, seen)) := s.requests[r];
    seen <= |s.spent| && id in s.spent[..seen] && s.tokens[id].expiresAt <= at
  }

  /** In every reachable state of every interleaving a request that is about to spend its token finds it spent already
      exactly when another one spent it after its own lookup, or its lookup came after the expiry. */
  lemma SpentAlreadyExactly(start: int, steps: seq<Step>, r: nat)
    requires PossibleRun(Initial(start), steps) && IsPassed(PerformAll(Initial(start), steps), r)
    ensures var s := PerformAll(Initial(start), steps);
            s.requests[r].id in s.spent <==> Overtaken(s, r) || LookedUpLate(s, r)
  {
    RunIsSound(Initial(start), steps);
    var s := PerformAll(Initial(start), steps);
    AlreadyInState(s, r);
  }

  lemma AlreadyInState(s: System, r: nat)
    requires Sound(s) && IsPassed(s, r)
    ensures s.requests[r].id in s.spent <==> Overtaken(s, r) || LookedUpLate(s, r)
  {
    assert SawRight(s, s.requests[r]);
    var seen := s.requests[r].phase.seen;
    assert s.spent == s.spent[..seen] + s.spent[seen..];
  }

  ghost predicate NoRepeats(ids: seq<string>) {
    forall i, j :: 0 <= i < j < |ids| ==> ids[i] != ids[j]
  }

  /** Whenever a request spends its token, nobody has overtaken it and its lookup was not late. */
  ghost predicate NobodyTooLate(s: System, steps: seq<Step>)
    decreases |steps|
  {
    steps != [] ==>
      && (Spends(s, steps[0]) ==> !Overtaken(s, steps[0].r) && !LookedUpLate(s, steps[0].r))
      && NobodyTooLate(Perform(s, steps[0]), steps[1..])
  }

  lemma SpentGrows(s: System, e: Step)
    ensures Perform(s, e).spent == if Spends(s, e) then s.spent + [s.requests[e.r].id] else s.spent
  {
  }

  lemma {:induction false} SpentStays(s: System, steps: seq<Step>)
    ensures s.spent <= PerformAll(s, steps).spent
    decreases |steps|
  {
    if steps != [] {
      SpentGrows(s, steps[0]);
      SpentStays(Perform(s, steps[0]), steps[1..]);
    }
  }

  lemma RepeatStays(spent: seq<string>, id: string, later: seq<string>)
    requires id in spent && spent + [id] <= later
    ensures !NoRepeats(later)
  {
    var i :| 0 <= i < |spent| && spent[i] == id;
    assert later[i] == (spent + [id])[i] && later[|spent|] == (spent + [id])[|spent|];
  }

  lemma {:induction false} OnceFrom(s: System, steps: seq<Step>)
    requires Sound(s) && PossibleRun(s, steps) && NoRepeats(s.spent)
    ensures NoRepeats(PerformAll(s, steps).spent) <==> NobodyTooLate(s, steps)
    decreases |steps|
  {
    if steps != [] {
      var next := Perform(s, steps[0]);
      StepIsSound(s, steps[0]);
      SpentGrows(s, steps[0]);
      if Spends(s, steps[0]) { AlreadyInState(s, steps[0].r); }
      if Spends(s, steps[0]) && s.requests[steps[0].r].id in s.spent {
        SpentStays(next, steps[1..]);
        RepeatStays(s.spent, s.requests[steps[0].r].id, PerformAll(s, steps).spent);
      } else {
        OnceFrom(next, steps[1..]);
      }
    }
  }

  /** In every interleaving of refreshes, revocations and logins, with any failures: no refresh token is spent twice
      exactly when no request spends its token after another one has overtaken it, or after a late lookup. */
  lemma SpentOnceExactly(start: int, steps: seq<Step>)
    requires PossibleRun(Initial(start), steps)
    ensures NoRepeats(PerformAll(Initial(start), steps).spent) <==> NobodyTooLate(Initial(start), steps)
  {
    OnceFrom(Initial(start), steps);
  }

  // ---- one request at a time past the lookup -------------------------------------------------------------

  /** A lookup is in time, and passes only while no other request is past the lookup of the same token. */
  ghost predicate Exclusive(s: System, e: Step) {
    e.LookUp? && e.r in s.requests && s.requests[e.r].phase.Validated? ==>
      && (s.requests[e.r].id in s.tokens ==> s.now < s.tokens[s.requests[e.r].id].expiresAt)
      && forall q :: q in s.requests && s.requests[q].phase.Passed? ==> s.requests[q].id != s.requests[e.r].id
  }

  ghost predicate ExclusiveRun(s: System, steps: seq<Step>)
    decreases |steps|
  {
    steps != [] ==> Exclusive(s, steps[0]) && ExclusiveRun(Perform(s, steps[0]), steps[1..])
  }

  predicate BothPast(s: System, q: nat, r: nat) {
    && q in s.requests && r in s.requests && s.requests[q].phase.Passed? && s.requests[r].phase.Passed?
    && s.requests[q].id == s.requests[r].id
  }

  ghost predicate OnePassed(s: System) {
    && (forall r :: r in s.requests && s.requests[r].phase.Passed? ==> s.requests[r].id !in s.retired)
    && (forall q, r :: BothPast(s, q, r) ==> q == r)
  }

  /** A login has at most one token that is not retired. */
  ghost predicate OnePerLogin(s: System) {
    && (forall id :: id in s.tokens ==> s.tokens[id].lineage < s.lineages)
    && (forall a, b :: a in s.tokens && b in s.tokens && a != b && s.tokens[a].lineage == s.tokens[b].lineage
          ==> a in s.retired || b in s.retired)
  }

  lemma StepKeepsOnePassed(s: System, e: Step)
    requires Sound(s) && OnePassed(s) && Exclusive(s, e)
    ensures OnePassed(Perform(s, e))
  {
    var next := Perform(s, e);
    if e.LookUp? && e.r in s.requests && s.requests[e.r].id in s.retired { assert Blocked(s, s.requests[e.r].id); }
    forall r | r in next.requests && next.requests[r].phase.Passed? ensures next.requests[r].id !in next.retired {
      if e.Revoke? && IsPassed(s, e.r) && r != e.r && s.requests[r].id == s.requests[e.r].id {
        assert BothPast(s, r, e.r);
      }
    }
    forall q, r | BothPast(next, q, r) ensures q == r {
      if q != r && !e.LookUp? { assert BothPast(s, q, r); }
      if q != r && e.LookUp? && q != e.r && r != e.r { assert BothPast(s, q, r); }
    }
  }

  lemma StepKeepsOnePerLogin(s: System, e: Step)
    requires Sound(s) && OnePassed(s) && OnePerLogin(s) && Possible(s, e)
    ensures OnePerLogin(Perform(s, e))
  {
  }

  lemma {:induction false} ExclusiveRunKeeps(s: System, steps: seq<Step>)
    requires Sound(s) && OnePassed(s) && OnePerLogin(s) && PossibleRun(s, steps) && ExclusiveRun(s, steps)
    ensures Sound(PerformAll(s, steps)) && OnePerLogin(PerformAll(s, steps)) && NobodyTooLate(s, steps)
    decreases |steps|
  {
    if steps != [] {
      StepIsSound(s, steps[0]);
      StepKeepsOnePassed(s, steps[0]);
      StepKeepsOnePerLogin(s, steps[0]);
      if Spends(s, steps[0]) { AlreadyInState(s, steps[0].r); }
      ExclusiveRunKeeps(Perform(s, steps[0]), steps[1..]);
    }
  }

  predicate Usable(s: System, id: string) {
    id in s.tokens && s.now < s.tokens[id].expiresAt && !Reported(s.entries, id, s.now)
  }

  /** In every interleaving in which lookups are in time and nobody passes the lookup of a token while another request
      is past it, each token is spent at most once and each login has at most one usable token. */
  lemma ExclusiveLookupsSuffice(start: int, steps: seq<Step>, a: string, b: string)
    requires PossibleRun(Initial(start), steps) && ExclusiveRun(Initial(start), steps)
    ensures var s := PerformAll(Initial(start), steps);
            && NoRepeats(s.spent)
            && (Usable(s, a) && Usable(s, b) && s.tokens[a].lineage == s.tokens[b].lineage ==> a == b)
  {
    ExclusiveRunKeeps(Initial(start), steps);
    SpentOnceExactly(start, steps);
    var s := PerformAll(Initial(start), steps);
    if a in s.retired { assert Blocked(s, a); }
    if b in s.retired { assert Blocked(s, b); }
  }

  // ---- an RPC nobody interrupts --------------------------------------------------------------------------

  /** The calls of a refresh or a revocation at their instants. proceeds tells that it gets as far as revoking. */
  function RpcSteps(now: int, r: nat, id: string, c: Sessions.Course, proceeds: bool, issued: NewToken): seq<Step>
    requires now <= c.validateAt <= c.lookupAt <= c.setAt
  {
    At(now, c.validateAt, Validate(r, id))
    + (At(c.validateAt, c.lookupAt, LookUp(r, c.lookupFails))
       + At(c.lookupAt, c.setAt, LastStep(r, c, proceeds, issued)))
  }

  function LastStep(r: nat, c: Sessions.Course, proceeds: bool, issued: NewToken): Step {
    if proceeds then Revoke(r, issued, c.readAt, c.write) else GiveUp(r)
  }

  /** A step at an instant. */
  function At(now: int, at: int, e: Step): seq<Step>
    requires now <= at
  {
    [Wait(at - now), e]
  }

  lemma AtRuns(s: System, now: int, at: int, e: Step)
    requires now <= at
    ensures PerformAll(s, At(now, at, e)) == Perform(Perform(s, Wait(at - now)), e)
  {
    var s1 := Perform(s, Wait(at - now));
    assert At(now, at, e)[1..] == [e] && [e][1..] == [];
    assert PerformAll(s1, [e]) == PerformAll(Perform(s1, e), []);
  }

  lemma {:induction false} PerformSplits(s: System, before: seq<Step>, after: seq<Step>)
    ensures PerformAll(s, before + after) == PerformAll(PerformAll(s, before), after)
    decreases |before|
  {
    if before == [] {
      assert before + after == after;
    } else {
      assert (before + after)[0] == before[0] && (before + after)[1..] == before[1..] + after;
      PerformSplits(Perform(s, before[0]), before[1..], after);
    }
  }

  lemma Validates(s: System, r: nat, id: string, at: int)
    requires id in s.tokens && r !in s.requests && s.now <= at
    ensures Perform(Perform(s, Wait(at - s.now)), Validate(r, id))
         == if at < s.tokens[id].expiresAt then s.(now := at, requests := s.requests[r := Request(id, Validated)])
            else s.(now := at)
  {
  }

  lemma LooksUp(s: System, r: nat, id: string, at: int, fails: bool)
    requires r in s.requests && s.requests[r] == Request(id, Validated) && s.now <= at
    ensures Perform(Perform(s, Wait(at - s.now)), LookUp(r, fails))
         == Move(s.(now := at), r, if fails || Reported(s.entries, id, at) then Over else Passed(at, |s.spent|))
  {
  }

  /** The request is validated, or there is none. */
  ghost predicate Began(s: System, s1: System, r: nat, id: string, c: Sessions.Course)
    requires id in s.tokens
  {
    s1 == if c.validateAt < s.tokens[id].expiresAt then
            s.(now := c.validateAt, requests := s.requests[r := Request(id, Validated)])
          else s.(now := c.validateAt)
  }

  lemma FirstStage(s: System, r: nat, id: string, c: Sessions.Course, rest: seq<Step>) returns (s1: System)
    requires id in s.tokens && r !in s.requests && s.now <= c.validateAt
    ensures Began(s, s1, r, id, c)
    ensures PerformAll(s, At(s.now, c.validateAt, Validate(r, id)) + rest) == PerformAll(s1, rest)
  {
    s1 := Perform(Perform(s, Wait(c.validateAt - s.now)), Validate(r, id));
    Validates(s, r, id, c.validateAt);
    AtRuns(s, s.now, c.validateAt, Validate(r, id));
    PerformSplits(s, At(s.now, c.validateAt, Validate(r, id)), rest);
  }

  /** The RPC gets past its lookup. */
  predicate PastLookup(s: System, id: string, c: Sessions.Course)
    requires id in s.tokens
  {
    c.validateAt < s.tokens[id].expiresAt && !c.lookupFails && !Reported(s.entries, id, c.lookupAt)
  }

  ghost predicate Reaches(s: System, s2: System, r: nat, id: string, c: Sessions.Course)
    requires id in s.tokens
  {
    && s2.now == c.lookupAt && s2.entries == s.entries && s2.spent == s.spent && s2.tokens == s.tokens
    && if PastLookup(s, id, c) then IsPassed(s2, r) && s2.requests[r].id == id
       else r in s2.requests ==> s2.requests[r].phase.Over?
  }

  lemma SecondStage(s: System, s1: System, r: nat, id: string, c: Sessions.Course, rest: seq<Step>)
    returns (s2: System)
    requires id in s.tokens && r !in s.requests && c.validateAt <= c.lookupAt && Began(s, s1, r, id, c)
    ensures Reaches(s, s2, r, id, c)
    ensures PerformAll(s1, At(c.validateAt, c.lookupAt, LookUp(r, c.lookupFails)) + rest) == PerformAll(s2, rest)
  {
    s2 := Perform(Perform(s1, Wait(c.lookupAt - c.validateAt)), LookUp(r, c.lookupFails));
    if c.validateAt < s.tokens[id].expiresAt { LooksUp(s1, r, id, c.lookupAt, c.lookupFails); }
    AtRuns(s1, c.validateAt, c.lookupAt, LookUp(r, c.lookupFails));
    PerformSplits(s1, At(c.validateAt, c.lookupAt, LookUp(r, c.lookupFails)), rest);
  }

  /** What the RPC leaves: gets tells whether it got as far as revoking. */
  ghost predicate Leaves(s: System, end: System, id: string, c: Sessions.Course, gets: bool, issued: NewToken)
    requires id in s.tokens
  {
    var t := s.tokens[id];
    var ok := gets && RevokeSucceeds(id, t.expiresAt, c.readAt, c.write);
    && end.now == c.setAt
    && end.entries == (if gets then AfterRevoke(s.entries, id, t.expiresAt, c.readAt, c.setAt, c.write) else s.entries)
    && end.spent == (if ok then s.spent + [id] else s.spent)
    && end.tokens == (if ok && issued.Some? then s.tokens[issued.value.0 := Token(issued.value.1, t.lineage)]
                      else s.tokens)
  }

  lemma ThirdStage(s: System, s2: System, r: nat, id: string, c: Sessions.Course, proceeds: bool, issued: NewToken)
    returns (end: System)
    requires id in s.tokens && c.lookupAt <= c.setAt && Reaches(s, s2, r, id, c)
    ensures Leaves(s, end, id, c, PastLookup(s, id, c) && proceeds, issued)
    ensures PerformAll(s2, At(c.lookupAt, c.setAt, LastStep(r, c, proceeds, issued))) == end
  {
    end := Perform(Perform(s2, Wait(c.setAt - c.lookupAt)), LastStep(r, c, proceeds, issued));
    AtRuns(s2, c.lookupAt, c.setAt, LastStep(r, c, proceeds, issued));
  }

  /** Where an uninterrupted RPC gets to. */
  lemma RpcRun(s: System, r: nat, id: string, c: Sessions.Course, proceeds: bool, issued: NewToken)
    requires id in s.tokens && r !in s.requests && Sessions.InOrder(c) && s.now <= c.validateAt
    ensures Leaves(s, PerformAll(s, RpcSteps(s.now, r, id, c, proceeds, issued)), id, c,
                   PastLookup(s, id, c) && proceeds, issued)
  {
    var last := At(c.lookupAt, c.setAt, LastStep(r, c, proceeds, issued));
    var s1 := FirstStage(s, r, id, c, At(c.validateAt, c.lookupAt, LookUp(r, c.lookupFails)) + last);
    var s2 := SecondStage(s, s1, r, id, c, last);
    var end := ThirdStage(s, s2, r, id, c, proceeds, issued);
  }

  /** A RefreshSession or a RevokeSession that nobody interrupts is the run of its calls: same keys, and the token is
      spent exactly when the RPC succeeds. So what holds of all interleavings holds of the RPCs. */
  lemma WholeRpcIsARun(s: System, r: nat, id: string, userId: string, user: Sessions.UserRead, c: Sessions.Course,
                       issued: (string, int))
    requires id != "" && id in s.tokens && r !in s.requests && Sessions.InOrder(c) && s.now <= c.validateAt
    ensures var claims := Sessions.Claims(id, userId, Sessions.Refresh, s.tokens[id].expiresAt);
            var goesOn := user.Live? && !c.signFails;
            var refreshed := PerformAll(s, RpcSteps(s.now, r, id, c, goesOn, Some(issued)));
            var revoked := PerformAll(s, RpcSteps(s.now, r, id, c, true, None));
            var (keys, answer) := Sessions.RefreshRpc(s.entries, Sessions.Signed(claims), user, c);
            var (keys', answer') := Sessions.RevokeRpc(s.entries, Sessions.Signed(claims), c);
            && refreshed.entries == keys && refreshed.spent == (if answer.Ok? then s.spent + [id] else s.spent)
            && revoked.entries == keys' && revoked.spent == (if answer'.Ok? then s.spent + [id] else s.spent)
  {
    RpcRun(s, r, id, c, user.Live? && !c.signFails, Some(issued));
    RpcRun(s, r, id, c, true, None);
  }

  // ---- the run in which two requests spend one token -----------------------------------------------------

  lemma {:induction false} StatesRun(states: seq<System>, steps: seq<Step>)
    requires |states| == |steps| + 1
    requires forall i :: 0 <= i < |steps| ==> Possible(states[i], steps[i])
    requires forall i :: 0 <= i < |steps| ==> states[i + 1] == Perform(states[i], steps[i])
    ensures PossibleRun(states[0], steps) && PerformAll(states[0], steps) == states[|steps|]
    decreases |steps|
  {
    if steps != [] { StatesRun(states[1..], steps[1..]); }
  }

  /** One login, and two refreshes of its token that both look it up before either revokes it. */
  function TwoRefreshes(): seq<Step> {
    [LogIn("a", 10), Validate(0, "a"), Validate(1, "a"), LookUp(0, false), LookUp(1, false),
     Revoke(0, Some(("b", 20)), 0, Applied), Revoke(1, Some(("c", 20)), 0, Applied)]
  }

  lemma BothPassed() returns (s: System)
    ensures s == System(0, map["a" := Token(10, 0)], 1, map[],
                        map[0 := Request("a", Passed(0, 0)), 1 := Request("a", Passed(0, 0))], [], {})
    ensures PossibleRun(Initial(0), TwoRefreshes()[..5]) && PerformAll(Initial(0), TwoRefreshes()[..5]) == s
  {
    var e := TwoRefreshes()[..5];
    var s1 := Perform(Initial(0), e[0]);
    var s2 := Perform(s1, e[1]);
    var s3 := Perform(s2, e[2]);
    var s4 := Perform(s3, e[3]);
    s := Perform(s4, e[4]);
    StatesRun([Initial(0), s1, s2, s3, s4, s], e);
  }

  lemma BothRevoke(s: System) returns (t: System)
    requires s == System(0, map["a" := Token(10, 0)], 1, map[],
                         map[0 := Request("a", Passed(0, 0)), 1 := Request("a", Passed(0, 0))], [], {})
    ensures PossibleRun(s, TwoRefreshes()[5..]) && PerformAll(s, TwoRefreshes()[5..]) == t
    ensures t.spent == ["a", "a"] && Usable(t, "b") && Usable(t, "c") && t.tokens["b"].lineage == t.tokens["c"].lineage
  {
    var e := TwoRefreshes()[5..];
    var s1 := Perform(s, e[0]);
    t := Perform(s1, e[1]);
    StatesRun([s, s1, t], e);
  }

  lemma {:induction false} RunJoins(s: System, before: seq<Step>, after: seq<Step>)
    requires PossibleRun(s, before) && PossibleRun(PerformAll(s, before), after)
    ensures PossibleRun(s, before + after)
    decreases |before|
  {
    if before == [] {
      assert before + after == after;
    } else {
      assert (before + after)[0] == before[0] && (before + after)[1..] == before[1..] + after;
      RunJoins(Perform(s, before[0]), before[1..], after);
    }
  }

  /** Every lookup is in time and no call fails, yet the token is spent twice and its login has two usable tokens. */
  lemma OverlappingRefreshesSpendTwice()
    ensures var t := PerformAll(Initial(0), TwoRefreshes());
            && PossibleRun(Initial(0), TwoRefreshes()) && !NoRepeats(t.spent)
            && Usable(t, "b") && Usable(t, "c") && t.tokens["b"].lineage == t.tokens["c"].lineage
  {
    var s := BothPassed();
    var t := BothRevoke(s);
    RunJoins(Initial(0), TwoRefreshes()[..5], TwoRefreshes()[5..]);
    PerformSplits(Initial(0), TwoRefreshes()[..5], TwoRefreshes()[5..]);
    assert TwoRefreshes()[..5] + TwoRefreshes()[5..] == TwoRefreshes();
    assert t.spent[0] == t.spent[1];
  }
}
