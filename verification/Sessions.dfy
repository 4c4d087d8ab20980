/** Refresh-token rotation: RefreshSession and RevokeSession over the expiring revocation store. */
module Sessions {
  import opened Prelude
  import opened Revocations

  datatype TokenType = Access | Refresh | Service

  /** The claims NewStandardClaims signs; every token in circulation carries them. */
  datatype Claims = Claims(tokenId: string, userId: string, tokenType: TokenType, expiresAt: int)

  /** What a caller may present: nothing, something this service did not sign, or signed claims. */
  datatype Presented = Blank | Forged | Signed(claims: Claims)

  datatype UserRead = Live | Gone | Unreadable

  /** The course of one RPC: the instants of its steps and which of its calls fail. */
  datatype Course = Course(validateAt: int, lookupAt: int, readAt: int, setAt: int,
                           lookupFails: bool, signFails: bool, write: Write)

  ghost predicate InOrder(c: Course) {
    c.validateAt <= c.lookupAt <= c.readAt <= c.setAt
  }

  /** ValidateRefreshToken: signed by this service, not expired, of type refresh. */
  function ValidateRefreshToken(p: Presented, now: int): Result<Claims, Code> {
    if p.Blank? then Err(InvalidArgument)
    else if p.Forged? || p.claims.expiresAt <= now || p.claims.tokenType != Refresh then Err(Unauthenticated)
    else Ok(p.claims)
  }

  function EnsureActive(entries: Entries, claims: Claims, c: Course): Option<Code> {
    if claims.tokenId != "" && c.lookupFails then Some(Internal)
    else if Reported(entries, claims.tokenId, c.lookupAt) then Some(Unauthenticated)
    else None
  }

  /** The keys and the answer after revokeRefreshClaims. */
  function RevokeClaims(entries: Entries, claims: Claims, c: Course): (Entries, Option<Code>) {
    (AfterRevoke(entries, claims.tokenId, claims.expiresAt, c.readAt, c.setAt, c.write),
     if RevokeSucceeds(claims.tokenId, claims.expiresAt, c.readAt, c.write) then None else Some(Internal))
  }

  /** RefreshSession up to the moment it hands out the new pair; Ok carries the rotated claims. */
  function RefreshRpc(entries: Entries, p: Presented, user: UserRead, c: Course): (Entries, Result<Claims, Code>) {
    match ValidateRefreshToken(p, c.validateAt)
    case Err(e) => (entries, Err(e))
    case Ok(claims) =>
      match EnsureActive(entries, claims, c)
      case Some(e) => (entries, Err(e))
      case None =>
        if user.Gone? then (entries, Err(Unauthenticated))
        else if user.Unreadable? || c.signFails then (entries, Err(Internal))
        else
          var (next, error) := RevokeClaims(entries, claims, c);
          (next, if error.None? then Ok(claims) else Err(error.value))
  }

  function RevokeRpc(entries: Entries, p: Presented, c: Course): (Entries, Result<Claims, Code>) {
    match ValidateRefreshToken(p, c.validateAt)
    case Err(e) => (entries, Err(e))
    case Ok(claims) =>
      match EnsureActive(entries, claims, c)
      case Some(e) => (entries, Err(e))
      case None =>
        var (next, error) := RevokeClaims(entries, claims, c);
        (next, if error.None? then Ok(claims) else Err(error.value))
  }

  /** The two handlers as they run, over the store object. */
  class SessionService {
    const refreshTokenRevocations: RevocationStore

    constructor (store: RevocationStore)
      ensures refreshTokenRevocations == store
    {
      refreshTokenRevocations := store;
    }

    method RefreshSession(p: Presented, user: UserRead, c: Course) returns (r: Result<Claims, Code>)
      modifies refreshTokenRevocations
      ensures (refreshTokenRevocations.entries, r) == RefreshRpc(old(refreshTokenRevocations.entries), p, user, c)
    {
      var validated := ValidateRefreshToken(p, c.validateAt);
      if validated.Err? { return Err(validated.error); }
      var claims := validated.value;
      var inactive := EnsureRefreshTokenActive(claims, c);
      if inactive.Some? { return Err(inactive.value); }
      if user != Live {
        if user.Gone? { return Err(Unauthenticated); }
        return Err(Internal);
      }
      if c.signFails { return Err(Internal); }
      var failed := RevokeRefreshClaims(claims, c);
      if failed.Some? { return Err(failed.value); }
      return Ok(claims);
    }

    method RevokeSession(p: Presented, c: Course) returns (r: Result<Claims, Code>)
      modifies refreshTokenRevocations
      ensures (refreshTokenRevocations.entries, r) == RevokeRpc(old(refreshTokenRevocations.entries), p, c)
    {
      var validated := ValidateRefreshToken(p, c.validateAt);
      if validated.Err? { return Err(validated.error); }
      var inactive := EnsureRefreshTokenActive(validated.value, c);
      if inactive.Some? { return Err(inactive.value); }
      var failed := RevokeRefreshClaims(validated.value, c);
      if failed.Some? { return Err(failed.value); }
      return Ok(validated.value);
    }

    method EnsureRefreshTokenActive(claims: Claims, c: Course) returns (error: Option<Code>)
      ensures error == EnsureActive(refreshTokenRevocations.entries, claims, c)
    {
      var revoked := refreshTokenRevocations.IsRevoked(claims.tokenId, c.lookupAt, c.lookupFails);
      if revoked.None? { return Some(Internal); }
      if revoked.value { return Some(Unauthenticated); }
      return None;
    }

    method RevokeRefreshClaims(claims: Claims, c: Course) returns (error: Option<Code>)
      modifies refreshTokenRevocations
      ensures (refreshTokenRevocations.entries, error) == RevokeClaims(old(refreshTokenRevocations.entries), claims, c)
    {
      var ok := refreshTokenRevocations.Revoke(claims.tokenId, claims.expiresAt, c.readAt, c.setAt, c.write);
      if !ok { return Some(Internal); }
      return None;
    }
  }

  // ---- which requests succeed ------------------------------------------------------------------

  /** Signed by this service, of type refresh and not past its expiry. */
  predicate IsRefreshToken(p: Presented, now: int) {
    p.Signed? && p.claims.tokenType == Refresh && now < p.claims.expiresAt
  }

  /** The revocation store, asked about a token with an ID, answers that it holds a live key for it. */
  predicate IsReported(entries: Entries, claims: Claims, c: Course) {
    claims.tokenId != "" && !c.lookupFails && claims.tokenId in entries && c.lookupAt < entries[claims.tokenId]
  }

  /** A good token that the store, if it has to be asked, answers for and does not report. */
  predicate Accepted(entries: Entries, p: Presented, c: Course) {
    && IsRefreshToken(p, c.validateAt)
    && (p.claims.tokenId == "" || !c.lookupFails)
    && !IsReported(entries, p.claims, c)
  }

  /** The revocation needs no write, or its write succeeds. */
  predicate CanRetire(claims: Claims, c: Course) {
    claims.tokenId == "" || claims.expiresAt <= c.readAt || c.write.Applied?
  }

  /** The keys after an accepted token was revoked: its own lives on for the remaining life of the token. */
  function WithKey(entries: Entries, claims: Claims, c: Course): Entries {
    if claims.tokenId == "" || claims.expiresAt <= c.readAt || c.write.Lost? then entries
    else entries[claims.tokenId := c.setAt + claims.expiresAt - c.readAt]
  }

  /** A pair is handed out exactly for an accepted refresh token of a live user, when the pair can be signed and the
      old token is revoked. A refusal before the revocation changes no key, and its code tells why. */
  lemma RefreshSucceedsExactly(entries: Entries, p: Presented, user: UserRead, c: Course)
    ensures var (next, r) := RefreshRpc(entries, p, user, c);
            && (r.Ok? <==> Accepted(entries, p, c) && user.Live? && !c.signFails && CanRetire(p.claims, c))
            && (r.Ok? ==> r.value == p.claims)
            && next == (if Accepted(entries, p, c) && user.Live? && !c.signFails then WithKey(entries, p.claims, c)
                        else entries)
            && (r == Err(InvalidArgument) <==> p.Blank?)
            && (r == Err(Unauthenticated)
                <==> !p.Blank? && (!IsRefreshToken(p, c.validateAt) || IsReported(entries, p.claims, c)
                                   || (Accepted(entries, p, c) && user.Gone?)))
            && (r.Err? ==> r.error in {InvalidArgument, Unauthenticated, Internal})
  {
  }

  lemma RevokeSucceedsExactly(entries: Entries, p: Presented, c: Course)
    ensures var (next, r) := RevokeRpc(entries, p, c);
            && (r.Ok? <==> Accepted(entries, p, c) && CanRetire(p.claims, c))
            && (r.Ok? ==> r.value == p.claims)
            && next == (if Accepted(entries, p, c) then WithKey(entries, p.claims, c) else entries)
            && (r == Err(InvalidArgument) <==> p.Blank?)
            && (r == Err(Unauthenticated)
                <==> !p.Blank? && (!IsRefreshToken(p, c.validateAt) || IsReported(entries, p.claims, c)))
            && (r.Err? ==> r.error in {InvalidArgument, Unauthenticated, Internal})
  {
  }

  /** A token that was refreshed or revoked is refused by both RPCs from then on, on any course whose lookup comes
      before its expiry and after its key was set. */
  lemma SpentTokenIsRefused(entries: Entries, p: Presented, user: UserRead, c: Course, next: Entries,
                            again: UserRead, d: Course)
    requires p.Signed?
    requires (next, Ok(p.claims)) == RefreshRpc(entries, p, user, c) || (next, Ok(p.claims)) == RevokeRpc(entries, p, c)
    requires p.claims.tokenId != "" && InOrder(c) && c.setAt <= d.lookupAt < p.claims.expiresAt
    ensures RefreshRpc(next, p, again, d).1.Err? && RefreshRpc(next, p, again, d).0 == next
    ensures RevokeRpc(next, p, d).1.Err? && RevokeRpc(next, p, d).0 == next
  {
    RefreshSucceedsExactly(entries, p, user, c);
    RevokeSucceedsExactly(entries, p, c);
    assert !Accepted(next, p, d);
    RefreshSucceedsExactly(next, p, again, d);
    RevokeSucceedsExactly(next, p, d);
  }

  // ---- whole runs ----------------------------------------------------------------------------

  /** A refresh token some client holds, and the login it descends from. */
  datatype Token = Token(user: string, expiresAt: int, lineage: nat)

  /** spent lists the tokens that were refreshed or revoked with success, refreshed the users of the
      successful refreshes; retired is the set of tokens a revocation took effect for. */
  datatype System = System(
    now: int,
    users: map<string, bool>,
    tokens: map<string, Token>,
    entries: Entries,
    lineages: nat,
    spent: seq<string>,
    refreshed: seq<string>,
    retired: set<string>)

  datatype Event =
    | Wait(duration: nat)
    | AddUser(user: string)
    | DeleteUser(user: string)
    | LogIn(user: string, id: string, expiresAt: int)
    | RefreshSession(id: string, newId: string, newExpiresAt: int, userUnreadable: bool, course: Course)
    | RevokeSession(id: string, course: Course)

  function ClaimsOf(s: System, id: string): Claims
    requires id in s.tokens
  {
    Claims(id, s.tokens[id].user, Refresh, s.tokens[id].expiresAt)
  }

  predicate IsLive(s: System, user: string) {
    user in s.users && s.users[user]
  }

  function ReadUser(s: System, user: string, unreadable: bool): UserRead {
    if unreadable then Unreadable else if IsLive(s, user) then Live else Gone
  }

  /** A revocation took effect when the RPC succeeded, and also when it wrote a key but failed. */
  function Retire(s: System, id: string, entries: Entries, r: Result<Claims, Code>): set<string> {
    if r.Ok? || entries != s.entries then s.retired + {id} else s.retired
  }

  function Apply(s: System, e: Event): System {
    match e
    case Wait(duration) => s.(now := s.now + duration)
    case AddUser(user) => if user in s.users then s else s.(users := s.users[user := true])
    case DeleteUser(user) => if user in s.users then s.(users := s.users[user := false]) else s
    case LogIn(user, id, expiresAt) =>
      if !IsLive(s, user) then s
      else s.(tokens := s.tokens[id := Token(user, expiresAt, s.lineages)], lineages := s.lineages + 1)
    case RefreshSession(id, newId, newExpiresAt, userUnreadable, course) =>
      if id !in s.tokens then s
      else
        var t := s.tokens[id];
        var (entries, r) := RefreshRpc(s.entries, Signed(ClaimsOf(s, id)), ReadUser(s, t.user, userUnreadable), course);
        var s' := s.(now := course.setAt, entries := entries, retired := Retire(s, id, entries, r));
        if r.Err? then s'
        else s'.(tokens := s.tokens[newId := Token(t.user, newExpiresAt, t.lineage)],
                 spent := s.spent + [id], refreshed := s.refreshed + [t.user])
    case RevokeSession(id, course) =>
      if id !in s.tokens then s
      else
        var (entries, r) := RevokeRpc(s.entries, Signed(ClaimsOf(s, id)), course);
        s.(now := course.setAt, entries := entries, retired := Retire(s, id, entries, r),
           spent := if r.Ok? then s.spent + [id] else s.spent)
  }

  /** The clock never runs backwards and token IDs are drawn fresh. */
  ghost predicate Possible(s: System, e: Event) {
    match e
    case LogIn(_, id, _) => id != "" && id !in s.tokens
    case RefreshSession(_, newId, _, _, course) =>
      InOrder(course) && s.now <= course.validateAt && newId != "" && newId !in s.tokens
    case RevokeSession(_, course) => InOrder(course) && s.now <= course.validateAt
    case _ => true
  }

  /** A token that is unexpired when it is validated still is when its revocation is looked up. */
  predicate Prompt(s: System, e: Event) {
    match e
    case RefreshSession(id, _, _, _, course) => LookupInTime(s, id, course)
    case RevokeSession(id, course) => LookupInTime(s, id, course)
    case _ => true
  }

  predicate LookupInTime(s: System, id: string, course: Course) {
    id in s.tokens && course.validateAt < s.tokens[id].expiresAt ==> course.lookupAt < s.tokens[id].expiresAt
  }

  function Run(s: System, events: seq<Event>): System
    decreases |events|
  {
    if events == [] then s else Run(Apply(s, events[0]), events[1..])
  }

  ghost predicate PossibleRun(s: System, events: seq<Event>)
    decreases |events|
  {
    events != [] ==> Possible(s, events[0]) && PossibleRun(Apply(s, events[0]), events[1..])
  }

  ghost predicate PromptRun(s: System, events: seq<Event>)
    decreases |events|
  {
    events != [] ==> Prompt(s, events[0]) && PromptRun(Apply(s, events[0]), events[1..])
  }

  function Initial(now: int): System {
    System(now, map[], map[], map[], 0, [], [], {})
  }

  // ---- the invariant ---------------------------------------------------------------------------

  predicate Usable(s: System, id: string) {
    id in s.tokens && s.now < s.tokens[id].expiresAt && !Reported(s.entries, id, s.now)
  }

  /** A retired token is expired or still has its key. */
  ghost predicate Blocked(s: System, id: string) {
    id in s.tokens && (s.tokens[id].expiresAt <= s.now || (id in s.entries && s.tokens[id].expiresAt <= s.entries[id]))
  }

  ghost predicate NoRepeats(ids: seq<string>) {
    forall i, j :: 0 <= i < j < |ids| ==> ids[i] != ids[j]
  }

  /** What every possible step keeps, lookups in time or not. */
  ghost predicate Sound(s: System) {
    && "" !in s.tokens
    && (forall id :: id in s.entries ==> id in s.retired)
    && (forall id :: id in s.retired ==> Blocked(s, id))
    && (forall id :: id in s.spent ==> id in s.retired)
  }

  /** What needs lookups in time: one unretired token a login, and no token spent twice. */
  ghost predicate Single(s: System) {
    && (forall id :: id in s.tokens ==> s.tokens[id].lineage < s.lineages)
    && (forall a, b :: a in s.tokens && b in s.tokens && a != b && s.tokens[a].lineage == s.tokens[b].lineage
          ==> a in s.retired || b in s.retired)
    && NoRepeats(s.spent)
  }

  ghost predicate Good(s: System) {
    Sound(s) && Single(s)
  }

  lemma RefreshIsSound(s: System, e: Event)
    requires Sound(s) && Possible(s, e) && e.RefreshSession?
    ensures Sound(Apply(s, e))
  {
    var next := Apply(s, e);
    if e.id in s.tokens {
      forall id | id in next.retired ensures Blocked(next, id) {
        if id in s.retired { assert Blocked(s, id); }
      }
    }
  }

  lemma RevokeIsSound(s: System, e: Event)
    requires Sound(s) && Possible(s, e) && e.RevokeSession?
    ensures Sound(Apply(s, e))
  {
    var next := Apply(s, e);
    if e.id in s.tokens {
      forall id | id in next.retired ensures Blocked(next, id) {
        if id in s.retired { assert Blocked(s, id); }
      }
    }
  }

  lemma ApplyIsSound(s: System, e: Event)
    requires Sound(s) && Possible(s, e)
    ensures Sound(Apply(s, e))
  {
    match e
    case RefreshSession(_, _, _, _, _) => RefreshIsSound(s, e);
    case RevokeSession(_, _) => RevokeIsSound(s, e);
    case _ =>
      var next := Apply(s, e);
      forall id | id in next.retired ensures Blocked(next, id) { assert Blocked(s, id); }
  }

  lemma {:induction false} RunIsSound(s: System, events: seq<Event>)
    requires Sound(s) && PossibleRun(s, events)
    ensures Sound(Run(s, events))
    decreases |events|
  {
    if events != [] {
      ApplyIsSound(s, events[0]);
      RunIsSound(Apply(s, events[0]), events[1..]);
    }
  }

  /** The RPCs never accept a retired token whose lookup is in time. */
  lemma RetiredIsRefused(s: System, id: string, user: UserRead, c: Course)
    requires Sound(s) && id in s.retired && InOrder(c) && s.now <= c.validateAt && LookupInTime(s, id, c)
    ensures RefreshRpc(s.entries, Signed(ClaimsOf(s, id)), user, c).1.Err?
    ensures RefreshRpc(s.entries, Signed(ClaimsOf(s, id)), user, c).0 == s.entries
    ensures RevokeRpc(s.entries, Signed(ClaimsOf(s, id)), c).1.Err?
    ensures RevokeRpc(s.entries, Signed(ClaimsOf(s, id)), c).0 == s.entries
  {
    assert Blocked(s, id);
  }

  lemma RefreshStaysSingle(s: System, e: Event)
    requires Good(s) && Possible(s, e) && e.RefreshSession?
    requires e.id in s.retired ==> Apply(s, e).spent == s.spent && Apply(s, e).tokens == s.tokens
    ensures Single(Apply(s, e))
  {
  }

  lemma RevokeStaysSingle(s: System, e: Event)
    requires Good(s) && Possible(s, e) && e.RevokeSession?
    requires e.id in s.retired ==> Apply(s, e).spent == s.spent
    ensures Single(Apply(s, e))
  {
  }

  lemma ApplyKeeps(s: System, e: Event)
    requires Good(s) && Possible(s, e) && Prompt(s, e)
    ensures Good(Apply(s, e))
  {
    ApplyIsSound(s, e);
    match e
    case RefreshSession(id, _, _, userUnreadable, course) =>
      if id in s.retired { RetiredIsRefused(s, id, ReadUser(s, s.tokens[id].user, userUnreadable), course); }
      RefreshStaysSingle(s, e);
    case RevokeSession(id, course) =>
      if id in s.retired { RetiredIsRefused(s, id, Live, course); }
      RevokeStaysSingle(s, e);
    case _ =>
  }

  lemma {:induction false} RunKeeps(s: System, events: seq<Event>)
    requires Good(s) && PossibleRun(s, events) && PromptRun(s, events)
    ensures Good(Run(s, events))
    decreases |events|
  {
    if events != [] {
      ApplyKeeps(s, events[0]);
      RunKeeps(Apply(s, events[0]), events[1..]);
    }
  }

  lemma {:induction false} RunSplits(s: System, before: seq<Event>, after: seq<Event>)
    ensures Run(s, before + after) == Run(Run(s, before), after)
    decreases |before|
  {
    if before == [] {
      assert before + after == after;
    } else {
      assert (before + after)[0] == before[0] && (before + after)[1..] == before[1..] + after;
      RunSplits(Apply(s, before[0]), before[1..], after);
    }
  }

  // ---- the promises, for every run -------------------------------------------------------------

  /** A refresh token is successfully refreshed or revoked at most once, whichever revocation writes
      fail and whether or not a failing write took effect. */
  lemma TokensAreSpentOnce(start: int, events: seq<Event>)
    requires PossibleRun(Initial(start), events) && PromptRun(Initial(start), events)
    ensures NoRepeats(Run(Initial(start), events).spent)
  {
    RunKeeps(Initial(start), events);
  }

  /** A login and its refreshes never leave two usable refresh tokens. */
  lemma OneUsableTokenPerLogin(start: int, events: seq<Event>, a: string, b: string)
    requires PossibleRun(Initial(start), events) && PromptRun(Initial(start), events)
    ensures var s := Run(Initial(start), events);
            Usable(s, a) && Usable(s, b) && s.tokens[a].lineage == s.tokens[b].lineage ==> a == b
  {
    RunKeeps(Initial(start), events);
    var s := Run(Initial(start), events);
    if a in s.retired { assert Blocked(s, a); }
    if b in s.retired { assert Blocked(s, b); }
  }

  /** Over every run, lookups in time or not, "unexpired and not reported" is "unexpired and never revoked"; so
      a spent token is not usable. */
  lemma ReportsNeverForgetTooEarly(start: int, events: seq<Event>, id: string)
    requires PossibleRun(Initial(start), events)
    ensures var s := Run(Initial(start), events);
            && (Usable(s, id) <==> id in s.tokens && s.now < s.tokens[id].expiresAt && id !in s.retired)
            && (id in s.spent ==> !Usable(s, id))
  {
    RunIsSound(Initial(start), events);
    var s := Run(Initial(start), events);
    if id in s.retired { assert Blocked(s, id); }
  }

  function CountOf(users: seq<string>, user: string): nat {
    if users == [] then 0 else CountOf(users[..|users| - 1], user) + (if users[|users| - 1] == user then 1 else 0)
  }

  lemma {:induction false} DeletedStaysDeleted(s: System, events: seq<Event>, user: string)
    requires user in s.users && !s.users[user]
    ensures CountOf(Run(s, events).refreshed, user) == CountOf(s.refreshed, user)
    decreases |events|
  {
    if events != [] {
      var next := Apply(s, events[0]);
      if next.refreshed != s.refreshed {
        var added := next.refreshed[|s.refreshed|];
        assert next.refreshed == s.refreshed + [added] && added != user;
        assert next.refreshed[..|next.refreshed| - 1] == s.refreshed;
      }
      DeletedStaysDeleted(next, events[1..], user);
    }
  }

  /** After a user is deleted no refresh for that user ever succeeds again, on any clock. */
  lemma NoRefreshAfterDeletion(s: System, before: seq<Event>, after: seq<Event>, user: string)
    requires IsLive(Run(s, before), user)
    ensures CountOf(Run(s, before + [DeleteUser(user)] + after).refreshed, user)
        == CountOf(Run(s, before).refreshed, user)
  {
    var s1 := Run(s, before);
    var s2 := Apply(s1, DeleteUser(user));
    RunSplits(s, before, [DeleteUser(user)] + after);
    assert before + [DeleteUser(user)] + after == before + ([DeleteUser(user)] + after);
    assert ([DeleteUser(user)] + after)[1..] == after;
    DeletedStaysDeleted(s2, after, user);
  }

  /** In every reachable state a token no revocation took effect for is refreshed exactly when it is validated
      before its expiry, its user is live, and neither the lookup, the signing nor a needed write fails; and it is
      revoked exactly when it is validated in time and neither the lookup nor a needed write fails. */
  lemma UnretiredTokenIsAcceptedExactly(start: int, events: seq<Event>, id: string, user: UserRead, c: Course)
    requires PossibleRun(Initial(start), events)
    requires var s := Run(Initial(start), events); id in s.tokens && id !in s.retired
    ensures var s := Run(Initial(start), events);
            var claims := ClaimsOf(s, id);
            var goes := c.validateAt < s.tokens[id].expiresAt && !c.lookupFails && CanRetire(claims, c);
            && (RefreshRpc(s.entries, Signed(claims), user, c).1.Ok? <==> goes && user.Live? && !c.signFails)
            && (RevokeRpc(s.entries, Signed(claims), c).1.Ok? <==> goes)
  {
    RunIsSound(Initial(start), events);
    var s := Run(Initial(start), events);
    RefreshSucceedsExactly(s.entries, Signed(ClaimsOf(s, id)), user, c);
    RevokeSucceedsExactly(s.entries, Signed(ClaimsOf(s, id)), c);
  }

  // ---- where promptness is needed --------------------------------------------------------------

  /** The lookup comes after the key of the token has gone, while the validation was still in time. */
  predicate KeyGone(s: System, id: string, c: Course)
    requires id in s.tokens
  {
    c.validateAt < s.tokens[id].expiresAt && (id in s.entries ==> s.entries[id] <= c.lookupAt)
  }

  lemma ReuseInState(s: System, id: string, user: UserRead, c: Course)
    requires Sound(s) && id in s.retired && InOrder(c) && s.now <= c.validateAt
    ensures RefreshRpc(s.entries, Signed(ClaimsOf(s, id)), user, c).1.Ok?
       <==> KeyGone(s, id, c) && user.Live? && !c.lookupFails && !c.signFails
    ensures RevokeRpc(s.entries, Signed(ClaimsOf(s, id)), c).1.Ok? <==> KeyGone(s, id, c) && !c.lookupFails
    ensures KeyGone(s, id, c) ==> !LookupInTime(s, id, c)
  {
    assert Blocked(s, id);
  }

  /** In every reachable state, one in which a token has been reused already included: a retired token is refreshed
      or revoked again exactly when it was validated before its expiry but looked up only after its key had gone,
      with everything else in order. */
  lemma ReuseCondition(start: int, events: seq<Event>, id: string, user: UserRead, c: Course)
    requires PossibleRun(Initial(start), events)
    requires var s := Run(Initial(start), events); id in s.retired && InOrder(c) && s.now <= c.validateAt
    ensures var s := Run(Initial(start), events);
            && id in s.tokens
            && (RefreshRpc(s.entries, Signed(ClaimsOf(s, id)), user, c).1.Ok?
                <==> KeyGone(s, id, c) && user.Live? && !c.lookupFails && !c.signFails)
            && (RevokeRpc(s.entries, Signed(ClaimsOf(s, id)), c).1.Ok? <==> KeyGone(s, id, c) && !c.lookupFails)
            && (KeyGone(s, id, c) ==> !LookupInTime(s, id, c))
  {
    RunIsSound(Initial(start), events);
    var s := Run(Initial(start), events);
    assert Blocked(s, id);
    ReuseInState(s, id, user, c);
  }

  lemma FourSteps(s: seq<System>, e: seq<Event>)
    requires |s| == 5 && |e| == 4 && forall i :: 0 <= i < 4 ==> Possible(s[i], e[i]) && s[i + 1] == Apply(s[i], e[i])
    ensures PossibleRun(s[0], e) && Run(s[0], e) == s[4]
  {
    assert e[3..][1..] == [] && Run(s[4], []) == s[4] && PossibleRun(s[4], []);
    assert e[2..][1..] == e[3..] && Run(s[3], e[3..]) == s[4] && PossibleRun(s[3], e[3..]);
    assert e[1..][1..] == e[2..] && Run(s[2], e[2..]) == s[4] && PossibleRun(s[2], e[2..]);
    assert Run(s[1], e[1..]) == s[4] && PossibleRun(s[1], e[1..]);
  }

  /** A refresh in which nothing goes wrong. */
  lemma RefreshGoesThrough(s: System, e: Event)
    requires e.RefreshSession? && e.id in s.tokens && e.id != "" && IsLive(s, s.tokens[e.id].user) && !e.userUnreadable
    requires e.course.validateAt < s.tokens[e.id].expiresAt && !Reported(s.entries, e.id, e.course.lookupAt)
    requires !e.course.lookupFails && !e.course.signFails && e.course.write.Applied?
    ensures var t, next := s.tokens[e.id], Apply(s, e);
            && next.tokens == s.tokens[e.newId := Token(t.user, e.newExpiresAt, t.lineage)]
            && next.entries == AfterRevoke(s.entries, e.id, t.expiresAt, e.course.readAt, e.course.setAt, Applied)
            && next.spent == s.spent + [e.id] && next.users == s.users && next.now == e.course.setAt
  {
  }

  lemma SlowRun() returns (events: seq<Event>, end: System)
    ensures PossibleRun(Initial(0), events) && end == Run(Initial(0), events)
    ensures end.spent == ["a", "a"] && Usable(end, "b") && Usable(end, "c")
    ensures end.tokens["b"].lineage == end.tokens["c"].lineage
  {
    var quick, slow := Course(0, 0, 0, 0, false, false, Applied), Course(9, 10, 10, 10, false, false, Applied);
    var e0, e1 := AddUser("u"), LogIn("u", "a", 10);
    var e2, e3 := RefreshSession("a", "b", 100, false, quick), RefreshSession("a", "c", 100, false, slow);
    var s0 := Initial(0);
    var s1 := Apply(s0, e0);
    var s2 := Apply(s1, e1);
    assert s2.tokens == map["a" := Token("u", 10, 0)] && s2.entries == map[] && s2.now == 0 && s2.spent == [];
    var s3 := Apply(s2, e2);
    RefreshGoesThrough(s2, e2);
    var s4 := Apply(s3, e3);
    RefreshGoesThrough(s3, e3);
    FourSteps([s0, s1, s2, s3, s4], [e0, e1, e2, e3]);
    events, end := [e0, e1, e2, e3], s4;
  }

  /** Such a run exists: a token refreshed once is refreshed again by a request that is validated one
      tick before the expiry and looked up at it, and the login then has two usable tokens. */
  lemma SlowLookupReusesToken()
    ensures exists events: seq<Event> ::
              && PossibleRun(Initial(0), events)
              && !NoRepeats(Run(Initial(0), events).spent)
              && Usable(Run(Initial(0), events), "b") && Usable(Run(Initial(0), events), "c")
              && Run(Initial(0), events).tokens["b"].lineage == Run(Initial(0), events).tokens["c"].lineage
  {
    var events, end := SlowRun();
    assert end.spent[0] == end.spent[1];
    assert PossibleRun(Initial(0), events) && Run(Initial(0), events) == end;
  }
}
