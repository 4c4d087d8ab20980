/** The handlers that consult the limiters: password login, email-code login and the sending of codes. */
module LoginHandlers {
  import opened Prelude
  import opened RateLimiter
  import Base64
  import D = Directory
  import GoText
  import OAuthService
  import PasswordHash
  import Limits = RateLimitRuns

  /** What a handler meets on its way: the instants and outcomes of its limiter calls, the instant of its code
      store call, its user store calls, and whether tokens can be signed. */
  datatype Env = Env(
    checkedAt: seq<int>,
    checkFails: seq<bool>,
    codeAt: int,
    recordedAt: seq<int>,
    writes: seq<Write>,
    resetWrite: Write,
    readCall: D.Call,
    createCall: D.Call,
    recordCall: D.Call,
    signFails: bool)

  /** One instant and one outcome for every key. */
  ghost predicate Fits(env: Env, keys: seq<string>) {
    |env.checkedAt| == |env.checkFails| == |env.recordedAt| == |env.writes| == |keys|
  }

  /** Where the handler got to after the check: refused, or let through with one of three ends. */
  datatype Verdict = Wrong | Right | NeitherCounted

  function Gate(counters: Counters, prefix: string, keys: seq<string>, max: nat, env: Env): Option<bool>
    requires |env.checkFails| == |env.checkedAt| == |keys|
  {
    CheckAll(counters, keys, prefix, max, env.checkFails, env.checkedAt)
  }

  /** The counters after a login attempt: a wrong secret is counted under every key, a right one clears the
      email key only, and a request that is refused or ends otherwise leaves no trace. */
  function AfterLogin(counters: Counters, prefix: string, keys: seq<string>, max: nat, seconds: nat,
                      verdict: Verdict, env: Env): Counters
    requires |env.checkFails| == |env.checkedAt| == |env.writes| == |env.recordedAt| == |keys| && keys != []
  {
    if Gate(counters, prefix, keys, max, env) == Some(false) then counters
    else match verdict
      case Wrong => RecordAll(counters, keys, prefix, env.writes, seconds, env.recordedAt).0
      case Right => if env.resetWrite.Lost? then counters else counters - {prefix + keys[0]}
      case NeitherCounted => counters
  }

  /** The verification of a password against a stored hash. */
  type Verifier = string -> Result<bool, PasswordHash.HashError>

  function VerifierOf(argon2: PasswordHash.Argon2, password: seq<Base64.Byte>): Verifier {
    hash => PasswordHash.VerifyPassword(argon2, password, hash)
  }

  function PasswordVerdict(found: Result<D.UserModel, D.StoreError>, verify: Verifier): Verdict {
    if found.Err? || found.value.hashedPassword.None? then NeitherCounted
    else
      match verify(found.value.hashedPassword.value)
      case Ok(valid) => if valid then Right else Wrong
      case Err(_) => NeitherCounted
  }

  /** Why a login that was neither counted nor successful failed. */
  function PasswordFailure(found: Result<D.UserModel, D.StoreError>): Code {
    match found
    case Err(e) => if e == D.ErrNotFound then NotFound else Internal
    case Ok(usr) => if usr.hashedPassword.None? then FailedPrecondition else Internal
  }

  /** recordLogin writes the whole row back from the user that was read, with the instant of the login; it may fail
      without anybody noticing. */
  function LoginRecorded(db: D.Db, usr: D.UserModel, c: D.Call): D.Db {
    D.UpdateUser(db, usr.(lastLoginAt := Some(c.now)), c).0
  }

  /** What a login leaves behind on the counters and answers: refused, or ended with a verdict. user is whom it logs in
      when it succeeds, failure its answer when it fails without being counted. */
  ghost predicate LoggedIn(l: Limiter, keys: seq<string>, verdict: Verdict, user: string, failure: Code, env: Env,
                           was: Counters, counters: Counters, r: Result<string, Code>)
    requires Fits(env, keys) && keys != []
  {
    && counters == AfterLogin(was, l.prefix, keys, l.maxAttempts, WholeSeconds(l.window), verdict, env)
    && r == if Gate(was, l.prefix, keys, l.maxAttempts, env) == Some(false) then Err(ResourceExhausted)
            else match verdict
              case Wrong => Err(Unauthenticated)
              case Right => if env.signFails then Err(Internal) else Ok(user)
              case NeitherCounted => Err(failure)
  }

  // ---- email codes -------------------------------------------------------------------------------------

  datatype EmailCode = EmailCode(code: string, deadline: int)

  /** Ten minutes in nanoseconds. */
  const CODE_TTL: int := 600 * SECOND

  type Codes = map<string, EmailCode>

  /** The consume script: only the right, unexpired code is deleted, a wrong guess leaves it. */
  function ConsumeCode(codes: Codes, email: string, code: string, now: int): (Codes, bool) {
    if email in codes && now < codes[email].deadline && codes[email].code == code then (codes - {email}, true)
    else (codes, false)
  }

  /** A code that has logged somebody in is spent until a new one is sent. */
  lemma CodesAreSpent(codes: Codes, email: string, code: string, now: int, again: string, later: int)
    requires ConsumeCode(codes, email, code, now).1
    ensures !ConsumeCode(ConsumeCode(codes, email, code, now).0, email, again, later).1
  {
  }

  /** The consume call as the handler sees it; the script may run and its answer be lost. */
  function CodeAnswer(codes: Codes, email: string, code: string, consume: Write, now: int): Option<bool> {
    if consume.Applied? then Some(ConsumeCode(codes, email, code, now).1) else None
  }

  /** The user with the email, created if there is none. */
  ghost function FoundOrCreated(db: D.Db, email: string, env: Env): (D.Db, Option<D.UserModel>) {
    match D.GetByEmail(db, email, env.readCall)
    case Ok(usr) => (db, Some(usr))
    case Err(e) =>
      if e != D.ErrNotFound then (db, None)
      else
        var (next, created) := D.CreateUser(db, D.NewUser(email), env.createCall);
        (next, if created.Ok? then Some(created.value) else None)
  }

  function CodeVerdict(answer: Option<bool>, usr: Option<D.UserModel>): Verdict {
    if answer.None? then NeitherCounted
    else if !answer.value then Wrong
    else if usr.Some? then Right else NeitherCounted
  }

  /** The users after a code login: somebody whose code was right is found or created, and the login recorded. */
  ghost function UsersAfterCode(db: D.Db, email: string, answer: Option<bool>, env: Env): D.Db {
    if answer != Some(true) then db
    else
      var (next, usr) := FoundOrCreated(db, email, env);
      if usr.Some? then LoginRecorded(next, usr.value, env.recordCall) else next
  }

  class LoginService {
    const loginLimiter: Limiter
    const sendCodeLimiter: Limiter
    const stores: OAuthService.Stores
    /** strings.TrimSpace, and the trimmed lower-case form of an email. */
    const trim: string -> string
    const folded: string -> string
    var codes: Codes

    /** lower is strings.ToLower. */
    constructor (loginLimiter: Limiter, sendCodeLimiter: Limiter, stores: OAuthService.Stores, lower: string -> string)
      ensures this.loginLimiter == loginLimiter && this.sendCodeLimiter == sendCodeLimiter && this.stores == stores
      ensures codes == map[]
      ensures forall s :: trim(s) == GoText.TrimSpace(s)
      ensures forall s :: folded(s) == lower(GoText.TrimSpace(s))
    {
      this.loginLimiter, this.sendCodeLimiter, this.stores := loginLimiter, sendCodeLimiter, stores;
      trim := s => GoText.TrimSpace(s);
      folded := s => lower(GoText.TrimSpace(s));
      codes := map[];
    }

    method RecordLogin(usr: D.UserModel, c: D.Call)
      requires stores.Consistent()
      modifies stores`users
      ensures stores.Consistent() && stores.View() == LoginRecorded(old(stores.View()), usr, c)
    {
      var error := stores.Update(usr.(lastLoginAt := Some(c.now)), c);
    }

    predicate PassedGate(keys: seq<string>, env: Env, was: Counters)
      requires |env.checkFails| == |env.checkedAt| == |keys|
    {
      Gate(was, loginLimiter.prefix, keys, loginLimiter.maxAttempts, env) != Some(false)
    }

    // ---- password login --------------------------------------------------------------------------------

    method LoginWithPassword(rawEmail: string, password: seq<Base64.Byte>, client: string, argon2: PasswordHash.Argon2,
                             env: Env) returns (r: Result<string, Code>)
      requires stores.Consistent() && Fits(env, RateLimitKeys(folded, "login", trim(rawEmail), client))
      modifies loginLimiter.rdb, stores`users
      ensures stores.Consistent()
      ensures PasswordLogin(trim(rawEmail), RateLimitKeys(folded, "login", trim(rawEmail), client), password == [],
                            VerifierOf(argon2, password), env, old(loginLimiter.rdb.counters),
                            loginLimiter.rdb.counters, old(stores.View()), stores.View(), r)
    {
      var email := trim(rawEmail);
      var keys := RateLimitKeys(folded, "login", email, client);
      r := PasswordAttempt(email, keys, password == [], VerifierOf(argon2, password), env);
    }

    ghost predicate PasswordLogin(email: string, keys: seq<string>, blank: bool, verify: Verifier, env: Env,
                                  was: Counters, counters: Counters, before: D.Db, after: D.Db,
                                  r: Result<string, Code>)
      requires Fits(env, keys) && keys != []
    {
      if email == "" || blank then r == Err(InvalidArgument) && counters == was && after == before
      else
        var found := D.GetByEmail(before, email, env.readCall);
        var verdict := PasswordVerdict(found, verify);
        var user := if found.Ok? then found.value.id else "";
        && LoggedIn(loginLimiter, keys, verdict, user, PasswordFailure(found), env, was, counters, r)
        && after == (if PassedGate(keys, env, was) && verdict == Right
                     then LoginRecorded(before, found.value, env.recordCall) else before)
    }

    /** The attempt on its keys, of which the first is the email's; blank tells that there is no password. */
    method PasswordAttempt(email: string, keys: seq<string>, blank: bool, verify: Verifier, env: Env)
      returns (r: Result<string, Code>)
      requires stores.Consistent() && Fits(env, keys) && keys != []
      modifies loginLimiter.rdb, stores`users
      ensures stores.Consistent()
      ensures PasswordLogin(email, keys, blank, verify, env, old(loginLimiter.rdb.counters), loginLimiter.rdb.counters,
                            old(stores.View()), stores.View(), r)
    {
      if email == "" || blank { return Err(InvalidArgument); }
      var allowed := loginLimiter.RateLimitAllowed(keys, env.checkedAt, env.checkFails);
      if allowed == Some(false) { return Err(ResourceExhausted); }
      var found := stores.GetByEmail(email, env.readCall);
      if found == Err(D.ErrNotFound) { return Err(NotFound); }
      if found.Err? { return Err(Internal); }
      if found.value.hashedPassword.None? { return Err(FailedPrecondition); }
      var valid := verify(found.value.hashedPassword.value);
      if valid.Err? { return Err(Internal); }
      if !valid.value {
        var recorded := loginLimiter.RecordRateLimit(keys, env.recordedAt, env.writes);
        return Err(Unauthenticated);
      }
      r := Finish(found.value, keys, env);
    }

    /** What a login whose secret was right ends with: the email key is cleared, the login recorded and a pair signed
        for the user. */
    method Finish(usr: D.UserModel, keys: seq<string>, env: Env) returns (r: Result<string, Code>)
      requires stores.Consistent() && keys != []
      modifies loginLimiter.rdb, stores`users
      ensures stores.Consistent() && stores.View() == LoginRecorded(old(stores.View()), usr, env.recordCall)
      ensures loginLimiter.rdb.counters == if env.resetWrite.Lost? then old(loginLimiter.rdb.counters)
                                           else old(loginLimiter.rdb.counters) - {loginLimiter.prefix + keys[0]}
      ensures r == if env.signFails then Err(Internal) else Ok(usr.id)
    {
      var reset := loginLimiter.Reset(keys[0], env.resetWrite);
      RecordLogin(usr, env.recordCall);
      if env.signFails { return Err(Internal); }
      return Ok(usr.id);
    }

    // ---- login with an emailed code ---------------------------------------------------------------------

    /** Consume a code. The answer is lost when the write is not applied, with or without its effect. */
    method Consume(email: string, code: string, now: int, consume: Write) returns (r: Option<bool>)
      modifies this`codes
      ensures codes == if consume.Lost? then old(codes) else ConsumeCode(old(codes), email, code, now).0
      ensures r == CodeAnswer(old(codes), email, code, consume, now)
    {
      var right := email in codes && now < codes[email].deadline && codes[email].code == code;
      if right && !consume.Lost? { codes := codes - {email}; }
      return if consume.Applied? then Some(right) else None;
    }

    method FindOrCreate(email: string, env: Env) returns (usr: Option<D.UserModel>)
      requires stores.Consistent()
      modifies stores`users
      ensures stores.Consistent() && (stores.View(), usr) == FoundOrCreated(old(stores.View()), email, env)
    {
      var found := stores.GetByEmail(email, env.readCall);
      if found.Ok? { return Some(found.value); }
      if found != Err(D.ErrNotFound) { return None; }
      var created := stores.CreateUser(D.NewUser(email), env.createCall);
      return if created.Ok? then Some(created.value) else None;
    }

    method LoginWithEmailCode(rawEmail: string, rawCode: string, client: string, consume: Write, env: Env)
      returns (r: Result<string, Code>)
      requires stores.Consistent() && Fits(env, RateLimitKeys(folded, "login", trim(rawEmail), client))
      modifies this`codes, loginLimiter.rdb, stores`users
      ensures stores.Consistent()
      ensures CodeLogin(trim(rawEmail), RateLimitKeys(folded, "login", trim(rawEmail), client), trim(rawCode),
                        consume, env, old(loginLimiter.rdb.counters), loginLimiter.rdb.counters, old(codes), codes,
                        old(stores.View()), stores.View(), r)
    {
      var email := trim(rawEmail);
      var keys := RateLimitKeys(folded, "login", email, client);
      r := CodeAttempt(email, keys, trim(rawCode), consume, env);
    }

    /** The code is consumed when the limiter does not refuse, the call takes effect and the code is right. */
    ghost predicate CodeLogin(email: string, keys: seq<string>, code: string, consume: Write, env: Env,
                              was: Counters, counters: Counters, codesWere: Codes, codesAre: Codes,
                              before: D.Db, after: D.Db, r: Result<string, Code>)
      requires Fits(env, keys) && keys != []
    {
      if email == "" || code == "" then
        r == Err(InvalidArgument) && codesAre == codesWere && counters == was && after == before
      else
        var answer := CodeAnswer(codesWere, email, code, consume, env.codeAt);
        var usr := FoundOrCreated(before, email, env).1;
        var verdict, user := CodeVerdict(answer, usr), if usr.Some? then usr.value.id else "";
        && codesAre == (if PassedGate(keys, env, was) && !consume.Lost?
                        then ConsumeCode(codesWere, email, code, env.codeAt).0 else codesWere)
        && LoggedIn(loginLimiter, keys, verdict, user, Internal, env, was, counters, r)
        && after == (if PassedGate(keys, env, was) then UsersAfterCode(before, email, answer, env) else before)
    }

    method CodeAttempt(email: string, keys: seq<string>, code: string, consume: Write, env: Env)
      returns (r: Result<string, Code>)
      requires stores.Consistent() && Fits(env, keys) && keys != []
      modifies this`codes, loginLimiter.rdb, stores`users
      ensures stores.Consistent()
      ensures CodeLogin(email, keys, code, consume, env, old(loginLimiter.rdb.counters), loginLimiter.rdb.counters,
                        old(codes), codes, old(stores.View()), stores.View(), r)
    {
      if email == "" || code == "" { return Err(InvalidArgument); }
      var allowed := loginLimiter.RateLimitAllowed(keys, env.checkedAt, env.checkFails);
      if allowed == Some(false) { return Err(ResourceExhausted); }
      var ok := Consume(email, code, env.codeAt, consume);
      if ok.None? { return Err(Internal); }
      if !ok.value {
        var recorded := loginLimiter.RecordRateLimit(keys, env.recordedAt, env.writes);
        return Err(Unauthenticated);
      }
      var usr := FindOrCreate(email, env);
      if usr.None? { return Err(Internal); }
      r := Finish(usr.value, keys, env);
    }

    // ---- sending codes ------------------------------------------------------------------------------------

    /** Every request that passes the limiter is counted at once, unless the limiter itself failed. code is what the
        generator drew, if it did not fail. */
    method RequestEmailLoginCode(rawEmail: string, client: string, code: Option<string>, store: Write, sendFails: bool,
                                 env: Env) returns (r: Result<(), Code>)
      requires Fits(env, RateLimitKeys(folded, "send_code", trim(rawEmail), client))
      modifies this`codes, sendCodeLimiter.rdb
      ensures CodeSent(trim(rawEmail), RateLimitKeys(folded, "send_code", trim(rawEmail), client), code, store,
                       sendFails, env, old(sendCodeLimiter.rdb.counters), sendCodeLimiter.rdb.counters,
                       old(codes), codes, r)
    {
      var email := trim(rawEmail);
      var keys := RateLimitKeys(folded, "send_code", email, client);
      r := SendCode(email, keys, code, store, sendFails, env);
    }

    ghost predicate CodeSent(email: string, keys: seq<string>, code: Option<string>, store: Write, sendFails: bool,
                             env: Env, was: Counters, counters: Counters, before: Codes, after: Codes,
                             r: Result<(), Code>)
      requires Fits(env, keys) && keys != []
    {
      var l := sendCodeLimiter;
      var gate := Gate(was, l.prefix, keys, l.maxAttempts, env);
      if email == "" then r == Err(InvalidArgument) && after == before && counters == was
      else
        && counters == AfterLogin(was, l.prefix, keys, l.maxAttempts, WholeSeconds(l.window),
                                  if gate.None? then NeitherCounted else Wrong, env)
        && after == (if gate != Some(false) && code.Some? && !store.Lost?
                     then before[email := EmailCode(code.value, env.codeAt + CODE_TTL)] else before)
        && r == if gate == Some(false) then Err(ResourceExhausted)
                else if code.Some? && store.Applied? && !sendFails then Ok(()) else Err(Internal)
    }

    method SendCode(email: string, keys: seq<string>, code: Option<string>, store: Write, sendFails: bool, env: Env)
      returns (r: Result<(), Code>)
      requires Fits(env, keys) && keys != []
      modifies this`codes, sendCodeLimiter.rdb
      ensures CodeSent(email, keys, code, store, sendFails, env, old(sendCodeLimiter.rdb.counters),
                       sendCodeLimiter.rdb.counters, old(codes), codes, r)
    {
      if email == "" { return Err(InvalidArgument); }
      var allowed := sendCodeLimiter.RateLimitAllowed(keys, env.checkedAt, env.checkFails);
      if allowed == Some(false) { return Err(ResourceExhausted); }
      if allowed.Some? {
        var recorded := sendCodeLimiter.RecordRateLimit(keys, env.recordedAt, env.writes);
      }
      if code.None? { return Err(Internal); }
      if !store.Lost? { codes := codes[email := EmailCode(code.value, env.codeAt + CODE_TTL)]; }
      if !store.Applied? { return Err(Internal); }
      if sendFails { return Err(Internal); }
      return Ok(());
    }
  }

  // ---- a handler on its own is a run of the shared limiter ---------------------------------------------

  function FullKeys(prefix: string, keys: seq<string>): seq<string> {
    seq(|keys|, i requires 0 <= i < |keys| => prefix + keys[i])
  }

  /** The clock goes on to each instant in turn. */
  predicate Onward(now: int, times: seq<int>)
    decreases |times|
  {
    times != [] ==> now <= times[0] && Onward(times[0], times[1..])
  }

  function LastOf(now: int, times: seq<int>): int
    decreases |times|
  {
    if times == [] then now else LastOf(times[0], times[1..])
  }

  /** One event for each key at its instant, and the one that ends the check. */
  function CheckEvents(h: nat, now: int, times: seq<int>, fails: seq<bool>): seq<Limits.Event>
    requires |times| == |fails| && Onward(now, times)
    decreases |times|
  {
    if fails == [] then [Limits.Check(h)]
    else [Limits.Wait(times[0] - now)] + ([if fails[0] then Limits.CheckFails(h) else Limits.Check(h)]
           + CheckEvents(h, times[0], times[1..], fails[1..]))
  }

  function RecordEvents(h: nat, now: int, times: seq<int>, writes: seq<Write>): seq<Limits.Event>
    requires |times| == |writes| && Onward(now, times)
    decreases |times|
  {
    if writes == [] then [Limits.Record(h, Applied)]
    else [Limits.Wait(times[0] - now)] + ([Limits.Record(h, writes[0])]
           + RecordEvents(h, times[0], times[1..], writes[1..]))
  }

  /** The instants of the whole request are in order. */
  ghost predicate InOrder(now: int, env: Env) {
    Onward(now, env.checkedAt) && Onward(LastOf(now, env.checkedAt), env.recordedAt)
  }

  /** What follows the check. */
  function EndEvents(h: nat, prefix: string, keys: seq<string>, passed: bool, verdict: Verdict, now: int, env: Env)
    : seq<Limits.Event>
    requires keys != [] && |env.recordedAt| == |env.writes| && Onward(now, env.recordedAt)
  {
    match verdict
    case Wrong => [Limits.StartRecording(h)] + RecordEvents(h, now, env.recordedAt, env.writes)
    case Right =>
      [Limits.Leave(h)] + (if passed && !env.resetWrite.Lost? then [Limits.Reset(prefix + keys[0])] else [])
    case NeitherCounted => [Limits.Leave(h)]
  }

  /** What a login attempt does, event by event. */
  function LoginEvents(h: nat, prefix: string, keys: seq<string>, passed: bool, verdict: Verdict, now: int, env: Env)
    : seq<Limits.Event>
    requires Fits(env, keys) && keys != [] && InOrder(now, env)
  {
    [Limits.Arrive(h, FullKeys(prefix, keys))]
    + (CheckEvents(h, now, env.checkedAt, env.checkFails)
       + EndEvents(h, prefix, keys, passed, verdict, LastOf(now, env.checkedAt), env))
  }

  /** The machine has these counters and one handler in a given phase. */
  ghost predicate At(s: Limits.System, now: int, counters: Counters, h: nat, keys: seq<string>, phase: Limits.Phase) {
    s.now == now && s.counters == counters && h in s.handlers && s.handlers[h] == Limits.Handler(keys, phase)
  }

  lemma TwoEvents(cfg: Limits.Config, s: Limits.System, a: Limits.Event, b: Limits.Event, rest: seq<Limits.Event>)
    ensures Limits.Run(cfg, s, [a] + ([b] + rest))
        == Limits.Run(cfg, Limits.Apply(cfg, Limits.Apply(cfg, s, a), b), rest)
  {
    assert ([a] + ([b] + rest))[1..] == [b] + rest && ([b] + rest)[1..] == rest;
  }

  lemma OneEvent(cfg: Limits.Config, s: Limits.System, e: Limits.Event)
    ensures Limits.Run(cfg, s, [e]) == Limits.Apply(cfg, s, e)
  {
    var next := Limits.Apply(cfg, s, e);
    assert [e][1..] == [] && Limits.Run(cfg, next, []) == next;
  }

  lemma FirstCheck(cfg: Limits.Config, s: Limits.System, h: nat, times: seq<int>, fails: seq<bool>)
    returns (next: Limits.System)
    requires times != [] && |times| == |fails| && Onward(s.now, times)
    ensures next == Limits.Apply(cfg, s.(now := times[0]), if fails[0] then Limits.CheckFails(h) else Limits.Check(h))
    ensures Limits.Run(cfg, s, CheckEvents(h, s.now, times, fails))
         == Limits.Run(cfg, next, CheckEvents(h, times[0], times[1..], fails[1..]))
  {
    var e := if fails[0] then Limits.CheckFails(h) else Limits.Check(h);
    next := Limits.Apply(cfg, s.(now := times[0]), e);
    TwoEvents(cfg, s, Limits.Wait(times[0] - s.now), e, CheckEvents(h, times[0], times[1..], fails[1..]));
  }

  lemma FirstRecord(cfg: Limits.Config, s: Limits.System, h: nat, times: seq<int>, writes: seq<Write>)
    returns (next: Limits.System)
    requires times != [] && |times| == |writes| && Onward(s.now, times)
    ensures next == Limits.Apply(cfg, s.(now := times[0]), Limits.Record(h, writes[0]))
    ensures Limits.Run(cfg, s, RecordEvents(h, s.now, times, writes))
         == Limits.Run(cfg, next, RecordEvents(h, times[0], times[1..], writes[1..]))
  {
    next := Limits.Apply(cfg, s.(now := times[0]), Limits.Record(h, writes[0]));
    TwoEvents(cfg, s, Limits.Wait(times[0] - s.now), Limits.Record(h, writes[0]),
              RecordEvents(h, times[0], times[1..], writes[1..]));
  }

  lemma {:induction false} LateChecksAreIgnored(cfg: Limits.Config, s: Limits.System, h: nat, times: seq<int>,
                                                fails: seq<bool>)
    requires |times| == |fails| && Onward(s.now, times) && h in s.handlers && !s.handlers[h].phase.Checking?
    ensures Limits.Run(cfg, s, CheckEvents(h, s.now, times, fails)) == s.(now := LastOf(s.now, times))
    decreases |fails|
  {
    if fails == [] {
      OneEvent(cfg, s, Limits.Check(h));
    } else {
      var next := FirstCheck(cfg, s, h, times, fails);
      LateChecksAreIgnored(cfg, next, h, times[1..], fails[1..]);
    }
  }

  lemma {:induction false} LateRecordsAreIgnored(cfg: Limits.Config, s: Limits.System, h: nat, times: seq<int>,
                                                 writes: seq<Write>)
    requires |times| == |writes| && Onward(s.now, times) && h in s.handlers && !s.handlers[h].phase.Recording?
    ensures Limits.Run(cfg, s, RecordEvents(h, s.now, times, writes)) == s.(now := LastOf(s.now, times))
    decreases |writes|
  {
    if writes == [] {
      OneEvent(cfg, s, Limits.Record(h, Applied));
    } else {
      var next := FirstRecord(cfg, s, h, times, writes);
      LateRecordsAreIgnored(cfg, next, h, times[1..], writes[1..]);
    }
  }

  /** The keys that are left are the last ones of the handler's. */
  ghost predicate AreLeft(keys: seq<string>, prefix: string, full: seq<string>) {
    |keys| <= |full| && forall j :: 0 <= j < |keys| ==> full[|full| - |keys| + j] == prefix + keys[j]
  }

  lemma OneLess(keys: seq<string>, prefix: string, full: seq<string>)
    requires keys != [] && AreLeft(keys, prefix, full)
    ensures AreLeft(keys[1..], prefix, full) && full[|full| - |keys|] == prefix + keys[0]
  {
    assert full[|full| - |keys| + 0] == prefix + keys[0];
    forall j | 0 <= j < |keys| - 1 ensures full[|full| - |keys[1..]| + j] == prefix + keys[1..][j] {
      assert full[|full| - |keys| + (j + 1)] == prefix + keys[j + 1];
    }
  }

  lemma CheckStep(cfg: Limits.Config, s: Limits.System, h: nat, full: seq<string>, i: nat, fails: bool)
    requires i < |full| && At(s, s.now, s.counters, h, full, Limits.Checking(i))
    ensures At(Limits.Apply(cfg, s, if fails then Limits.CheckFails(h) else Limits.Check(h)),
               s.now, s.counters, h, full,
               if fails then Limits.Passed
               else if LiveCount(s.counters, full[i], s.now) >= cfg.maxAttempts then Limits.Finished
               else Limits.Checking(i + 1))
  {
  }

  lemma RecordStep(cfg: Limits.Config, s: Limits.System, h: nat, full: seq<string>, i: nat, write: Write)
    requires i < |full| && At(s, s.now, s.counters, h, full, Limits.Recording(i))
    ensures At(Limits.Apply(cfg, s, Limits.Record(h, write)), s.now,
               if write.Lost? then s.counters else AfterRecord(s.counters, full[i], cfg.seconds, s.now), h, full,
               if write.Applied? then Limits.Recording(i + 1) else Limits.Finished)
  {
  }

  /** The checks of the keys that are left. */
  lemma {:induction false} ChecksRun(cfg: Limits.Config, s: Limits.System, h: nat, prefix: string, full: seq<string>,
                                     keys: seq<string>, times: seq<int>, fails: seq<bool>)
    requires AreLeft(keys, prefix, full) && |times| == |fails| == |keys| && Onward(s.now, times)
    requires At(s, s.now, s.counters, h, full, Limits.Checking(|full| - |keys|))
    ensures var passed := CheckAll(s.counters, keys, prefix, cfg.maxAttempts, fails, times) != Some(false);
            At(Limits.Run(cfg, s, CheckEvents(h, s.now, times, fails)), LastOf(s.now, times), s.counters, h, full,
               if passed then Limits.Passed else Limits.Finished)
    decreases |keys|
  {
    if keys == [] {
      OneEvent(cfg, s, Limits.Check(h));
    } else {
      var next := FirstCheck(cfg, s, h, times, fails);
      OneLess(keys, prefix, full);
      CheckStep(cfg, s.(now := times[0]), h, full, |full| - |keys|, fails[0]);
      if next.handlers[h].phase.Checking? {
        ChecksRun(cfg, next, h, prefix, full, keys[1..], times[1..], fails[1..]);
      } else {
        LateChecksAreIgnored(cfg, next, h, times[1..], fails[1..]);
      }
    }
  }

  lemma {:induction false} RecordsRun(cfg: Limits.Config, s: Limits.System, h: nat, prefix: string, full: seq<string>,
                                      keys: seq<string>, times: seq<int>, writes: seq<Write>)
    requires AreLeft(keys, prefix, full) && |times| == |writes| == |keys| && Onward(s.now, times)
    requires At(s, s.now, s.counters, h, full, Limits.Recording(|full| - |keys|))
    ensures At(Limits.Run(cfg, s, RecordEvents(h, s.now, times, writes)), LastOf(s.now, times),
               RecordAll(s.counters, keys, prefix, writes, cfg.seconds, times).0, h, full, Limits.Finished)
    decreases |keys|
  {
    if keys == [] {
      OneEvent(cfg, s, Limits.Record(h, Applied));
    } else {
      var next := FirstRecord(cfg, s, h, times, writes);
      OneLess(keys, prefix, full);
      RecordStep(cfg, s.(now := times[0]), h, full, |full| - |keys|, writes[0]);
      if writes[0].Applied? {
        RecordsRun(cfg, next, h, prefix, full, keys[1..], times[1..], writes[1..]);
      } else {
        LateRecordsAreIgnored(cfg, next, h, times[1..], writes[1..]);
      }
    }
  }

  /** The request is over, with the counters the handler leaves behind. */
  ghost predicate Ended(s: Limits.System, counters: Counters, h: nat, keys: seq<string>) {
    s.counters == counters && h in s.handlers && s.handlers[h] == Limits.Handler(keys, Limits.Finished)
  }

  lemma EndRuns(cfg: Limits.Config, s: Limits.System, h: nat, prefix: string, keys: seq<string>, passed: bool,
                verdict: Verdict, env: Env)
    requires Fits(env, keys) && keys != [] && Onward(s.now, env.recordedAt)
    requires passed <==> Gate(s.counters, prefix, keys, cfg.maxAttempts, env) != Some(false)
    requires At(s, s.now, s.counters, h, FullKeys(prefix, keys), if passed then Limits.Passed else Limits.Finished)
    ensures Ended(Limits.Run(cfg, s, EndEvents(h, prefix, keys, passed, verdict, s.now, env)),
                  AfterLogin(s.counters, prefix, keys, cfg.maxAttempts, cfg.seconds, verdict, env),
                  h, FullKeys(prefix, keys))
  {
    match verdict
    case Wrong =>
      var records := RecordEvents(h, s.now, env.recordedAt, env.writes);
      var next := Limits.Apply(cfg, s, Limits.StartRecording(h));
      assert ([Limits.StartRecording(h)] + records)[1..] == records;
      if passed {
        RecordsRun(cfg, next, h, prefix, FullKeys(prefix, keys), keys, env.recordedAt, env.writes);
      } else {
        LateRecordsAreIgnored(cfg, next, h, env.recordedAt, env.writes);
      }
    case Right =>
      if passed && !env.resetWrite.Lost? {
        TwoEvents(cfg, s, Limits.Leave(h), Limits.Reset(prefix + keys[0]), []);
        assert [Limits.Leave(h)] + ([Limits.Reset(prefix + keys[0])] + [])
          == [Limits.Leave(h)] + [Limits.Reset(prefix + keys[0])];
      } else {
        OneEvent(cfg, s, Limits.Leave(h));
        assert [Limits.Leave(h)] + [] == [Limits.Leave(h)];
      }
    case NeitherCounted => OneEvent(cfg, s, Limits.Leave(h));
  }

  /** A login or send-code request that nobody interrupts is one run of the limiter shared by all, whatever time
      passes between its calls: it leaves the same counters and is over. So the bounds on all interleavings hold
      of the handlers. */
  lemma HandlerIsARun(cfg: Limits.Config, s: Limits.System, h: nat, prefix: string, keys: seq<string>,
                      verdict: Verdict, env: Env)
    requires h !in s.handlers && Fits(env, keys) && keys != [] && InOrder(s.now, env)
    ensures var passed := Gate(s.counters, prefix, keys, cfg.maxAttempts, env) != Some(false);
            Ended(Limits.Run(cfg, s, LoginEvents(h, prefix, keys, passed, verdict, s.now, env)),
                  AfterLogin(s.counters, prefix, keys, cfg.maxAttempts, cfg.seconds, verdict, env),
                  h, FullKeys(prefix, keys))
  {
    var passed := Gate(s.counters, prefix, keys, cfg.maxAttempts, env) != Some(false);
    var arrive, checks := Limits.Arrive(h, FullKeys(prefix, keys)),
      CheckEvents(h, s.now, env.checkedAt, env.checkFails);
    var end := EndEvents(h, prefix, keys, passed, verdict, LastOf(s.now, env.checkedAt), env);
    var arrived := Limits.Apply(cfg, s, arrive);
    ChecksRun(cfg, arrived, h, prefix, FullKeys(prefix, keys), keys, env.checkedAt, env.checkFails);
    assert ([arrive] + (checks + end))[1..] == checks + end;
    Limits.RunSplits(cfg, arrived, checks, end);
    EndRuns(cfg, Limits.Run(cfg, arrived, checks), h, prefix, keys, passed, verdict, env);
  }
}
