/** Who is logged in by a password or an emailed code, who is not and why, and what each attempt leaves behind. */
module LoginAnswers {
  import opened Prelude
  import opened RateLimiter
  import opened LoginHandlers
  import Base64
  import D = Directory
  import GoText
  import F = OAuthFailures
  import PasswordHash

  // ---- the limiter ----------------------------------------------------------------------------------------

  /** Some key is full, and no check of a key before it failed. */
  ghost predicate Refused(l: Limiter, keys: seq<string>, env: Env, was: Counters)
    requires Fits(env, keys)
  {
    exists i: nat :: RefusedAt(was, keys, l.prefix, l.maxAttempts, env.checkFails, env.checkedAt, i)
  }

  lemma GateRefuses(l: Limiter, keys: seq<string>, env: Env, was: Counters)
    requires Fits(env, keys)
    ensures Gate(was, l.prefix, keys, l.maxAttempts, env) == Some(false) <==> Refused(l, keys, env, was)
  {
    RefusedExactly(was, keys, l.prefix, l.maxAttempts, env.checkFails, env.checkedAt);
  }

  /** The attempt is counted under its keys. */
  function Counted(l: Limiter, keys: seq<string>, env: Env, was: Counters): Counters
    requires |env.recordedAt| == |env.writes| == |keys|
  {
    RecordAll(was, keys, l.prefix, env.writes, WholeSeconds(l.window), env.recordedAt).0
  }

  /** The counter of the email is cleared, unless that write is lost. */
  function Cleared(l: Limiter, keys: seq<string>, env: Env, was: Counters): Counters
    requires keys != []
  {
    if env.resetWrite.Lost? then was else was - {l.prefix + keys[0]}
  }

  /** The row of a user after a recorded login. */
  function WithLogin(db: D.Db, user: string, c: D.Call): D.Db
    requires user in db.users
  {
    if c.fault then db else db.(users := db.users[user := db.users[user].(lastLoginAt := Some(c.now))])
  }

  lemma RecordsLogin(db: D.Db, user: string, c: D.Call)
    requires D.EmailsDistinct(db) && D.IsLive(db, user)
    ensures LoginRecorded(db, D.ToModel(user, db.users[user]), c) == WithLogin(db, user, c)
  {
  }

  // ---- password login -------------------------------------------------------------------------------------

  /** The live user with this email, and the hash stored for it. */
  predicate HasHash(db: D.Db, email: string, user: string, hash: string) {
    D.IsLive(db, user) && db.users[user].email == email && db.users[user].hashedPassword == Some(hash)
  }

  /** The password is the one stored for the user with this email; verify compares it with a stored hash. */
  predicate IsPasswordOf(db: D.Db, email: string, user: string, verify: Verifier) {
    && D.IsLive(db, user) && db.users[user].email == email && db.users[user].hashedPassword.Some?
    && verify(db.users[user].hashedPassword.value) == Ok(true)
  }

  predicate IsNotPasswordOf(db: D.Db, email: string, user: string, verify: Verifier) {
    && D.IsLive(db, user) && db.users[user].email == email && db.users[user].hashedPassword.Some?
    && verify(db.users[user].hashedPassword.value) == Ok(false)
  }

  /** The attempt is complete and not refused by the limiter. */
  ghost predicate Tries(l: Limiter, keys: seq<string>, env: Env, was: Counters, email: string, blank: bool)
    requires Fits(env, keys)
  {
    email != "" && !blank && !Refused(l, keys, env, was)
  }

  lemma NobodyElse(db: D.Db, email: string, c: D.Call, user: string)
    requires D.EmailsDistinct(db) && D.IsLive(db, user) && db.users[user].email == email && !c.fault
    ensures D.GetByEmail(db, email, c) == Ok(D.ToModel(user, db.users[user]))
    ensures forall other :: D.IsLive(db, other) && db.users[other].email == email ==> other == user
  {
  }

  /** How an attempt with no user to compare with ends. */
  lemma WithoutUser(svc: LoginService, email: string, keys: seq<string>, blank: bool, verify: Verifier, env: Env,
                    was: Counters, counters: Counters, before: D.Db, after: D.Db, r: Result<string, Code>)
    requires Fits(env, keys) && keys != []
    requires svc.PasswordLogin(email, keys, blank, verify, env, was, counters, before, after, r)
    requires Tries(svc.loginLimiter, keys, env, was, email, blank) && !env.readCall.fault
             ==> forall u :: D.IsLive(before, u) ==> before.users[u].email != email
    ensures after == before && counters == was
    ensures r == Err(if email == "" || blank then InvalidArgument
                     else if Refused(svc.loginLimiter, keys, env, was) then ResourceExhausted
                     else if env.readCall.fault then Internal else NotFound)
  {
    GateRefuses(svc.loginLimiter, keys, env, was);
  }

  /** How an attempt ends whose email has a user. */
  lemma WithUserFound(svc: LoginService, email: string, keys: seq<string>, blank: bool, verify: Verifier, env: Env,
                      was: Counters, counters: Counters, before: D.Db, after: D.Db, r: Result<string, Code>,
                      user: string)
    requires Fits(env, keys) && keys != [] && D.EmailsDistinct(before)
    requires svc.PasswordLogin(email, keys, blank, verify, env, was, counters, before, after, r)
    requires Tries(svc.loginLimiter, keys, env, was, email, blank) && !env.readCall.fault
    requires D.IsLive(before, user) && before.users[user].email == email
    ensures var l, hash := svc.loginLimiter, before.users[user].hashedPassword;
            if hash.None? then after == before && counters == was && r == Err(FailedPrecondition)
            else
              match verify(hash.value)
              case Err(_) => after == before && counters == was && r == Err(Internal)
              case Ok(valid) =>
                if valid then
                  && after == WithLogin(before, user, env.recordCall) && counters == Cleared(l, keys, env, was)
                  && r == if env.signFails then Err(Internal) else Ok(user)
                else after == before && counters == Counted(l, keys, env, was) && r == Err(Unauthenticated)
  {
    GateRefuses(svc.loginLimiter, keys, env, was);
    NobodyElse(before, email, env.readCall, user);
    RecordsLogin(before, user, env.recordCall);
  }

  /** A password logs in exactly the live user with the email whose stored hash it verifies against, when the limiter
      does not refuse, the user can be read and a pair can be signed. The attempt is counted under every key exactly
      when the password does not verify, and the email's counter is cleared and the login recorded exactly when it
      does; nothing else changes. */
  lemma PasswordLoginExactly(svc: LoginService, email: string, keys: seq<string>, blank: bool, verify: Verifier,
                             env: Env, was: Counters, counters: Counters, before: D.Db, after: D.Db,
                             r: Result<string, Code>)
    requires Fits(env, keys) && keys != [] && D.EmailsDistinct(before)
    requires svc.PasswordLogin(email, keys, blank, verify, env, was, counters, before, after, r)
    ensures var l := svc.loginLimiter;
            var goes := Tries(l, keys, env, was, email, blank) && !env.readCall.fault;
            && (forall user :: r == Ok(user)
                  <==> goes && IsPasswordOf(before, email, user, verify) && !env.signFails)
            && (forall user :: goes && IsPasswordOf(before, email, user, verify) ==>
                  after == WithLogin(before, user, env.recordCall) && counters == Cleared(l, keys, env, was))
            && (forall user :: goes && IsNotPasswordOf(before, email, user, verify) ==>
                  after == before && counters == Counted(l, keys, env, was))
            && ((forall user :: goes ==> !IsPasswordOf(before, email, user, verify)) ==>
                  && after == before
                  && ((forall user :: goes ==> !IsNotPasswordOf(before, email, user, verify)) ==>
                        counters == was))
  {
    if user :| D.IsLive(before, user) && before.users[user].email == email {
      if Tries(svc.loginLimiter, keys, env, was, email, blank) && !env.readCall.fault {
        NobodyElse(before, email, env.readCall, user);
        WithUserFound(svc, email, keys, blank, verify, env, was, counters, before, after, r, user);
        var right, wrong := IsPasswordOf(before, email, user, verify), IsNotPasswordOf(before, email, user, verify);
      } else {
        WithoutUser(svc, email, keys, blank, verify, env, was, counters, before, after, r);
      }
    } else {
      WithoutUser(svc, email, keys, blank, verify, env, was, counters, before, after, r);
    }
  }

  /** Why a password login of a complete attempt that is not refused fails, when its user can be read: nobody has the
      email, its user has no password, or the password is wrong; the rest is the service's own fault. */
  lemma PasswordLoginFailsFor(svc: LoginService, email: string, keys: seq<string>, blank: bool, verify: Verifier,
                              env: Env, was: Counters, counters: Counters, before: D.Db, after: D.Db,
                              r: Result<string, Code>)
    requires Fits(env, keys) && keys != [] && D.EmailsDistinct(before)
    requires svc.PasswordLogin(email, keys, blank, verify, env, was, counters, before, after, r)
    ensures email == "" || blank ==> r == Err(InvalidArgument)
    ensures email != "" && !blank && Refused(svc.loginLimiter, keys, env, was) ==> r == Err(ResourceExhausted)
    ensures Tries(svc.loginLimiter, keys, env, was, email, blank) ==>
              if env.readCall.fault then r == Err(Internal)
              else if user :| D.IsLive(before, user) && before.users[user].email == email then
                if before.users[user].hashedPassword.None? then r == Err(FailedPrecondition)
                else if IsNotPasswordOf(before, email, user, verify) then r == Err(Unauthenticated)
                else r.Ok? || r == Err(Internal)
              else r == Err(NotFound)
  {
    if user :| D.IsLive(before, user) && before.users[user].email == email {
      if Tries(svc.loginLimiter, keys, env, was, email, blank) && !env.readCall.fault {
        NobodyElse(before, email, env.readCall, user);
        WithUserFound(svc, email, keys, blank, verify, env, was, counters, before, after, r, user);
      } else {
        WithoutUser(svc, email, keys, blank, verify, env, was, counters, before, after, r);
      }
    } else {
      WithoutUser(svc, email, keys, blank, verify, env, was, counters, before, after, r);
    }
  }

  /** A user whose stored hash was printed for a password is logged in by exactly the passwords that derive the same
      key, its own first of all. */
  lemma OwnPasswordLogsIn(svc: LoginService, email: string, keys: seq<string>, attempt: seq<Base64.Byte>,
                          argon2: PasswordHash.Argon2, env: Env, was: Counters, counters: Counters,
                          before: D.Db, after: D.Db, r: Result<string, Code>, user: string,
                          c: PasswordHash.Config, password: seq<Base64.Byte>, salt: seq<Base64.Byte>)
    requires Fits(env, keys) && keys != [] && D.EmailsDistinct(before)
    requires svc.PasswordLogin(email, keys, attempt == [], VerifierOf(argon2, attempt), env, was, counters,
                               before, after, r)
    requires PasswordHash.InRange(c)
    requires |argon2(password, salt, c, PasswordHash.KEY_LENGTH)| == PasswordHash.KEY_LENGTH
    requires HasHash(before, email, user, PasswordHash.HashPassword(argon2, c, password, salt))
    requires Tries(svc.loginLimiter, keys, env, was, email, attempt == []) && !env.readCall.fault && !env.signFails
    ensures var same := argon2(attempt, salt, c, PasswordHash.KEY_LENGTH)
                     == argon2(password, salt, c, PasswordHash.KEY_LENGTH);
            r == if same then Ok(user) else Err(Unauthenticated)
    ensures attempt == password ==> r == Ok(user)
  {
    PasswordHash.VerifiesExactlyItsKey(argon2, c, password, salt, attempt);
    WithUserFound(svc, email, keys, attempt == [], VerifierOf(argon2, attempt), env, was, counters, before, after, r,
                  user);
  }

  /** A wrong password counts one under each key of the request when the writes go through, and a cleared email key
      leaves every other counter alone. */
  lemma AttemptsAreCounted(l: Limiter, folded: string -> string, email: string, client: string, env: Env,
                           was: Counters, i: nat, other: string, later: int)
    requires var keys := RateLimitKeys(folded, "login", email, client); Fits(env, keys) && i < |keys|
    requires l.window >= SECOND && forall w :: w in env.writes ==> w.Applied?
    ensures var keys := RateLimitKeys(folded, "login", email, client);
            && LiveCount(Counted(l, keys, env, was), l.prefix + keys[i], env.recordedAt[i])
                 == LiveCount(was, l.prefix + keys[i], env.recordedAt[i]) + 1
            && (!env.resetWrite.Lost? ==> LiveCount(Cleared(l, keys, env, was), l.prefix + keys[0], later) == 0)
            && (other != l.prefix + keys[0] ==>
                  LiveCount(Cleared(l, keys, env, was), other, later) == LiveCount(was, other, later))
  {
    var keys := RateLimitKeys(folded, "login", email, client);
    ClientKeysAreNeverEmailKeys(folded, "login", email, client);
    RecordsEveryKey(was, keys, l.prefix, env.writes, WholeSeconds(l.window), env.recordedAt, i);
  }

  // ---- login with an emailed code ---------------------------------------------------------------------------

  /** The code stored for the email is this one, and in time. */
  predicate IsCodeOf(codes: Codes, email: string, code: string, now: int) {
    email in codes && codes[email].code == code && now < codes[email].deadline
  }

  /** The email has a user to log in: the live one, or one that can be created. */
  ghost predicate LogsIn(db: D.Db, email: string, env: Env, user: string) {
    && !env.readCall.fault
    && if exists u :: D.IsLive(db, u) && db.users[u].email == email then
         D.IsLive(db, user) && db.users[user].email == email
       else F.CanInsert(db, email, env.createCall) && user == env.createCall.uuid
  }

  /** The tables once there is a user for the email. */
  function WithUser(db: D.Db, email: string, user: string): D.Db {
    if user in db.users then db else db.(users := db.users[user := D.User(email, None, None, None, None)])
  }

  lemma FindsOrCreates(db: D.Db, email: string, env: Env)
    requires D.EmailsDistinct(db)
    ensures var (next, usr) := FoundOrCreated(db, email, env);
            && D.EmailsDistinct(next)
            && (forall user :: LogsIn(db, email, env, user) <==> usr.Some? && usr.value.id == user)
            && (usr.Some? ==> next == WithUser(db, email, usr.value.id) && D.IsLive(next, usr.value.id)
                              && usr.value == D.ToModel(usr.value.id, next.users[usr.value.id]))
            && (usr.None? ==> next == db)
  {
    if !env.readCall.fault {
      if user :| D.IsLive(db, user) && db.users[user].email == email {
        NobodyElse(db, email, env.readCall, user);
      } else {
        F.NewRow(db, email, env.createCall);
        var (next, created) := D.CreateUser(db, D.NewUser(email), env.createCall);
        if created.Err? { CreateFails(db, email, env.createCall); }
        else { NewEmailStaysDistinct(db, next, email, env.createCall.uuid); }
      }
    }
  }

  lemma CreateFails(db: D.Db, email: string, c: D.Call)
    requires D.CreateUser(db, D.NewUser(email), c).1.Err?
    ensures D.CreateUser(db, D.NewUser(email), c).0 == db
  {
    F.DrawnID(db, email, c);
  }

  lemma NewEmailStaysDistinct(db: D.Db, next: D.Db, email: string, user: string)
    requires D.EmailsDistinct(db) && !D.EmailTaken(db, email) && F.HasNewRow(db, next, email, user)
    ensures D.EmailsDistinct(next)
  {
    assert forall j :: j in db.users ==> db.users[j].email != email;
  }

  /** How an attempt ends whose code was not accepted. */
  lemma WithoutCode(svc: LoginService, email: string, keys: seq<string>, code: string, consume: Write, env: Env,
                    was: Counters, counters: Counters, codesWere: Codes, codesAre: Codes,
                    before: D.Db, after: D.Db, r: Result<string, Code>)
    requires Fits(env, keys) && keys != []
    requires svc.CodeLogin(email, keys, code, consume, env, was, counters, codesWere, codesAre, before, after, r)
    requires !(Tries(svc.loginLimiter, keys, env, was, email, code == "") && consume.Applied?
               && IsCodeOf(codesWere, email, code, env.codeAt))
    ensures var l, tries := svc.loginLimiter, Tries(svc.loginLimiter, keys, env, was, email, code == "");
            && after == before
            && codesAre == (if tries && IsCodeOf(codesWere, email, code, env.codeAt) && !consume.Lost? then
                              codesWere - {email} else codesWere)
            && counters == (if tries && consume.Applied? then Counted(l, keys, env, was) else was)
            && r == Err(if email == "" || code == "" then InvalidArgument
                        else if Refused(l, keys, env, was) then ResourceExhausted
                        else if consume.Applied? then Unauthenticated else Internal)
  {
    GateRefuses(svc.loginLimiter, keys, env, was);
  }

  /** How an attempt ends whose code was accepted. */
  lemma WithCode(svc: LoginService, email: string, keys: seq<string>, code: string, consume: Write, env: Env,
                 was: Counters, counters: Counters, codesWere: Codes, codesAre: Codes,
                 before: D.Db, after: D.Db, r: Result<string, Code>)
    requires Fits(env, keys) && keys != [] && D.EmailsDistinct(before)
    requires svc.CodeLogin(email, keys, code, consume, env, was, counters, codesWere, codesAre, before, after, r)
    requires Tries(svc.loginLimiter, keys, env, was, email, code == "") && consume.Applied?
    requires IsCodeOf(codesWere, email, code, env.codeAt)
    ensures codesAre == codesWere - {email}
    ensures var usr := FoundOrCreated(before, email, env).1;
            if usr.Some? then
              && counters == Cleared(svc.loginLimiter, keys, env, was)
              && after == WithLogin(WithUser(before, email, usr.value.id), usr.value.id, env.recordCall)
              && r == if env.signFails then Err(Internal) else Ok(usr.value.id)
            else after == before && counters == was && r == Err(Internal)
  {
    GateRefuses(svc.loginLimiter, keys, env, was);
    FindsOrCreates(before, email, env);
    var (next, usr) := FoundOrCreated(before, email, env);
    if usr.Some? { RecordsLogin(next, usr.value.id, env.recordCall); }
  }

  /** A code logs in exactly the user of its email, or a new one, when it is the stored code and in time, its
      consumption is acknowledged, the limiter does not refuse and a pair can be signed. It is consumed exactly when it
      is right and the call takes effect; the attempt is counted exactly when the store answers that it is wrong. */
  lemma CodeLoginExactly(svc: LoginService, email: string, keys: seq<string>, code: string, consume: Write, env: Env,
                         was: Counters, counters: Counters, codesWere: Codes, codesAre: Codes,
                         before: D.Db, after: D.Db, r: Result<string, Code>)
    requires Fits(env, keys) && keys != [] && D.EmailsDistinct(before)
    requires svc.CodeLogin(email, keys, code, consume, env, was, counters, codesWere, codesAre, before, after, r)
    ensures var l, tries := svc.loginLimiter, Tries(svc.loginLimiter, keys, env, was, email, code == "");
            var right := IsCodeOf(codesWere, email, code, env.codeAt);
            var goes := tries && consume.Applied? && right;
            && (forall user :: r == Ok(user) <==> goes && LogsIn(before, email, env, user) && !env.signFails)
            && codesAre == (if tries && right && !consume.Lost? then codesWere - {email} else codesWere)
            && (forall user :: goes && LogsIn(before, email, env, user) ==>
                  && counters == Cleared(l, keys, env, was)
                  && after == WithLogin(WithUser(before, email, user), user, env.recordCall))
            && ((forall user :: goes ==> !LogsIn(before, email, env, user)) ==>
                  && after == before
                  && counters == if tries && consume.Applied? && !right then Counted(l, keys, env, was) else was)
  {
    FindsOrCreates(before, email, env);
    if Tries(svc.loginLimiter, keys, env, was, email, code == "") && consume.Applied?
       && IsCodeOf(codesWere, email, code, env.codeAt) {
      WithCode(svc, email, keys, code, consume, env, was, counters, codesWere, codesAre, before, after, r);
      var usr := FoundOrCreated(before, email, env).1;
      var logsIn := usr.Some? && LogsIn(before, email, env, usr.value.id);
    } else {
      WithoutCode(svc, email, keys, code, consume, env, was, counters, codesWere, codesAre, before, after, r);
    }
  }

  /** Why a code login fails. */
  lemma CodeLoginFailsFor(svc: LoginService, email: string, keys: seq<string>, code: string, consume: Write, env: Env,
                          was: Counters, counters: Counters, codesWere: Codes, codesAre: Codes,
                          before: D.Db, after: D.Db, r: Result<string, Code>)
    requires Fits(env, keys) && keys != [] && D.EmailsDistinct(before)
    requires svc.CodeLogin(email, keys, code, consume, env, was, counters, codesWere, codesAre, before, after, r)
    requires r.Err?
    ensures r.error == if email == "" || code == "" then InvalidArgument
                       else if Refused(svc.loginLimiter, keys, env, was) then ResourceExhausted
                       else if consume.Applied? && !IsCodeOf(codesWere, email, code, env.codeAt) then Unauthenticated
                       else Internal
  {
    if Tries(svc.loginLimiter, keys, env, was, email, code == "") && consume.Applied?
       && IsCodeOf(codesWere, email, code, env.codeAt) {
      WithCode(svc, email, keys, code, consume, env, was, counters, codesWere, codesAre, before, after, r);
    } else {
      WithoutCode(svc, email, keys, code, consume, env, was, counters, codesWere, codesAre, before, after, r);
    }
  }

  // ---- sending codes ----------------------------------------------------------------------------------------

  /** Every check is answered, and every key below its limit. */
  ghost predicate AllBelow(l: Limiter, keys: seq<string>, env: Env, was: Counters)
    requires Fits(env, keys)
  {
    forall i :: 0 <= i < |keys| ==>
      !env.checkFails[i] && LiveCount(was, l.prefix + keys[i], env.checkedAt[i]) < l.maxAttempts
  }

  lemma GatePasses(l: Limiter, keys: seq<string>, env: Env, was: Counters)
    requires Fits(env, keys)
    ensures Gate(was, l.prefix, keys, l.maxAttempts, env) == Some(true) <==> AllBelow(l, keys, env, was)
  {
    PassingMeansAllBelow(was, keys, l.prefix, l.maxAttempts, env.checkFails, env.checkedAt);
  }

  /** A code is stored for ten minutes and mailed exactly when the email is not blank, the limiter does not refuse and
      generator, store and mailer work. The request is counted exactly when the limiter lets it through without a
      failing check. */
  lemma CodeIsSentExactly(svc: LoginService, email: string, keys: seq<string>, code: Option<string>, store: Write,
                          sendFails: bool, env: Env, was: Counters, counters: Counters, before: Codes, after: Codes,
                          r: Result<(), Code>)
    requires Fits(env, keys) && keys != []
    requires svc.CodeSent(email, keys, code, store, sendFails, env, was, counters, before, after, r)
    ensures r.Ok? <==> && email != "" && !Refused(svc.sendCodeLimiter, keys, env, was)
                       && code.Some? && store.Applied? && !sendFails
    ensures r.Err? ==> r.error == if email == "" then InvalidArgument
                                  else if Refused(svc.sendCodeLimiter, keys, env, was) then ResourceExhausted
                                  else Internal
    ensures after == if email != "" && !Refused(svc.sendCodeLimiter, keys, env, was) && code.Some? && !store.Lost? then
                       before[email := EmailCode(code.value, env.codeAt + CODE_TTL)]
                     else before
    ensures counters == if email != "" && AllBelow(svc.sendCodeLimiter, keys, env, was) then
                          Counted(svc.sendCodeLimiter, keys, env, was)
                        else was
  {
    GateRefuses(svc.sendCodeLimiter, keys, env, was);
    GatePasses(svc.sendCodeLimiter, keys, env, was);
    var l := svc.sendCodeLimiter;
    var gate := Gate(was, l.prefix, keys, l.maxAttempts, env);
    assert gate.Some? ==> gate == (if gate.value then Some(true) else Some(false));
  }

  // ---- the codes of a history ---------------------------------------------------------------------------------

  /** A call that stores a code, or tries to consume one. */
  datatype CodeCall =
    | Sent(email: string, code: string, at: int, write: Write)
    | Tried(email: string, code: string, at: int, write: Write)

  function AfterCall(codes: Codes, c: CodeCall): Codes {
    if c.write.Lost? then codes
    else
      match c
      case Sent(email, code, at, _) => codes[email := EmailCode(code, at + CODE_TTL)]
      case Tried(email, code, at, _) => ConsumeCode(codes, email, code, at).0
  }

  function AfterCalls(history: seq<CodeCall>): Codes {
    if history == [] then map[] else AfterCall(AfterCalls(history[..|history| - 1]), history[|history| - 1])
  }

  /** Call i is the last one that stored a code for the email. */
  predicate LastSent(history: seq<CodeCall>, email: string, i: nat) {
    && i < |history| && StoresFor(history[i], email)
    && forall j :: i < j < |history| ==> !StoresFor(history[j], email)
  }

  predicate StoresFor(c: CodeCall, email: string) {
    c.Sent? && c.email == email && !c.write.Lost?
  }

  /** A later call presented the code of call i in time, and took effect. */
  predicate UsedUp(history: seq<CodeCall>, i: nat)
    requires i < |history|
  {
    exists j | i < j < |history| :: Uses(history[j], history[i])
  }

  predicate Uses(c: CodeCall, sent: CodeCall) {
    c.Tried? && !c.write.Lost? && c.email == sent.email && c.code == sent.code && c.at < sent.at + CODE_TTL
  }

  /** The code the history leaves for an email. */
  ghost predicate Holds(history: seq<CodeCall>, email: string, i: nat) {
    LastSent(history, email, i) && !UsedUp(history, i)
  }

  lemma {:induction false} CodesOfHistory(history: seq<CodeCall>, email: string)
    ensures forall i: nat :: Holds(history, email, i) ==>
              email in AfterCalls(history)
              && AfterCalls(history)[email] == EmailCode(history[i].code, history[i].at + CODE_TTL)
    ensures email in AfterCalls(history) ==> exists i: nat :: Holds(history, email, i)
  {
    if history != [] {
      var n := |history| - 1;
      var init, last := history[..n], history[n];
      CodesOfHistory(init, email);
      forall i: nat | Holds(history, email, i)
        ensures email in AfterCalls(history)
        ensures AfterCalls(history)[email] == EmailCode(history[i].code, history[i].at + CODE_TTL)
      {
        if i < n { HoldsBefore(history, email, i); }
      }
      if email in AfterCalls(history) {
        if StoresFor(last, email) {
          assert Holds(history, email, n);
        } else {
          assert email in AfterCalls(init);
          var i: nat :| Holds(init, email, i);
          HoldsAfter(history, email, i);
        }
      }
    }
  }

  lemma HoldsBefore(history: seq<CodeCall>, email: string, i: nat)
    requires i < |history| - 1 && Holds(history, email, i)
    ensures Holds(history[..|history| - 1], email, i)
    ensures !StoresFor(history[|history| - 1], email) && !Uses(history[|history| - 1], history[i])
  {
    var init := history[..|history| - 1];
    assert forall j :: 0 <= j < |init| ==> init[j] == history[j];
  }

  lemma HoldsAfter(history: seq<CodeCall>, email: string, i: nat)
    requires history != [] && Holds(history[..|history| - 1], email, i)
    requires !StoresFor(history[|history| - 1], email) && !Uses(history[|history| - 1], history[i])
    ensures Holds(history, email, i)
  {
    var n := |history| - 1;
    var init := history[..n];
    assert forall j :: 0 <= j < |init| ==> init[j] == history[j];
  }

  /** Over every history of sent and tried codes, with any writes lost or unacknowledged: a code is right exactly when
      it is the last one stored for the email, its ten minutes are not over, and it was not presented before. */
  lemma RightCodeExactly(history: seq<CodeCall>, email: string, code: string, now: int)
    ensures ConsumeCode(AfterCalls(history), email, code, now).1
       <==> exists i: nat :: LastSent(history, email, i) && history[i].code == code && now < history[i].at + CODE_TTL
                             && !UsedUp(history, i)
  {
    CodesOfHistory(history, email);
    if i: nat :| LastSent(history, email, i) && history[i].code == code && now < history[i].at + CODE_TTL
                 && !UsedUp(history, i) {
      assert Holds(history, email, i);
    }
    if ConsumeCode(AfterCalls(history), email, code, now).1 {
      var i: nat :| Holds(history, email, i);
      assert LastSent(history, email, i);
    }
  }
}
