/** How an OAuth login or link that runs alone ends: its answer and the tables after it, read off the tables before
    it, its request and its store calls. */
module OAuthAnswers {
  import opened Prelude
  import opened Directory
  import opened OAuthLinking
  import opened OAuthFailures
  import GoText

  /** The request is over with this answer, and has left these tables. */
  ghost predicate Ends(db: Db, req: Request, calls: seq<Call>, after: Db, outcome: Result<UserModel, Code>) {
    var (next, run) := Alone(db, Start(req), calls);
    next == after && run.pc == Done(outcome)
  }

  predicate NamedLogin(req: Request) {
    req.purpose.Login? && req.provider != "" && req.providerUserId != ""
  }

  // ---- one call after the other --------------------------------------------------------------------------

  lemma Then(db: Db, run: Running, calls: seq<Call>, i: nat, next: Db, later: Running)
    requires i < |calls| && !run.pc.Done? && Advance(db, run, calls[i]) == (next, later)
    ensures Alone(db, run, calls[i..]) == Alone(next, later, calls[i + 1..])
  {
    assert calls[i..][0] == calls[i] && calls[i..][1..] == calls[i + 1..];
  }

  /** The call after which the request is over. */
  lemma Last(db: Db, run: Running, calls: seq<Call>, i: nat, next: Db, later: Running)
    requires i < |calls| && !run.pc.Done? && Advance(db, run, calls[i]) == (next, later) && later.pc.Done?
    ensures Alone(db, run, calls[i..]) == (next, later)
  {
    Then(db, run, calls, i, next, later);
  }

  lemma AllCalls(db: Db, req: Request, calls: seq<Call>)
    ensures Alone(db, Start(req), calls[0..]) == Alone(db, Start(req), calls)
  {
    assert calls[0..] == calls;
  }

  // ---- what each store call finds -------------------------------------------------------------------------

  lemma BoundIsBinds(db: Db, provider: string, providerUserId: string, user: string)
    requires Binds(db, provider, providerUserId, user)
    ensures Bound(db, provider, providerUserId)
  {
    var i :| i in db.identities && db.identities[i] == Identity(user, provider, providerUserId);
    assert SameKey(db.identities[i], Identity("", provider, providerUserId));
  }

  lemma LooksUp(db: Db, req: Request, c: Call, user: string)
    requires Valid(db) && Binds(db, req.provider, req.providerUserId, user)
    ensures Advance(db, Fresh(req, Lookup), c)
         == (db, Fresh(req, if c.fault then Done(Err(Internal)) else FetchLinked(user)))
  {
    if !c.fault { LookupIsExact(db, req.provider, req.providerUserId, c, user); }
  }

  lemma LooksUpInVain(db: Db, req: Request, c: Call)
    requires !Bound(db, req.provider, req.providerUserId)
    ensures Advance(db, Fresh(req, Lookup), c)
         == (db, Fresh(req, if c.fault then Done(Err(Internal))
                            else if GoText.IsBlank(req.email) then Done(Err(FailedPrecondition))
                            else FindByEmail))
  {
  }

  lemma Fetches(db: Db, req: Request, c: Call, user: string)
    ensures var later := Advance(db, Fresh(req, FetchLinked(user)), c).1;
            && Advance(db, Fresh(req, FetchLinked(user)), c).0 == db
            && later == Fresh(req, later.pc)
            && later.pc == if c.fault || !IsLive(db, user) then Done(Err(Internal))
                           else
                             var usr := ToModel(user, db.users[user]);
                             if KeepsEmail(db, req, user) then Done(Ok(usr))
                             else UpdateEmail(usr.(email := req.email))
  {
  }

  /** The provider's email is the stored one, or none. */
  predicate KeepsEmail(db: Db, req: Request, user: string) {
    user in db.users && (req.email == "" || req.email == db.users[user].email)
  }

  ghost predicate OthersEmail(db: Db, user: string, email: string) {
    exists other :: other in db.users && other != user && db.users[other].email == email
  }

  function WithEmail(db: Db, user: string, email: string): Db
    requires user in db.users
  {
    db.(users := db.users[user := db.users[user].(email := email)])
  }

  lemma Updates(db: Db, req: Request, c: Call, user: string)
    requires IsLive(db, user)
    ensures var usr := ToModel(user, db.users[user]).(email := req.email);
            var (next, later) := Advance(db, Fresh(req, UpdateEmail(usr)), c);
            if c.fault || OthersEmail(db, user, req.email) then next == db && later == Fresh(req, Done(Err(Internal)))
            else next == WithEmail(db, user, req.email) && later == Fresh(req, Done(Ok(usr)))
  {
  }

  // ---- an identity that is bound ----------------------------------------------------------------------------

  /** Whether the login of an identity bound to this user succeeds. */
  ghost predicate Returns(db: Db, req: Request, calls: seq<Call>, user: string)
    requires |calls| > 4
  {
    && !calls[0].fault && !calls[1].fault && IsLive(db, user)
    && (KeepsEmail(db, req, user) || (!calls[2].fault && !OthersEmail(db, user, req.email)))
  }

  /** A returning login: the owner of the identity is answered, with the provider's email, exactly when the row is
      live, no other row has that email and no call it needs fails. The one change to the tables is that email. Any
      other end is an error that changes nothing. */
  lemma ReturningLoginExactly(db: Db, req: Request, calls: seq<Call>, user: string)
    requires Valid(db) && NamedLogin(req) && |calls| > 4 && Binds(db, req.provider, req.providerUserId, user)
    ensures user in db.users
    ensures var usr := ToModel(user, db.users[user]);
            if !Returns(db, req, calls, user) then Ends(db, req, calls, db, Err(Internal))
            else if KeepsEmail(db, req, user) then Ends(db, req, calls, db, Ok(usr))
            else Ends(db, req, calls, WithEmail(db, user, req.email), Ok(usr.(email := req.email)))
  {
    AllCalls(db, req, calls);
    LooksUp(db, req, calls[0], user);
    if calls[0].fault {
      Last(db, Fresh(req, Lookup), calls, 0, db, Fresh(req, Done(Err(Internal))));
    } else {
      Then(db, Fresh(req, Lookup), calls, 0, db, Fresh(req, FetchLinked(user)));
      FetchedLogin(db, req, calls, user);
    }
  }

  lemma FetchedLogin(db: Db, req: Request, calls: seq<Call>, user: string)
    requires |calls| > 4 && !calls[0].fault && user in db.users
    ensures var (next, run) := Alone(db, Fresh(req, FetchLinked(user)), calls[1..]);
            var usr := ToModel(user, db.users[user]);
            if !Returns(db, req, calls, user) then next == db && run.pc == Done(Err(Internal))
            else if KeepsEmail(db, req, user) then next == db && run.pc == Done(Ok(usr))
            else next == WithEmail(db, user, req.email) && run.pc == Done(Ok(usr.(email := req.email)))
  {
    var later := Advance(db, Fresh(req, FetchLinked(user)), calls[1]).1;
    Fetches(db, req, calls[1], user);
    Then(db, Fresh(req, FetchLinked(user)), calls, 1, db, later);
    if later.pc.UpdateEmail? {
      Updates(db, req, calls[2], user);
      var (next, end) := Advance(db, later, calls[2]);
      Last(db, later, calls, 2, next, end);
    }
  }

  // ---- an identity that is new ------------------------------------------------------------------------------

  function WithIdentity(db: Db, id: string, user: string, req: Request): Db {
    db.(identities := db.identities[id := Identity(user, req.provider, req.providerUserId)])
  }

  /** An insert of an identity goes through. */
  predicate CanBind(db: Db, c: Call) {
    !c.fault && c.uuid !in db.identities
  }

  lemma FindsByEmail(db: Db, req: Request, c: Call, user: string)
    requires EmailsDistinct(db) && IsLive(db, user) && db.users[user].email == req.email
    ensures Advance(db, Fresh(req, FindByEmail), c)
         == (db, Fresh(req, if c.fault then Done(Err(Internal)) else BindMerged(ToModel(user, db.users[user]))))
  {
  }

  lemma FindsNobody(db: Db, req: Request, c: Call)
    requires forall u :: IsLive(db, u) ==> db.users[u].email != req.email
    ensures Advance(db, Fresh(req, FindByEmail), c)
         == (db, Fresh(req, if c.fault then Done(Err(Internal)) else InsertUser))
  {
  }

  lemma BindsIt(db: Db, req: Request, c: Call, usr: UserModel)
    requires usr.id in db.users && !Bound(db, req.provider, req.providerUserId)
    ensures var merged, link := Fresh(req, BindMerged(usr)), Fresh(req, BindLink(usr));
            if CanBind(db, c) then
              && Advance(db, merged, c) == (WithIdentity(db, c.uuid, usr.id, req), Fresh(req, Done(Ok(usr))))
              && Advance(db, link, c) == (WithIdentity(db, c.uuid, usr.id, req), Fresh(req, Done(Ok(usr))))
            else
              && Advance(db, merged, c) == (db, Fresh(req, if c.fault then Done(Err(Internal)) else RefetchMerged(usr)))
              && Advance(db, link, c) == (db, Fresh(req, if c.fault then Done(Err(Internal)) else RefetchLink(usr)))
  {
  }

  lemma RefetchesInVain(db: Db, req: Request, c: Call, usr: UserModel)
    requires !Bound(db, req.provider, req.providerUserId)
    ensures Advance(db, Fresh(req, RefetchMerged(usr)), c) == (db, Fresh(req, Done(Err(Internal))))
    ensures Advance(db, Fresh(req, RefetchLink(usr)), c) == (db, Fresh(req, Done(Err(Internal))))
  {
  }

  /** The bind of a merge or of a link, as call 2. */
  lemma BindEnds(db: Db, req: Request, calls: seq<Call>, usr: UserModel, run: Running)
    requires |calls| > 4 && usr.id in db.users && !Bound(db, req.provider, req.providerUserId)
    requires run == Fresh(req, BindMerged(usr)) || run == Fresh(req, BindLink(usr))
    ensures Alone(db, run, calls[2..])
         == if CanBind(db, calls[2]) then (WithIdentity(db, calls[2].uuid, usr.id, req), Fresh(req, Done(Ok(usr))))
            else (db, Fresh(req, Done(Err(Internal))))
  {
    BindsIt(db, req, calls[2], usr);
    var (next, later) := Advance(db, run, calls[2]);
    Then(db, run, calls, 2, next, later);
    if !later.pc.Done? {
      RefetchesInVain(db, req, calls[3], usr);
      Last(db, later, calls, 3, db, Fresh(req, Done(Err(Internal))));
    }
  }

  /** A login that has looked its identity up in vain. */
  lemma UnknownIdentity(db: Db, req: Request, calls: seq<Call>)
    requires NamedLogin(req) && |calls| > 4 && !Bound(db, req.provider, req.providerUserId)
    ensures if calls[0].fault then Ends(db, req, calls, db, Err(Internal))
            else if GoText.IsBlank(req.email) then Ends(db, req, calls, db, Err(FailedPrecondition))
            else Alone(db, Start(req), calls) == Alone(db, Fresh(req, FindByEmail), calls[1..])
  {
    AllCalls(db, req, calls);
    LooksUpInVain(db, req, calls[0]);
    var later := Advance(db, Fresh(req, Lookup), calls[0]).1;
    Then(db, Fresh(req, Lookup), calls, 0, db, later);
  }

  /** A new identity with the email of a live user is bound to that user, unless a call fails; then nothing is
      changed. */
  lemma MergingLoginExactly(db: Db, req: Request, calls: seq<Call>, user: string)
    requires Valid(db) && NamedLogin(req) && |calls| > 4 && !Bound(db, req.provider, req.providerUserId)
    requires !GoText.IsBlank(req.email) && IsLive(db, user) && db.users[user].email == req.email
    ensures if !calls[0].fault && !calls[1].fault && CanBind(db, calls[2]) then
              Ends(db, req, calls, WithIdentity(db, calls[2].uuid, user, req), Ok(ToModel(user, db.users[user])))
            else Ends(db, req, calls, db, Err(Internal))
  {
    UnknownIdentity(db, req, calls);
    if !calls[0].fault {
      FindsByEmail(db, req, calls[1], user);
      var later := Advance(db, Fresh(req, FindByEmail), calls[1]).1;
      Then(db, Fresh(req, FindByEmail), calls, 1, db, later);
      if !calls[1].fault { BindEnds(db, req, calls, ToModel(user, db.users[user]), later); }
    }
  }

  /** The tables with a new row, live or deleted. */
  function WithUser(db: Db, id: string, email: string, deletedAt: Option<int>): Db {
    db.(users := db.users[id := User(email, None, None, None, deletedAt)])
  }

  lemma InsertsUser(db: Db, req: Request, c: Call)
    ensures var (next, later) := Advance(db, Fresh(req, InsertUser), c);
            if CanInsert(db, req.email, c) then
              && next == WithUser(db, c.uuid, req.email, None)
              && later == Running(req, BindNew(NewUser(req.email).(id := c.uuid)), Some(c.uuid), false)
            else next == db && later == Fresh(req, Done(Err(if c.fault then Internal else AlreadyExists)))
  {
    DrawnID(db, req.email, c);
    Inserts(db, req, c, CreateUser(db, NewUser(req.email), c).0, CreateUser(db, NewUser(req.email), c).1);
  }

  lemma Inserts(db: Db, req: Request, c: Call, next: Db, created: Result<UserModel, StoreError>)
    requires CreateUser(db, NewUser(req.email), c) == (next, created)
    ensures Advance(db, Fresh(req, InsertUser), c)
         == (next, Running(req, AfterInsertUser(created), if created.Ok? then Some(created.value.id) else None, false))
  {
  }

  lemma BindsNew(db: Db, req: Request, c: Call, id: string)
    requires id in db.users && !Bound(db, req.provider, req.providerUserId)
    ensures var usr := NewUser(req.email).(id := id);
            var run := Running(req, BindNew(usr), Some(id), false);
            var (next, later) := Advance(db, run, c);
            if CanBind(db, c) then next == WithIdentity(db, c.uuid, id, req) && later == run.(pc := Done(Ok(usr)))
            else next == db && later == run.(pc := CleanUp(usr, !c.fault))
  {
  }

  lemma CleansUp(db: Db, req: Request, c: Call, id: string, conflict: bool)
    requires id !in db.users
    ensures var usr := NewUser(req.email).(id := id);
            var run := Running(req, CleanUp(usr, conflict), Some(id), false);
            var (next, later) := Advance(WithUser(db, id, req.email, None), run, c);
            && next == WithUser(db, id, req.email, if c.fault then None else Some(c.now))
            && later.pc == Done(Err(if conflict then AlreadyExists else Internal))
  {
    var was := WithUser(db, id, req.email, None);
    assert was.users[id := was.users[id].(deletedAt := Some(c.now))]
        == db.users[id := User(req.email, None, None, None, Some(c.now))];
  }

  /** The bind of a new row, as call 3, and the clean-up, as call 4. */
  lemma NewRowEnds(db: Db, req: Request, calls: seq<Call>, id: string)
    requires |calls| > 4 && id !in db.users && !Bound(db, req.provider, req.providerUserId)
    ensures var with, usr := WithUser(db, id, req.email, None), NewUser(req.email).(id := id);
            var (next, run) := Alone(with, Running(req, BindNew(usr), Some(id), false), calls[3..]);
            if CanBind(db, calls[3]) then
              next == WithIdentity(with, calls[3].uuid, id, req) && run.pc == Done(Ok(usr))
            else
              && next == WithUser(db, id, req.email, if calls[4].fault then None else Some(calls[4].now))
              && run.pc == Done(Err(if calls[3].fault then Internal else AlreadyExists))
  {
    var with, usr := WithUser(db, id, req.email, None), NewUser(req.email).(id := id);
    var run := Running(req, BindNew(usr), Some(id), false);
    assert !Bound(with, req.provider, req.providerUserId);
    BindsNew(with, req, calls[3], id);
    var (next, later) := Advance(with, run, calls[3]);
    Then(with, run, calls, 3, next, later);
    if !CanBind(db, calls[3]) {
      CleansUp(db, req, calls[4], id, !calls[3].fault);
      var (last, end) := Advance(with, later, calls[4]);
      Last(with, later, calls, 4, last, end);
    }
  }

  /** The answer and the tables of a signup whose lookups went through. */
  ghost predicate SignsUp(db: Db, req: Request, calls: seq<Call>)
    requires |calls| > 4
  {
    var id := calls[2].uuid;
    var usr := NewUser(req.email).(id := id);
    var with := WithUser(db, id, req.email, None);
    if calls[2].fault then Ends(db, req, calls, db, Err(Internal))
    else if EmailTaken(db, req.email) || id in db.users then Ends(db, req, calls, db, Err(AlreadyExists))
    else if CanBind(db, calls[3]) then Ends(db, req, calls, WithIdentity(with, calls[3].uuid, id, req), Ok(usr))
    else
      Ends(db, req, calls, WithUser(db, id, req.email, if calls[4].fault then None else Some(calls[4].now)),
           Err(if calls[3].fault then Internal else AlreadyExists))
  }

  /** A new identity whose email no live user has: a row for the email and the binding to it are there together
      exactly when no call fails, the email is not reserved by a deleted row and the drawn IDs are new. A failing
      bind leaves the row behind, deleted unless that fails too. */
  lemma SignupExactly(db: Db, req: Request, calls: seq<Call>)
    requires NamedLogin(req) && |calls| > 4 && !Bound(db, req.provider, req.providerUserId)
    requires !GoText.IsBlank(req.email) && forall u :: IsLive(db, u) ==> db.users[u].email != req.email
    ensures if calls[0].fault || calls[1].fault then Ends(db, req, calls, db, Err(Internal))
            else SignsUp(db, req, calls)
  {
    UnknownIdentity(db, req, calls);
    if !calls[0].fault {
      FindsNobody(db, req, calls[1]);
      var later := Advance(db, Fresh(req, FindByEmail), calls[1]).1;
      Then(db, Fresh(req, FindByEmail), calls, 1, db, later);
      if !calls[1].fault {
        InsertsUser(db, req, calls[2]);
        var (next, run) := Advance(db, Fresh(req, InsertUser), calls[2]);
        Then(db, Fresh(req, InsertUser), calls, 2, next, run);
        if !run.pc.Done? { NewRowEnds(db, req, calls, calls[2].uuid); }
      }
    }
  }

  /** A login without an identity to look up, or with a new one and no email, is refused. */
  lemma UnnamedLoginIsRefused(db: Db, req: Request, calls: seq<Call>)
    requires req.purpose.Login? && |calls| > 4
    ensures !NamedLogin(req) ==> Ends(db, req, calls, db, Err(Internal))
    ensures NamedLogin(req) && !Bound(db, req.provider, req.providerUserId) && !calls[0].fault
              && GoText.IsBlank(req.email)
        ==> Ends(db, req, calls, db, Err(FailedPrecondition))
  {
    if NamedLogin(req) && !Bound(db, req.provider, req.providerUserId) { UnknownIdentity(db, req, calls); }
  }

  // ---- coming back ------------------------------------------------------------------------------------------

  /** What a login that succeeded leaves: the identity is bound to the user it answered with, whose row is live and
      as answered. */
  lemma SuccessIsStored(db: Db, req: Request, calls: seq<Call>, after: Db, usr: UserModel)
    requires Valid(db) && NamedLogin(req) && |calls| > 4 && Ends(db, req, calls, after, Ok(usr))
    ensures Valid(after) && Binds(after, req.provider, req.providerUserId, usr.id)
    ensures IsLive(after, usr.id) && ToModel(usr.id, after.users[usr.id]) == usr && KeepsEmail(after, req, usr.id)
  {
    AloneStaysValid(db, req, calls);
    if Bound(db, req.provider, req.providerUserId) {
      var i :| i in db.identities && SameKey(db.identities[i], Identity("", req.provider, req.providerUserId));
      var user := db.identities[i].userId;
      assert db.identities[i] == Identity(user, req.provider, req.providerUserId);
      ReturningLoginExactly(db, req, calls, user);
      assert after.identities == db.identities;
    } else {
      NewIdentityIsStored(db, req, calls, after, usr);
    }
  }

  lemma NewIdentityIsStored(db: Db, req: Request, calls: seq<Call>, after: Db, usr: UserModel)
    requires Valid(db) && NamedLogin(req) && |calls| > 4 && Ends(db, req, calls, after, Ok(usr))
    requires !Bound(db, req.provider, req.providerUserId)
    ensures Binds(after, req.provider, req.providerUserId, usr.id)
    ensures IsLive(after, usr.id) && ToModel(usr.id, after.users[usr.id]) == usr && KeepsEmail(after, req, usr.id)
  {
    UnknownIdentity(db, req, calls);
    var bind;
    if user :| IsLive(db, user) && db.users[user].email == req.email {
      MergingLoginExactly(db, req, calls, user);
      bind := calls[2].uuid;
    } else {
      SignupExactly(db, req, calls);
      bind := calls[3].uuid;
    }
    assert bind in after.identities && after.identities[bind] == Identity(usr.id, req.provider, req.providerUserId);
  }

  /** Logging in again, with calls that do not fail, gives the same user and writes nothing. */
  lemma LoginIsIdempotent(db: Db, req: Request, calls: seq<Call>, after: Db, usr: UserModel, again: seq<Call>)
    requires Valid(db) && NamedLogin(req) && |calls| > 4 && Ends(db, req, calls, after, Ok(usr))
    requires |again| > 4 && !again[0].fault && !again[1].fault
    ensures Ends(after, req, again, after, Ok(usr))
  {
    SuccessIsStored(db, req, calls, after, usr);
    ReturningLoginExactly(after, req, again, usr.id);
  }

  // ---- links ------------------------------------------------------------------------------------------------

  lemma FetchesBindingUser(db: Db, req: Request, c: Call, user: string)
    ensures Advance(db, Fresh(req, FetchBindingUser(user)), c)
         == (db, Fresh(req, if c.fault then Done(Err(Internal))
                            else if !IsLive(db, user) then Done(Err(NotFound))
                            else if req.providerUserId == "" then Done(Err(Internal))
                            else LookupLink(ToModel(user, db.users[user]))))
  {
  }

  lemma LooksUpLink(db: Db, req: Request, c: Call, usr: UserModel)
    requires !Bound(db, req.provider, req.providerUserId)
    ensures Advance(db, Fresh(req, LookupLink(usr)), c)
         == (db, Fresh(req, if c.fault then Done(Err(Internal)) else BindLink(usr)))
  {
  }

  lemma FindsLink(db: Db, req: Request, c: Call, usr: UserModel, owner: string)
    requires Valid(db) && Binds(db, req.provider, req.providerUserId, owner)
    ensures Advance(db, Fresh(req, LookupLink(usr)), c)
         == (db, Fresh(req, Done(if c.fault then Err(Internal)
                                 else if owner == usr.id then Ok(usr) else Err(AlreadyExists))))
  {
    if !c.fault { LookupIsExact(db, req.provider, req.providerUserId, c, owner); }
  }

  /** A link that found its user goes on to look the identity up. */
  lemma UserOfLink(db: Db, req: Request, calls: seq<Call>, user: string)
    requires req.purpose == Link(user) && |calls| > 4
    ensures if calls[0].fault then Ends(db, req, calls, db, Err(Internal))
            else if !IsLive(db, user) then Ends(db, req, calls, db, Err(NotFound))
            else if req.providerUserId == "" then Ends(db, req, calls, db, Err(Internal))
            else
              var looking := Fresh(req, LookupLink(ToModel(user, db.users[user])));
              Alone(db, Start(req), calls) == Alone(db, looking, calls[1..])
  {
    AllCalls(db, req, calls);
    FetchesBindingUser(db, req, calls[0], user);
    var later := Advance(db, Fresh(req, FetchBindingUser(user)), calls[0]).1;
    Then(db, Fresh(req, FetchBindingUser(user)), calls, 0, db, later);
  }

  /** Linking a new identity to a live user binds it, unless a call fails; then nothing is changed. */
  lemma NewLinkExactly(db: Db, req: Request, calls: seq<Call>, user: string)
    requires req.purpose == Link(user) && |calls| > 4 && !Bound(db, req.provider, req.providerUserId)
    requires IsLive(db, user) && req.providerUserId != ""
    ensures if !calls[0].fault && !calls[1].fault && CanBind(db, calls[2]) then
              Ends(db, req, calls, WithIdentity(db, calls[2].uuid, user, req), Ok(ToModel(user, db.users[user])))
            else Ends(db, req, calls, db, Err(Internal))
  {
    UserOfLink(db, req, calls, user);
    if !calls[0].fault {
      var usr := ToModel(user, db.users[user]);
      LooksUpLink(db, req, calls[1], usr);
      var later := Advance(db, Fresh(req, LookupLink(usr)), calls[1]).1;
      Then(db, Fresh(req, LookupLink(usr)), calls, 1, db, later);
      if !calls[1].fault { BindEnds(db, req, calls, usr, later); }
    }
  }

  /** Linking an identity that is bound succeeds for its owner only, and writes nothing. */
  lemma OldLinkExactly(db: Db, req: Request, calls: seq<Call>, user: string, owner: string)
    requires Valid(db) && req.purpose == Link(user) && |calls| > 4
    requires Binds(db, req.provider, req.providerUserId, owner) && IsLive(db, user) && req.providerUserId != ""
    ensures if calls[0].fault || calls[1].fault then Ends(db, req, calls, db, Err(Internal))
            else if owner != user then Ends(db, req, calls, db, Err(AlreadyExists))
            else Ends(db, req, calls, db, Ok(ToModel(user, db.users[user])))
  {
    UserOfLink(db, req, calls, user);
    if !calls[0].fault {
      var usr := ToModel(user, db.users[user]);
      FindsLink(db, req, calls[1], usr, owner);
      var later := Advance(db, Fresh(req, LookupLink(usr)), calls[1]).1;
      Last(db, Fresh(req, LookupLink(usr)), calls, 1, db, later);
    }
  }

  /** A link for a missing or deleted user, or without an identity, is refused. */
  lemma LinkWithoutUserIsRefused(db: Db, req: Request, calls: seq<Call>, user: string)
    requires req.purpose == Link(user) && |calls| > 4 && !calls[0].fault
    ensures !IsLive(db, user) ==> Ends(db, req, calls, db, Err(NotFound))
    ensures IsLive(db, user) && req.providerUserId == "" ==> Ends(db, req, calls, db, Err(Internal))
  {
    UserOfLink(db, req, calls, user);
  }
}
