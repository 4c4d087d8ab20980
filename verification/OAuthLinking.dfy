/** OAuth login and account linking as a protocol of separate store calls. Any number of requests run
    interleaved, one store call a step; other handlers may write user rows in between. */
module OAuthLinking {
  import opened Prelude
  import opened Directory
  import GoText

  datatype Purpose = Login | Link(userId: string)

  /** What the provider answered. Its calls are foreign, so the answer is an arbitrary input. */
  datatype Request = Request(purpose: Purpose, provider: string, providerUserId: string, email: string)

  /** The next store call of a request, with the values it holds so far. */
  datatype Pc =
    | Lookup
    | FetchLinked(userId: string)
    | UpdateEmail(usr: UserModel)
    | FindByEmail
    | BindMerged(usr: UserModel)
    | RefetchMerged(usr: UserModel)
    | InsertUser
    | BindNew(usr: UserModel)
    | CleanUp(usr: UserModel, conflict: bool)
    | FetchBindingUser(userId: string)
    | LookupLink(usr: UserModel)
    | BindLink(usr: UserModel)
    | RefetchLink(usr: UserModel)
    | Done(outcome: Result<UserModel, Code>)

  /** A request under way. inserted names the user row it created, if any. */
  datatype Running = Running(req: Request, pc: Pc, inserted: Option<string>, cleanUpFailed: bool)

  function Start(req: Request): Running {
    var pc :=
      match req.purpose
      case Login => if req.providerUserId == "" || req.provider == "" then Done(Err(Internal)) else Lookup
      case Link(userId) => FetchBindingUser(userId);
    Fresh(req, pc)
  }

  /** A request that has inserted no row. */
  function Fresh(req: Request, pc: Pc): Running {
    Running(req, pc, None, false)
  }

  // ---- the branch taken on the answer of each store call ------------------------------------

  function AfterLookup(req: Request, found: Result<Identity, StoreError>): (pc: Pc)
    ensures pc.Done? || pc.FetchLinked? || pc.FindByEmail?
  {
    match found
    case Ok(identity) => FetchLinked(identity.userId)
    case Err(ErrNotFound) =>
      if !GoText.IsBlank(req.email) then FindByEmail else Done(Err(FailedPrecondition))
    case Err(_) => Done(Err(Internal))
  }

  function AfterFetchLinked(req: Request, found: Result<UserModel, StoreError>): (pc: Pc)
    ensures pc.Done? || pc.UpdateEmail?
  {
    match found
    case Ok(usr) =>
      if usr.email == req.email || req.email == "" then Done(Ok(usr)) else UpdateEmail(usr.(email := req.email))
    case Err(_) => Done(Err(Internal))
  }

  function AfterFindByEmail(found: Result<UserModel, StoreError>): (pc: Pc)
    ensures pc.Done? || pc.BindMerged? || pc.InsertUser?
  {
    match found
    case Ok(usr) => BindMerged(usr)
    case Err(ErrNotFound) => InsertUser
    case Err(_) => Done(Err(Internal))
  }

  function AfterInsertUser(created: Result<UserModel, StoreError>): (pc: Pc)
    ensures pc.Done? || pc.BindNew?
  {
    match created
    case Ok(usr) => BindNew(usr)
    case Err(e) => Done(Err(if e == ErrAlreadyExists then AlreadyExists else Internal))
  }

  function AfterFetchBindingUser(req: Request, found: Result<UserModel, StoreError>): (pc: Pc)
    ensures pc.Done? || pc.LookupLink?
  {
    match found
    case Ok(usr) => if req.providerUserId == "" then Done(Err(Internal)) else LookupLink(usr)
    case Err(e) => Done(Err(if e == ErrNotFound then NotFound else Internal))
  }

  /** The verdict on an identity that was read: it must belong to the user at hand. */
  function Verdict(usr: UserModel, found: Result<Identity, StoreError>): Result<UserModel, Code> {
    match found
    case Ok(identity) => if identity.userId == usr.id then Ok(usr) else Err(AlreadyExists)
    case Err(_) => Err(Internal)
  }

  function AfterLookupLink(usr: UserModel, found: Result<Identity, StoreError>): (pc: Pc)
    ensures pc.Done? || pc.BindLink?
  {
    if found == Err(ErrNotFound) then BindLink(usr) else Done(Verdict(usr, found))
  }

  /** One store call and the branch taken on its answer. */
  ghost function Advance(db: Db, run: Running, c: Call): (Db, Running) {
    var req := run.req;
    var found := GetByProviderID(db, req.provider, req.providerUserId, c);
    match run.pc
    case Lookup => (db, run.(pc := AfterLookup(req, found)))
    case FetchLinked(userId) => (db, run.(pc := AfterFetchLinked(req, GetByID(db, userId, c))))
    case UpdateEmail(usr) =>
      var (next, error) := UpdateUser(db, usr, c);
      (next, run.(pc := Done(if error.None? then Ok(usr) else Err(Internal))))
    case FindByEmail => (db, run.(pc := AfterFindByEmail(GetByEmail(db, req.email, c))))
    case BindMerged(usr) =>
      var (next, error) := CreateIdentity(db, Identity(usr.id, req.provider, req.providerUserId), c);
      (next, run.(pc := if error.None? then Done(Ok(usr))
                        else if error == Some(ErrAlreadyExists) then RefetchMerged(usr)
                        else Done(Err(Internal))))
    case RefetchMerged(usr) => (db, run.(pc := Done(Verdict(usr, found))))
    case InsertUser =>
      var (next, created) := CreateUser(db, NewUser(req.email), c);
      (next, run.(pc := AfterInsertUser(created),
                  inserted := if created.Ok? then Some(created.value.id) else run.inserted))
    case BindNew(usr) =>
      var (next, error) := CreateIdentity(db, Identity(usr.id, req.provider, req.providerUserId), c);
      (next, run.(pc := if error.None? then Done(Ok(usr)) else CleanUp(usr, error == Some(ErrAlreadyExists))))
    case CleanUp(usr, conflict) =>
      var (next, error) := DeleteUser(db, usr.id, c);
      (next, run.(pc := Done(Err(if conflict then AlreadyExists else Internal)),
                  cleanUpFailed := error == Some(ErrOther)))
    case FetchBindingUser(userId) => (db, run.(pc := AfterFetchBindingUser(req, GetByID(db, userId, c))))
    case LookupLink(usr) => (db, run.(pc := AfterLookupLink(usr, found)))
    case BindLink(usr) =>
      var (next, error) := CreateIdentity(db, Identity(usr.id, req.provider, req.providerUserId), c);
      (next, run.(pc := if error.None? then Done(Ok(usr))
                        else if error == Some(ErrAlreadyExists) then RefetchLink(usr)
                        else Done(Err(Internal))))
    case RefetchLink(usr) => (db, run.(pc := Done(Verdict(usr, found))))
    case Done(_) => (db, run)
  }

  // ---- interleaved runs --------------------------------------------------------------------

  datatype System = System(db: Db, requests: map<nat, Running>)

  /** A request begins, a request makes its next store call, or another handler writes a user row
      (registration, recording a login, password reset, deletion). */
  datatype Event =
    | Begin(r: nat, req: Request)
    | StoreCall(r: nat, call: Call)
    | OtherInsert(model: UserModel, call: Call)
    | OtherUpdate(model: UserModel, call: Call)
    | OtherSetPassword(id: string, hash: string, call: Call)
    | OtherDelete(id: string, call: Call)

  ghost function Apply(s: System, e: Event): System {
    match e
    case Begin(r, req) => if r in s.requests then s else s.(requests := s.requests[r := Start(req)])
    case StoreCall(r, call) =>
      if r !in s.requests then s
      else
        var (db, run) := Advance(s.db, s.requests[r], call);
        System(db, s.requests[r := run])
    case OtherInsert(model, call) => s.(db := CreateUser(s.db, model, call).0)
    case OtherUpdate(model, call) => s.(db := UpdateUser(s.db, model, call).0)
    case OtherSetPassword(id, hash, call) => s.(db := SetPassword(s.db, id, hash, call).0)
    case OtherDelete(id, call) => s.(db := DeleteUser(s.db, id, call).0)
  }

  ghost function Run(s: System, events: seq<Event>): System
    decreases |events|
  {
    if events == [] then s else Run(Apply(s, events[0]), events[1..])
  }

  // ---- what holds of a request in every state ------------------------------------------------

  ghost predicate BoundTo(db: Db, req: Request, user: string) {
    Binds(db, req.provider, req.providerUserId, user)
  }

  /** An inserted row is settled: bound to the identity it was made for, or soft-deleted. */
  ghost predicate Settled(db: Db, req: Request, user: string) {
    user in db.users && (BoundTo(db, req, user) || db.users[user].deletedAt.Some?)
  }

  ghost predicate RequestOk(db: Db, run: Running) {
    && (run.inserted.Some? ==> run.inserted.value in db.users)
    && match run.pc
       case FetchLinked(user) => BoundTo(db, run.req, user) && run.inserted.None?
       case UpdateEmail(usr) => BoundTo(db, run.req, usr.id) && run.inserted.None?
       case BindNew(usr) => run.inserted == Some(usr.id)
       case CleanUp(usr, _) => run.inserted == Some(usr.id)
       case Done(outcome) =>
         && (outcome.Ok? ==> BoundTo(db, run.req, outcome.value.id))
         && (run.inserted.Some? && !run.cleanUpFailed ==> Settled(db, run.req, run.inserted.value))
       case _ => run.inserted.None?
  }

  ghost predicate Good(s: System) {
    Valid(s.db) && forall r :: r in s.requests ==> RequestOk(s.db, s.requests[r])
  }

  lemma RequestStaysOk(a: Db, b: Db, run: Running)
    requires Extends(a, b) && RequestOk(a, run)
    ensures RequestOk(b, run)
  {
    forall user | BoundTo(a, run.req, user) ensures BoundTo(b, run.req, user) {
      BindingsStay(a, b, run.req.provider, run.req.providerUserId, user);
    }
  }

  lemma FreshBinding(db: Db, identity: Identity, c: Call)
    requires CreateIdentity(db, identity, c).1.None?
    ensures Binds(CreateIdentity(db, identity, c).0, identity.provider, identity.providerUserId, identity.userId)
  {
    assert c.uuid in CreateIdentity(db, identity, c).0.identities;
  }

  lemma ReadBinding(db: Db, provider: string, providerUserId: string, c: Call)
    requires GetByProviderID(db, provider, providerUserId, c).Ok?
    ensures Binds(db, provider, providerUserId, GetByProviderID(db, provider, providerUserId, c).value.userId)
  {
  }

  /** Steps that only look something up. */
  lemma ReadStepOk(db: Db, run: Running, c: Call)
    requires Valid(db) && RequestOk(db, run)
    requires match run.pc
             case Lookup | FetchLinked(_) | FindByEmail | RefetchMerged(_) => true
             case FetchBindingUser(_) | LookupLink(_) | RefetchLink(_) => true
             case _ => false
    ensures Advance(db, run, c).0 == db && RequestOk(db, Advance(db, run, c).1)
  {
    var found := GetByProviderID(db, run.req.provider, run.req.providerUserId, c);
    if found.Ok? { ReadBinding(db, run.req.provider, run.req.providerUserId, c); }
  }

  /** Steps that write a user row. */
  lemma UserStepOk(db: Db, run: Running, c: Call)
    requires Valid(db) && RequestOk(db, run)
    requires run.pc.UpdateEmail? || run.pc.InsertUser? || run.pc.CleanUp?
    ensures Valid(Advance(db, run, c).0) && Extends(db, Advance(db, run, c).0)
    ensures RequestOk(Advance(db, run, c).0, Advance(db, run, c).1)
  {
    match run.pc
    case UpdateEmail(usr) =>
      UpdateUserKeeps(db, usr, c);
      BindingsStay(db, UpdateUser(db, usr, c).0, run.req.provider, run.req.providerUserId, usr.id);
    case InsertUser => CreateUserKeeps(db, NewUser(run.req.email), c);
    case CleanUp(usr, _) => DeleteUserKeeps(db, usr.id, c);
  }

  /** Steps that write an identity row. */
  lemma BindStepOk(db: Db, run: Running, c: Call)
    requires Valid(db) && RequestOk(db, run)
    requires run.pc.BindMerged? || run.pc.BindNew? || run.pc.BindLink?
    ensures Valid(Advance(db, run, c).0) && Extends(db, Advance(db, run, c).0)
    ensures RequestOk(Advance(db, run, c).0, Advance(db, run, c).1)
  {
    BindKeeps(db, run, run.pc.usr, c);
  }

  lemma AdvanceKeeps(db: Db, run: Running, c: Call)
    requires Valid(db) && RequestOk(db, run)
    ensures Valid(Advance(db, run, c).0) && Extends(db, Advance(db, run, c).0)
    ensures RequestOk(Advance(db, run, c).0, Advance(db, run, c).1)
  {
    match run.pc
    case UpdateEmail(_) | InsertUser | CleanUp(_, _) => UserStepOk(db, run, c);
    case BindMerged(_) | BindNew(_) | BindLink(_) => BindStepOk(db, run, c);
    case Done(_) =>
    case _ => ReadStepOk(db, run, c);
  }

  lemma BindKeeps(db: Db, run: Running, usr: UserModel, c: Call)
    requires Valid(db)
    ensures var (next, error) := CreateIdentity(db, Identity(usr.id, run.req.provider, run.req.providerUserId), c);
            Valid(next) && Extends(db, next) && (error.None? ==> BoundTo(next, run.req, usr.id))
  {
    var identity := Identity(usr.id, run.req.provider, run.req.providerUserId);
    CreateIdentityKeeps(db, identity, c);
    if CreateIdentity(db, identity, c).1.None? { FreshBinding(db, identity, c); }
  }

  /** The database part of an event. */
  lemma DbStep(s: System, e: Event)
    requires Good(s)
    ensures Valid(Apply(s, e).db) && Extends(s.db, Apply(s, e).db)
  {
    match e
    case Begin(_, _) =>
    case StoreCall(r, call) => if r in s.requests { AdvanceKeeps(s.db, s.requests[r], call); }
    case OtherInsert(model, call) => CreateUserKeeps(s.db, model, call);
    case OtherUpdate(model, call) => UpdateUserKeeps(s.db, model, call);
    case OtherSetPassword(id, hash, call) => SetPasswordKeeps(s.db, id, hash, call);
    case OtherDelete(id, call) => DeleteUserKeeps(s.db, id, call);
  }

  lemma ApplyKeeps(s: System, e: Event)
    requires Good(s)
    ensures Good(Apply(s, e)) && Extends(s.db, Apply(s, e).db)
  {
    DbStep(s, e);
    var next := Apply(s, e);
    forall r | r in next.requests ensures RequestOk(next.db, next.requests[r]) {
      if e.StoreCall? && r == e.r {
        AdvanceKeeps(s.db, s.requests[r], e.call);
      } else if r in s.requests {
        assert next.requests[r] == s.requests[r];
        RequestStaysOk(s.db, next.db, s.requests[r]);
      }
    }
  }

  lemma {:induction false} RunKeeps(s: System, events: seq<Event>)
    requires Good(s)
    ensures Good(Run(s, events)) && Extends(s.db, Run(s, events).db)
    decreases |events|
  {
    if events != [] {
      ApplyKeeps(s, events[0]);
      RunKeeps(Apply(s, events[0]), events[1..]);
    }
  }

  lemma {:induction false} RunSplits(s: System, before: seq<Event>, after: seq<Event>)
    ensures Run(s, before + after) == Run(Run(s, before), after)
    decreases |before|
  {
    if before == [] {
      assert before + after == after;
    } else {
      assert (before + after)[0] == before[0] && (before + after)[1..] == before[1..] + after;
      RunSplits(Apply(s, before[0]), before[1..], after);
    }
  }

  // ---- the promises, for every interleaving --------------------------------------------------

  /** The unique constraints and the foreign key survive every interleaving: one binding an identity,
      one row an email, deleted rows included, and every binding points at a user row. */
  lemma TablesStayConsistent(s: System, events: seq<Event>)
    requires Good(s)
    ensures var db := Run(s, events).db;
            && (forall p, q, u, v :: Binds(db, p, q, u) && Binds(db, p, q, v) ==> u == v)
            && (forall p, q, u :: Binds(db, p, q, u) ==> u in db.users)
            && (forall i, j :: i in db.users && j in db.users && i != j ==> db.users[i].email != db.users[j].email)
  {
    RunKeeps(s, events);
    var db := Run(s, events).db;
    forall p, q, u, v | Binds(db, p, q, u) && Binds(db, p, q, v) ensures u == v {
      BindingUnique(db, p, q, u, v);
    }
  }

  lemma BindingUnique(db: Db, p: string, q: string, u: string, v: string)
    requires Valid(db) && Binds(db, p, q, u) && Binds(db, p, q, v)
    ensures u == v
  {
    var i :| i in db.identities && db.identities[i] == Identity(u, p, q);
    var j :| j in db.identities && db.identities[j] == Identity(v, p, q);
    assert SameKey(db.identities[i], db.identities[j]);
  }

  /** Once bound, an identity stays bound to that user and is never bound to another. */
  lemma BindingNeverMoves(s: System, before: seq<Event>, after: seq<Event>, p: string, q: string, u: string, v: string)
    requires Good(s) && Binds(Run(s, before).db, p, q, u)
    ensures Binds(Run(s, before + after).db, p, q, v) <==> v == u
  {
    RunKeeps(s, before);
    RunKeeps(Run(s, before), after);
    RunSplits(s, before, after);
    var later := Run(s, before + after).db;
    BindingsStay(Run(s, before).db, later, p, q, u);
    if Binds(later, p, q, v) { BindingUnique(later, p, q, u, v); }
  }

  ghost predicate Succeeded(s: System, r: nat, user: string) {
    r in s.requests && s.requests[r].pc.Done? && s.requests[r].pc.outcome.Ok? &&
      s.requests[r].pc.outcome.value.id == user
  }

  /** A login or link that reports success names exactly the user its identity is bound to. */
  lemma SuccessNamesTheBoundUser(s: System, events: seq<Event>, r: nat, user: string)
    requires Good(s) && Succeeded(Run(s, events), r, user)
    ensures BoundTo(Run(s, events).db, Run(s, events).requests[r].req, user)
  {
    RunKeeps(s, events);
  }

  /** Two successes for one identity name one user, however far apart in the run they are. */
  lemma SuccessesAgree(s: System, before: seq<Event>, after: seq<Event>, r1: nat, u1: string, r2: nat, u2: string)
    requires Good(s)
    requires Succeeded(Run(s, before), r1, u1) && Succeeded(Run(s, before + after), r2, u2)
    requires var a, b := Run(s, before).requests[r1].req, Run(s, before + after).requests[r2].req;
             a.provider == b.provider && a.providerUserId == b.providerUserId
    ensures u1 == u2
  {
    SuccessNamesTheBoundUser(s, before, r1, u1);
    SuccessNamesTheBoundUser(s, before + after, r2, u2);
    var req := Run(s, before).requests[r1].req;
    BindingNeverMoves(s, before, after, req.provider, req.providerUserId, u1, u2);
  }

  /** When a request is over, the row it inserted is bound to its identity or soft-deleted, or both, unless the
      compensating delete itself failed; and this stays so for ever. */
  lemma InsertedRowsSettle(s: System, before: seq<Event>, after: seq<Event>, r: nat)
    requires Good(s) && r in Run(s, before).requests
    requires var run := Run(s, before).requests[r];
             run.pc.Done? && run.inserted.Some? && !run.cleanUpFailed
    ensures var run := Run(s, before).requests[r];
            Settled(Run(s, before + after).db, run.req, run.inserted.value)
  {
    RunKeeps(s, before);
    RunKeeps(Run(s, before), after);
    RunSplits(s, before, after);
    RequestStaysOk(Run(s, before).db, Run(s, before + after).db, Run(s, before).requests[r]);
  }

  /** A soft-deleted row is frozen, and its email can never be used by another row. */
  lemma DeletedRowsAreFrozen(s: System, before: seq<Event>, after: seq<Event>, user: string, other: string)
    requires Good(s) && user in Run(s, before).db.users && Run(s, before).db.users[user].deletedAt.Some?
    ensures var was, later := Run(s, before).db.users[user], Run(s, before + after).db;
            && user in later.users && later.users[user] == was
            && (other in later.users && later.users[other].email == was.email ==> other == user)
  {
    RunKeeps(s, before);
    RunKeeps(Run(s, before), after);
    RunSplits(s, before, after);
  }

  // ---- progress ------------------------------------------------------------------------------

  function Remaining(pc: Pc): (n: nat)
    ensures n <= 5
  {
    match pc
    case Done(_) => 0
    case UpdateEmail(_) | RefetchMerged(_) | RefetchLink(_) | CleanUp(_, _) => 1
    case FetchLinked(_) | BindMerged(_) | BindNew(_) | BindLink(_) => 2
    case InsertUser | LookupLink(_) => 3
    case FindByEmail | FetchBindingUser(_) => 4
    case Lookup => 5
  }

  function StoreCalls(events: seq<Event>, r: nat): nat {
    if events == [] then 0
    else (if events[0].StoreCall? && events[0].r == r then 1 else 0) + StoreCalls(events[1..], r)
  }

  /** No interleaving makes a request retry: after at most five store calls of its own it is over. */
  lemma {:induction false} RequestsFinish(s: System, events: seq<Event>, r: nat)
    requires r in s.requests && StoreCalls(events, r) >= Remaining(s.requests[r].pc)
    ensures r in Run(s, events).requests && Run(s, events).requests[r].pc.Done?
    decreases |events|
  {
    if events == [] {
    } else {
      var next := Apply(s, events[0]);
      AdvanceProgresses(s, events[0], r);
      RequestsFinish(next, events[1..], r);
    }
  }

  lemma AdvanceProgresses(s: System, e: Event, r: nat)
    requires r in s.requests
    ensures r in Apply(s, e).requests
    ensures var was, next := Remaining(s.requests[r].pc), Remaining(Apply(s, e).requests[r].pc);
            if e.StoreCall? && e.r == r then next < was || next == was == 0 else next == was
  {
    if e.StoreCall? && e.r == r {
      CallProgresses(s.db, s.requests[r], e.call);
    }
  }

  lemma CallProgresses(db: Db, run: Running, c: Call)
    ensures run.pc.Done? || Remaining(Advance(db, run, c).1.pc) < Remaining(run.pc)
    ensures run.pc.Done? ==> Advance(db, run, c).1.pc == run.pc
  {
    if run.pc.BindMerged? || run.pc.BindNew? || run.pc.BindLink? {
      var bound := CreateIdentity(db, Identity(run.pc.usr.id, run.req.provider, run.req.providerUserId), c);
      BindCallProgresses(db, run, c, bound.0, bound.1);
    } else if run.pc.InsertUser? {
      var created := CreateUser(db, NewUser(run.req.email), c);
      assert Advance(db, run, c).1.pc == AfterInsertUser(created.1);
    } else if run.pc.FindByEmail? {
      assert Advance(db, run, c).1.pc == AfterFindByEmail(GetByEmail(db, run.req.email, c));
    }
  }

  lemma BindCallProgresses(db: Db, run: Running, c: Call, next: Db, error: Option<StoreError>)
    requires run.pc.BindMerged? || run.pc.BindNew? || run.pc.BindLink?
    requires (next, error) == CreateIdentity(db, Identity(run.pc.usr.id, run.req.provider, run.req.providerUserId), c)
    ensures Remaining(Advance(db, run, c).1.pc) < Remaining(run.pc)
  {
  }

  // ---- one request on its own ------------------------------------------------------------------

  /** A request run without interference, one call for each store access. */
  ghost function Alone(db: Db, run: Running, calls: seq<Call>): (Db, Running)
    decreases |calls|
  {
    if calls == [] || run.pc.Done? then (db, run)
    else
      var (next, later) := Advance(db, run, calls[0]);
      Alone(next, later, calls[1..])
  }

  /** The row the request inserted is the one difference to the starting table. */
  ghost predicate OnlyInserted(start: Db, db: Db, run: Running, live: bool) {
    && run.inserted.Some?
    && run.inserted.value !in start.users
    && !EmailTaken(start, run.req.email)
    && run.inserted.value in db.users
    && db.users[run.inserted.value].email == run.req.email
    && db.users[run.inserted.value].deletedAt.None? == live
    && db == start.(users := start.users[run.inserted.value := db.users[run.inserted.value]])
  }

  ghost predicate TraceOk(start: Db, db: Db, run: Running) {
    match run.pc
    case Done(Ok(_)) => true
    case Done(Err(_)) =>
      if run.inserted.None? then db == start && !run.cleanUpFailed else OnlyInserted(start, db, run, run.cleanUpFailed)
    case BindNew(usr) => OnlyInserted(start, db, run, true) && run.inserted == Some(usr.id) && !run.cleanUpFailed
    case CleanUp(usr, _) => OnlyInserted(start, db, run, true) && run.inserted == Some(usr.id) && !run.cleanUpFailed
    case _ => db == start && run.inserted.None? && !run.cleanUpFailed
  }

  lemma AdvanceKeepsTrace(start: Db, db: Db, run: Running, c: Call)
    requires TraceOk(start, db, run)
    ensures TraceOk(start, Advance(db, run, c).0, Advance(db, run, c).1)
  {
    if run.pc.CleanUp? {
      var (next, error) := DeleteUser(db, run.pc.usr.id, c);
      assert IsLive(db, run.pc.usr.id);
    } else if run.pc.InsertUser? {
      var (next, r) := CreateUser(db, NewUser(run.req.email), c);
    } else if run.pc.BindNew? || run.pc.BindMerged? || run.pc.BindLink? {
      var (next, error) := CreateIdentity(db, Identity(run.pc.usr.id, run.req.provider, run.req.providerUserId), c);
      assert error.Some? ==> next == db;
    }
  }

  lemma {:induction false} AloneKeepsTrace(start: Db, db: Db, run: Running, calls: seq<Call>)
    requires TraceOk(start, db, run)
    ensures TraceOk(start, Alone(db, run, calls).0, Alone(db, run, calls).1)
    ensures Alone(db, run, calls).1.req == run.req
    decreases |calls|
  {
    if calls != [] && !run.pc.Done? {
      var (next, later) := Advance(db, run, calls[0]);
      AdvanceKeepsTrace(start, db, run, calls[0]);
      AloneKeepsTrace(start, next, later, calls[1..]);
    }
  }
}
