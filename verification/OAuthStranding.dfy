/** Users who are deleted while an identity is bound to them: exactly which events strand a user so, and runs in
    which a login that succeeds ends like that. */
module OAuthStranding {
  import opened Prelude
  import opened Directory
  import opened OAuthLinking
  import opened OAuthFailures
  import opened OAuthAnswers
  import GoText

  // ---- exactly when a user is stranded ---------------------------------------------------------------------

  /** The user is deleted, but an identity is bound to it, and always will be. */
  ghost predicate Stranded(db: Db, user: string) {
    user in db.users && db.users[user].deletedAt.Some? && HasBinding(db, user)
  }

  ghost predicate HasBinding(db: Db, user: string) {
    exists i :: i in db.identities && db.identities[i].userId == user
  }

  /** The insert of an identity for this request goes through. */
  predicate BindGoesThrough(db: Db, req: Request, user: string, c: Call) {
    !c.fault && c.uuid !in db.identities && !Bound(db, req.provider, req.providerUserId) && user in db.users
  }

  predicate IsDeleted(db: Db, user: string) {
    user in db.users && db.users[user].deletedAt.Some?
  }

  /** A delete that goes through takes a live user with a binding away. */
  ghost predicate DeleteStrands(db: Db, user: string, c: Call) {
    !c.fault && IsLive(db, user) && HasBinding(db, user)
  }

  /** The next store call of a request strands the user: its clean-up deletes the user, to whom an identity is bound
      by now, or it binds its identity to the user, who is deleted by now. */
  ghost predicate CallStrands(db: Db, run: Running, c: Call, user: string) {
    match run.pc
    case CleanUp(usr, _) => usr.id == user && DeleteStrands(db, user, c)
    case BindMerged(_) | BindNew(_) | BindLink(_) =>
      run.pc.usr.id == user && IsDeleted(db, user) && BindGoesThrough(db, run.req, user, c)
    case _ => false
  }

  lemma BindStrandsExactly(db: Db, identity: Identity, c: Call, user: string)
    requires !Stranded(db, user)
    ensures var went := !c.fault && c.uuid !in db.identities && identity.userId in db.users
                     && !Bound(db, identity.provider, identity.providerUserId);
            Stranded(CreateIdentity(db, identity, c).0, user)
            <==> identity.userId == user && IsDeleted(db, user) && went
  {
    var next := CreateIdentity(db, identity, c).0;
    assert Bound(db, identity.provider, identity.providerUserId) || c.fault || c.uuid in db.identities
        || identity.userId !in db.users || next.identities == db.identities[c.uuid := identity];
    if next.identities == db.identities[c.uuid := identity] {
      assert c.uuid in next.identities && next.identities[c.uuid] == identity;
      if HasBinding(next, user) && identity.userId != user {
        var i :| i in next.identities && next.identities[i].userId == user;
        assert i in db.identities && db.identities[i].userId == user;
      }
    }
  }

  lemma DeleteStrandsExactly(db: Db, id: string, c: Call, user: string)
    requires !Stranded(db, user)
    ensures Stranded(DeleteUser(db, id, c).0, user) <==> id == user && DeleteStrands(db, user, c)
  {
    var next := DeleteUser(db, id, c).0;
    assert HasBinding(next, user) <==> HasBinding(db, user);
  }

  lemma OtherWritesStrandNobody(db: Db, next: Db, user: string)
    requires !Stranded(db, user) && next.identities == db.identities
    requires IsDeleted(next, user) ==> IsDeleted(db, user)
    ensures !Stranded(next, user)
  {
    if HasBinding(next, user) { assert HasBinding(db, user); }
  }

  /** The table write of a store call. */
  lemma CallWrites(db: Db, run: Running, c: Call)
    ensures var next := Advance(db, run, c).0;
            match run.pc
            case CleanUp(usr, _) => next == DeleteUser(db, usr.id, c).0
            case BindMerged(_) | BindNew(_) | BindLink(_) =>
              next == CreateIdentity(db, Identity(run.pc.usr.id, run.req.provider, run.req.providerUserId), c).0
            case UpdateEmail(usr) => next == UpdateUser(db, usr, c).0
            case InsertUser => next == CreateUser(db, NewUser(run.req.email), c).0
            case _ => next == db
  {
  }

  lemma UpdateStrandsNobody(db: Db, m: UserModel, c: Call, user: string)
    requires !Stranded(db, user)
    ensures !Stranded(UpdateUser(db, m, c).0, user)
  {
    OtherWritesStrandNobody(db, UpdateUser(db, m, c).0, user);
  }

  lemma InsertStrandsNobody(db: Db, m: UserModel, c: Call, user: string)
    requires !Stranded(db, user)
    ensures !Stranded(CreateUser(db, m, c).0, user)
  {
    var (next, r) := CreateUser(db, m, c);
    if r.Ok? { assert next.users == db.users[r.value.id := next.users[r.value.id]]; }
    OtherWritesStrandNobody(db, next, user);
  }

  /** A store call of a request strands a user exactly when it is such a clean-up or such a bind. */
  lemma CallStrandsExactly(db: Db, run: Running, c: Call, user: string)
    requires !Stranded(db, user)
    ensures Stranded(Advance(db, run, c).0, user) <==> CallStrands(db, run, c, user)
  {
    CallWrites(db, run, c);
    WriteStrandsExactly(db, Advance(db, run, c).0, run, c, user);
  }

  lemma WriteStrandsExactly(db: Db, next: Db, run: Running, c: Call, user: string)
    requires !Stranded(db, user)
    requires match run.pc
             case CleanUp(usr, _) => next == DeleteUser(db, usr.id, c).0
             case BindMerged(_) | BindNew(_) | BindLink(_) =>
               next == CreateIdentity(db, Identity(run.pc.usr.id, run.req.provider, run.req.providerUserId), c).0
             case UpdateEmail(usr) => next == UpdateUser(db, usr, c).0
             case InsertUser => next == CreateUser(db, NewUser(run.req.email), c).0
             case _ => next == db
    ensures Stranded(next, user) <==> CallStrands(db, run, c, user)
  {
    match run.pc
    case CleanUp(usr, _) => DeleteStrandsExactly(db, usr.id, c, user);
    case BindMerged(_) | BindNew(_) | BindLink(_) =>
      BindStrandsExactly(db, Identity(run.pc.usr.id, run.req.provider, run.req.providerUserId), c, user);
    case UpdateEmail(usr) => UpdateStrandsNobody(db, usr, c, user);
    case InsertUser => InsertStrandsNobody(db, NewUser(run.req.email), c, user);
    case _ =>
  }

  /** An event strands a user: a store call does, or another handler deletes a user with a binding. */
  ghost predicate EventStrands(s: System, e: Event, user: string) {
    match e
    case StoreCall(r, call) => r in s.requests && CallStrands(s.db, s.requests[r], call, user)
    case OtherDelete(id, call) => id == user && DeleteStrands(s.db, user, call)
    case _ => false
  }

  lemma EventStrandsExactly(s: System, e: Event, user: string)
    requires !Stranded(s.db, user)
    ensures Stranded(Apply(s, e).db, user) <==> EventStrands(s, e, user)
  {
    match e
    case Begin(_, _) =>
    case StoreCall(r, call) => if r in s.requests { CallStrandsExactly(s.db, s.requests[r], call, user); }
    case OtherInsert(model, call) => InsertStrandsNobody(s.db, model, call, user);
    case OtherUpdate(model, call) => UpdateStrandsNobody(s.db, model, call, user);
    case OtherSetPassword(id, hash, call) => OtherWritesStrandNobody(s.db, SetPassword(s.db, id, hash, call).0, user);
    case OtherDelete(id, call) => DeleteStrandsExactly(s.db, id, call, user);
  }

  /** Some event of the run strands the user. */
  ghost predicate SomeEventStrands(s: System, events: seq<Event>, user: string)
    decreases |events|
  {
    events != [] && (EventStrands(s, events[0], user) || SomeEventStrands(Apply(s, events[0]), events[1..], user))
  }

  lemma StrandedStays(a: Db, b: Db, user: string)
    requires Extends(a, b) && Stranded(a, user)
    ensures Stranded(b, user)
  {
    var i :| i in a.identities && a.identities[i].userId == user;
    assert i in b.identities && b.identities[i].userId == user;
  }

  /** In every interleaving a user who is not stranded at first is stranded at the end exactly when some event is a
      clean-up, or another delete, that takes the user away while an identity is bound to it, or a bind to the user
      after it was deleted. */
  lemma {:induction false} StrandedExactly(s: System, events: seq<Event>, user: string)
    requires Good(s) && !Stranded(s.db, user)
    ensures Stranded(Run(s, events).db, user) <==> SomeEventStrands(s, events, user)
    decreases |events|
  {
    if events != [] {
      var next := Apply(s, events[0]);
      ApplyKeeps(s, events[0]);
      EventStrandsExactly(s, events[0], user);
      if Stranded(next.db, user) {
        RunKeeps(next, events[1..]);
        StrandedStays(next.db, Run(next, events[1..]).db, user);
      } else {
        StrandedExactly(next, events[1..], user);
      }
    }
  }

  /** What a request for a stranded identity can still be: looking it up, or failed. */
  predicate Barred(run: Running, user: string) {
    match run.pc
    case Lookup | FetchBindingUser(_) => true
    case FetchLinked(u) => u == user
    case LookupLink(usr) => usr.id != user
    case Done(outcome) => outcome.Err?
    case _ => false
  }

  lemma BarredStep(db: Db, run: Running, c: Call, user: string)
    requires Valid(db) && Barred(run, user) && BoundTo(db, run.req, user)
    requires user in db.users && db.users[user].deletedAt.Some?
    ensures Barred(Advance(db, run, c).1, user)
  {
    var req := run.req;
    if !c.fault { LookupIsExact(db, req.provider, req.providerUserId, c, user); }
  }

  /** The requests for an identity that were not under way before. */
  ghost predicate AllBarred(s: System, p: string, q: string, user: string, before: set<nat>) {
    forall r :: && r in s.requests && r !in before
                && s.requests[r].req.provider == p && s.requests[r].req.providerUserId == q
      ==> Barred(s.requests[r], user)
  }

  lemma AdvanceKeepsRequest(db: Db, run: Running, c: Call)
    ensures Advance(db, run, c).1.req == run.req
  {
  }

  lemma ApplyKeepsBarred(s: System, e: Event, p: string, q: string, user: string, before: set<nat>)
    requires Good(s) && AllBarred(s, p, q, user, before) && Binds(s.db, p, q, user)
    requires user in s.db.users && s.db.users[user].deletedAt.Some?
    ensures AllBarred(Apply(s, e), p, q, user, before)
  {
    if e.StoreCall? && e.r in s.requests {
      var run := s.requests[e.r];
      AdvanceKeepsRequest(s.db, run, e.call);
      if e.r !in before && run.req.provider == p && run.req.providerUserId == q { BarredStep(s.db, run, e.call, user); }
    }
  }

  lemma {:induction false} RunKeepsBarred(s: System, events: seq<Event>, p: string, q: string, user: string,
                                          before: set<nat>)
    requires Good(s) && AllBarred(s, p, q, user, before) && Binds(s.db, p, q, user)
    requires user in s.db.users && s.db.users[user].deletedAt.Some?
    ensures AllBarred(Run(s, events), p, q, user, before)
    decreases |events|
  {
    if events != [] {
      var next := Apply(s, events[0]);
      ApplyKeeps(s, events[0]);
      BindingsStay(s.db, next.db, p, q, user);
      ApplyKeepsBarred(s, events[0], p, q, user, before);
      RunKeepsBarred(next, events[1..], p, q, user, before);
    }
  }

  /** Once an identity is bound to a deleted user, no login or link of it that begins later ever succeeds. */
  lemma StrandedIdentityIsLost(s: System, events: seq<Event>, p: string, q: string, user: string, r: nat, name: string)
    requires Good(s) && Binds(s.db, p, q, user) && user in s.db.users && s.db.users[user].deletedAt.Some?
    requires r !in s.requests && r in Run(s, events).requests
    requires var req := Run(s, events).requests[r].req; req.provider == p && req.providerUserId == q
    ensures !Succeeded(Run(s, events), r, name)
  {
    RunKeepsBarred(s, events, p, q, user, s.requests.Keys);
  }

  // ---- two first logins of one identity --------------------------------------------------------------------

  /** A run given with all the states it goes through. */
  lemma {:induction false} StatesRun(states: seq<System>, events: seq<Event>)
    requires |states| == |events| + 1
    requires forall i :: 0 <= i < |events| ==> states[i + 1] == Apply(states[i], events[i])
    ensures Run(states[0], events) == states[|events|]
    decreases |events|
  {
    if events != [] { StatesRun(states[1..], events[1..]); }
  }

  lemma FiveEvents(s0: System, e0: Event, s1: System, e1: Event, s2: System, e2: Event, s3: System, e3: Event,
                   s4: System, e4: Event, s5: System)
    requires Apply(s0, e0) == s1 && Apply(s1, e1) == s2 && Apply(s2, e2) == s3 && Apply(s3, e3) == s4
    requires Apply(s4, e4) == s5
    ensures Run(s0, [e0, e1, e2, e3, e4]) == s5
  {
    StatesRun([s0, s1, s2, s3, s4, s5], [e0, e1, e2, e3, e4]);
  }

  /** Two requests of the system and its tables; nothing else changes. */
  function Two(s: System, db: Db, r1: nat, run1: Running, r2: nat, run2: Running): System {
    System(db, s.requests[r1 := run1][r2 := run2])
  }

  lemma Moves(s: System, r: nat, c: Call, next: Db, later: Running)
    requires r in s.requests && Advance(s.db, s.requests[r], c) == (next, later)
    ensures Apply(s, StoreCall(r, c)) == System(next, s.requests[r := later])
  {
  }

  lemma PutOne(s: System, db: Db, r1: nat, run1: Running, r2: nat, run2: Running, next: Db, later: Running)
    requires r1 != r2
    ensures System(next, Two(s, db, r1, run1, r2, run2).requests[r1 := later]) == Two(s, next, r1, later, r2, run2)
    ensures System(next, Two(s, db, r1, run1, r2, run2).requests[r2 := later]) == Two(s, next, r1, run1, r2, later)
  {
    assert s.requests[r1 := run1][r2 := run2][r1 := later] == s.requests[r1 := later][r2 := run2];
    assert s.requests[r1 := run1][r2 := run2][r2 := later] == s.requests[r1 := run1][r2 := later];
  }

  lemma FirstMoves(s: System, db: Db, r1: nat, run1: Running, r2: nat, run2: Running, c: Call)
    requires r1 != r2
    ensures var (next, later) := Advance(db, run1, c);
            Apply(Two(s, db, r1, run1, r2, run2), StoreCall(r1, c)) == Two(s, next, r1, later, r2, run2)
  {
    var (next, later) := Advance(db, run1, c);
    Moves(Two(s, db, r1, run1, r2, run2), r1, c, next, later);
    PutOne(s, db, r1, run1, r2, run2, next, later);
  }

  lemma SecondMoves(s: System, db: Db, r1: nat, run1: Running, r2: nat, run2: Running, c: Call)
    requires r1 != r2
    ensures var (next, later) := Advance(db, run2, c);
            Apply(Two(s, db, r1, run1, r2, run2), StoreCall(r2, c)) == Two(s, next, r1, run1, r2, later)
  {
    var (next, later) := Advance(db, run2, c);
    Moves(Two(s, db, r1, run1, r2, run2), r2, c, next, later);
    PutOne(s, db, r1, run1, r2, run2, next, later);
  }

  lemma InsertsNewRow(db: Db, req: Request, user: string, now: int)
    requires !EmailTaken(db, req.email) && user !in db.users
    ensures var (next, later) := Advance(db, Fresh(req, InsertUser), Call(false, user, now));
            && HasNewRow(db, next, req.email, user)
            && later == Running(req, BindNew(NewUser(req.email).(id := user)), Some(user), false)
  {
    InsertStep(db, Fresh(req, InsertUser), Call(false, user, now));
  }

  lemma ConflictsAndCleansUp(db: Db, req: Request, usr: UserModel, id: string, now: int)
    requires Binds(db, req.provider, req.providerUserId, usr.id) && IsLive(db, usr.id)
    ensures var run, c := Running(req, BindNew(usr), Some(usr.id), false), Call(false, id, now);
            var cleaning, failed := run.(pc := CleanUp(usr, true)), run.(pc := Done(Err(AlreadyExists)));
            && Advance(db, run, c) == (db, cleaning)
            && Advance(db, cleaning, c)
                 == (db.(users := db.users[usr.id := db.users[usr.id].(deletedAt := Some(now))]), failed)
  {
    var i :| i in db.identities && db.identities[i] == Identity(usr.id, req.provider, req.providerUserId);
    assert SameKey(db.identities[i], Identity("", req.provider, req.providerUserId));
  }

  lemma BothMiss(s: System, r1: nat, r2: nat, req: Request, c: Call) returns (events: seq<Event>, t: System)
    requires r1 != r2 && r1 !in s.requests && r2 !in s.requests && !c.fault && Start(req) == Fresh(req, Lookup)
    requires !Bound(s.db, req.provider, req.providerUserId) && !EmailTaken(s.db, req.email)
    requires !GoText.IsBlank(req.email)
    ensures t == Two(s, s.db, r1, Fresh(req, InsertUser), r2, Fresh(req, FindByEmail)) && Run(s, events) == t
    ensures events == [Begin(r1, req), Begin(r2, req), StoreCall(r1, c), StoreCall(r2, c), StoreCall(r1, c)]
  {
    var begun, looking, finding := Fresh(req, Lookup), Fresh(req, FindByEmail), Fresh(req, InsertUser);
    LookupStep(s.db, begun, c);
    FindStep(s.db, looking, c);
    FirstMoves(s, s.db, r1, begun, r2, begun, c);
    SecondMoves(s, s.db, r1, looking, r2, begun, c);
    FirstMoves(s, s.db, r1, looking, r2, looking, c);
    events := [Begin(r1, req), Begin(r2, req), StoreCall(r1, c), StoreCall(r2, c), StoreCall(r1, c)];
    t := Two(s, s.db, r1, finding, r2, looking);
    FiveEvents(s, Begin(r1, req), s.(requests := s.requests[r1 := begun]), Begin(r2, req),
               Two(s, s.db, r1, begun, r2, begun), StoreCall(r1, c), Two(s, s.db, r1, looking, r2, begun),
               StoreCall(r2, c), Two(s, s.db, r1, looking, r2, looking), StoreCall(r1, c), t);
  }

  /** The second request merges onto the row of the first and succeeds; the first conflicts and deletes it. */
  lemma MergeThenCleanUp(s: System, r1: nat, r2: nat, req: Request, user: string, id: string, now: int)
    returns (events: seq<Event>, t: System)
    requires Valid(s.db) && r1 != r2 && user !in s.db.users && id !in s.db.identities
    requires !Bound(s.db, req.provider, req.providerUserId) && !EmailTaken(s.db, req.email)
    ensures Run(Two(s, s.db, r1, Fresh(req, InsertUser), r2, Fresh(req, FindByEmail)), events) == t
    ensures Succeeded(t, r2, user) && t.requests[r2].req == req && |events| == 5
    ensures Binds(t.db, req.provider, req.providerUserId, user) && Stranded(t.db, user)
    ensures forall e :: e in events ==> e.StoreCall? && !e.call.fault
  {
    var c, b := Call(false, user, now), Call(false, id, now);
    var (db1, bind1) := Advance(s.db, Fresh(req, InsertUser), c);
    InsertsNewRow(s.db, req, user, now);
    NewRowKeeps(s.db, user, db1.users[user]);
    var usr := ToModel(user, db1.users[user]);
    FindsByEmail(db1, req, c, user);
    assert !Bound(db1, req.provider, req.providerUserId);
    BindsIt(db1, req, Call(false, id, now), usr);
    var db2 := db1.(identities := db1.identities[id := Identity(user, req.provider, req.providerUserId)]);
    assert Binds(db2, req.provider, req.providerUserId, user) by { assert id in db2.identities; }
    ConflictsAndCleansUp(db2, req, usr, id, now);
    events, t := TheFiveCalls(s, r1, r2, req, db1, db2, usr, c, b);
    assert id in t.db.identities && t.db.identities[id] == Identity(user, req.provider, req.providerUserId);
  }

  lemma TheFiveCalls(s: System, r1: nat, r2: nat, req: Request, db1: Db, db2: Db, usr: UserModel, c: Call, b: Call)
    returns (events: seq<Event>, t: System)
    requires r1 != r2 && usr.id in db2.users
    requires var bind1 := Running(req, BindNew(usr), Some(usr.id), false);
             && Advance(s.db, Fresh(req, InsertUser), c) == (db1, bind1)
             && Advance(db1, Fresh(req, FindByEmail), c) == (db1, Fresh(req, BindMerged(usr)))
             && Advance(db1, Fresh(req, BindMerged(usr)), b) == (db2, Fresh(req, Done(Ok(usr))))
             && Advance(db2, bind1, b) == (db2, bind1.(pc := CleanUp(usr, true)))
             && Advance(db2, bind1.(pc := CleanUp(usr, true)), b)
                  == (db2.(users := db2.users[usr.id := db2.users[usr.id].(deletedAt := Some(b.now))]),
                      bind1.(pc := Done(Err(AlreadyExists))))
    ensures Run(Two(s, s.db, r1, Fresh(req, InsertUser), r2, Fresh(req, FindByEmail)), events) == t
    ensures t.db == db2.(users := db2.users[usr.id := db2.users[usr.id].(deletedAt := Some(b.now))])
    ensures r2 in t.requests && t.requests[r2] == Fresh(req, Done(Ok(usr)))
    ensures events == [StoreCall(r1, c), StoreCall(r2, c), StoreCall(r2, b), StoreCall(r1, b), StoreCall(r1, b)]
  {
    var insert, find := Fresh(req, InsertUser), Fresh(req, FindByEmail);
    var merge, done := Fresh(req, BindMerged(usr)), Fresh(req, Done(Ok(usr)));
    var bind1 := Running(req, BindNew(usr), Some(usr.id), false);
    var cleaning, failed := bind1.(pc := CleanUp(usr, true)), bind1.(pc := Done(Err(AlreadyExists)));
    var last := db2.(users := db2.users[usr.id := db2.users[usr.id].(deletedAt := Some(b.now))]);
    FirstMoves(s, s.db, r1, insert, r2, find, c);
    SecondMoves(s, db1, r1, bind1, r2, find, c);
    SecondMoves(s, db1, r1, bind1, r2, merge, b);
    FirstMoves(s, db2, r1, bind1, r2, done, b);
    FirstMoves(s, db2, r1, cleaning, r2, done, b);
    t := Two(s, last, r1, failed, r2, done);
    events := [StoreCall(r1, c), StoreCall(r2, c), StoreCall(r2, b), StoreCall(r1, b), StoreCall(r1, b)];
    FiveEvents(Two(s, s.db, r1, insert, r2, find), StoreCall(r1, c), Two(s, db1, r1, bind1, r2, find),
               StoreCall(r2, c), Two(s, db1, r1, bind1, r2, merge), StoreCall(r2, b),
               Two(s, db2, r1, bind1, r2, done), StoreCall(r1, b), Two(s, db2, r1, cleaning, r2, done),
               StoreCall(r1, b), t);
  }

  /** From every state two overlapping first logins of one new identity with a new email can end so, without any
      failing call: one succeeds, and the clean-up of the other then deletes the user it succeeded with. */
  lemma OverlappingSignupsStrand(s: System, r1: nat, r2: nat, req: Request, user: string, id: string, now: int)
    returns (events: seq<Event>)
    requires Good(s) && r1 != r2 && r1 !in s.requests && r2 !in s.requests
    requires req.purpose.Login? && req.provider != "" && req.providerUserId != "" && !GoText.IsBlank(req.email)
    requires !Bound(s.db, req.provider, req.providerUserId) && !EmailTaken(s.db, req.email)
    requires user !in s.db.users && id !in s.db.identities
    ensures forall e :: e in events ==> e.Begin? || (e.StoreCall? && !e.call.fault)
    ensures var t := Run(s, events);
            && Succeeded(t, r2, user) && t.requests[r2].req == req
            && Binds(t.db, req.provider, req.providerUserId, user) && Stranded(t.db, user)
  {
    var before, middle := BothMiss(s, r1, r2, req, Call(false, user, now));
    var after, t := MergeThenCleanUp(s, r1, r2, req, user, id, now);
    events := before + after;
    RunSplits(s, before, after);
    assert forall e :: e in events <==> e in before || e in after;
  }

  // ---- binding to a user who is gone -----------------------------------------------------------------------

  lemma FailsToBind(db: Db, req: Request, usr: UserModel, now: int)
    requires IsLive(db, usr.id)
    ensures var run := Running(req, BindNew(usr), Some(usr.id), false);
            var cleaning := run.(pc := CleanUp(usr, false));
            && Advance(db, run, Call(true, "", now)) == (db, cleaning)
            && Advance(db, cleaning, Call(false, "", now))
                 == (db.(users := db.users[usr.id := db.users[usr.id].(deletedAt := Some(now))]),
                     run.(pc := Done(Err(Internal))))
  {
  }

  lemma CleanUpThenMerge(s: System, r1: nat, r2: nat, req: Request, db1: Db, db2: Db, db3: Db, usr: UserModel,
                         c: Call, b: Call, now: int) returns (events: seq<Event>, t: System)
    requires r1 != r2
    requires var bind1 := Running(req, BindNew(usr), Some(usr.id), false);
             var fail, ok := Call(true, "", now), Call(false, "", now);
             && Advance(s.db, Fresh(req, InsertUser), c) == (db1, bind1)
             && Advance(db1, Fresh(req, FindByEmail), c) == (db1, Fresh(req, BindMerged(usr)))
             && Advance(db1, bind1, fail) == (db1, bind1.(pc := CleanUp(usr, false)))
             && Advance(db1, bind1.(pc := CleanUp(usr, false)), ok) == (db2, bind1.(pc := Done(Err(Internal))))
             && Advance(db2, Fresh(req, BindMerged(usr)), b) == (db3, Fresh(req, Done(Ok(usr))))
    ensures Run(Two(s, s.db, r1, Fresh(req, InsertUser), r2, Fresh(req, FindByEmail)), events) == t
    ensures t.db == db3 && r2 in t.requests && t.requests[r2] == Fresh(req, Done(Ok(usr)))
    ensures events == [StoreCall(r1, c), StoreCall(r2, c), StoreCall(r1, Call(true, "", now)),
                       StoreCall(r1, Call(false, "", now)), StoreCall(r2, b)]
  {
    var insert, find, merge := Fresh(req, InsertUser), Fresh(req, FindByEmail), Fresh(req, BindMerged(usr));
    var done, bind1 := Fresh(req, Done(Ok(usr))), Running(req, BindNew(usr), Some(usr.id), false);
    var cleaning, failed := bind1.(pc := CleanUp(usr, false)), bind1.(pc := Done(Err(Internal)));
    var fail, ok := Call(true, "", now), Call(false, "", now);
    FirstMoves(s, s.db, r1, insert, r2, find, c);
    SecondMoves(s, db1, r1, bind1, r2, find, c);
    FirstMoves(s, db1, r1, bind1, r2, merge, fail);
    FirstMoves(s, db1, r1, cleaning, r2, merge, ok);
    SecondMoves(s, db2, r1, failed, r2, merge, b);
    t := Two(s, db3, r1, failed, r2, done);
    events := [StoreCall(r1, c), StoreCall(r2, c), StoreCall(r1, fail), StoreCall(r1, ok), StoreCall(r2, b)];
    FiveEvents(Two(s, s.db, r1, insert, r2, find), StoreCall(r1, c), Two(s, db1, r1, bind1, r2, find),
               StoreCall(r2, c), Two(s, db1, r1, bind1, r2, merge), StoreCall(r1, fail),
               Two(s, db1, r1, cleaning, r2, merge), StoreCall(r1, ok), Two(s, db2, r1, failed, r2, merge),
               StoreCall(r2, b), t);
  }

  lemma InsertedThenMerged(s: System, r1: nat, r2: nat, req: Request, user: string, id: string, now: int)
    returns (events: seq<Event>, t: System)
    requires Valid(s.db) && r1 != r2 && user !in s.db.users && id !in s.db.identities
    requires !Bound(s.db, req.provider, req.providerUserId) && !EmailTaken(s.db, req.email)
    ensures Run(Two(s, s.db, r1, Fresh(req, InsertUser), r2, Fresh(req, FindByEmail)), events) == t
    ensures Succeeded(t, r2, user) && t.requests[r2].req == req
    ensures Binds(t.db, req.provider, req.providerUserId, user) && Stranded(t.db, user)
  {
    var c, b := Call(false, user, now), Call(false, id, now);
    var (db1, bind1) := Advance(s.db, Fresh(req, InsertUser), c);
    InsertsNewRow(s.db, req, user, now);
    NewRowKeeps(s.db, user, db1.users[user]);
    var usr := ToModel(user, db1.users[user]);
    FindsByEmail(db1, req, c, user);
    FailsToBind(db1, req, usr, now);
    var db2 := db1.(users := db1.users[user := db1.users[user].(deletedAt := Some(now))]);
    assert !Bound(db2, req.provider, req.providerUserId);
    BindsIt(db2, req, Call(false, id, now), usr);
    var db3 := db2.(identities := db2.identities[id := Identity(user, req.provider, req.providerUserId)]);
    events, t := CleanUpThenMerge(s, r1, r2, req, db1, db2, db3, usr, c, b, now);
    assert id in t.db.identities && t.db.identities[id] == Identity(user, req.provider, req.providerUserId);
  }

  /** The other order: the first login fails to bind its new row and takes it back while the second is about to
      bind to it. The second binds to the deleted row, which the foreign key allows, and succeeds. */
  lemma MergeOntoDeletedRow(s: System, r1: nat, r2: nat, req: Request, user: string, id: string, now: int)
    returns (events: seq<Event>)
    requires Good(s) && r1 != r2 && r1 !in s.requests && r2 !in s.requests
    requires req.purpose.Login? && req.provider != "" && req.providerUserId != "" && !GoText.IsBlank(req.email)
    requires !Bound(s.db, req.provider, req.providerUserId) && !EmailTaken(s.db, req.email)
    requires user !in s.db.users && id !in s.db.identities
    ensures var t := Run(s, events);
            && Succeeded(t, r2, user) && t.requests[r2].req == req
            && Binds(t.db, req.provider, req.providerUserId, user) && Stranded(t.db, user)
  {
    var before, middle := BothMiss(s, r1, r2, req, Call(false, user, now));
    var after, t := InsertedThenMerged(s, r1, r2, req, user, id, now);
    events := before + after;
    RunSplits(s, before, after);
  }

  /** One request of the system and its tables. */
  function One(s: System, db: Db, r: nat, run: Running): System {
    System(db, s.requests[r := run])
  }

  lemma OneMoves(s: System, db: Db, r: nat, run: Running, c: Call, next: Db, later: Running)
    requires Advance(db, run, c) == (next, later)
    ensures Apply(One(s, db, r, run), StoreCall(r, c)) == One(s, next, r, later)
  {
    Moves(One(s, db, r, run), r, c, next, later);
    assert s.requests[r := run][r := later] == s.requests[r := later];
  }

  lemma DeletedIn(s: System, r: nat, run: Running, user: string, c: Call, next: Db)
    requires DeleteUser(s.db, user, c).0 == next
    ensures Apply(One(s, s.db, r, run), OtherDelete(user, c)) == One(s, next, r, run)
  {
  }

  lemma DeletedBeforeBind(s: System, r: nat, req: Request, usr: UserModel, db1: Db, db2: Db, c: Call)
    returns (events: seq<Event>, t: System)
    requires Start(req) == Fresh(req, Lookup) && DeleteUser(s.db, usr.id, c).0 == db1 && r !in s.requests
    requires Advance(s.db, Fresh(req, Lookup), c) == (s.db, Fresh(req, FindByEmail))
    requires Advance(s.db, Fresh(req, FindByEmail), c) == (s.db, Fresh(req, BindMerged(usr)))
    requires Advance(db1, Fresh(req, BindMerged(usr)), c) == (db2, Fresh(req, Done(Ok(usr))))
    ensures events == [Begin(r, req), StoreCall(r, c), StoreCall(r, c), OtherDelete(usr.id, c), StoreCall(r, c)]
    ensures Run(s, events) == t && t == One(s, db2, r, Fresh(req, Done(Ok(usr))))
  {
    var looking, merge, done := Fresh(req, FindByEmail), Fresh(req, BindMerged(usr)), Fresh(req, Done(Ok(usr)));
    OneMoves(s, s.db, r, Fresh(req, Lookup), c, s.db, looking);
    OneMoves(s, s.db, r, looking, c, s.db, merge);
    OneMoves(s, db1, r, merge, c, db2, done);
    DeletedIn(s, r, merge, usr.id, c, db1);
    t := One(s, db2, r, done);
    events := [Begin(r, req), StoreCall(r, c), StoreCall(r, c), OtherDelete(usr.id, c), StoreCall(r, c)];
    FiveEvents(s, Begin(r, req), One(s, s.db, r, Fresh(req, Lookup)), StoreCall(r, c), One(s, s.db, r, looking),
               StoreCall(r, c), One(s, s.db, r, merge), OtherDelete(usr.id, c), One(s, db1, r, merge),
               StoreCall(r, c), t);
  }

  /** Nor does it take a failing call or a second login: a user deleted between being found by email and being bound
      is stranded by a login that succeeds. */
  lemma DeletionDuringLoginStrands(s: System, r: nat, req: Request, user: string, id: string, now: int)
    returns (events: seq<Event>)
    requires Good(s) && r !in s.requests && Start(req) == Fresh(req, Lookup) && !GoText.IsBlank(req.email)
    requires !Bound(s.db, req.provider, req.providerUserId) && id !in s.db.identities
    requires IsLive(s.db, user) && s.db.users[user].email == req.email
    ensures var c := Call(false, id, now);
            events == [Begin(r, req), StoreCall(r, c), StoreCall(r, c), OtherDelete(user, c), StoreCall(r, c)]
    ensures Succeeded(Run(s, events), r, user) && Stranded(Run(s, events).db, user)
  {
    var c, usr := Call(false, id, now), ToModel(user, s.db.users[user]);
    LookupStep(s.db, Fresh(req, Lookup), c);
    FindsByEmail(s.db, req, c, user);
    var db1 := s.db.(users := s.db.users[user := s.db.users[user].(deletedAt := Some(now))]);
    assert !Bound(db1, req.provider, req.providerUserId);
    BindsIt(db1, req, Call(false, id, now), usr);
    var db2 := db1.(identities := db1.identities[id := Identity(user, req.provider, req.providerUserId)]);
    var t;
    events, t := DeletedBeforeBind(s, r, req, usr, db1, db2, c);
    assert id in t.db.identities && t.db.identities[id].userId == user;
  }
}
