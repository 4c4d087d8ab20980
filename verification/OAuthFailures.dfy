/** What OAuth requests that fail leave behind: exactly when a failed login changes the tables, and for how long. */
module OAuthFailures {
  import opened Prelude
  import opened Directory
  import opened OAuthLinking
  import GoText

  // ---- one request on its own ------------------------------------------------------------------------

  /** The request gets as far as inserting a user row: a login with an identity and an email that are both new,
      whose first three store calls go through. */
  predicate InsertsRow(db: Db, req: Request, calls: seq<Call>) {
    && req.purpose.Login? && req.provider != "" && req.providerUserId != "" && !GoText.IsBlank(req.email)
    && !Bound(db, req.provider, req.providerUserId)
    && |calls| > 2 && !calls[0].fault && !calls[1].fault && CanInsert(db, req.email, calls[2])
  }

  predicate CanInsert(db: Db, email: string, c: Call) {
    !c.fault && !EmailTaken(db, email) && c.uuid !in db.users
  }

  /** No insert lies ahead of these states. */
  predicate NoInsertAhead(pc: Pc) {
    !pc.Lookup? && !pc.FindByEmail? && !pc.InsertUser?
  }

  lemma StaysWithoutInsert(db: Db, run: Running, c: Call)
    requires NoInsertAhead(run.pc)
    ensures var later := Advance(db, run, c).1; NoInsertAhead(later.pc) && later.inserted == run.inserted
  {
  }

  lemma {:induction false} NothingInserted(db: Db, run: Running, calls: seq<Call>)
    requires NoInsertAhead(run.pc)
    ensures Alone(db, run, calls).1.inserted == run.inserted
    decreases |calls|
  {
    if calls != [] && !run.pc.Done? {
      var (next, later) := Advance(db, run, calls[0]);
      StaysWithoutInsert(db, run, calls[0]);
      NothingInserted(next, later, calls[1..]);
    }
  }

  /** A new row for a new email. */
  ghost predicate HasNewRow(db: Db, next: Db, email: string, user: string) {
    && user !in db.users && next.identities == db.identities
    && next.users == db.users[user := User(email, None, None, None, None)]
  }

  /** A user that was not given an ID gets the drawn one. */
  lemma DrawnID(db: Db, email: string, c: Call)
    ensures CreateUser(db, NewUser(email), c)
         == if c.fault then (db, Err(ErrOther))
            else if c.uuid in db.users || EmailTaken(db, email) then (db, Err(ErrAlreadyExists))
            else
              (db.(users := db.users[c.uuid := User(email, None, None, None, None)]),
               Ok(NewUser(email).(id := c.uuid)))
  {
  }

  lemma NewRow(db: Db, email: string, c: Call)
    ensures var (next, created) := CreateUser(db, NewUser(email), c);
            if CanInsert(db, email, c) then
              created == Ok(NewUser(email).(id := c.uuid)) && HasNewRow(db, next, email, c.uuid)
            else created.Err?
  {
    DrawnID(db, email, c);
  }

  lemma InsertStep(db: Db, run: Running, c: Call)
    requires run.pc.InsertUser? && run.inserted.None?
    ensures var (next, later) := Advance(db, run, c);
            && NoInsertAhead(later.pc)
            && if CanInsert(db, run.req.email, c) then
                 && later == run.(pc := BindNew(NewUser(run.req.email).(id := c.uuid)), inserted := Some(c.uuid))
                 && HasNewRow(db, next, run.req.email, c.uuid)
               else later.inserted.None?
  {
    NewRow(db, run.req.email, c);
    var created := CreateUser(db, NewUser(run.req.email), c).1;
    assert Advance(db, run, c).1.pc == AfterInsertUser(created);
  }

  lemma FindStep(db: Db, run: Running, c: Call)
    requires run.pc.FindByEmail? && run.inserted.None?
    ensures var (next, later) := Advance(db, run, c);
            && next == db && later == run.(pc := later.pc)
            && (later.pc.InsertUser? || NoInsertAhead(later.pc))
            && (c.fault ==> !later.pc.InsertUser?)
            && (!c.fault && !EmailTaken(db, run.req.email) ==> later.pc.InsertUser?)
  {
  }

  lemma LookupStep(db: Db, run: Running, c: Call)
    requires run.pc.Lookup? && run.inserted.None?
    ensures var (next, later) := Advance(db, run, c);
            && next == db && later == run.(pc := later.pc)
            && (later.pc.FindByEmail? || NoInsertAhead(later.pc))
            && (later.pc.FindByEmail? <==>
                  && !c.fault && !Bound(db, run.req.provider, run.req.providerUserId)
                  && !GoText.IsBlank(run.req.email))
  {
  }

  lemma InsertedFromInsert(db: Db, run: Running, calls: seq<Call>)
    requires run.pc.InsertUser? && run.inserted.None?
    ensures Alone(db, run, calls).1.inserted.Some? <==> calls != [] && CanInsert(db, run.req.email, calls[0])
  {
    if calls != [] {
      var (next, later) := Advance(db, run, calls[0]);
      InsertStep(db, run, calls[0]);
      NothingInserted(next, later, calls[1..]);
    }
  }

  lemma InsertedFromFind(db: Db, run: Running, calls: seq<Call>)
    requires run.pc.FindByEmail? && run.inserted.None?
    ensures Alone(db, run, calls).1.inserted.Some?
       <==> |calls| > 1 && !calls[0].fault && CanInsert(db, run.req.email, calls[1])
  {
    if calls != [] {
      var (next, later) := Advance(db, run, calls[0]);
      FindStep(db, run, calls[0]);
      if later.pc.InsertUser? {
        InsertedFromInsert(next, later, calls[1..]);
      } else {
        NothingInserted(next, later, calls[1..]);
      }
    }
  }

  lemma InsertedExactly(db: Db, req: Request, calls: seq<Call>)
    ensures Alone(db, Start(req), calls).1.inserted.Some? <==> InsertsRow(db, req, calls)
  {
    var run := Start(req);
    if run.pc.Lookup? && calls != [] {
      var (next, later) := Advance(db, run, calls[0]);
      LookupStep(db, run, calls[0]);
      if later.pc.FindByEmail? {
        InsertedFromFind(next, later, calls[1..]);
      } else {
        NothingInserted(next, later, calls[1..]);
      }
    } else {
      if !run.pc.Lookup? { NothingInserted(db, run, calls); }
    }
  }

  ghost predicate Fails(db: Db, req: Request, calls: seq<Call>) {
    var end := Alone(db, Start(req), calls).1; end.pc.Done? && end.pc.outcome.Err?
  }

  /** A request that runs alone and fails leaves the tables as they were exactly when it did not get as far as
      inserting a row. */
  lemma FailureRestoresTables(db: Db, req: Request, calls: seq<Call>)
    requires Fails(db, req, calls)
    ensures Alone(db, Start(req), calls).0 == db <==> !InsertsRow(db, req, calls)
  {
    AloneKeepsTrace(db, db, Start(req), calls);
    InsertedExactly(db, req, calls);
  }

  /** The three calls that lead to the inserted row. */
  lemma AfterThreeCalls(db: Db, req: Request, calls: seq<Call>) returns (mid: Db, run: Running)
    requires InsertsRow(db, req, calls)
    ensures Alone(db, Start(req), calls) == Alone(mid, run, calls[3..])
    ensures run.req == req && !run.cleanUpFailed && mid.identities == db.identities
    ensures run.pc == BindNew(NewUser(req.email).(id := calls[2].uuid)) && IsLive(mid, calls[2].uuid)
  {
    var (db1, run1) := Advance(db, Start(req), calls[0]);
    LookupStep(db, Start(req), calls[0]);
    var (db2, run2) := Advance(db1, run1, calls[1]);
    FindStep(db1, run1, calls[1]);
    mid, run := Advance(db2, run2, calls[2]).0, Advance(db2, run2, calls[2]).1;
    InsertStep(db2, run2, calls[2]);
    assert calls[1..][1..] == calls[2..] && calls[2..][1..] == calls[3..];
    assert calls[1..][0] == calls[1] && calls[2..][0] == calls[2];
    assert Alone(db2, run2, calls[2..]) == Alone(mid, run, calls[3..]);
    assert Alone(db1, run1, calls[1..]) == Alone(db2, run2, calls[2..]);
  }

  lemma BindFails(db: Db, run: Running, c: Call)
    requires run.pc.BindNew?
    ensures var (next, later) := Advance(db, run, c);
            if c.fault || c.uuid in db.identities || Bound(db, run.req.provider, run.req.providerUserId) then
              next == db && later.pc.CleanUp? && later.pc.usr == run.pc.usr && later == run.(pc := later.pc)
            else run.pc.usr.id in db.users ==> later.pc == Done(Ok(run.pc.usr))
  {
  }

  lemma CleanUpEnds(db: Db, run: Running, c: Call)
    requires run.pc.CleanUp? && IsLive(db, run.pc.usr.id)
    ensures var later := Advance(db, run, c).1;
            later.pc.Done? && later.pc.outcome.Err? && later.cleanUpFailed == c.fault
  {
  }

  lemma EndsAt(db: Db, run: Running, calls: seq<Call>)
    requires run.pc.Done?
    ensures Alone(db, run, calls) == (db, run)
  {
  }

  /** From the inserted row on: the request fails exactly when the binding does, and then its clean-up fails
      exactly when that call does. */
  lemma BindOrCleanUp(db: Db, run: Running, calls: seq<Call>)
    requires run.pc.BindNew? && IsLive(db, run.pc.usr.id) && |calls| > 1
    requires !Bound(db, run.req.provider, run.req.providerUserId)
    ensures var end := Alone(db, run, calls).1;
            && end.pc.Done?
            && (end.pc.outcome.Err? <==> calls[0].fault || calls[0].uuid in db.identities)
            && (end.pc.outcome.Err? ==> end.cleanUpFailed == calls[1].fault)
  {
    var (next, later) := Advance(db, run, calls[0]);
    BindFails(db, run, calls[0]);
    if later.pc.CleanUp? {
      var (last, end) := Advance(next, later, calls[1]);
      CleanUpEnds(next, later, calls[1]);
      assert calls[1..][0] == calls[1];
      EndsAt(last, end, calls[1..][1..]);
      assert Alone(next, later, calls[1..]) == (last, end);
    } else {
      EndsAt(next, later, calls[1..]);
    }
  }

  lemma TooFewCalls(db: Db, run: Running, calls: seq<Call>)
    requires run.pc.BindNew? && IsLive(db, run.pc.usr.id) && |calls| <= 1
    ensures var end := Alone(db, run, calls).1; !(end.pc.Done? && end.pc.outcome.Err?)
  {
    if calls != [] {
      BindFails(db, run, calls[0]);
      var (next, later) := Advance(db, run, calls[0]);
      assert calls[1..] == [] && Alone(next, later, []) == (next, later);
    }
  }

  lemma FailureTakesFiveCalls(db: Db, req: Request, calls: seq<Call>)
    requires InsertsRow(db, req, calls) && Fails(db, req, calls)
    ensures |calls| > 4
  {
    var mid, run := AfterThreeCalls(db, req, calls);
    if |calls| <= 4 { TooFewCalls(mid, run, calls[3..]); }
  }

  /** A request that got as far as inserting a row, with calls to finish, fails exactly when the insert of its
      identity does. */
  lemma InsertedRunFailsExactly(db: Db, req: Request, calls: seq<Call>)
    requires InsertsRow(db, req, calls) && |calls| > 4
    ensures Fails(db, req, calls) <==> calls[3].fault || calls[3].uuid in db.identities
    ensures Fails(db, req, calls) ==> Alone(db, Start(req), calls).1.cleanUpFailed == calls[4].fault
  {
    var mid, run := AfterThreeCalls(db, req, calls);
    assert calls[3..][0] == calls[3] && calls[3..][1] == calls[4];
    assert forall p, q :: Bound(mid, p, q) <==> Bound(db, p, q);
    BindOrCleanUp(mid, run, calls[3..]);
  }

  /** A failed request changes no binding, and it leaves the live users as they were exactly when it inserted no
      row or the call that takes the row back went through. */
  lemma FailureIsInvisible(db: Db, req: Request, calls: seq<Call>)
    requires Fails(db, req, calls)
    ensures InsertsRow(db, req, calls) ==> |calls| > 4
    ensures var after := Alone(db, Start(req), calls).0;
            && after.identities == db.identities
            && (LiveUsers(after) == LiveUsers(db) <==> !(InsertsRow(db, req, calls) && calls[4].fault))
  {
    AloneKeepsTrace(db, db, Start(req), calls);
    InsertedExactly(db, req, calls);
    if InsertsRow(db, req, calls) {
      FailureTakesFiveCalls(db, req, calls);
      InsertedRunFailsExactly(db, req, calls);
    }
    LiveUsersRestored(db, req, calls);
  }

  lemma OneRowMore(db: Db, after: Db, run: Running, live: bool)
    requires OnlyInserted(db, after, run, live)
    ensures LiveUsers(after) == LiveUsers(db) <==> !live
  {
    var id := run.inserted.value;
    if live {
      assert id in LiveUsers(after) && id !in LiveUsers(db);
    } else {
      assert forall x :: x in LiveUsers(after) <==> x in LiveUsers(db);
      assert LiveUsers(after) == LiveUsers(db);
    }
  }

  lemma LiveUsersRestored(db: Db, req: Request, calls: seq<Call>)
    requires Fails(db, req, calls)
    ensures var (after, end) := Alone(db, Start(req), calls);
            LiveUsers(after) == LiveUsers(db) <==> !(end.inserted.Some? && end.cleanUpFailed)
  {
    AloneKeepsTrace(db, db, Start(req), calls);
    var (after, end) := Alone(db, Start(req), calls);
    if end.inserted.Some? { OneRowMore(db, after, end, end.cleanUpFailed); }
  }

  /** A failed request takes an email that was free exactly when it inserted a row; the next signup with that email
      then fails. */
  lemma FailedSignupReservesItsEmail(db: Db, req: Request, calls: seq<Call>, m: UserModel, c: Call)
    requires Fails(db, req, calls) && m.email == req.email
    ensures var after := Alone(db, Start(req), calls).0;
            && (!EmailTaken(db, req.email) && EmailTaken(after, req.email) <==> InsertsRow(db, req, calls))
            && (InsertsRow(db, req, calls) ==> CreateUser(after, m, c).1.Err?)
  {
    AloneKeepsTrace(db, db, Start(req), calls);
    InsertedExactly(db, req, calls);
    var (after, end) := Alone(db, Start(req), calls);
    if end.inserted.Some? {
      assert end.inserted.value in after.users && after.users[end.inserted.value].email == req.email;
    }
  }

  /** The clean-up went through: the row is soft-deleted, and its email is taken for ever. */
  lemma EmailStaysReserved(db: Db, req: Request, calls: seq<Call>, s: System, events: seq<Event>, m: UserModel, c: Call)
    requires Fails(db, req, calls) && InsertsRow(db, req, calls) && |calls| > 4 && !calls[4].fault
    requires Good(s) && s.db == Alone(db, Start(req), calls).0 && m.email == req.email
    ensures EmailTaken(Run(s, events).db, req.email) && CreateUser(Run(s, events).db, m, c).1.Err?
  {
    AloneKeepsTrace(db, db, Start(req), calls);
    InsertedExactly(db, req, calls);
    InsertedRunFailsExactly(db, req, calls);
    var user := Alone(db, Start(req), calls).1.inserted.value;
    assert Run(s, []) == s && [] + events == events;
    DeletedRowsAreFrozen(s, [], events, user, user);
    var later := Run(s, events).db;
    assert user in later.users && later.users[user].email == req.email;
  }

  /** An email longer than all emails of the table. */
  lemma {:induction false} FreeEmail(users: map<string, User>) returns (email: string)
    ensures forall id :: id in users ==> |users[id].email| < |email|
    decreases |users|
  {
    if users == map[] {
      email := "";
    } else {
      var id :| id in users;
      var rest := users - {id};
      assert forall other :: other in users ==> other == id || (other in rest && rest[other] == users[other]);
      assert users.Keys == rest.Keys + {id};
      var long := FreeEmail(rest);
      email := long + users[id].email + "x";
    }
  }

  /** The clean-up failed: the row is live, and a later change of its email frees the one it was made with. */
  lemma EmailComesFree(db: Db, req: Request, calls: seq<Call>, s: System) returns (e: Event)
    requires Fails(db, req, calls) && InsertsRow(db, req, calls) && |calls| > 4 && calls[4].fault
    requires Good(s) && s.db == Alone(db, Start(req), calls).0
    ensures !EmailTaken(Run(s, [e]).db, req.email)
  {
    AloneKeepsTrace(db, db, Start(req), calls);
    InsertedExactly(db, req, calls);
    InsertedRunFailsExactly(db, req, calls);
    var user := Alone(db, Start(req), calls).1.inserted.value;
    var email := FreeEmail(s.db.users);
    e := OtherUpdate(UserModel(user, email, None, None, None), Call(false, "", 0));
    var next := Apply(s, e);
    assert [e][1..] == [] && Run(next, []) == next;
    assert forall id :: id in next.db.users ==> next.db.users[id].email != req.email by {
      assert |s.db.users[user].email| < |email|;
      assert forall id :: id in s.db.users && id != user ==> s.db.users[id].email != req.email;
    }
  }

  /** After a failed request that inserted a row its email is taken in every continuation of every run exactly when
      the clean-up went through. */
  lemma ReservedForEverExactly(db: Db, req: Request, calls: seq<Call>)
    requires Valid(db) && Fails(db, req, calls) && InsertsRow(db, req, calls) && |calls| > 4
    ensures (forall s, events :: Good(s) && s.db == Alone(db, Start(req), calls).0 ==>
               EmailTaken(Run(s, events).db, req.email))
       <==> !calls[4].fault
  {
    var after := Alone(db, Start(req), calls).0;
    if calls[4].fault {
      var s := System(after, map[]);
      AloneStaysValid(db, req, calls);
      assert Good(s);
      var e := EmailComesFree(db, req, calls, s);
      assert !EmailTaken(Run(s, [e]).db, req.email);
    } else {
      forall s, events | Good(s) && s.db == after ensures EmailTaken(Run(s, events).db, req.email) {
        EmailStaysReserved(db, req, calls, s, events, NewUser(req.email), calls[0]);
      }
    }
  }

  lemma {:induction false} AloneKeepsValid(db: Db, run: Running, calls: seq<Call>)
    requires Valid(db) && RequestOk(db, run)
    ensures Valid(Alone(db, run, calls).0)
    decreases |calls|
  {
    if calls != [] && !run.pc.Done? {
      AdvanceKeeps(db, run, calls[0]);
      var (next, later) := Advance(db, run, calls[0]);
      AloneKeepsValid(next, later, calls[1..]);
    }
  }

  lemma AloneStaysValid(db: Db, req: Request, calls: seq<Call>)
    requires Valid(db)
    ensures Valid(Alone(db, Start(req), calls).0)
  {
    AloneKeepsValid(db, Start(req), calls);
  }

  /** Such a run exists for every table and every login with a new identity and a new email: when the insert of
      the identity fails the login fails, and its row stays although the clean-up went through. */
  lemma FailedSignupLeavesItsRow(db: Db, req: Request, user: string, now: int) returns (calls: seq<Call>)
    requires req.purpose.Login? && req.provider != "" && req.providerUserId != "" && !GoText.IsBlank(req.email)
    requires !Bound(db, req.provider, req.providerUserId) && !EmailTaken(db, req.email) && user !in db.users
    ensures Fails(db, req, calls) && |calls| == 5 && forall i :: 0 <= i < 5 ==> calls[i].fault == (i == 3)
    ensures Alone(db, Start(req), calls).0 != db && LiveUsers(Alone(db, Start(req), calls).0) == LiveUsers(db)
    ensures EmailTaken(Alone(db, Start(req), calls).0, req.email)
  {
    var ok, bad := Call(false, user, now), Call(true, user, now);
    calls := [ok, ok, ok, bad, ok];
    assert InsertsRow(db, req, calls);
    InsertedRunFailsExactly(db, req, calls);
    FailureRestoresTables(db, req, calls);
    FailureIsInvisible(db, req, calls);
    FailedSignupReservesItsEmail(db, req, calls, NewUser(req.email), ok);
  }
}
