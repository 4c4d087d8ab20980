/** ensureOAuthUser and LinkOAuthAccount as the service runs them: store objects written call by call.
    Each method is proved to be the protocol of OAuthLinking run without interference. */
module OAuthService {
  import opened Prelude
  import opened Directory
  import opened OAuthLinking
  import GoText

  /** The call with the ID that is used in place of the drawn one. */
  function WithID(id: string, c: Call): (r: Call)
    ensures id == "" ==> r == c
  {
    if GoText.IsBlank(id) then c else c.(uuid := id)
  }

  /** The two tables behind UserStore and ExternalIdentityStore. */
  class Stores {
    var users: map<string, User>
    var identities: map<string, Identity>

    ghost function View(): Db
      reads this
    {
      Db(users, identities)
    }

    ghost predicate Consistent()
      reads this
    {
      Valid(View())
    }

    method CreateUser(m: UserModel, c: Call) returns (r: Result<UserModel, StoreError>)
      requires Consistent()
      modifies this`users
      ensures (View(), r) == Directory.CreateUser(old(View()), m, c)
      ensures Consistent()
    {
      CreateUserKeeps(View(), m, c);
      GoText.BlankMeaning(m.id);
      if c.fault { return Err(ErrOther); }
      var id := if GoText.TrimSpace(m.id) == "" then c.uuid else m.id;
      if id in users || exists i | i in users :: users[i].email == m.email {
        return Err(ErrAlreadyExists);
      }
      users := users[id := User(m.email, m.hashedPassword, m.verificationHash, m.lastLoginAt, None)];
      return Ok(m.(id := id));
    }

    method GetByID(id: string, c: Call) returns (r: Result<UserModel, StoreError>)
      ensures r == Directory.GetByID(View(), id, c)
    {
      if c.fault { return Err(ErrOther); }
      if id !in users || users[id].deletedAt.Some? { return Err(ErrNotFound); }
      return Ok(ToModel(id, users[id]));
    }

    method GetByEmail(email: string, c: Call) returns (r: Result<UserModel, StoreError>)
      requires Consistent()
      ensures r == Directory.GetByEmail(View(), email, c)
    {
      if c.fault { return Err(ErrOther); }
      if id :| id in users && users[id].deletedAt.None? && users[id].email == email {
        assert IsLive(View(), id);
        return Ok(ToModel(id, users[id]));
      }
      return Err(ErrNotFound);
    }

    method Update(m: UserModel, c: Call) returns (error: Option<StoreError>)
      requires Consistent()
      modifies this`users
      ensures (View(), error) == UpdateUser(old(View()), m, c)
      ensures Consistent()
    {
      UpdateUserKeeps(View(), m, c);
      if c.fault { return Some(ErrOther); }
      if m.id !in users || users[m.id].deletedAt.Some? { return Some(ErrNotFound); }
      if exists i | i in users :: i != m.id && users[i].email == m.email { return Some(ErrAlreadyExists); }
      users := users[m.id := User(m.email, m.hashedPassword, m.verificationHash, m.lastLoginAt, None)];
      return None;
    }

    method Delete(id: string, c: Call) returns (error: Option<StoreError>)
      requires Consistent()
      modifies this`users
      ensures (View(), error) == DeleteUser(old(View()), id, c)
      ensures Consistent()
    {
      DeleteUserKeeps(View(), id, c);
      if c.fault { return Some(ErrOther); }
      if id !in users || users[id].deletedAt.Some? { return Some(ErrNotFound); }
      users := users[id := users[id].(deletedAt := Some(c.now))];
      return None;
    }

    /** An identity is stored under the ID it is given, or under a drawn one if that is blank. */
    method CreateIdentity(id: string, identity: Identity, c: Call) returns (error: Option<StoreError>)
      requires Consistent()
      modifies this`identities
      ensures (View(), error) == Directory.CreateIdentity(old(View()), identity, WithID(id, c))
      ensures Consistent()
    {
      CreateIdentityKeeps(View(), identity, WithID(id, c));
      var key := WithID(id, c).uuid;
      if c.fault { return Some(ErrOther); }
      if key in identities { return Some(ErrAlreadyExists); }
      if Bound(Db(users, identities), identity.provider, identity.providerUserId) { return Some(ErrAlreadyExists); }
      if identity.userId !in users { return Some(ErrOther); }
      identities := identities[key := identity];
      return None;
    }

    method GetByProviderID(provider: string, providerUserId: string, c: Call) returns (r: Result<Identity, StoreError>)
      requires Consistent()
      ensures r == Directory.GetByProviderID(View(), provider, providerUserId, c)
    {
      if c.fault { return Err(ErrOther); }
      if i :| i in identities && identities[i].provider == provider && identities[i].providerUserId == providerUserId {
        assert SameKey(identities[i], Identity("", provider, providerUserId));
        LookupIsExact(View(), provider, providerUserId, c, identities[i].userId);
        return Ok(identities[i]);
      }
      return Err(ErrNotFound);
    }

    /** Log in with a provider identity: find its user, else merge by email, else sign up. */
    method EnsureOAuthUser(req: Request, calls: seq<Call>) returns (r: Result<UserModel, Code>)
      requires Consistent() && req.purpose.Login? && |calls| >= 5
      modifies this
      ensures Consistent()
      ensures View() == Alone(old(View()), Start(req), calls).0
      ensures Alone(old(View()), Start(req), calls).1.pc == Done(r)
    {
      if req.providerUserId == "" { return Err(Internal); }
      if req.provider == "" { return Err(Internal); }
      ghost var run := Start(req);
      ghost var goal := Alone(View(), run, calls);

      var existing := GetByProviderID(req.provider, req.providerUserId, calls[0]);
      run := NextCall(View(), run, calls, 0, goal);
      match existing
      case Ok(identity) =>
        var usr := GetByID(identity.userId, calls[1]);
        run := NextCall(View(), run, calls, 1, goal);
        if usr.Err? { return Err(Internal); }
        r := UpdateEmailIfNeeded(usr.value, req, calls, run, goal);
      case Err(ErrNotFound) =>
        GoText.BlankMeaning(req.email);
        if GoText.TrimSpace(req.email) == "" { return Err(FailedPrecondition); }
        r := MergeOrSignUp(req, calls, run, goal);
      case Err(_) => r := Err(Internal);
    }

    method MergeOrSignUp(req: Request, calls: seq<Call>, ghost start: Running, ghost goal: (Db, Running))
      returns (r: Result<UserModel, Code>)
      requires Consistent() && |calls| >= 5 && start.req == req && start.pc == FindByEmail
      requires goal == Alone(View(), start, calls[1..])
      modifies this
      ensures Consistent() && View() == goal.0 && goal.1.pc == Done(r)
    {
      var byEmail := GetByEmail(req.email, calls[1]);
      ghost var run := NextCall(View(), start, calls, 1, goal);
      match byEmail
      case Ok(usr) => r := MergeByEmail(usr, req, calls, run, goal);
      case Err(ErrNotFound) => r := SignUp(req, calls, run, goal);
      case Err(_) => r := Err(Internal);
    }

    method UpdateEmailIfNeeded(usr: UserModel, req: Request, calls: seq<Call>, ghost run: Running,
                               ghost goal: (Db, Running))
      returns (r: Result<UserModel, Code>)
      requires Consistent() && |calls| >= 5 && run.req == req
      requires run.pc == AfterFetchLinked(req, Ok(usr))
      requires goal == Alone(View(), run, calls[2..])
      modifies this`users
      ensures Consistent() && View() == goal.0 && goal.1.pc == Done(r)
    {
      var changed := usr;
      if changed.email == req.email || req.email == "" { return Ok(changed); }
      changed := changed.(email := req.email);
      ghost var before := View();
      var error := Update(changed, calls[2]);
      ghost var over := NextCall(before, run, calls, 2, goal);
      if error.Some? { return Err(Internal); }
      return Ok(changed);
    }

    method MergeByEmail(usr: UserModel, req: Request, calls: seq<Call>, ghost start: Running, ghost goal: (Db, Running))
      returns (r: Result<UserModel, Code>)
      requires Consistent() && |calls| >= 5 && start.req == req && start.pc == BindMerged(usr)
      requires goal == Alone(View(), start, calls[2..])
      modifies this`identities
      ensures Consistent() && View() == goal.0 && goal.1.pc == Done(r)
    {
      ghost var before := View();
      var error := CreateIdentity("", Identity(usr.id, req.provider, req.providerUserId), calls[2]);
      ghost var run := NextCall(before, start, calls, 2, goal);
      if error == Some(ErrAlreadyExists) {
        var refetched := GetByProviderID(req.provider, req.providerUserId, calls[3]);
        run := NextCall(View(), run, calls, 3, goal);
        if refetched.Err? { return Err(Internal); }
        if refetched.value.userId == usr.id { return Ok(usr); }
        return Err(AlreadyExists);
      }
      if error.Some? { return Err(Internal); }
      return Ok(usr);
    }

    method SignUp(req: Request, calls: seq<Call>, ghost start: Running, ghost goal: (Db, Running))
      returns (r: Result<UserModel, Code>)
      requires Consistent() && |calls| >= 5 && start.req == req && start.pc == InsertUser
      requires goal == Alone(View(), start, calls[2..])
      modifies this
      ensures Consistent() && View() == goal.0 && goal.1.pc == Done(r)
    {
      ghost var before := View();
      var created := CreateUser(NewUser(req.email), calls[2]);
      ghost var run := NextCall(before, start, calls, 2, goal);
      if created.Err? {
        return Err(if created.error == ErrAlreadyExists then AlreadyExists else Internal);
      }
      r := BindNewUser(created.value, req, calls, run, goal);
    }

    /** Bind the new user, or take its row back. */
    method BindNewUser(usr: UserModel, req: Request, calls: seq<Call>, ghost start: Running, ghost goal: (Db, Running))
      returns (r: Result<UserModel, Code>)
      requires Consistent() && |calls| >= 5 && start.req == req && start.pc == BindNew(usr)
      requires goal == Alone(View(), start, calls[3..])
      modifies this
      ensures Consistent() && View() == goal.0 && goal.1.pc == Done(r)
    {
      ghost var before := View();
      var error := CreateIdentity("", Identity(usr.id, req.provider, req.providerUserId), calls[3]);
      ghost var run := NextCall(before, start, calls, 3, goal);
      if error.Some? {
        var isConflict := error == Some(ErrAlreadyExists);
        before := View();
        var deleteError := Delete(usr.id, calls[4]);
        run := NextCall(before, run, calls, 4, goal);
        return Err(if isConflict then AlreadyExists else Internal);
      }
      return Ok(usr);
    }

    /** Link a provider identity to the user the access token names. */
    method LinkOAuthAccount(req: Request, calls: seq<Call>) returns (r: Result<UserModel, Code>)
      requires Consistent() && req.purpose.Link? && |calls| >= 5
      modifies this`identities
      ensures Consistent()
      ensures View() == Alone(old(View()), Start(req), calls).0
      ensures Alone(old(View()), Start(req), calls).1.pc == Done(r)
    {
      ghost var run := Start(req);
      ghost var goal := Alone(View(), run, calls);
      var bindingUser := GetByID(req.purpose.userId, calls[0]);
      run := NextCall(View(), run, calls, 0, goal);
      if bindingUser == Err(ErrNotFound) { return Err(NotFound); }
      if bindingUser.Err? { return Err(Internal); }
      if req.providerUserId == "" { return Err(Internal); }
      r := LinkToUser(bindingUser.value, req, calls, run, goal);
    }

    method LinkToUser(usr: UserModel, req: Request, calls: seq<Call>, ghost start: Running, ghost goal: (Db, Running))
      returns (r: Result<UserModel, Code>)
      requires Consistent() && |calls| >= 5 && start.req == req && start.pc == LookupLink(usr)
      requires goal == Alone(View(), start, calls[1..])
      modifies this`identities
      ensures Consistent() && View() == goal.0 && goal.1.pc == Done(r)
    {
      var found := GetByProviderID(req.provider, req.providerUserId, calls[1]);
      ghost var run := NextCall(View(), start, calls, 1, goal);
      match found
      case Ok(identity) =>
        if identity.userId != usr.id { return Err(AlreadyExists); }
        return Ok(usr);
      case Err(ErrNotFound) => r := BindToUser(usr, req, calls, run, goal);
      case Err(_) => return Err(Internal);
    }

    method BindToUser(usr: UserModel, req: Request, calls: seq<Call>, ghost start: Running, ghost goal: (Db, Running))
      returns (r: Result<UserModel, Code>)
      requires Consistent() && |calls| >= 5 && start.req == req && start.pc == BindLink(usr)
      requires goal == Alone(View(), start, calls[2..])
      modifies this`identities
      ensures Consistent() && View() == goal.0 && goal.1.pc == Done(r)
    {
      ghost var before := View();
      var error := CreateIdentity("", Identity(usr.id, req.provider, req.providerUserId), calls[2]);
      ghost var run := NextCall(before, start, calls, 2, goal);
      if error == Some(ErrAlreadyExists) {
        var existing := GetByProviderID(req.provider, req.providerUserId, calls[3]);
        run := NextCall(View(), run, calls, 3, goal);
        if existing.Err? { return Err(Internal); }
        if existing.value.userId != usr.id { return Err(AlreadyExists); }
        return Ok(usr);
      }
      if error.Some? { return Err(Internal); }
      return Ok(usr);
    }
  }

  /** The protocol state after call k, and the fact that the run still ends where it was going to. */
  lemma NextCall(db: Db, run: Running, calls: seq<Call>, k: nat, goal: (Db, Running)) returns (later: Running)
    requires k < |calls| && !run.pc.Done? && goal == Alone(db, run, calls[k..])
    ensures later == Advance(db, run, calls[k]).1
    ensures goal == Alone(Advance(db, run, calls[k]).0, later, calls[k + 1..])
    ensures later.pc.Done? ==> goal == (Advance(db, run, calls[k]).0, later)
  {
    later := Advance(db, run, calls[k]).1;
    assert calls[k..][0] == calls[k] && calls[k..][1..] == calls[k + 1..];
  }
}
