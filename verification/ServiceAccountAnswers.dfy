/** Which service-account RPCs and bootstraps succeed, what they change, and why the others are refused. */
module ServiceAccountAnswers {
  import opened Prelude
  import opened ServiceAccounts
  import opened ServiceAccountRuns
  import GoText
  import Scopes

  // ---- who may ask --------------------------------------------------------------------------------------

  /** The RPC carries the service token of an account that can be read, is not disabled and may manage accounts. */
  ghost predicate Authorized(db: Db, sid: Option<string>, env: Env) {
    sid.Some? && !env.readFails && Manager(db, sid.value)
  }

  /** The refusals that come before everything else. */
  ghost predicate RefusedFirst(db: Db, sid: Option<string>, env: Env, r: Result<string, Code>) {
    Authorized(db, sid, env)
    || r == Err(if sid.None? || env.readFails || !IsActive(db, sid.value) then Unauthenticated else PermissionDenied)
  }

  lemma ActorExactly(db: Db, sid: Option<string>, env: Env)
    ensures RefusedFirst(db, sid, env, Actor(db, sid, env))
    ensures Authorized(db, sid, env) ==> Actor(db, sid, env) == Ok(sid.value)
  {
  }

  /** A success appends its row to the log, unless that is lost. */
  predicate Logged(db: Db, next: Db, actor: string, action: Action, resource: string, env: Env) {
    next.audit == if env.auditFails then db.audit else db.audit + [AuditRow(actor, action, resource)]
  }

  // ---- creation -----------------------------------------------------------------------------------------

  predicate WellFormed(name: string, scopes: seq<string>) {
    && GoText.TrimSpace(name) != "" && GoText.ByteLength(GoText.TrimSpace(name)) <= 128
    && scopes != [] && Scopes.AllMatch(Scopes.Trimmed(scopes))
  }

  ghost predicate AccountFree(db: Db, clientId: string, name: string) {
    clientId !in db.accounts && forall a :: a in db.accounts ==> db.accounts[a].name != name
  }

  ghost predicate CredentialFree(db: Db, ids: Ids) {
    ids.credentialId !in db.credentials
    && forall c :: c in db.credentials ==> db.credentials[c].secretHash != ids.secretHash
  }

  lemma NormalizedExactly(scopes: seq<string>)
    ensures var r := Scopes.Normalized(scopes);
            && (r.Ok? <==> scopes != [] && Scopes.AllMatch(Scopes.Trimmed(scopes)))
            && (r.Ok? ==> IsTrimmedList(scopes, r.value))
  {
    Scopes.CollectMeaning(scopes);
    if scopes != [] && Scopes.CollectScopes(scopes).Ok? {
      assert scopes[0] in scopes;
      assert GoText.TrimSpace(scopes[0]) in Scopes.CollectScopes(scopes).value;
    }
  }

  lemma WellFormedRecord(name: string, scopes: seq<string>, ids: Ids, now: int)
    ensures var record := NewRecord(name, scopes, ids, now);
            if WellFormed(name, scopes) then
              && record.Ok? && IsTrimmedList(scopes, record.value.scopes)
              && record.value == Record(ids.clientId, GoText.TrimSpace(name), record.value.scopes, ids.credentialId,
                                        ids.secretHash, now)
            else record == Err(InvalidArgument)
  {
    NormalizedExactly(scopes);
  }

  /** The stored scopes: ascending, and exactly the trimmed ones of the request. */
  ghost predicate IsTrimmedList(scopes: seq<string>, stored: seq<string>) {
    && GoText.Ascending(stored)
    && forall s :: s in stored <==> s in Scopes.Trimmed(scopes)
  }

  /** Whether a creation on a free account and credential gets through its statements, and why not. */
  lemma CreateTxExactly(db: Db, r: Record, fault: Fault)
    ensures var ids := Ids(r.clientId, r.credentialId, r.secretHash);
            var error := CreateTx(db, r, fault).1;
            && (error.None? <==> fault !in {Some(0), Some(1), Some(2), Some(3)} && AccountFree(db, r.clientId, r.name)
                                 && CredentialFree(db, ids))
            && (error == Some(ErrAlreadyExists)
                <==> fault !in {Some(0), Some(1)}
                     && (!AccountFree(db, r.clientId, r.name) || (fault != Some(2) && !CredentialFree(db, ids))))
            && (error.Some? ==> error.value in {ErrStore, ErrAlreadyExists})
  {
    var db1 := db.(accounts := db.accounts[r.clientId := Account(r.name, r.scopes, r.createdAt, None)]);
    assert HashTaken(db1, r.secretHash) <==> HashTaken(db, r.secretHash);
  }

  /** A creation succeeds exactly for an authorised caller, an acceptable name and scope list, a name and IDs that are
      free, and a transaction that gets through. */
  ghost predicate CreateGoes(db: Db, sid: Option<string>, name: string, scopes: seq<string>, ids: Ids, env: Env) {
    && Authorized(db, sid, env) && WellFormed(name, scopes)
    && AccountFree(db, ids.clientId, GoText.TrimSpace(name)) && CredentialFree(db, ids)
    && env.fault !in {Some(0), Some(1), Some(2), Some(3)}
  }

  /** What a creation that succeeds leaves: the account with the trimmed name and scopes, and its one current
      credential; every other row stays. */
  ghost predicate CreatedAccount(db: Db, next: Db, name: string, scopes: seq<string>, ids: Ids, now: int) {
    && ids.clientId in next.accounts
    && var a := next.accounts[ids.clientId];
    && a == Account(GoText.TrimSpace(name), a.scopes, now, None) && IsTrimmedList(scopes, a.scopes)
    && next.accounts == db.accounts[ids.clientId := a] && ids.clientId !in db.accounts
    && next.credentials
         == db.credentials[ids.credentialId := Credential(ids.clientId, ids.secretHash, now, None, None)]
    && ids.credentialId !in db.credentials && next.systemState == db.systemState
  }

  lemma CreateSucceedsExactly(db: Db, sid: Option<string>, name: string, scopes: seq<string>, ids: Ids, env: Env)
    ensures var (next, r) := CreateRpc(db, sid, name, scopes, ids, env);
            && (r.Ok? <==> CreateGoes(db, sid, name, scopes, ids, env))
            && (r.Ok? ==> r.value == ids.clientId && CreatedAccount(db, next, name, scopes, ids, env.now)
                          && Logged(db, next, sid.value, CreateAction, ids.clientId, env))
            && (r.Err? ==> next == db)
  {
    ActorExactly(db, sid, env);
    WellFormedRecord(name, scopes, ids, env.now);
    var record := NewRecord(name, scopes, ids, env.now);
    if record.Ok? {
      CreateTxExactly(db, record.value, env.fault);
      CreateTxOutcome(db, record.value, env.fault);
    }
  }

  /** The words in the text of a store error that make the handler blame the request. */
  predicate BlamesRequest(text: string) {
    GoText.Contains(text, "required") || GoText.Contains(text, "invalid scope")
    || GoText.Contains(text, "must not exceed")
  }

  /** Why a creation is refused, in this order: the caller, the request, a name or ID that is taken, the store. */
  lemma CreateIsRefusedFor(db: Db, sid: Option<string>, name: string, scopes: seq<string>, ids: Ids, env: Env)
    ensures var r := CreateRpc(db, sid, name, scopes, ids, env).1;
            && RefusedFirst(db, sid, env, r)
            && (Authorized(db, sid, env) && !WellFormed(name, scopes) ==> r == Err(InvalidArgument))
            && (Authorized(db, sid, env) && WellFormed(name, scopes) && r.Err? ==>
                  var taken := !AccountFree(db, ids.clientId, GoText.TrimSpace(name))
                            || (env.fault != Some(2) && !CredentialFree(db, ids));
                  r.error == if env.fault !in {Some(0), Some(1)} && taken then AlreadyExists
                             else if BlamesRequest(env.errorText) then InvalidArgument else Internal)
  {
    ActorExactly(db, sid, env);
    WellFormedRecord(name, scopes, ids, env.now);
    var record := NewRecord(name, scopes, ids, env.now);
    if record.Ok? { CreateTxExactly(db, record.value, env.fault); }
  }

  lemma OnlyItsSecret(db: Db, next: Db, id: string, added: string, hash: string, wanted: string, now: int, at: int)
    requires forall c :: c in db.credentials ==> db.credentials[c].account in db.accounts
    requires id !in db.accounts && IsActive(next, id)
    requires next.credentials == db.credentials[added := Credential(id, hash, at, None, None)]
    ensures Authenticates(next, id, wanted, now) <==> wanted == hash
  {
    assert next.credentials[added].account == id;
  }

  /** The secret of a new account authenticates it, and nothing else does. */
  lemma NewAccountAuthenticates(db: Db, sid: Option<string>, name: string, scopes: seq<string>, ids: Ids, env: Env,
                                hash: string, now: int)
    requires Valid(db) && CreateRpc(db, sid, name, scopes, ids, env).1.Ok?
    ensures Authenticates(CreateRpc(db, sid, name, scopes, ids, env).0, ids.clientId, hash, now)
       <==> hash == ids.secretHash
  {
    var next := CreateRpc(db, sid, name, scopes, ids, env).0;
    CreateSucceedsExactly(db, sid, name, scopes, ids, env);
    OnlyItsSecret(db, next, ids.clientId, ids.credentialId, ids.secretHash, hash, now, env.now);
  }

  // ---- rotation -----------------------------------------------------------------------------------------

  lemma RotateTxExactly(db: Db, clientId: string, ids: Ids, now: int, fault: Fault)
    ensures var error := RotateTx(db, clientId, ids.credentialId, ids.secretHash, now, fault).1;
            && (error.None? <==> fault !in {Some(0), Some(1), Some(2), Some(3), Some(4)} && IsActive(db, clientId)
                                 && CredentialFree(db, ids))
            && (error == Some(ErrNotFound) <==> fault !in {Some(0), Some(1)} && !IsActive(db, clientId))
  {
    var revoked := RevokeAll(db.credentials, clientId, now);
    assert forall c :: c in revoked <==> c in db.credentials;
    assert forall c :: c in revoked ==> revoked[c].secretHash == db.credentials[c].secretHash;
  }

  ghost predicate RotateGoes(db: Db, sid: Option<string>, a: string, ids: Ids, env: Env) {
    && Authorized(db, sid, env) && a != "" && IsActive(db, a) && CredentialFree(db, ids)
    && env.fault !in {Some(0), Some(1), Some(2), Some(3), Some(4)}
  }

  /** The account has one current credential, the new one; all its others are revoked, and the credentials of others
      and every account stay as they are. */
  ghost predicate RotatedAccount(db: Db, next: Db, a: string, ids: Ids) {
    && (forall c :: Current(next, a, c) <==> c == ids.credentialId)
    && ids.credentialId in next.credentials && next.credentials[ids.credentialId].secretHash == ids.secretHash
    && next.credentials.Keys == db.credentials.Keys + {ids.credentialId}
    && (forall c :: c in db.credentials && db.credentials[c].account != a ==> next.credentials[c] == db.credentials[c])
    && next.accounts == db.accounts && next.systemState == db.systemState
  }

  lemma RotatedRows(db: Db, next: Db, a: string, ids: Ids, now: int)
    requires Rotated(db, next.(audit := db.audit), a, ids.credentialId, ids.secretHash, now)
    ensures RotatedAccount(db, next, a, ids)
  {
  }

  lemma RotateAsExactly(db: Db, actor: Result<string, Code>, a: string, ids: Ids, env: Env)
    requires actor.Ok?
    ensures var (next, r) := RotateAs(db, actor, a, ids, env);
            && (r.Ok? <==> a != "" && IsActive(db, a) && CredentialFree(db, ids)
                           && env.fault !in {Some(0), Some(1), Some(2), Some(3), Some(4)})
            && (r.Ok? ==> r.value == a && RotatedAccount(db, next, a, ids)
                          && Logged(db, next, actor.value, RotateAction, a, env))
            && (r.Err? ==> next == db)
            && (r.Err? ==> r.error == if a == "" then InvalidArgument
                                      else if env.fault !in {Some(0), Some(1)} && !IsActive(db, a) then NotFound
                                      else Internal)
  {
    RotateTxExactly(db, a, ids, env.now, env.fault);
    RotateOutcome(db, a, ids.credentialId, ids.secretHash, env.now, env.fault);
    var (next, r) := RotateAs(db, actor, a, ids, env);
    if r.Ok? { RotatedRows(db, next, a, ids, env.now); }
  }

  /** A rotation succeeds exactly for an authorised caller, an active account, a new credential and a transaction that
      gets through. Otherwise nothing changes. */
  lemma RotateSucceedsExactly(db: Db, sid: Option<string>, target: string, ids: Ids, env: Env)
    ensures var (next, r) := RotateRpc(db, sid, target, ids, env);
            && (r.Ok? <==> RotateGoes(db, sid, GoText.TrimSpace(target), ids, env))
            && (r.Ok? ==> r.value == GoText.TrimSpace(target) && RotatedAccount(db, next, r.value, ids)
                          && Logged(db, next, sid.value, RotateAction, r.value, env))
            && (r.Err? ==> next == db)
  {
    ActorExactly(db, sid, env);
    if Authorized(db, sid, env) { RotateAsExactly(db, Ok(sid.value), GoText.TrimSpace(target), ids, env); }
  }

  /** Why a rotation is refused. */
  lemma RotateIsRefusedFor(db: Db, sid: Option<string>, target: string, ids: Ids, env: Env)
    ensures var r, a := RotateRpc(db, sid, target, ids, env).1, GoText.TrimSpace(target);
            && RefusedFirst(db, sid, env, r)
            && (Authorized(db, sid, env) && r.Err? ==>
                  r.error == if a == "" then InvalidArgument
                             else if env.fault !in {Some(0), Some(1)} && !IsActive(db, a) then NotFound
                             else Internal)
  {
    ActorExactly(db, sid, env);
    if Authorized(db, sid, env) { RotateAsExactly(db, Ok(sid.value), GoText.TrimSpace(target), ids, env); }
  }

  lemma OnlyTheNewSecret(db: Db, next: Db, a: string, ids: Ids, hash: string, now: int)
    requires Valid(next) && RotatedAccount(db, next, a, ids) && IsActive(next, a)
    ensures Authenticates(next, a, hash, now) <==> hash == ids.secretHash
  {
    AuthenticatesExactly(next, a, hash, now);
    assert Current(next, a, ids.credentialId);
  }

  lemma StaysValid(db: Db, sid: Option<string>, target: string, ids: Ids, env: Env)
    requires Valid(db)
    ensures Valid(RotateRpc(db, sid, target, ids, env).0)
  {
    ApplyKeeps(db, Rotate(sid, target, ids, env));
  }

  /** From a rotation on, the account authenticates with the new secret only. */
  lemma RotatedAccountAuthenticates(db: Db, sid: Option<string>, target: string, ids: Ids, env: Env, hash: string,
                                    now: int)
    requires Valid(db) && RotateRpc(db, sid, target, ids, env).1.Ok?
    ensures Authenticates(RotateRpc(db, sid, target, ids, env).0, GoText.TrimSpace(target), hash, now)
       <==> hash == ids.secretHash
  {
    var a, next := GoText.TrimSpace(target), RotateRpc(db, sid, target, ids, env).0;
    RotateSucceedsExactly(db, sid, target, ids, env);
    StaysValid(db, sid, target, ids, env);
    OnlyTheNewSecret(db, next, a, ids, hash, now);
  }

  // ---- disabling ----------------------------------------------------------------------------------------

  /** The update of a disable takes effect. */
  ghost predicate DisableGoes(db: Db, sid: Option<string>, a: string, env: Env) {
    Authorized(db, sid, env) && a != "" && a != sid.value && IsActive(db, a) && env.fault != Some(0)
  }

  /** The account is disabled; nothing else has changed but the log. */
  ghost predicate DisabledAccount(db: Db, next: Db, a: string, now: int) {
    a in db.accounts
    && next == db.(accounts := db.accounts[a := db.accounts[a].(disabledAt := Some(now))], audit := next.audit)
  }

  lemma DisableAsExactly(db: Db, actor: Result<string, Code>, a: string, env: Env)
    requires actor.Ok?
    ensures var (next, r) := DisableAs(db, actor, a, env);
            var goes := a != "" && a != actor.value && IsActive(db, a) && env.fault != Some(0);
            && (r.Ok? <==> goes && env.fault != Some(1))
            && (r.Ok? ==> r.value == a && Logged(db, next, actor.value, DisableAction, a, env))
            && (r.Err? ==> next.audit == db.audit)
            && (if goes then DisabledAccount(db, next, a, env.now) else next == db)
            && (r.Err? ==> r.error == if a == "" then InvalidArgument
                                      else if a == actor.value then FailedPrecondition
                                      else if env.fault != Some(0) && !IsActive(db, a) then NotFound
                                      else Internal)
  {
  }

  /** A disable takes effect exactly when an authorised caller names another active account and the update goes
      through. It succeeds exactly when the read after the update does too. */
  lemma DisableSucceedsExactly(db: Db, sid: Option<string>, target: string, env: Env)
    ensures var (next, r) := DisableRpc(db, sid, target, env);
            var a := GoText.TrimSpace(target);
            && (r.Ok? <==> DisableGoes(db, sid, a, env) && env.fault != Some(1))
            && (r.Ok? ==> r.value == a && Logged(db, next, sid.value, DisableAction, a, env))
            && (r.Err? ==> next.audit == db.audit)
            && (if DisableGoes(db, sid, a, env) then DisabledAccount(db, next, a, env.now) else next == db)
  {
    ActorExactly(db, sid, env);
    if Authorized(db, sid, env) { DisableAsExactly(db, Ok(sid.value), GoText.TrimSpace(target), env); }
  }

  /** Why a disable is refused. */
  lemma DisableIsRefusedFor(db: Db, sid: Option<string>, target: string, env: Env)
    ensures var r, a := DisableRpc(db, sid, target, env).1, GoText.TrimSpace(target);
            && RefusedFirst(db, sid, env, r)
            && (Authorized(db, sid, env) && r.Err? ==>
                  r.error == if a == "" then InvalidArgument
                             else if a == sid.value then FailedPrecondition
                             else if env.fault != Some(0) && !IsActive(db, a) then NotFound
                             else Internal)
  {
    ActorExactly(db, sid, env);
    if Authorized(db, sid, env) { DisableAsExactly(db, Ok(sid.value), GoText.TrimSpace(target), env); }
  }

  // ---- bootstrap ----------------------------------------------------------------------------------------

  /** A bootstrap creates its account exactly when name, IDs and secret are free, bootstrap has not been completed or is
      forced, and none of its eight statements fails. A taken name is answered with its account where that is asked
      for. */
  lemma BootstrapExactly(db: Db, r: Record, ifNotExists: bool, force: bool, fault: Fault)
    requires Valid(db)
    ensures var (next, result) := BootstrapTx(db, r, ifNotExists, force, fault);
            var runs := forall i: nat :: i < 8 ==> fault != Some(i);
            && (result.Created?
                <==> runs && AccountFree(db, r.clientId, r.name)
                     && CredentialFree(db, Ids(r.clientId, r.credentialId, r.secretHash))
                     && (force || BOOTSTRAP_COMPLETED_KEY !in db.systemState))
            && (result.Created? ==> result.clientId == r.clientId && Inserted(db, next, r))
            && (result.Existing?
                <==> ifNotExists && NameTaken(db, r.name) && fault != Some(0) && fault != Some(1))
            && (result.Existing? ==> result.clientId in db.accounts && db.accounts[result.clientId].name == r.name)
  {
    BootstrapOutcome(db, r, ifNotExists, force, fault);
    InsertExactly(db, r, 3, fault);
  }

  lemma InsertExactly(db: Db, r: Record, at: nat, fault: Fault)
    ensures InsertServiceAccount(db, r, at, fault).1.None?
       <==> fault != Some(at) && fault != Some(at + 1) && AccountFree(db, r.clientId, r.name)
            && CredentialFree(db, Ids(r.clientId, r.credentialId, r.secretHash))
  {
    var db1 := db.(accounts := db.accounts[r.clientId := Account(r.name, r.scopes, r.createdAt, None)]);
    assert HashTaken(db1, r.secretHash) <==> HashTaken(db, r.secretHash);
  }
}
