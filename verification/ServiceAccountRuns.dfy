/** The service-account RPCs and the bootstrap command, and what holds over whole runs of them. */
module ServiceAccountRuns {
  import opened Prelude
  import opened ServiceAccounts
  import GoText
  import Scopes

  /** What an RPC meets: the actor's row cannot be read, a statement fails, with a text of its own, the audit row
      is lost. */
  datatype Env = Env(readFails: bool, fault: Fault, auditFails: bool, now: int, errorText: string)

  /** The random values of a creation: IDs and the hash of the drawn secret. */
  datatype Ids = Ids(clientId: string, credentialId: string, secretHash: string)

  /** The record of a creation, if name and scopes are acceptable. */
  function NewRecord(name: string, scopes: seq<string>, ids: Ids, now: int): Result<Record, Code> {
    var trimmed := GoText.TrimSpace(name);
    if trimmed == "" || GoText.ByteLength(trimmed) > 128 then Err(InvalidArgument)
    else
      match Scopes.Normalized(scopes)
      case Err(_) => Err(InvalidArgument)
      case Ok(normalized) => Ok(Record(ids.clientId, trimmed, normalized, ids.credentialId, ids.secretHash, now))
  }

  /** The code of a failed creation. The handler tells errors of the request from those of the store by the words in
      their text. */
  function CreateCode(error: SaError, text: string): Code {
    if error == ErrAlreadyExists then AlreadyExists
    else if GoText.Contains(text, "required") || GoText.Contains(text, "invalid scope")
         || GoText.Contains(text, "must not exceed") then InvalidArgument
    else Internal
  }

  /** authorizeServiceAccount: the account named by a valid service token, read from its current row. */
  ghost function Authorize(db: Db, sid: Option<string>, required: string, readFails: bool): Result<string, Code> {
    if sid.None? || readFails || !IsActive(db, sid.value) then Err(Unauthenticated)
    else if Scopes.HasServiceScope(db.accounts[sid.value].scopes, required) then Ok(sid.value)
    else Err(PermissionDenied)
  }

  /** The actor of a management RPC. */
  ghost function Actor(db: Db, sid: Option<string>, env: Env): Result<string, Code> {
    Authorize(db, sid, Scopes.ACCOUNTS_MANAGE, env.readFails)
  }

  function RecordAudit(db: Db, actor: string, action: Action, resource: string, fails: bool): Db {
    if fails then db else db.(audit := db.audit + [AuditRow(actor, action, resource)])
  }

  /** What follows the authorisation of a creation, on the validated record. */
  function CreateAs(db: Db, actor: Result<string, Code>, record: Result<Record, Code>, env: Env)
    : (Db, Result<string, Code>)
  {
    if actor.Err? then (db, Err(actor.error))
    else if record.Err? then (db, Err(record.error))
    else
      var (next, error) := CreateTx(db, record.value, env.fault);
      if error.Some? then (next, Err(CreateCode(error.value, env.errorText)))
      else (RecordAudit(next, actor.value, CreateAction, record.value.clientId, env.auditFails),
        Ok(record.value.clientId))
  }

  function DisableAs(db: Db, actor: Result<string, Code>, clientId: string, env: Env): (Db, Result<string, Code>) {
    if actor.Err? then (db, Err(actor.error))
    else if clientId == "" then (db, Err(InvalidArgument))
    else if clientId == actor.value then (db, Err(FailedPrecondition))
    else
      var (next, error) := DisableStatement(db, clientId, env.now, env.fault);
      if error.Some? then (next, Err(if error.value == ErrNotFound then NotFound else Internal))
      else (RecordAudit(next, actor.value, DisableAction, clientId, env.auditFails), Ok(clientId))
  }

  function RotateAs(db: Db, actor: Result<string, Code>, clientId: string, ids: Ids, env: Env)
    : (Db, Result<string, Code>)
  {
    if actor.Err? then (db, Err(actor.error))
    else if clientId == "" then (db, Err(InvalidArgument))
    else
      var (next, error) := RotateTx(db, clientId, ids.credentialId, ids.secretHash, env.now, env.fault);
      if error.Some? then (next, Err(if error.value == ErrNotFound then NotFound else Internal))
      else (RecordAudit(next, actor.value, RotateAction, clientId, env.auditFails), Ok(clientId))
  }

  ghost function CreateRpc(db: Db, sid: Option<string>, name: string, scopes: seq<string>, ids: Ids, env: Env)
    : (Db, Result<string, Code>)
  {
    CreateAs(db, Actor(db, sid, env), NewRecord(name, scopes, ids, env.now), env)
  }

  ghost function DisableRpc(db: Db, sid: Option<string>, target: string, env: Env): (Db, Result<string, Code>) {
    DisableAs(db, Actor(db, sid, env), GoText.TrimSpace(target), env)
  }

  ghost function RotateRpc(db: Db, sid: Option<string>, target: string, ids: Ids, env: Env)
    : (Db, Result<string, Code>)
  {
    RotateAs(db, Actor(db, sid, env), GoText.TrimSpace(target), ids, env)
  }

  // ---- the handlers as they run --------------------------------------------------------------------

  class ManagementService {
    const store: ServiceAccountStore

    constructor (store: ServiceAccountStore)
      ensures this.store == store
    {
      this.store := store;
    }

    method AuthorizeServiceAccount(sid: Option<string>, required: string, readFails: bool)
      returns (r: Result<string, Code>)
      ensures r == Authorize(store.View(), sid, required, readFails)
    {
      if sid.None? || readFails { return Err(Unauthenticated); }
      if sid.value !in store.accounts || store.accounts[sid.value].disabledAt.Some? { return Err(Unauthenticated); }
      var granted := Scopes.CheckServiceScope(store.accounts[sid.value].scopes, required);
      if !granted { return Err(PermissionDenied); }
      return Ok(sid.value);
    }

    method RecordManagementAudit(actor: string, action: Action, resource: string, fails: bool)
      modifies store
      ensures store.View() == RecordAudit(old(store.View()), actor, action, resource, fails)
    {
      if !fails { store.audit := store.audit + [AuditRow(actor, action, resource)]; }
    }

    method CreateServiceAccount(sid: Option<string>, name: string, scopes: seq<string>, ids: Ids, env: Env)
      returns (r: Result<string, Code>)
      modifies store
      ensures (store.View(), r) == CreateRpc(old(store.View()), sid, name, scopes, ids, env)
    {
      var actor := AuthorizeServiceAccount(sid, Scopes.ACCOUNTS_MANAGE, env.readFails);
      if actor.Err? { return Err(actor.error); }
      var trimmed := GoText.TrimSpace(name);
      if trimmed == "" || GoText.ByteLength(trimmed) > 128 { return Err(InvalidArgument); }
      var normalized := Scopes.NormalizeScopes(scopes);
      if normalized.Err? { return Err(InvalidArgument); }
      var error := store.Create(
        Record(ids.clientId, trimmed, normalized.value, ids.credentialId, ids.secretHash, env.now), env.fault);
      if error.Some? { return Err(CreateCode(error.value, env.errorText)); }
      RecordManagementAudit(actor.value, CreateAction, ids.clientId, env.auditFails);
      return Ok(ids.clientId);
    }

    method DisableServiceAccount(sid: Option<string>, target: string, env: Env) returns (r: Result<string, Code>)
      modifies store
      ensures (store.View(), r) == DisableRpc(old(store.View()), sid, target, env)
    {
      var actor := AuthorizeServiceAccount(sid, Scopes.ACCOUNTS_MANAGE, env.readFails);
      if actor.Err? { return Err(actor.error); }
      var clientId := GoText.TrimSpace(target);
      if clientId == "" { return Err(InvalidArgument); }
      if clientId == actor.value { return Err(FailedPrecondition); }
      var error := store.Disable(clientId, env.now, env.fault);
      if error == Some(ErrNotFound) { return Err(NotFound); }
      if error.Some? { return Err(Internal); }
      RecordManagementAudit(actor.value, DisableAction, clientId, env.auditFails);
      return Ok(clientId);
    }

    method RotateServiceAccountSecret(sid: Option<string>, target: string, ids: Ids, env: Env)
      returns (r: Result<string, Code>)
      modifies store
      ensures (store.View(), r) == RotateRpc(old(store.View()), sid, target, ids, env)
    {
      var actor := AuthorizeServiceAccount(sid, Scopes.ACCOUNTS_MANAGE, env.readFails);
      if actor.Err? { return Err(actor.error); }
      var clientId := GoText.TrimSpace(target);
      if clientId == "" { return Err(InvalidArgument); }
      var error := store.RotateCredential(clientId, ids.credentialId, ids.secretHash, env.now, env.fault);
      if error == Some(ErrNotFound) { return Err(NotFound); }
      if error.Some? { return Err(Internal); }
      RecordManagementAudit(actor.value, RotateAction, clientId, env.auditFails);
      return Ok(clientId);
    }
  }

  // ---- runs ----------------------------------------------------------------------------------------

  datatype Event =
    | Create(sid: Option<string>, name: string, scopes: seq<string>, ids: Ids, env: Env)
    | Disable(sid: Option<string>, target: string, env: Env)
    | Rotate(sid: Option<string>, target: string, ids: Ids, env: Env)
    | Bootstrap(record: Record, ifNotExists: bool, force: bool, fault: Fault)
    | OtherManagement(actor: string, name: string, resource: string)

  /** A server start with a configured account: bootstrap, if it does not exist, never forced. */
  function Startup(record: Record, fault: Fault): Event {
    Bootstrap(record, true, false, fault)
  }

  ghost function Apply(db: Db, e: Event): Db {
    match e
    case Create(sid, name, scopes, ids, env) => CreateRpc(db, sid, name, scopes, ids, env).0
    case Disable(sid, target, env) => DisableRpc(db, sid, target, env).0
    case Rotate(sid, target, ids, env) => RotateRpc(db, sid, target, ids, env).0
    case Bootstrap(record, ifNotExists, force, fault) => BootstrapTx(db, record, ifNotExists, force, fault).0
    case OtherManagement(actor, name, resource) => RecordAudit(db, actor, OtherAction(name), resource, false)
  }

  ghost function Run(db: Db, events: seq<Event>): Db
    decreases |events|
  {
    if events == [] then db else Run(Apply(db, events[0]), events[1..])
  }

  lemma {:induction false} RunSplits(db: Db, before: seq<Event>, after: seq<Event>)
    ensures Run(db, before + after) == Run(Run(db, before), after)
    decreases |before|
  {
    if before == [] {
      assert before + after == after;
    } else {
      assert (before + after)[0] == before[0] && (before + after)[1..] == before[1..] + after;
      RunSplits(Apply(db, before[0]), before[1..], after);
    }
  }

  /** next is the state before a transaction, after it, or after it with audit rows appended. */
  ghost predicate AfterTx(db: Db, tx: Db, next: Db) {
    || next == db
    || (next == tx.(audit := next.audit) && tx.audit <= next.audit)
  }

  lemma AfterTxKeeps(db: Db, tx: Db, next: Db)
    requires Valid(db) && Valid(tx) && Extends(db, tx) && AfterTx(db, tx, next)
    ensures Valid(next) && Extends(db, next)
  {
    if next != db { SameAccountsAndCredentials(tx, next); }
  }

  lemma CreateOutcome(db: Db, actor: Result<string, Code>, record: Result<Record, Code>, env: Env)
    ensures if record.Ok? then AfterTx(db, CreateTx(db, record.value, env.fault).0, CreateAs(db, actor, record, env).0)
            else CreateAs(db, actor, record, env).0 == db
  {
  }

  lemma DisableOutcome(db: Db, actor: Result<string, Code>, clientId: string, env: Env)
    ensures AfterTx(db, DisableStatement(db, clientId, env.now, env.fault).0, DisableAs(db, actor, clientId, env).0)
  {
  }

  lemma RotateAsOutcome(db: Db, actor: Result<string, Code>, clientId: string, ids: Ids, env: Env)
    ensures AfterTx(db, RotateTx(db, clientId, ids.credentialId, ids.secretHash, env.now, env.fault).0,
                    RotateAs(db, actor, clientId, ids, env).0)
  {
  }

  /** The transaction an event runs on the account it names or the record it brings, without the audit row an RPC
      appends. */
  ghost function TxOf(db: Db, e: Event, clientId: string, record: Result<Record, Code>): Db {
    match e
    case Create(_, _, _, _, env) => if record.Ok? then CreateTx(db, record.value, env.fault).0 else db
    case Disable(_, _, env) => DisableStatement(db, clientId, env.now, env.fault).0
    case Rotate(_, _, ids, env) => RotateTx(db, clientId, ids.credentialId, ids.secretHash, env.now, env.fault).0
    case Bootstrap(record, ifNotExists, force, fault) => BootstrapTx(db, record, ifNotExists, force, fault).0
    case OtherManagement(_, _, _) => db
  }

  lemma ApplyIsTxAndAudit(db: Db, e: Event) returns (clientId: string, record: Result<Record, Code>)
    ensures AfterTx(db, TxOf(db, e, clientId, record), Apply(db, e))
    ensures e.Rotate? ==> clientId == GoText.TrimSpace(e.target)
  {
    clientId, record := "", Err(Internal);
    match e
    case Create(sid, name, scopes, ids, env) =>
      record := NewRecord(name, scopes, ids, env.now);
      CreateOutcome(db, Actor(db, sid, env), record, env);
    case Disable(sid, target, env) =>
      clientId := GoText.TrimSpace(target);
      DisableOutcome(db, Actor(db, sid, env), clientId, env);
    case Rotate(sid, target, ids, env) =>
      clientId := GoText.TrimSpace(target);
      RotateAsOutcome(db, Actor(db, sid, env), clientId, ids, env);
    case Bootstrap(_, _, _, _) =>
    case OtherManagement(_, _, _) =>
  }

  lemma TxKeeps(db: Db, e: Event, clientId: string, record: Result<Record, Code>)
    requires Valid(db)
    ensures Valid(TxOf(db, e, clientId, record)) && Extends(db, TxOf(db, e, clientId, record))
  {
    match e
    case Create(_, _, _, _, env) => if record.Ok? { CreateKeeps(db, record.value, env.fault); }
    case Disable(_, _, env) => DisableKeeps(db, clientId, env.now, env.fault);
    case Rotate(_, _, ids, env) =>
      RotateKeeps(db, clientId, ids.credentialId, ids.secretHash, env.now, env.fault);
    case Bootstrap(record, ifNotExists, force, fault) => BootstrapKeeps(db, record, ifNotExists, force, fault);
    case OtherManagement(_, _, _) =>
  }

  lemma ApplyKeeps(db: Db, e: Event)
    requires Valid(db)
    ensures Valid(Apply(db, e)) && Extends(db, Apply(db, e))
  {
    var clientId, record := ApplyIsTxAndAudit(db, e);
    TxKeeps(db, e, clientId, record);
    AfterTxKeeps(db, TxOf(db, e, clientId, record), Apply(db, e));
  }

  lemma {:induction false} RunKeeps(db: Db, events: seq<Event>)
    requires Valid(db)
    ensures Valid(Run(db, events)) && Extends(db, Run(db, events))
    decreases |events|
  {
    if events != [] {
      var next := Apply(db, events[0]);
      ApplyKeeps(db, events[0]);
      RunKeeps(next, events[1..]);
      ExtendsTransitive(db, next, Run(db, events));
    }
  }

  // ---- credentials ---------------------------------------------------------------------------------

  /** Over every run, with any transaction rolled back: an account has exactly one unrevoked credential,
      and authenticates exactly when it is not disabled and presents that credential's hash. */
  lemma OneCredentialAuthenticates(db: Db, events: seq<Event>, a: string, hash: string, now: int)
    requires Valid(db) && a in Run(db, events).accounts
    ensures exists c ::
              var s := Run(db, events);
              && Current(s, a, c)
              && (forall d :: Current(s, a, d) ==> d == c)
              && (Authenticates(s, a, hash, now)
                  <==> s.accounts[a].disabledAt.None? && s.credentials[c].secretHash == hash)
  {
    RunKeeps(db, events);
    var s := Run(db, events);
    AuthenticatesExactly(s, a, hash, now);
    var c :| Current(s, a, c) && forall d :: Current(s, a, d) ==> d == c;
  }

  /** A credential that has stopped being current never authenticates anyone again: its hash stays in
      the table, revoked, and no other row can ever take it. */
  lemma RotatedOutHashIsDead(db: Db, before: seq<Event>, middle: seq<Event>, after: seq<Event>,
                             a: string, c: string, anyone: string, now: int)
    requires Valid(db)
    requires Current(Run(db, before), a, c) && !Current(Run(db, before + middle), a, c)
    ensures !Authenticates(Run(db, before + middle + after), anyone, Run(db, before).credentials[c].secretHash, now)
  {
    var s1, s2, s3 := Run(db, before), Run(db, before + middle), Run(db, before + middle + after);
    RunSplits(db, before, middle);
    RunSplits(db, before + middle, after);
    RunKeeps(db, before);
    RunKeeps(s1, middle);
    RunKeeps(s2, after);
    assert s2.credentials[c].revokedAt.Some?;
    assert s3.credentials[c] == s2.credentials[c];
    AuthenticatesExactly(s3, anyone, s1.credentials[c].secretHash, now);
  }

  /** Rotations of other accounts, creations, disables, bootstraps and restarts leave a credential
      current: only a rotation naming its own account revokes it. */
  lemma {:induction false} CredentialSurvives(db: Db, events: seq<Event>, a: string, c: string)
    requires Valid(db) && Current(db, a, c)
    requires forall e :: e in events && e.Rotate? ==> GoText.TrimSpace(e.target) != a
    ensures Current(Run(db, events), a, c)
    decreases |events|
  {
    if events != [] {
      assert events[0] in events;
      var next := Apply(db, events[0]);
      ApplyKeeps(db, events[0]);
      CredentialSurvivesStep(db, events[0], a, c);
      CredentialSurvives(next, events[1..], a, c);
    }
  }

  lemma CredentialSurvivesStep(db: Db, e: Event, a: string, c: string)
    requires Current(db, a, c)
    requires e.Rotate? ==> GoText.TrimSpace(e.target) != a
    ensures Current(Apply(db, e), a, c)
  {
    var clientId, record := ApplyIsTxAndAudit(db, e);
    CredentialSurvivesTx(db, e, clientId, record, a, c);
  }

  lemma CredentialSurvivesTx(db: Db, e: Event, clientId: string, record: Result<Record, Code>, a: string, c: string)
    requires Current(db, a, c) && (e.Rotate? ==> clientId != a)
    ensures Current(TxOf(db, e, clientId, record), a, c)
  {
    match e
    case Create(_, _, _, _, env) => if record.Ok? { CreationSparesOthers(db, record.value, env.fault, a, c); }
    case Disable(_, _, env) => DisableSparesCredentials(db, clientId, env.now, env.fault);
    case Rotate(_, _, ids, env) =>
      RotationSparesOthers(db, clientId, ids.credentialId, ids.secretHash, env.now, env.fault, a, c);
    case Bootstrap(record, ifNotExists, force, fault) => BootstrapOutcome(db, record, ifNotExists, force, fault);
    case OtherManagement(_, _, _) =>
  }

  lemma CreationSparesOthers(db: Db, r: Record, fault: Fault, a: string, c: string)
    requires Current(db, a, c)
    ensures Current(CreateTx(db, r, fault).0, a, c)
  {
    CreateTxOutcome(db, r, fault);
  }

  lemma DisableSparesCredentials(db: Db, clientId: string, now: int, fault: Fault)
    ensures DisableStatement(db, clientId, now, fault).0.credentials == db.credentials
  {
  }

  lemma RotationSparesOthers(db: Db, clientId: string, credentialId: string, hash: string, now: int, fault: Fault,
                             a: string, c: string)
    requires Current(db, a, c) && clientId != a
    ensures Current(RotateTx(db, clientId, credentialId, hash, now, fault).0, a, c)
  {
    RotateOutcome(db, clientId, credentialId, hash, now, fault);
  }

  // ---- somebody can always manage --------------------------------------------------------------------

  /** An active account whose scopes let it manage service accounts. */
  ghost predicate Manager(db: Db, a: string) {
    IsActive(db, a) && Scopes.HasServiceScope(db.accounts[a].scopes, Scopes.ACCOUNTS_MANAGE)
  }

  lemma OtherEventsKeepActive(db: Db, e: Event, a: string)
    requires Valid(db) && !e.Disable? && IsActive(db, a)
    ensures IsActive(Apply(db, e), a)
  {
    var clientId, record := ApplyIsTxAndAudit(db, e);
    match e
    case Create(_, _, _, _, env) => if record.Ok? { CreateTxOutcome(db, record.value, env.fault); }
    case Rotate(_, _, ids, env) =>
      RotateOutcome(db, clientId, ids.credentialId, ids.secretHash, env.now, env.fault);
    case Bootstrap(record, ifNotExists, force, fault) => BootstrapOutcome(db, record, ifNotExists, force, fault);
    case OtherManagement(_, _, _) =>
  }

  lemma ActorIsAManager(db: Db, sid: Option<string>, env: Env)
    requires Actor(db, sid, env).Ok?
    ensures sid == Some(Actor(db, sid, env).value) && Manager(db, sid.value)
  {
  }

  lemma DisableSparesOthers(db: Db, actor: Result<string, Code>, clientId: string, env: Env)
    requires DisableAs(db, actor, clientId, env).0 != db
    ensures actor.Ok? && actor.value != clientId
    ensures var next := DisableAs(db, actor, clientId, env).0;
            forall a :: a in db.accounts && a != clientId ==> a in next.accounts && next.accounts[a] == db.accounts[a]
  {
  }

  /** A disable that changes anything was ordered by an active manager other than its target. */
  lemma DisablerRemains(db: Db, sid: Option<string>, target: string, env: Env)
    requires DisableRpc(db, sid, target, env).0 != db
    ensures sid.Some? && Manager(db, sid.value) && Manager(DisableRpc(db, sid, target, env).0, sid.value)
    ensures forall a :: IsActive(db, a) && a != GoText.TrimSpace(target) ==>
        IsActive(DisableRpc(db, sid, target, env).0, a)
  {
    DisableSparesOthers(db, Actor(db, sid, env), GoText.TrimSpace(target), env);
    ActorIsAManager(db, sid, env);
  }

  lemma StepKeepsAManager(db: Db, e: Event, a: string)
    requires Valid(db) && Manager(db, a)
    ensures exists b :: Manager(Apply(db, e), b)
  {
    ApplyKeeps(db, e);
    if e.Disable? {
      if Apply(db, e) == db { assert Manager(Apply(db, e), a); }
      else { DisablerRemains(db, e.sid, e.target, e.env); assert Manager(Apply(db, e), e.sid.value); }
    } else {
      OtherEventsKeepActive(db, e, a);
      assert Manager(Apply(db, e), a);
    }
  }

  lemma ACurrentCredential(db: Db, a: string) returns (c: string)
    requires Valid(db) && a in db.accounts
    ensures Current(db, a, c)
  {
    assert ExactlyOneCurrent(db, a);
    c :| Current(db, a, c);
  }

  lemma {:induction false} AManagerRemains(db: Db, events: seq<Event>, a: string) returns (b: string)
    requires Valid(db) && Manager(db, a)
    ensures Manager(Run(db, events), b)
    decreases |events|
  {
    if events == [] {
      b := a;
    } else {
      ApplyKeeps(db, events[0]);
      StepKeepsAManager(db, events[0], a);
      var next :| Manager(Apply(db, events[0]), next);
      b := AManagerRemains(Apply(db, events[0]), events[1..], next);
    }
  }

  /** Once some active account can manage service accounts, one always can, and it always has a
      credential to get a token with, as long as RPCs do not overlap. */
  lemma SomebodyCanAlwaysManage(db: Db, events: seq<Event>, a: string)
    requires Valid(db) && Manager(db, a)
    ensures exists b, c :: Manager(Run(db, events), b) && Current(Run(db, events), b, c)
  {
    var b := AManagerRemains(db, events, a);
    RunKeeps(db, events);
    var c := ACurrentCredential(Run(db, events), b);
  }

  // ---- bootstrap -------------------------------------------------------------------------------------

  /** How many accounts the unforced bootstraps of a run created. */
  ghost function UnforcedCreations(db: Db, events: seq<Event>): nat
    decreases |events|
  {
    if events == [] then 0
    else
      var e := events[0];
      var created := e.Bootstrap? && BootstrapTx(db, e.record, e.ifNotExists, e.force, e.fault).1.Created?;
      (if created && !e.force then 1 else 0)
      + UnforcedCreations(Apply(db, e), events[1..])
  }

  /** However often the server restarts or an operator bootstraps, unforced bootstrap creates at most one
      account, and none once the marker is set; the marker is never removed. */
  lemma {:induction false} UnforcedBootstrapHappensOnce(db: Db, events: seq<Event>)
    requires Valid(db)
    ensures UnforcedCreations(db, events) <= (if BOOTSTRAP_COMPLETED_KEY in db.systemState then 0 else 1)
    ensures BOOTSTRAP_COMPLETED_KEY in db.systemState ==> BOOTSTRAP_COMPLETED_KEY in Run(db, events).systemState
    decreases |events|
  {
    if events != [] {
      var e, next := events[0], Apply(db, events[0]);
      ApplyKeeps(db, e);
      if e.Bootstrap? {
        BootstrapIsAllOrNothing(db, e.record, e.ifNotExists, e.force, e.fault);
      }
      UnforcedBootstrapHappensOnce(next, events[1..]);
    }
  }

  /** A server start whose account name exists changes nothing, so any number of restarts in a row after
      the first leave every table, and with it a rotated credential, as they are. */
  lemma {:induction false} RestartsChangeNothing(db: Db, starts: seq<Event>, name: string)
    requires NameTaken(db, name)
    requires forall e :: e in starts ==> e.Bootstrap? && e.record.name == name && e == Startup(e.record, e.fault)
    ensures Run(db, starts) == db
    decreases |starts|
  {
    if starts != [] {
      assert starts[0] in starts;
      BootstrapIsAllOrNothing(db, starts[0].record, true, false, starts[0].fault);
      RestartsChangeNothing(db, starts[1..], name);
    }
  }

  // ---- the audit log -----------------------------------------------------------------------------------

  predicate Creates(row: AuditRow) {
    row.action.BootstrapAction? || row.action.CreateAction?
  }

  /** The accounts the log says were created, in whatever order it is read. */
  function CreatedIn(audit: seq<AuditRow>): set<string> {
    set row | row in audit && Creates(row) :: row.resource
  }

  function DisabledIn(audit: seq<AuditRow>): set<string> {
    set row | row in audit && row.action.DisableAction? :: row.resource
  }

  /** How many credentials the log says an account was given. */
  function CredentialsIn(audit: seq<AuditRow>, a: string): nat {
    if audit == [] then 0
    else
      var row := audit[|audit| - 1];
      CredentialsIn(audit[..|audit| - 1], a) + Given(row, a)
  }

  function Disabled(accounts: map<string, Account>): set<string> {
    set a | a in accounts && accounts[a].disabledAt.Some?
  }

  function RowsOf(credentials: map<string, Credential>, a: string): set<string> {
    set c | c in credentials && credentials[c].account == a
  }

  /** Replaying the log rebuilds who exists, who is disabled and how many credential rows each has. */
  ghost predicate AuditExplains(db: Db) {
    && CreatedIn(db.audit) == db.accounts.Keys
    && DisabledIn(db.audit) == Disabled(db.accounts)
    && forall a :: CredentialsIn(db.audit, a) == |RowsOf(db.credentials, a)|
  }

  /** No audit row is lost and no disable fails after its update. */
  predicate Audited(e: Event) {
    match e
    case Create(_, _, _, _, env) => !env.auditFails
    case Disable(_, _, env) => !env.auditFails && env.fault != Some(1)
    case Rotate(_, _, _, env) => !env.auditFails
    case _ => true
  }

  lemma AppendToSets(audit: seq<AuditRow>, row: AuditRow)
    ensures CreatedIn(audit + [row]) == CreatedIn(audit) + (if Creates(row) then {row.resource} else {})
    ensures DisabledIn(audit + [row]) == DisabledIn(audit) + (if row.action.DisableAction? then {row.resource} else {})
  {
    assert forall r :: r in audit + [row] <==> r in audit || r == row;
  }

  /** The credentials one row gives an account. */
  function Given(row: AuditRow, a: string): nat {
    if row.resource == a && (Creates(row) || row.action.RotateAction?) then 1 else 0
  }

  lemma AppendToCount(audit: seq<AuditRow>, row: AuditRow, a: string)
    ensures CredentialsIn(audit + [row], a) == CredentialsIn(audit, a) + Given(row, a)
  {
    assert (audit + [row])[..|audit + [row]| - 1] == audit;
  }

  /** A step is explained by the row it appends. */
  ghost predicate ExplainedBy(db: Db, next: Db, row: AuditRow) {
    && next.audit == db.audit + [row]
    && next.accounts.Keys == db.accounts.Keys + (if Creates(row) then {row.resource} else {})
    && Disabled(next.accounts) == Disabled(db.accounts) + (if row.action.DisableAction? then {row.resource} else {})
    && forall a :: |RowsOf(next.credentials, a)| == |RowsOf(db.credentials, a)| + Given(row, a)
  }

  lemma RowExplains(db: Db, next: Db, row: AuditRow)
    requires AuditExplains(db) && ExplainedBy(db, next, row)
    ensures AuditExplains(next)
  {
    AppendToSets(db.audit, row);
    forall a ensures CredentialsIn(next.audit, a) == |RowsOf(next.credentials, a)| {
      AppendToCount(db.audit, row, a);
    }
  }

  lemma OneMore(was: set<string>, next: set<string>, added: string, grows: bool)
    requires added !in was && forall x :: x in next <==> x in was || (grows && x == added)
    ensures |next| == |was| + (if grows then 1 else 0)
  {
    if grows { assert next == was + {added}; } else { assert next == was; }
  }

  /** One more credential row for one account. */
  lemma AddCredentialRow(was: map<string, Credential>, next: map<string, Credential>, id: string, owner: string,
                         a: string)
    requires id !in was && next.Keys == was.Keys + {id} && next[id].account == owner
    requires forall c :: c in was ==> next[c].account == was[c].account
    ensures |RowsOf(next, a)| == |RowsOf(was, a)| + (if a == owner then 1 else 0)
  {
    var before, after := RowsOf(was, a), RowsOf(next, a);
    forall c ensures c in after <==> c in before || (a == owner && c == id) {
      assert c in next.Keys <==> c in was.Keys || c == id;
    }
    OneMore(before, after, id, a == owner);
  }

  lemma InsertedExplained(db: Db, next: Db, r: Record, row: AuditRow)
    requires Inserted(db, next, r) && Creates(row) && row.resource == r.clientId && next.audit == db.audit + [row]
    ensures ExplainedBy(db, next, row)
  {
    assert Disabled(next.accounts) == Disabled(db.accounts);
    forall a ensures |RowsOf(next.credentials, a)| == |RowsOf(db.credentials, a)| + Given(row, a) {
      AddCredentialRow(db.credentials, next.credentials, r.credentialId, r.clientId, a);
    }
  }

  lemma RotatedExplained(db: Db, next: Db, clientId: string, credentialId: string, hash: string, now: int,
                         row: AuditRow)
    requires Rotated(db, next.(audit := db.audit), clientId, credentialId, hash, now)
    requires row.action.RotateAction? && row.resource == clientId && next.audit == db.audit + [row]
    ensures ExplainedBy(db, next, row)
  {
    assert Disabled(next.accounts) == Disabled(db.accounts);
    forall a ensures |RowsOf(next.credentials, a)| == |RowsOf(db.credentials, a)| + Given(row, a) {
      AddCredentialRow(db.credentials, next.credentials, credentialId, clientId, a);
    }
  }

  lemma MarkedDisabled(db: Db, next: Db, clientId: string)
    requires clientId in db.accounts && next.accounts.Keys == db.accounts.Keys
    requires next.accounts[clientId].disabledAt.Some?
    requires forall a :: a in db.accounts && a != clientId ==> next.accounts[a] == db.accounts[a]
    ensures Disabled(next.accounts) == Disabled(db.accounts) + {clientId}
  {
    assert forall a :: a in next.accounts <==> a in db.accounts;
  }

  lemma DisabledExplained(db: Db, next: Db, clientId: string, now: int, row: AuditRow)
    requires IsActive(db, clientId) && row.action.DisableAction? && row.resource == clientId
    requires next == db.(accounts := db.accounts[clientId := db.accounts[clientId].(disabledAt := Some(now))],
                         audit := db.audit + [row])
    ensures ExplainedBy(db, next, row)
  {
    MarkedDisabled(db, next, clientId);
  }

  lemma OtherRowExplained(db: Db, row: AuditRow)
    requires row.action.OtherAction?
    ensures ExplainedBy(db, db.(audit := db.audit + [row]), row)
  {
  }

  lemma CreateExplained(db: Db, actor: Result<string, Code>, record: Result<Record, Code>, env: Env)
    requires AuditExplains(db) && !env.auditFails
    ensures AuditExplains(CreateAs(db, actor, record, env).0)
  {
    var (next, r) := CreateAs(db, actor, record, env);
    if record.Ok? { CreateTxOutcome(db, record.value, env.fault); }
    if r.Ok? {
      var row := AuditRow(actor.value, CreateAction, r.value);
      InsertedExplained(db, next, record.value, row);
      RowExplains(db, next, row);
    } else {
      assert next == db;
    }
  }

  /** The disable goes through, but the read of the row after it fails. */
  predicate DisabledUnread(db: Db, actor: Result<string, Code>, clientId: string, env: Env) {
    env.fault == Some(1) && actor.Ok? && clientId != "" && clientId != actor.value && IsActive(db, clientId)
  }

  lemma DisableChanges(db: Db, actor: Result<string, Code>, clientId: string, env: Env)
    requires !env.auditFails
    ensures var (next, r) := DisableAs(db, actor, clientId, env);
            if r.Ok? then
              && actor.Ok? && IsActive(db, clientId) && !DisabledUnread(db, actor, clientId, env)
              && next == db.(accounts := db.accounts[clientId := db.accounts[clientId].(disabledAt := Some(env.now))],
                             audit := db.audit + [AuditRow(actor.value, DisableAction, clientId)])
            else if DisabledUnread(db, actor, clientId, env) then
              next.audit == db.audit && clientId in next.accounts && !IsActive(next, clientId) && r == Err(Internal)
            else next == db
  {
  }

  /** A disable stays explained by the log exactly when the read after its update does not fail. When it
      does, the account is disabled, the caller gets an error and no audit row is written. */
  lemma DisableExplainedExactly(db: Db, actor: Result<string, Code>, clientId: string, env: Env)
    requires AuditExplains(db) && !env.auditFails
    ensures var (next, r) := DisableAs(db, actor, clientId, env);
            && (AuditExplains(next) <==> !DisabledUnread(db, actor, clientId, env))
            && (DisabledUnread(db, actor, clientId, env) ==>
                  r == Err(Internal) && !IsActive(next, clientId) && next.audit == db.audit)
  {
    var (next, r) := DisableAs(db, actor, clientId, env);
    DisableChanges(db, actor, clientId, env);
    if r.Ok? {
      var row := AuditRow(actor.value, DisableAction, clientId);
      DisabledExplained(db, next, clientId, env.now, row);
      RowExplains(db, next, row);
    } else if DisabledUnread(db, actor, clientId, env) {
      assert clientId in Disabled(next.accounts) && clientId !in Disabled(db.accounts);
    }
  }

  lemma RotateExplained(db: Db, actor: Result<string, Code>, clientId: string, ids: Ids, env: Env)
    requires AuditExplains(db) && !env.auditFails
    ensures AuditExplains(RotateAs(db, actor, clientId, ids, env).0)
  {
    var (next, r) := RotateAs(db, actor, clientId, ids, env);
    RotateOutcome(db, clientId, ids.credentialId, ids.secretHash, env.now, env.fault);
    if r.Ok? {
      var row := AuditRow(actor.value, RotateAction, clientId);
      RotatedExplained(db, next, clientId, ids.credentialId, ids.secretHash, env.now, row);
      RowExplains(db, next, row);
    } else {
      assert next == db;
    }
  }

  lemma StepExplained(db: Db, e: Event)
    requires AuditExplains(db) && Audited(e)
    ensures AuditExplains(Apply(db, e))
  {
    match e
    case Create(sid, name, scopes, ids, env) =>
      CreateExplained(db, Actor(db, sid, env), NewRecord(name, scopes, ids, env.now), env);
    case Disable(sid, target, env) => DisableExplainedExactly(db, Actor(db, sid, env), GoText.TrimSpace(target), env);
    case Rotate(sid, target, ids, env) => RotateExplained(db, Actor(db, sid, env), GoText.TrimSpace(target), ids, env);
    case Bootstrap(record, ifNotExists, force, fault) =>
      BootstrapOutcome(db, record, ifNotExists, force, fault);
      var (next, result) := BootstrapTx(db, record, ifNotExists, force, fault);
      if result.Created? {
        var row := AuditRow("bootstrap", BootstrapAction, record.clientId);
        InsertedExplained(db, next, record, row);
        RowExplains(db, next, row);
      }
    case OtherManagement(actor, name, resource) =>
      var row := AuditRow(actor, OtherAction(name), resource);
      OtherRowExplained(db, row);
      RowExplains(db, Apply(db, e), row);
  }

  /** Replaying the audit log of any run in which no audit row was lost and no disable failed after its
      update rebuilds exactly the accounts, the disabled ones and the number of credential rows of each. */
  lemma {:induction false} AuditLogReplays(db: Db, events: seq<Event>)
    requires AuditExplains(db) && forall e :: e in events ==> Audited(e)
    ensures AuditExplains(Run(db, events))
    decreases |events|
  {
    if events != [] {
      assert events[0] in events;
      StepExplained(db, events[0]);
      AuditLogReplays(Apply(db, events[0]), events[1..]);
    }
  }
}
