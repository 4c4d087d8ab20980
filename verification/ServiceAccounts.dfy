/** The service-account tables and the transactions over them. A transaction may fail at any of its
    statements, its commit included, and is then rolled back. */
module ServiceAccounts {
  import opened Prelude

  const BOOTSTRAP_COMPLETED_KEY: string := "service_account_bootstrap_completed"

  datatype Account = Account(name: string, scopes: seq<string>, createdAt: int, disabledAt: Option<int>)

  datatype Credential = Credential(account: string, secretHash: string, createdAt: int, expiresAt: Option<int>,
    revokedAt: Option<int>)

  datatype Action = BootstrapAction | CreateAction | DisableAction | RotateAction | OtherAction(name: string)

  /** An audit row; resource is the ID of the service account or other object acted upon. */
  datatype AuditRow = AuditRow(actor: string, action: Action, resource: string)

  datatype Db = Db(
    accounts: map<string, Account>,
    credentials: map<string, Credential>,
    systemState: map<string, string>,
    audit: seq<AuditRow>)

  /** Everything one account creation writes; only the hash of the secret reaches the store. */
  datatype Record = Record(clientId: string, name: string, scopes: seq<string>, credentialId: string,
    secretHash: string, createdAt: int)

  datatype SaError = ErrAlreadyExists | ErrBootstrapCompleted | ErrNotFound | ErrStore

  /** The statement of a transaction that fails, counted from BEGIN, or none. */
  type Fault = Option<nat>

  predicate NameTaken(db: Db, name: string) {
    exists id | id in db.accounts :: db.accounts[id].name == name
  }

  predicate HashTaken(db: Db, hash: string) {
    exists c | c in db.credentials :: db.credentials[c].secretHash == hash
  }

  function InsertCredential(db: Db, id: string, account: string, hash: string, now: int): (Db, Option<SaError>) {
    if id in db.credentials || HashTaken(db, hash) then (db, Some(ErrAlreadyExists))
    else if account !in db.accounts then (db, Some(ErrStore))
    else (db.(credentials := db.credentials[id := Credential(account, hash, now, None, None)]), None)
  }

  /** insertServiceAccount: the account row, then its credential row, as statements at and at + 1. */
  function InsertServiceAccount(db: Db, r: Record, at: nat, fault: Fault): (Db, Option<SaError>) {
    if fault == Some(at) then (db, Some(ErrStore))
    else if r.clientId in db.accounts || NameTaken(db, r.name) then (db, Some(ErrAlreadyExists))
    else
      var db1 := db.(accounts := db.accounts[r.clientId := Account(r.name, r.scopes, r.createdAt, None)]);
      if fault == Some(at + 1) then (db1, Some(ErrStore))
      else InsertCredential(db1, r.credentialId, r.clientId, r.secretHash, r.createdAt)
  }

  function CreateTx(db: Db, r: Record, fault: Fault): (Db, Option<SaError>) {
    if fault == Some(0) then (db, Some(ErrStore))
    else
      var (next, error) := InsertServiceAccount(db, r, 1, fault);
      if error.Some? then (db, error)
      else if fault == Some(3) then (db, Some(ErrStore))
      else (next, None)
  }

  predicate IsActive(db: Db, id: string) {
    id in db.accounts && db.accounts[id].disabledAt.None?
  }

  /** UPDATE service_account_credentials SET revoked_at WHERE account = ? AND revoked_at IS NULL. */
  function RevokeAll(credentials: map<string, Credential>, account: string, now: int): map<string, Credential> {
    map c | c in credentials ::
      if credentials[c].account == account && credentials[c].revokedAt.None? then
        credentials[c].(revokedAt := Some(now))
      else credentials[c]
  }

  function RotateTx(db: Db, clientId: string, credentialId: string, hash: string, now: int, fault: Fault)
    : (Db, Option<SaError>)
  {
    if fault == Some(0) || fault == Some(1) then (db, Some(ErrStore))
    else if !IsActive(db, clientId) then (db, Some(ErrNotFound))
    else if fault == Some(2) then (db, Some(ErrStore))
    else
      var revoked := db.(credentials := RevokeAll(db.credentials, clientId, now));
      if fault == Some(3) then (db, Some(ErrStore))
      else
        var (next, error) := InsertCredential(revoked, credentialId, clientId, hash, now);
        if error.Some? then (db, error)
        else if fault == Some(4) then (db, Some(ErrStore))
        else (next, None)
  }

  /** Disable is one UPDATE and then a read of the row, which may fail after the update is durable. */
  function DisableStatement(db: Db, clientId: string, now: int, fault: Fault): (Db, Option<SaError>) {
    if fault == Some(0) then (db, Some(ErrStore))
    else if !IsActive(db, clientId) then (db, Some(ErrNotFound))
    else
      (db.(accounts := db.accounts[clientId := db.accounts[clientId].(disabledAt := Some(now))]),
       if fault == Some(1) then Some(ErrStore) else None)
  }

  /** The account the bootstrap answers with: a new one, or the one that already has the name. */
  datatype Bootstrapped = Created(clientId: string) | Existing(clientId: string) | Failed(error: SaError)

  ghost function BootstrapTx(db: Db, r: Record, ifNotExists: bool, force: bool, fault: Fault): (Db, Bootstrapped) {
    if fault == Some(0) || fault == Some(1) then (db, Failed(ErrStore))
    else if NameTaken(db, r.name) then
      var id :| id in db.accounts && db.accounts[id].name == r.name;
      (db, if ifNotExists then Existing(id) else Failed(ErrAlreadyExists))
    else if fault == Some(2) then (db, Failed(ErrStore))
    else if BOOTSTRAP_COMPLETED_KEY in db.systemState && !force then (db, Failed(ErrBootstrapCompleted))
    else
      var (next, error) := InsertServiceAccount(db, r, 3, fault);
      if error.Some? then (db, Failed(error.value))
      else if fault == Some(5) || fault == Some(6) || fault == Some(7) then (db, Failed(ErrStore))
      else
        (next.(systemState := next.systemState[BOOTSTRAP_COMPLETED_KEY := r.clientId],
               audit := next.audit + [AuditRow("bootstrap", BootstrapAction, r.clientId)]),
         Created(r.clientId))
  }

  predicate Authenticates(db: Db, clientId: string, hash: string, now: int) {
    && clientId in db.accounts
    && db.accounts[clientId].disabledAt.None?
    && exists c | c in db.credentials ::
         && db.credentials[c].account == clientId
         && db.credentials[c].secretHash == hash
         && db.credentials[c].revokedAt.None?
         && (db.credentials[c].expiresAt.None? || db.credentials[c].expiresAt.value > now)
  }

  // ---- what the tables keep ----------------------------------------------------------------------

  /** c is an unrevoked credential of account a. */
  predicate Current(db: Db, a: string, c: string) {
    c in db.credentials && db.credentials[c].account == a && db.credentials[c].revokedAt.None?
  }

  ghost predicate ExactlyOneCurrent(db: Db, a: string) {
    exists c :: Current(db, a, c) && forall d :: Current(db, a, d) ==> d == c
  }

  ghost predicate NamesDistinct(db: Db) {
    forall a, b :: a in db.accounts && b in db.accounts && db.accounts[a].name == db.accounts[b].name ==> a == b
  }

  ghost predicate HashesDistinct(db: Db) {
    DistinctIn(db.credentials)
  }

  ghost predicate DistinctIn(credentials: map<string, Credential>) {
    forall c, d :: c in credentials && d in credentials && credentials[c].secretHash == credentials[d].secretHash
      ==> c == d
  }

  ghost predicate Valid(db: Db) {
    && NamesDistinct(db)
    && HashesDistinct(db)
    && (forall c :: c in db.credentials ==>
          db.credentials[c].account in db.accounts && db.credentials[c].expiresAt.None?)
    && (forall a {:trigger ExactlyOneCurrent(db, a)} :: a in db.accounts ==> ExactlyOneCurrent(db, a))
  }

  /** What no transaction undoes. */
  ghost predicate Extends(old_: Db, new_: Db) {
    && (forall a :: a in old_.accounts ==>
          && a in new_.accounts
          && new_.accounts[a].name == old_.accounts[a].name
          && new_.accounts[a].scopes == old_.accounts[a].scopes
          && (old_.accounts[a].disabledAt.Some? ==> new_.accounts[a] == old_.accounts[a]))
    && (forall c :: c in old_.credentials ==>
          && c in new_.credentials
          && new_.credentials[c].account == old_.credentials[c].account
          && new_.credentials[c].secretHash == old_.credentials[c].secretHash
          && (old_.credentials[c].revokedAt.Some? ==> new_.credentials[c] == old_.credentials[c]))
    && old_.systemState.Keys <= new_.systemState.Keys
    && old_.audit <= new_.audit
  }

  lemma ExtendsTransitive(a: Db, b: Db, c: Db)
    requires Extends(a, b) && Extends(b, c)
    ensures Extends(a, c)
  {
  }

  lemma SameCurrent(db: Db, next: Db, a: string)
    requires ExactlyOneCurrent(db, a)
    requires forall c :: Current(next, a, c) <==> Current(db, a, c)
    ensures ExactlyOneCurrent(next, a)
  {
    var c :| Current(db, a, c) && forall d :: Current(db, a, d) ==> d == c;
    assert Current(next, a, c);
  }

  lemma OnlyCurrent(db: Db, a: string, c: string)
    requires Current(db, a, c) && forall d :: Current(db, a, d) ==> d == c
    ensures ExactlyOneCurrent(db, a)
  {
  }

  lemma NewHashStaysDistinct(credentials: map<string, Credential>, id: string, added: Credential)
    requires DistinctIn(credentials)
    requires forall c :: c in credentials ==> credentials[c].secretHash != added.secretHash
    ensures DistinctIn(credentials[id := added])
  {
  }

  /** The account row and its credential row, both new. */
  ghost predicate Inserted(db: Db, next: Db, r: Record) {
    && r.clientId !in db.accounts && r.credentialId !in db.credentials
    && (forall a :: a in db.accounts ==> db.accounts[a].name != r.name)
    && (forall c :: c in db.credentials ==> db.credentials[c].secretHash != r.secretHash)
    && next.accounts == db.accounts[r.clientId := Account(r.name, r.scopes, r.createdAt, None)]
    && next.credentials
         == db.credentials[r.credentialId := Credential(r.clientId, r.secretHash, r.createdAt, None, None)]
  }

  lemma InsertOutcome(db: Db, r: Record, at: nat, fault: Fault)
    ensures var (next, error) := InsertServiceAccount(db, r, at, fault);
            error.None? ==> Inserted(db, next, r) && next.systemState == db.systemState && next.audit == db.audit
  {
  }

  lemma InsertedCurrent(db: Db, next: Db, r: Record, a: string)
    requires Valid(db) && Inserted(db, next, r) && a in next.accounts
    ensures ExactlyOneCurrent(next, a)
  {
    if a == r.clientId { OnlyCurrent(next, a, r.credentialId); } else {
      assert ExactlyOneCurrent(db, a);
      SameCurrent(db, next, a);
    }
  }

  lemma InsertedIsValid(db: Db, next: Db, r: Record)
    requires Valid(db) && Inserted(db, next, r)
    ensures Valid(next) && Current(next, r.clientId, r.credentialId)
  {
    NewHashStaysDistinct(db.credentials, r.credentialId, Credential(r.clientId, r.secretHash, r.createdAt, None, None));
    forall a | a in next.accounts ensures ExactlyOneCurrent(next, a) { InsertedCurrent(db, next, r, a); }
  }

  lemma InsertedExtends(db: Db, next: Db, r: Record)
    requires Inserted(db, next, r) && db.systemState.Keys <= next.systemState.Keys && db.audit <= next.audit
    ensures Extends(db, next)
  {
  }

  lemma CreateTxOutcome(db: Db, r: Record, fault: Fault)
    ensures var (next, error) := CreateTx(db, r, fault);
            if error.None? then Inserted(db, next, r) && next.systemState == db.systemState && next.audit == db.audit
            else next == db
  {
    InsertOutcome(db, r, 1, fault);
  }

  lemma CreateKeeps(db: Db, r: Record, fault: Fault)
    requires Valid(db)
    ensures var (next, error) := CreateTx(db, r, fault);
            Valid(next) && Extends(db, next) && (error.None? ==> Current(next, r.clientId, r.credentialId))
  {
    var (next, error) := CreateTx(db, r, fault);
    CreateTxOutcome(db, r, fault);
    if error.None? {
      InsertedIsValid(db, next, r);
      InsertedExtends(db, next, r);
    }
  }

  lemma RotateKeeps(db: Db, clientId: string, credentialId: string, hash: string, now: int, fault: Fault)
    requires Valid(db)
    ensures var next := RotateTx(db, clientId, credentialId, hash, now, fault).0; Valid(next) && Extends(db, next)
    ensures var (next, error) := RotateTx(db, clientId, credentialId, hash, now, fault);
            error.None? ==> Current(next, clientId, credentialId)
  {
    var (next, error) := RotateTx(db, clientId, credentialId, hash, now, fault);
    RotateOutcome(db, clientId, credentialId, hash, now, fault);
    if error.None? {
      RotatedIsValid(db, next, clientId, credentialId, hash, now);
      RotatedExtends(db, next, clientId, credentialId, hash, now);
    }
  }

  /** The tables after the account's credentials are revoked and a new one is added. */
  ghost predicate Rotated(db: Db, next: Db, clientId: string, credentialId: string, hash: string, now: int) {
    && clientId in db.accounts && credentialId !in db.credentials
    && (forall c :: c in db.credentials ==> db.credentials[c].secretHash != hash)
    && var added := Credential(clientId, hash, now, None, None);
       next == db.(credentials := RevokeAll(db.credentials, clientId, now)[credentialId := added])
  }

  lemma RotateOutcome(db: Db, clientId: string, credentialId: string, hash: string, now: int, fault: Fault)
    ensures var (next, error) := RotateTx(db, clientId, credentialId, hash, now, fault);
            if error.None? then IsActive(db, clientId) && Rotated(db, next, clientId, credentialId, hash, now)
            else next == db
  {
    var revoked := RevokeAll(db.credentials, clientId, now);
    assert forall c :: c in db.credentials ==> c in revoked && revoked[c].secretHash == db.credentials[c].secretHash;
  }

  lemma RotatedExtends(db: Db, next: Db, clientId: string, credentialId: string, hash: string, now: int)
    requires Rotated(db, next, clientId, credentialId, hash, now)
    ensures Extends(db, next)
  {
  }

  lemma RotatedCurrent(db: Db, next: Db, clientId: string, credentialId: string, hash: string, now: int, a: string)
    requires Valid(db) && Rotated(db, next, clientId, credentialId, hash, now) && a in db.accounts
    ensures ExactlyOneCurrent(next, a) && Current(next, clientId, credentialId)
  {
    if a == clientId { OnlyCurrent(next, a, credentialId); } else {
      assert ExactlyOneCurrent(db, a);
      SameCurrent(db, next, a);
    }
  }

  lemma RotatedHashes(db: Db, next: Db, clientId: string, credentialId: string, hash: string, now: int)
    requires HashesDistinct(db) && Rotated(db, next, clientId, credentialId, hash, now)
    ensures HashesDistinct(next)
  {
    NewHashStaysDistinct(RevokeAll(db.credentials, clientId, now), credentialId,
                         Credential(clientId, hash, now, None, None));
  }

  lemma RotatedIsValid(db: Db, next: Db, clientId: string, credentialId: string, hash: string, now: int)
    requires Valid(db) && Rotated(db, next, clientId, credentialId, hash, now)
    ensures Valid(next) && Current(next, clientId, credentialId)
  {
    RotatedHashes(db, next, clientId, credentialId, hash, now);
    assert next.accounts == db.accounts;
    forall a | a in next.accounts ensures ExactlyOneCurrent(next, a) {
      RotatedCurrent(db, next, clientId, credentialId, hash, now, a);
    }
    RotatedCurrent(db, next, clientId, credentialId, hash, now, clientId);
  }

  lemma DisableKeeps(db: Db, clientId: string, now: int, fault: Fault)
    requires Valid(db)
    ensures var next := DisableStatement(db, clientId, now, fault).0; Valid(next) && Extends(db, next)
  {
    var next := DisableStatement(db, clientId, now, fault).0;
    if next != db { SameAccountsAndCredentials(db, next); }
  }

  lemma SameAccountsAndCredentials(db: Db, next: Db)
    requires Valid(db) && next.credentials == db.credentials && next.accounts.Keys == db.accounts.Keys
    requires forall a :: a in db.accounts ==> next.accounts[a].name == db.accounts[a].name
    ensures Valid(next)
  {
    assert forall a :: a in next.accounts <==> a in db.accounts;
    forall a | a in next.accounts ensures ExactlyOneCurrent(next, a) {
      assert ExactlyOneCurrent(db, a);
      SameCurrent(db, next, a);
    }
  }

  /** A bootstrap inserts the account, the marker and an audit row, or changes nothing. */
  lemma BootstrapOutcome(db: Db, r: Record, ifNotExists: bool, force: bool, fault: Fault)
    ensures var (next, result) := BootstrapTx(db, r, ifNotExists, force, fault);
            if result.Created? then
              && InsertServiceAccount(db, r, 3, fault).1.None?
              && Inserted(db, next, r)
              && next.systemState == db.systemState[BOOTSTRAP_COMPLETED_KEY := r.clientId]
              && next.audit == db.audit + [AuditRow("bootstrap", BootstrapAction, r.clientId)]
            else next == db
  {
    InsertOutcome(db, r, 3, fault);
  }

  lemma BootstrapKeeps(db: Db, r: Record, ifNotExists: bool, force: bool, fault: Fault)
    requires Valid(db)
    ensures var next := BootstrapTx(db, r, ifNotExists, force, fault).0; Valid(next) && Extends(db, next)
  {
    var (next, result) := BootstrapTx(db, r, ifNotExists, force, fault);
    BootstrapOutcome(db, r, ifNotExists, force, fault);
    if result.Created? {
      InsertedIsValid(db, next, r);
      InsertedExtends(db, next, r);
    }
  }

  /** Authentication succeeds exactly for an active account presenting its one current hash. */
  lemma AuthenticatesExactly(db: Db, a: string, hash: string, now: int)
    requires Valid(db)
    ensures Authenticates(db, a, hash, now)
       <==> a in db.accounts && db.accounts[a].disabledAt.None?
            && exists c :: Current(db, a, c) && db.credentials[c].secretHash == hash
    ensures a in db.accounts ==> exists c :: Current(db, a, c) && forall d :: Current(db, a, d) ==> d == c
  {
    if Authenticates(db, a, hash, now) {
      var c :| && c in db.credentials && db.credentials[c].account == a && db.credentials[c].secretHash == hash
               && db.credentials[c].revokedAt.None?;
      assert Current(db, a, c);
    }
    if a in db.accounts { assert ExactlyOneCurrent(db, a); }
  }

  /** The account, its credential, the marker and the audit row appear together or not at all. */
  lemma BootstrapIsAllOrNothing(db: Db, r: Record, ifNotExists: bool, force: bool, fault: Fault)
    ensures var (next, result) := BootstrapTx(db, r, ifNotExists, force, fault);
            if result.Created? then
              && r.clientId !in db.accounts && r.clientId in next.accounts
              && r.credentialId !in db.credentials && r.credentialId in next.credentials
              && next.credentials[r.credentialId].account == r.clientId
              && BOOTSTRAP_COMPLETED_KEY in next.systemState && next.systemState[BOOTSTRAP_COMPLETED_KEY] == r.clientId
              && next.audit == db.audit + [AuditRow("bootstrap", BootstrapAction, r.clientId)]
              && next.accounts.Keys == db.accounts.Keys + {r.clientId}
              && next.credentials.Keys == db.credentials.Keys + {r.credentialId}
            else next == db
    ensures NameTaken(db, r.name) ==> BootstrapTx(db, r, ifNotExists, force, fault).0 == db
    ensures BOOTSTRAP_COMPLETED_KEY in db.systemState && !force ==>
        !BootstrapTx(db, r, ifNotExists, force, fault).1.Created?
  {
  }

  // ---- the store as it runs ------------------------------------------------------------------------

  class ServiceAccountStore {
    var accounts: map<string, Account>
    var credentials: map<string, Credential>
    var systemState: map<string, string>
    var audit: seq<AuditRow>

    ghost function View(): Db
      reads this
    {
      Db(accounts, credentials, systemState, audit)
    }

    /** Put every table back to where it was at BEGIN. */
    method Rollback(saved: Db)
      modifies this
      ensures View() == saved
    {
      accounts, credentials, systemState, audit := saved.accounts, saved.credentials, saved.systemState, saved.audit;
    }

    method InsertAccountRow(id: string, account: Account) returns (error: Option<SaError>)
      modifies this`accounts
      ensures id in old(accounts) || NameTaken(old(View()), account.name) ==>
          error == Some(ErrAlreadyExists) && accounts == old(accounts)
      ensures !(id in old(accounts) || NameTaken(old(View()), account.name)) ==>
          error == None && accounts == old(accounts)[id := account]
    {
      if id in accounts || exists a | a in accounts :: accounts[a].name == account.name {
        return Some(ErrAlreadyExists);
      }
      accounts := accounts[id := account];
      return None;
    }

    method InsertCredentialRow(id: string, account: string, hash: string, now: int) returns (error: Option<SaError>)
      modifies this`credentials
      ensures (View(), error) == InsertCredential(old(View()), id, account, hash, now)
    {
      if id in credentials || exists c | c in credentials :: credentials[c].secretHash == hash {
        return Some(ErrAlreadyExists);
      }
      if account !in accounts { return Some(ErrStore); }
      credentials := credentials[id := Credential(account, hash, now, None, None)];
      return None;
    }

    method InsertAccount(r: Record, at: nat, fault: Fault) returns (error: Option<SaError>)
      modifies this`accounts, this`credentials
      ensures (View(), error) == InsertServiceAccount(old(View()), r, at, fault)
    {
      if fault == Some(at) { return Some(ErrStore); }
      error := InsertAccountRow(r.clientId, Account(r.name, r.scopes, r.createdAt, None));
      if error.Some? { return; }
      if fault == Some(at + 1) { return Some(ErrStore); }
      error := InsertCredentialRow(r.credentialId, r.clientId, r.secretHash, r.createdAt);
    }

    method Create(r: Record, fault: Fault) returns (error: Option<SaError>)
      modifies this
      ensures (View(), error) == CreateTx(old(View()), r, fault)
    {
      if fault == Some(0) { return Some(ErrStore); }
      var saved := Db(accounts, credentials, systemState, audit);
      error := InsertAccount(r, 1, fault);
      if error.Some? { Rollback(saved); return; }
      if fault == Some(3) { Rollback(saved); return Some(ErrStore); }
    }

    method Disable(clientId: string, now: int, fault: Fault) returns (error: Option<SaError>)
      modifies this`accounts
      ensures (View(), error) == DisableStatement(old(View()), clientId, now, fault)
    {
      if fault == Some(0) { return Some(ErrStore); }
      if clientId !in accounts || accounts[clientId].disabledAt.Some? { return Some(ErrNotFound); }
      accounts := accounts[clientId := accounts[clientId].(disabledAt := Some(now))];
      return if fault == Some(1) then Some(ErrStore) else None;
    }

    method RotateCredential(clientId: string, credentialId: string, hash: string, now: int, fault: Fault)
      returns (error: Option<SaError>)
      modifies this
      ensures (View(), error) == RotateTx(old(View()), clientId, credentialId, hash, now, fault)
    {
      if fault == Some(0) { return Some(ErrStore); }
      var saved := Db(accounts, credentials, systemState, audit);
      if fault == Some(1) { return Some(ErrStore); }
      if clientId !in accounts || accounts[clientId].disabledAt.Some? { return Some(ErrNotFound); }
      if fault == Some(2) { Rollback(saved); return Some(ErrStore); }
      credentials := RevokeAll(credentials, clientId, now);
      if fault == Some(3) { Rollback(saved); return Some(ErrStore); }
      error := InsertCredentialRow(credentialId, clientId, hash, now);
      if error.Some? { Rollback(saved); return; }
      if fault == Some(4) { Rollback(saved); return Some(ErrStore); }
    }

    method Bootstrap(r: Record, ifNotExists: bool, force: bool, fault: Fault) returns (result: Bootstrapped)
      requires NamesDistinct(View())
      modifies this
      ensures (View(), result) == BootstrapTx(old(View()), r, ifNotExists, force, fault)
    {
      if fault == Some(0) || fault == Some(1) { return Failed(ErrStore); }
      if id :| id in accounts && accounts[id].name == r.name {
        return if ifNotExists then Existing(id) else Failed(ErrAlreadyExists);
      }
      if fault == Some(2) { return Failed(ErrStore); }
      if BOOTSTRAP_COMPLETED_KEY in systemState && !force { return Failed(ErrBootstrapCompleted); }
      var saved := Db(accounts, credentials, systemState, audit);
      var error := InsertAccount(r, 3, fault);
      if error.Some? { Rollback(saved); return Failed(error.value); }
      if fault == Some(5) { Rollback(saved); return Failed(ErrStore); }
      systemState := systemState[BOOTSTRAP_COMPLETED_KEY := r.clientId];
      if fault == Some(6) { Rollback(saved); return Failed(ErrStore); }
      audit := audit + [AuditRow("bootstrap", BootstrapAction, r.clientId)];
      if fault == Some(7) { Rollback(saved); return Failed(ErrStore); }
      return Created(r.clientId);
    }

    method Authenticate(clientId: string, hash: string, now: int) returns (ok: bool)
      ensures ok == Authenticates(View(), clientId, hash, now)
    {
      if clientId !in accounts || accounts[clientId].disabledAt.Some? { return false; }
      return exists c | c in credentials ::
        && credentials[c].account == clientId && credentials[c].secretHash == hash && credentials[c].revokedAt.None?
        && (credentials[c].expiresAt.None? || credentials[c].expiresAt.value > now);
    }
  }
}
