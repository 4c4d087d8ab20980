/** The users and external_identities tables, one function per SQL statement, with every constraint
    of the schema checked before a row is written. */
module Directory {
  import opened Prelude
  import GoText

  datatype User = User(
    email: string,
    hashedPassword: Option<string>,
    verificationHash: Option<string>,
    lastLoginAt: Option<int>,
    deletedAt: Option<int>)

  /** A user as the handlers hold it in memory: a live row together with its ID. */
  datatype UserModel = UserModel(
    id: string,
    email: string,
    hashedPassword: Option<string>,
    verificationHash: Option<string>,
    lastLoginAt: Option<int>)

  datatype Identity = Identity(userId: string, provider: string, providerUserId: string)

  datatype Db = Db(users: map<string, User>, identities: map<string, Identity>)

  datatype StoreError = ErrNotFound | ErrAlreadyExists | ErrOther

  /** What the environment decides for one store call: whether the statement fails without effect,
      the UUID that is drawn, and the time. */
  datatype Call = Call(fault: bool, uuid: string, now: int)

  function ToModel(id: string, u: User): UserModel {
    UserModel(id, u.email, u.hashedPassword, u.verificationHash, u.lastLoginAt)
  }

  function NewUser(email: string): UserModel {
    UserModel("", email, None, None, None)
  }

  ghost predicate EmailsDistinct(db: Db) {
    forall i, j :: i in db.users && j in db.users && db.users[i].email == db.users[j].email ==> i == j
  }

  ghost predicate IdentitiesDistinct(db: Db) {
    forall i, j :: i in db.identities && j in db.identities && SameKey(db.identities[i], db.identities[j]) ==> i == j
  }

  predicate SameKey(a: Identity, b: Identity) {
    a.provider == b.provider && a.providerUserId == b.providerUserId
  }

  ghost predicate OwnersExist(db: Db) {
    forall i :: i in db.identities ==> db.identities[i].userId in db.users
  }

  ghost predicate Valid(db: Db) {
    EmailsDistinct(db) && IdentitiesDistinct(db) && OwnersExist(db)
  }

  predicate IsLive(db: Db, id: string) {
    id in db.users && db.users[id].deletedAt.None?
  }

  /** The rows an application query can see. */
  function LiveUsers(db: Db): map<string, User> {
    map id | id in db.users && db.users[id].deletedAt.None? :: db.users[id]
  }

  /** The identity (provider, providerUserId) is bound to user. */
  ghost predicate Binds(db: Db, provider: string, providerUserId: string, user: string) {
    exists i :: i in db.identities && db.identities[i] == Identity(user, provider, providerUserId)
  }

  /** What no later statement undoes: identities stay as written, user rows are never removed and a
      deleted row is never touched again. */
  ghost predicate Extends(old_: Db, new_: Db) {
    && (forall i :: i in old_.identities ==> i in new_.identities && new_.identities[i] == old_.identities[i])
    && (forall u :: u in old_.users ==> u in new_.users)
    && (forall u :: u in old_.users && old_.users[u].deletedAt.Some? ==> new_.users[u] == old_.users[u])
  }

  // ---- users -------------------------------------------------------------------------------

  predicate EmailTaken(db: Db, email: string) {
    exists id | id in db.users :: db.users[id].email == email
  }

  /** INSERT INTO users: the primary key and the UNIQUE email range over deleted rows too. */
  function CreateUser(db: Db, m: UserModel, c: Call): (Db, Result<UserModel, StoreError>) {
    var id := if GoText.IsBlank(m.id) then c.uuid else m.id;
    if c.fault then (db, Err(ErrOther))
    else if id in db.users || EmailTaken(db, m.email) then (db, Err(ErrAlreadyExists))
    else
      (db.(users := db.users[id := User(m.email, m.hashedPassword, m.verificationHash, m.lastLoginAt, None)]),
       Ok(m.(id := id)))
  }

  function GetByID(db: Db, id: string, c: Call): Result<UserModel, StoreError> {
    if c.fault then Err(ErrOther)
    else if IsLive(db, id) then Ok(ToModel(id, db.users[id]))
    else Err(ErrNotFound)
  }

  ghost function GetByEmail(db: Db, email: string, c: Call): Result<UserModel, StoreError> {
    if c.fault then Err(ErrOther)
    else if exists id :: IsLive(db, id) && db.users[id].email == email then
      var id :| IsLive(db, id) && db.users[id].email == email;
      Ok(ToModel(id, db.users[id]))
    else Err(ErrNotFound)
  }

  /** UPDATE users SET (every column) WHERE id = ? AND deleted_at IS NULL. */
  function UpdateUser(db: Db, m: UserModel, c: Call): (Db, Option<StoreError>) {
    if c.fault then (db, Some(ErrOther))
    else if !IsLive(db, m.id) then (db, Some(ErrNotFound))
    else if exists id | id in db.users :: id != m.id && db.users[id].email == m.email then (db, Some(ErrAlreadyExists))
    else
      (db.(users := db.users[m.id := User(m.email, m.hashedPassword, m.verificationHash, m.lastLoginAt, None)]), None)
  }

  function SetPassword(db: Db, id: string, hash: string, c: Call): (Db, Option<StoreError>) {
    if c.fault then (db, Some(ErrOther))
    else if !IsLive(db, id) then (db, Some(ErrNotFound))
    else (db.(users := db.users[id := db.users[id].(hashedPassword := Some(hash))]), None)
  }

  /** Soft delete: the row stays, marked. */
  function DeleteUser(db: Db, id: string, c: Call): (Db, Option<StoreError>) {
    if c.fault then (db, Some(ErrOther))
    else if !IsLive(db, id) then (db, Some(ErrNotFound))
    else (db.(users := db.users[id := db.users[id].(deletedAt := Some(c.now))]), None)
  }

  // ---- external identities -----------------------------------------------------------------

  predicate Bound(db: Db, provider: string, providerUserId: string) {
    exists i | i in db.identities :: SameKey(db.identities[i], Identity("", provider, providerUserId))
  }

  /** INSERT INTO external_identities: primary key, UNIQUE (provider, provider_user_id) and the
      foreign key, which a deleted user row still satisfies. */
  function CreateIdentity(db: Db, identity: Identity, c: Call): (Db, Option<StoreError>) {
    if c.fault then (db, Some(ErrOther))
    else if c.uuid in db.identities || Bound(db, identity.provider, identity.providerUserId) then
      (db, Some(ErrAlreadyExists))
    else if identity.userId !in db.users then (db, Some(ErrOther))
    else (db.(identities := db.identities[c.uuid := identity]), None)
  }

  ghost function GetByProviderID(db: Db, provider: string, providerUserId: string, c: Call)
    : Result<Identity, StoreError>
  {
    if c.fault then Err(ErrOther)
    else if Bound(db, provider, providerUserId) then
      var i :| i in db.identities && SameKey(db.identities[i], Identity("", provider, providerUserId));
      Ok(db.identities[i])
    else Err(ErrNotFound)
  }

  // ---- what every statement keeps ------------------------------------------------------------

  lemma BindingsStay(a: Db, b: Db, provider: string, providerUserId: string, user: string)
    requires Extends(a, b) && Binds(a, provider, providerUserId, user)
    ensures Binds(b, provider, providerUserId, user)
  {
    var i :| i in a.identities && a.identities[i] == Identity(user, provider, providerUserId);
    assert i in b.identities;
  }

  /** In a valid table the lookup finds the binding exactly when there is one. */
  lemma LookupIsExact(db: Db, provider: string, providerUserId: string, c: Call, user: string)
    requires Valid(db) && !c.fault
    ensures Binds(db, provider, providerUserId, user)
         <==> GetByProviderID(db, provider, providerUserId, c) == Ok(Identity(user, provider, providerUserId))
  {
    if Binds(db, provider, providerUserId, user) {
      var i :| i in db.identities && db.identities[i] == Identity(user, provider, providerUserId);
      assert SameKey(db.identities[i], Identity("", provider, providerUserId));
    }
  }

  lemma NewRowKeeps(db: Db, id: string, u: User)
    requires Valid(db) && id !in db.users && !EmailTaken(db, u.email)
    ensures var next := db.(users := db.users[id := u]); Valid(next) && Extends(db, next)
  {
    assert forall j :: j in db.users ==> db.users[j].email != u.email;
  }

  lemma CreateUserKeeps(db: Db, m: UserModel, c: Call)
    requires Valid(db)
    ensures Valid(CreateUser(db, m, c).0) && Extends(db, CreateUser(db, m, c).0)
  {
    var r := CreateUser(db, m, c).1;
    if r.Ok? {
      NewRowKeeps(db, r.value.id, User(m.email, m.hashedPassword, m.verificationHash, m.lastLoginAt, None));
    }
  }

  lemma UpdateUserKeeps(db: Db, m: UserModel, c: Call)
    requires Valid(db)
    ensures Valid(UpdateUser(db, m, c).0) && Extends(db, UpdateUser(db, m, c).0)
  {
  }

  lemma SetPasswordKeeps(db: Db, id: string, hash: string, c: Call)
    requires Valid(db)
    ensures Valid(SetPassword(db, id, hash, c).0) && Extends(db, SetPassword(db, id, hash, c).0)
  {
    var next := SetPassword(db, id, hash, c).0;
    assert forall j :: j in next.users ==> j in db.users && next.users[j].email == db.users[j].email;
  }

  lemma DeleteUserKeeps(db: Db, id: string, c: Call)
    requires Valid(db)
    ensures Valid(DeleteUser(db, id, c).0) && Extends(db, DeleteUser(db, id, c).0)
  {
    var next := DeleteUser(db, id, c).0;
    assert forall j :: j in next.users ==> j in db.users && next.users[j].email == db.users[j].email;
  }

  lemma CreateIdentityKeeps(db: Db, identity: Identity, c: Call)
    requires Valid(db)
    ensures Valid(CreateIdentity(db, identity, c).0) && Extends(db, CreateIdentity(db, identity, c).0)
  {
    var (next, r) := CreateIdentity(db, identity, c);
    if r.None? {
      assert forall j :: j in db.identities ==> !SameKey(db.identities[j], identity) by {
        forall j | j in db.identities ensures !SameKey(db.identities[j], identity) {
          assert !SameKey(db.identities[j], Identity("", identity.provider, identity.providerUserId));
        }
      }
    }
  }
}
