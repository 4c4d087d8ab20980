/** Management RPCs that overlap: each authorisation and each transaction is a step of its own. Exactly when some
    account can always manage the service accounts. */
module OverlappingManagement {
  import opened Prelude
  import opened ServiceAccounts
  import opened ServiceAccountRuns
  import GoText
  import Scopes

  /** A disable that is authorised, with its UPDATE still to come. */
  datatype Pending = Pending(actor: string, target: string)

  datatype System = System(db: Db, pending: map<nat, Pending>)

  /** Authorise is given the target as it is after trimming. An authorised request of another kind, or a bootstrap,
      only adds accounts or credentials, so its transaction stands for it, whenever it was authorised. */
  datatype Step =
    | Authorise(r: nat, sid: Option<string>, target: string, readFails: bool)
    | Update(r: nat, now: int, fault: Fault)
    | Insert(record: Record, fault: Fault)
    | Rotation(clientId: string, ids: Ids, now: int, fault: Fault)
    | Bootstrapping(record: Record, ifNotExists: bool, force: bool, fault: Fault)
    | Audit(row: AuditRow)

  ghost function Perform(s: System, e: Step): System {
    match e
    case Authorise(r, sid, target, readFails) =>
      Authorised(s, r, Authorize(s.db, sid, Scopes.ACCOUNTS_MANAGE, readFails), target)
    case Update(r, now, fault) =>
      if r !in s.pending then s
      else System(DisableStatement(s.db, s.pending[r].target, now, fault).0, s.pending - {r})
    case Insert(record, fault) => s.(db := CreateTx(s.db, record, fault).0)
    case Rotation(clientId, ids, now, fault) =>
      s.(db := RotateTx(s.db, clientId, ids.credentialId, ids.secretHash, now, fault).0)
    case Bootstrapping(record, ifNotExists, force, fault) =>
      s.(db := BootstrapTx(s.db, record, ifNotExists, force, fault).0)
    case Audit(row) => s.(db := s.db.(audit := s.db.audit + [row]))
  }

  /** DisableServiceAccount up to its UPDATE. */
  function Authorised(s: System, r: nat, actor: Result<string, Code>, target: string): System {
    if r in s.pending || actor.Err? || target == "" || target == actor.value then s
    else s.(pending := s.pending[r := Pending(actor.value, target)])
  }

  ghost function PerformAll(s: System, steps: seq<Step>): System
    decreases |steps|
  {
    if steps == [] then s else PerformAll(Perform(s, steps[0]), steps[1..])
  }

  // ---- a whole RPC is a run of its steps ---------------------------------------------------------------

  lemma TwoSteps(s: System, a: Step, b: Step)
    ensures PerformAll(s, [a, b]) == Perform(Perform(s, a), b)
  {
    var t := Perform(Perform(s, a), b);
    assert [a, b][1..] == [b] && [b][1..] == [] && PerformAll(t, []) == t;
  }

  lemma DisableIsTwoSteps(s: System, r: nat, actor: Result<string, Code>, target: string, env: Env)
    requires r !in s.pending
    ensures Perform(Authorised(s, r, actor, target), Update(r, env.now, env.fault))
         == System(DisableAs(s.db, actor, target, env.(auditFails := true)).0, s.pending)
  {
    var authorised := Authorised(s, r, actor, target);
    if r in authorised.pending { assert authorised.pending - {r} == s.pending; }
  }

  /** But for the audit row, which decides nothing here, DisableServiceAccount is its authorisation and its UPDATE
      with nothing in between. */
  lemma WholeDisableIsARun(s: System, r: nat, sid: Option<string>, target: string, env: Env)
    requires r !in s.pending
    ensures PerformAll(s, [Authorise(r, sid, GoText.TrimSpace(target), env.readFails), Update(r, env.now, env.fault)])
         == System(DisableRpc(s.db, sid, target, env.(auditFails := true)).0, s.pending)
  {
    TwoSteps(s, Authorise(r, sid, GoText.TrimSpace(target), env.readFails), Update(r, env.now, env.fault));
    DisableIsTwoSteps(s, r, Actor(s.db, sid, env), GoText.TrimSpace(target), env);
  }

  // ---- exactly when a manager remains --------------------------------------------------------------------

  ghost predicate HasManager(db: Db) {
    exists a :: Manager(db, a)
  }

  ghost predicate HasAnotherManager(db: Db, target: string) {
    exists a :: a != target && Manager(db, a)
  }

  /** The UPDATE of a disable that reaches an active account leaves a manager exactly when there is one besides its
      target. */
  lemma DisableLeavesAManagerExactly(db: Db, target: string, now: int, fault: Fault)
    requires IsActive(db, target) && fault != Some(0)
    ensures HasManager(DisableStatement(db, target, now, fault).0) <==> HasAnotherManager(db, target)
  {
    var next := DisableStatement(db, target, now, fault).0;
    forall a ensures Manager(next, a) <==> a != target && Manager(db, a) {
      if a != target && a in db.accounts { assert next.accounts[a] == db.accounts[a]; }
    }
    if a :| a != target && Manager(db, a) { assert Manager(next, a); }
    if a :| Manager(next, a) { assert a != target && Manager(db, a); }
  }

  /** The step marks an account as disabled. */
  predicate TakesEffect(s: System, e: Step) {
    e.Update? && e.r in s.pending && e.fault != Some(0) && IsActive(s.db, s.pending[e.r].target)
  }

  /** Nobody is disabled and no scope changes. */
  ghost predicate AccountsStay(db: Db, next: Db) {
    forall a :: a in db.accounts ==> a in next.accounts && next.accounts[a] == db.accounts[a]
  }

  lemma OtherStepsKeepAccounts(s: System, e: Step)
    requires !TakesEffect(s, e)
    ensures AccountsStay(s.db, Perform(s, e).db)
  {
    match e
    case Insert(record, fault) => CreateTxOutcome(s.db, record, fault);
    case Rotation(clientId, ids, now, fault) =>
      RotateOutcome(s.db, clientId, ids.credentialId, ids.secretHash, now, fault);
    case Bootstrapping(record, ifNotExists, force, fault) => BootstrapOutcome(s.db, record, ifNotExists, force, fault);
    case _ =>
  }

  lemma StepLeavesAManagerExactly(s: System, e: Step)
    requires HasManager(s.db)
    ensures HasManager(Perform(s, e).db) <==> (TakesEffect(s, e) ==> HasAnotherManager(s.db, s.pending[e.r].target))
  {
    if TakesEffect(s, e) {
      DisableLeavesAManagerExactly(s.db, s.pending[e.r].target, e.now, e.fault);
    } else {
      OtherStepsKeepAccounts(s, e);
      var a :| Manager(s.db, a);
      assert Manager(Perform(s, e).db, a);
    }
  }

  /** In every state of the run some active account can manage service accounts. */
  ghost predicate ManagedThroughout(s: System, steps: seq<Step>)
    decreases |steps|
  {
    HasManager(s.db) && (steps != [] ==> ManagedThroughout(Perform(s, steps[0]), steps[1..]))
  }

  /** Whenever an UPDATE takes effect there is a manager besides its target. */
  ghost predicate SparesTheLast(s: System, steps: seq<Step>)
    decreases |steps|
  {
    steps != [] ==>
      && (TakesEffect(s, steps[0]) ==> HasAnotherManager(s.db, s.pending[steps[0].r].target))
      && SparesTheLast(Perform(s, steps[0]), steps[1..])
  }

  /** In any interleaving of management RPCs, with any failures, somebody can manage service accounts at all times
      exactly when no UPDATE takes effect on the last one who can. */
  lemma {:induction false} ManagedExactly(s: System, steps: seq<Step>)
    requires HasManager(s.db)
    ensures ManagedThroughout(s, steps) <==> SparesTheLast(s, steps)
    decreases |steps|
  {
    if steps != [] {
      StepLeavesAManagerExactly(s, steps[0]);
      if HasManager(Perform(s, steps[0]).db) { ManagedExactly(Perform(s, steps[0]), steps[1..]); }
    }
  }

  // ---- it is enough that the disabling actors are still active -------------------------------------------

  /** Pending disables were authorised: their actors have the scope, which is never taken away, and are not their
      own targets. */
  ghost predicate PendingOk(s: System) {
    forall r :: r in s.pending ==> MayManage(s.db, s.pending[r].actor) && s.pending[r].actor != s.pending[r].target
  }

  ghost predicate MayManage(db: Db, a: string) {
    a in db.accounts && Scopes.HasServiceScope(db.accounts[a].scopes, Scopes.ACCOUNTS_MANAGE)
  }

  lemma MayManageStays(s: System, e: Step, a: string)
    requires MayManage(s.db, a)
    ensures MayManage(Perform(s, e).db, a)
  {
    if !TakesEffect(s, e) {
      OtherStepsKeepAccounts(s, e);
    } else {
      assert Perform(s, e).db.accounts[a].scopes == s.db.accounts[a].scopes;
    }
  }

  lemma AuthorisedIsOk(s: System, r: nat, sid: Option<string>, target: string, readFails: bool)
    requires PendingOk(s)
    ensures PendingOk(Authorised(s, r, Authorize(s.db, sid, Scopes.ACCOUNTS_MANAGE, readFails), target))
  {
  }

  lemma PendingStaysOk(s: System, e: Step)
    requires PendingOk(s)
    ensures PendingOk(Perform(s, e))
  {
    if e.Authorise? {
      AuthorisedIsOk(s, e.r, e.sid, e.target, e.readFails);
    } else {
      var next := Perform(s, e);
      forall r | r in next.pending
        ensures MayManage(next.db, next.pending[r].actor) && next.pending[r].actor != next.pending[r].target
      {
        assert r in s.pending && next.pending[r] == s.pending[r];
        MayManageStays(s, e, s.pending[r].actor);
      }
    }
  }

  /** Whenever an UPDATE takes effect, the account that ordered it is still active. */
  ghost predicate ActorsStillActive(s: System, steps: seq<Step>)
    decreases |steps|
  {
    steps != [] ==>
      && (TakesEffect(s, steps[0]) ==> IsActive(s.db, s.pending[steps[0].r].actor))
      && ActorsStillActive(Perform(s, steps[0]), steps[1..])
  }

  lemma {:induction false} ActiveActorsSpareTheLast(s: System, steps: seq<Step>)
    requires PendingOk(s) && ActorsStillActive(s, steps)
    ensures SparesTheLast(s, steps)
    decreases |steps|
  {
    if steps != [] {
      if TakesEffect(s, steps[0]) { assert Manager(s.db, s.pending[steps[0].r].actor); }
      PendingStaysOk(s, steps[0]);
      ActiveActorsSpareTheLast(Perform(s, steps[0]), steps[1..]);
    }
  }

  /** In any interleaving somebody can always manage service accounts if every disabling actor is still active when
      its own UPDATE runs. */
  lemma SomebodyCanAlwaysManageInterleaved(s: System, steps: seq<Step>)
    requires HasManager(s.db) && PendingOk(s) && ActorsStillActive(s, steps)
    ensures ManagedThroughout(s, steps)
  {
    ActiveActorsSpareTheLast(s, steps);
    ManagedExactly(s, steps);
  }

  // ---- the run in which two managers disable each other ---------------------------------------------------

  /** Both disables are authorised before either UPDATE runs. */
  function MutualDisables(a: string, b: string, now: int): seq<Step> {
    [Authorise(0, Some(a), b, false), Authorise(1, Some(b), a, false), Update(0, now, None), Update(1, now, None)]
  }

  lemma IsAuthorised(s: System, r: nat, actor: string, target: string)
    requires r !in s.pending && Manager(s.db, actor) && actor != target && target != ""
    ensures Perform(s, Authorise(r, Some(actor), target, false))
        == s.(pending := s.pending[r := Pending(actor, target)])
  {
    assert Authorize(s.db, Some(actor), Scopes.ACCOUNTS_MANAGE, false) == Ok(actor);
  }

  lemma FourSteps(s: System, steps: seq<Step>)
    requires |steps| == 4
    ensures PerformAll(s, steps) == Perform(Perform(Perform(Perform(s, steps[0]), steps[1]), steps[2]), steps[3])
  {
    var s2 := Perform(Perform(s, steps[0]), steps[1]);
    assert steps[1..][1..] == [steps[2], steps[3]];
    assert PerformAll(s, steps) == PerformAll(s2, [steps[2], steps[3]]);
    TwoSteps(s2, steps[2], steps[3]);
  }

  lemma LastTwoDisabled(db: Db, a: string, b: string, now: int)
    requires a != b && Manager(db, a) && Manager(db, b) && forall x :: Manager(db, x) ==> x == a || x == b
    ensures !HasManager(DisableStatement(DisableStatement(db, b, now, None).0, a, now, None).0)
  {
    var one := DisableStatement(db, b, now, None).0;
    assert IsActive(one, a);
    forall x | x != a ensures !Manager(one, x) {
      if x in db.accounts && x != b { assert one.accounts[x] == db.accounts[x] && !Manager(db, x); }
    }
    DisableLeavesAManagerExactly(one, a, now, None);
  }

  lemma NobodyLeft(s: System, steps: seq<Step>)
    requires HasManager(s.db) && PendingOk(s) && !HasManager(PerformAll(s, steps).db)
    ensures !ActorsStillActive(s, steps)
  {
    if ActorsStillActive(s, steps) {
      SomebodyCanAlwaysManageInterleaved(s, steps);
      ManagedAtTheEnd(s, steps);
    }
  }

  /** It can happen: with no failing call, the last two managers disable each other and nobody is left. The actor of
      the second UPDATE is no longer active when it runs. */
  lemma OverlappingDisablesLockOut(db: Db, a: string, b: string, now: int)
    requires a != b && Manager(db, a) && Manager(db, b) && forall x :: Manager(db, x) ==> x == a || x == b
    requires a != "" && b != ""
    ensures !HasManager(PerformAll(System(db, map[]), MutualDisables(a, b, now)).db)
    ensures !ActorsStillActive(System(db, map[]), MutualDisables(a, b, now))
  {
    var s, steps := System(db, map[]), MutualDisables(a, b, now);
    IsAuthorised(s, 0, a, b);
    IsAuthorised(s.(pending := map[0 := Pending(a, b)]), 1, b, a);
    FourSteps(s, steps);
    UpdatesRun(db, a, b, now);
    LastTwoDisabled(db, a, b, now);
    NobodyLeft(s, steps);
  }

  lemma UpdatesRun(db: Db, a: string, b: string, now: int)
    ensures var both := System(db, map[0 := Pending(a, b)][1 := Pending(b, a)]);
            Perform(Perform(both, Update(0, now, None)), Update(1, now, None)).db
              == DisableStatement(DisableStatement(db, b, now, None).0, a, now, None).0
  {
  }

  lemma {:induction false} ManagedAtTheEnd(s: System, steps: seq<Step>)
    requires ManagedThroughout(s, steps)
    ensures HasManager(PerformAll(s, steps).db)
    decreases |steps|
  {
    if steps != [] { ManagedAtTheEnd(Perform(s, steps[0]), steps[1..]); }
  }
}
