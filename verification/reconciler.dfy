/**
  One call of the RDS instance reconciler.

  Every call re-derives its phase from the record: the provider client is
  built first, references are resolved while they have not been resolved
  yet, and then a deletion timestamp selects Delete, an empty instance name
  selects Create and anything else selects Sync. Each phase ends by writing
  the record back to the store and returning a requeue hint.
 */
module Reconciler {
  import opened Basics
  import opened Conditions
  import opened Instance
  import opened Collaborators

  /** Seconds to wait before retrying a failed reference resolution. */
  const ALongWait: nat := 60

  /** Length of the generated master password. */
  const PasswordLength: nat := 20

  const ErrUpdateManagedStatus: string := "cannot update managed resource status"

  /** Keys of the published connection secret. */
  const UserKey: string := "username"
  const PasswordKey: string := "password"
  const EndpointKey: string := "endpoint"

  /** The provider status strings the reconciler recognises. */
  const StateCreating: string := "creating"
  const StateFailed: string := "failed"
  const StateAvailable: string := "available"

  /** How the reconciler reads a provider status string: three known states and everything else. */
  datatype DbState = DbCreating | DbFailed | DbAvailable | DbUnrecognised

  function Classify(status: string): (r: DbState)
    ensures r == DbCreating <==> status == StateCreating
    ensures r == DbFailed <==> status == StateFailed
    ensures r == DbAvailable <==> status == StateAvailable
  {
    if status == StateCreating then DbCreating
    else if status == StateFailed then DbFailed
    else if status == StateAvailable then DbAvailable
    else DbUnrecognised
  }

  /** What the dispatcher is asked to do next: nothing, retry now, or retry after a delay. */
  datatype Hint = NoRequeue | Requeue | RequeueAfter(seconds: nat)

  /**
    The part of the call that produced the outcome. The reconciler itself
    returns no such tag: the model adds it so that branch selection can be
    stated, and the observable consequences of each branch are stated on the
    record, the hint and the calls.
   */
  datatype Phase = PhaseFetch | PhaseConnect | PhaseResolve | PhaseCreate | PhaseSync | PhaseDelete

  /**
    The result of one call: the record as the reconciler left it in memory
    (and sent to the store's update, when it got that far), the requeue
    hint, the returned error if any, and the external calls it made.
   */
  datatype StepOutcome = StepOutcome(record: Record, hint: Hint, err: Option<string>, calls: seq<Call>, phase: Phase)

  /** The connection details published after a fresh create: exactly the user name and the password. */
  function CredentialDetails(user: string, password: string): (r: map<string, string>)
    ensures r.Keys == {UserKey, PasswordKey}
    ensures r[UserKey] == user && r[PasswordKey] == password
  {
    assert UserKey[0] != PasswordKey[0];
    map[UserKey := user, PasswordKey := password]
  }

  /** The connection details published for an available database: the user name and the endpoint, never a password. */
  function EndpointDetails(user: string, endpoint: string): (r: map<string, string>)
    ensures r.Keys == {UserKey, EndpointKey} && PasswordKey !in r
    ensures r[UserKey] == user && r[EndpointKey] == endpoint
  {
    assert UserKey[0] != EndpointKey[0] && PasswordKey[0] != UserKey[0] && PasswordKey[0] != EndpointKey[0];
    map[UserKey := user, EndpointKey := endpoint]
  }

  function UnexpectedStatus(status: string): string {
    "unexpected resource status: " + status
  }

  /** Only the conditions differ between the two records. */
  predicate OnlyConditionsChanged(rec: Record, r: Record) {
    r == rec.(status := rec.status.(conditions := r.status.conditions))
  }

  predicate HasCondition(rec: Record, c: Condition) {
    c.ctype in rec.status.conditions && rec.status.conditions[c.ctype] == c
  }

  predicate KeepsCondition(rec: Record, r: Record, t: CondType) {
    SameAt(rec.status.conditions, r.status.conditions, t)
  }

  predicate ReconcileFailed(rec: Record) {
    Synced in rec.status.conditions && rec.status.conditions[Synced].reason == ReasonReconcileError
  }

  /** Finalizers other than the owned one are the same in both records. */
  predicate SameForeignFinalizers(rec: Record, r: Record) {
    r.finalizers - {Finalizer} == rec.finalizers - {Finalizer}
  }

  /** The call returns the store's update error unchanged, and no error when the update went through. */
  predicate ReturnsUpdateError(out: StepOutcome, env: Env) {
    out.err == (if env.update.Ok? then None else Some(env.update.err.msg))
  }

  /** Writes the record back; the returned error is the store's, unwrapped. */
  function Persist(rec: Record, hint: Hint, env: Env, calls: seq<Call>, phase: Phase): (out: StepOutcome)
    ensures out.record == rec && out.hint == hint && out.phase == phase
    ensures out.calls == calls + [UpdateRecord(rec)]
    ensures ReturnsUpdateError(out, env)
  {
    StepOutcome(rec, hint, if env.update.Ok? then None else Some(env.update.err.msg), calls + [UpdateRecord(rec)], phase)
  }

  function WithCondition(rec: Record, c: Condition): (r: Record)
    ensures HasCondition(r, c)
    ensures WellKeyed(rec.status.conditions) ==> WellKeyed(r.status.conditions)
    ensures forall t :: t != c.ctype ==> KeepsCondition(rec, r, t)
    ensures OnlyConditionsChanged(rec, r)
  {
    rec.(status := rec.status.(conditions := SetCondition(rec.status.conditions, c)))
  }

  /** Sets two conditions of different types in one call. */
  function WithConditions(rec: Record, a: Condition, b: Condition): (r: Record)
    requires a.ctype != b.ctype
    ensures HasCondition(r, a) && HasCondition(r, b)
    ensures WellKeyed(rec.status.conditions) ==> WellKeyed(r.status.conditions)
    ensures forall t :: t != a.ctype && t != b.ctype ==> KeepsCondition(rec, r, t)
    ensures OnlyConditionsChanged(rec, r)
  {
    SetTwo(rec.status.conditions, a, b);
    rec.(status := rec.status.(conditions := SetConditions(rec.status.conditions, [a, b])))
  }

  /** Records a reconcile error carrying `msg`, writes the record back and asks for an immediate retry. */
  function Fail(rec: Record, msg: string, env: Env, calls: seq<Call>, phase: Phase): (out: StepOutcome)
    ensures out.hint == Requeue && out.phase == phase
    ensures HasCondition(out.record, ReconcileError(msg))
    ensures forall t :: t != Synced ==> KeepsCondition(rec, out.record, t)
    ensures OnlyConditionsChanged(rec, out.record)
    ensures out.calls == calls + [UpdateRecord(out.record)]
    ensures ReturnsUpdateError(out, env)
  {
    Persist(WithCondition(rec, ReconcileError(msg)), Requeue, env, calls, phase)
  }

  // ---------------------------------------------------------------- Create

  /** A create reply the reconciler accepts: a fresh database, or one that already exists. */
  predicate CreateAccepted(reply: Reply) {
    reply.Ok? || reply.err.AlreadyExists?
  }

  /** Create gets as far as setting the instance name. */
  predicate CreateSucceeds(env: Env) {
    && env.password.Generated?
    && CreateAccepted(env.create)
    && (env.create.Ok? ==> env.publish.Ok?)
  }

  /**
    The error a failed Create reports: the password generator's, else the
    create call's, else the credentials publisher's.
   */
  function CreateError(env: Env): string
    requires !CreateSucceeds(env)
  {
    if env.password.GenerationFailed? then env.password.msg
    else if !CreateAccepted(env.create) then env.create.err.msg
    else env.publish.err.msg
  }

  /** What Create may change in the record: the name, the finalizers and the conditions. */
  predicate CreateFrame(rec: Record, r: Record) {
    r == rec.(finalizers := r.finalizers,
              status := rec.status.(instanceName := r.status.instanceName, conditions := r.status.conditions))
  }

  /** A failed create attempt: the Creating condition stays, the error is recorded, nothing else changes. */
  function CreateFailed(rec: Record, msg: string, env: Env, calls: seq<Call>): (out: StepOutcome)
    ensures out.phase == PhaseCreate && out.hint == Requeue
    ensures HasCondition(out.record, Creating()) && HasCondition(out.record, ReconcileError(msg))
    ensures KeepsCondition(rec, out.record, ReferencesResolved)
    ensures OnlyConditionsChanged(rec, out.record)
    ensures out.calls == calls + [UpdateRecord(out.record)]
    ensures ReturnsUpdateError(out, env)
  {
    Fail(WithCondition(rec, Creating()), msg, env, calls, PhaseCreate)
  }

  /** A create the provider accepted: record the name, own the record, report success. */
  function CreateRecorded(rec: Record, env: Env, calls: seq<Call>): (out: StepOutcome)
    ensures out.phase == PhaseCreate && out.hint == Requeue
    ensures out.record.status.instanceName == ExternalName(rec)
    ensures Finalizer in out.record.finalizers && SameForeignFinalizers(rec, out.record)
    ensures HasCondition(out.record, Creating()) && HasCondition(out.record, ReconcileSuccess())
    ensures KeepsCondition(rec, out.record, ReferencesResolved)
    ensures CreateFrame(rec, out.record)
    ensures out.calls == calls + [UpdateRecord(out.record)]
    ensures ReturnsUpdateError(out, env)
  {
    var creating := WithCondition(rec, Creating());
    var named := creating.(status := creating.status.(instanceName := ExternalName(rec)));
    var owned := AddFinalizer(named, Finalizer);
    Persist(WithCondition(owned, ReconcileSuccess()), Requeue, env, calls, PhaseCreate)
  }

  /**
    Create phase: provisions the database under the record's deterministic
    name, publishes the generated credentials only for a fresh database, and
    on success records the name and the owned finalizer. Either way the
    dispatcher is asked to come back at once.
   */
  function Create(rec: Record, env: Env): (out: StepOutcome)
    ensures out.phase == PhaseCreate && out.hint == Requeue
    ensures HasCondition(out.record, Creating())
    ensures CreateSucceeds(env) ==>
              && out.record.status.instanceName == ExternalName(rec)
              && Finalizer in out.record.finalizers
              && HasCondition(out.record, ReconcileSuccess())
    ensures !CreateSucceeds(env) ==>
              && out.record.status.instanceName == rec.status.instanceName
              && out.record.finalizers == rec.finalizers
              && ReconcileFailed(out.record)
              && HasCondition(out.record, ReconcileError(CreateError(env)))
  {
    var calls := [GeneratePassword(PasswordLength)];
    match env.password
    case GenerationFailed(msg) =>
      CreateFailed(rec, msg, env, calls)
    case Generated(password) =>
      var calls := calls + [CreateInstance(ExternalName(rec), password, rec.spec)];
      if !CreateAccepted(env.create) then
        CreateFailed(rec, env.create.err.msg, env, calls)
      else if env.create.Failed? then
        // the existing database does not use the password just generated: publish nothing
        CreateRecorded(rec, env, calls)
      else
        var calls := calls + [PublishConnection(CredentialDetails(rec.spec.masterUsername, password))];
        if env.publish.Failed? then CreateFailed(rec, env.publish.err.msg, env, calls)
        else CreateRecorded(rec, env, calls)
  }

  // ------------------------------------------------------------------ Sync

  /** The provider reported a database whose status reads as `state`. */
  predicate Observed(env: Env, state: DbState) {
    env.describe.Found? && Classify(env.describe.db.status) == state
  }

  /** Sync of a database the provider reported, once the observation is copied into `observed`. */
  function SyncObserved(observed: Record, env: Env, calls: seq<Call>): (out: StepOutcome)
    ensures out.phase == PhaseSync
    ensures ReturnsUpdateError(out, env)
    ensures Classify(observed.status.state) == DbCreating ==>
              && HasCondition(out.record, Creating())
              && HasCondition(out.record, ReconcileSuccess())
              && out.hint == Requeue
    ensures Classify(observed.status.state) == DbFailed ==>
              && HasCondition(out.record, Unavailable())
              && HasCondition(out.record, ReconcileSuccess())
              && out.hint == NoRequeue
    ensures Classify(observed.status.state) == DbAvailable ==>
              && HasCondition(out.record, Available())
              && out.record.status.bindingPhase == (if observed.status.bindingPhase == Bound then Bound else Unbound)
              && (env.publish.Ok? ==> HasCondition(out.record, ReconcileSuccess()) && out.hint == NoRequeue)
              && (env.publish.Failed? ==> HasCondition(out.record, ReconcileError(env.publish.err.msg)) && out.hint == Requeue)
    ensures Classify(observed.status.state) == DbUnrecognised ==>
              && HasCondition(out.record, ReconcileError(UnexpectedStatus(observed.status.state)))
              && KeepsCondition(observed, out.record, Ready)
              && out.hint == Requeue
  {
    var status := observed.status.state;
    match Classify(status)
    case DbCreating =>
      Persist(WithConditions(observed, Creating(), ReconcileSuccess()), Requeue, env, calls, PhaseSync)
    case DbFailed =>
      Persist(WithConditions(observed, Unavailable(), ReconcileSuccess()), NoRequeue, env, calls, PhaseSync)
    case DbAvailable =>
      var bindable := SetBindable(WithCondition(observed, Available()));
      var calls := calls + [PublishConnection(EndpointDetails(observed.spec.masterUsername, bindable.status.endpoint))];
      if env.publish.Failed? then
        Fail(bindable, env.publish.err.msg, env, calls, PhaseSync)
      else
        Persist(WithCondition(bindable, ReconcileSuccess()), NoRequeue, env, calls, PhaseSync)
    case DbUnrecognised =>
      Fail(observed, UnexpectedStatus(status), env, calls, PhaseSync)
  }

  /** The record with the provider's observation copied into its status; nothing else changes. */
  function Observe(rec: Record, db: DbInstance): (r: Record)
    ensures r.status.state == db.status && r.status.endpoint == db.endpoint && r.status.providerID == db.arn
    ensures r.status.conditions == rec.status.conditions && r.status.instanceName == rec.status.instanceName
    ensures r.status.bindingPhase == rec.status.bindingPhase
    ensures r.uid == rec.uid && r.spec == rec.spec && r.deletionTimestamp == rec.deletionTimestamp && r.finalizers == rec.finalizers
  {
    rec.(status := rec.status.(state := db.status, endpoint := db.endpoint, providerID := db.arn))
  }

  /**
    Sync phase: copies what the provider reports into the status, then maps
    the provider status to conditions, a requeue hint and, for an available
    database, the published endpoint.
   */
  function Sync(rec: Record, env: Env): (out: StepOutcome)
    ensures out.phase == PhaseSync
    ensures env.describe.LookupFailed? ==>
              && OnlyConditionsChanged(rec, out.record)
              && HasCondition(out.record, ReconcileError(env.describe.err.msg))
              && KeepsCondition(rec, out.record, Ready)
              && out.hint == Requeue
    ensures Observed(env, DbCreating) ==>
              HasCondition(out.record, Creating()) && HasCondition(out.record, ReconcileSuccess()) && out.hint == Requeue
    ensures Observed(env, DbFailed) ==>
              HasCondition(out.record, Unavailable()) && HasCondition(out.record, ReconcileSuccess()) && out.hint == NoRequeue
    ensures Observed(env, DbAvailable) ==>
              && HasCondition(out.record, Available())
              && out.record.status.bindingPhase == (if rec.status.bindingPhase == Bound then Bound else Unbound)
              && (env.publish.Ok? ==> HasCondition(out.record, ReconcileSuccess()) && out.hint == NoRequeue)
              && (env.publish.Failed? ==> HasCondition(out.record, ReconcileError(env.publish.err.msg)) && out.hint == Requeue)
    ensures Observed(env, DbUnrecognised) ==>
              && HasCondition(out.record, ReconcileError(UnexpectedStatus(env.describe.db.status)))
              && KeepsCondition(rec, out.record, Ready)
              && out.hint == Requeue
  {
    var calls := [GetInstance(rec.status.instanceName)];
    match env.describe
    case LookupFailed(e) =>
      Fail(rec, e.msg, env, calls, PhaseSync)
    case Found(db) =>
      SyncObserved(Observe(rec, db), env, calls)
  }

  // ---------------------------------------------------------------- Delete

  /** The external database is gone, kept on purpose, or already absent. */
  predicate DeleteConfirmed(rec: Record, env: Env) {
    rec.spec.reclaimPolicy != ReclaimDelete || env.delete.Ok? || env.delete.err.NotFound?
  }

  /**
    Delete phase: deletes the database only under the Delete reclaim policy,
    treats "not found" as done, and then releases the owned finalizer.
   */
  function Delete(rec: Record, env: Env): (out: StepOutcome)
    ensures out.phase == PhaseDelete
    ensures HasCondition(out.record, Deleting())
    ensures DeleteConfirmed(rec, env) ==>
              && Finalizer !in out.record.finalizers
              && HasCondition(out.record, ReconcileSuccess())
              && out.hint == NoRequeue
    ensures !DeleteConfirmed(rec, env) ==>
              && out.record.finalizers == rec.finalizers
              && HasCondition(out.record, ReconcileError(env.delete.err.msg))
              && out.hint == Requeue
  {
    var deleting := WithCondition(rec, Deleting());
    var calls := if rec.spec.reclaimPolicy == ReclaimDelete then [DeleteInstance(rec.status.instanceName)] else [];
    if !DeleteConfirmed(rec, env) then
      Fail(deleting, env.delete.err.msg, env, calls, PhaseDelete)
    else
      var released := RemoveFinalizer(deleting, Finalizer);
      Persist(WithCondition(released, ReconcileSuccess()), NoRequeue, env, calls, PhaseDelete)
  }

  // ------------------------------------------------------------- Reconcile

  /**
    Runs the phase the record's fields select: deletion intent first, then
    the provisioning marker.
   */
  function Dispatch(rec: Record, env: Env): (out: StepOutcome)
    ensures out.phase == SelectedPhase(rec)
    ensures rec.deletionTimestamp.Some? ==> HasCondition(out.record, Deleting())
    ensures rec.deletionTimestamp.None? && rec.status.instanceName == "" ==>
              HasCondition(out.record, Creating()) && out.hint == Requeue
    ensures rec.deletionTimestamp.None? && rec.status.instanceName != "" ==>
              && (env.describe.LookupFailed? ==> HasCondition(out.record, ReconcileError(env.describe.err.msg)))
              && (Observed(env, DbAvailable) ==> HasCondition(out.record, Available()))
  {
    if rec.deletionTimestamp.Some? then Delete(rec, env)
    else if rec.status.instanceName == "" then Create(rec, env)
    else Sync(rec, env)
  }

  /** Puts the calls made before the phase in front of the phase's own calls. */
  function Prefixed(prefix: seq<Call>, out: StepOutcome): StepOutcome {
    out.(calls := prefix + out.calls)
  }

  /** A reference resolution failure: record `c`, write back, and retry after the long wait. */
  function ResolutionFailed(rec: Record, c: Condition, env: Env, calls: seq<Call>): (out: StepOutcome)
    ensures out.phase == PhaseResolve && out.hint == RequeueAfter(ALongWait)
    ensures HasCondition(out.record, c) && OnlyConditionsChanged(rec, out.record)
    ensures forall t :: t != c.ctype ==> KeepsCondition(rec, out.record, t)
    ensures out.calls == calls + [UpdateRecord(out.record)]
    ensures out.err == (if env.update.Ok? then None else Some(ErrUpdateManagedStatus + ": " + env.update.err.msg))
  {
    var blocked := WithCondition(rec, c);
    var err := if env.update.Ok? then None else Some(ErrUpdateManagedStatus + ": " + env.update.err.msg);
    StepOutcome(blocked, RequeueAfter(ALongWait), err, calls + [UpdateRecord(blocked)], PhaseResolve)
  }

  /** The call gets past client construction and reference resolution. */
  predicate Proceeds(rec: Record, env: Env) {
    env.fetch.Ok? && env.connect.Ok? && (ReferencesResolvedTrue(rec) || env.resolve.Resolved?)
  }

  /** Reference resolution runs and fails. */
  predicate ResolutionBlocks(rec: Record, env: Env) {
    env.fetch.Ok? && env.connect.Ok? && !ReferencesResolvedTrue(rec) && !env.resolve.Resolved?
  }

  /** The phase tag of the branch the record's fields select once the call proceeds. */
  function SelectedPhase(rec: Record): Phase {
    if rec.deletionTimestamp.Some? then PhaseDelete
    else if rec.status.instanceName == "" then PhaseCreate
    else PhaseSync
  }

  /** One reconcile call for the record `rec`, with collaborators answering as `env` says. */
  function Reconcile(rec: Record, env: Env): (out: StepOutcome)
    // a missing record ends the call quietly; any other read error is returned
    ensures env.fetch.Failed? ==>
              && out.phase == PhaseFetch && out.calls == [GetRecord] && out.hint == NoRequeue
              && out.err == (if env.fetch.err.NotFound? then None else Some(env.fetch.err.msg))
    ensures env.fetch.Ok? && env.connect.Failed? ==>
              && out.phase == PhaseConnect && out.hint == Requeue
              && OnlyConditionsChanged(rec, out.record)
              && HasCondition(out.record, ReconcileError(env.connect.err.msg))
              && (forall t :: t != Synced ==> KeepsCondition(rec, out.record, t))
              && out.calls == [GetRecord, Connect] + [UpdateRecord(out.record)]
              && ReturnsUpdateError(out, env)
    ensures ResolutionBlocks(rec, env) ==>
              && out.phase == PhaseResolve
              && out.hint == RequeueAfter(ALongWait)
              && OnlyConditionsChanged(rec, out.record)
              && KeepsCondition(rec, out.record, Ready)
              && (env.resolve.AccessBlocked? ==>
                    HasCondition(out.record, ReferenceResolutionBlocked(env.resolve.msg))
                    && KeepsCondition(rec, out.record, Synced))
              && (env.resolve.ResolveFailed? ==>
                    HasCondition(out.record, ReconcileError(env.resolve.msg))
                    && KeepsCondition(rec, out.record, ReferencesResolved))
              && out.err == (if env.update.Ok? then None else Some(ErrUpdateManagedStatus + ": " + env.update.err.msg))
    // the branch: deletion intent first, then the provisioning marker
    ensures Proceeds(rec, env) ==> out.phase == SelectedPhase(rec)
  {
    if env.fetch.Failed? then
      StepOutcome(rec, NoRequeue, if env.fetch.err.NotFound? then None else Some(env.fetch.err.msg), [GetRecord], PhaseFetch)
    else
      var calls := [GetRecord, Connect];
      if env.connect.Failed? then
        Fail(rec, env.connect.err.msg, env, calls, PhaseConnect)
      else if ReferencesResolvedTrue(rec) then
        Prefixed(calls, Dispatch(rec, env))
      else
        var calls := calls + [ResolveReferences];
        match env.resolve
        case Resolved(values) =>
          Prefixed(calls, Dispatch(WithCondition(WithReferences(rec, values), ReferenceResolutionSuccess()), env))
        case AccessBlocked(msg) =>
          ResolutionFailed(rec, ReferenceResolutionBlocked(msg), env, calls)
        case ResolveFailed(msg) =>
          ResolutionFailed(rec, ReconcileError(msg), env, calls)
  }
}
