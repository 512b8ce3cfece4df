/**
  Properties of the reconciler: what each phase does to the outside world
  and to the record, how one call selects its phase, and what holds over a
  run of many calls against the record store.
 */
module Properties {
  import opened Basics
  import opened Conditions
  import opened Instance
  import opened Collaborators
  import opened Reconciler

  lemma EffectsOfEmpty()
    ensures EffectsOf([]) == NoEffects
  {
  }

  /** A trace of one call has that call's effect alone. */
  lemma EffectsOne(c: Call)
    ensures EffectsOf([c]) == Note(NoEffects, c)
  {
    assert [] + [c] == [c];
    EffectsSnoc([], c);
  }

  // ---------------------------------------------------------------- Create

  /** The provider created a new database with the password just generated. */
  predicate FreshCreate(env: Env) {
    env.password.Generated? && env.create.Ok?
  }

  /**
    The calls of Create: a password request, the create once a password
    exists, the credentials publish after a fresh create, then the write-back.
   */
  lemma CreateTrace(rec: Record, env: Env)
    ensures var out := Create(rec, env);
            var asked := [GeneratePassword(PasswordLength)];
            var created := if env.password.Generated?
                           then asked + [CreateInstance(ExternalName(rec), env.password.password, rec.spec)] else asked;
            var published := if FreshCreate(env)
                             then created + [PublishConnection(CredentialDetails(rec.spec.masterUsername, env.password.password))]
                             else created;
            out.calls == published + [UpdateRecord(out.record)]
  {
    var out := Create(rec, env);
    var asked := [GeneratePassword(PasswordLength)];
    match env.password
    case GenerationFailed(msg) =>
      assert out == CreateFailed(rec, msg, env, asked);
    case Generated(password) =>
      var created := asked + [CreateInstance(ExternalName(rec), password, rec.spec)];
      if !CreateAccepted(env.create) {
        assert out == CreateFailed(rec, env.create.err.msg, env, created);
      } else if env.create.Failed? {
        assert out == CreateRecorded(rec, env, created);
      } else {
        var published := created + [PublishConnection(CredentialDetails(rec.spec.masterUsername, password))];
        if env.publish.Failed? {
          assert out == CreateFailed(rec, env.publish.err.msg, env, published);
        } else {
          assert out == CreateRecorded(rec, env, published);
        }
      }
  }

  /** The effects of a password request, an optional create, an optional publish and a write-back. */
  lemma CreateShapeEffects(n: nat, create: Option<Call>, publish: Option<map<string, string>>, r: Record)
    requires create.Some? ==> create.value.CreateInstance?
    ensures var asked := [GeneratePassword(n)];
            var created := if create.Some? then asked + [create.value] else asked;
            var published := if publish.Some? then created + [PublishConnection(publish.value)] else created;
            EffectsOf(published + [UpdateRecord(r)])
              == NoEffects.(passwords := [n],
                            created := if create.Some? then [create.value] else [],
                            published := if publish.Some? then [publish.value] else [],
                            updated := [r])
  {
    var asked := [GeneratePassword(n)];
    var created := if create.Some? then asked + [create.value] else asked;
    var published := if publish.Some? then created + [PublishConnection(publish.value)] else created;
    EffectsOne(GeneratePassword(n));
    if create.Some? {
      EffectsSnoc(asked, create.value);
    }
    if publish.Some? {
      EffectsSnoc(created, PublishConnection(publish.value));
    }
    EffectsSnoc(published, UpdateRecord(r));
  }

  /**
    Create asks for one password of the configured length, creates at most
    one database, under the record's deterministic name, publishes the
    credentials only when that database is new, and writes the record back
    exactly once.
   */
  lemma CreateEffects(rec: Record, env: Env)
    ensures var out := Create(rec, env);
            var e := EffectsOf(out.calls);
            && e.passwords == [PasswordLength]
            && e.created == (if env.password.Generated?
                             then [CreateInstance(ExternalName(rec), env.password.password, rec.spec)] else [])
            && e.published == (if FreshCreate(env)
                               then [CredentialDetails(rec.spec.masterUsername, env.password.password)] else [])
            && e.updated == [out.record]
            && e.resolutions == 0 && e.described == [] && e.deleted == []
  {
    var out := Create(rec, env);
    CreateTrace(rec, env);
    var create := if env.password.Generated?
                  then Some(CreateInstance(ExternalName(rec), env.password.password, rec.spec)) else None;
    var publish := if FreshCreate(env)
                   then Some(CredentialDetails(rec.spec.masterUsername, env.password.password)) else None;
    CreateShapeEffects(PasswordLength, create, publish, out.record);
  }

  /**
    Create changes only the instance name, the owned finalizer and the
    Ready and Synced conditions, and returns the store's update error.
   */
  lemma CreateChangesOnlyItsFields(rec: Record, env: Env)
    ensures var out := Create(rec, env);
            && CreateFrame(rec, out.record)
            && SameForeignFinalizers(rec, out.record)
            && KeepsCondition(rec, out.record, ReferencesResolved)
            && ReturnsUpdateError(out, env)
  {
  }

  // ------------------------------------------------------------------ Sync

  /** The calls after the provider's answer: an endpoint publish for an available database, then the write-back. */
  lemma SyncObservedTrace(observed: Record, env: Env, calls: seq<Call>)
    ensures var out := SyncObserved(observed, env, calls);
            var publish := PublishConnection(EndpointDetails(observed.spec.masterUsername, observed.status.endpoint));
            out.calls == (if Classify(observed.status.state) == DbAvailable then calls + [publish] else calls) + [UpdateRecord(out.record)]
  {
    var out := SyncObserved(observed, env, calls);
    var status := observed.status.state;
    match Classify(status)
    case DbAvailable =>
      var bindable := SetBindable(WithCondition(observed, Available()));
      var published := calls + [PublishConnection(EndpointDetails(observed.spec.masterUsername, bindable.status.endpoint))];
      if env.publish.Failed? {
        assert out == Fail(bindable, env.publish.err.msg, env, published, PhaseSync);
      } else {
        assert out == Persist(WithCondition(bindable, ReconcileSuccess()), NoRequeue, env, published, PhaseSync);
      }
    case DbCreating =>
      assert out == Persist(WithConditions(observed, Creating(), ReconcileSuccess()), Requeue, env, calls, PhaseSync);
    case DbFailed =>
      assert out == Persist(WithConditions(observed, Unavailable(), ReconcileSuccess()), NoRequeue, env, calls, PhaseSync);
    case DbUnrecognised =>
      assert out == Fail(observed, UnexpectedStatus(status), env, calls, PhaseSync);
  }

  /** The calls of Sync: one describe, an endpoint publish for an available database, then the write-back. */
  lemma SyncTrace(rec: Record, env: Env)
    ensures var out := Sync(rec, env);
            var describe := [GetInstance(rec.status.instanceName)];
            out.calls == (if Observed(env, DbAvailable)
                          then describe + [PublishConnection(EndpointDetails(rec.spec.masterUsername, env.describe.db.endpoint))]
                          else describe) + [UpdateRecord(out.record)]
  {
    var out := Sync(rec, env);
    var calls := [GetInstance(rec.status.instanceName)];
    if env.describe.Found? {
      var observed := Observe(rec, env.describe.db);
      assert out == SyncObserved(observed, env, calls);
      SyncObservedTrace(observed, env, calls);
    } else {
      assert out == Fail(rec, env.describe.err.msg, env, calls, PhaseSync);
    }
  }

  /** The effects of a describe, an optional publish and a write-back. */
  lemma DescribeEffects(name: string, publish: Option<map<string, string>>, r: Record)
    ensures var describe := [GetInstance(name)];
            var calls := (if publish.Some? then describe + [PublishConnection(publish.value)] else describe) + [UpdateRecord(r)];
            EffectsOf(calls) == NoEffects.(described := [name], published := if publish.Some? then [publish.value] else [], updated := [r])
  {
    var describe := [GetInstance(name)];
    var mid := if publish.Some? then describe + [PublishConnection(publish.value)] else describe;
    EffectsOne(GetInstance(name));
    if publish.Some? {
      EffectsSnoc(describe, PublishConnection(publish.value));
    }
    EffectsSnoc(mid, UpdateRecord(r));
  }

  /** After the provider's answer only the conditions and the binding phase change, and the latter only for an available database. */
  lemma SyncObservedFrame(observed: Record, env: Env, calls: seq<Call>)
    ensures var out := SyncObserved(observed, env, calls);
            && out.record == observed.(status := observed.status.(conditions := out.record.status.conditions,
                                                                  bindingPhase := out.record.status.bindingPhase))
            && (out.record.status.bindingPhase != observed.status.bindingPhase ==> Classify(observed.status.state) == DbAvailable)
            && KeepsCondition(observed, out.record, ReferencesResolved)
  {
    var out := SyncObserved(observed, env, calls);
    var status := observed.status.state;
    match Classify(status)
    case DbAvailable =>
      var bindable := SetBindable(WithCondition(observed, Available()));
      var published := calls + [PublishConnection(EndpointDetails(observed.spec.masterUsername, bindable.status.endpoint))];
      if env.publish.Failed? {
        assert out == Fail(bindable, env.publish.err.msg, env, published, PhaseSync);
      } else {
        assert out == Persist(WithCondition(bindable, ReconcileSuccess()), NoRequeue, env, published, PhaseSync);
      }
      assert KeepsCondition(bindable, out.record, ReferencesResolved);
    case DbCreating =>
      assert out.record == WithConditions(observed, Creating(), ReconcileSuccess());
    case DbFailed =>
      assert out.record == WithConditions(observed, Unavailable(), ReconcileSuccess());
    case DbUnrecognised =>
      assert out == Fail(observed, UnexpectedStatus(status), env, calls, PhaseSync);
  }

  /**
    Sync describes the database under the recorded name once, publishes the
    endpoint only for an available database, and writes the record back
    exactly once; it never creates, deletes or asks for a password.
   */
  lemma SyncEffects(rec: Record, env: Env)
    ensures var out := Sync(rec, env);
            var e := EffectsOf(out.calls);
            && e.described == [rec.status.instanceName]
            && e.published == (if Observed(env, DbAvailable)
                               then [EndpointDetails(rec.spec.masterUsername, env.describe.db.endpoint)] else [])
            && e.updated == [out.record]
            && e.resolutions == 0 && e.passwords == [] && e.created == [] && e.deleted == []
  {
    var out := Sync(rec, env);
    SyncTrace(rec, env);
    var publish := if Observed(env, DbAvailable) then Some(EndpointDetails(rec.spec.masterUsername, env.describe.db.endpoint)) else None;
    DescribeEffects(rec.status.instanceName, publish, out.record);
  }

  /** What Sync may change: the observation, the conditions and the binding phase. */
  predicate SyncFrame(rec: Record, r: Record) {
    r == rec.(status := rec.status.(state := r.status.state, endpoint := r.status.endpoint, providerID := r.status.providerID,
                                    conditions := r.status.conditions, bindingPhase := r.status.bindingPhase))
  }

  /**
    Sync copies the provider's status, endpoint and ARN into the record
    before it looks at the status, whatever the status is; the binding phase
    changes only for an available database, and nothing else but the
    conditions changes.
   */
  lemma SyncRecordsObservation(rec: Record, env: Env)
    ensures var out := Sync(rec, env);
            && SyncFrame(rec, out.record)
            && (env.describe.Found? ==>
                  && out.record.status.state == env.describe.db.status
                  && out.record.status.endpoint == env.describe.db.endpoint
                  && out.record.status.providerID == env.describe.db.arn)
            && (env.describe.LookupFailed? ==> OnlyConditionsChanged(rec, out.record))
            && (out.record.status.bindingPhase != rec.status.bindingPhase ==> Observed(env, DbAvailable))
            && KeepsCondition(rec, out.record, ReferencesResolved)
            && ReturnsUpdateError(out, env)
  {
    if env.describe.Found? {
      SyncObservedFrame(Observe(rec, env.describe.db), env, [GetInstance(rec.status.instanceName)]);
    }
  }

  // ---------------------------------------------------------------- Delete

  /** The calls of Delete: the provider delete under the Delete reclaim policy, then the write-back. */
  lemma DeleteTrace(rec: Record, env: Env)
    ensures var out := Delete(rec, env);
            out.calls == (if rec.spec.reclaimPolicy == ReclaimDelete then [DeleteInstance(rec.status.instanceName)] else [])
                         + [UpdateRecord(out.record)]
  {
    var out := Delete(rec, env);
    var deleting := WithCondition(rec, Deleting());
    var calls := if rec.spec.reclaimPolicy == ReclaimDelete then [DeleteInstance(rec.status.instanceName)] else [];
    if DeleteConfirmed(rec, env) {
      var released := RemoveFinalizer(deleting, Finalizer);
      assert out == Persist(WithCondition(released, ReconcileSuccess()), NoRequeue, env, calls, PhaseDelete);
    } else {
      assert out == Fail(deleting, env.delete.err.msg, env, calls, PhaseDelete);
    }
  }

  /** The effects of an optional delete and a write-back. */
  lemma DeleteShapeEffects(deleted: Option<string>, r: Record)
    ensures var calls := if deleted.Some? then [DeleteInstance(deleted.value)] else [];
            EffectsOf(calls + [UpdateRecord(r)])
              == NoEffects.(deleted := if deleted.Some? then [deleted.value] else [], updated := [r])
  {
    var calls := if deleted.Some? then [DeleteInstance(deleted.value)] else [];
    if deleted.Some? {
      EffectsOne(DeleteInstance(deleted.value));
    }
    EffectsSnoc(calls, UpdateRecord(r));
  }

  /**
    Delete calls the provider only under the Delete reclaim policy, with the
    recorded name, and writes the record back exactly once.
   */
  lemma DeleteEffects(rec: Record, env: Env)
    ensures var out := Delete(rec, env);
            var e := EffectsOf(out.calls);
            && e.deleted == (if rec.spec.reclaimPolicy == ReclaimDelete then [rec.status.instanceName] else [])
            && e.updated == [out.record]
            && e.resolutions == 0 && e.passwords == [] && e.created == [] && e.described == [] && e.published == []
  {
    var out := Delete(rec, env);
    DeleteTrace(rec, env);
    DeleteShapeEffects(if rec.spec.reclaimPolicy == ReclaimDelete then Some(rec.status.instanceName) else None, out.record);
  }

  /**
    Delete changes only the owned finalizer and the conditions: the deletion
    timestamp and every other finalizer stay as they were.
   */
  lemma DeleteChangesOnlyFinalizer(rec: Record, env: Env)
    ensures var out := Delete(rec, env);
            && out.record == rec.(finalizers := out.record.finalizers,
                                  status := rec.status.(conditions := out.record.status.conditions))
            && SameForeignFinalizers(rec, out.record)
            && KeepsCondition(rec, out.record, ReferencesResolved)
            && ReturnsUpdateError(out, env)
  {
    var deleting := WithCondition(rec, Deleting());
    var calls := if rec.spec.reclaimPolicy == ReclaimDelete then [DeleteInstance(rec.status.instanceName)] else [];
    if DeleteConfirmed(rec, env) {
      var released := RemoveFinalizer(deleting, Finalizer);
      assert Delete(rec, env) == Persist(WithCondition(released, ReconcileSuccess()), NoRequeue, env, calls, PhaseDelete);
    } else {
      assert Delete(rec, env) == Fail(deleting, env.delete.err.msg, env, calls, PhaseDelete);
    }
  }

  // ------------------------------------------------------------- Reconcile

  /** The calls before the phase touch nothing but the reference resolver. */
  lemma PrefixEffects()
    ensures EffectsOf([GetRecord, Connect]) == NoEffects
    ensures EffectsOf([GetRecord, Connect] + [ResolveReferences]) == NoEffects.(resolutions := 1)
  {
    EffectsOne(GetRecord);
    assert [GetRecord] + [Connect] == [GetRecord, Connect];
    EffectsSnoc([GetRecord], Connect);
    EffectsSnoc([GetRecord, Connect], ResolveReferences);
  }

  /** No published payload carries a password. */
  predicate NoCredentials(e: Effects) {
    forall i :: 0 <= i < |e.published| ==> PasswordKey !in e.published[i]
  }

  /**
    Every CreateInstance call uses the record's deterministic name and the
    spec the user declared; the referenced values are whatever the resolver
    filled in.
   */
  predicate CreatesAs(e: Effects, rec: Record) {
    forall i :: 0 <= i < |e.created| ==>
      e.created[i].CreateInstance? && e.created[i].name == ExternalName(rec) && SameDeclared(e.created[i].spec, rec.spec)
  }

  /**
    The phase a record selects is the only one that reaches the provider:
    Delete only deletes, Create only asks for a password, creates and
    publishes credentials, Sync only describes and publishes the endpoint.
   */
  lemma DispatchEffects(rec: Record, env: Env)
    ensures var out := Dispatch(rec, env);
            var e := EffectsOf(out.calls);
            && e.resolutions == 0 && e.updated == [out.record]
            && (rec.deletionTimestamp.Some? ==>
                  && e.deleted == (if rec.spec.reclaimPolicy == ReclaimDelete then [rec.status.instanceName] else [])
                  && e.passwords == [] && e.created == [] && e.described == [] && e.published == [])
            && (rec.deletionTimestamp.None? && rec.status.instanceName == "" ==>
                  && e.passwords == [PasswordLength]
                  && e.created == (if env.password.Generated?
                                   then [CreateInstance(ExternalName(rec), env.password.password, rec.spec)] else [])
                  && e.published == (if FreshCreate(env)
                                     then [CredentialDetails(rec.spec.masterUsername, env.password.password)] else [])
                  && e.described == [] && e.deleted == [])
            && (rec.deletionTimestamp.None? && rec.status.instanceName != "" ==>
                  && e.described == [rec.status.instanceName]
                  && NoCredentials(e)
                  && e.passwords == [] && e.created == [] && e.deleted == [])
  {
    if rec.deletionTimestamp.Some? {
      assert Dispatch(rec, env) == Delete(rec, env);
      DeleteEffects(rec, env);
    } else if rec.status.instanceName == "" {
      assert Dispatch(rec, env) == Create(rec, env);
      CreateEffects(rec, env);
    } else {
      assert Dispatch(rec, env) == Sync(rec, env);
      SyncEffects(rec, env);
    }
  }

  /**
    Whatever phase runs, the record keeps its identity, its whole spec, its
    deletion timestamp, its foreign finalizers and its reference condition,
    and the instance name changes only when Create records the
    deterministic name in place of an empty one.
   */
  lemma DispatchFrame(rec: Record, env: Env)
    ensures var out := Dispatch(rec, env);
            && SameIdentity(rec, out.record) && out.record.spec == rec.spec
            && SameForeignFinalizers(rec, out.record)
            && KeepsCondition(rec, out.record, ReferencesResolved)
            && (|| out.record.status.instanceName == rec.status.instanceName
                || (rec.status.instanceName == "" && out.record.status.instanceName == ExternalName(rec)))
  {
    if rec.deletionTimestamp.Some? {
      DeleteChangesOnlyFinalizer(rec, env);
    } else if rec.status.instanceName == "" {
      CreateChangesOnlyItsFields(rec, env);
    } else {
      SyncRecordsObservation(rec, env);
    }
  }

  /**
    The record the phase starts from: when resolution runs and succeeds, it
    fills the referenced values into the spec and marks the references
    resolved; a record whose references were resolved before is used as read.
   */
  function Admitted(rec: Record, resolve: Resolution): (r: Record)
    requires ReferencesResolvedTrue(rec) || resolve.Resolved?
    ensures ReferencesResolvedTrue(r)
    ensures ReferencesResolvedTrue(rec) ==> r == rec
    ensures !ReferencesResolvedTrue(rec) ==> HasCondition(r, ReferenceResolutionSuccess())
    ensures r.spec == (if ReferencesResolvedTrue(rec) then rec.spec else rec.spec.(referenced := resolve.values))
    ensures r == rec.(spec := r.spec, status := rec.status.(conditions := r.status.conditions))
    ensures forall t :: t != ReferencesResolved ==> KeepsCondition(rec, r, t)
  {
    if ReferencesResolvedTrue(rec) then rec
    else WithCondition(WithReferences(rec, resolve.values), ReferenceResolutionSuccess())
  }

  /**
    A call that gets past the client and the references is the selected
    phase run on the admitted record, with only the resolution (when it ran)
    in front of it.
   */
  lemma ReconcileProceeds(rec: Record, env: Env)
    requires Proceeds(rec, env)
    ensures var out := Reconcile(rec, env);
            var d := Dispatch(Admitted(rec, env.resolve), env);
            && out.record == d.record && out.hint == d.hint && out.err == d.err
            && EffectsOf(out.calls) == Combine(NoEffects.(resolutions := if ReferencesResolvedTrue(rec) then 0 else 1), EffectsOf(d.calls))
  {
    var out := Reconcile(rec, env);
    var d := Dispatch(Admitted(rec, env.resolve), env);
    var prefix := if ReferencesResolvedTrue(rec) then [GetRecord, Connect] else [GetRecord, Connect] + [ResolveReferences];
    assert out == Prefixed(prefix, d);
    PrefixEffects();
    EffectsAppend(prefix, d.calls);
  }

  /** A call that stops before the phase reaches no database and publishes nothing. */
  lemma ReconcileStops(rec: Record, env: Env)
    requires !Proceeds(rec, env)
    ensures var out := Reconcile(rec, env);
            var e := EffectsOf(out.calls);
            && e == NoEffects.(resolutions := e.resolutions, updated := e.updated)
            && (env.fetch.Failed? ==> e == NoEffects)
            && (env.fetch.Ok? ==> e.updated == [out.record])
            && e.resolutions == (if env.fetch.Ok? && env.connect.Ok? then 1 else 0)
  {
    var out := Reconcile(rec, env);
    if env.fetch.Failed? {
      EffectsOne(GetRecord);
    } else {
      PrefixEffects();
      var calls := [GetRecord, Connect];
      if env.connect.Failed? {
        assert out == Fail(rec, env.connect.err.msg, env, calls, PhaseConnect);
        assert out.calls == calls + [UpdateRecord(out.record)];
        EffectsSnoc(calls, UpdateRecord(out.record));
      } else {
        var resolving := calls + [ResolveReferences];
        var c := if env.resolve.AccessBlocked? then ReferenceResolutionBlocked(env.resolve.msg) else ReconcileError(env.resolve.msg);
        assert out == ResolutionFailed(rec, c, env, resolving);
        assert out.calls == resolving + [UpdateRecord(out.record)];
        EffectsSnoc(resolving, UpdateRecord(out.record));
      }
    }
  }

  /** Combining the effects of a trace that only resolved references in front of `e`. */
  lemma CombineResolutions(k: nat, e: Effects)
    ensures Combine(NoEffects.(resolutions := k), e) == e.(resolutions := k + e.resolutions)
  {
    assert [] + e.passwords == e.passwords && [] + e.created == e.created && [] + e.described == e.described;
    assert [] + e.deleted == e.deleted && [] + e.published == e.published && [] + e.updated == e.updated;
  }

  /**
    Branch selection, seen from outside: a call that does not get past the
    client or the references touches no database; one that does reaches
    exactly the provider calls of the phase its record selects. References
    are resolved once, and only when they were not resolved before, and the
    record is written back whenever it was read.
   */
  lemma BranchSelection(rec: Record, env: Env)
    ensures var out := Reconcile(rec, env);
            var e := EffectsOf(out.calls);
            && (env.fetch.Failed? ==> e == NoEffects)
            && (env.fetch.Ok? ==> e.updated == [out.record])
            && e.resolutions == (if env.fetch.Ok? && env.connect.Ok? && !ReferencesResolvedTrue(rec) then 1 else 0)
            && (!Proceeds(rec, env) ==>
                  e.passwords == [] && e.created == [] && e.described == [] && e.deleted == [] && e.published == [])
            && (Proceeds(rec, env) && rec.deletionTimestamp.Some? ==>
                  && e.deleted == (if rec.spec.reclaimPolicy == ReclaimDelete then [rec.status.instanceName] else [])
                  && e.passwords == [] && e.created == [] && e.described == [] && e.published == [])
            && (Proceeds(rec, env) && rec.deletionTimestamp.None? && rec.status.instanceName == "" ==>
                  e.passwords == [PasswordLength] && e.described == [] && e.deleted == [])
            && (Proceeds(rec, env) && rec.deletionTimestamp.None? && rec.status.instanceName != "" ==>
                  e.described == [rec.status.instanceName] && e.passwords == [] && e.created == [] && e.deleted == [])
  {
    if Proceeds(rec, env) {
      ReconcileProceeds(rec, env);
      var d := Dispatch(Admitted(rec, env.resolve), env);
      DispatchEffects(Admitted(rec, env.resolve), env);
      CombineResolutions(if ReferencesResolvedTrue(rec) then 0 else 1, EffectsOf(d.calls));
    } else {
      ReconcileStops(rec, env);
    }
  }

  /**
    One call keeps the record's identity, declared spec, deletion timestamp
    and foreign finalizers; the referenced values change only when the call
    resolves the references, to the values the resolver filled in; resolved
    references stay resolved and a call that proceeds leaves them resolved;
    the instance name only ever goes from empty to the deterministic name.
   */
  lemma ReconcileFrame(rec: Record, env: Env)
    ensures var out := Reconcile(rec, env);
            && SameIdentity(rec, out.record)
            && out.record.spec == (if Proceeds(rec, env) && !ReferencesResolvedTrue(rec)
                                   then rec.spec.(referenced := env.resolve.values) else rec.spec)
            && SameForeignFinalizers(rec, out.record)
            && (ReferencesResolvedTrue(rec) || Proceeds(rec, env) ==> ReferencesResolvedTrue(out.record))
            && (|| out.record.status.instanceName == rec.status.instanceName
                || (rec.status.instanceName == "" && out.record.status.instanceName == ExternalName(rec)))
  {
    var out := Reconcile(rec, env);
    if Proceeds(rec, env) {
      ReconcileProceeds(rec, env);
      DispatchFrame(Admitted(rec, env.resolve), env);
    } else if env.fetch.Ok? && env.connect.Failed? {
      assert out == Fail(rec, env.connect.err.msg, env, [GetRecord, Connect], PhaseConnect);
    }
  }

  /** The deterministic name is never empty, so it marks the record as provisioned. */
  lemma ExternalNameNonEmpty(rec: Record)
    ensures ExternalName(rec) != ""
  {
    assert |ExternalName(rec)| == |rec.spec.engine| + 1 + |rec.uid|;
  }

  /**
    Create as reached through a reconcile call: the database is created
    under the deterministic name with the spec as resolved, credentials are published only for a new
    database, and the record ends up provisioned exactly when the create
    succeeded; a failed create leaves the name empty and the finalizers
    untouched.
   */
  lemma ReconcileCreate(rec: Record, env: Env)
    requires Proceeds(rec, env) && rec.deletionTimestamp.None? && rec.status.instanceName == ""
    ensures var out := Reconcile(rec, env);
            var e := EffectsOf(out.calls);
            && e.created == (if env.password.Generated?
                             then [CreateInstance(ExternalName(rec), env.password.password, Admitted(rec, env.resolve).spec)] else [])
            && e.published == (if FreshCreate(env)
                               then [CredentialDetails(rec.spec.masterUsername, env.password.password)] else [])
            && out.hint == Requeue
            && (out.record.status.instanceName != "" <==> CreateSucceeds(env))
            && (CreateSucceeds(env) ==>
                  && out.record.status.instanceName == ExternalName(rec)
                  && Finalizer in out.record.finalizers
                  && HasCondition(out.record, ReconcileSuccess()))
            && (!CreateSucceeds(env) ==>
                  && ReconcileFailed(out.record) && out.record.finalizers == rec.finalizers
                  && HasCondition(out.record, ReconcileError(CreateError(env))))
  {
    var admitted := Admitted(rec, env.resolve);
    ReconcileProceeds(rec, env);
    var d := Dispatch(admitted, env);
    DispatchEffects(admitted, env);
    CombineResolutions(if ReferencesResolvedTrue(rec) then 0 else 1, EffectsOf(d.calls));
    ExternalNameNonEmpty(rec);
    assert ExternalName(admitted) == ExternalName(rec);
  }

  /**
    A create that fails leaves the stored name empty, so the next call on
    the stored record selects Create again rather than Sync; one that
    succeeds and is stored selects Sync next.
   */
  lemma CreateRetriesUntilStored(rec: Record, env: Env)
    requires Proceeds(rec, env) && rec.deletionTimestamp.None? && rec.status.instanceName == ""
    ensures !CreateSucceeds(env) ==> SelectedPhase(Next(rec, env)) == PhaseCreate
    ensures CreateSucceeds(env) && env.update.Ok? ==> SelectedPhase(Next(rec, env)) == PhaseSync
  {
    ReconcileCreate(rec, env);
    ReconcileFrame(rec, env);
  }

  // ------------------------------------------------------------------ Runs

  /**
    The record the store holds after one call: what the call wrote back when
    it read the record and its update went through, the old record otherwise.
   */
  function Next(rec: Record, env: Env): Record {
    var out := Reconcile(rec, env);
    if env.fetch.Ok? && env.update.Ok? then out.record else rec
  }

  datatype RunResult = RunResult(record: Record, calls: seq<Call>)

  /** Calls the reconciler once per environment, each call starting from the record the store holds. */
  function Run(rec: Record, envs: seq<Env>): RunResult
    decreases |envs|
  {
    if |envs| == 0 then RunResult(rec, [])
    else
      var rest := Run(Next(rec, envs[0]), envs[1..]);
      RunResult(rest.record, Reconcile(rec, envs[0]).calls + rest.calls)
  }

  /**
    One call, as seen by the store, keeps what the record is; once its
    references are resolved, they stay resolved, the spec no longer changes
    and the resolver is not called.
   */
  lemma NextKeeps(rec: Record, env: Env)
    ensures var next := Next(rec, env);
            && SameIdentity(rec, next)
            && SameForeignFinalizers(rec, next)
            && (ReferencesResolvedTrue(rec) ==>
                  && ReferencesResolvedTrue(next) && next.spec == rec.spec
                  && EffectsOf(Reconcile(rec, env).calls).resolutions == 0)
  {
    ReconcileFrame(rec, env);
    BranchSelection(rec, env);
  }

  /** A call on a provisioned record keeps its name, creates nothing and publishes no password. */
  lemma NextNamed(rec: Record, env: Env)
    requires rec.status.instanceName != ""
    ensures var e := EffectsOf(Reconcile(rec, env).calls);
            && Next(rec, env).status.instanceName == rec.status.instanceName
            && e.created == []
            && NoCredentials(e)
  {
    ReconcileFrame(rec, env);
    BranchSelection(rec, env);
    if Proceeds(rec, env) && rec.deletionTimestamp.None? {
      var admitted := Admitted(rec, env.resolve);
      ReconcileProceeds(rec, env);
      var d := Dispatch(admitted, env);
      DispatchEffects(admitted, env);
      CombineResolutions(if ReferencesResolvedTrue(rec) then 0 else 1, EffectsOf(d.calls));
    }
  }

  /**
    Whatever one call creates carries the record's deterministic name and
    its declared spec; the spec it creates with is exactly the spec the call
    leaves in the record, referenced values included.
   */
  lemma NextCreatesAs(rec: Record, env: Env)
    ensures var out := Reconcile(rec, env);
            var e := EffectsOf(out.calls);
            && CreatesAs(e, rec)
            && forall c :: c in e.created ==> c.CreateInstance? && c.spec == out.record.spec
  {
    BranchSelection(rec, env);
    if Proceeds(rec, env) && rec.deletionTimestamp.None? && rec.status.instanceName == "" {
      ReconcileCreate(rec, env);
      ReconcileFrame(rec, env);
    }
  }

  lemma CombineCreatesAs(a: Effects, b: Effects, rec: Record)
    requires CreatesAs(a, rec) && CreatesAs(b, rec)
    ensures CreatesAs(Combine(a, b), rec)
  {
    var c := Combine(a, b).created;
    forall i | 0 <= i < |c|
      ensures c[i].CreateInstance? && c[i].name == ExternalName(rec) && SameDeclared(c[i].spec, rec.spec)
    {
      if i < |a.created| {
        assert c[i] == a.created[i];
      } else {
        assert c[i] == b.created[i - |a.created|];
      }
    }
  }

  lemma CombineNoCredentials(a: Effects, b: Effects)
    requires NoCredentials(a) && NoCredentials(b)
    ensures NoCredentials(Combine(a, b))
  {
    var p := Combine(a, b).published;
    forall i | 0 <= i < |p| ensures PasswordKey !in p[i] {
      if i < |a.published| {
        assert p[i] == a.published[i];
      } else {
        assert p[i] == b.published[i - |a.published|];
      }
    }
  }

  /**
    Over any run, the record keeps its identity, declared spec, deletion
    timestamp and foreign finalizers; once its references are resolved they
    stay resolved, the spec never changes again and the resolver is never
    called again.
   */
  lemma {:induction false} RunKeepsIdentity(rec: Record, envs: seq<Env>)
    ensures var run := Run(rec, envs);
            && SameIdentity(rec, run.record)
            && SameForeignFinalizers(rec, run.record)
            && (ReferencesResolvedTrue(rec) ==>
                  && ReferencesResolvedTrue(run.record) && run.record.spec == rec.spec
                  && EffectsOf(run.calls).resolutions == 0)
    decreases |envs|
  {
    EffectsOfEmpty();
    if |envs| > 0 {
      var next := Next(rec, envs[0]);
      NextKeeps(rec, envs[0]);
      RunKeepsIdentity(next, envs[1..]);
      EffectsAppend(Reconcile(rec, envs[0]).calls, Run(next, envs[1..]).calls);
    }
  }

  /**
    Once the instance name is stored, no later call creates a database or
    publishes a password, and the name never changes again.
   */
  lemma {:induction false} RunNamedNeverCreates(rec: Record, envs: seq<Env>)
    requires rec.status.instanceName != ""
    ensures var run := Run(rec, envs);
            && run.record.status.instanceName == rec.status.instanceName
            && EffectsOf(run.calls).created == []
            && NoCredentials(EffectsOf(run.calls))
    decreases |envs|
  {
    EffectsOfEmpty();
    if |envs| > 0 {
      var next := Next(rec, envs[0]);
      NextNamed(rec, envs[0]);
      NextKeeps(rec, envs[0]);
      RunNamedNeverCreates(next, envs[1..]);
      var a, b := EffectsOf(Reconcile(rec, envs[0]).calls), EffectsOf(Run(next, envs[1..]).calls);
      EffectsAppend(Reconcile(rec, envs[0]).calls, Run(next, envs[1..]).calls);
      CombineNoCredentials(a, b);
    }
  }

  /** Every database a run creates carries the record's deterministic name and its spec. */
  lemma {:induction false} RunCreatesAs(rec: Record, envs: seq<Env>)
    ensures CreatesAs(EffectsOf(Run(rec, envs).calls), rec)
    decreases |envs|
  {
    EffectsOfEmpty();
    if |envs| > 0 {
      var next := Next(rec, envs[0]);
      NextKeeps(rec, envs[0]);
      NextCreatesAs(rec, envs[0]);
      RunCreatesAs(next, envs[1..]);
      assert ExternalName(next) == ExternalName(rec);
      var a, b := EffectsOf(Reconcile(rec, envs[0]).calls), EffectsOf(Run(next, envs[1..]).calls);
      EffectsAppend(Reconcile(rec, envs[0]).calls, Run(next, envs[1..]).calls);
      CombineCreatesAs(a, b, rec);
    }
  }

  // ------------------------------------------------------------ Conditions

  /** Delete stores conditions under their own types only. */
  lemma DeleteKeepsWellKeyed(rec: Record, env: Env)
    requires WellKeyed(rec.status.conditions)
    ensures WellKeyed(Delete(rec, env).record.status.conditions)
  {
    var out := Delete(rec, env);
    var deleting := WithCondition(rec, Deleting());
    if DeleteConfirmed(rec, env) {
      assert out.record == WithCondition(RemoveFinalizer(deleting, Finalizer), ReconcileSuccess());
    } else {
      assert out.record == WithCondition(deleting, ReconcileError(env.delete.err.msg));
    }
  }

  /** Create stores conditions under their own types only. */
  lemma CreateKeepsWellKeyed(rec: Record, env: Env)
    requires WellKeyed(rec.status.conditions)
    ensures WellKeyed(Create(rec, env).record.status.conditions)
  {
    var out := Create(rec, env);
    var creating := WithCondition(rec, Creating());
    if CreateSucceeds(env) {
      var named := creating.(status := creating.status.(instanceName := ExternalName(rec)));
      assert out.record == WithCondition(AddFinalizer(named, Finalizer), ReconcileSuccess());
    } else {
      var msg := if env.password.GenerationFailed? then env.password.msg
                 else if !CreateAccepted(env.create) then env.create.err.msg
                 else env.publish.err.msg;
      assert out.record == WithCondition(creating, ReconcileError(msg));
    }
  }

  /** Sync stores conditions under their own types only. */
  lemma SyncKeepsWellKeyed(rec: Record, env: Env)
    requires WellKeyed(rec.status.conditions)
    ensures WellKeyed(Sync(rec, env).record.status.conditions)
  {
    var out := Sync(rec, env);
    if env.describe.LookupFailed? {
      assert out.record == WithCondition(rec, ReconcileError(env.describe.err.msg));
    } else {
      var observed := Observe(rec, env.describe.db);
      var status := observed.status.state;
      match Classify(status)
      case DbCreating =>
        assert out.record == WithConditions(observed, Creating(), ReconcileSuccess());
      case DbFailed =>
        assert out.record == WithConditions(observed, Unavailable(), ReconcileSuccess());
      case DbAvailable =>
        var bindable := SetBindable(WithCondition(observed, Available()));
        if env.publish.Failed? {
          assert out.record == WithCondition(bindable, ReconcileError(env.publish.err.msg));
        } else {
          assert out.record == WithCondition(bindable, ReconcileSuccess());
        }
      case DbUnrecognised =>
        assert out.record == WithCondition(observed, ReconcileError(UnexpectedStatus(status)));
    }
  }

  /**
    A reconcile call keeps the conditions keyed by their types: every
    condition it stores replaces the entry of its own type.
   */
  lemma ReconcileKeepsWellKeyed(rec: Record, env: Env)
    requires WellKeyed(rec.status.conditions)
    ensures WellKeyed(Reconcile(rec, env).record.status.conditions)
  {
    var out := Reconcile(rec, env);
    if Proceeds(rec, env) {
      ReconcileProceeds(rec, env);
      var admitted := Admitted(rec, env.resolve);
      assert WellKeyed(admitted.status.conditions);
      if admitted.deletionTimestamp.Some? {
        DeleteKeepsWellKeyed(admitted, env);
      } else if admitted.status.instanceName == "" {
        CreateKeepsWellKeyed(admitted, env);
      } else {
        SyncKeepsWellKeyed(admitted, env);
      }
    } else if env.fetch.Ok? && env.connect.Failed? {
      assert out.record == WithCondition(rec, ReconcileError(env.connect.err.msg));
    }
  }
}
