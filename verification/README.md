# RDS instance reconciler, modelled in Dafny

This project models the lifecycle reconciler for AWS RDS database instances
in `pkg/controller/rds/rdsinstance.go`. The reconciler belongs to a
Crossplane provider. Each time the dispatcher invokes it, it reads an
`RDSInstance` record and builds an RDS client. It resolves the record's
cross-resource references while they are not yet resolved. It then derives
the phase from the record's fields:

- a deletion timestamp selects Delete;
- otherwise an empty `Status.InstanceName` selects Create;
- otherwise Sync runs.

Each phase sets status conditions and writes the record back. It returns a
requeue hint: `resultRequeue` (retry now) or `result` (no retry). Only the
exit for a failed reference resolution returns a 60-second `RequeueAfter`.

One call is the pure function `Reconciler.Reconcile(rec, env)`:

- `rec` is the record as the store holds it.
- `env` (`Collaborators.Env`) fixes the outcome of every external call:
  - the record store's get and update;
  - client construction (`_connect`);
  - reference resolution;
  - password generation;
  - RDS create, describe and delete;
  - connection-secret publishing.
- The result (`StepOutcome`) holds:
  - the record as the call left it;
  - the hint, and the returned error;
  - the phase that produced the outcome;
  - the trace of external calls, in order.

`Collaborators.EffectsOf` sums a trace up call kind by call kind. It gives
the passwords requested, the databases created, described and deleted, the
payloads published and the records written back.

`Properties.Next` is the record the store holds after one call.
`Properties.Run` chains calls, each starting from the stored record, which
lets properties be stated over any sequence of invocations.

Files:

- `basics.dfy`: the shared `Option` type.
- `conditions.dfy`: condition types, the conditions the controller sets, and
  last-write-wins storage of conditions keyed by type.
- `instance.dfy`: the record (`Spec`, `Status`, metadata), the deterministic
  external name, finalizer add/remove, and the bindable marking.
- `collaborators.dfy`: collaborator outcomes, the call trace and its effect
  summary.
- `reconciler.dfy`: `fail`, `_create`, `_sync`, `_delete` and `Reconcile`.
- `properties.dfy`: phase effects and frames, branch selection, and
  properties over runs.

The vocabulary of the crossplane-runtime library is taken as follows:

- Conditions:
  - Creating, Deleting, Available and Unavailable have type Ready.
  - ReconcileSuccess and ReconcileError have type Synced.
  - The reference-resolution conditions have type ReferencesResolved.
  - `SetConditions` replaces the entry of each condition's type.
- Connection-secret keys are `username`, `password` and `endpoint`.
- `SetBindable` leaves a Bound record Bound and marks any other record Unbound.
- The RDS status strings are `creating`, `failed` and `available`. `Reconciler.Classify` reads a status string as one of these three or as unrecognised, and the sync mapping is stated over that reading.
- `errors.Wrap(err, msg)` is `msg + ": " + err`, and nil when `err` is nil.

Every `GetInstance` error, NotFound included, goes through `fail`
(`rdsinstance.go:153-156`); `Reconciler.Sync` does the same.

`StepOutcome.phase` is a tag the model adds: the reconciler returns only a
result and an error. The tag names the branch that produced the outcome,
and every branch's observable consequences are stated on the record, the
hint and the calls as well.

`Spec.referenced` stands for the spec fields that cross-resource
references fill in. A successful `ResolveReferences` (`rdsinstance.go:226`)
replaces them with the values it resolved (`Resolution.Resolved`), and the
phase then runs on, creates with and writes back that resolved spec. The
engine, the master user name and the reclaim policy are the declared spec
(`Instance.SameDeclared`); they are not reference fields.

## Model

| member | source | states |
|---|---|---|
| Reconciler.Reconcile | pkg/controller/rds/rdsinstance.go:204-252 | A missing record ends the call with no error and no requeue. Any other read error is returned unchanged. A client failure goes through fail: ReconcileError with the client error, Requeue, every condition other than Synced kept, the record written back once after GetRecord and Connect, and the update error returned. A failed resolution returns RequeueAfter 60 s and changes only the conditions, keeping Ready: ReferenceResolutionBlocked for access errors (Synced untouched), otherwise ReconcileError (ReferencesResolved untouched). The error is empty when the write-back succeeds and otherwise is the update error wrapped in "cannot update managed resource status". A call that proceeds runs the phase its deletion timestamp and name select. |
| Reconciler.Fail | pkg/controller/rds/rdsinstance.go:101-104 | Sets ReconcileError carrying the error text and returns Requeue. No other condition type or field changes. The trace gains exactly one update carrying the record, and the returned error is the store's update error unchanged. |
| Reconciler.Persist | pkg/controller/rds/rdsinstance.go:148 | Returns the record and hint it was given. It appends exactly one update, carrying the record, to the trace. The returned error is the store's update error unchanged, and none when the update went through. |
| Reconciler.WithCondition | pkg/controller/rds/rdsinstance.go:117 | The new condition is stored under its type. Other types and all other fields are unchanged. |
| Reconciler.WithConditions | pkg/controller/rds/rdsinstance.go:165 | Setting two conditions of different types in one call keeps both. A third type is untouched. |
| Reconciler.CreateFailed | pkg/controller/rds/rdsinstance.go:117-141 | A failed create keeps Creating, records ReconcileError and returns Requeue. Only conditions change: the name stays empty and the finalizers are as before. It writes back once and returns the update error unchanged. |
| Reconciler.CreateRecorded | pkg/controller/rds/rdsinstance.go:144-148 | An accepted create sets the name to Engine-UID and adds the owned finalizer. Other finalizers stay, and Creating plus ReconcileSuccess are set. It returns Requeue. Nothing but the name, finalizers and conditions changes. It writes back once and returns the update error unchanged. |
| Reconciler.Create | pkg/controller/rds/rdsinstance.go:116-149 | Always sets Creating and returns Requeue. On success (password generated, create Ok or AlreadyExists, publish Ok after a fresh create) it sets the name to Engine-UID, adds the finalizer and sets ReconcileSuccess. Otherwise the name and finalizers are unchanged and Synced is ReconcileError carrying the first failure: the password error, else the create error, else the publish error. |
| Reconciler.Classify | pkg/controller/rds/rdsinstance.go:163-173 | A provider status reads as creating, failed or available exactly when it is that string; every other string is unrecognised. |
| Reconciler.SyncObserved | pkg/controller/rds/rdsinstance.go:163-185 | The status mapping is as follows. "creating" gives Creating and ReconcileSuccess with Requeue. "failed" gives Unavailable and ReconcileSuccess with no requeue. "available" gives Available, and the binding phase becomes Bound if it already was and Unbound otherwise; then ReconcileSuccess with no requeue if publishing succeeds, else ReconcileError with Requeue. Any other status gives a ReconcileError naming the status, leaves Ready untouched and returns Requeue. |
| Reconciler.Observe | pkg/controller/rds/rdsinstance.go:158-161 | The provider's status, endpoint and ARN go into State, Endpoint and ProviderID; conditions, name, binding phase, spec, identity and finalizers are unchanged. |
| Reconciler.CredentialDetails | pkg/controller/rds/rdsinstance.go:136-139 | The payload after a fresh create has exactly the keys username and password, holding the master user name and the generated password. |
| Reconciler.EndpointDetails | pkg/controller/rds/rdsinstance.go:177-180 | The payload for an available database has exactly the keys username and endpoint, holding the master user name and the endpoint, and no password key. |
| Reconciler.Sync | pkg/controller/rds/rdsinstance.go:151-186 | A describe error goes through fail and changes only the conditions. A described database is mapped by its status as in SyncObserved. An available database leaves the binding phase Bound if the record was Bound and Unbound otherwise. |
| Reconciler.Delete | pkg/controller/rds/rdsinstance.go:188-200 | Always sets Deleting. If the policy is not Delete, or the delete succeeds, or it reports NotFound, the owned finalizer is removed, ReconcileSuccess is set and there is no requeue. Otherwise the finalizers are unchanged and a ReconcileError with Requeue is returned. |
| Reconciler.Dispatch | pkg/controller/rds/rdsinstance.go:240-251 | A deletion timestamp runs Delete (Deleting is set). Otherwise an empty name runs Create (Creating is set, Requeue). Otherwise Sync runs: a describe error is recorded as ReconcileError, an available database as Available. |
| Reconciler.ResolutionFailed | pkg/controller/rds/rdsinstance.go:226-233 | A failed resolution stores its condition, changes nothing else, writes back once and returns RequeueAfter 60 s. The error is the update error wrapped in "cannot update managed resource status", or none. |
| Instance.AddFinalizer | pkg/controller/rds/rdsinstance.go:145 | The finalizer is present afterwards, other finalizers are unchanged, and nothing else in the record changes. |
| Instance.RemoveFinalizer | pkg/controller/rds/rdsinstance.go:197 | The finalizer is absent afterwards, other finalizers are unchanged, and nothing else in the record changes. |
| Instance.SetBindable | pkg/controller/rds/rdsinstance.go:172 | The binding phase ends Unbound or Bound, and Bound exactly when it was Bound. Nothing else changes. |
| Instance.ExternalName | pkg/controller/rds/rdsinstance.go:118 | The name is the engine, one dash, then the UID: its length is their sum plus one and each part can be read back. |
| Instance.ExternalNameDeterministic | pkg/controller/rds/rdsinstance.go:118 | For one engine, two records get the same name exactly when they have the same UID. |
| Instance.WithReferences | pkg/controller/rds/rdsinstance.go:226 | Resolution replaces the referenced values of the spec and leaves the declared spec and every other field alone. |
| Conditions.SetCondition | pkg/controller/rds/rdsinstance.go:102 | The condition is stored under its type. Every other type is as before. A map keyed by type stays keyed by type. |
| Conditions.SetConditions | pkg/controller/rds/rdsinstance.go:165 | After a variadic set, a type is present exactly when it was before or one of the new conditions has it. A map keyed by type stays keyed by type. |
| Conditions.LastWriteWins | pkg/controller/rds/rdsinstance.go:165 | After a variadic set, each type holds the last condition of that type. Types none of them mention are untouched. |
| Conditions.SetTwo | pkg/controller/rds/rdsinstance.go:165-168 | Two conditions of different types, set together, are both present. Other types are untouched. |
| Properties.CreateTrace | pkg/controller/rds/rdsinstance.go:120-148 | Create's calls, in order: a password request, then a create once a password exists, then a credentials publish after a fresh create, then one update. A failure at any step skips the rest but still writes back. |
| Properties.CreateEffects | pkg/controller/rds/rdsinstance.go:120-148 | Create asks for one password of length 20. It creates once, under Engine-UID with the spec it was given, when the password was generated. It publishes the credentials exactly when the create was fresh. It writes back once, and never resolves, describes or deletes. |
| Properties.CreateChangesOnlyItsFields | pkg/controller/rds/rdsinstance.go:116-149 | Create changes only the name, the owned finalizer and the Ready and Synced conditions. The returned error is the store's update error unchanged. |
| Properties.SyncObservedTrace | pkg/controller/rds/rdsinstance.go:163-185 | After describing, only an available database leads to a publish (user and the observed endpoint), and every status ends with one update. |
| Properties.SyncTrace | pkg/controller/rds/rdsinstance.go:151-186 | Sync's calls, in order: one describe of the recorded name, a publish of the endpoint the provider reported only for an available database, then one update. |
| Properties.SyncObservedFrame | pkg/controller/rds/rdsinstance.go:163-185 | The mapping changes only the conditions and the binding phase. The binding phase changes only for "available", and ReferencesResolved is untouched. |
| Properties.SyncEffects | pkg/controller/rds/rdsinstance.go:153-185 | Sync describes the recorded name once. It publishes user and endpoint only for an available database, writes back once, and never creates, deletes or asks for a password. |
| Properties.SyncRecordsObservation | pkg/controller/rds/rdsinstance.go:153-161 | A described database's status, endpoint and ARN are copied into State, Endpoint and ProviderID whatever the status, including unrecognised ones. A describe error changes only conditions. Name, finalizers, identity and ReferencesResolved are kept. The returned error is the store's update error unchanged. |
| Properties.DeleteTrace | pkg/controller/rds/rdsinstance.go:188-200 | Delete's calls: the provider delete of the recorded name only under ReclaimDelete, then one update, whether or not the delete was confirmed. |
| Properties.DeleteEffects | pkg/controller/rds/rdsinstance.go:191-199 | The provider delete is called once, with the recorded name, exactly under ReclaimDelete. Nothing is published or created, and the record is written back once. |
| Properties.DeleteChangesOnlyFinalizer | pkg/controller/rds/rdsinstance.go:188-200 | Delete changes only the finalizers and the conditions. The deletion timestamp and every other finalizer are kept. The returned error is the store's update error unchanged. |
| Properties.DispatchEffects | pkg/controller/rds/rdsinstance.go:240-251 | Only the selected phase reaches the provider. Delete only deletes. Create only requests a password, creates and publishes credentials. Sync only describes the recorded name and never publishes a password. |
| Properties.DispatchFrame | pkg/controller/rds/rdsinstance.go:240-251 | No phase writes the spec (declared or referenced), the identity, the deletion timestamp, the foreign finalizers or ReferencesResolved. The name changes only from empty to Engine-UID. |
| Properties.Admitted | pkg/controller/rds/rdsinstance.go:225-238 | The record a phase starts from has its references resolved. If they were resolved before, it is the record as read. Otherwise the resolver's values are in the spec and ReferenceResolutionSuccess is set. No other field or condition type differs. |
| Properties.ReconcileProceeds | pkg/controller/rds/rdsinstance.go:225-251 | A call that gets past the client and the references is the selected phase run on the admitted record. Only one resolution, if any, is added in front of it. |
| Properties.ReconcileStops | pkg/controller/rds/rdsinstance.go:209-234 | A call stopped by the fetch, the client or the references calls no provider operation and publishes nothing. It resolves once only if it got that far, and it writes back once whenever the record was read. |
| Properties.BranchSelection | pkg/controller/rds/rdsinstance.go:225-251 | The branch shows in the provider calls. A deletion timestamp leads only to delete calls (under ReclaimDelete). Otherwise an empty name leads to one password request and no describe or delete, and a set name leads to one describe of that name and nothing else. References are resolved exactly when they were not already true. |
| Properties.ReconcileFrame | pkg/controller/rds/rdsinstance.go:204-252 | One call keeps identity, declared spec, deletion timestamp and foreign finalizers. The referenced values change only when the call resolves the references, and then they are the resolver's values. Resolved references stay resolved, and a call that proceeds leaves them resolved. The name only goes from empty to Engine-UID. |
| Properties.ReconcileKeepsWellKeyed | pkg/controller/rds/rdsinstance.go:204-252 | Every condition a call stores goes under its own type, so a record whose conditions are keyed by type stays so. |
| Properties.ReconcileCreate | pkg/controller/rds/rdsinstance.go:116-148 | Through Reconcile, Create creates under Engine-UID with the spec as resolved, and publishes credentials exactly on a fresh create. The record is provisioned exactly when the create succeeds. A failed create leaves the name empty and the finalizers unchanged, and records ReconcileError with the password, create or publish error, whichever came first. |
| Properties.CreateRetriesUntilStored | pkg/controller/rds/rdsinstance.go:240-251 | After a failed create, the next call on the stored record selects Create again. After a successful create that was stored, it selects Sync. |
| Properties.NextKeeps | pkg/controller/rds/rdsinstance.go:204-252 | The stored record keeps identity, declared spec, deletion timestamp and foreign finalizers. Once references are resolved they stay resolved, the spec no longer changes, and the resolver is not called. |
| Properties.NextNamed | pkg/controller/rds/rdsinstance.go:246-251 | A call on a provisioned record keeps its name, creates nothing and publishes no password. |
| Properties.NextCreatesAs | pkg/controller/rds/rdsinstance.go:118-127 | Whatever one call creates carries the record's Engine-UID name and its declared spec. The spec it creates with is exactly the spec the call leaves in the record, resolved values included. |
| Properties.RunKeepsIdentity | pkg/controller/rds/rdsinstance.go:225-238 | Over any run: identity, declared spec, deletion timestamp and foreign finalizers are kept. Once references are resolved they stay resolved, the spec never changes again, and the resolver is never called again. |
| Properties.RunNamedNeverCreates | pkg/controller/rds/rdsinstance.go:244-251 | Once the name is stored, no later call in any run creates a database or publishes a password, and the name never changes. |
| Properties.RunCreatesAs | pkg/controller/rds/rdsinstance.go:118-127 | Every database a run creates, on every retry, has the same name Engine-UID and the record's declared spec (engine, master user name, reclaim policy). |

## Left out

- `SetupWithManager` (`rdsinstance.go:82-98`) is wiring into the controller manager and has no behaviour to state.
- The generated deepcopy code is field-by-field copying.
- `_connect` (`rdsinstance.go:106-114`) is reduced to its outcome, because reading the AWS configuration is network and credentials plumbing.
- `util.GeneratePassword` is an input (`Env.password`), because its output is random. The model records that 20 characters were asked for.
- The store's `Get` and `Update`, `PublishConnection`, `ResolveReferences` and the RDS client are reduced to outcomes in `Env`:
  - These are library and network calls.
  - Which spec fields `ResolveReferences` fills is decided by the `RDSInstance` type, which is not part of this model. They are grouped as `Spec.referenced`, and the declared engine, master user name and reclaim policy are taken to be outside them.
  - A failed resolution is taken to leave the spec as it was read.
  - A resolution error is an access error or another error, as `resource.IsReferencesAccessError` would classify it.
- The error classifiers `rds.IsErrorAlreadyExists`, `rds.IsErrorNotFound` and `kerrors.IsNotFound` are given as the `ApiError` constructor. The provider's error text is carried unchanged into conditions.
- Logging, the request key, contexts and cancellation are left out, because they have no effect on the record or the hint.
- Condition transition times are left out, because they come from the clock.
- Concurrency and dispatcher scheduling are left out. The 60-second wait is only a value in the hint.
- `Properties.Next` does not model a store that rejects an update yet keeps part of it. A failed update leaves the stored record as it was.
- Runs assume that no other actor writes the record between calls. Writes by the user or by other controllers are outside the model.
- On a failed fetch the code has no record. The outcome then carries the input record, and `Properties.Next` keeps the stored record.
