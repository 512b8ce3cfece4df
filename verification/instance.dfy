/**
  The RDS instance record: desired spec written by the user, object
  metadata (identity, finalizers, deletion timestamp) and the observed
  status the reconciler owns.
 */
module Instance {
  import opened Basics
  import opened Conditions

  const ControllerName: string := "rds.aws.crossplane.io"

  /** The one finalizer this controller owns. */
  const Finalizer: string := "finalizer." + ControllerName

  /** Any policy other than ReclaimDelete keeps the external database. */
  datatype ReclaimPolicy = ReclaimDelete | ReclaimRetain

  /** Binding phase of a managed resource; `Unbound` means "available for a claim". */
  datatype BindingPhase = PhaseUnset | Unbindable | Unbound | Bound | Released

  /**
    The desired state. `referenced` holds the values that cross-resource
    references fill in (the subnet group, the security groups, ...): the
    user does not write them, the reference resolver does.
   */
  datatype Spec = Spec(engine: string, masterUsername: string, reclaimPolicy: ReclaimPolicy,
                       referenced: map<string, string>)

  datatype Status = Status(
    instanceName: string,   // empty until a create succeeded: the provisioning marker
    state: string,          // last status string observed at the provider
    endpoint: string,
    providerID: string,
    conditions: Conditions,
    bindingPhase: BindingPhase)

  datatype Record = Record(
    uid: string,
    spec: Spec,
    deletionTimestamp: Option<int>,
    finalizers: set<string>,
    status: Status)

  /** The parts of the spec the user declares, which no reference fills in. */
  predicate SameDeclared(a: Spec, b: Spec) {
    a.engine == b.engine && a.masterUsername == b.masterUsername && a.reclaimPolicy == b.reclaimPolicy
  }

  /** The fields the reconciler never writes: identity, the declared spec and deletion intent. */
  predicate SameIdentity(a: Record, b: Record) {
    a.uid == b.uid && SameDeclared(a.spec, b.spec) && a.deletionTimestamp == b.deletionTimestamp
  }

  /** Deterministic external name: engine, a dash, then the record's UID. */
  function ExternalName(rec: Record): (r: string)
    ensures |r| == |rec.spec.engine| + 1 + |rec.uid|
    ensures r[..|rec.spec.engine|] == rec.spec.engine && r[|rec.spec.engine|] == '-' && r[|rec.spec.engine| + 1..] == rec.uid
  {
    rec.spec.engine + "-" + rec.uid
  }

  /** Two records with the same engine and UID have the same external name, and different UIDs give different names. */
  lemma ExternalNameDeterministic(a: Record, b: Record)
    ensures a.spec.engine == b.spec.engine ==> (ExternalName(a) == ExternalName(b) <==> a.uid == b.uid)
  {
    if a.spec.engine == b.spec.engine && ExternalName(a) == ExternalName(b) {
      var n := |a.spec.engine| + 1;
      assert a.uid == ExternalName(a)[n..] == ExternalName(b)[n..] == b.uid;
    }
  }

  /** Stores the values the reference resolver filled in; nothing else changes. */
  function WithReferences(rec: Record, values: map<string, string>): (r: Record)
    ensures r.spec.referenced == values && SameDeclared(rec.spec, r.spec)
    ensures r == rec.(spec := r.spec)
  {
    rec.(spec := rec.spec.(referenced := values))
  }

  predicate ReferencesResolvedTrue(rec: Record) {
    IsConditionTrue(rec.status.conditions, ReferencesResolved)
  }

  /** Adds a finalizer; a set holds it at most once whatever was there before. */
  function AddFinalizer(rec: Record, f: string): (r: Record)
    ensures f in r.finalizers
    ensures forall g :: g != f ==> (g in r.finalizers <==> g in rec.finalizers)
    ensures r == rec.(finalizers := r.finalizers)
  {
    rec.(finalizers := rec.finalizers + {f})
  }

  /** Removes a finalizer; other finalizers are untouched. */
  function RemoveFinalizer(rec: Record, f: string): (r: Record)
    ensures f !in r.finalizers
    ensures forall g :: g != f ==> (g in r.finalizers <==> g in rec.finalizers)
    ensures r == rec.(finalizers := r.finalizers)
  {
    rec.(finalizers := rec.finalizers - {f})
  }

  /** Marks the record as available for binding unless it is already bound. */
  function SetBindable(rec: Record): (r: Record)
    ensures r.status.bindingPhase == Unbound || r.status.bindingPhase == Bound
    ensures r.status.bindingPhase == Bound <==> rec.status.bindingPhase == Bound
    ensures r == rec.(status := rec.status.(bindingPhase := r.status.bindingPhase))
  {
    if rec.status.bindingPhase == Bound then rec
    else rec.(status := rec.status.(bindingPhase := Unbound))
  }
}
