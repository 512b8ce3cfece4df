/**
  The reconciler's collaborators, reduced to the outcomes of their calls.

  An `Env` fixes, for one reconcile call, what each external call would
  answer: the record store (get and update), the provider client factory,
  the reference resolver, the password generator, the RDS API (create,
  describe, delete) and the connection-secret publisher. The reconciler
  reports the calls it made, in order, as a trace of `Call`s.
 */
module Collaborators {
  import opened Instance

  /** An error as the reconciler classifies it. */
  datatype ApiError = AlreadyExists(msg: string) | NotFound(msg: string) | OtherError(msg: string)

  datatype Reply = Ok | Failed(err: ApiError)

  /** A successful resolution carries the values it filled into the spec. */
  datatype Resolution = Resolved(values: map<string, string>) | AccessBlocked(msg: string) | ResolveFailed(msg: string)

  datatype Password = Generated(password: string) | GenerationFailed(msg: string)

  /** What the RDS API reports about one database instance. */
  datatype DbInstance = DbInstance(status: string, endpoint: string, arn: string)

  datatype Lookup = Found(db: DbInstance) | LookupFailed(err: ApiError)

  datatype Env = Env(
    fetch: Reply,          // record store get
    connect: Reply,        // building the RDS client from the provider reference
    resolve: Resolution,   // resolving cross-resource references
    password: Password,    // generating the master password
    create: Reply,         // RDS CreateInstance
    describe: Lookup,      // RDS GetInstance
    delete: Reply,         // RDS DeleteInstance
    publish: Reply,        // publishing connection details
    update: Reply)         // record store update

  datatype Call =
    | GetRecord
    | Connect
    | ResolveReferences
    | GeneratePassword(length: nat)
    | CreateInstance(name: string, password: string, spec: Spec)
    | GetInstance(name: string)
    | DeleteInstance(name: string)
    | PublishConnection(details: map<string, string>)
    | UpdateRecord(record: Record)

  /**
    What a trace did, call kind by call kind: how often references were
    resolved, the password lengths requested, the CreateInstance calls, the
    names described and deleted, the payloads published and the records
    written back, each in call order.
   */
  datatype Effects = Effects(
    resolutions: nat,
    passwords: seq<nat>,
    created: seq<Call>,
    described: seq<string>,
    deleted: seq<string>,
    published: seq<map<string, string>>,
    updated: seq<Record>)

  const NoEffects: Effects := Effects(0, [], [], [], [], [], [])

  /** The effects after one more call. */
  function Note(e: Effects, c: Call): Effects {
    match c
    case ResolveReferences => e.(resolutions := e.resolutions + 1)
    case GeneratePassword(n) => e.(passwords := e.passwords + [n])
    case CreateInstance(_, _, _) => e.(created := e.created + [c])
    case GetInstance(name) => e.(described := e.described + [name])
    case DeleteInstance(name) => e.(deleted := e.deleted + [name])
    case PublishConnection(details) => e.(published := e.published + [details])
    case UpdateRecord(r) => e.(updated := e.updated + [r])
    case _ => e
  }

  function EffectsOf(calls: seq<Call>): Effects
    decreases |calls|
  {
    if |calls| == 0 then NoEffects
    else Note(EffectsOf(calls[..|calls| - 1]), calls[|calls| - 1])
  }

  /** Effects of two traces run one after the other. */
  function Combine(a: Effects, b: Effects): Effects {
    Effects(a.resolutions + b.resolutions, a.passwords + b.passwords, a.created + b.created,
            a.described + b.described, a.deleted + b.deleted, a.published + b.published, a.updated + b.updated)
  }

  /** One more call adds its own effect to those of the trace before it. */
  lemma EffectsSnoc(calls: seq<Call>, c: Call)
    ensures EffectsOf(calls + [c]) == Note(EffectsOf(calls), c)
  {
    assert (calls + [c])[..|calls|] == calls;
  }

  /** The effects of a trace split anywhere are the combined effects of its parts. */
  lemma {:induction false} EffectsAppend(a: seq<Call>, b: seq<Call>)
    ensures EffectsOf(a + b) == Combine(EffectsOf(a), EffectsOf(b))
    decreases |b|
  {
    if |b| == 0 {
      assert a + b == a;
      var e := EffectsOf(a);
      assert e.passwords + [] == e.passwords && e.created + [] == e.created && e.described + [] == e.described;
      assert e.deleted + [] == e.deleted && e.published + [] == e.published && e.updated + [] == e.updated;
    } else {
      var b' := b[..|b| - 1];
      assert (a + b)[..|a + b| - 1] == a + b';
      EffectsAppend(a, b');
      var x, y := EffectsOf(a), EffectsOf(b');
      assert x.passwords + y.passwords + [] == x.passwords + (y.passwords + []);
      var c := b[|b| - 1];
      match c {
        case GeneratePassword(n) =>
          assert x.passwords + y.passwords + [n] == x.passwords + (y.passwords + [n]);
        case CreateInstance(_, _, _) =>
          assert x.created + y.created + [c] == x.created + (y.created + [c]);
        case GetInstance(name) =>
          assert x.described + y.described + [name] == x.described + (y.described + [name]);
        case DeleteInstance(name) =>
          assert x.deleted + y.deleted + [name] == x.deleted + (y.deleted + [name]);
        case PublishConnection(d) =>
          assert x.published + y.published + [d] == x.published + (y.published + [d]);
        case UpdateRecord(r) =>
          assert x.updated + y.updated + [r] == x.updated + (y.updated + [r]);
        case _ =>
      }
    }
  }
}
