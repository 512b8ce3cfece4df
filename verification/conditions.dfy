/**
  Status conditions of a managed resource.

  A record keeps at most one condition per condition type: setting a
  condition replaces whatever was stored under its type (last write wins)
  and leaves every other type alone. The vocabulary is the one the
  reconciler uses: the availability conditions (Creating, Deleting,
  Available, Unavailable) share the type Ready, the reconcile outcome
  conditions share the type Synced, and reference resolution has its own
  type ReferencesResolved. Transition times are not modelled.
 */
module Conditions {

  datatype CondType = Ready | Synced | ReferencesResolved

  datatype CondStatus = ConditionTrue | ConditionFalse | ConditionUnknown

  datatype Reason =
    | ReasonCreating
    | ReasonDeleting
    | ReasonAvailable
    | ReasonUnavailable
    | ReasonReconcileSuccess
    | ReasonReconcileError
    | ReasonReferenceResolveSuccess
    | ReasonReferenceResolveBlocked

  datatype Condition = Condition(ctype: CondType, status: CondStatus, reason: Reason, message: string)

  /** The conditions of one record, keyed by their type. */
  type Conditions = map<CondType, Condition>

  /** Every entry is stored under its own type. */
  predicate WellKeyed(cs: Conditions) {
    forall t :: t in cs ==> cs[t].ctype == t
  }

  function Creating(): Condition {
    Condition(Ready, ConditionFalse, ReasonCreating, "")
  }

  function Deleting(): Condition {
    Condition(Ready, ConditionFalse, ReasonDeleting, "")
  }

  function Available(): Condition {
    Condition(Ready, ConditionTrue, ReasonAvailable, "")
  }

  function Unavailable(): Condition {
    Condition(Ready, ConditionFalse, ReasonUnavailable, "")
  }

  function ReconcileSuccess(): Condition {
    Condition(Synced, ConditionTrue, ReasonReconcileSuccess, "")
  }

  /** A failed reconcile; the message is the text of the error that caused it. */
  function ReconcileError(msg: string): Condition {
    Condition(Synced, ConditionFalse, ReasonReconcileError, msg)
  }

  function ReferenceResolutionSuccess(): Condition {
    Condition(ReferencesResolved, ConditionTrue, ReasonReferenceResolveSuccess, "")
  }

  /** References cannot be resolved yet because a referenced object is not accessible. */
  function ReferenceResolutionBlocked(msg: string): Condition {
    Condition(ReferencesResolved, ConditionFalse, ReasonReferenceResolveBlocked, msg)
  }

  /** True exactly when a condition of type `t` is present and its status is True. */
  predicate IsConditionTrue(cs: Conditions, t: CondType) {
    t in cs && cs[t].status == ConditionTrue
  }

  /** Two condition sets that agree on type `t` (both lack it, or both hold the same entry). */
  predicate SameAt(cs: Conditions, cs': Conditions, t: CondType) {
    (t in cs <==> t in cs') && (t in cs ==> cs[t] == cs'[t])
  }

  /** Stores one condition, replacing the previous entry of its type. */
  function SetCondition(cs: Conditions, c: Condition): (r: Conditions)
    ensures c.ctype in r && r[c.ctype] == c
    ensures forall t :: t != c.ctype ==> SameAt(cs, r, t)
    ensures WellKeyed(cs) ==> WellKeyed(r)
  {
    cs[c.ctype := c]
  }

  /** Stores several conditions, left to right, as one variadic call does. */
  function SetConditions(cs: Conditions, news: seq<Condition>): (r: Conditions)
    ensures forall t :: t in r <==> t in cs || MentionsType(news, t)
    ensures WellKeyed(cs) ==> WellKeyed(r)
    decreases |news|
  {
    if |news| == 0 then cs
    else
      MentionsFirstOrRest(news);
      SetConditions(SetCondition(cs, news[0]), news[1..])
  }

  /** A non-empty list mentions a type exactly when its head has it or its tail mentions it. */
  lemma MentionsFirstOrRest(news: seq<Condition>)
    requires |news| > 0
    ensures forall t :: MentionsType(news, t) <==> news[0].ctype == t || MentionsType(news[1..], t)
  {
    forall t | MentionsType(news[1..], t) ensures MentionsType(news, t) {
      var k :| 0 <= k < |news[1..]| && news[1..][k].ctype == t;
      assert news[k + 1].ctype == t;
    }
    forall t | MentionsType(news, t) && news[0].ctype != t ensures MentionsType(news[1..], t) {
      var k :| 0 <= k < |news| && news[k].ctype == t;
      assert news[1..][k - 1].ctype == t;
    }
  }

  /**
    Last write wins: after storing `news`, each type holds the last new
    condition of that type, and types none of them mention are untouched.
   */
  lemma {:induction false} LastWriteWins(cs: Conditions, news: seq<Condition>)
    ensures forall i :: 0 <= i < |news| && LastOfType(news, i) ==>
              news[i].ctype in SetConditions(cs, news) && SetConditions(cs, news)[news[i].ctype] == news[i]
    ensures forall t :: !MentionsType(news, t) ==> SameAt(cs, SetConditions(cs, news), t)
    decreases |news|
  {
    if |news| > 0 {
      var cs' := SetCondition(cs, news[0]);
      var rest := news[1..];
      LastWriteWins(cs', rest);
      var r := SetConditions(cs, news);
      assert r == SetConditions(cs', rest);
      forall i | 0 <= i < |news| && LastOfType(news, i)
        ensures news[i].ctype in r && r[news[i].ctype] == news[i]
      {
        if i == 0 {
          assert !MentionsType(rest, news[0].ctype) by {
            forall k | 0 <= k < |rest| ensures rest[k].ctype != news[0].ctype {
              assert rest[k] == news[k + 1];
            }
          }
        } else {
          assert rest[i - 1] == news[i];
          assert LastOfType(rest, i - 1) by {
            forall k | i - 1 < k < |rest| ensures rest[k].ctype != rest[i - 1].ctype {
              assert rest[k] == news[k + 1];
            }
          }
        }
      }
      forall t | !MentionsType(news, t) ensures SameAt(cs, r, t) {
        assert t != news[0].ctype;
        assert !MentionsType(rest, t) by {
          forall k | 0 <= k < |rest| ensures rest[k].ctype != t {
            assert rest[k] == news[k + 1];
          }
        }
      }
    }
  }

  /** Storing two conditions of different types keeps both. */
  lemma SetTwo(cs: Conditions, a: Condition, b: Condition)
    requires a.ctype != b.ctype
    ensures var r := SetConditions(cs, [a, b]);
            && a.ctype in r && r[a.ctype] == a
            && b.ctype in r && r[b.ctype] == b
            && forall t :: t != a.ctype && t != b.ctype ==> SameAt(cs, r, t)
  {
    var news := [a, b];
    LastWriteWins(cs, news);
    assert LastOfType(news, 0) && LastOfType(news, 1);
    forall t | t != a.ctype && t != b.ctype ensures !MentionsType(news, t) { }
  }

  /** No later entry of `news` has the type of entry `i`. */
  predicate LastOfType(news: seq<Condition>, i: int)
    requires 0 <= i < |news|
  {
    forall j :: i < j < |news| ==> news[j].ctype != news[i].ctype
  }

  predicate MentionsType(news: seq<Condition>, t: CondType) {
    exists i :: 0 <= i < |news| && news[i].ctype == t
  }
}
