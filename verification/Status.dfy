/** The status of a Group: `SetWaiting`, `UpdateStatus` and the per-backend report. */
module Status {
  import opened Common

  const GROUP_READY := "GroupReadyCondition"

  const WAITING := Condition(GROUP_READY, Unknown, "Waiting")
  const SUCCEEDED := Condition(GROUP_READY, True, "SuccessfullyReconciled")
  const FAILED := Condition(GROUP_READY, False, "ReconcileFailed")

  /** The first condition of the same kind is replaced; without one, it is appended. */
  function SetCondition(cs: seq<Condition>, c: Condition): seq<Condition> {
    if cs == [] then [c]
    else if cs[0].kind == c.kind then [c] + cs[1..]
    else [cs[0]] + SetCondition(cs[1..], c)
  }

  /** The status of the first condition of a kind. */
  function StatusOf(cs: seq<Condition>, kind: string): Option<ConditionStatus> {
    if cs == [] then None
    else if cs[0].kind == kind then Some(cs[0].status)
    else StatusOf(cs[1..], kind)
  }

  predicate IsReady(cr: GroupCR) {
    StatusOf(cr.status.conditions, GROUP_READY) == Some(True)
  }

  /** Writing a condition is read back, and leaves the other kinds as they are. */
  lemma {:induction false} SetThenRead(cs: seq<Condition>, c: Condition, kind: string)
    ensures StatusOf(SetCondition(cs, c), kind) == if kind == c.kind then Some(c.status) else StatusOf(cs, kind)
  {
    if cs != [] && cs[0].kind != c.kind {
      SetThenRead(cs[1..], c, kind);
    }
  }

  /** No condition before the `i`-th is of this kind. */
  ghost predicate NoneBefore(cs: seq<Condition>, kind: string, i: nat)
    requires i <= |cs|
  {
    forall k :: 0 <= k < i ==> cs[k].kind != kind
  }

  /** A condition is written in place of the first of its kind, or at the end if there is none; all
      other conditions stay where they are. */
  lemma {:induction false} SetConditionExact(cs: seq<Condition>, c: Condition, i: nat)
    requires i <= |cs| && NoneBefore(cs, c.kind, i) && (i < |cs| ==> cs[i].kind == c.kind)
    ensures SetCondition(cs, c) == if i < |cs| then cs[i := c] else cs + [c]
  {
    if i > 0 {
      var rest := cs[1..];
      assert forall k :: 0 <= k < |rest| ==> rest[k] == cs[k + 1];
      SetConditionExact(rest, c, i - 1);
      assert cs == [cs[0]] + rest;
    }
  }

  /** Only the last of two writes of one kind counts. */
  lemma {:induction false} LastWriteWins(cs: seq<Condition>, c: Condition, d: Condition)
    requires c.kind == d.kind
    ensures SetCondition(SetCondition(cs, c), d) == SetCondition(cs, d)
  {
    if cs != [] && cs[0].kind != c.kind {
      LastWriteWins(cs[1..], c, d);
    }
  }

  function Waiting(cr: GroupCR): GroupCR {
    cr.(status := cr.status.(conditions := SetCondition(cr.status.conditions, WAITING)))
  }

  /** The status after the backend loop: errors are recorded per backend type. */
  function Report(cr: GroupCR, users: seq<string>, errors: map<string, Failure>): GroupCR {
    cr.(status := GroupStatus(
      users,
      SetCondition(cr.status.conditions, if errors == map[] then SUCCEEDED else FAILED),
      if errors == map[] then cr.generation else cr.status.lastAppliedGeneration,
      BackendReport(cr.backends, errors)))
  }

  function BackendReport(backends: seq<Backend>, errors: map<string, Failure>): (r: seq<BackendStatus>)
    ensures |r| == |backends|
    ensures forall i :: 0 <= i < |backends| ==>
      r[i].backend == backends[i] && (r[i].ok <==> backends[i].kind !in errors)
  {
    if backends == [] then []
    else
      var kind := backends[0].kind;
      [BackendStatus(backends[0], kind !in errors, if kind in errors then Some(errors[kind]) else None)]
        + BackendReport(backends[1..], errors)
  }

  /** The loop shared by `SetWaiting` and `UpdateStatus`. */
  method UpsertCondition(conditions: seq<Condition>, condition: Condition) returns (r: seq<Condition>)
    ensures r == SetCondition(conditions, condition)
  {
    for i := 0 to |conditions|
      invariant NoneBefore(conditions, condition.kind, i)
    {
      if conditions[i].kind == condition.kind {
        SetConditionExact(conditions, condition, i);
        return conditions[i := condition];
      }
    }
    SetConditionExact(conditions, condition, |conditions|);
    return conditions + [condition];
  }
}
