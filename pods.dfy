/**
 * The Kubernetes pod records the discovery service reads, with every
 * reference the code dereferences kept nullable, and the readiness rule of
 * `ConditionsOK` and `StatusOK`.
 */
module Pods {
  import opened Wrappers

  /** One entry of `V1PodStatus.Conditions`; only its `Status` is read. */
  datatype Condition = Condition(status: Option<string>)

  /** The parts of `V1PodStatus` the service reads. */
  datatype PodStatus = PodStatus(
    podIP: Option<string>,
    phase: Option<string>,
    conditions: Option<seq<Condition>>)

  /** A `V1Pod`; only its `Status` is read. */
  datatype Pod = Pod(status: Option<PodStatus>)

  /** The exceptions the modelled code can raise or pass on. */
  datatype Fault =
    | ApiFailure(detail: string)   // the pod listing itself failed
    | NullDereference              // a member was read through a null reference
    | NullArgument                 // a LINQ operator was applied to a null sequence

  const TrueStatus := "True"
  const RunningPhase := "Running"

  // ---------------------------------------------------------------------------
  // Reference definitions

  /** Every condition reports the status "True" (vacuously so when there are none). */
  predicate AllStatusesTrue(cs: seq<Condition>) {
    forall i :: 0 <= i < |cs| ==> cs[i].status == Some(TrueStatus)
  }

  /** Scanning the conditions in order meets a null status before any status other than "True". */
  predicate NullBeforeFalse(cs: seq<Condition>) {
    exists k :: 0 <= k < |cs| && cs[k].status.None? && AllStatusesTrue(cs[..k])
  }

  /** A pod status is ready: all conditions "True" and phase "Running", compared case-sensitively. */
  predicate IsReady(st: PodStatus) {
    st.conditions.Some? && AllStatusesTrue(st.conditions.value) && st.phase == Some(RunningPhase)
  }

  /** Evaluating readiness of `st` throws: the conditions are null, or a null status is met, or the phase is null once reached. */
  predicate ReadinessThrows(st: PodStatus) {
    st.conditions.None?
    || NullBeforeFalse(st.conditions.value)
    || (AllStatusesTrue(st.conditions.value) && st.phase.None?)
  }

  // ---------------------------------------------------------------------------
  // The code

  /** `conditions.All(x => x.Status.Equals("True"))` over a non-null list: stops at the first status that is not "True". */
  function AllTrue(cs: seq<Condition>): (r: Result<bool, Fault>)
    ensures r == Ok(true) <==> AllStatusesTrue(cs)
    ensures r.Err? <==> NullBeforeFalse(cs)
    ensures r.Err? ==> r.error == NullDereference
    decreases |cs|
  {
    if cs == [] then Ok(true)
    else
      match cs[0].status
      case None =>
        assert cs[..0] == [];
        Err(NullDereference)
      case Some(s) =>
        if s == TrueStatus then
          var rest := AllTrue(cs[1..]);
          ShiftTrue(cs);
          rest
        else
          Ok(false)
  }

  /** `ConditionsOK`: `All` on a null list throws `ArgumentNullException`. */
  function ConditionsOK(conditions: Option<seq<Condition>>): (r: Result<bool, Fault>)
    ensures r == Ok(true) <==> conditions.Some? && AllStatusesTrue(conditions.value)
    ensures r.Err? <==> conditions.None? || NullBeforeFalse(conditions.value)
    ensures conditions.None? ==> r == Err(NullArgument)
  {
    match conditions
    case None => Err(NullArgument)
    case Some(cs) => AllTrue(cs)
  }

  /** `StatusOK`: `status.Phase.Equals("Running")`, ordinal and case-sensitive; a null phase throws. */
  function StatusOK(st: PodStatus): (r: Result<bool, Fault>)
    ensures r == Ok(true) <==> st.phase == Some(RunningPhase)
    ensures r.Err? <==> st.phase.None?
  {
    match st.phase
    case None => Err(NullDereference)
    case Some(p) => Ok(p == RunningPhase)
  }

  /** `ConditionsOK(status.Conditions) && StatusOK(status)`, with the short-circuit of `&&`. */
  function Readiness(st: PodStatus): (r: Result<bool, Fault>)
    ensures r == Ok(true) <==> IsReady(st)
    ensures r.Err? <==> ReadinessThrows(st)
  {
    match ConditionsOK(st.conditions)
    case Err(e) => Err(e)
    case Ok(ok) => if ok then StatusOK(st) else Ok(false)
  }

  // ---------------------------------------------------------------------------
  // Helper lemmas for AllTrue

  /** When the first status is "True", both reference predicates are decided by the rest. */
  lemma ShiftTrue(cs: seq<Condition>)
    requires |cs| > 0 && cs[0].status == Some(TrueStatus)
    ensures AllStatusesTrue(cs) <==> AllStatusesTrue(cs[1..])
    ensures NullBeforeFalse(cs) <==> NullBeforeFalse(cs[1..])
  {
    var tail := cs[1..];
    if NullBeforeFalse(cs) {
      var k :| 0 <= k < |cs| && cs[k].status.None? && AllStatusesTrue(cs[..k]);
      assert k > 0;
      assert tail[k - 1] == cs[k];
      var pre, before := tail[..k - 1], cs[..k];
      assert AllStatusesTrue(pre) by {
        forall i | 0 <= i < |pre| ensures pre[i].status == Some(TrueStatus) {
          assert pre[i] == before[i + 1];
        }
      }
    }
    if NullBeforeFalse(tail) {
      var k :| 0 <= k < |tail| && tail[k].status.None? && AllStatusesTrue(tail[..k]);
      assert cs[k + 1] == tail[k];
      var pre, before := cs[..k + 1], tail[..k];
      assert AllStatusesTrue(pre) by {
        forall i | 0 <= i < |pre| ensures pre[i].status == Some(TrueStatus) {
          if i > 0 {
            assert pre[i] == before[i - 1];
          }
        }
      }
    }
  }
}
