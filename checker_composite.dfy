/**
 * The composite checker: it runs its checkers in order, merges their results,
 * and does not run the next checker once one that is not last reported
 * anything. Each checker's Check call is outside this model, so the outcome
 * checker i would produce is given as `outcomes[i]`, and the method reports
 * how many checkers it invoked.
 */
module CheckerComposite {
  import opened Models

  /** How many checkers are invoked, counting from checker `i`. */
  function RanFrom(outcomes: seq<Result<CheckResult>>, i: nat): (n: nat)
    requires i <= |outcomes|
    ensures i <= n <= |outcomes|
    decreases |outcomes| - i
  {
    if i == |outcomes| then i
    else if outcomes[i].Err? then i + 1
    else if outcomes[i].value.HasNotices() && i < |outcomes| - 1 then i + 1
    else RanFrom(outcomes, i + 1)
  }

  /** The composite's answer when checkers `i..` are still to run and `acc` holds the merged results so far. */
  function Run(outcomes: seq<Result<CheckResult>>, i: nat, acc: CheckResult): Result<CheckResult>
    requires i <= |outcomes|
    decreases |outcomes| - i
  {
    if i == |outcomes| then Ok(acc)
    else if outcomes[i].Err? then Err(CheckerFailed(i, outcomes[i].error))
    else
      var merged := acc.Append(outcomes[i].value);
      if outcomes[i].value.HasNotices() && i < |outcomes| - 1 then Ok(merged)
      else Run(outcomes, i + 1, merged)
  }

  method Check(outcomes: seq<Result<CheckResult>>) returns (r: Result<CheckResult>, ran: nat)
    ensures ran == RanFrom(outcomes, 0)
    ensures r == Run(outcomes, 0, EmptyResult)
  {
    var overallResults := EmptyResult;
    var ind := 0;
    while ind < |outcomes|
      invariant ind <= |outcomes|
      invariant RanFrom(outcomes, ind) == RanFrom(outcomes, 0)
      invariant Run(outcomes, ind, overallResults) == Run(outcomes, 0, EmptyResult)
    {
      var results := outcomes[ind];
      if results.Err? {
        r, ran := Err(CheckerFailed(ind, results.error)), ind + 1;
        return;
      }
      overallResults := overallResults.Append(results.value);
      if results.value.HasNotices() && ind < |outcomes| - 1 {
        r, ran := Ok(overallResults), ind + 1;
        return;
      }
      ind := ind + 1;
    }
    r, ran := Ok(overallResults), ind;
  }

  /** The results of the given checkers merged in list order. */
  function Merged(outcomes: seq<Result<CheckResult>>): CheckResult
    requires forall j :: 0 <= j < |outcomes| ==> outcomes[j].Ok?
  {
    if outcomes == [] then EmptyResult
    else Merged(outcomes[..|outcomes| - 1]).Append(outcomes[|outcomes| - 1].value)
  }

  /** An empty checker list gives an empty result and runs nothing. */
  lemma EmptyComposite()
    ensures Run([], 0, EmptyResult) == Ok(EmptyResult) && RanFrom([], 0) == 0
  {
  }

  /** When no checker but the last reports anything and none fails, every checker runs and all results are merged. */
  lemma {:induction false} AllRunWhenClean(outcomes: seq<Result<CheckResult>>, i: nat)
    requires forall j :: 0 <= j < |outcomes| ==> outcomes[j].Ok?
    requires forall j :: 0 <= j < |outcomes| - 1 ==> !outcomes[j].value.HasNotices()
    requires i <= |outcomes|
    ensures RanFrom(outcomes, i) == |outcomes|
    ensures Run(outcomes, i, Merged(outcomes[..i])) == Ok(Merged(outcomes))
    decreases |outcomes| - i
  {
    if i < |outcomes| {
      assert outcomes[..i + 1][..i] == outcomes[..i];
      AllRunWhenClean(outcomes, i + 1);
    } else {
      assert outcomes[..i] == outcomes;
    }
  }

  /**
   * The first checker that is not last and reports anything is the last one
   * to run; the result holds exactly its results and those of its predecessors.
   */
  lemma {:induction false} StopsAfterNotices(outcomes: seq<Result<CheckResult>>, k: nat, i: nat)
    requires k < |outcomes| - 1
    requires forall j :: 0 <= j <= k ==> outcomes[j].Ok?
    requires forall j :: 0 <= j < k ==> !outcomes[j].value.HasNotices()
    requires outcomes[k].value.HasNotices()
    requires i <= k
    ensures RanFrom(outcomes, i) == k + 1
    ensures Run(outcomes, i, Merged(outcomes[..i])) == Ok(Merged(outcomes[..k + 1]))
    decreases k - i
  {
    assert outcomes[..i + 1][..i] == outcomes[..i];
    if i < k {
      StopsAfterNotices(outcomes, k, i + 1);
    }
  }

  /** A failing checker ends the run with its error and no partial result; later checkers do not run. */
  lemma {:induction false} FailureHasNoPartialResult(outcomes: seq<Result<CheckResult>>, k: nat, i: nat, acc: CheckResult)
    requires k < |outcomes|
    requires forall j :: 0 <= j < k ==> outcomes[j].Ok? && !outcomes[j].value.HasNotices()
    requires outcomes[k].Err?
    requires i <= k
    ensures RanFrom(outcomes, i) == k + 1
    ensures Run(outcomes, i, acc) == Err(CheckerFailed(k, outcomes[k].error))
    decreases k - i
  {
    if i < k {
      FailureHasNoPartialResult(outcomes, k, i + 1, acc.Append(outcomes[i].value));
    }
  }

  /** The last checker's result is always merged, whatever it holds. */
  lemma LastAlwaysMerged(outcomes: seq<Result<CheckResult>>, acc: CheckResult)
    requires |outcomes| > 0 && outcomes[|outcomes| - 1].Ok?
    ensures Run(outcomes, |outcomes| - 1, acc) == Ok(acc.Append(outcomes[|outcomes| - 1].value))
  {
  }
}
