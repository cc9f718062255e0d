/**
 * The `check` operation: it runs the dependency checker unless the document
 * carried notices, bounds the number of reported warnings, sorts the document
 * notices by file and line, and decides whether the run was successful.
 */
module CheckOperation {
  import opened Models
  import Strings
  import Sorting

  datatype LimiterResult = LimiterResult(results: CheckResult, omittedCount: int)

  function Min(a: int, b: int): int { if a <= b then a else b }

  /** The number of warnings a budget lets through: a budget below zero lets none through. */
  function Budget(maxWarnings: int): nat { if maxWarnings < 0 then 0 else maxWarnings }

  /**
   * The warnings kept under a budget: dependency warnings first, then
   * not-matched warnings, then deep-scan warnings, each a prefix of its list.
   */
  function Limited(result: CheckResult, maxWarnings: nat): CheckResult
  {
    var d := Min(maxWarnings, |result.dependencyWarnings|);
    var m := Min(maxWarnings - d, |result.matchWarnings|);
    var s := Min(maxWarnings - d - m, |result.deepscanWarnings|);
    CheckResult(result.dependencyWarnings[..d], result.matchWarnings[..m], result.deepscanWarnings[..s])
  }

  method LimitResults(result: CheckResult, maxWarnings: int) returns (r: LimiterResult)
    ensures r.results == Limited(result, Budget(maxWarnings))
    ensures r.omittedCount == result.Total() - r.results.Total()
  {
    var passCount := 0;
    var deps: seq<DependencyWarning> := [];
    var matches: seq<MatchWarning> := [];
    var deepscans: seq<DeepscanWarning> := [];

    var i := 0;
    while i < |result.dependencyWarnings|
      invariant 0 <= i <= |result.dependencyWarnings|
      invariant passCount == i <= Budget(maxWarnings)
      invariant deps == result.dependencyWarnings[..i]
    {
      if passCount >= maxWarnings {
        break;
      }
      deps := deps + [result.dependencyWarnings[i]];
      passCount := passCount + 1;
      i := i + 1;
    }
    ghost var d := passCount;

    i := 0;
    while i < |result.matchWarnings|
      invariant 0 <= i <= |result.matchWarnings|
      invariant passCount == d + i <= Budget(maxWarnings)
      invariant matches == result.matchWarnings[..i]
    {
      if passCount >= maxWarnings {
        break;
      }
      matches := matches + [result.matchWarnings[i]];
      passCount := passCount + 1;
      i := i + 1;
    }
    ghost var m := passCount - d;

    i := 0;
    while i < |result.deepscanWarnings|
      invariant 0 <= i <= |result.deepscanWarnings|
      invariant passCount == d + m + i <= Budget(maxWarnings)
      invariant deepscans == result.deepscanWarnings[..i]
    {
      if passCount >= maxWarnings {
        break;
      }
      deepscans := deepscans + [result.deepscanWarnings[i]];
      passCount := passCount + 1;
      i := i + 1;
    }

    var totalCount := |result.deepscanWarnings| + |result.dependencyWarnings| + |result.matchWarnings|;
    r := LimiterResult(CheckResult(deps, matches, deepscans), totalCount - passCount);
  }

  /** The limiter keeps min(budget, total) warnings and omits the rest. */
  lemma LimitedKeepsMin(result: CheckResult, maxWarnings: nat)
    ensures Limited(result, maxWarnings).Total() == Min(maxWarnings, result.Total())
    ensures result.Total() - Limited(result, maxWarnings).Total() == if result.Total() > maxWarnings then result.Total() - maxWarnings else 0
  {
  }

  /** Each kept list is a prefix of the input list of its category. */
  lemma LimitedIsPrefix(result: CheckResult, maxWarnings: nat)
    ensures Limited(result, maxWarnings).dependencyWarnings <= result.dependencyWarnings
    ensures Limited(result, maxWarnings).matchWarnings <= result.matchWarnings
    ensures Limited(result, maxWarnings).deepscanWarnings <= result.deepscanWarnings
  {
  }

  /**
   * Dependency warnings are never dropped in favour of later categories:
   * a kept not-matched warning means every dependency warning is kept, and a
   * kept deep-scan warning means every earlier warning is kept.
   */
  lemma LimitedCategoryPriority(result: CheckResult, maxWarnings: nat)
    ensures |Limited(result, maxWarnings).matchWarnings| > 0 ==>
      Limited(result, maxWarnings).dependencyWarnings == result.dependencyWarnings
    ensures |Limited(result, maxWarnings).deepscanWarnings| > 0 ==>
      Limited(result, maxWarnings).dependencyWarnings == result.dependencyWarnings &&
      Limited(result, maxWarnings).matchWarnings == result.matchWarnings
  {
  }

  /** A budget no smaller than the total keeps everything. */
  lemma LimitedWithinBudget(result: CheckResult, maxWarnings: nat)
    requires result.Total() <= maxWarnings
    ensures Limited(result, maxWarnings) == result
  {
    assert result.dependencyWarnings[..|result.dependencyWarnings|] == result.dependencyWarnings;
    assert result.matchWarnings[..|result.matchWarnings|] == result.matchWarnings;
    assert result.deepscanWarnings[..|result.deepscanWarnings|] == result.deepscanWarnings;
  }

  function ResultsHasWarnings(result: CheckResult): (r: bool)
    ensures r <==> result.Total() > 0
  {
    if |result.dependencyWarnings| > 0 then true
    else if |result.matchWarnings| > 0 then true
    else if |result.deepscanWarnings| > 0 then true
    else false
  }

  /** A document notice as reported; the rendered source preview is not modelled. */
  datatype CheckNotice = CheckNotice(text: NoticeError, file: string, line: int, column: int)

  function ToCheckNotice(n: Notice): CheckNotice
  {
    CheckNotice(n.notice, n.ref.file, n.ref.line, n.ref.column)
  }

  /** One report entry per document notice, in document order. */
  function ToCheckNotices(notices: seq<Notice>): seq<CheckNotice>
  {
    seq(|notices|, i requires 0 <= i < |notices| => ToCheckNotice(notices[i]))
  }

  /** The order the report uses: by file name, then by line within a file. */
  predicate NoticeLess(a: CheckNotice, b: CheckNotice)
  {
    if a.file == b.file then a.line < b.line else Strings.Less(a.file, b.file)
  }

  lemma NoticeLessStrictWeakOrder()
    ensures Sorting.StrictWeakOrder(NoticeLess)
  {
    forall x: CheckNotice, y: CheckNotice | NoticeLess(x, y)
      ensures !NoticeLess(y, x)
    {
      if x.file != y.file {
        Strings.LessAsymmetric(x.file, y.file);
      }
    }
    forall x: CheckNotice, y: CheckNotice, z: CheckNotice | !NoticeLess(y, x) && !NoticeLess(z, y)
      ensures !NoticeLess(z, x)
    {
      if x.file != y.file {
        Strings.LessTotal(x.file, y.file);
      }
      if y.file != z.file {
        Strings.LessTotal(y.file, z.file);
      }
      if x.file != z.file && x.file != y.file && y.file != z.file {
        Strings.LessTransitive(x.file, y.file, z.file);
        Strings.LessAsymmetric(x.file, z.file);
      } else if x.file == z.file && x.file != y.file {
        Strings.LessAsymmetric(x.file, y.file);
      }
    }
  }

  method AssembleNotice(integrity: Integrity) returns (results: seq<CheckNotice>)
    ensures |results| == |integrity.documentNotices|
    ensures multiset(results) == multiset(ToCheckNotices(integrity.documentNotices))
    ensures forall i, j :: 0 <= i < j < |results| ==> !NoticeLess(results[j], results[i])
  {
    var notices := integrity.documentNotices;
    var collected: seq<CheckNotice> := [];
    var k := 0;
    while k < |notices|
      invariant 0 <= k <= |notices|
      invariant collected == ToCheckNotices(notices[..k])
    {
      collected := collected + [ToCheckNotice(notices[k])];
      k := k + 1;
    }
    assert notices[..k] == notices;
    var buffer := new CheckNotice[|collected|](i requires 0 <= i < |collected| => collected[i]);
    assert buffer[..] == collected;
    NoticeLessStrictWeakOrder();
    Sorting.SortInPlace(buffer, NoticeLess);
    results := buffer[..];
    assert |multiset(results)| == |multiset(collected)|;
  }

  datatype Quality = Quality(id: string, name: string, used: bool, hint: string)

  datatype CmdCheckOut = CmdCheckOut(
    moduleName: string,
    documentNotices: seq<CheckNotice>,
    archHasWarnings: bool,
    archWarningsDependency: seq<DependencyWarning>,
    archWarningsMatch: seq<MatchWarning>,
    archWarningsDeepScan: seq<DeepscanWarning>,
    omittedCount: int,
    qualities: seq<Quality>)

  /** A run ends with the full report, with the report and a "check not successful" signal, or with a hard error. */
  datatype BehaveOutcome =
    | Successful(out: CmdCheckOut)
    | Unsuccessful(out: CmdCheckOut)
    | Failed(error: Failure)

  /** The checker's input when it is not run: no warnings at all. */
  function CheckedResult(spec: Spec, check: Spec -> Result<CheckResult>): CheckResult
  {
    if |spec.integrity.documentNotices| == 0 && check(spec).Ok? then check(spec).value else EmptyResult
  }

  /**
   * `assembled` is the outcome of the project-info and spec-assembly steps,
   * `check` the dependency checker; `invoked` tells whether it was called.
   */
  method Behave(assembled: Result<Spec>, check: Spec -> Result<CheckResult>, maxWarnings: int)
    returns (outcome: BehaveOutcome, invoked: bool)
    ensures assembled.Err? ==> !invoked && outcome == Failed(assembled.error)
    ensures assembled.Ok? ==> (invoked <==> |assembled.value.integrity.documentNotices| == 0)
    ensures invoked && check(assembled.value).Err? ==> outcome == Failed(CheckDepsFailed(check(assembled.value).error))
    ensures !outcome.Failed? ==>
      assembled.Ok? &&
      var spec := assembled.value;
      var kept := Limited(CheckedResult(spec, check), Budget(maxWarnings));
      && outcome.out.archWarningsDependency == kept.dependencyWarnings
      && outcome.out.archWarningsMatch == kept.matchWarnings
      && outcome.out.archWarningsDeepScan == kept.deepscanWarnings
      && outcome.out.omittedCount == CheckedResult(spec, check).Total() - kept.Total()
      && outcome.out.archHasWarnings == (kept.Total() > 0)
      && outcome.out.moduleName == spec.moduleName.value
      && multiset(outcome.out.documentNotices) == multiset(ToCheckNotices(spec.integrity.documentNotices))
      && (forall i, j :: 0 <= i < j < |outcome.out.documentNotices| ==>
            !NoticeLess(outcome.out.documentNotices[j], outcome.out.documentNotices[i]))
      && |outcome.out.documentNotices| == |spec.integrity.documentNotices|
      && (outcome.Unsuccessful? <==> kept.Total() > 0 || |spec.integrity.documentNotices| > 0)
    ensures assembled.Ok? && (!invoked || check(assembled.value).Ok?) ==> !outcome.Failed?
  {
    invoked := false;
    if assembled.Err? {
      outcome := Failed(assembled.error);
      return;
    }
    var spec := assembled.value;

    var result := EmptyResult;
    if |spec.integrity.documentNotices| == 0 {
      invoked := true;
      var checked := check(spec);
      if checked.Err? {
        outcome := Failed(CheckDepsFailed(checked.error));
        return;
      }
      result := checked.value;
    }

    var limitedResult := LimitResults(result, maxWarnings);
    var notices := AssembleNotice(spec.integrity);
    var model := CmdCheckOut(
      spec.moduleName.value,
      notices,
      ResultsHasWarnings(limitedResult.results),
      limitedResult.results.dependencyWarnings,
      limitedResult.results.matchWarnings,
      limitedResult.results.deepscanWarnings,
      limitedResult.omittedCount,
      [
        Quality("component_imports", "Base: component imports", |spec.components| > 0, "always on"),
        Quality("vendor_imports", "Advanced: vendor imports", spec.allow.depOnAnyVendor.value == false,
                "switch 'allow.depOnAnyVendor = false' (or delete) to on"),
        Quality("deepscan", "Advanced: method calls and dependency injections", spec.allow.deepScan.value == true,
                "switch 'allow.deepScan = true' (or delete) to on")
      ]);

    if model.archHasWarnings || |model.documentNotices| > 0 {
      outcome := Unsuccessful(model);
    } else {
      outcome := Successful(model);
    }
  }
}
