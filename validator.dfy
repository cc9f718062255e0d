/**
 * The document validator: ten rules run in a fixed order and their notices
 * are concatenated; no rule is skipped because an earlier one complained.
 * The common-components and deps-vendors rules are modelled; the notices of
 * the other eight rules are given by `otherRule`.
 */
module SpecValidator {
  import opened Models
  import ValidatorCommonComponents
  import ValidatorDepsVendors

  datatype RuleKind =
    | CommonComponents
    | CommonVendors
    | Components
    | Deps
    | DepsComponents
    | DepsVendors
    | ExcludeFiles
    | Vendors
    | Version
    | WorkDir

  /** The battery, in the order the validator runs it. */
  const Battery: seq<RuleKind> :=
    [CommonComponents, CommonVendors, Components, Deps, DepsComponents,
     DepsVendors, ExcludeFiles, Vendors, Version, WorkDir]

  /** What the rules consult: name lookups and the notices of the rules outside this model. */
  datatype Utils = Utils(
    knownComponent: string -> bool,
    knownVendor: string -> bool,
    otherRule: (RuleKind, Document) -> seq<Notice>)

  /** The notices of the parts, one after the other. */
  function Concat(parts: seq<seq<Notice>>): seq<Notice>
  {
    if parts == [] then [] else Concat(parts[..|parts| - 1]) + parts[|parts| - 1]
  }

  /** The sum of the parts' lengths. */
  function NoticeCount(parts: seq<seq<Notice>>): nat
  {
    if parts == [] then 0 else |parts[0]| + NoticeCount(parts[1..])
  }

  /** What rule `kind` reports for the document; deps-vendors may visit its rules in any order. */
  ghost predicate RuleOutput(kind: RuleKind, doc: Document, utils: Utils, notices: seq<Notice>)
  {
    match kind
    case CommonComponents =>
      notices == ValidatorCommonComponents.UnknownComponentNotices(doc.commonComponents, utils.knownComponent)
    case DepsVendors =>
      exists order :: ValidatorDepsVendors.IsIterationOrder(doc.dependencies, order)
        && notices == ValidatorDepsVendors.AllNotices(doc.dependencies, order, utils.knownVendor)
    case _ => notices == utils.otherRule(kind, doc)
  }

  method RunRule(kind: RuleKind, doc: Document, utils: Utils) returns (notices: seq<Notice>)
    ensures RuleOutput(kind, doc, utils, notices)
  {
    match kind {
      case CommonComponents =>
        notices := ValidatorCommonComponents.Validate(doc, utils.knownComponent);
      case DepsVendors =>
        ghost var order;
        notices, order := ValidatorDepsVendors.Validate(doc, utils.knownVendor);
      case _ =>
        notices := utils.otherRule(kind, doc);
    }
  }

  /** The notices of rule `kind`, given those the deps-vendors rule reports in its visit order. */
  function RuleNoticesGiven(kind: RuleKind, doc: Document, utils: Utils, depsVendors: seq<Notice>): seq<Notice>
  {
    match kind
    case CommonComponents => ValidatorCommonComponents.UnknownComponentNotices(doc.commonComponents, utils.knownComponent)
    case DepsVendors => depsVendors
    case _ => utils.otherRule(kind, doc)
  }

  /** Every rule's notices, in battery order. */
  function BatteryNotices(doc: Document, utils: Utils, depsVendors: seq<Notice>): (r: seq<seq<Notice>>)
    ensures |r| == |Battery|
  {
    seq(|Battery|, k requires 0 <= k < |Battery| => RuleNoticesGiven(Battery[k], doc, utils, depsVendors))
  }

  /**
   * `outputs` holds every rule's notices, one entry per rule of the battery;
   * the notices are those of all ten rules in battery order, for some order in
   * which deps-vendors visits its rules.
   */
  method Validate(doc: Document, utils: Utils) returns (notices: seq<Notice>, ghost outputs: seq<seq<Notice>>)
    ensures |outputs| == |Battery|
    ensures forall k :: 0 <= k < |Battery| ==> RuleOutput(Battery[k], doc, utils, outputs[k])
    ensures notices == Concat(outputs)
    ensures exists order :: (ValidatorDepsVendors.IsIterationOrder(doc.dependencies, order)
      && notices == Concat(BatteryNotices(doc, utils, ValidatorDepsVendors.AllNotices(doc.dependencies, order, utils.knownVendor))))
  {
    notices := [];
    outputs := [];
    var validators := Battery;
    var i := 0;
    while i < |validators|
      invariant 0 <= i <= |validators|
      invariant |outputs| == i
      invariant forall k :: 0 <= k < i ==> RuleOutput(Battery[k], doc, utils, outputs[k])
      invariant notices == Concat(outputs)
    {
      var ruleNotices := RunRule(validators[i], doc, utils);
      assert (outputs + [ruleNotices])[..i] == outputs;
      outputs := outputs + [ruleNotices];
      notices := notices + ruleNotices;
      i := i + 1;
    }
    assert Battery[5] == DepsVendors && RuleOutput(Battery[5], doc, utils, outputs[5]);
    ghost var order :| ValidatorDepsVendors.IsIterationOrder(doc.dependencies, order)
      && outputs[5] == ValidatorDepsVendors.AllNotices(doc.dependencies, order, utils.knownVendor);
    ghost var expected := BatteryNotices(doc, utils, outputs[5]);
    forall k | 0 <= k < |Battery|
      ensures outputs[k] == expected[k]
    {
      assert RuleOutput(Battery[k], doc, utils, outputs[k]);
    }
    assert outputs == expected;
  }

  lemma {:induction false} ConcatPrepend(first: seq<Notice>, parts: seq<seq<Notice>>)
    ensures Concat([first] + parts) == first + Concat(parts)
    decreases |parts|
  {
    if parts == [] {
      assert [first] + parts == [first];
      assert Concat([first][..0]) == [];
    } else {
      var n := |parts| - 1;
      assert ([first] + parts)[..n + 1] == [first] + parts[..n];
      ConcatPrepend(first, parts[..n]);
    }
  }

  /** The validator reports as many notices as the rules together. */
  lemma {:induction false} ConcatCount(parts: seq<seq<Notice>>)
    ensures |Concat(parts)| == NoticeCount(parts)
  {
    if parts != [] {
      assert parts == [parts[0]] + parts[1..];
      ConcatPrepend(parts[0], parts[1..]);
      ConcatCount(parts[1..]);
    }
  }

  /** The validator reports nothing exactly when no rule reports anything. */
  lemma {:induction false} ConcatEmptyIffAllEmpty(parts: seq<seq<Notice>>)
    ensures Concat(parts) == [] <==> forall k :: 0 <= k < |parts| ==> parts[k] == []
  {
    if parts != [] {
      var n := |parts| - 1;
      ConcatEmptyIffAllEmpty(parts[..n]);
      assert forall k :: 0 <= k < n ==> parts[..n][k] == parts[k];
    }
  }

  /**
   * No rule is short-circuited: the notices of rule k appear, whole and in
   * place, right after those of the rules before it.
   */
  lemma {:induction false} EachRuleInPlace(parts: seq<seq<Notice>>, k: nat)
    requires k < |parts|
    ensures NoticeCount(parts[..k]) + |parts[k]| <= |Concat(parts)|
    ensures Concat(parts)[NoticeCount(parts[..k])..NoticeCount(parts[..k]) + |parts[k]|] == parts[k]
  {
    var n := |parts| - 1;
    ConcatCount(parts[..k]);
    ConcatCount(parts[..k + 1]);
    assert parts[..k + 1][..k] == parts[..k];
    var upto := Concat(parts[..k + 1]);
    assert upto == Concat(parts[..k]) + parts[k];
    ConcatPrefix(parts, k + 1);
  }

  /** The notices of the first rules are a prefix of all notices. */
  lemma {:induction false} ConcatPrefix(parts: seq<seq<Notice>>, m: nat)
    requires m <= |parts|
    ensures Concat(parts[..m]) <= Concat(parts)
    decreases |parts| - m
  {
    if m < |parts| {
      ConcatPrefix(parts, m + 1);
      assert parts[..m + 1][..m] == parts[..m];
    } else {
      assert parts[..m] == parts;
    }
  }
}
