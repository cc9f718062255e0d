/**
 * The deps-vendors rule of the document validator: within each dependency
 * rule, every repeated vendor name and every unknown vendor name gets a
 * notice. Rules are visited in the order of a Go map iteration, which is
 * unspecified; the model chooses it freely and reports the order it chose.
 * Whether a vendor is known is decided outside this model (`knownVendor`).
 */
module ValidatorDepsVendors {
  import opened Models

  /** The vendor names among `uses`. */
  function Names(uses: seq<Referable<string>>): set<string>
  {
    set u | u in uses :: u.value
  }

  /**
   * The notices of rule `name` for its vendor list: for each occurrence, a
   * duplicate notice when the name occurred earlier in the list, then an
   * unknown-vendor notice when it is not a known vendor.
   */
  function RuleNotices(name: string, uses: seq<Referable<string>>, knownVendor: string -> bool): seq<Notice>
  {
    if uses == [] then []
    else
      var init := uses[..|uses| - 1];
      var last := uses[|uses| - 1];
      RuleNotices(name, init, knownVendor)
      + (if last.value in Names(init) then [Notice(DuplicatedVendor(last.value, name), last.ref)] else [])
      + (if knownVendor(last.value) then [] else [Notice(UnknownVendor(last.value), last.ref)])
  }

  /** The inner loop over one rule's vendor list, with its own fresh `existVendors` set. */
  method ValidateRule(name: string, uses: seq<Referable<string>>, knownVendor: string -> bool)
    returns (notices: seq<Notice>)
    ensures notices == RuleNotices(name, uses, knownVendor)
  {
    notices := [];
    var existVendors: map<string, bool> := map[];
    var i := 0;
    while i < |uses|
      invariant 0 <= i <= |uses|
      invariant existVendors.Keys == Names(uses[..i])
      invariant notices == RuleNotices(name, uses[..i], knownVendor)
    {
      var vendorName := uses[i];
      assert uses[..i + 1][..i] == uses[..i];
      assert uses[..i + 1][i] == vendorName;
      if vendorName.value in existVendors {
        notices := notices + [Notice(DuplicatedVendor(vendorName.value, name), vendorName.ref)];
      }

      if !knownVendor(vendorName.value) {
        notices := notices + [Notice(UnknownVendor(vendorName.value), vendorName.ref)];
      }

      existVendors := existVendors[vendorName.value := true];
      assert Names(uses[..i + 1]) == Names(uses[..i]) + {vendorName.value};
      i := i + 1;
    }
    assert uses[..i] == uses;
  }

  /** The notices of the rules visited in `order`, concatenated. */
  function AllNotices(deps: map<string, Referable<DocDependencyRule>>, order: seq<string>,
                      knownVendor: string -> bool): seq<Notice>
    requires forall k :: k in order ==> k in deps
  {
    if order == [] then []
    else
      var name := order[|order| - 1];
      AllNotices(deps, order[..|order| - 1], knownVendor) + RuleNotices(name, deps[name].value.canUse, knownVendor)
  }

  /** `order` lists every rule name exactly once. */
  ghost predicate IsIterationOrder(deps: map<string, Referable<DocDependencyRule>>, order: seq<string>)
  {
    && |order| == |deps|
    && (forall k :: k in order <==> k in deps)
    && (forall i, j :: 0 <= i < j < |order| ==> order[i] != order[j])
  }

  /** A notice of some rule, whatever the order the rules are visited in. */
  ghost predicate SomeRuleNotice(deps: map<string, Referable<DocDependencyRule>>, knownVendor: string -> bool, notice: Notice)
  {
    exists name :: name in deps && notice in RuleNotices(name, deps[name].value.canUse, knownVendor)
  }

  /**
   * The rule reports, as a set, the notices of its rules, whatever the order
   * of the visit; only their order depends on the map iteration.
   */
  method Validate(doc: Document, knownVendor: string -> bool) returns (notices: seq<Notice>, ghost order: seq<string>)
    ensures IsIterationOrder(doc.dependencies, order)
    ensures notices == AllNotices(doc.dependencies, order, knownVendor)
    ensures forall notice :: notice in notices <==> SomeRuleNotice(doc.dependencies, knownVendor, notice)
  {
    notices := [];
    order := [];
    var remaining := doc.dependencies.Keys;
    while remaining != {}
      invariant remaining <= doc.dependencies.Keys
      invariant forall k :: k in order <==> k in doc.dependencies && k !in remaining
      invariant forall i, j :: 0 <= i < j < |order| ==> order[i] != order[j]
      invariant |order| + |remaining| == |doc.dependencies|
      invariant notices == AllNotices(doc.dependencies, order, knownVendor)
      decreases |remaining|
    {
      var name :| name in remaining;
      var rule := doc.dependencies[name];
      var ruleNotices := ValidateRule(name, rule.value.canUse, knownVendor);
      notices := notices + ruleNotices;
      assert (order + [name])[..|order|] == order;
      order := order + [name];
      remaining := remaining - {name};
    }
    assert doc.dependencies.Keys - remaining == doc.dependencies.Keys;
    forall notice
      ensures notice in notices <==> SomeRuleNotice(doc.dependencies, knownVendor, notice)
    {
      AllNoticesMembers(doc.dependencies, order, knownVendor, notice);
    }
  }

  /** A notice of the visit is a notice of one of the visited rules, and every such notice is reported. */
  lemma {:induction false} AllNoticesMembers(deps: map<string, Referable<DocDependencyRule>>, order: seq<string>,
                                             knownVendor: string -> bool, notice: Notice)
    requires forall k :: k in order ==> k in deps
    ensures notice in AllNotices(deps, order, knownVendor) <==>
      exists name :: name in order && notice in RuleNotices(name, deps[name].value.canUse, knownVendor)
  {
    if order != [] {
      var n := |order| - 1;
      var init := order[..n];
      var last := order[n];
      assert forall k :: k in init ==> k in order;
      AllNoticesMembers(deps, init, knownVendor, notice);
      var here := RuleNotices(last, deps[last].value.canUse, knownVendor);
      assert AllNotices(deps, order, knownVendor) == AllNotices(deps, init, knownVendor) + here;
      if notice in AllNotices(deps, init, knownVendor) {
        var name :| name in init && notice in RuleNotices(name, deps[name].value.canUse, knownVendor);
        assert name in order;
      } else if notice in here {
        assert last in order;
      }
      if exists name :: name in order && notice in RuleNotices(name, deps[name].value.canUse, knownVendor) {
        var name :| name in order && notice in RuleNotices(name, deps[name].value.canUse, knownVendor);
        var k :| 0 <= k < |order| && order[k] == name;
        if k < n {
          assert init[k] == name;
        }
      }
    }
  }

  // ----- properties of one rule's notices -----

  /** Occurrence `i` of the vendor list repeats a name that occurs earlier. */
  ghost predicate IsRepeat(uses: seq<Referable<string>>, i: int)
  {
    0 <= i < |uses| && exists j :: 0 <= j < i && uses[j].value == uses[i].value
  }

  /** A duplicate notice points at an occurrence that repeats an earlier one. */
  lemma {:induction false} DuplicateNoticeOnlyForRepeat(name: string, uses: seq<Referable<string>>,
                                                        knownVendor: string -> bool, vendor: string, ref: Reference)
    requires Notice(DuplicatedVendor(vendor, name), ref) in RuleNotices(name, uses, knownVendor)
    ensures exists i :: IsRepeat(uses, i) && uses[i] == Referable(vendor, ref)
  {
    var n := |uses| - 1;
    var init := uses[..n];
    var last := uses[n];
    var notice := Notice(DuplicatedVendor(vendor, name), ref);
    var dup := if last.value in Names(init) then [Notice(DuplicatedVendor(last.value, name), last.ref)] else [];
    var unknown := if knownVendor(last.value) then [] else [Notice(UnknownVendor(last.value), last.ref)];
    assert RuleNotices(name, uses, knownVendor) == RuleNotices(name, init, knownVendor) + dup + unknown;
    if notice in RuleNotices(name, init, knownVendor) {
      DuplicateNoticeOnlyForRepeat(name, init, knownVendor, vendor, ref);
      var i :| IsRepeat(init, i) && init[i] == Referable(vendor, ref);
      var j :| 0 <= j < i && init[j].value == init[i].value;
      assert uses[j] == init[j] && uses[i] == init[i];
      assert IsRepeat(uses, i);
    } else {
      assert notice in dup;
      var u :| u in init && u.value == last.value;
      var j :| 0 <= j < n && init[j] == u;
      assert uses[j] == init[j];
      assert IsRepeat(uses, n);
    }
  }

  /** Every occurrence that repeats an earlier one gets a duplicate notice at its reference. */
  lemma {:induction false} RepeatHasDuplicateNotice(name: string, uses: seq<Referable<string>>,
                                                    knownVendor: string -> bool, i: int)
    requires IsRepeat(uses, i)
    ensures Notice(DuplicatedVendor(uses[i].value, name), uses[i].ref) in RuleNotices(name, uses, knownVendor)
  {
    var n := |uses| - 1;
    var init := uses[..n];
    var j :| 0 <= j < i && uses[j].value == uses[i].value;
    if i < n {
      assert init[j] == uses[j] && init[i] == uses[i];
      assert IsRepeat(init, i);
      RepeatHasDuplicateNotice(name, init, knownVendor, i);
    } else {
      assert init[j] in init;
      assert uses[n].value in Names(init);
    }
  }

  /**
   * A duplicate notice is produced exactly for an occurrence that repeats an
   * earlier one, so the first occurrence of a name never gets one; it names
   * the vendor and the rule and points at the repeating occurrence.
   */
  lemma {:induction false} DuplicateNoticeIffRepeat(name: string, uses: seq<Referable<string>>,
                                                    knownVendor: string -> bool, vendor: string, ref: Reference)
    ensures Notice(DuplicatedVendor(vendor, name), ref) in RuleNotices(name, uses, knownVendor) <==>
      exists i :: IsRepeat(uses, i) && uses[i] == Referable(vendor, ref)
  {
    if Notice(DuplicatedVendor(vendor, name), ref) in RuleNotices(name, uses, knownVendor) {
      DuplicateNoticeOnlyForRepeat(name, uses, knownVendor, vendor, ref);
    }
    if exists i :: IsRepeat(uses, i) && uses[i] == Referable(vendor, ref) {
      var i :| IsRepeat(uses, i) && uses[i] == Referable(vendor, ref);
      RepeatHasDuplicateNotice(name, uses, knownVendor, i);
    }
  }

  /** Every occurrence of an unknown vendor, repeats included, gets an unknown-vendor notice at its reference. */
  lemma {:induction false} UnknownNoticeIffUnknownOccurrence(name: string, uses: seq<Referable<string>>,
                                                             knownVendor: string -> bool, vendor: string, ref: Reference)
    ensures Notice(UnknownVendor(vendor), ref) in RuleNotices(name, uses, knownVendor) <==>
      !knownVendor(vendor) && Referable(vendor, ref) in uses
  {
    if uses != [] {
      var n := |uses| - 1;
      var init := uses[..n];
      UnknownNoticeIffUnknownOccurrence(name, init, knownVendor, vendor, ref);
      assert uses == init + [uses[n]];
    }
  }

  /** The number of occurrences of unknown vendors. */
  function UnknownOccurrences(uses: seq<Referable<string>>, knownVendor: string -> bool): nat
  {
    if uses == [] then 0
    else (if knownVendor(uses[0].value) then 0 else 1) + UnknownOccurrences(uses[1..], knownVendor)
  }

  lemma {:induction false} UnknownOccurrencesAppend(uses: seq<Referable<string>>, u: Referable<string>,
                                                    knownVendor: string -> bool)
    ensures UnknownOccurrences(uses + [u], knownVendor)
         == UnknownOccurrences(uses, knownVendor) + (if knownVendor(u.value) then 0 else 1)
  {
    if uses != [] {
      assert (uses + [u])[1..] == uses[1..] + [u];
      UnknownOccurrencesAppend(uses[1..], u, knownVendor);
    }
  }

  /**
   * A rule's notice count is the number of repeat occurrences (occurrences
   * minus distinct names) plus the number of unknown occurrences.
   */
  lemma {:induction false} RuleNoticeCount(name: string, uses: seq<Referable<string>>, knownVendor: string -> bool)
    ensures |Names(uses)| <= |uses|
    ensures |RuleNotices(name, uses, knownVendor)| == (|uses| - |Names(uses)|) + UnknownOccurrences(uses, knownVendor)
  {
    if uses != [] {
      var n := |uses| - 1;
      var init := uses[..n];
      RuleNoticeCount(name, init, knownVendor);
      assert uses == init + [uses[n]];
      UnknownOccurrencesAppend(init, uses[n], knownVendor);
      assert Names(uses) == Names(init) + {uses[n].value};
      if uses[n].value !in Names(init) {
        assert |Names(uses)| == |Names(init)| + 1;
      }
    }
  }

  // ----- properties of the whole rule -----

  /**
   * Duplicate tracking restarts for every rule: a duplicate notice naming
   * rule `rule` comes from a name repeated within that rule's own list.
   */
  lemma {:induction false} DuplicatesArePerRule(deps: map<string, Referable<DocDependencyRule>>, order: seq<string>,
                                                knownVendor: string -> bool, vendor: string, rule: string, ref: Reference)
    requires forall k :: k in order ==> k in deps
    requires Notice(DuplicatedVendor(vendor, rule), ref) in AllNotices(deps, order, knownVendor)
    ensures rule in deps
    ensures exists i :: IsRepeat(deps[rule].value.canUse, i) && deps[rule].value.canUse[i] == Referable(vendor, ref)
  {
    var n := |order| - 1;
    var last := order[n];
    var notice := Notice(DuplicatedVendor(vendor, rule), ref);
    if notice in AllNotices(deps, order[..n], knownVendor) {
      assert forall k :: k in order[..n] ==> k in order;
      DuplicatesArePerRule(deps, order[..n], knownVendor, vendor, rule, ref);
    } else {
      assert notice in RuleNotices(last, deps[last].value.canUse, knownVendor);
      RuleNoticesNameTheirRule(last, deps[last].value.canUse, knownVendor, notice);
      DuplicateNoticeIffRepeat(last, deps[last].value.canUse, knownVendor, vendor, ref);
    }
  }

  /** Every duplicate notice of a rule names that rule. */
  lemma {:induction false} RuleNoticesNameTheirRule(name: string, uses: seq<Referable<string>>,
                                                    knownVendor: string -> bool, notice: Notice)
    requires notice in RuleNotices(name, uses, knownVendor)
    ensures notice.notice.DuplicatedVendor? ==> notice.notice.component == name
    ensures notice.notice.DuplicatedVendor? || notice.notice.UnknownVendor?
  {
    var n := |uses| - 1;
    if notice in RuleNotices(name, uses[..n], knownVendor) {
      RuleNoticesNameTheirRule(name, uses[..n], knownVendor, notice);
    }
  }
}
