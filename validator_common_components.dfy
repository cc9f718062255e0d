/**
 * The common-components rule of the document validator: one notice per
 * common component name that names no declared component. Whether a name is
 * known is decided outside this model and given as `knownComponent`.
 */
module ValidatorCommonComponents {
  import opened Models

  /** The notices for `names`, in order: one for each unknown name, at that name's reference. */
  function UnknownComponentNotices(names: seq<Referable<string>>, knownComponent: string -> bool): seq<Notice>
  {
    if names == [] then []
    else
      var last := names[|names| - 1];
      UnknownComponentNotices(names[..|names| - 1], knownComponent)
      + (if knownComponent(last.value) then [] else [Notice(UnknownComponent(last.value), last.ref)])
  }

  method Validate(doc: Document, knownComponent: string -> bool) returns (notices: seq<Notice>)
    ensures notices == UnknownComponentNotices(doc.commonComponents, knownComponent)
  {
    notices := [];
    var names := doc.commonComponents;
    var i := 0;
    while i < |names|
      invariant 0 <= i <= |names|
      invariant notices == UnknownComponentNotices(names[..i], knownComponent)
    {
      var componentName := names[i];
      assert names[..i + 1][..i] == names[..i];
      if !knownComponent(componentName.value) {
        notices := notices + [Notice(UnknownComponent(componentName.value), componentName.ref)];
      }
      i := i + 1;
    }
    assert names[..i] == names;
  }

  /** The positions of the names that are not known components. */
  function UnknownPositions(names: seq<Referable<string>>, knownComponent: string -> bool): set<int>
  {
    set i | 0 <= i < |names| && !knownComponent(names[i].value)
  }

  /** Exactly one notice per unknown name. */
  lemma {:induction false} OneNoticePerUnknownName(names: seq<Referable<string>>, knownComponent: string -> bool)
    ensures |UnknownComponentNotices(names, knownComponent)| == |UnknownPositions(names, knownComponent)|
  {
    if names != [] {
      var n := |names| - 1;
      var init := names[..n];
      OneNoticePerUnknownName(init, knownComponent);
      var before := UnknownPositions(init, knownComponent);
      var after := UnknownPositions(names, knownComponent);
      assert forall i :: 0 <= i < n ==> init[i] == names[i];
      if knownComponent(names[n].value) {
        assert after == before;
      } else {
        assert after == before + {n};
        assert n !in before;
      }
    }
  }

  /**
   * A notice is produced exactly for an unknown name, it names that
   * component and points at that name's reference; known names produce none.
   */
  lemma {:induction false} NoticesAreUnknownNames(names: seq<Referable<string>>, knownComponent: string -> bool,
                                                  notice: Notice)
    ensures notice in UnknownComponentNotices(names, knownComponent) <==>
      exists i :: 0 <= i < |names| && !knownComponent(names[i].value)
        && notice == Notice(UnknownComponent(names[i].value), names[i].ref)
  {
    if names != [] {
      var n := |names| - 1;
      var init := names[..n];
      NoticesAreUnknownNames(init, knownComponent, notice);
      if notice in UnknownComponentNotices(init, knownComponent) {
        var i :| 0 <= i < |init| && !knownComponent(init[i].value)
          && notice == Notice(UnknownComponent(init[i].value), init[i].ref);
        assert names[i] == init[i];
      }
      if (exists i :: 0 <= i < |names| && !knownComponent(names[i].value)
            && notice == Notice(UnknownComponent(names[i].value), names[i].ref)) {
        var i :| 0 <= i < |names| && !knownComponent(names[i].value)
          && notice == Notice(UnknownComponent(names[i].value), names[i].ref);
        if i < n {
          assert init[i] == names[i];
        }
      }
    }
  }

  /** Notices follow the order of the names: the notices of a concatenation are the concatenated notices. */
  lemma {:induction false} NoticesFollowNameOrder(a: seq<Referable<string>>, b: seq<Referable<string>>,
                                                  knownComponent: string -> bool)
    ensures UnknownComponentNotices(a + b, knownComponent)
         == UnknownComponentNotices(a, knownComponent) + UnknownComponentNotices(b, knownComponent)
    decreases |b|
  {
    if b == [] {
      assert a + b == a;
    } else {
      assert (a + b)[..|a + b| - 1] == a + b[..|b| - 1];
      NoticesFollowNameOrder(a, b[..|b| - 1], knownComponent);
    }
  }
}
