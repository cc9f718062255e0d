/**
 * The exclude-files step of spec assembly: every exclusion pattern of the
 * document that compiles becomes a matcher with the pattern's reference;
 * patterns that do not compile are dropped without a word. Compilation is
 * external and given as `compiles`.
 */
module AssemblerExcludeFileMatcher {
  import opened Models

  /** The matchers of the patterns that compile, in document order. */
  function CompiledMatchers(patterns: seq<Referable<string>>, compiles: string -> bool): seq<Referable<Regexp>>
  {
    if patterns == [] then []
    else
      var last := patterns[|patterns| - 1];
      CompiledMatchers(patterns[..|patterns| - 1], compiles)
      + (if compiles(last.value) then [Referable(Regexp(last.value), last.ref)] else [])
  }

  /** The step never reports an error. */
  method Assemble(spec: SpecRef, doc: Document, compiles: string -> bool) returns (err: Option<Failure>)
    modifies spec
    ensures err == None
    ensures spec.spec == old(spec.spec).(excludeFilesMatcher :=
      old(spec.spec).excludeFilesMatcher + CompiledMatchers(doc.excludedFilesRegExp, compiles))
  {
    var patterns := doc.excludedFilesRegExp;
    var i := 0;
    while i < |patterns|
      invariant 0 <= i <= |patterns|
      invariant spec.spec == old(spec.spec).(excludeFilesMatcher :=
        old(spec.spec).excludeFilesMatcher + CompiledMatchers(patterns[..i], compiles))
    {
      var regString := patterns[i];
      assert patterns[..i + 1][..i] == patterns[..i];
      if compiles(regString.value) {
        spec.spec := spec.spec.(excludeFilesMatcher :=
          spec.spec.excludeFilesMatcher + [Referable(Regexp(regString.value), regString.ref)]);
      }
      i := i + 1;
    }
    assert patterns[..i] == patterns;
    return None;
  }

  /** The indices of the patterns that compile. */
  function CompilableIndices(patterns: seq<Referable<string>>, compiles: string -> bool): set<int>
  {
    set i | 0 <= i < |patterns| && compiles(patterns[i].value)
  }

  /** One matcher per compilable pattern. */
  lemma {:induction false} CompiledMatchersCount(patterns: seq<Referable<string>>, compiles: string -> bool)
    ensures |CompiledMatchers(patterns, compiles)| == |CompilableIndices(patterns, compiles)|
  {
    if patterns != [] {
      var n := |patterns| - 1;
      var init := patterns[..n];
      CompiledMatchersCount(init, compiles);
      var before := CompilableIndices(init, compiles);
      var after := CompilableIndices(patterns, compiles);
      assert forall i :: 0 <= i < n ==> init[i] == patterns[i];
      if compiles(patterns[n].value) {
        assert after == before + {n};
        assert n !in before;
      } else {
        assert after == before;
      }
    }
  }

  /** Pattern `i` compiles and `m` is its matcher, with the pattern's reference. */
  ghost predicate MatcherOf(patterns: seq<Referable<string>>, compiles: string -> bool, i: int, m: Referable<Regexp>)
  {
    0 <= i < |patterns| && compiles(patterns[i].value) && m == Referable(Regexp(patterns[i].value), patterns[i].ref)
  }

  /**
   * A matcher is appended exactly for a pattern that compiles, and it keeps
   * that pattern's text and reference.
   */
  lemma {:induction false} CompiledMatchersMembers(patterns: seq<Referable<string>>, compiles: string -> bool,
                                                   m: Referable<Regexp>)
    ensures m in CompiledMatchers(patterns, compiles) <==> exists i :: MatcherOf(patterns, compiles, i, m)
  {
    if patterns != [] {
      var n := |patterns| - 1;
      var init := patterns[..n];
      CompiledMatchersMembers(init, compiles, m);
      if exists i :: MatcherOf(patterns, compiles, i, m) {
        var i :| MatcherOf(patterns, compiles, i, m);
        if i < n {
          assert init[i] == patterns[i];
          assert MatcherOf(init, compiles, i, m);
        }
      }
      if m in CompiledMatchers(init, compiles) {
        var i :| MatcherOf(init, compiles, i, m);
        assert patterns[i] == init[i];
        assert MatcherOf(patterns, compiles, i, m);
      }
      if compiles(patterns[n].value) && m == Referable(Regexp(patterns[n].value), patterns[n].ref) {
        assert MatcherOf(patterns, compiles, n, m);
      }
    }
  }

  /** Matchers keep document order: the matchers of a concatenation are the concatenated matchers. */
  lemma {:induction false} CompiledMatchersConcat(a: seq<Referable<string>>, b: seq<Referable<string>>,
                                                  compiles: string -> bool)
    ensures CompiledMatchers(a + b, compiles) == CompiledMatchers(a, compiles) + CompiledMatchers(b, compiles)
    decreases |b|
  {
    if b == [] {
      assert a + b == a;
    } else {
      assert (a + b)[..|a + b| - 1] == a + b[..|b| - 1];
      CompiledMatchersConcat(a, b[..|b| - 1], compiles);
    }
  }
}
