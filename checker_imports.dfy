/**
 * The import checker: every import of every classified project file is
 * judged against the component the file belongs to. Standard-library imports
 * always pass; vendor imports pass by the global flag, the component's flag or
 * a matching vendor glob; project imports pass by the component's flag or an
 * exact import-path match. Warnings accumulate in the checker's `result`
 * field, which is never cleared.
 */
module CheckerImports {
  import opened Models
  import Strings

  /** Glob.Match: Some(matched), or None when the pattern is malformed. */
  type GlobMatcher = (Glob, string) -> Option<bool>

  // ----- assembleComponentsMap -----

  /** The component map: each name maps to the last component declared with it. */
  function ComponentsByName(components: seq<Component>): map<string, Component>
  {
    if components == [] then map[]
    else
      var last := components[|components| - 1];
      ComponentsByName(components[..|components| - 1])[last.name.value := last]
  }

  /** The map's keys are the declared names, and every entry is stored under its own name. */
  lemma {:induction false} ComponentsByNameKeys(components: seq<Component>)
    ensures ComponentsByName(components).Keys == set c | c in components :: c.name.value
    ensures forall k :: k in ComponentsByName(components) ==> ComponentsByName(components)[k].name.value == k
  {
    if components != [] {
      var init := components[..|components| - 1];
      ComponentsByNameKeys(init);
      assert components == init + [components[|components| - 1]];
    }
  }

  /** A name maps to its last declaration: no later component carries that name. */
  lemma {:induction false} ComponentsByNameLastWins(components: seq<Component>, k: string)
    requires k in ComponentsByName(components)
    ensures exists i :: 0 <= i < |components| && LastDeclaration(components, k, i)
  {
    var n := |components|;
    var last := components[n - 1];
    var init := components[..n - 1];
    assert ComponentsByName(components) == ComponentsByName(init)[last.name.value := last];
    if last.name.value != k {
      ComponentsByNameLastWins(init, k);
      var i :| 0 <= i < |init| && LastDeclaration(init, k, i);
      assert components[i] == init[i];
      assert LastDeclaration(components, k, i);
    } else {
      assert LastDeclaration(components, k, n - 1);
    }
  }

  /** Component `i` is stored under `k` and no later component is named `k`. */
  ghost predicate LastDeclaration(components: seq<Component>, k: string, i: int)
    requires 0 <= i < |components|
  {
    && k in ComponentsByName(components)
    && components[i] == ComponentsByName(components)[k]
    && forall j :: i < j < |components| ==> components[j].name.value != k
  }

  method AssembleComponentsMap(spec: Spec) returns (results: map<string, Component>)
    ensures results == ComponentsByName(spec.components)
  {
    results := map[];
    var i := 0;
    while i < |spec.components|
      invariant 0 <= i <= |spec.components|
      invariant results == ComponentsByName(spec.components[..i])
    {
      var component := spec.components[i];
      assert spec.components[..i + 1][..i] == spec.components[..i];
      results := results[component.name.value := component];
      i := i + 1;
    }
    assert spec.components[..i] == spec.components;
  }

  // ----- the decisions for one import -----

  /** No glob before index `i` matches `name`, and none of them failed. */
  ghost predicate NoDecisionBefore(globs: seq<Referable<Glob>>, name: string, matchGlob: GlobMatcher, i: int)
    requires 0 <= i <= |globs|
  {
    forall j :: 0 <= j < i ==> matchGlob(globs[j].value, name) == Some(false)
  }

  /**
   * The glob scan: the first glob that matches allows the import, and a
   * malformed glob met before any match aborts with that glob's reference.
   */
  function MatchVendorGlobs(globs: seq<Referable<Glob>>, name: string, matchGlob: GlobMatcher): (r: Result<bool>)
    ensures r == Ok(true) <==>
      exists i :: 0 <= i < |globs| && NoDecisionBefore(globs, name, matchGlob, i) && matchGlob(globs[i].value, name) == Some(true)
    ensures r == Ok(false) <==> NoDecisionBefore(globs, name, matchGlob, |globs|)
    ensures r.Err? <==>
      exists i :: 0 <= i < |globs| && NoDecisionBefore(globs, name, matchGlob, i) && matchGlob(globs[i].value, name) == None
    ensures r.Err? ==>
      exists i :: 0 <= i < |globs| && NoDecisionBefore(globs, name, matchGlob, i) &&
        matchGlob(globs[i].value, name) == None && r == Err(InvalidVendorGlob(globs[i].value, globs[i].ref))
  {
    if globs == [] then Ok(false)
    else
      match matchGlob(globs[0].value, name)
      case None => Err(InvalidVendorGlob(globs[0].value, globs[0].ref))
      case Some(true) => Ok(true)
      case Some(false) =>
        var r := MatchVendorGlobs(globs[1..], name, matchGlob);
        assert forall i :: 0 <= i < |globs| - 1 ==>
          (NoDecisionBefore(globs[1..], name, matchGlob, i) <==> NoDecisionBefore(globs, name, matchGlob, i + 1));
        r
  }

  function CheckVendorImport(component: Component, resolvedImport: ResolvedImport, matchGlob: GlobMatcher): (r: Result<bool>)
    ensures component.specialFlags.allowAllVendorDeps.value ==> r == Ok(true)
    ensures !component.specialFlags.allowAllVendorDeps.value ==>
      r == MatchVendorGlobs(component.allowedVendorGlobs, resolvedImport.name, matchGlob)
  {
    if component.specialFlags.allowAllVendorDeps.value then Ok(true)
    else MatchVendorGlobs(component.allowedVendorGlobs, resolvedImport.name, matchGlob)
  }

  /** Exact import-path search in the component's allowed project imports. */
  function AllowedProjectImport(allowed: seq<Referable<ResolvedPath>>, name: string): (r: bool)
    ensures r <==> exists i :: 0 <= i < |allowed| && allowed[i].value.importPath == name
  {
    if allowed == [] then false
    else if allowed[0].value.importPath == name then true
    else
      var r := AllowedProjectImport(allowed[1..], name);
      assert forall i :: 1 <= i < |allowed| ==> allowed[i] == allowed[1..][i - 1];
      r
  }

  function CheckProjectImport(component: Component, resolvedImport: ResolvedImport): (r: bool)
    ensures r <==> (component.specialFlags.allowAllProjectDeps.value ||
                    exists i :: 0 <= i < |component.allowedProjectImports| &&
                      component.allowedProjectImports[i].value.importPath == resolvedImport.name)
  {
    if component.specialFlags.allowAllProjectDeps.value then true
    else AllowedProjectImport(component.allowedProjectImports, resolvedImport.name)
  }

  function CheckImport(component: Component, resolvedImport: ResolvedImport, allowDependOnAnyVendor: bool, matchGlob: GlobMatcher): (r: Result<bool>)
    ensures resolvedImport.importType == StdLib ==> r == Ok(true)
    ensures resolvedImport.importType == Vendor && (allowDependOnAnyVendor || component.specialFlags.allowAllVendorDeps.value) ==> r == Ok(true)
    ensures resolvedImport.importType == Vendor && !allowDependOnAnyVendor && !component.specialFlags.allowAllVendorDeps.value ==>
      r == MatchVendorGlobs(component.allowedVendorGlobs, resolvedImport.name, matchGlob)
    ensures resolvedImport.importType == Project ==>
      && r.Ok?
      && (r.value <==> (component.specialFlags.allowAllProjectDeps.value ||
                        exists i :: 0 <= i < |component.allowedProjectImports| &&
                          component.allowedProjectImports[i].value.importPath == resolvedImport.name))
    ensures r.Err? ==> resolvedImport.importType == Vendor
  {
    match resolvedImport.importType
    case StdLib => Ok(true)
    case Vendor =>
      if allowDependOnAnyVendor then Ok(true)
      else CheckVendorImport(component, resolvedImport, matchGlob)
    case Project => Ok(CheckProjectImport(component, resolvedImport))
  }

  // ----- one file and the whole run, as values -----

  /** The warnings a file's imports produce, and the failure that stopped the scan, if any. */
  datatype FileOutcome = FileOutcome(warnings: seq<DependencyWarning>, failure: Option<Failure>)

  function DependencyWarningFor(spec: Spec, component: Component, file: ProjectFile, resolvedImport: ResolvedImport): DependencyWarning
  {
    DependencyWarning(
      resolvedImport.reference,
      component.name.value,
      Strings.TrimPrefix(file.path, spec.rootDirectory.value),
      file.path,
      resolvedImport.name)
  }

  /** Judges `imports` in order: a warning per disallowed import, stopping at the first failure. */
  function FileImports(spec: Spec, component: Component, file: ProjectFile, imports: seq<ResolvedImport>, matchGlob: GlobMatcher): FileOutcome
  {
    if imports == [] then FileOutcome([], None)
    else
      var rest := FileImports(spec, component, file, imports[1..], matchGlob);
      match CheckImport(component, imports[0], spec.allow.depOnAnyVendor.value, matchGlob)
      case Err(e) => FileOutcome([], Some(ImportCheckFailed(imports[0].name, e)))
      case Ok(allowed) =>
        if allowed then rest
        else FileOutcome([DependencyWarningFor(spec, component, file, imports[0])] + rest.warnings, rest.failure)
  }

  /** The imports the checker rejects. */
  function Disallowed(spec: Spec, component: Component, imports: seq<ResolvedImport>, matchGlob: GlobMatcher): seq<ResolvedImport>
  {
    if imports == [] then []
    else
      (if CheckImport(component, imports[0], spec.allow.depOnAnyVendor.value, matchGlob) == Ok(false) then [imports[0]] else []) +
      Disallowed(spec, component, imports[1..], matchGlob)
  }

  /**
   * When no import check fails, the file's warnings are exactly one per
   * disallowed import, in import order, each carrying that import's own
   * reference and name and the component's name.
   */
  lemma {:induction false} FileWarningsAreDisallowedImports(spec: Spec, component: Component, file: ProjectFile, imports: seq<ResolvedImport>, matchGlob: GlobMatcher)
    requires FileImports(spec, component, file, imports, matchGlob).failure.None?
    ensures var ws := FileImports(spec, component, file, imports, matchGlob).warnings;
      var bad := Disallowed(spec, component, imports, matchGlob);
      |ws| == |bad| &&
      forall i :: 0 <= i < |ws| ==>
        ws[i].reference == bad[i].reference && ws[i].resolvedImportName == bad[i].name &&
        ws[i].componentName == component.name.value && ws[i].fileAbsolutePath == file.path
  {
    if imports != [] {
      FileWarningsAreDisallowedImports(spec, component, file, imports[1..], matchGlob);
      var rest := FileImports(spec, component, file, imports[1..], matchGlob);
      var restBad := Disallowed(spec, component, imports[1..], matchGlob);
      var c := CheckImport(component, imports[0], spec.allow.depOnAnyVendor.value, matchGlob);
      assert c.Ok?;
      if !c.value {
        var ws := FileImports(spec, component, file, imports, matchGlob).warnings;
        var bad := Disallowed(spec, component, imports, matchGlob);
        assert ws == [DependencyWarningFor(spec, component, file, imports[0])] + rest.warnings;
        assert bad == [imports[0]] + restBad;
        forall i | 0 <= i < |ws|
          ensures ws[i].reference == bad[i].reference && ws[i].resolvedImportName == bad[i].name
          ensures ws[i].componentName == component.name.value && ws[i].fileAbsolutePath == file.path
        {
          if i > 0 {
            assert ws[i] == rest.warnings[i - 1] && bad[i] == restBad[i - 1];
          }
        }
      }
    }
  }

  /** A file whose imports are all standard-library imports produces no warning. */
  lemma {:induction false} StdLibOnlyFileIsClean(spec: Spec, component: Component, file: ProjectFile, imports: seq<ResolvedImport>, matchGlob: GlobMatcher)
    requires forall i :: 0 <= i < |imports| ==> imports[i].importType == StdLib
    ensures FileImports(spec, component, file, imports, matchGlob) == FileOutcome([], None)
  {
    if imports != [] {
      StdLibOnlyFileIsClean(spec, component, file, imports[1..], matchGlob);
    }
  }

  /** The outcome of a whole run: the accumulator's final value and the failure that ended the run, if any. */
  datatype ScanOutcome = ScanOutcome(acc: CheckResult, failure: Option<Failure>)

  function NotMatchedWarning(spec: Spec, file: ProjectFile): MatchWarning
  {
    MatchWarning(EmptyReference, Strings.TrimPrefix(file.path, spec.rootDirectory.value), file.path)
  }

  /** Files in order: unmatched ones add a match warning, matched ones their dependency warnings; an unknown component or a failed file ends the run. */
  function ScanFiles(spec: Spec, components: map<string, Component>, files: seq<FileHold>, matchGlob: GlobMatcher, acc: CheckResult): ScanOutcome
  {
    if files == [] then ScanOutcome(acc, None)
    else
      var projectFile := files[0];
      match projectFile.componentID
      case None =>
        ScanFiles(spec, components, files[1..], matchGlob,
                  acc.(matchWarnings := acc.matchWarnings + [NotMatchedWarning(spec, projectFile.file)]))
      case Some(componentID) =>
        if componentID in components then
          var fo := FileImports(spec, components[componentID], projectFile.file, projectFile.file.imports, matchGlob);
          var acc' := acc.(dependencyWarnings := acc.dependencyWarnings + fo.warnings);
          if fo.failure.Some? then ScanOutcome(acc', Some(FileCheckFailed(projectFile.file.path, fo.failure.value)))
          else ScanFiles(spec, components, files[1..], matchGlob, acc')
        else ScanOutcome(acc, Some(ComponentNotInMap(componentID)))
  }

  /** The files no component claims. */
  function Unmatched(files: seq<FileHold>): seq<FileHold>
  {
    if files == [] then [] else (if files[0].componentID.None? then [files[0]] else []) + Unmatched(files[1..])
  }

  /**
   * The accumulator only grows: what it held before the run stays a prefix of
   * every category, and the deep-scan category is never touched.
   */
  lemma {:induction false} ScanOnlyAppends(spec: Spec, components: map<string, Component>, files: seq<FileHold>, matchGlob: GlobMatcher, acc: CheckResult)
    ensures var out := ScanFiles(spec, components, files, matchGlob, acc).acc;
      acc.dependencyWarnings <= out.dependencyWarnings &&
      acc.matchWarnings <= out.matchWarnings &&
      out.deepscanWarnings == acc.deepscanWarnings
  {
    if files != [] {
      var f := files[0];
      match f.componentID
      case None =>
        ScanOnlyAppends(spec, components, files[1..], matchGlob,
                        acc.(matchWarnings := acc.matchWarnings + [NotMatchedWarning(spec, f.file)]));
      case Some(id) =>
        if id in components {
          var fo := FileImports(spec, components[id], f.file, f.file.imports, matchGlob);
          if fo.failure.None? {
            ScanOnlyAppends(spec, components, files[1..], matchGlob,
                            acc.(dependencyWarnings := acc.dependencyWarnings + fo.warnings));
          }
        }
    }
  }

  /**
   * In a run that ends without failure, the match warnings added are exactly
   * one per unmatched file, in file order, each naming the file's path with the
   * root-directory prefix trimmed.
   */
  lemma {:induction false} UnmatchedFilesWarnOnce(spec: Spec, components: map<string, Component>, files: seq<FileHold>, matchGlob: GlobMatcher, acc: CheckResult)
    requires ScanFiles(spec, components, files, matchGlob, acc).failure.None?
    ensures var out := ScanFiles(spec, components, files, matchGlob, acc).acc;
      var un := Unmatched(files);
      |out.matchWarnings| == |acc.matchWarnings| + |un| &&
      forall i :: 0 <= i < |un| ==>
        out.matchWarnings[|acc.matchWarnings| + i] ==
          MatchWarning(EmptyReference, Strings.TrimPrefix(un[i].file.path, spec.rootDirectory.value), un[i].file.path)
  {
    if files != [] {
      var f := files[0];
      match f.componentID
      case None =>
        var acc' := acc.(matchWarnings := acc.matchWarnings + [NotMatchedWarning(spec, f.file)]);
        UnmatchedFilesWarnOnce(spec, components, files[1..], matchGlob, acc');
        ScanOnlyAppends(spec, components, files[1..], matchGlob, acc');
      case Some(id) =>
        var fo := FileImports(spec, components[id], f.file, f.file.imports, matchGlob);
        UnmatchedFilesWarnOnce(spec, components, files[1..], matchGlob,
                               acc.(dependencyWarnings := acc.dependencyWarnings + fo.warnings));
    }
  }

  /** A file whose component is missing from the map makes the run fail, whatever comes before it. */
  lemma {:induction false} UnknownComponentFails(spec: Spec, components: map<string, Component>, files: seq<FileHold>, matchGlob: GlobMatcher, acc: CheckResult, k: nat)
    requires k < |files| && files[k].componentID.Some? && files[k].componentID.value !in components
    ensures ScanFiles(spec, components, files, matchGlob, acc).failure.Some?
  {
    if k > 0 {
      var f := files[0];
      assert files[1..][k - 1] == files[k];
      match f.componentID
      case None =>
        var acc' := acc.(matchWarnings := acc.matchWarnings + [NotMatchedWarning(spec, f.file)]);
        assert ScanFiles(spec, components, files, matchGlob, acc) == ScanFiles(spec, components, files[1..], matchGlob, acc');
        UnknownComponentFails(spec, components, files[1..], matchGlob, acc', k - 1);
      case Some(id) =>
        if id in components {
          var fo := FileImports(spec, components[id], f.file, f.file.imports, matchGlob);
          var acc' := acc.(dependencyWarnings := acc.dependencyWarnings + fo.warnings);
          if fo.failure.None? {
            assert ScanFiles(spec, components, files, matchGlob, acc) == ScanFiles(spec, components, files[1..], matchGlob, acc');
            UnknownComponentFails(spec, components, files[1..], matchGlob, acc', k - 1);
          }
        }
    }
  }

  /** With no components and no claimed files, a run only reports the unmatched files. */
  lemma {:induction false} NoComponentsNoDependencyWarnings(spec: Spec, files: seq<FileHold>, matchGlob: GlobMatcher, acc: CheckResult)
    requires forall i :: 0 <= i < |files| ==> files[i].componentID.None?
    ensures ScanFiles(spec, map[], files, matchGlob, acc).failure.None?
    ensures ScanFiles(spec, map[], files, matchGlob, acc).acc.dependencyWarnings == acc.dependencyWarnings
  {
    if files != [] {
      NoComponentsNoDependencyWarnings(spec, files[1..], matchGlob,
        acc.(matchWarnings := acc.matchWarnings + [NotMatchedWarning(spec, files[0].file)]));
    }
  }

  /**
   * A component allowed only the vendor glob "example.com/x": a file importing
   * the vendor packages "example.com/x" and "example.com/y" gets exactly one
   * warning, for "example.com/y".
   */
  lemma SingleVendorGlobScenario(spec: Spec, component: Component, file: ProjectFile, ref: Reference,
                                 xRef: Reference, yRef: Reference, matchGlob: GlobMatcher)
    requires !spec.allow.depOnAnyVendor.value && !component.specialFlags.allowAllVendorDeps.value
    requires component.allowedVendorGlobs == [Referable(Glob("example.com/x"), ref)]
    requires matchGlob(Glob("example.com/x"), "example.com/x") == Some(true)
    requires matchGlob(Glob("example.com/x"), "example.com/y") == Some(false)
    requires file.imports == [ResolvedImport("example.com/x", Vendor, xRef), ResolvedImport("example.com/y", Vendor, yRef)]
    ensures var fo := FileImports(spec, component, file, file.imports, matchGlob);
      && fo.failure.None?
      && |fo.warnings| == 1
      && fo.warnings[0].resolvedImportName == "example.com/y"
      && fo.warnings[0].reference == yRef
  {
    var imports := file.imports;
    var globs := component.allowedVendorGlobs;
    assert globs[1..] == [];
    assert MatchVendorGlobs(globs, "example.com/x", matchGlob) == Ok(true);
    assert MatchVendorGlobs(globs, "example.com/y", matchGlob) == Ok(false);
    assert imports[1..][1..] == [];
    assert imports[1..][0] == imports[1];
    assert CheckImport(component, imports[1], false, matchGlob) == Ok(false);
    assert FileImports(spec, component, file, imports[1..][1..], matchGlob) == FileOutcome([], None);
    var last := FileImports(spec, component, file, imports[1..], matchGlob);
    assert last == FileOutcome([DependencyWarningFor(spec, component, file, imports[1])], None);
  }

  // ----- the checker object -----

  class Imports {
    var spec: Spec
    /** The warning accumulator: created once and kept across Check calls. */
    var result: CheckResult

    constructor ()
      ensures result == EmptyResult
      ensures spec == ZeroSpec
    {
      spec := ZeroSpec;
      result := EmptyResult;
    }

    /**
     * `projectFiles` is what the project-files resolver returns for `spec`:
     * the scanned files with their components, or a failure.
     */
    method Check(spec: Spec, projectFiles: Result<seq<FileHold>>, matchGlob: GlobMatcher) returns (r: Result<CheckResult>)
      modifies this
      ensures this.spec == spec
      ensures projectFiles.Err? ==> r == Err(ProjectFilesFailed) && result == old(result)
      ensures projectFiles.Ok? ==>
        var out := ScanFiles(spec, ComponentsByName(spec.components), projectFiles.value, matchGlob, old(result));
        && result == out.acc
        && r == (if out.failure.Some? then Err(out.failure.value) else Ok(out.acc))
    {
      this.spec := spec;
      if projectFiles.Err? {
        return Err(ProjectFilesFailed);
      }
      var files := projectFiles.value;
      var components := AssembleComponentsMap(spec);

      var i := 0;
      while i < |files|
        invariant 0 <= i <= |files|
        invariant this.spec == spec
        invariant ScanFiles(spec, components, files[i..], matchGlob, result) ==
                  ScanFiles(spec, components, files, matchGlob, old(result))
      {
        var projectFile := files[i];
        assert files[i..][1..] == files[i + 1..];
        if projectFile.componentID.None? {
          result := result.(matchWarnings := result.matchWarnings + [NotMatchedWarning(spec, projectFile.file)]);
          i := i + 1;
          continue;
        }

        var componentID := projectFile.componentID.value;
        if componentID in components {
          var err := CheckFile(components[componentID], projectFile.file, matchGlob);
          if err.Some? {
            return Err(FileCheckFailed(projectFile.file.path, err.value));
          }
          i := i + 1;
          continue;
        }

        return Err(ComponentNotInMap(componentID));
      }
      return Ok(result);
    }

    method CheckFile(component: Component, file: ProjectFile, matchGlob: GlobMatcher) returns (err: Option<Failure>)
      modifies this
      ensures spec == old(spec)
      ensures var fo := FileImports(spec, component, file, file.imports, matchGlob);
        && result == old(result).(dependencyWarnings := old(result).dependencyWarnings + fo.warnings)
        && err == fo.failure
    {
      var imports := file.imports;
      ghost var added: seq<DependencyWarning> := [];
      var i := 0;
      while i < |imports|
        invariant 0 <= i <= |imports|
        invariant spec == old(spec)
        invariant result == old(result).(dependencyWarnings := old(result).dependencyWarnings + added)
        invariant var rest := FileImports(spec, component, file, imports[i..], matchGlob);
          FileImports(spec, component, file, imports, matchGlob) == FileOutcome(added + rest.warnings, rest.failure)
      {
        var resolvedImport := imports[i];
        assert imports[i..][1..] == imports[i + 1..];
        var allowed := CheckImport(component, resolvedImport, spec.allow.depOnAnyVendor.value, matchGlob);
        if allowed.Err? {
          return Some(ImportCheckFailed(resolvedImport.name, allowed.error));
        }
        if !allowed.value {
          var warning := DependencyWarningFor(spec, component, file, resolvedImport);
          result := result.(dependencyWarnings := result.dependencyWarnings + [warning]);
          added := added + [warning];
        }
        i := i + 1;
      }
      return None;
    }
  }
}
