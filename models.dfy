/**
 * Shared values of go-arch-lint: location references, referable values,
 * notices, the resolved architecture specification, the decoded document,
 * classified project files and the three warning categories of a check.
 */
module Models {

  datatype Option<+T> = None | Some(value: T)

  /** Hard failures, each naming the stage or the offending value. */
  datatype Failure =
    | ProjectFilesFailed
    | ComponentNotInMap(componentID: string)
    | FileCheckFailed(filePath: string, cause: Failure)
    | ImportCheckFailed(importName: string, cause: Failure)
    | InvalidVendorGlob(glob: Glob, ref: Reference)
    | CheckerFailed(index: nat, cause: Failure)
    | ResolvePathFailed(absPath: string)
    | ExcludeAssembleFailed(relativePath: string, cause: Failure)
    | FocusNotDefined(focus: string)
    | ProjectInfoFailed
    | SpecAssembleFailed
    | CheckDepsFailed(cause: Failure)

  datatype Result<+T> = Ok(value: T) | Err(error: Failure)

  /** A position in the architecture document or in a source file. */
  datatype Reference = Reference(valid: bool, file: string, line: int, column: int)

  /** The reference of values that do not come from any document. */
  const EmptyReference := Reference(false, "", 0, 0)

  /** A value paired with the place it was declared. */
  datatype Referable<+T> = Referable(value: T, ref: Reference)

  /** Pairs every value with the same reference. */
  function Wrap<T>(ref: Reference, values: seq<T>): (r: seq<Referable<T>>)
    ensures |r| == |values|
    ensures forall i :: 0 <= i < |r| ==> r[i] == Referable(values[i], ref)
  {
    seq(|values|, i requires 0 <= i < |values| => Referable(values[i], ref))
  }

  /** The message of a notice; the texts built by helpers outside the core are abstract. */
  datatype NoticeError =
    | UnknownComponent(name: string)
    | UnknownVendor(name: string)
    | DuplicatedVendor(vendor: string, component: string)
    | OtherNotice(text: string)

  datatype Notice = Notice(notice: NoticeError, ref: Reference)

  /** The three addressings of one filesystem location. */
  datatype ResolvedPath = ResolvedPath(importPath: string, localPath: string, absPath: string)

  /** A vendor import-path pattern; matching is external. */
  datatype Glob = Glob(pattern: string)

  /** A compiled exclusion regular expression, kept as its source text. */
  datatype Regexp = Regexp(pattern: string)

  datatype SpecialFlags = SpecialFlags(allowAllProjectDeps: Referable<bool>, allowAllVendorDeps: Referable<bool>)

  datatype Component = Component(
    name: Referable<string>,
    mayDependOn: seq<Referable<string>>,
    allowedProjectImports: seq<Referable<ResolvedPath>>,
    allowedVendorGlobs: seq<Referable<Glob>>,
    canUse: seq<Referable<string>>,
    specialFlags: SpecialFlags)

  /** The value a Go map lookup yields for a missing component name. */
  const ZeroComponent := Component(
    Referable("", EmptyReference), [], [], [], [],
    SpecialFlags(Referable(false, EmptyReference), Referable(false, EmptyReference)))

  datatype Allow = Allow(depOnAnyVendor: Referable<bool>, deepScan: Referable<bool>)

  datatype Integrity = Integrity(documentNotices: seq<Notice>)

  /** The resolved architecture specification. */
  datatype Spec = Spec(
    moduleName: Referable<string>,
    rootDirectory: Referable<string>,
    workingDirectory: Referable<string>,
    components: seq<Component>,
    exclude: seq<Referable<ResolvedPath>>,
    excludeFilesMatcher: seq<Referable<Regexp>>,
    allow: Allow,
    integrity: Integrity)

  /** The zero value of a specification, before anything is assembled into it. */
  const ZeroSpec := Spec(
    Referable("", EmptyReference), Referable("", EmptyReference), Referable("", EmptyReference),
    [], [], [],
    Allow(Referable(false, EmptyReference), Referable(false, EmptyReference)),
    Integrity([]))

  /** A `*arch.Spec`: the specification that the assembler steps update in place. */
  class SpecRef {
    var spec: Spec

    constructor (initial: Spec)
      ensures spec == initial
    {
      spec := initial;
    }
  }

  datatype ImportType = StdLib | Vendor | Project

  datatype ResolvedImport = ResolvedImport(name: string, importType: ImportType, reference: Reference)

  datatype ProjectFile = ProjectFile(path: string, imports: seq<ResolvedImport>)

  /** A project file and the component whose directories claim it, if any. */
  datatype FileHold = FileHold(file: ProjectFile, componentID: Option<string>)

  datatype DependencyWarning = DependencyWarning(
    reference: Reference,
    componentName: string,
    fileRelativePath: string,
    fileAbsolutePath: string,
    resolvedImportName: string)

  datatype MatchWarning = MatchWarning(reference: Reference, fileRelativePath: string, fileAbsolutePath: string)

  /** A deep-scan finding; only its location is part of this model. */
  datatype DeepscanWarning = DeepscanWarning(reference: Reference)

  datatype CheckResult = CheckResult(
    dependencyWarnings: seq<DependencyWarning>,
    matchWarnings: seq<MatchWarning>,
    deepscanWarnings: seq<DeepscanWarning>)
  {
    /** True when any of the three categories holds a warning. */
    predicate HasNotices() {
      |dependencyWarnings| > 0 || |matchWarnings| > 0 || |deepscanWarnings| > 0
    }

    /** Category-wise concatenation of two results. */
    function Append(other: CheckResult): CheckResult {
      CheckResult(dependencyWarnings + other.dependencyWarnings,
                  matchWarnings + other.matchWarnings,
                  deepscanWarnings + other.deepscanWarnings)
    }

    function Total(): nat {
      |dependencyWarnings| + |matchWarnings| + |deepscanWarnings|
    }
  }

  const EmptyResult := CheckResult([], [], [])

  /** A vendor declaration of the document: its import-path globs. */
  datatype DocVendor = DocVendor(importPaths: seq<Glob>)

  /** A dependency rule of the document: the vendor names it may use. */
  datatype DocDependencyRule = DocDependencyRule(canUse: seq<Referable<string>>)

  /** The decoded architecture document, as the assembler and validators see it. */
  datatype Document = Document(
    workingDirectory: Referable<string>,
    excludedDirectories: seq<Referable<string>>,
    excludedFilesRegExp: seq<Referable<string>>,
    vendors: map<string, Referable<DocVendor>>,
    commonVendors: seq<Referable<string>>,
    commonComponents: seq<Referable<string>>,
    dependencies: map<string, Referable<DocDependencyRule>>)
}
