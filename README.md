# go-arch-lint core, modelled in Dafny

go-arch-lint checks a Go project against an architecture document. The
document declares components (sets of packages), vendors (third-party import
globs) and which components may depend on which components and vendors.
This project models the part of the tool that turns the document into an
architecture specification and then judges the project's imports against
it:

- **Spec assembly.** The resolver expands a project-relative glob into
  resolved paths (import path, local path, absolute path). The assembler
  steps then work through a shared reference to the specification (`SpecRef` here):
  - the exclude step appends excluded directories;
  - the exclude-files step appends the compilable file regexes;
  - the working-directory step sets the working directory.
  The vendor allow-list of a component is built from the vendor table.
- **Document validation.** A battery of ten rules runs in a fixed order and
  their notices are concatenated. The common-components rule and the
  deps-vendors rule are modelled in full.
- **Import checking.**
  - The `Imports` checker walks the project files. It adds a match warning
    for each file no component claims, and a dependency warning for each
    import the owning component may not use. A stdlib import is always
    allowed. A vendor import is allowed by a flag or by a matching glob. A
    project import is allowed by a flag or by an exact import path.
  - The composite checker runs its checkers in order and stops after the
    first one that is not last and reports anything.
- **The `check` operation.** It skips the checker when the document carries
  notices. It keeps at most `maxWarnings` warnings, in the fixed category
  order dependency, match, deep-scan. It sorts the document notices by file
  and line, and it reports whether the run was successful.
- **The `graph` operation.**
  - It computes the component whitelist: all components, or those reachable
    from a focused component.
  - It emits one edge line per whitelisted dependency, plus optional vendor
    blocks.
  - It sorts the lines and joins them with tabs removed.
- **Transformers** strip the references from lists of resolved paths and
  regexes.

Each Go file becomes one Dafny module:
- Code that works step by step (loops that append, the in-place sorts, the
  `*arch.Spec` mutations, the checker's persistent accumulator) is a
  `method` or a `class`.
- Each such method is proved against a specification function.
- The promised properties are lemmas about those functions.

Calls into code outside the model are parameters. In each case the
parameter is a function:
- `Glob.Match` (`None` stands for a match error);
- `regexp.Compile` (whether a pattern compiles);
- `pathResolver.Resolve` (`None` stands for an error);
- `path.Clean` and `filepath.Clean` (one function; the two agree on `/`-separated paths);
- `assertKnownComponent` and `assertKnownVendor` (whether a name is known);
- the dependency checker's `Check`;
- the per-checker outcomes of the composite;
- the notices of the validator rules that are not modelled.

`sort.Slice` and `sort.Strings` are modelled by `Sorting.SortInPlace`, an
insertion sort on an array. It is proved to return a sorted permutation,
which is what Go promises. `SortedLinesUnique` shows that the sorted graph
code does not depend on which sort is used.

## Model

| member | source | states |
|---|---|---|
| Models.Wrap | internal/services/spec/assembler/assembler_ac_exclude.go:35 | each value is paired with the one given reference, order and length kept |
| Strings.TrimPrefix | internal/services/spec/assembler/resolver.go:39 | the prefix is removed exactly when the string starts with it; otherwise the string is unchanged |
| Strings.TrimRightSlash | internal/services/spec/assembler/resolver.go:40 | the result is a prefix of the input, does not end in '/', and only slashes were dropped |
| Strings.RemoveTabs | internal/operations/graph/operation.go:146 | the result holds no tab and exactly as many of every other character as the input; a tab-free input is returned unchanged |
| Strings.RemoveTabsConcat | internal/operations/graph/operation.go:146 | removing tabs keeps the order of the other characters: it distributes over concatenation |
| Strings.LessIrreflexive | internal/operations/check/operation.go:194 | no string is less than itself under Go's string order |
| Strings.LessAsymmetric | internal/operations/check/operation.go:194 | string order is asymmetric |
| Strings.LessTransitive | internal/operations/check/operation.go:194 | string order is transitive |
| Strings.LessTotal | internal/operations/check/operation.go:194 | two different strings are ordered one way or the other |
| Sorting.SortInPlace | internal/operations/check/operation.go:186-195 | under a strict weak order, the array ends sorted and is a permutation of its old contents |
| CheckOperation.LimitResults | internal/operations/check/operation.go:102-149 | the kept warnings are the budget-limited result (`Limited`), and the omitted count is the total minus the kept count |
| CheckOperation.LimitedKeepsMin | internal/operations/check/operation.go:102-138 | the number of kept warnings is min(maxWarnings, total), and the omitted count is whatever exceeds the budget |
| CheckOperation.LimitedIsPrefix | internal/operations/check/operation.go:111-138 | each kept category is a prefix of the input category |
| CheckOperation.LimitedCategoryPriority | internal/operations/check/operation.go:110-138 | a kept match warning implies that all dependency warnings were kept; a kept deep-scan warning implies that all dependency and match warnings were kept |
| CheckOperation.LimitedWithinBudget | internal/operations/check/operation.go:102-149 | a result within the budget is kept whole |
| CheckOperation.ResultsHasWarnings | internal/operations/check/operation.go:151-165 | true exactly when some category is non-empty |
| CheckOperation.NoticeLessStrictWeakOrder | internal/operations/check/operation.go:186-195 | ordering by file, then by line, is a strict weak order, so the sort is well defined |
| CheckOperation.AssembleNotice | internal/operations/check/operation.go:167-198 | one report entry per document notice (a permutation of them), sorted by file and then by line |
| CheckOperation.Behave | internal/operations/check/operation.go:43-100 | an assembly failure is returned unchanged; the checker runs exactly when there are no document notices, and its failure is wrapped; the report holds the module name, the document notices sorted by file then line (a permutation of them), the limited warnings and the omitted count; the run is unsuccessful exactly when warnings were kept or the document has notices |
| CheckerComposite.Check | internal/services/checker/checker_composite.go:19-36 | the result and the number of checkers run are those of the specification `Run`/`RanFrom` |
| CheckerComposite.EmptyComposite | internal/services/checker/checker_composite.go:20-35 | no checkers: an empty result, no error, nothing run |
| CheckerComposite.AllRunWhenClean | internal/services/checker/checker_composite.go:22-33 | when no non-last checker reports anything and none fails, every checker runs and the result merges all results in order |
| CheckerComposite.StopsAfterNotices | internal/services/checker/checker_composite.go:30-32 | the first non-last checker that reports anything is the last to run; the result merges exactly it and its predecessors |
| CheckerComposite.FailureHasNoPartialResult | internal/services/checker/checker_composite.go:23-26 | a failing checker ends the run with its error and no partial result, and no later checker runs |
| CheckerComposite.LastAlwaysMerged | internal/services/checker/checker_composite.go:28-30 | the last checker's result is merged whatever it holds |
| CheckerImports.ComponentsByNameKeys | internal/services/checker/checker_imports.go:65-73 | the map's keys are the declared component names, and every entry is stored under its own name |
| CheckerImports.ComponentsByNameLastWins | internal/services/checker/checker_imports.go:68-70 | a name maps to its last declaration |
| CheckerImports.AssembleComponentsMap | internal/services/checker/checker_imports.go:65-73 | builds the component map `ComponentsByName` |
| CheckerImports.MatchVendorGlobs | internal/services/checker/checker_imports.go:127-144 | allowed exactly when some glob matches before any glob errors; refused exactly when every glob cleanly fails to match; a match error aborts with the reference of the first glob, before any match, whose match errs |
| CheckerImports.CheckVendorImport | internal/services/checker/checker_imports.go:122-145 | the component's allow-all-vendors flag allows everything; otherwise the decision is the glob scan |
| CheckerImports.AllowedProjectImport | internal/services/checker/checker_imports.go:152-160 | true exactly when some allowed project import has exactly this import path |
| CheckerImports.CheckProjectImport | internal/services/checker/checker_imports.go:147-161 | allowed exactly when the allow-all-project flag is set or the name equals an allowed import path |
| CheckerImports.CheckImport | internal/services/checker/checker_imports.go:101-120 | stdlib is always allowed; a vendor import is allowed by either flag, otherwise by the glob scan; a project import never errors and follows `CheckProjectImport`; only vendor imports can fail |
| CheckerImports.FileWarningsAreDisallowedImports | internal/services/checker/checker_imports.go:75-99 | without a failure, a file yields one warning per disallowed import, in order, with that import's reference and name and the component's name |
| CheckerImports.StdLibOnlyFileIsClean | internal/services/checker/checker_imports.go:106-108 | a file with only stdlib imports yields no warning and no failure |
| CheckerImports.ScanOnlyAppends | internal/services/checker/checker_imports.go:28-62 | the accumulator only grows: earlier warnings stay as prefixes, and deep-scan warnings are untouched |
| CheckerImports.UnmatchedFilesWarnOnce | internal/services/checker/checker_imports.go:39-46 | in a run without failure, each unclaimed file adds exactly one match warning, in order, with the root prefix trimmed from its path |
| CheckerImports.UnknownComponentFails | internal/services/checker/checker_imports.go:49-59 | a file claimed by a component missing from the map makes the run fail |
| CheckerImports.NoComponentsNoDependencyWarnings | internal/services/checker/checker_imports.go:38-60 | with no claimed files, a run succeeds and adds no dependency warning |
| CheckerImports.SingleVendorGlobScenario | internal/services/checker/checker_imports.go:109-144 | with the single vendor glob "example.com/x", importing x and y yields exactly one warning, for y at y's reference |
| CheckerImports.Imports.constructor | internal/services/checker/checker_imports.go:19-26 | the accumulator starts empty |
| CheckerImports.Imports.Check | internal/services/checker/checker_imports.go:28-63 | the spec is stored; a files failure is returned with the accumulator untouched; otherwise the accumulator becomes the scan of all files from its old value (it is never cleared), and the failure or the accumulator is returned |
| CheckerImports.Imports.CheckFile | internal/services/checker/checker_imports.go:75-99 | appends the file's dependency warnings to the accumulator and returns the import failure that stopped it, if any |
| GraphOperation.IsFileShouldBeWritten | internal/operations/graph/operation.go:80-90 | false exactly when the output type is JSON or D2 export is requested |
| GraphOperation.ComponentsFlowArrow | internal/operations/graph/operation.go:152-162 | "->" exactly for Flow, "<-" exactly for DI, "--" for any other type |
| GraphOperation.PopulateGraphWhitelistAll | internal/operations/graph/operation.go:172-180 | the whitelist is exactly the set of component names |
| GraphOperation.PopulateGraphWhitelistFocused | internal/operations/graph/operation.go:182-225 | fails exactly when no component has the focus name; otherwise the whitelist holds the focus and is closed under dependencies of declared components; every name in it other than "" is reachable from the focus; an undeclared dependency puts "" in it, and "" is in it only as the focus, as a declared dependency of a whitelisted component, or because an undeclared name is whitelisted |
| GraphOperation.WalkDependencies | internal/operations/graph/operation.go:198-224 | the worklist walk terminates; its whitelist holds the focus, is closed under dependencies, and holds only names reachable from the focus, plus "" when an undeclared name is reached, and "" only as the focus, as a declared dependency, or because an undeclared name is whitelisted |
| GraphOperation.WalkStepEmptyName | internal/operations/graph/operation.go:203-222 | one expansion keeps every queued name whitelisted or the focus, and keeps "" whitelisted only for a reason |
| GraphOperation.WalkStep | internal/operations/graph/operation.go:203-222 | one expanding turn of the walk keeps its invariant: expanded names are whitelisted with their dependencies, whitelisted declared names are expanded or queued, and queued names have paths from the focus; the expanded name is in the finite universe, so the walk terminates |
| GraphOperation.WhitelistDependencies | internal/operations/graph/operation.go:214-218 | whitelists and enqueues exactly the component's dependencies, in order, and each of them is reachable |
| GraphOperation.PopulateGraphWhitelist | internal/operations/graph/operation.go:164-170 | an empty focus gives all component names; any other focus gives the focused whitelist or its error |
| GraphOperation.SortStrings | internal/operations/graph/operation.go:143 | the lines come back sorted and as a permutation |
| GraphOperation.AppendDependencyLines | internal/operations/graph/operation.go:107-113 | appends one edge line per whitelisted dependency, in declaration order (`DependencyLines`) |
| GraphOperation.AppendVendorLines | internal/operations/graph/operation.go:115-138 | appends one styled vendor block per vendor the component uses, in order |
| GraphOperation.AppendComponentLines | internal/operations/graph/operation.go:103-139 | appends exactly the component's lines: its whitelisted edges in declaration order, then its vendor blocks if asked, and nothing for a component that is not whitelisted |
| GraphOperation.CollectLines | internal/operations/graph/operation.go:100-140 | the line buffer is the components' lines in component order (`GraphLines`) |
| GraphOperation.WriteWithoutTabs | internal/operations/graph/operation.go:145-147 | the output is the lines joined in order with every tab removed |
| GraphOperation.BuildGraph | internal/operations/graph/operation.go:92-150 | fails exactly as the whitelist does; otherwise the output is the tab-free join of a sorted permutation of the line buffer |
| GraphOperation.DependencyLinesMembers | internal/operations/graph/operation.go:107-113 | an edge line is emitted exactly for a whitelisted dependency |
| GraphOperation.EdgesJoinWhitelistedComponents | internal/operations/graph/operation.go:102-113 | without vendors, a line is in the buffer exactly when it draws a declared dependency whose two ends are both whitelisted |
| GraphOperation.ComponentLinesWithVendors | internal/operations/graph/operation.go:103-139 | with vendors, a component contributes exactly its whitelisted edges and a block for each vendor it may use, and nothing when it is not whitelisted |
| GraphOperation.LinesWithVendors | internal/operations/graph/operation.go:100-140 | with vendors, a line is in the buffer exactly when it draws a declared dependency with both ends whitelisted or a vendor of a whitelisted component |
| GraphOperation.JoinedHasNoTabs | internal/operations/graph/operation.go:145-147 | the graph code holds no tab |
| GraphOperation.SortedLinesUnique | internal/operations/graph/operation.go:143-147 | any two sorted permutations of the buffer are equal, so the output does not depend on the sort |
| GraphOperation.StringLessStrictWeakOrder | internal/operations/graph/operation.go:143 | the string order is a strict weak order |
| AssemblerResolver.ResolveLocalGlobPath | internal/services/spec/assembler/resolver.go:29-51 | computes `ResolvedGlob`: the failure, or one resolved path per expanded path, in order |
| AssemblerResolver.ResolvedGlobOutcome | internal/services/spec/assembler/resolver.go:30-36 | fails exactly when expanding root + "/" + glob fails, naming that absolute glob; an empty expansion gives an empty list; otherwise one entry per path |
| AssemblerResolver.LocalPathShape | internal/services/spec/assembler/resolver.go:39-40 | the local path has no trailing slash; under the root it is what follows root + "/", up to trailing slashes |
| AssemblerResolver.ResolvedPathShape | internal/services/spec/assembler/resolver.go:39-46 | the import path is module + "/" + local path (the module alone for the root); trimming module + "/" gives the local path back; no path ends in a slash; the absolute path is the cleaned, slash-trimmed input |
| AllowedVendorImports.Assemble | internal/services/spec/assembler/allowed_vendor_imports.go:21-45 | never fails; the globs of the given names followed by the common vendors, in order |
| AllowedVendorImports.VendorGlobsConcat | internal/services/spec/assembler/allowed_vendor_imports.go:28-41 | the globs of a concatenation of names are the concatenated globs, so repeats are not deduplicated |
| AllowedVendorImports.VendorGlobsLength | internal/services/spec/assembler/allowed_vendor_imports.go:33-42 | the length is the sum of the import-path counts of the known names |
| AllowedVendorImports.VendorGlobsMembers | internal/services/spec/assembler/allowed_vendor_imports.go:33-42 | an entry is exactly an import path of a known vendor among the names, carrying that vendor's reference; unknown names contribute nothing |
| AssemblerExclude.Assemble | internal/services/spec/assembler/assembler_ac_exclude.go:23-40 | only `exclude` changes; it gains the resolved paths of the directories in order, up to the first failure, which is returned |
| AssemblerExclude.ExcludedStopsAtFirstFailure | internal/services/spec/assembler/assembler_ac_exclude.go:31-36 | the first directory that fails ends the step with its error, and the entries of earlier directories stay appended |
| AssemblerExclude.ExcludedFailsIffSomeFails | internal/services/spec/assembler/assembler_ac_exclude.go:24-33 | the step fails exactly when some directory's cleaned workdir-relative glob fails to resolve |
| AssemblerExclude.ExcludedCarryDirectoryRefs | internal/services/spec/assembler/assembler_ac_exclude.go:35 | every appended entry is one of the paths some directory entry resolved to, and carries that entry's reference |
| AssemblerExcludeFileMatcher.Assemble | internal/services/spec/assembler/assembler_ac_exclude_file_matcher.go:17-31 | never fails; only `excludeFilesMatcher` changes, gaining the matchers of the compilable patterns after the old ones |
| AssemblerExcludeFileMatcher.CompiledMatchersCount | internal/services/spec/assembler/assembler_ac_exclude_file_matcher.go:18-28 | one matcher per compilable pattern |
| AssemblerExcludeFileMatcher.CompiledMatchersMembers | internal/services/spec/assembler/assembler_ac_exclude_file_matcher.go:19-27 | a matcher is present exactly for a compilable pattern, with that pattern's text and reference |
| AssemblerExcludeFileMatcher.CompiledMatchersConcat | internal/services/spec/assembler/assembler_ac_exclude_file_matcher.go:18-28 | matchers keep document order |
| AssemblerWorkdir.WithWorkdir | internal/services/spec/assembler/assembler_ac_workdir.go:15-19 | the working directory becomes the document's, value and reference, and every other field is unchanged |
| AssemblerWorkdir.Assemble | internal/services/spec/assembler/assembler_ac_workdir.go:15-19 | never fails; the spec becomes `WithWorkdir` of the old one |
| AssemblerWorkdir.WithWorkdirIdempotent | internal/services/spec/assembler/assembler_ac_workdir.go:16 | applying the step twice is applying it once |
| SpecValidator.RunRule | internal/services/spec/validator/validator.go:24-35 | each rule of the battery produces its own notices |
| SpecValidator.Validate | internal/services/spec/validator/validator.go:20-42 | all ten rules run in the listed order; the output is the concatenation of their notices, with deps-vendors reporting its rules in some visit order |
| SpecValidator.ConcatCount | internal/services/spec/validator/validator.go:37-41 | the notice count is the sum of the per-rule counts |
| SpecValidator.ConcatEmptyIffAllEmpty | internal/services/spec/validator/validator.go:21-41 | the output is empty exactly when every rule's output is empty |
| SpecValidator.EachRuleInPlace | internal/services/spec/validator/validator.go:37-39 | no short-circuit: every rule's notices appear whole and in place |
| SpecValidator.ConcatPrefix | internal/services/spec/validator/validator.go:37-39 | the notices of the first rules are a prefix of all notices |
| ValidatorCommonComponents.Validate | internal/services/spec/validator/validator_common_components.go:20-33 | the notices are `UnknownComponentNotices` of the common components |
| ValidatorCommonComponents.OneNoticePerUnknownName | internal/services/spec/validator/validator_common_components.go:23-30 | exactly one notice per unknown name |
| ValidatorCommonComponents.NoticesAreUnknownNames | internal/services/spec/validator/validator_common_components.go:23-29 | a notice exists exactly for an unknown name, at that name's reference; known names yield none |
| ValidatorCommonComponents.NoticesFollowNameOrder | internal/services/spec/validator/validator_common_components.go:23 | notices follow the order of the names |
| ValidatorDepsVendors.ValidateRule | internal/services/spec/validator/validator_deps_vendors.go:26-44 | one rule's notices with a fresh set of seen names: `RuleNotices` |
| ValidatorDepsVendors.Validate | internal/services/spec/validator/validator_deps_vendors.go:22-48 | visits every rule exactly once, in some order, and concatenates the rules' notices in that order; as a set, the notices are exactly those of the rules, whatever the order |
| ValidatorDepsVendors.AllNoticesMembers | internal/services/spec/validator/validator_deps_vendors.go:25-45 | a notice of the visit is exactly a notice of one of the visited rules |
| ValidatorDepsVendors.DuplicateNoticeIffRepeat | internal/services/spec/validator/validator_deps_vendors.go:26-34 | a duplicate notice exists exactly for an occurrence that repeats an earlier one, at its reference, so never for a first occurrence |
| ValidatorDepsVendors.DuplicateNoticeOnlyForRepeat | internal/services/spec/validator/validator_deps_vendors.go:26-34 | a duplicate notice points at an occurrence that repeats an earlier name of the same list |
| ValidatorDepsVendors.RepeatHasDuplicateNotice | internal/services/spec/validator/validator_deps_vendors.go:28-43 | every repeating occurrence gets a duplicate notice naming the vendor and the rule, at its reference |
| ValidatorDepsVendors.UnknownNoticeIffUnknownOccurrence | internal/services/spec/validator/validator_deps_vendors.go:36-41 | every occurrence of an unknown vendor, repeats included, has an unknown-vendor notice at its reference, and only those do |
| ValidatorDepsVendors.RuleNoticeCount | internal/services/spec/validator/validator_deps_vendors.go:28-44 | per rule, the count is the repeat occurrences plus the unknown occurrences |
| ValidatorDepsVendors.DuplicatesArePerRule | internal/services/spec/validator/validator_deps_vendors.go:25-26 | a duplicate notice naming a rule comes from a repeat within that rule's own list |
| ValidatorDepsVendors.RuleNoticesNameTheirRule | internal/services/spec/validator/validator_deps_vendors.go:31-39 | every notice of a rule is a duplicate notice naming that rule or an unknown-vendor notice |
| Transformer.RefPathToList | internal/services/project/resolver/transformer.go:10-18 | the result is `Values` of the list: the same length, and element i is the value of entry i (`ValuesElementwise`) |
| Transformer.RefRegExpToList | internal/services/project/resolver/transformer.go:20-28 | the result is `Values` of the list, as for exclude paths |
| Transformer.ValuesOfWrap | internal/services/project/resolver/transformer.go:13-15 | stripping references undoes wrapping with one reference |
| Transformer.ValuesConcat | internal/services/project/resolver/transformer.go:13-15 | stripping keeps order: it commutes with concatenation |
| Transformer.ValuesElementwise | internal/services/project/resolver/transformer.go:10-18 | the stripped list has the input's length and its values |

## Left out

- D2 compilation, SVG rendering, `filepath.Abs` and file writing in the graph operation (internal/operations/graph/operation.go:54-69, 227-253) are a foreign library and I/O. The graph operation's `Behave` is therefore not modelled; `BuildGraph` is its core.
- Project-file scanning (`ProjectFiles`, walking the tree, parsing Go sources) is I/O. The scanned files with their components are an input of `Imports.Check`.
- Imports.Check: it returns the accumulator in scan order. The Go code returns `assembleSortedResults()`, and results.go is not part of this model, so the sorting it does (by file path, then line) is not modelled here.
- Imports.Check: the warnings accumulate across calls, because the Go code never clears them. With an empty component table the intended result is empty, but the Go code still emits a match warning for every file no component claims. The model follows the code (`NoComponentsNoDependencyWarnings`).
- `Glob.Match`, `regexp.Compile`, `pathResolver.Resolve`, `path.Clean` and `filepath.Clean` are external library calls, modelled as function parameters. So are `assertKnownComponent`/`assertKnownVendor`, whose bodies are not part of this model.
- SpecValidator.Validate: the eight rules other than common-components and deps-vendors come from the `otherRule` parameter. validator_workdir.go checks directory existence on disk, and the other six rule files are not part of this model.
- ValidatorDepsVendors.Validate: the order in which rules are visited comes from Go map iteration, which is unspecified. The model picks any order and returns it as the ghost `order`. Properties are stated per rule and for the set of notices, not for their order.
- CheckOperation.AssembleNotice: the rendered source preview (`referenceRender.SourceCode`, `Ref.ExtendRange`) is output formatting and is not modelled. The notice text is its `NoticeError` value, not the formatted string.
- CheckOperation.Behave: project-info and spec assembly are inputs (`assembled`), and the dependency checker is a parameter. The three quality entries are copied with their constant texts.
- CheckOperation.LimitResults: the command line bounds `maxWarnings` to 1..32768 (dependency-injection wiring, not modelled). The model accepts any integer, and a budget below zero keeps nothing, as the Go loops do.
- CheckerComposite.Check: a checker's failure is identified by its index in the list, where Go formats the checker's type name.
- Error messages are `Failure` constructors carrying the values the Go messages interpolate, not formatted strings.
- GraphOperation.VendorBlock: the Go code substitutes `{{vnd}}` and `{{cmp}}` by iterating over a map. The order matters only when a name itself contains `{{vnd}}` or `{{cmp}}`. The model substitutes both names directly.
- `context.Context` cancellation is only threaded through in the Go code and is not modelled.
- The panic on an unknown import type cannot happen: the import type is a closed three-case datatype.
- Dependency-injection wiring, the CLI, `main.go` and the interface-only `types.go` files hold no logic of the core.
- Go strings are byte strings; the model uses `seq<char>`, so a byte string that is not valid UTF-8 has no counterpart. The core only looks at `/`, tabs, prefixes and order, and code-point order agrees with UTF-8 byte order (strings.dfy, `Strings.Less`).
- Deep-scan warnings are carried with their reference only. Nothing in the modelled core creates or inspects their other fields.
