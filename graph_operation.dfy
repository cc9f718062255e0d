/**
 * The `graph` operation's decisions: which components are drawn (all of
 * them, or those reachable from a focused component over `mayDependOn`),
 * which edge lines are emitted, the arrow that joins them, and whether the
 * rendered picture is written to a file.
 */
module GraphOperation {
  import opened Models
  import Strings
  import Sorting
  import CheckerImports

  datatype GraphType = GraphFlow | GraphDI | GraphOtherType(name: string)

  datatype OutputType = OutputJSON | OutputOtherType(name: string)

  datatype CmdGraphIn = CmdGraphIn(
    outFile: string,
    outputType: OutputType,
    graphType: GraphType,
    focus: string,
    includeVendors: bool,
    exportD2: bool)

  function IsFileShouldBeWritten(opts: CmdGraphIn): (r: bool)
    ensures !r <==> opts.outputType == OutputJSON || opts.exportD2
  {
    if opts.outputType == OutputJSON then false
    else if opts.exportD2 then false
    else true
  }

  function ComponentsFlowArrow(opts: CmdGraphIn): (r: string)
    ensures r == "->" <==> opts.graphType == GraphFlow
    ensures r == "<-" <==> opts.graphType == GraphDI
    ensures r == "--" <==> !opts.graphType.GraphFlow? && !opts.graphType.GraphDI?
  {
    if opts.graphType == GraphFlow then "->"
    else if opts.graphType == GraphDI then "<-"
    else "--"
  }

  // ----- whitelists -----

  function ComponentNames(components: seq<Component>): set<string>
  {
    set c | c in components :: c.name.value
  }

  method PopulateGraphWhitelistAll(spec: Spec) returns (whiteList: set<string>)
    ensures whiteList == ComponentNames(spec.components)
  {
    whiteList := {};
    var i := 0;
    while i < |spec.components|
      invariant 0 <= i <= |spec.components|
      invariant whiteList == ComponentNames(spec.components[..i])
    {
      assert spec.components[..i + 1] == spec.components[..i] + [spec.components[i]];
      whiteList := whiteList + {spec.components[i].name.value};
      i := i + 1;
    }
    assert spec.components[..i] == spec.components;
  }

  /** A Go map lookup: the stored component, or the zero component. */
  function Lookup(cmpMap: map<string, Component>, name: string): Component
  {
    if name in cmpMap then cmpMap[name] else ZeroComponent
  }

  /** The names component `name` may depend on, as the focused walk sees them. */
  function DepsOf(cmpMap: map<string, Component>, name: string): set<string>
  {
    set d | d in Lookup(cmpMap, name).mayDependOn :: d.value
  }

  /** `path` leads from `focus` to `name`, each step along a `mayDependOn` edge. */
  ghost predicate DependencyPath(cmpMap: map<string, Component>, focus: string, path: seq<string>, name: string)
  {
    && |path| > 0
    && path[0] == focus
    && path[|path| - 1] == name
    && forall i :: 0 <= i < |path| - 1 ==> path[i + 1] in DepsOf(cmpMap, path[i])
  }

  /**
   * The focused whitelist: it holds the focus, it is closed under the
   * dependencies of its declared members, every member but "" is reachable
   * from the focus, and "" is in it whenever an undeclared name is, and only
   * for one of the reasons `EmptyNameJustified` names.
   */
  ghost predicate FocusedWhitelist(spec: Spec, focus: string, whiteList: set<string>, paths: map<string, seq<string>>)
  {
    var cmpMap := CheckerImports.ComponentsByName(spec.components);
    && focus in whiteList
    && (forall n :: n in whiteList && n != "" && n in cmpMap ==> DepsOf(cmpMap, n) <= whiteList)
    && (forall n :: n in whiteList && n != "" ==> n in paths && DependencyPath(cmpMap, focus, paths[n], n))
    && (forall n :: n in whiteList && n !in cmpMap ==> "" in whiteList)
    && EmptyNameJustified(cmpMap, focus, whiteList)
  }

  /**
   * "" is whitelisted only for a reason: it is the focus, a declared
   * dependency of a whitelisted component, or the name of the zero component
   * that an undeclared whitelisted name looks up.
   */
  ghost predicate EmptyNameJustified(cmpMap: map<string, Component>, focus: string, whiteList: set<string>)
  {
    "" in whiteList ==>
      || "" == focus
      || (exists m :: m in whiteList && m in cmpMap && "" in DepsOf(cmpMap, m))
      || (exists m :: m in whiteList && m != "" && m !in cmpMap)
  }

  /** Every queued name is the focus or already whitelisted. */
  ghost predicate QueueWhitelisted(focus: string, whiteList: set<string>, resolveList: seq<string>)
  {
    forall k :: 0 <= k < |resolveList| ==> resolveList[k] == focus || resolveList[k] in whiteList
  }

  /** Every recorded path leads from `focus` to the name it is recorded under. */
  ghost predicate ValidPaths(cmpMap: map<string, Component>, focus: string, paths: map<string, seq<string>>)
  {
    forall n :: n in paths ==> DependencyPath(cmpMap, focus, paths[n], n)
  }

  function DepValues(deps: seq<Referable<string>>): (r: seq<string>)
    ensures |r| == |deps| && forall k :: 0 <= k < |deps| ==> r[k] == deps[k].value
  {
    seq(|deps|, k requires 0 <= k < |deps| => deps[k].value)
  }

  /** A path to `name` followed by one of its dependencies is a path to that dependency. */
  lemma ExtendPath(cmpMap: map<string, Component>, focus: string, path: seq<string>, name: string, dep: string)
    requires DependencyPath(cmpMap, focus, path, name) && dep in DepsOf(cmpMap, name)
    ensures DependencyPath(cmpMap, focus, path + [dep], dep)
  {
    var p := path + [dep];
    forall i | 0 <= i < |p| - 1
      ensures p[i + 1] in DepsOf(cmpMap, p[i])
    {
      if i < |path| - 1 {
        assert p[i] == path[i] && p[i + 1] == path[i + 1];
      }
    }
  }

  /** The inner step of the focused walk: whitelist and enqueue every dependency of `name`. */
  method WhitelistDependencies(
    ghost cmpMap: map<string, Component>, ghost focus: string, ghost name: string,
    deps: seq<Referable<string>>, whiteList: set<string>, resolveList: seq<string>,
    ghost paths: map<string, seq<string>>)
    returns (whiteList': set<string>, resolveList': seq<string>, ghost paths': map<string, seq<string>>)
    requires deps == Lookup(cmpMap, name).mayDependOn
    requires name in paths && ValidPaths(cmpMap, focus, paths)
    ensures whiteList' == whiteList + DepsOf(cmpMap, name)
    ensures resolveList' == resolveList + DepValues(deps)
    ensures ValidPaths(cmpMap, focus, paths') && paths.Keys <= paths'.Keys
    ensures DepsOf(cmpMap, name) <= paths'.Keys
  {
    whiteList', resolveList', paths' := whiteList, resolveList, paths;
    var j := 0;
    while j < |deps|
      invariant 0 <= j <= |deps|
      invariant whiteList' == whiteList + set d | d in deps[..j] :: d.value
      invariant resolveList' == resolveList + DepValues(deps[..j])
      invariant ValidPaths(cmpMap, focus, paths') && paths.Keys <= paths'.Keys
      invariant name in paths' && paths'[name] == paths[name]
      invariant forall d :: d in deps[..j] ==> d.value in paths'
    {
      var dep := deps[j].value;
      assert deps[..j + 1] == deps[..j] + [deps[j]];
      if dep != name {
        assert deps[j] in deps;
        ExtendPath(cmpMap, focus, paths[name], name, dep);
        paths' := paths'[dep := paths[name] + [dep]];
      }
      whiteList' := whiteList' + {dep};
      resolveList' := resolveList' + [dep];
      j := j + 1;
    }
    assert deps[..j] == deps;
  }

  method PopulateGraphWhitelistFocused(spec: Spec, focusCmpName: string)
    returns (r: Result<set<string>>, ghost paths: map<string, seq<string>>)
    ensures r.Err? <==> forall c :: c in spec.components ==> c.name.value != focusCmpName
    ensures r.Err? ==> r.error == FocusNotDefined(focusCmpName)
    ensures r.Ok? ==> FocusedWhitelist(spec, focusCmpName, r.value, paths)
  {
    var cmpMap: map<string, Component> := map[];
    var rootExist := false;
    var i := 0;
    while i < |spec.components|
      invariant 0 <= i <= |spec.components|
      invariant cmpMap == CheckerImports.ComponentsByName(spec.components[..i])
      invariant rootExist <==> exists j :: 0 <= j < i && spec.components[j].name.value == focusCmpName
    {
      var cmp := spec.components[i];
      assert spec.components[..i + 1][..i] == spec.components[..i];
      cmpMap := cmpMap[cmp.name.value := cmp];
      if focusCmpName == cmp.name.value {
        rootExist := true;
      }
      i := i + 1;
    }
    assert spec.components[..i] == spec.components;
    paths := map[];

    if !rootExist {
      return Err(FocusNotDefined(focusCmpName)), paths;
    }

    CheckerImports.ComponentsByNameKeys(spec.components);
    var whiteList;
    whiteList, paths := WalkDependencies(cmpMap, focusCmpName);
    return Ok(whiteList), paths;
  }

  /** Every component in the map is stored under its own name. */
  ghost predicate KeyedByName(cmpMap: map<string, Component>)
  {
    forall k :: k in cmpMap ==> cmpMap[k].name.value == k
  }

  /**
   * What the focused walk keeps true between turns: the names already expanded
   * are whitelisted with all their dependencies, every whitelisted declared
   * name is expanded or still queued, and every queued or whitelisted name but
   * "" has a recorded path from the focus.
   */
  ghost predicate WalkInvariant(cmpMap: map<string, Component>, focus: string, universe: set<string>,
                                resolved: set<string>, whiteList: set<string>, resolveList: seq<string>,
                                paths: map<string, seq<string>>)
  {
    && resolved <= universe
    && resolved <= whiteList
    && (focus in resolveList || focus in resolved)
    && (forall n :: n in resolved && n != "" ==> n in cmpMap && DepsOf(cmpMap, n) <= whiteList)
    && (forall n :: n in whiteList ==> n in resolveList || n in resolved || n !in cmpMap || n == "")
    && (forall n :: n in whiteList && n !in cmpMap ==> n in resolveList || "" in whiteList)
    && ValidPaths(cmpMap, focus, paths)
    && (forall n :: n in whiteList && n != "" ==> n in paths)
    && (forall k :: 0 <= k < |resolveList| ==> resolveList[k] in paths)
  }

  /** One expanding turn of the walk keeps the invariant. */
  lemma WalkStep(cmpMap: map<string, Component>, focus: string, universe: set<string>, name: string,
                 resolved: set<string>, whiteList: set<string>, rest: seq<string>, paths: map<string, seq<string>>,
                 whiteList': set<string>, rest': seq<string>, paths': map<string, seq<string>>)
    requires KeyedByName(cmpMap) && universe == cmpMap.Keys + {""} && focus in cmpMap
    requires WalkInvariant(cmpMap, focus, universe, resolved, whiteList, [name] + rest, paths)
    requires Lookup(cmpMap, name).name.value !in resolved
    requires whiteList' == whiteList + {Lookup(cmpMap, name).name.value} + DepsOf(cmpMap, name)
    requires rest' == rest + DepValues(Lookup(cmpMap, name).mayDependOn)
    requires ValidPaths(cmpMap, focus, paths') && paths.Keys <= paths'.Keys && DepsOf(cmpMap, name) <= paths'.Keys
    ensures Lookup(cmpMap, name).name.value in universe
    ensures WalkInvariant(cmpMap, focus, universe, resolved + {Lookup(cmpMap, name).name.value}, whiteList', rest', paths')
  {
    var cmp := Lookup(cmpMap, name);
    assert name in cmpMap ==> cmp.name.value == name;
    assert name !in cmpMap ==> cmp.name.value == "";
    assert ([name] + rest)[0] == name;
    assert name in paths;
    if focus != name && focus !in resolved {
      assert focus in rest;
    }
    WalkStepQueue(cmpMap, name, resolved, whiteList, rest, whiteList', rest');
    WalkStepPaths(cmpMap, name, rest, paths, rest', paths');
  }

  /** After an expanding turn, every whitelisted name is expanded, queued, undeclared or "". */
  lemma WalkStepQueue(cmpMap: map<string, Component>, name: string,
                      resolved: set<string>, whiteList: set<string>, rest: seq<string>,
                      whiteList': set<string>, rest': seq<string>)
    requires KeyedByName(cmpMap)
    requires forall n :: n in whiteList ==> n in [name] + rest || n in resolved || n !in cmpMap || n == ""
    requires forall n :: n in whiteList && n !in cmpMap ==> n in [name] + rest || "" in whiteList
    requires whiteList' == whiteList + {Lookup(cmpMap, name).name.value} + DepsOf(cmpMap, name)
    requires rest' == rest + DepValues(Lookup(cmpMap, name).mayDependOn)
    ensures forall n :: n in whiteList' ==>
      n in rest' || n in resolved + {Lookup(cmpMap, name).name.value} || n !in cmpMap || n == ""
    ensures forall n :: n in whiteList' && n !in cmpMap ==> n in rest' || "" in whiteList'
  {
    var cmp := Lookup(cmpMap, name);
    assert name in cmpMap ==> cmp.name.value == name;
    assert name !in cmpMap ==> cmp.name.value == "";
    forall n | n in rest
      ensures n in rest'
    {
      var k :| 0 <= k < |rest| && rest[k] == n;
      assert rest'[k] == n;
    }
    forall n | n in DepsOf(cmpMap, name)
      ensures n in rest'
    {
      var d :| d in cmp.mayDependOn && d.value == n;
      var k :| 0 <= k < |cmp.mayDependOn| && cmp.mayDependOn[k] == d;
      assert rest'[|rest| + k] == n;
    }
  }

  /** After an expanding turn, queued names are still whitelisted and "" is still whitelisted only for a reason. */
  lemma WalkStepEmptyName(cmpMap: map<string, Component>, focus: string, name: string,
                          whiteList: set<string>, rest: seq<string>, whiteList': set<string>, rest': seq<string>)
    requires KeyedByName(cmpMap) && focus in cmpMap
    requires QueueWhitelisted(focus, whiteList, [name] + rest)
    requires EmptyNameJustified(cmpMap, focus, whiteList)
    requires whiteList' == whiteList + {Lookup(cmpMap, name).name.value} + DepsOf(cmpMap, name)
    requires rest' == rest + DepValues(Lookup(cmpMap, name).mayDependOn)
    ensures QueueWhitelisted(focus, whiteList', rest')
    ensures EmptyNameJustified(cmpMap, focus, whiteList')
  {
    var cmp := Lookup(cmpMap, name);
    assert ([name] + rest)[0] == name;
    forall k | 0 <= k < |rest'|
      ensures rest'[k] == focus || rest'[k] in whiteList'
    {
      if k < |rest| {
        assert rest'[k] == ([name] + rest)[k + 1];
      } else {
        assert rest'[k] == cmp.mayDependOn[k - |rest|].value;
        assert cmp.mayDependOn[k - |rest|] in cmp.mayDependOn;
      }
    }
    if "" in whiteList' && "" != focus && "" !in whiteList {
      if "" in DepsOf(cmpMap, name) {
        assert name in cmpMap && cmp.name.value == name;
        assert name in whiteList' && "" in DepsOf(cmpMap, name);
      } else {
        assert cmp.name.value == "";
        assert name != focus && name in whiteList;
        assert name != "" && name !in cmpMap;
        assert name in whiteList';
      }
    }
  }

  /** After an expanding turn, every queued name still has a recorded path. */
  lemma WalkStepPaths(cmpMap: map<string, Component>, name: string, rest: seq<string>,
                      paths: map<string, seq<string>>, rest': seq<string>, paths': map<string, seq<string>>)
    requires forall k :: 0 <= k < |[name] + rest| ==> ([name] + rest)[k] in paths
    requires rest' == rest + DepValues(Lookup(cmpMap, name).mayDependOn)
    requires paths.Keys <= paths'.Keys && DepsOf(cmpMap, name) <= paths'.Keys
    ensures forall k :: 0 <= k < |rest'| ==> rest'[k] in paths'
  {
    var deps := Lookup(cmpMap, name).mayDependOn;
    forall k | 0 <= k < |rest'|
      ensures rest'[k] in paths'
    {
      if k >= |rest| {
        assert rest'[k] == deps[k - |rest|].value;
        assert deps[k - |rest|] in deps;
      } else {
        assert rest'[k] == ([name] + rest)[k + 1];
      }
    }
  }

  /** The worklist walk of `populateGraphWhitelistFocused`, from the focused component. */
  method WalkDependencies(cmpMap: map<string, Component>, focusCmpName: string)
    returns (whiteList: set<string>, ghost paths: map<string, seq<string>>)
    requires KeyedByName(cmpMap) && focusCmpName in cmpMap
    ensures focusCmpName in whiteList
    ensures forall n :: n in whiteList && n != "" && n in cmpMap ==> DepsOf(cmpMap, n) <= whiteList
    ensures forall n :: n in whiteList && n != "" ==> n in paths && DependencyPath(cmpMap, focusCmpName, paths[n], n)
    ensures forall n :: n in whiteList && n !in cmpMap ==> "" in whiteList
    ensures EmptyNameJustified(cmpMap, focusCmpName, whiteList)
  {
    ghost var universe := cmpMap.Keys + {""};

    whiteList := {};
    var resolved: set<string> := {};
    var resolveList: seq<string> := [focusCmpName];
    paths := map[focusCmpName := [focusCmpName]];

    while |resolveList| > 0
      invariant WalkInvariant(cmpMap, focusCmpName, universe, resolved, whiteList, resolveList, paths)
      invariant QueueWhitelisted(focusCmpName, whiteList, resolveList)
      invariant EmptyNameJustified(cmpMap, focusCmpName, whiteList)
      decreases universe - resolved, |resolveList|
    {
      var name := resolveList[0];
      var cmp := Lookup(cmpMap, name);
      assert resolveList == [name] + resolveList[1..];
      ghost var before := resolveList;
      resolveList := resolveList[1..];

      if cmp.name.value in resolved {
        assert forall k :: 0 <= k < |resolveList| ==> resolveList[k] == before[k + 1];
        continue;
      }
      ghost var whiteList0, rest0, paths0 := whiteList, resolveList, paths;

      // the component itself
      whiteList := whiteList + {cmp.name.value};

      // its dependencies
      whiteList, resolveList, paths :=
        WhitelistDependencies(cmpMap, focusCmpName, name, cmp.mayDependOn, whiteList, resolveList, paths);
      WalkStep(cmpMap, focusCmpName, universe, name, resolved, whiteList0, rest0, paths0, whiteList, resolveList, paths);
      WalkStepEmptyName(cmpMap, focusCmpName, name, whiteList0, rest0, whiteList, resolveList);

      // mark as resolved
      resolved := resolved + {cmp.name.value};
    }
  }

  method PopulateGraphWhitelist(spec: Spec, opts: CmdGraphIn)
    returns (r: Result<set<string>>, ghost paths: map<string, seq<string>>)
    ensures r.Err? <==> opts.focus != "" && forall c :: c in spec.components ==> c.name.value != opts.focus
    ensures r.Err? ==> r.error == FocusNotDefined(opts.focus)
    ensures r.Ok? && opts.focus == "" ==> r.value == ComponentNames(spec.components)
    ensures r.Ok? && opts.focus != "" ==> FocusedWhitelist(spec, opts.focus, r.value, paths)
  {
    if opts.focus == "" {
      var whiteList := PopulateGraphWhitelistAll(spec);
      return Ok(whiteList), map[];
    }
    r, paths := PopulateGraphWhitelistFocused(spec, opts.focus);
  }

  // ----- graph code -----

  /** One edge of the picture. */
  function EdgeLine(from: string, flow: string, to: string): string
  {
    from + " " + flow + " " + to + "\n"
  }

  /** The styled block that draws vendor `vnd` used by component `cmp`. */
  function VendorBlock(vnd: string, cmp: string): string
  {
    "\n\t\t\t\t" + vnd + ".style.font-size: 12\n"
    + "\t\t\t\t" + vnd + ".style.stroke: \"#77AA44\"\n"
    + "\t\t\t\t" + cmp + " <- " + vnd + " {\n"
    + "\t\t\t\t  style.stroke: \"#77AA44\"\n"
    + "\t\t\t\t  source-arrowhead: {\n"
    + "\t\t\t\t    shape: diamond\n"
    + "\t\t\t\t    style.filled: false\n"
    + "\t\t\t\t  }\n"
    + "\t\t\t\t}\n"
    + "\t\t\t\t"
  }

  /** The edges from `from` to those of `deps` that are whitelisted, in declaration order. */
  function DependencyLines(from: string, flow: string, deps: seq<Referable<string>>, whiteList: set<string>): seq<string>
  {
    if deps == [] then []
    else
      var last := deps[|deps| - 1].value;
      DependencyLines(from, flow, deps[..|deps| - 1], whiteList)
      + (if last in whiteList then [EdgeLine(from, flow, last)] else [])
  }

  function VendorLines(cmp: string, vendors: seq<Referable<string>>): seq<string>
  {
    seq(|vendors|, k requires 0 <= k < |vendors| => VendorBlock(vendors[k].value, cmp))
  }

  /** What one component contributes: nothing unless it is whitelisted. */
  function ComponentLines(cmp: Component, whiteList: set<string>, flow: string, includeVendors: bool): seq<string>
  {
    if cmp.name.value !in whiteList then []
    else
      DependencyLines(cmp.name.value, flow, cmp.mayDependOn, whiteList)
      + (if includeVendors then VendorLines(cmp.name.value, cmp.canUse) else [])
  }

  /** The unsorted line buffer of the graph code. */
  function GraphLines(components: seq<Component>, whiteList: set<string>, flow: string, includeVendors: bool): seq<string>
  {
    if components == [] then []
    else
      GraphLines(components[..|components| - 1], whiteList, flow, includeVendors)
      + ComponentLines(components[|components| - 1], whiteList, flow, includeVendors)
  }

  /** The lines written one after the other with every tab removed. */
  function JoinWithoutTabs(lines: seq<string>): string
  {
    if lines == [] then ""
    else JoinWithoutTabs(lines[..|lines| - 1]) + Strings.RemoveTabs(lines[|lines| - 1])
  }

  lemma StringLessStrictWeakOrder()
    ensures Sorting.StrictWeakOrder(Strings.Less)
  {
    forall x: string, y: string | Strings.Less(x, y)
      ensures !Strings.Less(y, x)
    {
      Strings.LessAsymmetric(x, y);
    }
    forall x: string, y: string, z: string | !Strings.Less(y, x) && !Strings.Less(z, y)
      ensures !Strings.Less(z, x)
    {
      if x != y {
        Strings.LessTotal(x, y);
      }
      if y != z {
        Strings.LessTotal(y, z);
      }
      if x != y && y != z {
        Strings.LessTransitive(x, y, z);
        Strings.LessAsymmetric(x, z);
      } else if x == y {
        assert !Strings.Less(z, y);
      }
    }
  }

  /** sort.Strings: the lines in ascending byte order. */
  method SortStrings(lines: seq<string>) returns (sorted: seq<string>)
    ensures Sorting.SortedBy(sorted, Strings.Less)
    ensures multiset(sorted) == multiset(lines)
  {
    var buffer := new string[|lines|](k requires 0 <= k < |lines| => lines[k]);
    assert buffer[..] == lines;
    StringLessStrictWeakOrder();
    Sorting.SortInPlace(buffer, Strings.Less);
    sorted := buffer[..];
  }

  /** The inner loop over a component's dependencies: an edge for each whitelisted one. */
  method AppendDependencyLines(linesBuff: seq<string>, from: string, flow: string, deps: seq<Referable<string>>,
                               visible: set<string>)
    returns (out: seq<string>)
    ensures out == linesBuff + DependencyLines(from, flow, deps, visible)
  {
    out := linesBuff;
    var j := 0;
    while j < |deps|
      invariant 0 <= j <= |deps|
      invariant out == linesBuff + DependencyLines(from, flow, deps[..j], visible)
    {
      var dep := deps[j];
      assert deps[..j + 1][..j] == deps[..j];
      if dep.value in visible {
        out := out + [EdgeLine(from, flow, dep.value)];
      }
      j := j + 1;
    }
    assert deps[..j] == deps;
  }

  /** The inner loop over a component's vendors: one styled block each. */
  method AppendVendorLines(linesBuff: seq<string>, cmp: string, vendors: seq<Referable<string>>)
    returns (out: seq<string>)
    ensures out == linesBuff + VendorLines(cmp, vendors)
  {
    out := linesBuff;
    var k := 0;
    while k < |vendors|
      invariant 0 <= k <= |vendors|
      invariant out == linesBuff + VendorLines(cmp, vendors[..k])
    {
      out := out + [VendorBlock(vendors[k].value, cmp)];
      k := k + 1;
    }
    assert vendors[..k] == vendors;
  }

  /** The body of `buildGraph`'s loop over components: the lines one component adds to the buffer. */
  method AppendComponentLines(linesBuff: seq<string>, cmp: Component, visible: set<string>, flow: string,
                              includeVendors: bool)
    returns (out: seq<string>)
    ensures out == linesBuff + ComponentLines(cmp, visible, flow, includeVendors)
  {
    out := linesBuff;
    if cmp.name.value !in visible {
      return;
    }
    out := AppendDependencyLines(out, cmp.name.value, flow, cmp.mayDependOn, visible);
    if includeVendors {
      out := AppendVendorLines(out, cmp.name.value, cmp.canUse);
    }
  }

  /** `buildGraph`'s loop over components: the unsorted line buffer. */
  method CollectLines(components: seq<Component>, visible: set<string>, flow: string, includeVendors: bool)
    returns (linesBuff: seq<string>)
    ensures linesBuff == GraphLines(components, visible, flow, includeVendors)
  {
    linesBuff := [];
    var i := 0;
    while i < |components|
      invariant 0 <= i <= |components|
      invariant linesBuff == GraphLines(components[..i], visible, flow, includeVendors)
    {
      assert components[..i + 1][..i] == components[..i];
      linesBuff := AppendComponentLines(linesBuff, components[i], visible, flow, includeVendors);
      i := i + 1;
    }
    assert components[..i] == components;
  }

  /** The output loop: every line written to the buffer with its tabs removed. */
  method WriteWithoutTabs(lines: seq<string>) returns (buff: string)
    ensures buff == JoinWithoutTabs(lines)
  {
    buff := "";
    var k := 0;
    while k < |lines|
      invariant 0 <= k <= |lines|
      invariant buff == JoinWithoutTabs(lines[..k])
    {
      assert lines[..k + 1][..k] == lines[..k];
      buff := buff + Strings.RemoveTabs(lines[k]);
      k := k + 1;
    }
    assert lines[..k] == lines;
  }

  method BuildGraph(spec: Spec, opts: CmdGraphIn)
    returns (r: Result<string>, ghost whiteList: set<string>, ghost paths: map<string, seq<string>>,
             ghost sortedLines: seq<string>)
    ensures r.Err? <==> opts.focus != "" && forall c :: c in spec.components ==> c.name.value != opts.focus
    ensures r.Err? ==> r.error == FocusNotDefined(opts.focus)
    ensures r.Ok? && opts.focus == "" ==> whiteList == ComponentNames(spec.components)
    ensures r.Ok? && opts.focus != "" ==> FocusedWhitelist(spec, opts.focus, whiteList, paths)
    ensures r.Ok? ==>
      && multiset(sortedLines)
         == multiset(GraphLines(spec.components, whiteList, ComponentsFlowArrow(opts), opts.includeVendors))
      && Sorting.SortedBy(sortedLines, Strings.Less)
      && r.value == JoinWithoutTabs(sortedLines)
  {
    sortedLines := [];
    var populated;
    populated, paths := PopulateGraphWhitelist(spec, opts);
    if populated.Err? {
      whiteList := {};
      return Err(populated.error), whiteList, paths, sortedLines;
    }
    var visible := populated.value;
    whiteList := visible;

    var flow := ComponentsFlowArrow(opts);
    var linesBuff := CollectLines(spec.components, visible, flow, opts.includeVendors);

    var sorted := SortStrings(linesBuff);
    sortedLines := sorted;

    var buff := WriteWithoutTabs(sorted);
    r := Ok(buff);
  }

  // ----- properties of the graph code -----

  /** An edge line is emitted for a dependency exactly when the dependency is whitelisted. */
  lemma {:induction false} DependencyLinesMembers(from: string, flow: string, deps: seq<Referable<string>>,
                                                  whiteList: set<string>, line: string)
    ensures line in DependencyLines(from, flow, deps, whiteList) <==>
      exists j :: 0 <= j < |deps| && deps[j].value in whiteList && line == EdgeLine(from, flow, deps[j].value)
  {
    if deps != [] {
      var init := deps[..|deps| - 1];
      DependencyLinesMembers(from, flow, init, whiteList, line);
      if exists j :: 0 <= j < |deps| && deps[j].value in whiteList && line == EdgeLine(from, flow, deps[j].value) {
        var j :| 0 <= j < |deps| && deps[j].value in whiteList && line == EdgeLine(from, flow, deps[j].value);
        if j < |deps| - 1 {
          assert init[j] == deps[j];
        }
      }
      if line in DependencyLines(from, flow, init, whiteList) {
        var j :| 0 <= j < |init| && init[j].value in whiteList && line == EdgeLine(from, flow, init[j].value);
        assert deps[j] == init[j];
      }
    }
  }

  /** Dependency `j` of component `i` is declared and both its ends are whitelisted; `line` draws it. */
  ghost predicate IsEdge(components: seq<Component>, whiteList: set<string>, flow: string, i: int, j: int, line: string)
  {
    && 0 <= i < |components|
    && 0 <= j < |components[i].mayDependOn|
    && components[i].name.value in whiteList
    && components[i].mayDependOn[j].value in whiteList
    && line == EdgeLine(components[i].name.value, flow, components[i].mayDependOn[j].value)
  }

  /**
   * Without vendors, the graph code draws an edge exactly for each declared
   * dependency whose both ends are whitelisted.
   */
  lemma {:induction false} EdgesJoinWhitelistedComponents(components: seq<Component>, whiteList: set<string>,
                                                          flow: string, line: string)
    ensures line in GraphLines(components, whiteList, flow, false) <==>
      exists i, j :: IsEdge(components, whiteList, flow, i, j, line)
  {
    if components != [] {
      var init := components[..|components| - 1];
      var last := components[|components| - 1];
      EdgesJoinWhitelistedComponents(init, whiteList, flow, line);
      DependencyLinesMembers(last.name.value, flow, last.mayDependOn, whiteList, line);
      if exists i, j :: IsEdge(components, whiteList, flow, i, j, line) {
        var i, j :| IsEdge(components, whiteList, flow, i, j, line);
        if i < |components| - 1 {
          assert init[i] == components[i];
          assert IsEdge(init, whiteList, flow, i, j, line);
        }
      }
      if line in ComponentLines(last, whiteList, flow, false) {
        var j :| 0 <= j < |last.mayDependOn| && last.mayDependOn[j].value in whiteList
          && line == EdgeLine(last.name.value, flow, last.mayDependOn[j].value);
        assert IsEdge(components, whiteList, flow, |components| - 1, j, line);
      }
      if line in GraphLines(init, whiteList, flow, false) {
        var i, j :| IsEdge(init, whiteList, flow, i, j, line);
        assert components[i] == init[i];
        assert IsEdge(components, whiteList, flow, i, j, line);
      }
    }
  }

  /** Vendor `k` of component `i` is drawn: the component is whitelisted and `line` is the vendor's block. */
  ghost predicate IsVendorBlock(components: seq<Component>, whiteList: set<string>, i: int, k: int, line: string)
  {
    && 0 <= i < |components|
    && 0 <= k < |components[i].canUse|
    && components[i].name.value in whiteList
    && line == VendorBlock(components[i].canUse[k].value, components[i].name.value)
  }

  /** `line` is drawn for component `i`: one of its edges or one of its vendor blocks. */
  ghost predicate DrawnFor(components: seq<Component>, whiteList: set<string>, flow: string, i: int, line: string)
  {
    || (exists j :: IsEdge(components, whiteList, flow, i, j, line))
    || (exists k :: IsVendorBlock(components, whiteList, i, k, line))
  }

  /** What one component contributes with vendors is exactly what is drawn for it. */
  lemma ComponentLinesWithVendors(components: seq<Component>, whiteList: set<string>, flow: string,
                                  i: int, line: string)
    requires 0 <= i < |components|
    ensures line in ComponentLines(components[i], whiteList, flow, true) <==> DrawnFor(components, whiteList, flow, i, line)
  {
    var cmp := components[i];
    DependencyLinesMembers(cmp.name.value, flow, cmp.mayDependOn, whiteList, line);
    if line in ComponentLines(cmp, whiteList, flow, true) {
      if line in DependencyLines(cmp.name.value, flow, cmp.mayDependOn, whiteList) {
        var j :| 0 <= j < |cmp.mayDependOn| && cmp.mayDependOn[j].value in whiteList
          && line == EdgeLine(cmp.name.value, flow, cmp.mayDependOn[j].value);
        assert IsEdge(components, whiteList, flow, i, j, line);
      } else {
        var k :| 0 <= k < |cmp.canUse| && VendorLines(cmp.name.value, cmp.canUse)[k] == line;
        assert IsVendorBlock(components, whiteList, i, k, line);
      }
    }
    if exists k :: IsVendorBlock(components, whiteList, i, k, line) {
      var k :| IsVendorBlock(components, whiteList, i, k, line);
      assert VendorLines(cmp.name.value, cmp.canUse)[k] == line;
    }
  }

  /** Dropping the last component leaves what is drawn for the others unchanged. */
  lemma DrawnForPrefix(components: seq<Component>, whiteList: set<string>, flow: string, i: int, line: string)
    requires 0 <= i < |components| - 1
    ensures DrawnFor(components, whiteList, flow, i, line) <==>
      DrawnFor(components[..|components| - 1], whiteList, flow, i, line)
  {
    var init := components[..|components| - 1];
    assert init[i] == components[i];
    if exists j :: IsEdge(components, whiteList, flow, i, j, line) {
      var j :| IsEdge(components, whiteList, flow, i, j, line);
      assert IsEdge(init, whiteList, flow, i, j, line);
    }
    if exists j :: IsEdge(init, whiteList, flow, i, j, line) {
      var j :| IsEdge(init, whiteList, flow, i, j, line);
      assert IsEdge(components, whiteList, flow, i, j, line);
    }
    if exists k :: IsVendorBlock(components, whiteList, i, k, line) {
      var k :| IsVendorBlock(components, whiteList, i, k, line);
      assert IsVendorBlock(init, whiteList, i, k, line);
    }
    if exists k :: IsVendorBlock(init, whiteList, i, k, line) {
      var k :| IsVendorBlock(init, whiteList, i, k, line);
      assert IsVendorBlock(components, whiteList, i, k, line);
    }
  }

  /** `line` is drawn for one of the components. */
  ghost predicate DrawnForSome(components: seq<Component>, whiteList: set<string>, flow: string, line: string)
  {
    exists i :: 0 <= i < |components| && DrawnFor(components, whiteList, flow, i, line)
  }

  /** A line is drawn for some component exactly when it is drawn for one before the last or for the last. */
  lemma DrawnForSomeSnoc(components: seq<Component>, whiteList: set<string>, flow: string, line: string)
    requires components != []
    ensures DrawnForSome(components, whiteList, flow, line) <==>
      DrawnForSome(components[..|components| - 1], whiteList, flow, line)
      || DrawnFor(components, whiteList, flow, |components| - 1, line)
  {
    var n := |components| - 1;
    var init := components[..n];
    if DrawnForSome(components, whiteList, flow, line) {
      var i :| 0 <= i < |components| && DrawnFor(components, whiteList, flow, i, line);
      if i < n {
        DrawnForPrefix(components, whiteList, flow, i, line);
      }
    }
    if DrawnForSome(init, whiteList, flow, line) {
      var i :| 0 <= i < |init| && DrawnFor(init, whiteList, flow, i, line);
      DrawnForPrefix(components, whiteList, flow, i, line);
    }
  }

  /**
   * With vendors, the graph code holds exactly the edges between whitelisted
   * components and a block for every vendor a whitelisted component may use.
   */
  lemma {:induction false} LinesWithVendors(components: seq<Component>, whiteList: set<string>,
                                            flow: string, line: string)
    ensures line in GraphLines(components, whiteList, flow, true) <==> DrawnForSome(components, whiteList, flow, line)
  {
    if components != [] {
      var n := |components| - 1;
      LinesWithVendors(components[..n], whiteList, flow, line);
      ComponentLinesWithVendors(components, whiteList, flow, n, line);
      DrawnForSomeSnoc(components, whiteList, flow, line);
    }
  }

  /** The graph code never holds a tab. */
  lemma {:induction false} JoinedHasNoTabs(lines: seq<string>)
    ensures '\t' !in JoinWithoutTabs(lines)
  {
    if lines != [] {
      JoinedHasNoTabs(lines[..|lines| - 1]);
    }
  }

  /**
   * Two sorted arrangements of the same lines are the same sequence, so the
   * graph code depends only on which lines are emitted, not on their order.
   */
  lemma {:induction false} SortedLinesUnique(a: seq<string>, b: seq<string>)
    requires Sorting.SortedBy(a, Strings.Less) && Sorting.SortedBy(b, Strings.Less)
    requires multiset(a) == multiset(b)
    ensures a == b
    decreases |a|
  {
    if a == [] {
      assert |multiset(b)| == 0;
    } else {
      assert |multiset(b)| == |multiset(a)| > 0;
      assert a[0] in multiset(b);
      assert b[0] in multiset(a);
      if a[0] != b[0] {
        var j :| 0 <= j < |b| && b[j] == a[0];
        var i :| 0 <= i < |a| && a[i] == b[0];
        Strings.LessTotal(a[0], b[0]);
        assert false;
      }
      assert a == [a[0]] + a[1..];
      assert b == [b[0]] + b[1..];
      assert multiset(a) == multiset([a[0]]) + multiset(a[1..]);
      assert multiset(b) == multiset([b[0]]) + multiset(b[1..]);
      assert multiset(a[1..]) == multiset(a) - multiset([a[0]]);
      assert multiset(b[1..]) == multiset(b) - multiset([b[0]]);
      SortedLinesUnique(a[1..], b[1..]);
    }
  }
}
