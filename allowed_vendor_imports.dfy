/**
 * The vendor allow-list of a component: its own vendor names followed by the
 * document's common vendors, each looked up in the document's vendor table,
 * contributing that vendor's import-path globs with the vendor's reference.
 */
module AllowedVendorImports {
  import opened Models

  /** The globs contributed by the named vendors, in order; names missing from the table contribute nothing. */
  function VendorGlobs(vendors: map<string, Referable<DocVendor>>, names: seq<string>): seq<Referable<Glob>>
  {
    if names == [] then []
    else
      var name := names[|names| - 1];
      VendorGlobs(vendors, names[..|names| - 1])
      + (if name in vendors then Wrap(vendors[name].ref, vendors[name].value.importPaths) else [])
  }

  function CommonVendorNames(doc: Document): (r: seq<string>)
    ensures |r| == |doc.commonVendors|
    ensures forall i :: 0 <= i < |r| ==> r[i] == doc.commonVendors[i].value
  {
    seq(|doc.commonVendors|, i requires 0 <= i < |doc.commonVendors| => doc.commonVendors[i].value)
  }

  /** The allow-list always succeeds. */
  method Assemble(doc: Document, vendorNames: seq<string>) returns (r: Result<seq<Referable<Glob>>>)
    ensures r == Ok(VendorGlobs(doc.vendors, vendorNames + CommonVendorNames(doc)))
  {
    var list: seq<Referable<Glob>> := [];

    var allowedVendors: seq<string> := [];
    allowedVendors := allowedVendors + vendorNames;
    var i := 0;
    while i < |doc.commonVendors|
      invariant 0 <= i <= |doc.commonVendors|
      invariant allowedVendors == vendorNames + CommonVendorNames(doc)[..i]
    {
      allowedVendors := allowedVendors + [doc.commonVendors[i].value];
      i := i + 1;
    }
    assert CommonVendorNames(doc)[..i] == CommonVendorNames(doc);

    var n := 0;
    while n < |allowedVendors|
      invariant 0 <= n <= |allowedVendors|
      invariant list == VendorGlobs(doc.vendors, allowedVendors[..n])
    {
      var name := allowedVendors[n];
      assert allowedVendors[..n + 1][..n] == allowedVendors[..n];
      if name in doc.vendors {
        var yamlVendor := doc.vendors[name];
        ghost var before := list;
        var paths := yamlVendor.value.importPaths;
        var k := 0;
        while k < |paths|
          invariant 0 <= k <= |paths|
          invariant list == before + Wrap(yamlVendor.ref, paths[..k])
        {
          assert Wrap(yamlVendor.ref, paths[..k + 1]) == Wrap(yamlVendor.ref, paths[..k]) + [Referable(paths[k], yamlVendor.ref)];
          list := list + [Referable(paths[k], yamlVendor.ref)];
          k := k + 1;
        }
        assert paths[..k] == paths;
      }
      n := n + 1;
    }
    assert allowedVendors[..n] == allowedVendors;

    return Ok(list);
  }

  /** The allow-list of a concatenation of names is the concatenation of the allow-lists: nothing is deduplicated. */
  lemma {:induction false} VendorGlobsConcat(vendors: map<string, Referable<DocVendor>>, a: seq<string>, b: seq<string>)
    ensures VendorGlobs(vendors, a + b) == VendorGlobs(vendors, a) + VendorGlobs(vendors, b)
    decreases |b|
  {
    if b == [] {
      assert a + b == a;
    } else {
      var init := b[..|b| - 1];
      assert (a + b)[..|a + b| - 1] == a + init;
      VendorGlobsConcat(vendors, a, init);
    }
  }

  /** The number of import paths the known vendors among `names` declare, counting repeats. */
  function DeclaredPathCount(vendors: map<string, Referable<DocVendor>>, names: seq<string>): nat
  {
    if names == [] then 0
    else
      var name := names[0];
      (if name in vendors then |vendors[name].value.importPaths| else 0) + DeclaredPathCount(vendors, names[1..])
  }

  /** The allow-list has one entry per import path of every known vendor occurrence. */
  lemma {:induction false} VendorGlobsLength(vendors: map<string, Referable<DocVendor>>, names: seq<string>)
    ensures |VendorGlobs(vendors, names)| == DeclaredPathCount(vendors, names)
  {
    if names != [] {
      assert names == [names[0]] + names[1..];
      VendorGlobsConcat(vendors, [names[0]], names[1..]);
      assert [names[0]][..0] == [];
      VendorGlobsLength(vendors, names[1..]);
    }
  }

  /** `g` is one of the import paths of vendor `names[i]`, declared in the table, with its reference. */
  ghost predicate GlobOf(vendors: map<string, Referable<DocVendor>>, names: seq<string>, i: int, g: Referable<Glob>)
  {
    && 0 <= i < |names|
    && names[i] in vendors
    && g.value in vendors[names[i]].value.importPaths
    && g.ref == vendors[names[i]].ref
  }

  /**
   * An entry of the allow-list is exactly an import path of a known vendor
   * among the names, carrying that vendor declaration's reference.
   */
  lemma {:induction false} VendorGlobsMembers(vendors: map<string, Referable<DocVendor>>, names: seq<string>,
                                              g: Referable<Glob>)
    ensures g in VendorGlobs(vendors, names) <==> exists i :: GlobOf(vendors, names, i, g)
  {
    if names != [] {
      var init := names[..|names| - 1];
      var name := names[|names| - 1];
      VendorGlobsMembers(vendors, init, g);
      if exists i :: GlobOf(vendors, names, i, g) {
        var i :| GlobOf(vendors, names, i, g);
        if i < |names| - 1 {
          assert init[i] == names[i];
          assert GlobOf(vendors, init, i, g);
        } else {
          var paths := vendors[name].value.importPaths;
          var j :| 0 <= j < |paths| && paths[j] == g.value;
          assert Wrap(vendors[name].ref, paths)[j] == g;
        }
      }
      if g in VendorGlobs(vendors, init) {
        var i :| GlobOf(vendors, init, i, g);
        assert names[i] == init[i];
        assert GlobOf(vendors, names, i, g);
      }
      if name in vendors && g in Wrap(vendors[name].ref, vendors[name].value.importPaths) {
        assert GlobOf(vendors, names, |names| - 1, g);
      }
    }
  }
}
