/**
 * Expansion of a glob relative to the project root into resolved paths: the
 * filesystem expansion (`Resolve`) and `filepath.Clean` are external and
 * given as functions; the model is the string post-processing around them.
 */
module AssemblerResolver {
  import opened Models
  import Strings

  /** The resolver's fields; `resolve` yields None where the Go call fails. */
  datatype Resolver = Resolver(
    resolve: string -> Option<seq<string>>,
    rootDirectory: string,
    moduleName: string)

  /** The absolute glob handed to `Resolve`. */
  function AbsGlob(r: Resolver, localGlobPath: string): string
  {
    r.rootDirectory + "/" + localGlobPath
  }

  /** The project-relative form of a resolved absolute path: root prefix and trailing slashes dropped. */
  function LocalPathOf(r: Resolver, absResolvedPath: string): string
  {
    Strings.TrimRightSlash(Strings.TrimPrefix(absResolvedPath, r.rootDirectory + "/"))
  }

  /** The three addressings the resolver gives one resolved path. */
  function ResolvedPathOf(r: Resolver, clean: string -> string, absResolvedPath: string): ResolvedPath
  {
    var localPath := LocalPathOf(r, absResolvedPath);
    ResolvedPath(
      Strings.TrimRightSlash(r.moduleName + "/" + localPath),
      Strings.TrimRightSlash(localPath),
      clean(Strings.TrimRightSlash(absResolvedPath)))
  }

  /** The outcome `resolveLocalGlobPath` specifies: one resolved path per expanded path, or the failure. */
  function ResolvedGlob(r: Resolver, clean: string -> string, localGlobPath: string): Result<seq<ResolvedPath>>
  {
    var absPath := AbsGlob(r, localGlobPath);
    match r.resolve(absPath)
    case None => Err(ResolvePathFailed(absPath))
    case Some(paths) =>
      Ok(seq(|paths|, i requires 0 <= i < |paths| => ResolvedPathOf(r, clean, paths[i])))
  }

  method ResolveLocalGlobPath(r: Resolver, clean: string -> string, localGlobPath: string)
    returns (res: Result<seq<ResolvedPath>>)
    ensures res == ResolvedGlob(r, clean, localGlobPath)
  {
    var list: seq<ResolvedPath> := [];

    var absPath := r.rootDirectory + "/" + localGlobPath;
    var resolved := r.resolve(absPath);
    if resolved.None? {
      return Err(ResolvePathFailed(absPath));
    }

    var paths := resolved.value;
    var i := 0;
    while i < |paths|
      invariant 0 <= i <= |paths|
      invariant |list| == i
      invariant forall k :: 0 <= k < i ==> list[k] == ResolvedPathOf(r, clean, paths[k])
    {
      var absResolvedPath := paths[i];
      var localPath := Strings.TrimPrefix(absResolvedPath, r.rootDirectory + "/");
      localPath := Strings.TrimRightSlash(localPath);
      var importPath := r.moduleName + "/" + localPath;

      list := list + [ResolvedPath(
        Strings.TrimRightSlash(importPath),
        Strings.TrimRightSlash(localPath),
        clean(Strings.TrimRightSlash(absResolvedPath)))];
      i := i + 1;
    }

    assert list == ResolvedGlob(r, clean, localGlobPath).value;
    return Ok(list);
  }

  /**
   * The resolver fails exactly when the expansion of root + "/" + glob fails,
   * naming that absolute glob; otherwise it gives one entry per expanded path,
   * in order, and none when nothing matched.
   */
  lemma ResolvedGlobOutcome(r: Resolver, clean: string -> string, localGlobPath: string)
    ensures ResolvedGlob(r, clean, localGlobPath).Err?
      <==> r.resolve(r.rootDirectory + "/" + localGlobPath).None?
    ensures ResolvedGlob(r, clean, localGlobPath).Err? ==>
      ResolvedGlob(r, clean, localGlobPath).error == ResolvePathFailed(r.rootDirectory + "/" + localGlobPath)
    ensures r.resolve(r.rootDirectory + "/" + localGlobPath) == Some([]) ==>
      ResolvedGlob(r, clean, localGlobPath) == Ok([])
    ensures r.resolve(r.rootDirectory + "/" + localGlobPath).Some? ==>
      |ResolvedGlob(r, clean, localGlobPath).value| == |r.resolve(r.rootDirectory + "/" + localGlobPath).value|
  {
    var res := ResolvedGlob(r, clean, localGlobPath);
    if res.Ok? && |res.value| == 0 {
      assert res.value == [];
    }
  }

  /**
   * The local path has no trailing slash, and under the root it is exactly
   * what follows root + "/" in the expanded path, up to trailing slashes.
   */
  lemma {:induction false} LocalPathShape(r: Resolver, absResolvedPath: string)
    ensures var local := LocalPathOf(r, absResolvedPath);
      && (local == [] || local[|local| - 1] != '/')
      && (Strings.HasPrefix(absResolvedPath, r.rootDirectory + "/") ==>
            exists slashes :: absResolvedPath == r.rootDirectory + "/" + local + slashes
                              && forall c :: c in slashes ==> c == '/')
  {
    var prefix := r.rootDirectory + "/";
    var rest := Strings.TrimPrefix(absResolvedPath, prefix);
    var local := LocalPathOf(r, absResolvedPath);
    if Strings.HasPrefix(absResolvedPath, prefix) {
      var slashes := rest[|local|..];
      assert rest == local + slashes;
      assert absResolvedPath == prefix + local + slashes;
    }
  }

  /**
   * Each resolved path: the import path is the module name, a slash and the
   * local path (just the module name, trailing slashes dropped, for the root
   * itself); neither path ends in a slash; and the import path, with
   * module + "/" trimmed, gives back the local path.
   */
  lemma {:induction false} ResolvedPathShape(r: Resolver, clean: string -> string, absResolvedPath: string)
    ensures var rp := ResolvedPathOf(r, clean, absResolvedPath);
      var local := LocalPathOf(r, absResolvedPath);
      && rp.localPath == local
      && (local != [] ==> rp.importPath == r.moduleName + "/" + local)
      && (local != [] ==> Strings.TrimPrefix(rp.importPath, r.moduleName + "/") == rp.localPath)
      && (local == [] ==> rp.importPath == Strings.TrimRightSlash(r.moduleName))
      && (rp.importPath == [] || rp.importPath[|rp.importPath| - 1] != '/')
      && (rp.localPath == [] || rp.localPath[|rp.localPath| - 1] != '/')
      && rp.absPath == clean(Strings.TrimRightSlash(absResolvedPath))
  {
    var local := LocalPathOf(r, absResolvedPath);
    Strings.TrimRightSlashIdempotent(Strings.TrimPrefix(absResolvedPath, r.rootDirectory + "/"));
    var joined := r.moduleName + "/" + local;
    if local != [] {
      assert joined[|joined| - 1] == local[|local| - 1];
      Strings.TrimRightSlashNoSlash(joined);
      assert Strings.HasPrefix(joined, r.moduleName + "/") by {
        assert joined[..|r.moduleName + "/"|] == r.moduleName + "/";
      }
    } else {
      assert joined == r.moduleName + "/";
      assert Strings.TrimRightSlash(joined) == Strings.TrimRightSlash(r.moduleName);
    }
  }
}
