/**
 * The exclude step of spec assembly: every excluded directory of the document,
 * taken relative to the working directory, is expanded by the resolver and
 * appended to the specification's exclude list with the directory entry's
 * reference. `path.Clean` is external and given as `clean`.
 */
module AssemblerExclude {
  import opened Models
  import AssemblerResolver

  datatype ExcludeOutcome = ExcludeOutcome(appended: seq<Referable<ResolvedPath>>, failure: Option<Failure>)

  /** The glob the resolver is asked to expand for one excluded directory. */
  function ExcludeGlob(clean: string -> string, workdir: string, rel: string): string
  {
    clean(workdir + "/" + rel)
  }

  /** What the step appends for `dirs`, in order, and the failure that stops it, if any. */
  function Excluded(r: AssemblerResolver.Resolver, clean: string -> string, workdir: string,
                    dirs: seq<Referable<string>>): ExcludeOutcome
  {
    if dirs == [] then ExcludeOutcome([], None)
    else
      var resolved := AssemblerResolver.ResolvedGlob(r, clean, ExcludeGlob(clean, workdir, dirs[0].value));
      if resolved.Err? then ExcludeOutcome([], Some(ExcludeAssembleFailed(dirs[0].value, resolved.error)))
      else
        var rest := Excluded(r, clean, workdir, dirs[1..]);
        ExcludeOutcome(Wrap(dirs[0].ref, resolved.value) + rest.appended, rest.failure)
  }

  method Assemble(spec: SpecRef, doc: Document, r: AssemblerResolver.Resolver, clean: string -> string)
    returns (err: Option<Failure>)
    modifies spec
    ensures var e := Excluded(r, clean, doc.workingDirectory.value, doc.excludedDirectories);
      && spec.spec == old(spec.spec).(exclude := old(spec.spec).exclude + e.appended)
      && err == e.failure
  {
    var dirs := doc.excludedDirectories;
    var workdir := doc.workingDirectory.value;
    ghost var whole := Excluded(r, clean, workdir, dirs);
    ghost var appended: seq<Referable<ResolvedPath>> := [];
    var i := 0;
    while i < |dirs|
      invariant 0 <= i <= |dirs|
      invariant spec.spec == old(spec.spec).(exclude := old(spec.spec).exclude + appended)
      invariant appended + Excluded(r, clean, workdir, dirs[i..]).appended == whole.appended
      invariant Excluded(r, clean, workdir, dirs[i..]).failure == whole.failure
    {
      var yamlRelativePath := dirs[i];
      ExcludedStep(r, clean, workdir, dirs, i);
      var tmpResolvedPath := AssemblerResolver.ResolveLocalGlobPath(r, clean, clean(workdir + "/" + yamlRelativePath.value));
      assert tmpResolvedPath == AssemblerResolver.ResolvedGlob(r, clean, ExcludeGlob(clean, workdir, dirs[i].value));
      if tmpResolvedPath.Err? {
        return Some(ExcludeAssembleFailed(yamlRelativePath.value, tmpResolvedPath.error));
      }

      var resolvedPath := Wrap(yamlRelativePath.ref, tmpResolvedPath.value);
      ghost var rest := Excluded(r, clean, workdir, dirs[i + 1..]);
      assert Excluded(r, clean, workdir, dirs[i..]) == ExcludeOutcome(resolvedPath + rest.appended, rest.failure);
      AppendAssociative(appended, resolvedPath, rest.appended);
      AppendAssociative(old(spec.spec).exclude, appended, resolvedPath);
      spec.spec := spec.spec.(exclude := spec.spec.exclude + resolvedPath);
      appended := appended + resolvedPath;
      i := i + 1;
    }
    return None;
  }

  lemma AppendAssociative<T>(a: seq<T>, b: seq<T>, c: seq<T>)
    ensures (a + b) + c == a + (b + c)
  {
  }

  /** One turn of the step's loop, as `Excluded` sees it. */
  lemma ExcludedStep(r: AssemblerResolver.Resolver, clean: string -> string, workdir: string,
                     dirs: seq<Referable<string>>, i: nat)
    requires i < |dirs|
    ensures var resolved := AssemblerResolver.ResolvedGlob(r, clean, ExcludeGlob(clean, workdir, dirs[i].value));
      var here := Excluded(r, clean, workdir, dirs[i..]);
      var rest := Excluded(r, clean, workdir, dirs[i + 1..]);
      && (resolved.Err? ==> here == ExcludeOutcome([], Some(ExcludeAssembleFailed(dirs[i].value, resolved.error))))
      && (resolved.Ok? ==> here == ExcludeOutcome(Wrap(dirs[i].ref, resolved.value) + rest.appended, rest.failure))
  {
    assert dirs[i..][0] == dirs[i] && dirs[i..][1..] == dirs[i + 1..];
  }

  /**
   * The first directory that fails to resolve ends the step with its error;
   * the entries of every directory before it stay appended.
   */
  lemma {:induction false} ExcludedStopsAtFirstFailure(r: AssemblerResolver.Resolver, clean: string -> string,
                                                       workdir: string, dirs: seq<Referable<string>>, k: nat)
    requires k < |dirs|
    requires Excluded(r, clean, workdir, dirs[..k]).failure.None?
    requires AssemblerResolver.ResolvedGlob(r, clean, ExcludeGlob(clean, workdir, dirs[k].value)).Err?
    ensures Excluded(r, clean, workdir, dirs) == ExcludeOutcome(
      Excluded(r, clean, workdir, dirs[..k]).appended,
      Some(ExcludeAssembleFailed(dirs[k].value,
        AssemblerResolver.ResolvedGlob(r, clean, ExcludeGlob(clean, workdir, dirs[k].value)).error)))
  {
    if k > 0 {
      assert dirs[..k][0] == dirs[0] && dirs[..k][1..] == dirs[1..][..k - 1];
      ExcludedStopsAtFirstFailure(r, clean, workdir, dirs[1..], k - 1);
    }
  }

  /** The step fails exactly when one of the directories fails to resolve. */
  lemma {:induction false} ExcludedFailsIffSomeFails(r: AssemblerResolver.Resolver, clean: string -> string,
                                                     workdir: string, dirs: seq<Referable<string>>)
    ensures Excluded(r, clean, workdir, dirs).failure.Some? <==>
      exists i :: 0 <= i < |dirs| && AssemblerResolver.ResolvedGlob(r, clean, ExcludeGlob(clean, workdir, dirs[i].value)).Err?
  {
    if dirs != [] {
      ExcludedFailsIffSomeFails(r, clean, workdir, dirs[1..]);
      if exists i :: 0 <= i < |dirs| && AssemblerResolver.ResolvedGlob(r, clean, ExcludeGlob(clean, workdir, dirs[i].value)).Err? {
        var i :| 0 <= i < |dirs| && AssemblerResolver.ResolvedGlob(r, clean, ExcludeGlob(clean, workdir, dirs[i].value)).Err?;
        if i > 0 {
          assert dirs[1..][i - 1] == dirs[i];
        }
      }
    }
  }

  /**
   * Every appended entry is one of the paths a directory entry expanded to,
   * and carries that directory entry's reference.
   */
  lemma {:induction false} ExcludedCarryDirectoryRefs(r: AssemblerResolver.Resolver, clean: string -> string,
                                                      workdir: string, dirs: seq<Referable<string>>,
                                                      e: Referable<ResolvedPath>)
    requires e in Excluded(r, clean, workdir, dirs).appended
    ensures exists i :: (0 <= i < |dirs| && e.ref == dirs[i].ref
      && AssemblerResolver.ResolvedGlob(r, clean, ExcludeGlob(clean, workdir, dirs[i].value)).Ok?
      && e.value in AssemblerResolver.ResolvedGlob(r, clean, ExcludeGlob(clean, workdir, dirs[i].value)).value)
  {
    var resolved := AssemblerResolver.ResolvedGlob(r, clean, ExcludeGlob(clean, workdir, dirs[0].value));
    var rest := Excluded(r, clean, workdir, dirs[1..]);
    if e in rest.appended {
      ExcludedCarryDirectoryRefs(r, clean, workdir, dirs[1..], e);
      var i :| 0 <= i < |dirs[1..]| && e.ref == dirs[1..][i].ref
        && AssemblerResolver.ResolvedGlob(r, clean, ExcludeGlob(clean, workdir, dirs[1..][i].value)).Ok?
        && e.value in AssemblerResolver.ResolvedGlob(r, clean, ExcludeGlob(clean, workdir, dirs[1..][i].value)).value;
      assert dirs[i + 1] == dirs[1..][i];
    } else {
      var j :| 0 <= j < |resolved.value| && Wrap(dirs[0].ref, resolved.value)[j] == e;
      assert e.ref == dirs[0].ref && e.value == resolved.value[j];
    }
  }
}
