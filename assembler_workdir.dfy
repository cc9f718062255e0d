/** The working-directory step of spec assembly. */
module AssemblerWorkdir {
  import opened Models

  /** The specification with the document's working directory, value and reference. */
  function WithWorkdir(spec: Spec, doc: Document): (r: Spec)
    ensures r.workingDirectory == doc.workingDirectory
    ensures r.moduleName == spec.moduleName && r.rootDirectory == spec.rootDirectory
    ensures r.components == spec.components && r.exclude == spec.exclude
    ensures r.excludeFilesMatcher == spec.excludeFilesMatcher
    ensures r.allow == spec.allow && r.integrity == spec.integrity
  {
    spec.(workingDirectory := doc.workingDirectory)
  }

  /** The step never reports an error. */
  method Assemble(spec: SpecRef, doc: Document) returns (err: Option<Failure>)
    modifies spec
    ensures err == None
    ensures spec.spec == WithWorkdir(old(spec.spec), doc)
  {
    spec.spec := spec.spec.(workingDirectory := doc.workingDirectory);
    return None;
  }

  /** Applying the step twice is applying it once. */
  lemma WithWorkdirIdempotent(spec: Spec, doc: Document)
    ensures WithWorkdir(WithWorkdir(spec, doc), doc) == WithWorkdir(spec, doc)
  {
  }
}
