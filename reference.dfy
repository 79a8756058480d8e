/** `cmd.Reference`: a resolved reference kept as separate fields (repository, digest, tag) so
    that copies with one field replaced are cheap to make. */
module References {
  import opened Failures
  import opened Texts
  import opened Names
  import opened Registries

  /** `Reference`; `opts` stands for the name-parsing options, which the model carries along
      but does not interpret. */
  datatype Reference = Reference(
    repo: string,
    digest: string,
    tag: string,
    name: string,
    registry: Registry,
    opts: seq<string>,
    artifact: Artifact)
  {
    /** `WithRepo`: the same reference in another repository. */
    function WithRepo(newRepo: string): (r: Reference)
      ensures r.repo == newRepo
      ensures r.(repo := repo) == this
    {
      Reference(newRepo, digest, tag, name, registry, opts, artifact)
    }

    /** `WithTag`: the same reference with another tag. */
    function WithTag(newTag: string): (r: Reference)
      ensures r.tag == newTag
      ensures r.(tag := tag) == this
    {
      Reference(repo, digest, newTag, name, registry, opts, artifact)
    }

    /** `AsTag`: parses `repo:tag` as a tag reference. */
    function AsTag(): (r: Result<Ref>)
      ensures IsRepository(repo) && IsTag(tag) ==> r == Ok(TagRef(repo, tag))
      ensures IsRepository(repo) && tag == "" ==> r == Ok(TagRef(repo, DefaultTag))
      ensures r.Ok? ==> r.value.TagRef?
    {
      var text := repo + ":" + tag;
      var parsed :=
        if tag == "" then (if IsRepository(repo) then EmptyTagDefaults(repo); assert text == repo + ":"; NewTag(text) else NewTag(text))
        else if IsRepository(repo) && IsTag(tag) then ExplicitTagParses(repo, tag); NewTag(text)
        else NewTag(text);
      match parsed
      case Some(t) => Ok(t)
      case None => Err(ParseError(text))
    }

    /** `AsDigest`: parses `repo@digest` as a digest reference. */
    function AsDigest(): (r: Result<Ref>)
      ensures IsBareRepository(repo) && IsDigest(digest) ==> r == Ok(DigestRef(repo, digest))
      ensures r.Ok? ==> r.value.DigestRef? && r.value.digest == digest
    {
      var text := repo + "@" + digest;
      DigestTextParses(repo, digest);
      match NewDigest(text)
      case Some(d) => Ok(d)
      case None => Err(ParseError(text))
    }

    /** `IsBundle`: an image whose manifest annotations hold the bundle key; any other artifact
        is not a bundle; an unreadable manifest is an error. */
    function IsBundle(): (r: Result<bool>)
      ensures r == Ok(true) <==>
                artifact.kind == ImageKind && artifact.annotations.Some? &&
                BundleAnnotation in artifact.annotations.value
      ensures artifact.kind != ImageKind ==> r == Ok(false)
      ensures r.Err? <==> artifact.kind == ImageKind && artifact.annotations.None?
    {
      if artifact.kind == ImageKind then
        match artifact.annotations
        case None => Err(Wrapped("getting manifest: ", Foreign("reading manifest")))
        case Some(annotations) => Ok(BundleAnnotation in annotations)
      else Ok(false)
    }
  }

  /** The tag a reference keeps: a tag reference keeps its tag unless that is the default
      "latest" and the text never spelled it out; a digest reference keeps the tag argument. */
  function ChosenTag(ref: string, parsed: Ref, tag: string): string {
    match parsed
    case TagRef(_, t) => if t != DefaultTag || Contains(ref, DefaultTag) then t else tag
    case DigestRef(_, _) => tag
  }

  /** `NewReference(ref, tag, name, registry, opts)`. */
  function NewReference(ref: string, tag: string, name: string, registry: Registry, opts: seq<string>)
    : (r: Result<Reference>)
    ensures ParseReference(ref).None? ==> r == Err(ParseError(ref))
    ensures ParseReference(ref).Some? && ParseReference(ref).value.TagRef? && tag != "" ==>
              r == Err(Msg("cannot create reference with tag ref and tag"))
    ensures r.Ok? <==>
              && ParseReference(ref).Some?
              && !(ParseReference(ref).value.TagRef? && tag != "")
              && Image(registry, ref).Ok?
              && Image(registry, ref).value.digest.Some?
    ensures r.Ok? ==>
              && r.value.repo == ParseReference(ref).value.repo
              && r.value.tag == ChosenTag(ref, ParseReference(ref).value, tag)
              && r.value.artifact == Image(registry, ref).value
              && Some(r.value.digest) == r.value.artifact.digest
              && r.value.name == name && r.value.registry == registry && r.value.opts == opts
  {
    match ParseReference(ref)
    case None => Err(ParseError(ref))
    case Some(parsed) =>
      if parsed.TagRef? && tag != "" then Err(Msg("cannot create reference with tag ref and tag"))
      else
        match Image(registry, ref)
        case Err(e) => Err(Wrapped("getting artifact: ", e))
        case Ok(artifact) =>
          match artifact.digest
          case None => Err(Wrapped("getting digest: ", Foreign("computing digest")))
          case Some(d) => Ok(Reference(parsed.repo, d, ChosenTag(ref, parsed, tag), name, registry, opts, artifact))
  }

  /** A reference written without a tag gets no tag, although it parses with the default one. */
  lemma ImplicitTagLeftEmpty(repo: string, name: string, reg: Registry, opts: seq<string>)
    requires IsRepository(repo) && ':' !in repo && !Contains(repo, DefaultTag)
    requires Image(reg, repo).Ok? && Image(reg, repo).value.digest.Some?
    ensures NewReference(repo, "", name, reg, opts).Ok?
    ensures NewReference(repo, "", name, reg, opts).value.tag == ""
  {
    ImplicitTagParses(repo);
  }

  /** A tag written out is kept, "latest" included. */
  lemma ExplicitTagKept(repo: string, tag: string, name: string, reg: Registry, opts: seq<string>)
    requires IsRepository(repo) && IsTag(tag)
    requires Image(reg, repo + ":" + tag).Ok? && Image(reg, repo + ":" + tag).value.digest.Some?
    ensures NewReference(repo + ":" + tag, "", name, reg, opts).Ok?
    ensures NewReference(repo + ":" + tag, "", name, reg, opts).value.tag == tag
  {
    ExplicitTagParses(repo, tag);
    if tag == DefaultTag {
      ContainsSuffix(repo + ":", tag);
      assert repo + ":" + tag == (repo + ":") + tag;
    }
  }
}
