/** How `imgpkg copy` works out what to copy when the source is a registry (`Copy2` in
    cmd/copy2.go): the input is a lock file, an image (-i) or a bundle (-b); the input must be
    of the kind its flag promises; the image URLs are collected in order with the bundle's own
    URL last; and when a bundle is copied, every image that also sits in the bundle's
    repository is taken from there. */
module Copy2 {
  import opened Failures
  import opened Texts
  import opened Names
  import opened Registries
  import opened LockConfig
  import ImageSet
  import opened BundlePull
  import opened BundleContents

  /** What the `lockfiles` package reads from a BundleLock: the bundle's digest reference and
      its original tag. */
  datatype LfBundleLock = LfBundleLock(digestRef: string, originalTag: string)

  /** What the `lockfiles` package reads from the file given with --lock: its kind (or why it
      could not be read), the file read as a BundleLock, and the image URLs of the file read as
      an ImagesLock. */
  datatype LfLock = LfLock(
    kind: Result<string>,
    bundleLock: Result<LfBundleLock>,
    imagesLock: Result<seq<string>>)

  /** The flags `Copy2` looks at: -i, -b and --lock. */
  datatype Copy2 = Copy2(image: string, bundle: string, lockFilePath: string)

  const ImageNotBundleError := Msg("Expected image flag when given an image reference. Please run with -i instead of -b, or use -b with a bundle reference")
  const BundleNotImageError := Msg("Expected bundle flag when copying a bundle, please use -b instead of -i")

  function UnexpectedKindError(kind: string): Error {
    Msg("Unexpected lock kind. Expected BundleLock or ImagesLock, got: " + kind)
  }

  // ---------------------------------------------------------------------------------------
  // Helpers

  /** `getTag`: the tag of a tag reference, "" for a digest reference. */
  function GetTag(parsed: Ref): (tag: string)
    ensures parsed.DigestRef? ==> tag == ""
  {
    match parsed
    case TagRef(_, t) => t
    case DigestRef(_, _) => ""
  }

  /** What `getTag` gives for the three ways of writing a reference. */
  lemma TagOfParsedReference(repo: string, tag: string, digest: string)
    requires IsBareRepository(repo) && ':' !in repo && IsTag(tag) && IsDigest(digest)
    ensures ParseReference(repo + ":" + tag).Some? && GetTag(ParseReference(repo + ":" + tag).value) == tag
    ensures ParseReference(repo).Some? && GetTag(ParseReference(repo).value) == DefaultTag
    ensures ParseReference(repo + "@" + digest).Some? && GetTag(ParseReference(repo + "@" + digest).value) == ""
  {
    ExplicitTagParses(repo, tag);
    ImplicitTagParses(repo);
    ComposeDigestRef(repo, digest);
  }

  /** `checkIfBundle`: the caller's error exactly when the artifact is not of the expected
      kind; an error from the bundle check itself is passed on. */
  function CheckIfBundle(img: Artifact, expectsBundle: bool, errMsg: Error): (r: Option<Error>)
    ensures LabelledBundle(img).Err? ==> r == Some(LabelledBundle(img).error)
    ensures LabelledBundle(img).Ok? ==> (r == Some(errMsg) <==> LabelledBundle(img).value != expectsBundle)
    ensures LabelledBundle(img).Ok? ==> (r.None? <==> LabelledBundle(img).value == expectsBundle)
  {
    match LabelledBundle(img)
    case Err(e) => Some(e)
    case Ok(isBundle) => if isBundle != expectsBundle then Some(errMsg) else None
  }

  /** `getRefAndImage`: parse, then fetch. */
  function GetRefAndImage(ref: string, reg: Registry): (r: Result<(Ref, Artifact)>)
    ensures r.Ok? <==> ParseReference(ref).Some? && Image(reg, ref).Ok?
    ensures r.Ok? ==> r.value == (ParseReference(ref).value, Image(reg, ref).value)
    ensures ParseReference(ref).None? ==> r == Err(ParseError(ref))
  {
    match ParseReference(ref)
    case None => Err(ParseError(ref))
    case Some(parsed) =>
      match Image(reg, ref)
      case Err(e) => Err(e)
      case Ok(img) => Ok((parsed, img))
  }

  /** `getRefWithDigest`: the repository of the reference pinned to the image's digest. */
  function GetRefWithDigest(parsed: Ref, img: Artifact): (r: Result<Ref>)
    ensures r.Ok? ==> r.value.DigestRef? && img.digest == Some(r.value.digest)
    ensures img.digest.Some? && IsBareRepository(parsed.repo) && IsDigest(img.digest.value) ==>
              r == Ok(DigestRef(parsed.repo, img.digest.value))
  {
    match img.digest
    case None => Err(Foreign("computing digest"))
    case Some(d) =>
      var text := parsed.repo + "@" + d;
      DigestTextParses(parsed.repo, d);
      match NewDigest(text)
      case None => Err(ParseError(text))
      case Some(ref) => Ok(ref)
  }

  // ---------------------------------------------------------------------------------------
  // collectURLs

  /** What `collectURLs` adds: every image URL in order with no tag, then the bundle, if any. */
  function CollectedURLs(images: seq<string>, bundle: Option<ImageSet.UnprocessedImageURL>): (r: seq<ImageSet.UnprocessedImageURL>)
    ensures |r| == |images| + (if bundle.Some? then 1 else 0)
    ensures forall i | 0 <= i < |images| :: r[i] == ImageSet.UnprocessedImageURL(images[i], "")
    ensures bundle.Some? ==> r[|images|] == bundle.value
  {
    var entries := seq(|images|, i requires 0 <= i < |images| => ImageSet.UnprocessedImageURL(images[i], ""));
    match bundle
    case None => entries
    case Some(b) => entries + [b]
  }

  /** `collectURLs`. */
  method CollectURLs(images: seq<string>, bundle: Option<ImageSet.UnprocessedImageURL>, unprocessed: ImageSet.UnprocessedImageURLs)
    modifies unprocessed
    ensures unprocessed.urls == old(unprocessed.urls) + CollectedURLs(images, bundle)
  {
    var i := 0;
    while i < |images|
      invariant 0 <= i <= |images|
      invariant unprocessed.urls == old(unprocessed.urls) + CollectedURLs(images[..i], None)
    {
      unprocessed.Add(ImageSet.UnprocessedImageURL(images[i], ""));
      i := i + 1;
    }
    assert images[..i] == images;
    if bundle.Some? {
      unprocessed.Add(bundle.value);
    }
  }

  // ---------------------------------------------------------------------------------------
  // checkBundleRepoForCollocatedImages

  /** One entry of the collocation check: the bundle itself is passed through; any other entry
      moves to `bundleRepo@digest`, tag kept, when that copy exists, and stays otherwise. */
  function Collocate(u: ImageSet.UnprocessedImageURL, bundleURL: string, bundleRepo: string, reg: Registry)
    : (r: Result<ImageSet.UnprocessedImageURL>)
    ensures u.url == bundleURL ==> r == Ok(u)
    ensures u.url != bundleURL && ImageWithRepository(u.url, bundleRepo).Err? ==>
              r == Err(ImageWithRepository(u.url, bundleRepo).error)
    ensures u.url != bundleURL && ImageWithRepository(u.url, bundleRepo).Ok? &&
            !IsDigestForm(ImageWithRepository(u.url, bundleRepo).value) ==>
              r == Err(ParseError(ImageWithRepository(u.url, bundleRepo).value))
    ensures r.Ok? && r.value != u ==>
              && ImageWithRepository(u.url, bundleRepo).Ok?
              && r.value == ImageSet.UnprocessedImageURL(ImageWithRepository(u.url, bundleRepo).value, u.tag)
              && Exists(reg, r.value.url)
  {
    if u.url == bundleURL then Ok(u)
    else
      match ImageWithRepository(u.url, bundleRepo)
      case Err(e) => Err(e)
      case Ok(newURL) =>
        if !IsDigestForm(newURL) then Err(ParseError(newURL))
        else if Generic(reg, newURL).Ok? then Ok(ImageSet.UnprocessedImageURL(newURL, u.tag))
        else Ok(u)
  }

  /** An image `repo@digest` is taken from the bundle repository exactly when its copy there
      exists. */
  lemma CollocationOfDigestImage(repo: string, digest: string, tag: string, bundleURL: string,
                                 bundleRepo: string, reg: Registry)
    requires '@' !in repo && IsDigest(digest) && IsBareRepository(bundleRepo)
    requires repo + "@" + digest != bundleURL
    ensures var u := ImageSet.UnprocessedImageURL(repo + "@" + digest, tag);
            var copy := ImageSet.UnprocessedImageURL(bundleRepo + "@" + digest, tag);
            Collocate(u, bundleURL, bundleRepo, reg) == Ok(if Exists(reg, copy.url) then copy else u)
  {
    DigestHasNoSeparator(digest);
    MovedDigestKept(repo, digest, bundleRepo);
    ComposeDigestRef(bundleRepo, digest);
  }

  /** An entry without exactly one '@' aborts the check. */
  lemma UnpinnedEntryAborts(u: ImageSet.UnprocessedImageURL, bundleURL: string, bundleRepo: string, reg: Registry)
    requires u.url != bundleURL && '@' !in u.url
    ensures Collocate(u, bundleURL, bundleRepo, reg) == Err(Msg("Parsing image URL: " + u.url))
  {
    CountZero(u.url, '@');
  }

  /** The collocation outcome of each entry, in order. */
  function CollocationSteps(us: seq<ImageSet.UnprocessedImageURL>, bundleURL: string, bundleRepo: string, reg: Registry)
    : seq<Result<ImageSet.UnprocessedImageURL>>
  {
    seq(|us|, i requires 0 <= i < |us| => Collocate(us[i], bundleURL, bundleRepo, reg))
  }

  /** The collocation check over all entries, stopping at the first error. */
  function CollocateAll(us: seq<ImageSet.UnprocessedImageURL>, bundleURL: string, bundleRepo: string, reg: Registry)
    : Result<seq<ImageSet.UnprocessedImageURL>>
  {
    Collect(CollocationSteps(us, bundleURL, bundleRepo, reg))
  }

  /** The check succeeds iff every entry does, and then gives each entry's outcome at its
      position; otherwise it fails with the error of the first entry that fails. */
  lemma CollocateAllMeaning(us: seq<ImageSet.UnprocessedImageURL>, bundleURL: string, bundleRepo: string, reg: Registry)
    ensures CollocateAll(us, bundleURL, bundleRepo, reg).Ok? <==>
              forall i | 0 <= i < |us| :: Collocate(us[i], bundleURL, bundleRepo, reg).Ok?
    ensures CollocateAll(us, bundleURL, bundleRepo, reg).Ok? ==>
              && |CollocateAll(us, bundleURL, bundleRepo, reg).value| == |us|
              && forall i | 0 <= i < |us| ::
                   CollocateAll(us, bundleURL, bundleRepo, reg).value[i] == Collocate(us[i], bundleURL, bundleRepo, reg).value
    ensures CollocateAll(us, bundleURL, bundleRepo, reg).Err? ==> exists i | 0 <= i < |us| ::
              && Collocate(us[i], bundleURL, bundleRepo, reg).Err?
              && CollocateAll(us, bundleURL, bundleRepo, reg).error == Collocate(us[i], bundleURL, bundleRepo, reg).error
              && forall j | 0 <= j < i :: Collocate(us[j], bundleURL, bundleRepo, reg).Ok?
  {
    var steps := CollocationSteps(us, bundleURL, bundleRepo, reg);
    CollectMeaning(steps);
    assert forall i | 0 <= i < |us| :: steps[i] == Collocate(us[i], bundleURL, bundleRepo, reg);
  }

  /** The body of the loop in `checkBundleRepoForCollocatedImages`, for one entry. */
  method CollocateOne(img: ImageSet.UnprocessedImageURL, bundleURL: string, bundleRepo: string, registry: Registry)
    returns (r: Result<ImageSet.UnprocessedImageURL>)
    ensures r == Collocate(img, bundleURL, bundleRepo, registry)
  {
    if img.url == bundleURL {
      return Ok(img);
    }
    var newURL := ImageWithRepository(img.url, bundleRepo);
    if newURL.Err? {
      return Err(newURL.error);
    }
    if !IsDigestForm(newURL.value) {
      return Err(ParseError(newURL.value));
    }
    if Generic(registry, newURL.value).Ok? {
      return Ok(ImageSet.UnprocessedImageURL(newURL.value, img.tag));
    }
    return Ok(img);
  }

  /** What `checkBundleRepoForCollocatedImages` answers. */
  function CollocatedImages(us: seq<ImageSet.UnprocessedImageURL>, bundleURL: string, reg: Registry)
    : (r: Result<seq<ImageSet.UnprocessedImageURL>>)
    ensures ParseReference(bundleURL).None? ==> r == Err(ParseError(bundleURL))
    ensures ParseReference(bundleURL).Some? ==>
              (r.Ok? <==> forall i | 0 <= i < |us| :: Collocate(us[i], bundleURL, ParseReference(bundleURL).value.repo, reg).Ok?)
    ensures r.Ok? ==> |r.value| == |us|
    ensures r.Ok? ==>
              && ParseReference(bundleURL).Some?
              && forall i | 0 <= i < |us| :: Ok(r.value[i]) == Collocate(us[i], bundleURL, ParseReference(bundleURL).value.repo, reg)
  {
    match ParseReference(bundleURL)
    case None => Err(ParseError(bundleURL))
    case Some(bundleRef) =>
      CollocateAllMeaning(us, bundleURL, bundleRef.repo, reg);
      CollocateAll(us, bundleURL, bundleRef.repo, reg)
  }

  /** `checkBundleRepoForCollocatedImages`: builds a new collection; on error none is returned. */
  method CheckBundleRepoForCollocatedImages(foundImages: ImageSet.UnprocessedImageURLs, bundleURL: string, registry: Registry)
    returns (checkedURLs: ImageSet.UnprocessedImageURLs?, err: Option<Error>)
    ensures err.None? <==> CollocatedImages(foundImages.urls, bundleURL, registry).Ok?
    ensures err.None? ==> checkedURLs != null && fresh(checkedURLs) &&
                          checkedURLs.urls == CollocatedImages(foundImages.urls, bundleURL, registry).value
    ensures err.Some? ==> checkedURLs == null &&
                          err.value == CollocatedImages(foundImages.urls, bundleURL, registry).error
  {
    var checked := new ImageSet.UnprocessedImageURLs();
    var bundleRef := ParseReference(bundleURL);
    if bundleRef.None? {
      return null, Some(ParseError(bundleURL));
    }
    var bundleRepo := bundleRef.value.repo;
    var all := foundImages.All();
    ghost var steps := CollocationSteps(all, bundleURL, bundleRepo, registry);
    var i := 0;
    while i < |all|
      invariant 0 <= i <= |all|
      invariant Collect(steps[..i]) == Ok(checked.urls)
    {
      CollectStep(steps, i, checked.urls);
      var img := CollocateOne(all[i], bundleURL, bundleRepo, registry);
      if img.Err? {
        CollectStopsEarly(steps, i + 1);
        return null, Some(img.error);
      }
      checked.Add(img.value);
      i := i + 1;
    }
    assert steps[..i] == steps;
    return checked, None;
  }

  // ---------------------------------------------------------------------------------------
  // getUnprocessedImageURLs

  /** What `getUnprocessedImageURLs` answers: the copy requests and the bundle reference ("" when
      no bundle is copied). --lock is looked at first, then -i, and otherwise -b. */
  function Unprocessed(o: Copy2, reg: Registry, lock: LfLock): (r: Result<(seq<ImageSet.UnprocessedImageURL>, string)>)
    ensures o.lockFilePath != "" && lock.kind.Ok? && lock.kind.value !in {BundleLockKind, ImagesLockKind} ==>
              r == Err(UnexpectedKindError(lock.kind.value))
    ensures r.Ok? && o.lockFilePath != "" && lock.kind == Ok(ImagesLockKind) ==>
              lock.imagesLock.Ok? && r.value == (CollectedURLs(lock.imagesLock.value, None), "")
    ensures r.Ok? && o.lockFilePath == "" && o.image != "" ==> r.value.1 == "" && |r.value.0| == 1
    ensures r.Ok? && o.lockFilePath == "" && o.image == "" ==>
              && r.value.1 == o.bundle && |r.value.0| >= 1 && ParseReference(o.bundle).Some?
              && r.value.0[|r.value.0| - 1] ==
                 ImageSet.UnprocessedImageURL(o.bundle, GetTag(ParseReference(o.bundle).value))
  {
    if o.lockFilePath != "" then
      match lock.kind
      case Err(e) => Err(e)
      case Ok(kind) =>
        if kind == BundleLockKind then
          match lock.bundleLock
          case Err(e) => Err(e)
          case Ok(bundleLock) =>
            var bundleRef := bundleLock.digestRef;
            match GetRefAndImage(bundleRef, reg)
            case Err(e) => Err(e)
            case Ok((parsedRef, img)) =>
              match CheckIfBundle(img, true, ImageNotBundleError)
              case Some(e) => Err(e)
              case None =>
                match ReferencedImages(reg, RefText(parsedRef))
                case Err(e) => Err(e)
                case Ok(images) =>
                  Ok((CollectedURLs(images, Some(ImageSet.UnprocessedImageURL(bundleRef, bundleLock.originalTag))), bundleRef))
        else if kind == ImagesLockKind then
          match lock.imagesLock
          case Err(e) => Err(e)
          case Ok(images) =>
            match BundlesIn(images, reg)
            case Err(e) => Err(Wrapped("Checking image lock for bundles: ", e))
            case Ok(bundles) =>
              if bundles != [] then Err(ContainsBundlesError(bundles))
              else Ok((CollectedURLs(images, None), ""))
        else Err(UnexpectedKindError(kind))
    else if o.image != "" then
      match GetRefAndImage(o.image, reg)
      case Err(e) => Err(e)
      case Ok((parsedRef, img)) =>
        match CheckIfBundle(img, false, BundleNotImageError)
        case Some(e) => Err(e)
        case None => Ok(([ImageSet.UnprocessedImageURL(o.image, GetTag(parsedRef))], ""))
    else
      var bundleRef := o.bundle;
      match GetRefAndImage(bundleRef, reg)
      case Err(e) => Err(e)
      case Ok((parsedRef, img)) =>
        var bundleTag := GetTag(parsedRef);
        match GetRefWithDigest(parsedRef, img)
        case Err(e) => Err(e)
        case Ok(refWithDigest) =>
          match CheckIfBundle(img, true, ImageNotBundleError)
          case Some(e) => Err(e)
          case None =>
            match ReferencedImages(reg, RefText(refWithDigest))
            case Err(e) => Err(e)
            case Ok(images) =>
              Ok((CollectedURLs(images, Some(ImageSet.UnprocessedImageURL(bundleRef, bundleTag))), bundleRef))
  }

  /** `getUnprocessedImageURLs`. */
  method GetUnprocessedImageURLs(o: Copy2, reg: Registry, lock: LfLock)
    returns (unprocessed: ImageSet.UnprocessedImageURLs?, bundleRef: string, err: Option<Error>)
    ensures err.None? <==> Unprocessed(o, reg, lock).Ok?
    ensures err.None? ==> unprocessed != null && fresh(unprocessed) &&
                          (unprocessed.urls, bundleRef) == Unprocessed(o, reg, lock).value
    ensures err.Some? ==> unprocessed == null && bundleRef == "" && err.value == Unprocessed(o, reg, lock).error
  {
    var unprocessedImageURLs := new ImageSet.UnprocessedImageURLs();
    bundleRef := "";
    if o.lockFilePath != "" {
      if lock.kind.Err? {
        return null, "", Some(lock.kind.error);
      }
      var kind := lock.kind.value;
      if kind == BundleLockKind {
        if lock.bundleLock.Err? {
          return null, "", Some(lock.bundleLock.error);
        }
        bundleRef := lock.bundleLock.value.digestRef;
        var refAndImage := GetRefAndImage(bundleRef, reg);
        if refAndImage.Err? {
          return null, "", Some(refAndImage.error);
        }
        var (parsedRef, img) := refAndImage.value;
        var bundleErr := CheckIfBundle(img, true, ImageNotBundleError);
        if bundleErr.Some? {
          return null, "", bundleErr;
        }
        var images := ReferencedImages(reg, RefText(parsedRef));
        if images.Err? {
          return null, "", Some(images.error);
        }
        var bundle := ImageSet.UnprocessedImageURL(bundleRef, lock.bundleLock.value.originalTag);
        CollectURLs(images.value, Some(bundle), unprocessedImageURLs);
        assert unprocessedImageURLs.urls == [] + CollectedURLs(images.value, Some(bundle)) == CollectedURLs(images.value, Some(bundle));
        assert unprocessedImageURLs.urls == Unprocessed(o, reg, lock).value.0;
      } else if kind == ImagesLockKind {
        if lock.imagesLock.Err? {
          return null, "", Some(lock.imagesLock.error);
        }
        var bundles := BundlesIn(lock.imagesLock.value, reg);
        if bundles.Err? {
          return null, "", Some(Wrapped("Checking image lock for bundles: ", bundles.error));
        }
        if |bundles.value| != 0 {
          return null, "", Some(ContainsBundlesError(bundles.value));
        }
        CollectURLs(lock.imagesLock.value, None, unprocessedImageURLs);
        assert unprocessedImageURLs.urls == [] + CollectedURLs(lock.imagesLock.value, None) == CollectedURLs(lock.imagesLock.value, None);
        assert unprocessedImageURLs.urls == Unprocessed(o, reg, lock).value.0;
      } else {
        return null, "", Some(UnexpectedKindError(kind));
      }
    } else if o.image != "" {
      var refAndImage := GetRefAndImage(o.image, reg);
      if refAndImage.Err? {
        return null, "", Some(refAndImage.error);
      }
      var (parsedRef, img) := refAndImage.value;
      var bundleErr := CheckIfBundle(img, false, BundleNotImageError);
      if bundleErr.Some? {
        return null, "", bundleErr;
      }
      var imageTag := GetTag(parsedRef);
      unprocessedImageURLs.Add(ImageSet.UnprocessedImageURL(o.image, imageTag));
      assert unprocessedImageURLs.urls == Unprocessed(o, reg, lock).value.0;
    } else {
      bundleRef := o.bundle;
      var refAndImage := GetRefAndImage(bundleRef, reg);
      if refAndImage.Err? {
        return null, "", Some(refAndImage.error);
      }
      var (parsedRef, img) := refAndImage.value;
      var bundleTag := GetTag(parsedRef);
      var refWithDigest := GetRefWithDigest(parsedRef, img);
      if refWithDigest.Err? {
        return null, "", Some(refWithDigest.error);
      }
      var bundleErr := CheckIfBundle(img, true, ImageNotBundleError);
      if bundleErr.Some? {
        return null, "", bundleErr;
      }
      var images := ReferencedImages(reg, RefText(refWithDigest.value));
      if images.Err? {
        return null, "", Some(images.error);
      }
      var bundle := ImageSet.UnprocessedImageURL(bundleRef, bundleTag);
      CollectURLs(images.value, Some(bundle), unprocessedImageURLs);
      assert unprocessedImageURLs.urls == [] + CollectedURLs(images.value, Some(bundle)) == CollectedURLs(images.value, Some(bundle));
      assert unprocessedImageURLs.urls == Unprocessed(o, reg, lock).value.0;
    }
    return unprocessedImageURLs, bundleRef, None;
  }

  // ---------------------------------------------------------------------------------------
  // Foo

  /** What `Foo` answers: the copy requests, moved into the bundle repository where possible
      when a bundle is copied, and the bundle URL. */
  function Resolved(o: Copy2, reg: Registry, lock: LfLock): (r: Result<(seq<ImageSet.UnprocessedImageURL>, string)>)
    ensures r.Ok? ==> Unprocessed(o, reg, lock).Ok? && r.value.1 == Unprocessed(o, reg, lock).value.1
    ensures r.Ok? ==> |r.value.0| == |Unprocessed(o, reg, lock).value.0|
    ensures Unprocessed(o, reg, lock).Ok? && Unprocessed(o, reg, lock).value.1 == "" ==>
              r == Unprocessed(o, reg, lock)
    ensures Unprocessed(o, reg, lock).Ok? && Unprocessed(o, reg, lock).value.1 != "" &&
            ParseReference(Unprocessed(o, reg, lock).value.1).None? ==>
              r == Err(ParseError(Unprocessed(o, reg, lock).value.1))
    ensures Unprocessed(o, reg, lock).Ok? && Unprocessed(o, reg, lock).value.1 != "" &&
            ParseReference(Unprocessed(o, reg, lock).value.1).Some? ==>
              var (urls, bundleURL) := Unprocessed(o, reg, lock).value;
              (r.Ok? <==> forall i | 0 <= i < |urls| :: Collocate(urls[i], bundleURL, ParseReference(bundleURL).value.repo, reg).Ok?)
    ensures r.Ok? && r.value.1 != "" ==>
              var (urls, bundleURL) := Unprocessed(o, reg, lock).value;
              && ParseReference(bundleURL).Some?
              && forall i | 0 <= i < |urls| :: Ok(r.value.0[i]) == Collocate(urls[i], bundleURL, ParseReference(bundleURL).value.repo, reg)
  {
    match Unprocessed(o, reg, lock)
    case Err(e) => Err(e)
    case Ok((urls, bundleURL)) =>
      if bundleURL == "" then Ok((urls, bundleURL))
      else
        match CollocatedImages(urls, bundleURL, reg)
        case Err(e) => Err(e)
        case Ok(checked) => Ok((checked, bundleURL))
  }

  /** `Foo`. */
  method Foo(o: Copy2, registry: Registry, lock: LfLock)
    returns (unprocessed: ImageSet.UnprocessedImageURLs?, bundleURL: string, err: Option<Error>)
    ensures err.None? <==> Resolved(o, registry, lock).Ok?
    ensures err.None? ==> unprocessed != null && (unprocessed.urls, bundleURL) == Resolved(o, registry, lock).value
    ensures err.Some? ==> unprocessed == null && bundleURL == "" && err.value == Resolved(o, registry, lock).error
  {
    var found;
    found, bundleURL, err := GetUnprocessedImageURLs(o, registry, lock);
    if err.Some? {
      return null, "", err;
    }
    unprocessed := found;
    if bundleURL != "" {
      unprocessed, err := CheckBundleRepoForCollocatedImages(found, bundleURL, registry);
      if err.Some? {
        return null, "", err;
      }
    }
  }

  // ---------------------------------------------------------------------------------------
  // Properties

  /** Copying an image (-i) involves no bundle: nothing is moved into another repository, and
      the one request is the image with its own tag. */
  lemma ImageInputIsNotCollocated(o: Copy2, reg: Registry, lock: LfLock)
    requires o.lockFilePath == "" && o.image != ""
    requires Unprocessed(o, reg, lock).Ok?
    ensures Resolved(o, reg, lock) == Unprocessed(o, reg, lock)
    ensures ParseReference(o.image).Some?
    ensures Resolved(o, reg, lock).value ==
              ([ImageSet.UnprocessedImageURL(o.image, GetTag(ParseReference(o.image).value))], "")
  {
  }

  /** Copying a bundle (-b) keeps the bundle itself as the last request, with its tag, after
      collocation. */
  lemma BundleStaysLast(o: Copy2, reg: Registry, lock: LfLock)
    requires o.lockFilePath == "" && o.image == "" && o.bundle != ""
    requires Resolved(o, reg, lock).Ok?
    ensures var (urls, bundleURL) := Resolved(o, reg, lock).value;
            && bundleURL == o.bundle && |urls| >= 1 && ParseReference(o.bundle).Some?
            && urls[|urls| - 1] == ImageSet.UnprocessedImageURL(o.bundle, GetTag(ParseReference(o.bundle).value))
  {
    var (found, bundleURL) := Unprocessed(o, reg, lock).value;
    var last := |found| - 1;
    assert found[last].url == bundleURL;
    var repo := ParseReference(bundleURL).value.repo;
    assert Collocate(found[last], bundleURL, repo, reg) == Ok(found[last]);
  }

  /** An ImagesLock that lists a bundle is refused with the error naming the bundles found;
      when the bundle check itself fails, its error is wrapped. */
  lemma ImagesLockWithBundleRefused(o: Copy2, reg: Registry, lock: LfLock, k: nat)
    requires o.lockFilePath != "" && lock.kind == Ok(ImagesLockKind) && lock.imagesLock.Ok?
    requires k < |lock.imagesLock.value| && IsBundleImage(lock.imagesLock.value[k], reg)
    ensures BundlesIn(lock.imagesLock.value, reg).Ok? ==>
              && BundlesIn(lock.imagesLock.value, reg).value != []
              && Unprocessed(o, reg, lock) == Err(ContainsBundlesError(BundlesIn(lock.imagesLock.value, reg).value))
    ensures BundlesIn(lock.imagesLock.value, reg).Err? ==>
              Unprocessed(o, reg, lock) == Err(Wrapped("Checking image lock for bundles: ", BundlesIn(lock.imagesLock.value, reg).error))
  {
    BundlesInMeaning(lock.imagesLock.value, reg);
    match BundlesIn(lock.imagesLock.value, reg)
    case Err(_) =>
    case Ok(bundles) => assert lock.imagesLock.value[k] in bundles;
  }

  /** A bundle given with -i is refused with the hint to use -b. */
  lemma WrongFlagRefused(o: Copy2, reg: Registry, lock: LfLock)
    requires o.lockFilePath == ""
    requires ParseReference(o.image).Some? && Image(reg, o.image).Ok?
    requires LabelledBundle(Image(reg, o.image).value) == Ok(true)
    requires o.image != ""
    ensures Unprocessed(o, reg, lock) == Err(BundleNotImageError)
  {
  }

  /** A plain image given with -b is refused with the hint to use -i; the digest of the image
      is taken before the check, as in the source. */
  lemma ImageGivenWithBundleFlagRefused(o: Copy2, reg: Registry, lock: LfLock)
    requires o.lockFilePath == "" && o.image == ""
    requires ParseReference(o.bundle).Some? && Image(reg, o.bundle).Ok?
    requires GetRefWithDigest(ParseReference(o.bundle).value, Image(reg, o.bundle).value).Ok?
    requires LabelledBundle(Image(reg, o.bundle).value) == Ok(false)
    ensures Unprocessed(o, reg, lock) == Err(ImageNotBundleError)
  {
  }

  /** A BundleLock whose image is not a bundle is refused with the hint to use -i. */
  lemma BundleLockOfImageRefused(o: Copy2, reg: Registry, lock: LfLock)
    requires o.lockFilePath != "" && lock.kind == Ok(BundleLockKind) && lock.bundleLock.Ok?
    requires ParseReference(lock.bundleLock.value.digestRef).Some?
    requires Image(reg, lock.bundleLock.value.digestRef).Ok?
    requires LabelledBundle(Image(reg, lock.bundleLock.value.digestRef).value) == Ok(false)
    ensures Unprocessed(o, reg, lock) == Err(ImageNotBundleError)
  {
  }

  /** Copying from a BundleLock: the lock file must be readable as a BundleLock whose image is a
      bundle; the requests are the images the bundle references, then the bundle's digest
      reference with its original tag, which is also the bundle URL returned. */
  lemma BundleLockCollected(o: Copy2, reg: Registry, lock: LfLock)
    requires o.lockFilePath != "" && lock.kind == Ok(BundleLockKind)
    requires Unprocessed(o, reg, lock).Ok?
    ensures lock.bundleLock.Ok?
    ensures var b := lock.bundleLock.value;
            && ParseReference(b.digestRef).Some? && Image(reg, b.digestRef).Ok?
            && LabelledBundle(Image(reg, b.digestRef).value) == Ok(true)
            && ReferencedImages(reg, RefText(ParseReference(b.digestRef).value)).Ok?
            && Unprocessed(o, reg, lock).value ==
                 (CollectedURLs(ReferencedImages(reg, RefText(ParseReference(b.digestRef).value)).value,
                                Some(ImageSet.UnprocessedImageURL(b.digestRef, b.originalTag))),
                  b.digestRef)
  {
  }

  /** Copying a bundle (-b): the bundle must be a bundle image with a digest; the requests are
      the images it references, looked up by its digest reference, then the bundle with its
      tag. */
  lemma BundleFlagCollected(o: Copy2, reg: Registry, lock: LfLock)
    requires o.lockFilePath == "" && o.image == ""
    requires Unprocessed(o, reg, lock).Ok?
    ensures ParseReference(o.bundle).Some? && Image(reg, o.bundle).Ok?
    ensures var parsed := ParseReference(o.bundle).value;
            var img := Image(reg, o.bundle).value;
            && LabelledBundle(img) == Ok(true)
            && GetRefWithDigest(parsed, img).Ok?
            && ReferencedImages(reg, RefText(GetRefWithDigest(parsed, img).value)).Ok?
            && Unprocessed(o, reg, lock).value ==
                 (CollectedURLs(ReferencedImages(reg, RefText(GetRefWithDigest(parsed, img).value)).value,
                                Some(ImageSet.UnprocessedImageURL(o.bundle, GetTag(parsed)))),
                  o.bundle)
  {
  }
}

