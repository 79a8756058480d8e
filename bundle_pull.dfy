/** The lock rewrite that `Bundle.Pull` performs after extracting a bundle (package `bundle`,
    file bundle.go): every image of the bundle's ImagesLock is pointed at its copy in the
    bundle's own repository, but only when all of those copies exist. */
module BundlePull {
  import opened Failures
  import opened Texts
  import opened Names
  import opened Registries
  import opened LockConfig

  /** `ImageWithRepository`: the digest part of `img` (the text after its only '@') moved into
      repository `repo`. */
  function ImageWithRepository(img: string, repo: string): (r: Result<string>)
    ensures r.Ok? <==> Count(img, '@') == 1
    ensures r.Err? ==> r.error == Msg("Parsing image URL: " + img)
    ensures r.Ok? ==> r.value == repo + "@" + Split(img, '@')[1]
  {
    var parts := Split(img, '@');
    if |parts| != 2 then Err(Msg("Parsing image URL: " + img))
    else Ok(repo + "@" + parts[1])
  }

  /** The digest part survives the move: moving `repo@digest` into `repo2` gives
      `repo2@digest`. */
  lemma {:induction false} MovedDigestKept(repo: string, digest: string, repo2: string)
    requires '@' !in repo && '@' !in digest
    ensures ImageWithRepository(repo + "@" + digest, repo2) == Ok(repo2 + "@" + digest)
  {
    SplitAroundSeparator(repo, digest, '@');
    assert repo + "@" + digest == repo + ['@'] + digest;
  }

  /** Moving twice into the same repository is moving once. */
  lemma {:induction false} ImageWithRepositoryIdempotent(img: string, repo: string)
    requires '@' !in repo
    requires ImageWithRepository(img, repo).Ok?
    ensures ImageWithRepository(ImageWithRepository(img, repo).value, repo) == ImageWithRepository(img, repo)
  {
    SplitTwo(img, '@');
    MovedDigestKept(repo, Split(img, '@')[1], repo);
  }

  /** The error `checkImagesExist` reports when no candidate exists: it carries the error of
      the last lookup, which is nil (printed as such) for an empty list. */
  function NoneExistError(last: Option<Error>): Error {
    match last
    case None => Msg("Checking image existance: %!s(<nil>)")
    case Some(e) => Wrapped("Checking image existance: ", e)
  }

  /** A candidate that parses and exists. */
  predicate Present(url: string, reg: Registry) {
    IsDigestForm(url) && Exists(reg, url)
  }

  /** A candidate that parses but does not exist. */
  predicate Missing(url: string, reg: Registry) {
    IsDigestForm(url) && !Exists(reg, url)
  }

  /** What `checkImagesExist(urls)` answers, `last` being the error of the lookup before
      `urls`. */
  function FirstExisting(urls: seq<string>, reg: Registry, last: Option<Error>): (r: Result<string>)
    ensures r.Ok? ==> exists i | 0 <= i < |urls| ::
                        && r.value == urls[i] && Present(urls[i], reg)
                        && forall j | 0 <= j < i :: Missing(urls[j], reg)
  {
    if urls == [] then Err(NoneExistError(last))
    else if !IsDigestForm(urls[0]) then Err(ParseError(urls[0]))
    else if Exists(reg, urls[0]) then Ok(urls[0])
    else
      var r := FirstExisting(urls[1..], reg, Some(FetchError(urls[0])));
      assert forall i | 1 <= i < |urls| :: urls[i] == urls[1..][i - 1];
      r
  }

  /** When no candidate exists, the error carries the failed lookup of the last one. */
  lemma {:induction false} NoneExists(urls: seq<string>, reg: Registry, last: Option<Error>)
    requires forall j | 0 <= j < |urls| :: Missing(urls[j], reg)
    ensures FirstExisting(urls, reg, last) ==
              Err(NoneExistError(if urls == [] then last else Some(FetchError(urls[|urls| - 1]))))
  {
    if urls != [] {
      NoneExists(urls[1..], reg, Some(FetchError(urls[0])));
    }
  }

  /** An unparsable candidate met before any existing one aborts the search. */
  lemma {:induction false} FirstUnparsableAborts(urls: seq<string>, reg: Registry, last: Option<Error>, k: nat)
    requires k < |urls| && !IsDigestForm(urls[k])
    requires forall j | 0 <= j < k :: Missing(urls[j], reg)
    ensures FirstExisting(urls, reg, last) == Err(ParseError(urls[k]))
  {
    if k > 0 {
      FirstUnparsableAborts(urls[1..], reg, Some(FetchError(urls[0])), k - 1);
    }
  }

  /** A candidate that parses and exists, with only missing candidates before it, is the one
      found. */
  lemma {:induction false} FirstPresentFound(urls: seq<string>, reg: Registry, last: Option<Error>, k: nat)
    requires k < |urls| && Present(urls[k], reg)
    requires forall j | 0 <= j < k :: Missing(urls[j], reg)
    ensures FirstExisting(urls, reg, last) == Ok(urls[k])
  {
    if k > 0 {
      FirstPresentFound(urls[1..], reg, Some(FetchError(urls[0])), k - 1);
    }
  }

  /** `checkImagesExist`: the first candidate, in list order, that exists. */
  method CheckImagesExist(urls: seq<string>, reg: Registry) returns (found: string, err: Option<Error>)
    ensures err.None? <==> FirstExisting(urls, reg, None).Ok?
    ensures err.None? ==> found == FirstExisting(urls, reg, None).value
    ensures err.Some? ==> found == "" && err.value == FirstExisting(urls, reg, None).error
  {
    var last: Option<Error> := None;
    var i := 0;
    while i < |urls|
      invariant 0 <= i <= |urls|
      invariant FirstExisting(urls[i..], reg, last) == FirstExisting(urls, reg, None)
    {
      assert urls[i..][1..] == urls[i + 1..];
      if !IsDigestForm(urls[i]) {
        return "", Some(ParseError(urls[i]));
      }
      if Exists(reg, urls[i]) {
        return urls[i], None;
      }
      last := Some(FetchError(urls[i]));
      i := i + 1;
    }
    return "", Some(NoneExistError(last));
  }

  /** Whether `img` already names its own bundle-repository copy. */
  predicate InRepo(img: string, repo: string) {
    ImageWithRepository(img, repo) == Ok(img)
  }

  /** How many of `images` already live in `repo`. */
  function CountInRepo(images: seq<ImageRef>, repo: string): (n: nat)
    ensures n <= |images|
    ensures n == |images| <==> forall i | 0 <= i < |images| :: InRepo(images[i].image, repo)
  {
    if images == [] then 0
    else
      var last := images[|images| - 1];
      var n := CountInRepo(images[..|images| - 1], repo);
      assert forall i | 0 <= i < |images| - 1 :: images[..|images| - 1][i] == images[i];
      n + (if InRepo(last.image, repo) then 1 else 0)
  }

  /** One more image: the count for `images[..i + 1]` from that for `images[..i]`. */
  lemma CountInRepoStep(images: seq<ImageRef>, i: nat, repo: string)
    requires i < |images|
    ensures CountInRepo(images[..i + 1], repo) ==
              CountInRepo(images[..i], repo) + (if InRepo(images[i].image, repo) then 1 else 0)
  {
    assert images[..i + 1][..i] == images[..i];
  }

  /** One image of `rewriteImagesLock`'s loop: an error, `None` when the image is found first
      at its original location, or the image moved to `repo` when that copy is found first. */
  function Locate(img: ImageRef, repo: string, reg: Registry): Result<Option<ImageRef>> {
    match ImageWithRepository(img.image, repo)
    case Err(e) => Err(e)
    case Ok(candidate) =>
      match FirstExisting([candidate, img.image], reg, None)
      case Err(e) => Err(e)
      case Ok(found) =>
        if found != candidate then Ok(None) else Ok(Some(ImageRef(found, img.annotations)))
  }

  /** The body of `rewriteImagesLock`'s loop, up to counting the images already in place. */
  method LocateImage(imgRef: ImageRef, bundleRepo: string, reg: Registry) returns (r: Result<Option<ImageRef>>)
    ensures r == Locate(imgRef, bundleRepo, reg)
  {
    var imageInBundleRepo := ImageWithRepository(imgRef.image, bundleRepo);
    if imageInBundleRepo.Err? {
      return Err(imageInBundleRepo.error);
    }
    var foundImg, err := CheckImagesExist([imageInBundleRepo.value, imgRef.image], reg);
    if err.Some? {
      return Err(err.value);
    }
    if foundImg != imageInBundleRepo.value {
      return Ok(None);
    }
    return Ok(Some(ImageRef(foundImg, imgRef.annotations)));
  }

  /** The images of the lock pointed at their bundle-repository copies, in order:
      `Ok(Some(refs))` when every copy is found first, `Ok(None)` when some image is found only
      at its original location (the lock is then left alone), and the first error otherwise. */
  function Relocated(images: seq<ImageRef>, repo: string, reg: Registry): Result<Option<seq<ImageRef>>> {
    if images == [] then Ok(Some([]))
    else
      match Relocated(images[..|images| - 1], repo, reg)
      case Err(e) => Err(e)
      case Ok(None) => Ok(None)
      case Ok(Some(refs)) =>
        match Locate(images[|images| - 1], repo, reg)
        case Err(e) => Err(e)
        case Ok(None) => Ok(None)
        case Ok(Some(moved)) => Ok(Some(refs + [moved]))
  }

  /** The image `img` moved to `repo` is `moved`, and that copy is the one found first. */
  predicate MovedAndFound(img: ImageRef, repo: string, reg: Registry, moved: ImageRef) {
    && ImageWithRepository(img.image, repo).Ok?
    && moved == ImageRef(ImageWithRepository(img.image, repo).value, img.annotations)
    && Exists(reg, moved.image)
  }

  /** The image `img` is found first at its original location, not at its copy in `repo`. */
  predicate FoundOutside(img: ImageRef, repo: string, reg: Registry) {
    && ImageWithRepository(img.image, repo).Ok?
    && FirstExisting([ImageWithRepository(img.image, repo).value, img.image], reg, None).Ok?
    && FirstExisting([ImageWithRepository(img.image, repo).value, img.image], reg, None).value
       != ImageWithRepository(img.image, repo).value
  }

  /** The bundle-repository copy of `img` can be named and exists. */
  predicate CopyExists(img: ImageRef, repo: string, reg: Registry) {
    ImageWithRepository(img.image, repo).Ok? && Present(ImageWithRepository(img.image, repo).value, reg)
  }

  /** A rewritten list replaces every image, in order and with its annotations, by its
      bundle-repository copy, which exists. */
  lemma {:induction false} RelocatedAllMoved(images: seq<ImageRef>, repo: string, reg: Registry)
    ensures Relocated(images, repo, reg).Ok? && Relocated(images, repo, reg).value.Some? ==>
              && |Relocated(images, repo, reg).value.value| == |images|
              && forall i | 0 <= i < |images| :: MovedAndFound(images[i], repo, reg, Relocated(images, repo, reg).value.value[i])
  {
    if images != [] && Relocated(images, repo, reg).Ok? && Relocated(images, repo, reg).value.Some? {
      var init := images[..|images| - 1];
      var img := images[|images| - 1];
      RelocatedAllMoved(init, repo, reg);
      assert forall i | 0 <= i < |images| - 1 :: init[i] == images[i];
      var candidate := ImageWithRepository(img.image, repo).value;
      var found := FirstExisting([candidate, img.image], reg, None).value;
      assert found == candidate;
      var i :| 0 <= i < 2 && found == [candidate, img.image][i] && Present([candidate, img.image][i], reg);
    }
  }

  /** A list left alone has an image whose original location is found before its copy. */
  lemma {:induction false} RelocatedStopsOutside(images: seq<ImageRef>, repo: string, reg: Registry)
    ensures Relocated(images, repo, reg) == Ok(None) ==>
              exists i | 0 <= i < |images| :: FoundOutside(images[i], repo, reg)
  {
    if images != [] && Relocated(images, repo, reg) == Ok(None) {
      var init := images[..|images| - 1];
      RelocatedStopsOutside(init, repo, reg);
      if Relocated(init, repo, reg) == Ok(None) {
        var i :| 0 <= i < |init| && FoundOutside(init[i], repo, reg);
        assert init[i] == images[i];
      } else {
        assert FoundOutside(images[|images| - 1], repo, reg);
      }
    }
  }

  /** A rewritten list replaces every image, in order and with its annotations, by its
      bundle-repository copy, which exists; a list left alone has an image found outside. */
  lemma RelocatedMeaning(images: seq<ImageRef>, repo: string, reg: Registry)
    ensures Relocated(images, repo, reg).Ok? && Relocated(images, repo, reg).value.Some? ==>
              && |Relocated(images, repo, reg).value.value| == |images|
              && forall i | 0 <= i < |images| :: MovedAndFound(images[i], repo, reg, Relocated(images, repo, reg).value.value[i])
    ensures Relocated(images, repo, reg) == Ok(None) ==>
              exists i | 0 <= i < |images| :: FoundOutside(images[i], repo, reg)
  {
    RelocatedAllMoved(images, repo, reg);
    RelocatedStopsOutside(images, repo, reg);
  }

  /** When every image's bundle-repository copy exists, the whole list is relocated. */
  lemma {:induction false} AllCopiesRelocated(images: seq<ImageRef>, repo: string, reg: Registry)
    requires forall i | 0 <= i < |images| :: CopyExists(images[i], repo, reg)
    ensures Relocated(images, repo, reg).Ok? && Relocated(images, repo, reg).value.Some?
  {
    if images != [] {
      var init := images[..|images| - 1];
      var img := images[|images| - 1];
      assert forall i | 0 <= i < |init| :: init[i] == images[i];
      AllCopiesRelocated(init, repo, reg);
      var candidate := ImageWithRepository(img.image, repo).value;
      FirstPresentFound([candidate, img.image], reg, None, 0);
    }
  }

  /** One more image: the outcome for `images[..i + 1]` from that for `images[..i]`. */
  lemma RelocatedStep(images: seq<ImageRef>, i: nat, repo: string, reg: Registry, refs: seq<ImageRef>)
    requires i < |images| && Relocated(images[..i], repo, reg) == Ok(Some(refs))
    ensures Locate(images[i], repo, reg).Err? ==> Relocated(images[..i + 1], repo, reg) == Err(Locate(images[i], repo, reg).error)
    ensures Locate(images[i], repo, reg) == Ok(None) ==> Relocated(images[..i + 1], repo, reg) == Ok(None)
    ensures Locate(images[i], repo, reg).Ok? && Locate(images[i], repo, reg).value.Some? ==>
              Relocated(images[..i + 1], repo, reg) == Ok(Some(refs + [Locate(images[i], repo, reg).value.value]))
  {
    assert images[..i + 1][..i] == images[..i];
  }

  /** Once a prefix of the images fails or is found outside the bundle repository, the later
      images are never looked at. */
  lemma {:induction false} RelocatedStopsEarly(images: seq<ImageRef>, k: nat, repo: string, reg: Registry)
    requires k <= |images|
    requires Relocated(images[..k], repo, reg).Err? || Relocated(images[..k], repo, reg) == Ok(None)
    ensures Relocated(images, repo, reg) == Relocated(images[..k], repo, reg)
  {
    if k < |images| {
      assert images[..|images| - 1][..k] == images[..k];
      RelocatedStopsEarly(images[..|images| - 1], k, repo, reg);
    } else {
      assert images[..k] == images;
    }
  }

  /** What `rewriteImagesLock` ends with. */
  datatype Outcome =
    | Failed(error: Error)
    | Unchanged                  // no write
    | Rewritten(lock: ImagesLock)  // the lock written back

  /** The outcome of `rewriteImagesLock` for the lock as read from the bundle directory. */
  function Rewrite(read: Result<ImagesLock>, repo: string, reg: Registry): Outcome {
    match read
    case Err(e) => Failed(e)
    case Ok(lock) =>
      match Relocated(lock.images, repo, reg)
      case Err(e) => Failed(e)
      case Ok(None) => Unchanged
      case Ok(Some(refs)) =>
        if CountInRepo(lock.images, repo) == |lock.images| then Unchanged
        else Rewritten(lock.(images := refs))
  }

  /** A read error is passed on. A lock is written back only when some image is not yet in the
      bundle repository, and then every image, in order and with its annotations, is its
      existing bundle-repository copy; nothing else in the lock changes. */
  lemma RewriteMeaning(read: Result<ImagesLock>, repo: string, reg: Registry)
    ensures read.Err? ==> Rewrite(read, repo, reg) == Failed(read.error)
    ensures Rewrite(read, repo, reg).Rewritten? ==>
              var lock := Rewrite(read, repo, reg).lock;
              && read.Ok? && lock.version == read.value.version
              && |lock.images| == |read.value.images|
              && (forall i | 0 <= i < |lock.images| :: MovedAndFound(read.value.images[i], repo, reg, lock.images[i]))
              && (exists i | 0 <= i < |read.value.images| :: !InRepo(read.value.images[i].image, repo))
    ensures read.Ok? && (forall i | 0 <= i < |read.value.images| :: InRepo(read.value.images[i].image, repo)) ==>
              !Rewrite(read, repo, reg).Rewritten?
  {
    if read.Ok? {
      RelocatedMeaning(read.value.images, repo, reg);
    }
  }

  /** The lock is written back whenever every image's bundle-repository copy exists and some
      image is not already in the bundle repository. */
  lemma CopiesPresentRewritten(read: Result<ImagesLock>, repo: string, reg: Registry)
    requires read.Ok? && forall i | 0 <= i < |read.value.images| :: CopyExists(read.value.images[i], repo, reg)
    requires exists i | 0 <= i < |read.value.images| :: !InRepo(read.value.images[i].image, repo)
    ensures Rewrite(read, repo, reg).Rewritten?
  {
    AllCopiesRelocated(read.value.images, repo, reg);
  }

  /** `rewriteImagesLock`, from the decoded lock file on. `bundleRepo` is the repository of
      the pulled reference; writing the file back is not part of the model. */
  method RewriteImagesLock(read: Result<ImagesLock>, bundleRepo: string, reg: Registry) returns (r: Outcome)
    ensures r == Rewrite(read, bundleRepo, reg)
  {
    if read.Err? {
      return Failed(read.error);
    }
    var lockFile := read.value;
    var numAlreadyInBundleRepo := 0;
    var imageRefs: seq<ImageRef> := [];
    var i := 0;
    while i < |lockFile.images|
      invariant 0 <= i <= |lockFile.images|
      invariant Relocated(lockFile.images[..i], bundleRepo, reg) == Ok(Some(imageRefs))
      invariant numAlreadyInBundleRepo == CountInRepo(lockFile.images[..i], bundleRepo)
    {
      var imgRef := lockFile.images[i];
      var located := LocateImage(imgRef, bundleRepo, reg);
      RelocatedStep(lockFile.images, i, bundleRepo, reg, imageRefs);
      CountInRepoStep(lockFile.images, i, bundleRepo);
      if located.Err? {
        RelocatedStopsEarly(lockFile.images, i + 1, bundleRepo, reg);
        return Failed(located.error);
      }
      if InRepo(imgRef.image, bundleRepo) {
        numAlreadyInBundleRepo := numAlreadyInBundleRepo + 1;
      }
      if located.value.None? {
        RelocatedStopsEarly(lockFile.images, i + 1, bundleRepo, reg);
        return Unchanged;
      }
      imageRefs := imageRefs + [located.value.value];
      i := i + 1;
    }
    assert lockFile.images[..i] == lockFile.images;
    if numAlreadyInBundleRepo == |lockFile.images| {
      return Unchanged;
    }
    return Rewritten(lockFile.(images := imageRefs));
  }

  /** A lock whose images are all already `bundleRepo@digest` references to existing images is
      never written back. */
  lemma {:induction false} AlreadyRelocatedNotWritten(lock: ImagesLock, repo: string, reg: Registry)
    requires '@' !in repo
    requires forall i | 0 <= i < |lock.images| ::
               exists d | '@' !in d :: lock.images[i].image == repo + "@" + d
    ensures Rewrite(Ok(lock), repo, reg) == Unchanged || Rewrite(Ok(lock), repo, reg).Failed?
  {
    forall i | 0 <= i < |lock.images|
      ensures InRepo(lock.images[i].image, repo)
    {
      var d :| '@' !in d && lock.images[i].image == repo + "@" + d;
      MovedDigestKept(repo, d, repo);
    }
  }
}
