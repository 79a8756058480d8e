/** The lock documents (package `lockconfig`): an ImagesLock pins a list of images, a BundleLock
    pins one bundle. YAML decoding and encoding are outside the model: a lock file is given as
    the outcome of reading it and of decoding it into each of the two record types. */
module LockConfig {
  import opened Failures
  import opened Texts
  import opened Names

  const ImagesLockKind := "ImagesLock"
  const ImagesLockAPIVersion := "imgpkg.carvel.dev/v1alpha1"
  const BundleLockKind := "BundleLock"
  const BundleLockAPIVersion := "imgpkg.carvel.dev/v1alpha1"

  datatype LockVersion = LockVersion(apiVersion: string, kind: string)

  datatype ImageRef = ImageRef(image: string, annotations: map<string, string>)

  datatype BundleRef = BundleRef(image: string, tag: string)

  function ApiVersionError(known: string): Error {
    Msg("Validating apiVersion: Unknown version (known: " + known + ")")
  }

  function KindError(known: string): Error {
    Msg("Validating kind: Unknown kind (known: " + known + ")")
  }

  function DigestFormError(image: string): Error {
    Msg("Expected ref to be in digest form, got '" + image + "'")
  }

  /** Position of the first image, in list order, that is not in digest form. */
  function FirstNonDigest(images: seq<ImageRef>): (r: Option<nat>)
    ensures r.Some? ==> r.value < |images| && !IsDigestForm(images[r.value].image)
    ensures r.Some? ==> forall j | 0 <= j < r.value :: IsDigestForm(images[j].image)
    ensures r.None? <==> forall j | 0 <= j < |images| :: IsDigestForm(images[j].image)
  {
    if images == [] then None
    else if !IsDigestForm(images[0].image) then Some(0)
    else
      match FirstNonDigest(images[1..])
      case None => None
      case Some(k) => assert images[1..][k] == images[k + 1]; Some(k + 1)
  }

  datatype ImagesLock = ImagesLock(version: LockVersion, images: seq<ImageRef>) {

    /** Checks the apiVersion, then the kind, then each image in order. */
    function Validate(): (r: Option<Error>)
      ensures version.apiVersion != ImagesLockAPIVersion ==> r == Some(ApiVersionError(ImagesLockAPIVersion))
      ensures version.apiVersion == ImagesLockAPIVersion && version.kind != ImagesLockKind ==>
                r == Some(KindError(ImagesLockKind))
      ensures r.None? <==>
                version == LockVersion(ImagesLockAPIVersion, ImagesLockKind) &&
                forall i | 0 <= i < |images| :: IsDigestForm(images[i].image)
      ensures version == LockVersion(ImagesLockAPIVersion, ImagesLockKind) && r.Some? ==>
                exists i | 0 <= i < |images| ::
                  && r == Some(DigestFormError(images[i].image))
                  && !IsDigestForm(images[i].image)
                  && forall j | 0 <= j < i :: IsDigestForm(images[j].image)
    {
      if version.apiVersion != ImagesLockAPIVersion then Some(ApiVersionError(ImagesLockAPIVersion))
      else if version.kind != ImagesLockKind then Some(KindError(ImagesLockKind))
      else
        match FirstNonDigest(images)
        case Some(i) => Some(DigestFormError(images[i].image))
        case None => None
    }
  }

  datatype BundleLock = BundleLock(version: LockVersion, bundle: BundleRef) {

    /** Checks the apiVersion, then the kind, then the bundle image; the tag is never checked. */
    function Validate(): (r: Option<Error>)
      ensures version.apiVersion != BundleLockAPIVersion ==> r == Some(ApiVersionError(BundleLockAPIVersion))
      ensures version.apiVersion == BundleLockAPIVersion && version.kind != BundleLockKind ==>
                r == Some(KindError(BundleLockKind))
      ensures version == LockVersion(BundleLockAPIVersion, BundleLockKind) && !IsDigestForm(bundle.image) ==>
                r == Some(DigestFormError(bundle.image))
      ensures r.None? <==>
                version == LockVersion(BundleLockAPIVersion, BundleLockKind) && IsDigestForm(bundle.image)
    {
      if version.apiVersion != BundleLockAPIVersion then Some(ApiVersionError(BundleLockAPIVersion))
      else if version.kind != BundleLockKind then Some(KindError(BundleLockKind))
      else if !IsDigestForm(bundle.image) then Some(DigestFormError(bundle.image))
      else None
    }
  }

  /** What reading a lock file gives: whether it could be read, and what decoding its YAML into
      each of the two lock records gives. */
  datatype LockFile = LockFile(
    readError: Option<Error>,
    asBundleLock: Result<BundleLock>,
    asImagesLock: Result<ImagesLock>)

  /** `NewImagesLockFromBytes`: decode, then validate. */
  function NewImagesLockFromBytes(decoded: Result<ImagesLock>): (r: Result<ImagesLock>)
    ensures r.Ok? <==> decoded.Ok? && decoded.value.Validate().None?
    ensures r.Ok? ==> r == decoded
    ensures decoded.Err? ==> r == Err(Wrapped("Unmarshaling images lock: ", decoded.error))
    ensures decoded.Ok? && decoded.value.Validate().Some? ==>
              r == Err(Wrapped("Validating images lock: ", decoded.value.Validate().value))
  {
    match decoded
    case Err(e) => Err(Wrapped("Unmarshaling images lock: ", e))
    case Ok(lock) =>
      match lock.Validate()
      case Some(e) => Err(Wrapped("Validating images lock: ", e))
      case None => Ok(lock)
  }

  /** `NewBundleLockFromBytes`: decode, then validate. */
  function NewBundleLockFromBytes(decoded: Result<BundleLock>): (r: Result<BundleLock>)
    ensures r.Ok? <==> decoded.Ok? && decoded.value.Validate().None?
    ensures r.Ok? ==> r == decoded
    ensures decoded.Err? ==> r == Err(Wrapped("Unmarshaling bundle lock: ", decoded.error))
    ensures decoded.Ok? && decoded.value.Validate().Some? ==>
              r == Err(Wrapped("Validating bundle lock: ", decoded.value.Validate().value))
  {
    match decoded
    case Err(e) => Err(Wrapped("Unmarshaling bundle lock: ", e))
    case Ok(lock) =>
      match lock.Validate()
      case Some(e) => Err(Wrapped("Validating bundle lock: ", e))
      case None => Ok(lock)
  }

  function ReadError(path: string, e: Error): Error {
    Wrapped("Reading path " + path + ": ", e)
  }

  /** `NewImagesLockFromPath(path)`, `f` being what reading `path` gives. */
  function NewImagesLockFromPath(path: string, f: LockFile): Result<ImagesLock> {
    match f.readError
    case Some(e) => Err(ReadError(path, e))
    case None => NewImagesLockFromBytes(f.asImagesLock)
  }

  /** `NewBundleLockFromPath(path)`, `f` being what reading `path` gives. */
  function NewBundleLockFromPath(path: string, f: LockFile): Result<BundleLock> {
    match f.readError
    case Some(e) => Err(ReadError(path, e))
    case None => NewBundleLockFromBytes(f.asBundleLock)
  }

  /** `NewLockFromPath`: try the file as a BundleLock, then as an ImagesLock. */
  function NewLockFromPath(path: string, f: LockFile): (r: (Option<BundleLock>, Option<ImagesLock>, Option<Error>))
    ensures NewBundleLockFromPath(path, f).Ok? ==> r == (Some(NewBundleLockFromPath(path, f).value), None, None)
    ensures NewBundleLockFromPath(path, f).Err? && NewImagesLockFromPath(path, f).Ok? ==>
              r == (None, Some(NewImagesLockFromPath(path, f).value), None)
    ensures NewBundleLockFromPath(path, f).Err? && NewImagesLockFromPath(path, f).Err? ==>
              r == (None, None, Some(Wrapped("Trying to read bundle or images lock file: ",
                                             NewImagesLockFromPath(path, f).error)))
    ensures r.2.None? <==> r.0.Some? != r.1.Some?
    ensures r.0.Some? ==> r.0.value.version == LockVersion(BundleLockAPIVersion, BundleLockKind)
    ensures r.1.Some? ==> r.1.value.version == LockVersion(ImagesLockAPIVersion, ImagesLockKind)
    ensures f.asImagesLock.Ok? && f.asImagesLock.value.version.kind == BundleLockKind ==> r.1.None?
  {
    match NewBundleLockFromPath(path, f)
    case Ok(b) => (Some(b), None, None)
    case Err(_) =>
      match NewImagesLockFromPath(path, f)
      case Ok(i) => (None, Some(i), None)
      case Err(e) => (None, None, Some(Wrapped("Trying to read bundle or images lock file: ", e)))
  }

  /** The case pinned by the package's test: a lock whose only image is not in digest form
      (the test uses `nginx:v1`, see NginxTagIsNotDigestForm) is rejected with a message
      naming it. */
  lemma NonDigestImageRejected(image: string)
    requires !IsDigestForm(image)
    ensures var lock := ImagesLock(LockVersion(ImagesLockAPIVersion, ImagesLockKind),
                                   [ImageRef(image, map[])]);
            var r := NewImagesLockFromBytes(Ok(lock));
            r.Err? && Contains(r.error.Text(), DigestFormError(image).text)
  {
    var lock := ImagesLock(LockVersion(ImagesLockAPIVersion, ImagesLockKind), [ImageRef(image, map[])]);
    assert lock.Validate() == Some(DigestFormError(image));
    ContainsSuffix("Validating images lock: ", DigestFormError(image).text);
  }

  lemma NginxTagIsNotDigestForm()
    ensures !IsDigestForm("nginx:v1")
  {
    assert Count("nginx:v1", '@') == 0;
  }
}
