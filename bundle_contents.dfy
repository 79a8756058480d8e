/** The checks `bundle.Contents.Push` runs before building a bundle (package `bundle`, file
    contents.go): exactly one `.imgpkg` directory, placed directly under an input path, whose
    images lock references no bundle, and no two inputs landing on the same path. */
module BundleContents {
  import opened Failures
  import opened Texts
  import opened Names
  import opened Registries
  import opened LockConfig
  import opened Walks

  /** `lf.ImageLockFile`. */
  const ImageLockFile := "images.yml"

  /** `bundle.Contents`; the excluded paths only matter to the tar building, which is not part
      of the model. */
  datatype Contents = Contents(paths: seq<string>, excludedPaths: seq<string>)

  // ---------------------------------------------------------------------------------------
  // checkForBundles

  /** A lock image that can be looked at: it parses, the registry has it as an image, and its
      bundle label can be read. */
  predicate Checkable(ref: string, reg: Registry) {
    ParseReference(ref).Some? && Image(reg, ref).Ok? && LabelledBundle(Image(reg, ref).value).Ok?
  }

  predicate IsBundleImage(ref: string, reg: Registry) {
    Checkable(ref, reg) && LabelledBundle(Image(reg, ref).value).value
  }

  /** The first error met when looking at `ref`, parse error first. */
  function CheckError(ref: string, reg: Registry): Error
    requires !Checkable(ref, reg)
  {
    if ParseReference(ref).None? then ParseError(ref)
    else if Image(reg, ref).Err? then Image(reg, ref).error
    else LabelledBundle(Image(reg, ref).value).error
  }

  /** What `checkForBundles` answers for the lock images `refs`: the bundles among them, in
      order, or the first error. */
  function BundlesIn(refs: seq<string>, reg: Registry): Result<seq<string>> {
    if refs == [] then Ok([])
    else
      var ref := refs[|refs| - 1];
      match BundlesIn(refs[..|refs| - 1], reg)
      case Err(e) => Err(e)
      case Ok(bundles) =>
        if !Checkable(ref, reg) then Err(CheckError(ref, reg))
        else if LabelledBundle(Image(reg, ref).value).value then Ok(bundles + [ref])
        else Ok(bundles)
  }

  /** The check succeeds iff every reference can be checked, and then answers exactly the
      bundles among them; otherwise it fails with the error of the first reference that
      cannot. */
  lemma {:induction false} BundlesInMeaning(refs: seq<string>, reg: Registry)
    ensures BundlesIn(refs, reg).Ok? <==> forall i | 0 <= i < |refs| :: Checkable(refs[i], reg)
    ensures BundlesIn(refs, reg).Ok? ==> |BundlesIn(refs, reg).value| <= |refs|
    ensures BundlesIn(refs, reg).Ok? ==> forall x ::
              x in BundlesIn(refs, reg).value <==> exists i | 0 <= i < |refs| :: refs[i] == x && IsBundleImage(x, reg)
    ensures BundlesIn(refs, reg).Err? ==> exists i | 0 <= i < |refs| ::
              && !Checkable(refs[i], reg) && BundlesIn(refs, reg).error == CheckError(refs[i], reg)
              && forall j | 0 <= j < i :: Checkable(refs[j], reg)
  {
    if refs != [] {
      var init := refs[..|refs| - 1];
      BundlesInMeaning(init, reg);
      assert forall i | 0 <= i < |refs| - 1 :: init[i] == refs[i];
    }
  }

  /** The bundles found among the first `k` references come first, in the same order. */
  lemma {:induction false} BundlesInKeepsOrder(refs: seq<string>, reg: Registry, k: nat)
    requires k <= |refs|
    ensures BundlesIn(refs, reg).Ok? ==>
              BundlesIn(refs[..k], reg).Ok? && BundlesIn(refs[..k], reg).value <= BundlesIn(refs, reg).value
  {
    if k < |refs| {
      var init := refs[..|refs| - 1];
      assert init[..k] == refs[..k];
      BundlesInKeepsOrder(init, reg, k);
    } else {
      assert refs[..k] == refs;
    }
  }

  lemma {:induction false} BundlesInStopsEarly(refs: seq<string>, k: nat, reg: Registry)
    requires k <= |refs| && BundlesIn(refs[..k], reg).Err?
    ensures BundlesIn(refs, reg) == BundlesIn(refs[..k], reg)
  {
    if k < |refs| {
      assert refs[..|refs| - 1][..k] == refs[..k];
      BundlesInStopsEarly(refs[..|refs| - 1], k, reg);
    } else {
      assert refs[..k] == refs;
    }
  }

  /** One more reference: the outcome for `refs[..i + 1]` from that for `refs[..i]`. */
  lemma BundlesInStep(refs: seq<string>, i: nat, reg: Registry, bundles: seq<string>)
    requires i < |refs| && BundlesIn(refs[..i], reg) == Ok(bundles)
    ensures !Checkable(refs[i], reg) ==> BundlesIn(refs[..i + 1], reg) == Err(CheckError(refs[i], reg))
    ensures IsBundleImage(refs[i], reg) ==> BundlesIn(refs[..i + 1], reg) == Ok(bundles + [refs[i]])
    ensures Checkable(refs[i], reg) && !IsBundleImage(refs[i], reg) ==> BundlesIn(refs[..i + 1], reg) == Ok(bundles)
  {
    assert refs[..i + 1][..i] == refs[..i];
  }

  /** The image URLs of a lock's entries. */
  function ImageNames(images: seq<ImageRef>): (r: seq<string>)
    ensures |r| == |images| && forall i | 0 <= i < |images| :: r[i] == images[i].image
  {
    seq(|images|, i requires 0 <= i < |images| => images[i].image)
  }

  /** `checkForBundles`. */
  method CheckForBundles(reg: Registry, imageRefs: seq<ImageRef>) returns (bundles: seq<string>, err: Option<Error>)
    ensures err.None? <==> BundlesIn(ImageNames(imageRefs), reg).Ok?
    ensures err.None? ==> bundles == BundlesIn(ImageNames(imageRefs), reg).value
    ensures err.Some? ==> bundles == [] && err.value == BundlesIn(ImageNames(imageRefs), reg).error
  {
    var refs := ImageNames(imageRefs);
    bundles := [];
    var i := 0;
    while i < |imageRefs|
      invariant 0 <= i <= |imageRefs|
      invariant BundlesIn(refs[..i], reg) == Ok(bundles)
    {
      var imgRef := imageRefs[i].image;
      BundlesInStep(refs, i, reg, bundles);
      if !Checkable(imgRef, reg) {
        BundlesInStopsEarly(refs, i + 1, reg);
        return [], Some(CheckError(imgRef, reg));
      }
      if LabelledBundle(Image(reg, imgRef).value).value {
        bundles := bundles + [imgRef];
      }
      i := i + 1;
    }
    assert refs[..i] == refs;
    return bundles, None;
  }

  /** The error a lock that references bundles is rejected with. */
  function ContainsBundlesError(bundles: seq<string>): Error {
    Msg("Expected image lock to not contain bundle reference: '" + Join(bundles, "', '") + "'")
  }

  // ---------------------------------------------------------------------------------------
  // validateImgpkgDirs

  /** Whether the directory `dir` is directly under one of `flagPaths`, looked at in order; the
      first failing `Abs` ends the search. */
  function ChildOfInput(dir: string, flagPaths: seq<string>, fs: FileSystem): (r: Result<bool>)
    ensures r == Ok(true) <==> exists i | 0 <= i < |flagPaths| ::
              fs.abs(flagPaths[i]) == Ok(Dir(dir)) && forall j | 0 <= j < i :: fs.abs(flagPaths[j]).Ok?
    ensures r == Ok(false) <==> forall i | 0 <= i < |flagPaths| ::
              fs.abs(flagPaths[i]).Ok? && fs.abs(flagPaths[i]) != Ok(Dir(dir))
  {
    if flagPaths == [] then Ok(false)
    else
      match fs.abs(flagPaths[0])
      case Err(e) => Err(e)
      case Ok(abs) =>
        if Dir(dir) == abs then Ok(true)
        else
          var r := ChildOfInput(dir, flagPaths[1..], fs);
          assert forall i | 1 <= i < |flagPaths| :: flagPaths[i] == flagPaths[1..][i - 1];
          r
  }

  function DirCountError(dirs: seq<string>): Error {
    Msg("Expected one '" + BundleDir + "' dir, got " + NatToString(|dirs|) + ": " + Join(dirs, ", "))
  }

  function PlacementError(c: Contents, dir: string): Error {
    Msg("Expected '" + BundleDir + "' directory, to be a direct child of one of: " + Join(c.paths, ", ") +
        "; was " + dir)
  }

  /** `validateImgpkgDirs`. */
  function ValidateImgpkgDirs(c: Contents, dirs: seq<string>, fs: FileSystem): (r: Option<Error>)
    ensures |dirs| != 1 ==> r == Some(DirCountError(dirs))
    ensures |dirs| == 1 ==>
              (r.None? <==> exists i | 0 <= i < |c.paths| :: fs.abs(c.paths[i]) == Ok(Dir(dirs[0])) &&
                                                           forall j | 0 <= j < i :: fs.abs(c.paths[j]).Ok?)
    ensures |dirs| == 1 && (forall i | 0 <= i < |c.paths| :: fs.abs(c.paths[i]).Ok? && fs.abs(c.paths[i]) != Ok(Dir(dirs[0]))) ==>
              r == Some(PlacementError(c, dirs[0]))
  {
    if |dirs| != 1 then Some(DirCountError(dirs))
    else
      match ChildOfInput(dirs[0], c.paths, fs)
      case Err(e) => Some(e)
      case Ok(true) => None
      case Ok(false) => Some(PlacementError(c, dirs[0]))
  }

  // ---------------------------------------------------------------------------------------
  // validate

  /** How `validate` gets on before its last check. */
  datatype Step = Accept | Reject(error: Error) | CheckPaths

  /** The checks of `validate` up to the repeated-paths check: the lock is read from
      `images.yml` in the one `.imgpkg` directory. */
  function LockChecks(c: Contents, fs: FileSystem, reg: Registry): (r: Step)
    ensures ImgpkgDirs(c.paths, fs).Err? ==> r == Accept
    ensures ImgpkgDirs(c.paths, fs).Ok? && |ImgpkgDirs(c.paths, fs).value| != 1 ==>
              r == Reject(DirCountError(ImgpkgDirs(c.paths, fs).value))
    ensures r == CheckPaths ==> ImgpkgDirs(c.paths, fs).Ok? && |ImgpkgDirs(c.paths, fs).value| == 1
  {
    match ImgpkgDirs(c.paths, fs)
    case Err(_) => Accept
    case Ok(dirs) =>
      match ValidateImgpkgDirs(c, dirs, fs)
      case Some(e) => Reject(e)
      case None =>
        var path := PathJoin(dirs[0], ImageLockFile);
        match NewImagesLockFromPath(path, fs.readLock(path))
        case Err(e) => Reject(e)
        case Ok(lock) =>
          match BundlesIn(ImageNames(lock.images), reg)
          case Err(e) => Reject(Wrapped("Checking image lock for bundles: ", e))
          case Ok(bundles) =>
            if bundles != [] then Reject(ContainsBundlesError(bundles))
            else CheckPaths
  }

  /** Reaching the repeated-paths check means the lock was read, is valid, and lists no
      bundle. */
  lemma PassedLockIsClean(c: Contents, fs: FileSystem, reg: Registry)
    requires LockChecks(c, fs, reg) == CheckPaths
    ensures var dir := ImgpkgDirs(c.paths, fs).value[0];
            var lock := NewImagesLockFromPath(PathJoin(dir, ImageLockFile), fs.readLock(PathJoin(dir, ImageLockFile)));
            && lock.Ok? && lock.value.Validate().None?
            && forall i | 0 <= i < |lock.value.images| :: !IsBundleImage(lock.value.images[i].image, reg)
  {
    var dir := ImgpkgDirs(c.paths, fs).value[0];
    var lock := NewImagesLockFromPath(PathJoin(dir, ImageLockFile), fs.readLock(PathJoin(dir, ImageLockFile)));
    var names := ImageNames(lock.value.images);
    BundlesInMeaning(names, reg);
    forall i | 0 <= i < |lock.value.images|
      ensures !IsBundleImage(lock.value.images[i].image, reg)
    {
      assert names[i] == lock.value.images[i].image;
    }
  }

  /** `Contents.validate`. */
  method Validate(c: Contents, fs: FileSystem, reg: Registry) returns (err: Option<Error>)
    ensures LockChecks(c, fs, reg) == Accept ==> err.None?
    ensures LockChecks(c, fs, reg).Reject? ==> err == Some(LockChecks(c, fs, reg).error)
    ensures LockChecks(c, fs, reg) == CheckPaths ==> RepeatCheckAnswers(c.paths, fs, err)
  {
    var imgpkgDirs, findErr := FindImgpkgDirs(c.paths, fs);
    if findErr.Some? {
      return None;
    }
    err := ValidateImgpkgDirs(c, imgpkgDirs, fs);
    if err.Some? {
      return err;
    }
    var path := PathJoin(imgpkgDirs[0], ImageLockFile);
    var imagesLock := NewImagesLockFromPath(path, fs.readLock(path));
    if imagesLock.Err? {
      return Some(imagesLock.error);
    }
    var bundles, bundlesErr := CheckForBundles(reg, imagesLock.value.images);
    if bundlesErr.Some? {
      return Some(Wrapped("Checking image lock for bundles: ", bundlesErr.value));
    }
    if |bundles| != 0 {
      return Some(ContainsBundlesError(bundles));
    }
    err := CheckRepeatedPaths(c.paths, fs);
  }

  /** A lock that lists a bundle stops the push, whatever else the directory holds: with the
      error naming the bundles found, or with the wrapped error of the bundle check. */
  lemma LockWithBundleRejected(c: Contents, fs: FileSystem, reg: Registry, dir: string, lock: ImagesLock, k: nat)
    requires ImgpkgDirs(c.paths, fs) == Ok([dir])
    requires ValidateImgpkgDirs(c, [dir], fs).None?
    requires NewImagesLockFromPath(PathJoin(dir, ImageLockFile), fs.readLock(PathJoin(dir, ImageLockFile))) == Ok(lock)
    requires k < |lock.images| && IsBundleImage(lock.images[k].image, reg)
    ensures BundlesIn(ImageNames(lock.images), reg).Ok? ==>
              && BundlesIn(ImageNames(lock.images), reg).value != []
              && LockChecks(c, fs, reg) == Reject(ContainsBundlesError(BundlesIn(ImageNames(lock.images), reg).value))
    ensures BundlesIn(ImageNames(lock.images), reg).Err? ==>
              LockChecks(c, fs, reg) == Reject(Wrapped("Checking image lock for bundles: ", BundlesIn(ImageNames(lock.images), reg).error))
  {
    var names := ImageNames(lock.images);
    assert names[k] == lock.images[k].image;
    BundlesInMeaning(names, reg);
    match BundlesIn(names, reg)
    case Err(_) =>
    case Ok(bundles) => assert lock.images[k].image in bundles;
  }
}
