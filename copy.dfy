/** `imgpkg copy` (cmd/copy.go): the checks on its flags, the order in which it runs the
    source resolution and the copy, and the lock file it writes afterwards. The copy itself
    (relocation, tar import and export) and the registry client are inputs. */
module CmdCopy {
  import opened Failures
  import opened Names
  import opened Registries
  import opened LockConfig
  import ImageSet
  import opened Copy2

  /** The flags of `imgpkg copy` the model looks at. */
  datatype CopyOptions = CopyOptions(
    image: string,       // -i
    bundle: string,      // -b
    lockInput: string,   // --lock
    lockOutput: string,  // --lock-output
    tarSrc: string,      // --from-tar
    tarDst: string,      // --to-tar
    repoDst: string)     // --to-repo

  const SourceError := Msg("Expected either --lock, --bundle (-b), --image (-i), or --from-tar as a source")
  const DestinationError := Msg("Expected either --to-tar or --to-repo")
  const TarToTarError := Msg("Cannot use tar source (--from-tar) with tar destination (--to-tar)")
  const TarLockOutputError := Msg("cannot output lock file with tar destination")

  // ---------------------------------------------------------------------------------------
  // hasOneSrc / hasOneDest

  /** The four source flags, in the order `hasOneSrc` looks at them. */
  function Sources(o: CopyOptions): seq<string> {
    [o.lockInput, o.tarSrc, o.bundle, o.image]
  }

  /** How many of `flags` are set. */
  function SetCount(flags: seq<string>): (n: nat)
    ensures n <= |flags|
    ensures n == 0 <==> forall i | 0 <= i < |flags| :: flags[i] == ""
  {
    if flags == [] then 0
    else
      var init := flags[..|flags| - 1];
      assert forall i | 0 <= i < |flags| - 1 :: init[i] == flags[i];
      SetCount(init) + (if flags[|flags| - 1] != "" then 1 else 0)
  }

  lemma {:induction false} SetCountGrows(flags: seq<string>, k: nat)
    requires k <= |flags|
    ensures SetCount(flags[..k]) <= SetCount(flags)
  {
    if k < |flags| {
      assert flags[..|flags| - 1][..k] == flags[..k];
      SetCountGrows(flags[..|flags| - 1], k);
    } else {
      assert flags[..k] == flags;
    }
  }

  /** `hasOneSrc`: stops at the second source flag that is set. */
  method HasOneSrc(o: CopyOptions) returns (r: bool)
    ensures r <==> SetCount(Sources(o)) == 1
  {
    var refs := Sources(o);
    var seen := false;
    var i := 0;
    while i < |refs|
      invariant 0 <= i <= |refs|
      invariant SetCount(refs[..i]) <= 1
      invariant seen <==> SetCount(refs[..i]) == 1
    {
      assert refs[..i + 1][..i] == refs[..i];
      if refs[i] != "" {
        if seen {
          SetCountGrows(refs, i + 1);
          return false;
        }
        seen := true;
      }
      i := i + 1;
    }
    assert refs[..i] == refs;
    return seen;
  }

  /** `hasOneDest`. */
  function HasOneDest(o: CopyOptions): (r: bool)
    ensures r <==> SetCount([o.repoDst, o.tarDst]) == 1
    ensures r <==> (o.repoDst != "" <==> o.tarDst == "")
  {
    var repoSet := o.repoDst != "";
    var tarSet := o.tarDst != "";
    assert [o.repoDst, o.tarDst][..1] == [o.repoDst];
    (repoSet || tarSet) && !(repoSet && tarSet)
  }

  // ---------------------------------------------------------------------------------------
  // writeLockOutput

  /** The lock document `writeLockOutput` writes (the YAML encoding is not part of the model). */
  datatype LockDoc = ImagesDoc(images: ImagesLock) | BundleDoc(bundle: BundleLock)

  /** The ImagesLock written when no bundle was copied: one entry per processed image, in order,
      each naming where the image now is. */
  function ImagesLockFor(processed: seq<ImageSet.ProcessedImage>): (r: ImagesLock)
    ensures r.version == LockVersion(ImagesLockAPIVersion, ImagesLockKind)
    ensures |r.images| == |processed|
    ensures forall i | 0 <= i < |processed| :: r.images[i] == ImageRef(processed[i].image.url, map[])
  {
    ImagesLock(LockVersion(ImagesLockAPIVersion, ImagesLockKind),
               seq(|processed|, i requires 0 <= i < |processed| => ImageRef(processed[i].image.url, map[])))
  }

  /** Entry `i` of `processed` was requested as `url`, and no later entry was. */
  predicate IsLastMatch(processed: seq<ImageSet.ProcessedImage>, url: string, i: int)
    requires 0 <= i < |processed|
  {
    && processed[i].unprocessed.url == url
    && forall j | i < j < |processed| :: processed[j].unprocessed.url != url
  }

  /** The last processed image that was requested as `url`. */
  function LastMatch(processed: seq<ImageSet.ProcessedImage>, url: string): (r: Option<ImageSet.ProcessedImage>)
    ensures r.None? <==> forall i | 0 <= i < |processed| :: processed[i].unprocessed.url != url
    ensures r.Some? ==> exists i | 0 <= i < |processed| :: processed[i] == r.value && IsLastMatch(processed, url, i)
  {
    if processed == [] then None
    else
      var init := processed[..|processed| - 1];
      var last := processed[|processed| - 1];
      assert forall i | 0 <= i < |processed| - 1 :: init[i] == processed[i];
      if last.unprocessed.url == url then
        assert IsLastMatch(processed, url, |processed| - 1);
        Some(last)
      else
        var r := LastMatch(init, url);
        if r.Some? then
          var i :| 0 <= i < |init| && init[i] == r.value && IsLastMatch(init, url, i);
          assert IsLastMatch(processed, url, i);
          r
        else r
  }

  function NotFoundError(bundleURL: string): Error {
    Msg("could not find process item for url '" + bundleURL + "'")
  }

  /** The BundleLock written when a bundle was copied: where the last copy of the bundle now is,
      with the tag it was requested with. */
  function BundleLockFor(processed: seq<ImageSet.ProcessedImage>, bundleURL: string): (r: Result<BundleLock>)
    ensures r.Ok? <==> LastMatch(processed, bundleURL).Some? && LastMatch(processed, bundleURL).value.image.url != ""
    ensures r.Err? ==> r.error == NotFoundError(bundleURL)
    ensures r.Ok? ==> r.value == BundleLock(LockVersion(BundleLockAPIVersion, BundleLockKind),
                                            BundleRef(LastMatch(processed, bundleURL).value.image.url,
                                                      LastMatch(processed, bundleURL).value.unprocessed.tag))
  {
    var (originalTag, url) :=
      match LastMatch(processed, bundleURL)
      case Some(p) => (p.unprocessed.tag, p.image.url)
      case None => ("", "");
    if url == "" then Err(NotFoundError(bundleURL))
    else Ok(BundleLock(LockVersion(BundleLockAPIVersion, BundleLockKind), BundleRef(url, originalTag)))
  }

  /** What `writeLockOutput` writes. */
  function LockOutputFor(processed: seq<ImageSet.ProcessedImage>, bundleURL: string): Result<LockDoc> {
    if bundleURL == "" then Ok(ImagesDoc(ImagesLockFor(processed)))
    else
      match BundleLockFor(processed, bundleURL)
      case Err(e) => Err(e)
      case Ok(b) => Ok(BundleDoc(b))
  }

  /** `writeLockOutput`, up to the encoding and the file write. */
  method WriteLockOutput(processed: seq<ImageSet.ProcessedImage>, bundleURL: string) returns (r: Result<LockDoc>)
    ensures r == LockOutputFor(processed, bundleURL)
  {
    if bundleURL == "" {
      var images: seq<ImageRef> := [];
      var i := 0;
      while i < |processed|
        invariant 0 <= i <= |processed|
        invariant images == ImagesLockFor(processed[..i]).images
      {
        images := images + [ImageRef(processed[i].image.url, map[])];
        i := i + 1;
      }
      assert processed[..i] == processed;
      return Ok(ImagesDoc(ImagesLock(LockVersion(ImagesLockAPIVersion, ImagesLockKind), images)));
    }
    var originalTag, url := "", "";
    var i := 0;
    while i < |processed|
      invariant 0 <= i <= |processed|
      invariant LastMatch(processed[..i], bundleURL).None? ==> originalTag == "" && url == ""
      invariant LastMatch(processed[..i], bundleURL).Some? ==>
                  && originalTag == LastMatch(processed[..i], bundleURL).value.unprocessed.tag
                  && url == LastMatch(processed[..i], bundleURL).value.image.url
    {
      assert processed[..i + 1][..i] == processed[..i];
      if processed[i].unprocessed.url == bundleURL {
        originalTag := processed[i].unprocessed.tag;
        url := processed[i].image.url;
      }
      i := i + 1;
    }
    assert processed[..i] == processed;
    if url == "" {
      return Err(NotFoundError(bundleURL));
    }
    return Ok(BundleDoc(BundleLock(LockVersion(BundleLockAPIVersion, BundleLockKind), BundleRef(url, originalTag))));
  }

  /** The ImagesLock written back passes the lock validation exactly when every destination URL
      is in digest form. */
  lemma ImagesLockOutputValidates(processed: seq<ImageSet.ProcessedImage>)
    ensures ImagesLockFor(processed).Validate().None? <==>
              forall i | 0 <= i < |processed| :: IsDigestForm(processed[i].image.url)
  {
    var lock := ImagesLockFor(processed);
    assert forall i | 0 <= i < |processed| :: lock.images[i].image == processed[i].image.url;
  }

  /** The BundleLock written back passes the lock validation exactly when the bundle's
      destination URL is in digest form; its tag is never looked at. */
  lemma BundleLockOutputValidates(processed: seq<ImageSet.ProcessedImage>, bundleURL: string)
    requires BundleLockFor(processed, bundleURL).Ok?
    ensures BundleLockFor(processed, bundleURL).value.Validate().None? <==>
              IsDigestForm(LastMatch(processed, bundleURL).value.image.url)
  {
  }

  // ---------------------------------------------------------------------------------------
  // Run

  /** `regname.NewRepository(--to-repo)`. */
  function ImportRepository(o: CopyOptions): Option<Error> {
    if IsRepository(o.repoDst) then None
    else Some(Wrapped("Building import repository ref: ", ParseError(o.repoDst)))
  }

  /** `Run`. The outside world is given: `registryError` is what creating the registry client
      answers, `imported` what importing the tar gives (processed images and bundle URL),
      `exportError` what exporting to a tar answers, and `relocate` what relocating a list of
      requests gives. Writing the lock file is modelled by returning the document. */
  method Run(o: CopyOptions, reg: Registry, lock: LfLock, registryError: Option<Error>,
             imported: Result<(seq<ImageSet.ProcessedImage>, string)>, exportError: Option<Error>,
             relocate: seq<ImageSet.UnprocessedImageURL> -> Result<seq<ImageSet.ProcessedImage>>)
    returns (err: Option<Error>, written: Option<LockDoc>)
    ensures SetCount(Sources(o)) != 1 ==> err == Some(SourceError) && written.None?
    ensures SetCount(Sources(o)) == 1 && !HasOneDest(o) ==> err == Some(DestinationError) && written.None?
    ensures SetCount(Sources(o)) == 1 && HasOneDest(o) && registryError.None? && o.tarSrc != "" && o.tarDst != "" ==>
              err == Some(TarToTarError)
    ensures o.tarDst != "" && o.lockOutput != "" ==> err.Some? && written.None?
    ensures SetCount(Sources(o)) == 1 && HasOneDest(o) && registryError.None? && o.tarSrc == "" &&
            Resolved(Copy2(o.image, o.bundle, o.lockInput), reg, lock).Ok? && o.tarDst != "" && o.lockOutput != "" ==>
              err == Some(TarLockOutputError)
    ensures written.Some? ==> err.None? && o.lockOutput != ""
    ensures err.None? && o.lockOutput != "" && o.tarSrc != "" ==>
              imported.Ok? && LockOutputFor(imported.value.0, imported.value.1).Ok? &&
              written == Some(LockOutputFor(imported.value.0, imported.value.1).value)
    ensures err.None? && o.lockOutput != "" && o.tarSrc == "" ==>
              && var resolved := Resolved(Copy2(o.image, o.bundle, o.lockInput), reg, lock);
                 && resolved.Ok? && relocate(resolved.value.0).Ok?
                 && LockOutputFor(relocate(resolved.value.0).value, resolved.value.1).Ok?
                 && written == Some(LockOutputFor(relocate(resolved.value.0).value, resolved.value.1).value)
  {
    written := None;
    var oneSrc := HasOneSrc(o);
    if !oneSrc {
      return Some(SourceError), None;
    }
    if !HasOneDest(o) {
      return Some(DestinationError), None;
    }
    if registryError.Some? {
      return Some(Wrapped("Unable to create a registry: ", registryError.value)), None;
    }
    var bundleURL := "";
    var processedImages: seq<ImageSet.ProcessedImage> := [];
    if o.tarSrc != "" {
      if o.tarDst != "" {
        return Some(TarToTarError), None;
      }
      var repoErr := ImportRepository(o);
      if repoErr.Some? {
        return repoErr, None;
      }
      if imported.Err? {
        return Some(imported.error), None;
      }
      processedImages, bundleURL := imported.value.0, imported.value.1;
    } else {
      var copy2 := Copy2(o.image, o.bundle, o.lockInput);
      var unprocessed, bundleURL2, fooErr := Foo(copy2, reg, lock);
      if fooErr.Some? {
        return fooErr, None;
      }
      bundleURL := bundleURL2;
      if o.tarDst != "" {
        if o.lockOutput != "" {
          return Some(TarLockOutputError), None;
        }
        if exportError.Some? {
          return exportError, None;
        }
      }
      if o.repoDst != "" {
        var repoErr := ImportRepository(o);
        if repoErr.Some? {
          return repoErr, None;
        }
        var relocated := relocate(unprocessed.urls);
        if relocated.Err? {
          return Some(relocated.error), None;
        }
        processedImages := relocated.value;
      }
    }
    if o.lockOutput != "" {
      var out := WriteLockOutput(processedImages, bundleURL);
      if out.Err? {
        return Some(out.error), None;
      }
      return None, Some(out.value);
    }
    return None, None;
  }
}
