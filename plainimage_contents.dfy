/** The checks `plainimage.Contents.Push` runs before building a plain image (package
    `plainimage`, file contents.go): no `.imgpkg` directory anywhere in the inputs, and no two
    inputs landing on the same path. */
module PlainImageContents {
  import opened Failures
  import opened Texts
  import opened Walks

  /** `plainimage.Contents`; the excluded paths only matter to the tar building, which is not
      part of the model. */
  datatype Contents = Contents(paths: seq<string>, excludedPaths: seq<string>)

  /** The error for inputs that hold `.imgpkg` directories. */
  function BundleDirsError(dirs: seq<string>): Error {
    Msg("Images cannot be pushed with '" + BundleDir + "' directories (found " + NatToString(|dirs|) +
        " at '" + Join(dirs, ",") + "'), consider using a bundle")
  }

  /** `Contents.validate`: a failed search for `.imgpkg` directories lets the push through. */
  method Validate(c: Contents, fs: FileSystem) returns (err: Option<Error>)
    ensures ImgpkgDirs(c.paths, fs).Err? ==> err.None?
    ensures ImgpkgDirs(c.paths, fs).Ok? && ImgpkgDirs(c.paths, fs).value != [] ==>
              err == Some(BundleDirsError(ImgpkgDirs(c.paths, fs).value))
    ensures ImgpkgDirs(c.paths, fs) == Ok([]) ==> RepeatCheckAnswers(c.paths, fs, err)
  {
    var imgpkgDirs, findErr := FindImgpkgDirs(c.paths, fs);
    if findErr.Some? {
      return None;
    }
    if |imgpkgDirs| > 0 {
      return Some(BundleDirsError(imgpkgDirs));
    }
    err := CheckRepeatedPaths(c.paths, fs);
  }

  /** Any `.imgpkg` entry in a walk that otherwise succeeds stops a plain-image push. */
  lemma {:induction false} BundleDirRejected(c: Contents, fs: FileSystem, r: nat, k: nat)
    requires r < |c.paths| && k < |fs.walk(c.paths[r]).entries|
    requires IsBundleDir(fs.walk(c.paths[r]).entries[k])
    requires ImgpkgDirs(c.paths, fs).Ok?
    ensures ImgpkgDirs(c.paths, fs).value != []
  {
    var entries := fs.walk(c.paths[r]).entries;
    DirsInMeaning(entries, fs);
    assert fs.abs(entries[k].path).value in DirsIn(entries, fs).value;
    DirsContained(c.paths, r, fs);
  }
}
