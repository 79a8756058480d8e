# imgpkg relocation core in Dafny

This project models the core of imgpkg, the tool that stores sets of OCI images as
*bundles* and copies them between registries and tarballs. It covers:

- the lock files that pin images by digest: `ImagesLock` and `BundleLock`, their
  validation, and the loader that tries the one and then the other;
- the `imgpkg copy` command:
  - checking its flags;
  - turning `-i`, `-b` or `--lock` into the list of images to copy (`Copy2`);
  - preferring copies of images that already sit in the bundle's repository;
  - writing the lock file that records where everything went;
- `cmd.Reference`, with the rules for which tag a parsed reference keeps;
- the bundle pull step that rewrites an images lock to point at the bundle's
  repository;
- the checks run on a directory before it is pushed:
  - a bundle needs exactly one `.imgpkg` directory, directly under an input path,
    holding a valid images lock without bundles;
  - a plain image needs no `.imgpkg` directory;
  - both reject two inputs that put different files at the same relative path;
- `Images.ForImage`.

Modules, one per Go file or package:

| module | file | Go source |
|---|---|---|
| `Failures` | failures.dfy | Go's `error`: `Option<Error>`; a value-or-error is a `Result` |
| `Texts` | texts.dfy | the `strings`/`filepath` helpers the code uses |
| `Names` | names.dfy | a small, concrete reference grammar in place of `regname` |
| `Registries` | registries.dfy | the registry as a map from reference text to artifact |
| `LockConfig` | lockconfig.dfy | `pkg/imgpkg/lockconfig` |
| `ImageSet` | imageset.dfy | `pkg/imgpkg/imageset` |
| `References` | reference.dfy | `pkg/imgpkg/cmd/reference.go` |
| `BundlePull` | bundle_pull.dfy | `pkg/imgpkg/bundle/bundle.go` |
| `Walks` | walks.dfy | `findImgpkgDirs`/`checkRepeatedPaths`, identical in both `contents.go` files |
| `BundleContents` | bundle_contents.dfy | `pkg/imgpkg/bundle/contents.go` |
| `PlainImageContents` | plainimage_contents.dfy | `pkg/imgpkg/plainimage/contents.go` |
| `Copy2` | copy2.dfy | `pkg/imgpkg/cmd/copy2.go` |
| `CmdCopy` | copy.dfy | `pkg/imgpkg/cmd/copy.go` |

## How the model is built

Pure Go functions become Dafny functions. A Go loop that builds up state becomes a method
with a `while` loop. A loop that only searches or checks becomes a recursive function
(`LockConfig.FirstNonDigest` inside `ImagesLock.Validate`, `BundleContents.ChildOfInput`,
`ImageSet.ForImage`). Each loop method is proved equal to a recursive specification function, and the
properties the code promises are proved about that function. Most of these
specification functions recurse on the last element, so a loop's invariant is
"the function of the prefix seen so far".

Go's early `return err` inside a loop is matched by a "stops early" lemma: once a
prefix fails, the whole input fails the same way.

Two loops are specified through combinators shared from `Failures`:

- `Collect` runs steps in order and returns all their values or the first error.
  `Copy2.CollocateAll` is `Collect` over the per-entry outcomes.
- `CollectPresent` also lets a step be skipped. `Walks.DirsIn` is `CollectPresent`
  over the entries of a walk, skipping those that are not `.imgpkg`.

Their lemmas are proved once for any steps and then read back in terms of the
entries (`CollocateAllMeaning`, `DirsInMeaning`).

The things the code talks to are given as values:

- The registry is a map from reference text to an artifact. An artifact has:
  - its kind (image or index);
  - its digest, when it can be computed;
  - its manifest annotations, when the manifest can be read;
  - the bundle label;
  - the images its lock file lists.
- The file system is a record of functions:
  - what walking a path yields (entries, each with a relative path or an error, and
    a walk error);
  - what `filepath.Abs` answers;
  - what reading a lock file at a path gives, already decoded.
- Relocation, tar import and tar export are parameters of `CmdCopy.Run`.

`UnprocessedImageURLs`, which the Go code fills in place, is a class with a sequence
field.

Both `validate` functions swallow an error from `findImgpkgDirs` and report success.
The model keeps this as written (`BundleContents.LockChecks` answers `Accept`, and
`PlainImageContents.Validate` returns no error).

## Model

| member | source | states |
|---|---|---|
| LockConfig.FirstNonDigest | pkg/imgpkg/lockconfig/images_lock.go:61-65 | finds the first image, in list order, that is not in digest form; none iff all images are |
| LockConfig.ImagesLock.Validate | pkg/imgpkg/lockconfig/images_lock.go:54-67 | the wrong apiVersion is reported first, then the wrong kind, then the first non-digest image by name; succeeds iff version and kind match and every image (none for an empty list) is digest form |
| LockConfig.BundleLock.Validate | pkg/imgpkg/lockconfig/bundle_lock.go:54-65 | apiVersion first, then kind, then a non-digest bundle image by name; succeeds iff those three hold, whatever the tag |
| LockConfig.NewImagesLockFromBytes | pkg/imgpkg/lockconfig/images_lock.go:38-51 | succeeds only for a decoded lock whose validation succeeds, returning it unchanged; wraps decoding and validation errors |
| LockConfig.NewBundleLockFromBytes | pkg/imgpkg/lockconfig/bundle_lock.go:38-51 | the same for bundle locks |
| LockConfig.NewLockFromPath | pkg/imgpkg/lockconfig/generic.go:15-25 | a loadable bundle lock wins and the images lock is not consulted; otherwise the images lock; otherwise only the images-lock error, wrapped. On success exactly one result is present, with the matching version; a document of kind `BundleLock` never comes back as an images lock |
| LockConfig.NonDigestImageRejected | pkg/imgpkg/lockconfig/images_lock_test.go:13-28 | loading a lock with a non-digest image fails with a message naming that image |
| LockConfig.NginxTagIsNotDigestForm | pkg/imgpkg/lockconfig/images_lock_test.go:18-19 | `nginx:v1` is not in digest form |
| ImageSet.ForImage | pkg/imgpkg/imageset/image.go:19-26 | found iff some image has the URL; then the earliest such image, with that URL; otherwise the zero image |
| ImageSet.UnprocessedImageURLs.Add | pkg/imgpkg/cmd/copy2.go:196-198 | appends the request; nothing else changes |
| References.Reference.WithRepo | pkg/imgpkg/cmd/reference.go:106-117 | only the repository changes |
| References.Reference.WithTag | pkg/imgpkg/cmd/reference.go:120-131 | only the tag changes |
| References.Reference.AsTag | pkg/imgpkg/cmd/reference.go:134-137 | `repo:tag` parses back to the same repository and tag; an empty tag gives the default tag `latest`; any success is a tag reference |
| References.Reference.AsDigest | pkg/imgpkg/cmd/reference.go:140-143 | `repo@digest` parses back to the same repository and digest; any success keeps the digest |
| References.Reference.IsBundle | pkg/imgpkg/cmd/reference.go:147-160 | true iff an image whose manifest annotations hold the bundle key; false for any other artifact; error iff the manifest of an image cannot be read |
| References.NewReference | pkg/imgpkg/cmd/reference.go:56-98 | a parse failure is returned as is; a tag reference with a tag argument is refused; success iff parsing, fetching and the digest all succeed, and then repository, digest, artifact and the chosen tag are recorded |
| References.ImplicitTagLeftEmpty | pkg/imgpkg/cmd/reference.go:73-75 | a reference without a tag (and without "latest" in its text) gets the empty tag, not the default |
| References.ExplicitTagKept | pkg/imgpkg/cmd/reference.go:73-75 | a tag written out is kept, including an explicit `latest` |
| BundlePull.ImageWithRepository | pkg/imgpkg/bundle/bundle.go:139-148 | succeeds iff the URL has exactly one `@`, and then gives `repo@` plus the digest part; otherwise "Parsing image URL" |
| BundlePull.MovedDigestKept | pkg/imgpkg/bundle/bundle.go:144-147 | moving `repo@digest` to another repository keeps the digest |
| BundlePull.ImageWithRepositoryIdempotent | pkg/imgpkg/bundle/bundle.go:144-147 | applying it twice with the same repository changes nothing more |
| BundlePull.FirstExisting | pkg/imgpkg/bundle/bundle.go:124-137 | a success is the earliest candidate that exists, all earlier ones parse and are missing |
| BundlePull.FirstPresentFound | pkg/imgpkg/bundle/bundle.go:124-137 | conversely, the earliest existing candidate after missing ones is the answer |
| BundlePull.NoneExists | pkg/imgpkg/bundle/bundle.go:125-136 | when every candidate is missing, the error wraps the last fetch error (or nil for no candidates) |
| BundlePull.FirstUnparsableAborts | pkg/imgpkg/bundle/bundle.go:126-130 | reaching a candidate that does not parse aborts with its parse error |
| BundlePull.CheckImagesExist | pkg/imgpkg/bundle/bundle.go:124-137 | returns exactly what `FirstExisting` answers |
| BundlePull.CountInRepo | pkg/imgpkg/bundle/bundle.go:88-96 | counts the images already in the bundle repository; all of them iff each is |
| BundlePull.LocateImage | pkg/imgpkg/bundle/bundle.go:89-110 | one turn of the loop computes `Locate`: the bundle-repository copy with the image's annotations, no result when the image is found elsewhere first, or the error |
| BundlePull.RelocatedMeaning | pkg/imgpkg/bundle/bundle.go:88-111 | either every image is replaced, in order and with its annotations, by its bundle-repository copy, which exists; or some image's bundle-repository copy is missing and its own location exists, and nothing is rewritten |
| BundlePull.AllCopiesRelocated | pkg/imgpkg/bundle/bundle.go:98-110 | when every image has a copy in the bundle repository, all images are relocated |
| BundlePull.CopiesPresentRewritten | pkg/imgpkg/bundle/bundle.go:88-122 | a lock with an image outside the bundle repository, all of whose copies exist there, is rewritten |
| BundlePull.RelocatedStopsEarly | pkg/imgpkg/bundle/bundle.go:98-105 | a failure or a stop on a prefix is the outcome for the whole lock |
| BundlePull.RewriteMeaning | pkg/imgpkg/bundle/bundle.go:73-122 | a read error is returned; a rewrite keeps version and length and happens only when some image is outside the bundle repository; no write when all are inside |
| BundlePull.RewriteImagesLock | pkg/imgpkg/bundle/bundle.go:73-122 | the loop computes `Rewrite` |
| BundlePull.AlreadyRelocatedNotWritten | pkg/imgpkg/bundle/bundle.go:94-96 | a lock whose images are all `repo@digest` in the bundle repository is never written |
| Walks.DirsInMeaning | pkg/imgpkg/bundle/contents.go:110-128 | the `.imgpkg` directories of one walk, as absolute paths: every one is listed and nothing else; fails iff some such path has no absolute form |
| Walks.ImgpkgDirs | pkg/imgpkg/bundle/contents.go:106-134 | success implies every walk succeeded and each gave its directories |
| Walks.ImgpkgDirsStopsEarly | pkg/imgpkg/bundle/contents.go:107-131 | a failing input path ends the search |
| Walks.ImgpkgDirsConcat | pkg/imgpkg/bundle/contents.go:107-131 | the directories are those of each input in input order, then walk order |
| Walks.CollectDirs | pkg/imgpkg/bundle/contents.go:110-128 | the walk callback loop computes `DirsIn` |
| Walks.DirsContained | pkg/imgpkg/plainimage/contents.go:66-94 | every `.imgpkg` directory of every input is reported |
| Walks.FindImgpkgDirs | pkg/imgpkg/bundle/contents.go:106-134 | computes `ImgpkgDirs`; returns no directories on error |
| Walks.RootKey | pkg/imgpkg/bundle/contents.go:171-176 | the root directory `.` is skipped, a root file is keyed by its base name, everything else by its relative path |
| Walks.AddPath | pkg/imgpkg/bundle/contents.go:177 | appends the full path under its key; other keys unchanged |
| Walks.GroupEntries | pkg/imgpkg/bundle/contents.go:160-183 | grouping one walk only adds keys |
| Walks.GroupEntriesOkIff | pkg/imgpkg/bundle/contents.go:163-170 | grouping one walk succeeds iff `Rel` succeeds on every entry, and otherwise fails with one of those errors |
| Walks.GroupEntriesMeaning | pkg/imgpkg/bundle/contents.go:161-179 | each key's list gains exactly the full paths of the entries filed under it, in walk order; a key is present iff it was before or gains a path |
| Walks.GroupAllOkIff | pkg/imgpkg/bundle/contents.go:159-184 | grouping all inputs succeeds iff every walk ends without error and every `Rel` succeeds |
| Walks.GroupAllMeaning | pkg/imgpkg/bundle/contents.go:159-184 | each key holds the full paths of all entries filed under it, input by input in walk order; a key is present iff some entry is filed under it |
| Walks.PathsUnderRepeated | pkg/imgpkg/bundle/contents.go:171-177 | one walk files two paths under a key iff two distinct entries of it are keyed to it |
| Walks.AllPathsUnderRepeated | pkg/imgpkg/bundle/contents.go:159-184 | all walks file two paths under a key iff two distinct entries, of one walk or two, are keyed to it |
| Walks.RepeatsMeaning | pkg/imgpkg/bundle/contents.go:158-196 | once every walk is clean, some key collects more than one path iff two distinct entries (not a root directory itself) land on the same key |
| Walks.GroupEntriesStopsEarly | pkg/imgpkg/bundle/contents.go:163-170 | an entry error ends the grouping |
| Walks.GroupAllStopsEarly | pkg/imgpkg/bundle/contents.go:159-184 | a failing input ends the grouping |
| Walks.GroupWalk | pkg/imgpkg/bundle/contents.go:161-179 | the walk callback loop over one input computes `GroupEntries`: its grouping, or the first entry error |
| Walks.RepeatedPaths | pkg/imgpkg/bundle/contents.go:186-191 | lists exactly the paths filed under keys that collect more than one path; empty iff no key does |
| Walks.CheckRepeatedPaths | pkg/imgpkg/bundle/contents.go:158-196 | a walk error is returned; otherwise an error iff some key collects more than one full path, and the message lists exactly the paths of such keys |
| Walks.SameNamedRootFilesCollide | pkg/imgpkg/plainimage/contents.go:109-115 | two input files with the same base name collide |
| Walks.RootDirectoryIgnored | pkg/imgpkg/plainimage/contents.go:109-111 | an input directory itself is never a key |
| BundleContents.BundlesInMeaning | pkg/imgpkg/bundle/contents.go:81-104 | exactly the references that are bundles, in input order; the first reference that cannot be parsed, fetched or checked aborts with its error |
| BundleContents.BundlesInKeepsOrder | pkg/imgpkg/bundle/contents.go:84-97 | the bundles found among the first k references are a prefix of those found in all, so the list keeps input order |
| BundleContents.BundlesInStopsEarly | pkg/imgpkg/bundle/contents.go:84-97 | an error on a prefix is the outcome for the whole list |
| BundleContents.CheckForBundles | pkg/imgpkg/bundle/contents.go:81-104 | the loop computes `BundlesIn` |
| BundleContents.ChildOfInput | pkg/imgpkg/bundle/contents.go:144-153 | true iff some input path's absolute form is the directory's parent, every earlier one resolving; false iff all resolve and none is |
| BundleContents.ValidateImgpkgDirs | pkg/imgpkg/bundle/contents.go:136-156 | not exactly one directory is an error; one directory passes iff it sits directly under an input path |
| BundleContents.LockChecks | pkg/imgpkg/bundle/contents.go:53-76 | a failed search is accepted (swallowed); a wrong directory count is rejected; continuing means exactly one directory |
| BundleContents.PassedLockIsClean | pkg/imgpkg/bundle/contents.go:64-76 | when the checks pass, the lock loads, validates, and none of its images is a bundle |
| BundleContents.Validate | pkg/imgpkg/bundle/contents.go:53-79 | accepted, rejected or handed to the repeated-path check exactly as `LockChecks` says |
| BundleContents.LockWithBundleRejected | pkg/imgpkg/bundle/contents.go:69-76 | a lock that references a bundle is rejected with the message listing the bundles found, or with the wrapped error of the bundle check |
| PlainImageContents.Validate | pkg/imgpkg/plainimage/contents.go:52-64 | a failed search is swallowed; any `.imgpkg` directory is an error listing them; otherwise the repeated-path check decides |
| PlainImageContents.BundleDirRejected | pkg/imgpkg/plainimage/contents.go:58-61 | one `.imgpkg` directory in any input is enough to reject |
| Copy2.GetTag | pkg/imgpkg/cmd/copy2.go:165-171 | a digest reference has no tag |
| Copy2.TagOfParsedReference | pkg/imgpkg/cmd/copy2.go:165-171 | an explicit tag is returned, an implicit one is `latest`, a digest reference gives "" |
| Copy2.CheckIfBundle | pkg/imgpkg/cmd/copy2.go:174-188 | the caller's error iff the bundle label differs from what is expected; an error of the label check is passed on |
| Copy2.GetRefAndImage | pkg/imgpkg/cmd/copy2.go:136-148 | succeeds iff the reference parses and the image is fetched, returning both |
| Copy2.GetRefWithDigest | pkg/imgpkg/cmd/copy2.go:151-161 | the image's own digest in the reference's repository |
| Copy2.CollectedURLs | pkg/imgpkg/cmd/copy2.go:192-199 | each lock image in order with an empty tag, then the bundle with its tag, last and only when given |
| Copy2.CollectURLs | pkg/imgpkg/cmd/copy2.go:192-199 | appends exactly `CollectedURLs` |
| Copy2.Collocate | pkg/imgpkg/cmd/copy2.go:209-229 | the bundle's own entry passes unchanged; another entry whose move fails aborts with that error; a moved URL not in digest form aborts with a parse error; a changed result is the moved URL with the entry's tag, and that copy exists |
| Copy2.CollocationOfDigestImage | pkg/imgpkg/cmd/copy2.go:215-229 | `repo@digest` becomes `bundleRepo@digest` with its tag iff that copy exists |
| Copy2.UnpinnedEntryAborts | pkg/imgpkg/cmd/copy2.go:215-219 | an entry without `@` aborts the rewrite |
| Copy2.CollocateAllMeaning | pkg/imgpkg/cmd/copy2.go:209-232 | succeeds iff every entry does, and then gives one output per input, each that entry's outcome, in order; otherwise the error of the first failing entry |
| Copy2.CollocateOne | pkg/imgpkg/cmd/copy2.go:210-229 | one turn of the loop computes `Collocate` |
| Copy2.CollocatedImages | pkg/imgpkg/cmd/copy2.go:201-233 | an unparsable bundle URL is an error; otherwise succeeds iff every entry's collocation does, and then gives one output per input, each that entry's collocation |
| Copy2.CheckBundleRepoForCollocatedImages | pkg/imgpkg/cmd/copy2.go:201-233 | a new collection holding `CollocatedImages`, or nil and its error |
| Copy2.Unprocessed | pkg/imgpkg/cmd/copy2.go:38-133 | an unknown lock kind is refused; an images lock gives its images and no bundle; `-i` gives one request and no bundle; `-b` ends with the bundle and its tag |
| Copy2.GetUnprocessedImageURLs | pkg/imgpkg/cmd/copy2.go:38-133 | a new collection holding `Unprocessed`, or nil, "" and its error |
| Copy2.Resolved | pkg/imgpkg/cmd/copy2.go:22-36 | collocation keeps the bundle URL and the number of requests, and does not run when there is no bundle; with a bundle, an unparsable bundle URL is an error, and otherwise it succeeds iff every request's collocation does, each request becoming its collocation |
| Copy2.Foo | pkg/imgpkg/cmd/copy2.go:22-36 | returns `Resolved`, or nil, "" and its error |
| Copy2.ImageInputIsNotCollocated | pkg/imgpkg/cmd/copy2.go:93-104 | `-i` yields its image with its tag and an empty bundle URL, untouched by collocation |
| Copy2.BundleStaysLast | pkg/imgpkg/cmd/copy2.go:106-130 | `-b` keeps the bundle as the last request, with its tag, and returns it as the bundle URL |
| Copy2.ImagesLockWithBundleRefused | pkg/imgpkg/cmd/copy2.go:73-88 | an images lock that lists a bundle is refused with the message listing the bundles found, or with the wrapped error of the bundle check |
| Copy2.WrongFlagRefused | pkg/imgpkg/cmd/copy2.go:93-104 | a bundle given with `-i` is refused with the hint to use `-b` |
| Copy2.ImageGivenWithBundleFlagRefused | pkg/imgpkg/cmd/copy2.go:106-125 | an image that is not a bundle given with `-b` is refused |
| Copy2.BundleLockOfImageRefused | pkg/imgpkg/cmd/copy2.go:49-63 | a bundle lock whose reference is not a bundle is refused |
| Copy2.BundleLockCollected | pkg/imgpkg/cmd/copy2.go:49-71 | a bundle lock that succeeds gives the bundle's referenced images then the pinned bundle with the lock's original tag, and the pinned reference as bundle URL |
| Copy2.BundleFlagCollected | pkg/imgpkg/cmd/copy2.go:106-130 | `-b` that succeeds gives the referenced images of the bundle's digest reference, then the bundle as given with its tag, and the bundle as given as bundle URL |
| CmdCopy.SetCount | pkg/imgpkg/cmd/copy.go:170-182 | none is set iff every flag is empty |
| CmdCopy.SetCountGrows | pkg/imgpkg/cmd/copy.go:175-178 | a prefix never has more set flags than the whole |
| CmdCopy.HasOneSrc | pkg/imgpkg/cmd/copy.go:170-182 | true iff exactly one of lock, tar source, bundle and image is set |
| CmdCopy.HasOneDest | pkg/imgpkg/cmd/copy.go:164-168 | true iff exactly one of `--to-repo` and `--to-tar` is set |
| CmdCopy.ImagesLockFor | pkg/imgpkg/cmd/copy.go:189-198 | an images lock of the current version with one entry per processed image, in order, each its destination URL |
| CmdCopy.LastMatch | pkg/imgpkg/cmd/copy.go:206-211 | the last processed image requested as the URL; none iff no image was |
| CmdCopy.BundleLockFor | pkg/imgpkg/cmd/copy.go:204-221 | the last matching image's destination URL and requested tag; "could not find process item" when there is none or its URL is empty |
| CmdCopy.WriteLockOutput | pkg/imgpkg/cmd/copy.go:184-230 | the loops build the images lock when no bundle was copied and the bundle lock otherwise |
| CmdCopy.ImagesLockOutputValidates | pkg/imgpkg/cmd/copy.go:189-198 | the images lock written validates iff every destination URL is in digest form |
| CmdCopy.BundleLockOutputValidates | pkg/imgpkg/cmd/copy.go:213-219 | the bundle lock written validates iff its destination URL is in digest form |
| CmdCopy.Run | pkg/imgpkg/cmd/copy.go:65-146 | a wrong source or destination count is reported first, whatever else; tar to tar is refused; a tar destination with lock output never writes a lock, and once the requests resolve it fails with "cannot output lock file with tar destination"; a lock is written only on success with `--lock-output`, and it is the one built from what import or relocation produced |

## Left out

- YAML decoding and encoding: locks are taken already decoded, and `CmdCopy.WriteLockOutput` returns the document instead of writing a file. `AsBytes`, `WriteToPath` and `Image.Description` are not modelled.
- Reading files (`NewImagesLockFromPath`, `NewBundleLockFromPath`): the decoded content at a path, or the read error, is given by the file system record.
- `filepath.Walk`, `Abs` and `Rel`: their answers are inputs. The walk is a finite list of entries in walk order.
- The `Push` methods of both `contents.go` files and `Bundle.Pull`: tar building, extraction and registry writes. Only the checks and the lock rewrite they call are modelled.
- `ImageSet.Relocate`, `TarImageSet.Import` and `TarImageSet.Export`, with their concurrency: parameters of `CmdCopy.Run`. Creating the registry client is a parameter too.
- Logging and UI output.
- Names: `regname.ParseReference`, `NewTag` and `NewDigest` are replaced by a small grammar (a digest is `sha256:` and 64 lower-case hex digits; a repository is non-empty without `@`). Registry defaulting (`index.docker.io/library/`) and the name options are not modelled; `References.Reference` carries the options but does not interpret them.
- The `lockfiles` helpers that are not part of this model (`IsBundle` on an image, `GetReferencedImages`, `ReadLockFile`, the images lock's `CheckForBundles`, `BundleDir`, `ImageLockFile`): they are artifact fields or inputs. The lock-file bundle check is assumed to behave like `bundle/contents.go`'s `checkForBundles`. The constants `.imgpkg` and `images.yml` are assumed.
- `CmdCopy.ImagesLockFor`, `CmdCopy.BundleLockFor`, `CmdCopy.ImagesLockOutputValidates`, `CmdCopy.BundleLockOutputValidates`, `Copy2.Unprocessed`: the `lockfiles` records `ImageLock` and `BundleLock`, with their apiVersion and kind constants, are not part of this model. They are taken to be `LockConfig`'s records and constants (`imgpkg.carvel.dev/v1alpha1`, `ImagesLock`, `BundleLock`). The two `OutputValidates` lemmas hold only under that identification. A lock in the older `lockfiles` format, with another apiVersion, would not pass `LockConfig`'s validation.
- `ImageSet.UnprocessedImageURLs.Add`: the real collection may drop duplicates. Here it appends, so order and multiplicity follow the calls.
- `ProcessedImages` is taken as the sequence its `All` returns.
- `Walks.RepeatedPaths`: Go appends the groups in map-iteration order, which is unspecified. The contract says which paths are listed, not their order or multiplicity.
- `Walks.CheckRepeatedPaths`: Go iterates over a map, so the order of the repeated paths in the message is unspecified. The contract says which paths the message lists, not in what order or how often.
- `CmdCopy.Run`: the registry-creation error does not print the registry options.
- `Texts.Base`: unlike `filepath.Base`, it does not strip trailing '/' characters; input paths and walk entries are taken without a trailing separator.
- `Contents.excludedPaths` is carried but never read, as in the source.
- `Validate` (both locks) and `ForImage` are functions on values, so "read-only" holds by construction and has no separate lemma.
