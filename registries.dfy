/** The registry the core talks to, as a value: which references can be fetched and what the
    fetched artifact answers. It stands in for `image.Registry` (`Image`, `Generic`) and for the
    `lockfiles` helpers `IsBundle` and `GetReferencedImages`, none of which the model defines. */
module Registries {
  import opened Failures

  /** The manifest annotation that marks an image as a bundle (`image.BundleAnnotation`;
      `bundle.BundleConfigLabel` names the same key). */
  const BundleAnnotation := "dev.carvel.imgpkg.bundle"

  datatype Kind = ImageKind | IndexKind

  /** What the registry returns for one reference. */
  datatype Artifact = Artifact(
    kind: Kind,
    digest: Option<string>,                     // Digest(); None when it fails
    annotations: Option<map<string, string>>,   // Manifest().Annotations; None when Manifest() fails
    bundleLabel: Option<bool>,                  // what lockfiles.IsBundle answers; None when it fails
    embeddedImages: Option<seq<string>>)        // lockfiles.GetReferencedImages; None when it fails

  /** Artifacts by the reference text they are fetched under; a reference that is not a key
      cannot be fetched. */
  datatype Registry = Registry(artifacts: map<string, Artifact>)

  predicate Exists(reg: Registry, ref: string) {
    ref in reg.artifacts
  }

  function FetchError(ref: string): Error {
    Foreign("fetching " + ref)
  }

  /** `registry.Image(ref)`: succeeds for an image, fails for an index or a missing reference. */
  function Image(reg: Registry, ref: string): Result<Artifact> {
    if ref in reg.artifacts && reg.artifacts[ref].kind == ImageKind then Ok(reg.artifacts[ref])
    else Err(FetchError(ref))
  }

  /** `registry.Generic(ref)`: the existence check; succeeds for any artifact that is there. */
  function Generic(reg: Registry, ref: string): Result<Artifact> {
    if Exists(reg, ref) then Ok(reg.artifacts[ref]) else Err(FetchError(ref))
  }

  /** `lockfiles.IsBundle(img)`. */
  function LabelledBundle(a: Artifact): Result<bool> {
    match a.bundleLabel
    case Some(b) => Ok(b)
    case None => Err(Foreign("checking bundle label"))
  }

  /** `lockfiles.GetReferencedImages(ref, reg)`: the image URLs of the bundle's embedded lock. */
  function ReferencedImages(reg: Registry, ref: string): Result<seq<string>> {
    if ref in reg.artifacts && reg.artifacts[ref].embeddedImages.Some? then
      Ok(reg.artifacts[ref].embeddedImages.value)
    else Err(Foreign("reading images lock of " + ref))
  }
}
