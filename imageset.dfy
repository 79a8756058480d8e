/** Package `imageset`: the image list with its first-match lookup, and the copy requests
    (`UnprocessedImageURL`) and copy results (`ProcessedImage`) the copy command passes around. */
module ImageSet {
  import opened Failures

  /** `imageset.Image`; `metasRaw` keeps the decoded metadata opaque. */
  datatype Image = Image(url: string, metasRaw: seq<string>)

  /** The zero `Image{}`. */
  const NoImage := Image("", [])

  /** `Images.ForImage(url)`: the earliest image with that URL, or the zero image and false. */
  function ForImage(imgs: seq<Image>, url: string): (r: (Image, bool))
    ensures r.1 <==> exists i | 0 <= i < |imgs| :: imgs[i].url == url
    ensures r.1 ==> exists i | 0 <= i < |imgs| ::
                      imgs[i] == r.0 && forall j | 0 <= j < i :: imgs[j].url != url
    ensures r.1 ==> r.0.url == url
    ensures !r.1 ==> r.0 == NoImage
  {
    if imgs == [] then (NoImage, false)
    else if imgs[0].url == url then (imgs[0], true)
    else
      var r := ForImage(imgs[1..], url);
      assert forall i | 1 <= i < |imgs| :: imgs[i] == imgs[1..][i - 1];
      r
  }

  /** One copy request: a URL and the tag to give it at the destination ("" for none). */
  datatype UnprocessedImageURL = UnprocessedImageURL(url: string, tag: string)

  /** One finished copy: the request and the image written for it. */
  datatype ProcessedImage = ProcessedImage(unprocessed: UnprocessedImageURL, image: Image)

  /** The collection of copy requests that `collectURLs` and the collocation check fill.
      Its `Add` is modelled as appending (the de-duplication of the real collection is not
      part of the model), and `All` lists the requests in the order they were added. */
  class UnprocessedImageURLs {
    var urls: seq<UnprocessedImageURL>

    constructor ()
      ensures urls == []
    {
      urls := [];
    }

    function All(): seq<UnprocessedImageURL>
      reads this
    {
      urls
    }

    method Add(u: UnprocessedImageURL)
      modifies this
      ensures urls == old(urls) + [u]
    {
      urls := urls + [u];
    }
  }
}
