/** Downloaded images: naming each one `{id}.{ext}`, pointing its `<img>`
    element at that name and recording it in the module-wide image list. */
module Images {
  import opened Wrappers
  import opened Media
  import opened Sequences

  /** The `Image` record: its id, the file name it is stored under, and the
      media type the server reported. */
  datatype Image = Image(id: string, name: string, mediaType: string)

  /** What `download_image` returns: the body and the `Content-Type` header. */
  datatype Download = Download(content: seq<bv8>, mediaType: string)

  /** A record is well named when its file name is built from its id and the
      extension of its media type. */
  predicate WellNamed(im: Image) {
    im.name == ImageName(im.id, im.mediaType)
  }

  /** An `<img>` element of a parsed article; only its `src` is modelled. */
  class ImgElement {
    var src: string

    constructor (src: string)
      ensures this.src == src
    {
      this.src := src;
    }
  }

  /** The module-global `image_list`, appended to by every processed image. */
  class ImageList {
    var images: seq<Image>

    constructor ()
      ensures images == []
    {
      images := [];
    }
  }

  /** `create_image(img)`: download the image at `img.src`; when the download
      raises, the exception propagates and nothing is changed; otherwise the
      element's `src` becomes `{id}.{ext}` and one record with that same name
      is appended to the image list. `id` is the fresh uuid of the call. */
  method CreateImage(img: ImgElement, id: string, download: Outcome<Download>, list: ImageList)
    returns (ok: bool)
    modifies img, list
    ensures ok <==> download.Returned?
    ensures ok ==> (img.src == ImageName(id, download.value.mediaType)
                    && list.images == old(list.images) + [Image(id, img.src, download.value.mediaType)])
    ensures !ok ==> img.src == old(img.src) && list.images == old(list.images)
  {
    if download.Raised? {
      return false;
    }
    var name := ImageName(id, download.value.mediaType);
    img.src := name;
    list.images := list.images + [Image(id, name, download.value.mediaType)];
    ok := true;
  }

  /** The record `create_image` appends for one image: one well-named
      record when its download returned, none when it raised. */
  function Added(id: string, download: Outcome<Download>): seq<Image>
  {
    if download.Returned? then [Image(id, ImageName(id, download.value.mediaType), download.value.mediaType)] else []
  }

  /** The records that processing the first `n` images of one article adds,
      in document order: one per download that did not raise. */
  function Fetched(ids: seq<string>, downloads: seq<Outcome<Download>>, n: nat): (added: seq<Image>)
    requires n <= |ids| == |downloads|
    ensures |added| <= n
  {
    if n == 0 then [] else Fetched(ids, downloads, n - 1) + Added(ids[n - 1], downloads[n - 1])
  }

  /** Every record added to the image list is named after its own id and
      the extension of its own media type. */
  lemma {:induction false} FetchedWellNamed(ids: seq<string>, downloads: seq<Outcome<Download>>, n: nat)
    requires n <= |ids| == |downloads|
    ensures forall k :: 0 <= k < |Fetched(ids, downloads, n)| ==> WellNamed(Fetched(ids, downloads, n)[k])
  {
    if n > 0 {
      FetchedWellNamed(ids, downloads, n - 1);
    }
  }

  /** When every download succeeds, the list grows by exactly one record per
      image, carrying that image's id and name, in document order. */
  lemma {:induction false} FetchedAll(ids: seq<string>, downloads: seq<Outcome<Download>>, n: nat)
    requires n <= |ids| == |downloads|
    requires forall i :: 0 <= i < n ==> downloads[i].Returned?
    ensures |Fetched(ids, downloads, n)| == n
    ensures forall i :: 0 <= i < n ==>
      Fetched(ids, downloads, n)[i] == Image(ids[i], ImageName(ids[i], downloads[i].value.mediaType), downloads[i].value.mediaType)
  {
    if n > 0 {
      FetchedAll(ids, downloads, n - 1);
      var front := Fetched(ids, downloads, n - 1);
      var last := Image(ids[n - 1], ImageName(ids[n - 1], downloads[n - 1].value.mediaType), downloads[n - 1].value.mediaType);
      assert Fetched(ids, downloads, n) == front + [last];
      forall i | 0 <= i < n
        ensures Fetched(ids, downloads, n)[i]
          == Image(ids[i], ImageName(ids[i], downloads[i].value.mediaType), downloads[i].value.mediaType)
      {
        if i < n - 1 {
          assert Fetched(ids, downloads, n)[i] == front[i];
        }
      }
    }
  }

  /** The first `n` downloads all returned. */
  predicate AllDownloaded(downloads: seq<Outcome<Download>>, n: nat)
    requires n <= |downloads|
  {
    n == 0 || (AllDownloaded(downloads, n - 1) && downloads[n - 1].Returned?)
  }

  lemma {:induction false} AllDownloadedIff(downloads: seq<Outcome<Download>>, n: nat)
    requires n <= |downloads|
    ensures AllDownloaded(downloads, n) <==> forall i :: 0 <= i < n ==> downloads[i].Returned?
  {
    if n > 0 {
      AllDownloadedIff(downloads, n - 1);
    }
  }

  /** The `src` an element ends with: the stored name when its download
      succeeded, its old value otherwise. */
  function NewSrc(src: string, id: string, download: Outcome<Download>): string {
    if download.Returned? then ImageName(id, download.value.mediaType) else src
  }

  /** `async_map(create_image, img_list)`: process every `<img>` element of
      one article. Each element whose download succeeds is renamed to
      `{id}.{ext}` and recorded; an element whose download raises keeps its
      `src`, and the exception makes the whole call raise (`ok` is false).
      `ids` are the fresh uuids, one per element. */
  method CreateImages(imgs: seq<ImgElement>, ids: seq<string>, downloads: seq<Outcome<Download>>, list: ImageList)
    returns (ok: bool)
    requires |ids| == |imgs| && |downloads| == |imgs|
    requires forall i, j :: 0 <= i < j < |imgs| ==> imgs[i] != imgs[j]
    modifies imgs, list
    ensures ok <==> AllDownloaded(downloads, |downloads|)
    ensures forall i :: 0 <= i < |imgs| ==> imgs[i].src == NewSrc(old(imgs[i].src), ids[i], downloads[i])
    ensures list.images == old(list.images) + Fetched(ids, downloads, |imgs|)
  {
    ok := true;
    for i := 0 to |imgs|
      invariant ok <==> AllDownloaded(downloads, i)
      invariant forall k :: 0 <= k < i ==> imgs[k].src == NewSrc(old(imgs[k].src), ids[k], downloads[k])
      invariant forall k :: i <= k < |imgs| ==> imgs[k].src == old(imgs[k].src)
      invariant list.images == old(list.images) + Fetched(ids, downloads, i)
    {
      label Head:
      var done := CreateImage(imgs[i], ids[i], downloads[i], list);
      assert list.images == old@Head(list.images) + Added(ids[i], downloads[i]);
      AppendAssociates(old(list.images), Fetched(ids, downloads, i), Added(ids[i], downloads[i]));
      assert imgs[i].src == NewSrc(old@Head(imgs[i].src), ids[i], downloads[i]);
      assert forall k :: 0 <= k < |imgs| && k != i ==> imgs[k].src == old@Head(imgs[k].src);
      assert AllDownloaded(downloads, i + 1) == (AllDownloaded(downloads, i) && done);
      ok := ok && done;
    }
  }
}
