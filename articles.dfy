/** Building one article from a feed entry: its images are downloaded and
    renamed, and an article whose cleaned HTML is empty is dropped. */
module Articles {
  import opened Wrappers
  import opened Images

  /** A parsed feed entry: its link, its title and its raw HTML content. */
  datatype Entry = Entry(link: string, title: string, content: string)

  /** The `Article` record: a fresh id and the entry's title. */
  datatype Article = Article(id: string, title: string)

  /** What `create_article` produces for an entry: `None` exactly when the
      cleaned HTML is empty, an exception exactly when it is not and some
      image download raised, and otherwise the article with the entry's
      title. */
  function ArticleOutcome(entry: Entry, id: string, cleaned: string, downloads: seq<Outcome<Download>>)
    : (r: Outcome<Option<Article>>)
    ensures r == Returned(None) <==> cleaned == ""
    ensures r.Raised? <==> cleaned != "" && exists i :: 0 <= i < |downloads| && downloads[i].Raised?
    ensures r.Returned? && r.value.Some? ==> r.value.value == Article(id, entry.title)
  {
    AllDownloadedIff(downloads, |downloads|);
    if cleaned == "" then Returned(None)
    else if AllDownloaded(downloads, |downloads|) then Returned(Some(Article(id, entry.title)))
    else Raised
  }

  /** `create_article(entry)`. `id` is the article's fresh uuid, `cleaned` what
      the HTML cleaner made of the entry's content, `imgs` the `<img>`
      elements of the parsed cleaned HTML in document order, `imageIds` one
      fresh uuid per element and `downloads` what each download returned.
      An empty `cleaned` returns `None` before any image is touched;
      otherwise every image is processed as by `CreateImages`. */
  method CreateArticle(entry: Entry, id: string, cleaned: string, imgs: seq<ImgElement>,
                       imageIds: seq<string>, downloads: seq<Outcome<Download>>, list: ImageList)
    returns (r: Outcome<Option<Article>>)
    requires |imageIds| == |imgs| && |downloads| == |imgs|
    requires forall i, j :: 0 <= i < j < |imgs| ==> imgs[i] != imgs[j]
    modifies imgs, list
    ensures r == ArticleOutcome(entry, id, cleaned, downloads)
    ensures cleaned == "" ==>
      list.images == old(list.images) && forall i :: 0 <= i < |imgs| ==> imgs[i].src == old(imgs[i].src)
    ensures cleaned != "" ==>
      list.images == old(list.images) + Fetched(imageIds, downloads, |imgs|)
      && forall i :: 0 <= i < |imgs| ==> imgs[i].src == NewSrc(old(imgs[i].src), imageIds[i], downloads[i])
  {
    if cleaned == "" {
      return Returned(None);
    }
    var ok := CreateImages(imgs, imageIds, downloads, list);
    if !ok {
      return Raised;
    }
    r := Returned(Some(Article(id, entry.title)));
  }
}
