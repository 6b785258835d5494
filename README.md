# Rss2Kindle feed ingestion, modelled in Dafny

Rss2Kindle reads a settings file listing RSS/Atom feeds, fetches every feed,
picks each feed's entries that are newer than the link it stored last time
(`last_link`), turns them into articles with their images renamed and
recorded, groups the articles into one section per feed and the sections
into a magazine, and writes the settings back, with the moved `last_link`
cursors, only when a magazine was produced. This project models that
bookkeeping in `main.py` and proves what it guarantees.

Modules, one per concern of `main.py`:

- `Wrappers` (`wrappers.dfy`): `Option` for Python's `None`, and
  `Outcome` (`Returned(value)` or `Raised`) for a call that returns or lets
  an exception propagate.
- `Sequences` (`sequences.dfy`): `find` as a loop (`Find`) proved equal to
  the reference definition `BeforeFirst`, and Python's slice `s[:n]` (`Take`),
  including negative `n`.
- `Gather` (`gather.dfy`): `async_map` as `asyncio.gather` (any exception
  wins, results stay in input order) followed by `filter(None, ...)`.
- `Media` (`media.dfy`): `postfix`, on top of a model of `str.split` with a
  one-character separator, and the image file name `{id}.{ext}`.
- `Images` (`images.dfy`): `create_image` and the `async_map` over an
  article's `<img>` elements, on `ImgElement` objects (their `src` is
  rewritten in place) and the module-global `image_list` (an `ImageList`
  object whose `images` sequence is appended to).
- `Articles` (`articles.dfy`): `create_article`: an empty cleaned body gives
  `None`, otherwise every image is processed and an image whose download
  raised makes the article raise.
- `Ingest` (`ingest.dfy`): the selection against `last_link`,
  `create_section` on a `Feed` object that it updates in place,
  `create_Magazine`, and the entry point that saves the settings.

The imperative parts (`Find`, `CreateImage`, `CreateImages`,
`CreateArticle`, `CreateSection`, `CreateSections`, `CreateMagazine`, `Run`)
are proved against the functions `BeforeFirst`, `Fetched`, `NewSrc`,
`ArticleOutcome`, `SectionOutcome`, `FeedAfter`, `MagazineOutcome` and
`FeedsAfter`, and the lemmas state the properties of those functions.

Behaviour of the code that the model follows, and that a reader might not
expect:

- Nothing is absorbed: a feed whose fetch still fails after its retries, or
  an image whose download still fails, raises through `asyncio.gather` and
  ends the whole run, so no settings are written (`FetchFailureAbortsRun`).
  There is no placeholder image for a failed download.
- A feed with new entries yields a `Section` unless one of its articles
  raised, even when every article returned `None`, and its cursor then moves
  to the newest entry
  (`SectionKeptWithoutArticles`); the `Section` record is truthy, so the
  magazine keeps it.
- An article is dropped only when the cleaned HTML is empty.
- The image list is one list for the whole run, not one per article.

## Model

| member | source | states |
|---|---|---|
| Sequences.Find | main.py:170-175 | the result is a prefix of the input in which no element satisfies the predicate, ending at the input's end or right before a matching element; it equals `BeforeFirst` |
| Sequences.BeforeFirstStops | main.py:170-175 | the reference definition of `find` stops exactly at the first match: prefix, no match inside, end of input or a match right after |
| Sequences.StopIsUnique | main.py:170-175 | at most one prefix stops at the first match, so that characterisation determines `find` |
| Sequences.BeforeFirstWholeIff | main.py:175 | `find` returns the whole input if and only if no element satisfies the predicate |
| Sequences.BeforeFirstAtMatch | main.py:170-175 | when the first matching element of a sequence follows a run of non-matching ones, `find` gives back exactly that run |
| Sequences.Take | main.py:51 | `entries[:max_item]` is a prefix of the entries of length `min(max_item, len)` for a non-negative count and `max(0, len + max_item)` for a negative one |
| Gather.GatherAllSpec | main.py:167 | gathering raises if and only if some call raised; otherwise result `i` is call `i`'s result |
| Gather.CompactKeepsOrder | main.py:167 | `filter(None, ...)` keeps exactly the present results, at strictly increasing input positions, so in input order, and never more than it was given |
| Gather.AsyncMap | main.py:166-167 | `async_map` raises if and only if a call raised; otherwise it is the filter of the results in input order, no longer than the input, and as long as the input when no call returned `None` |
| Gather.CompactAllPresent | main.py:167 | when no result is `None` the filter keeps every result at its position |
| Gather.CompactAllAbsent | main.py:167 | when every result is `None` the filter leaves nothing |
| Gather.CompactEmptyIff | main.py:167 | the filter leaves nothing if and only if every result is `None` |
| Media.Split | main.py:106 | `str.split` with a separator never returns an empty list |
| Media.JoinSplit | main.py:106 | joining the pieces of `s.split(sep)` with `sep` gives back `s` |
| Media.SplitPiecesLackSeparator | main.py:106 | no piece of `s.split(sep)` contains `sep` |
| Media.LastPieceIsAfterLast | main.py:106 | `s.split(sep)[-1]` is the suffix of `s` after its last `sep`, or all of `s` when it has none |
| Media.SplitInOnePiece | main.py:106 | a string that `split` leaves in one piece has no separator and is that piece |
| Media.SplitInPiecesHasSeparator | main.py:106 | a string that `split` cuts into more than one piece contains the separator |
| Media.LastPieceOfLongerSplit | main.py:106 | when `s[1..]` splits into several pieces, or `s` starts with the separator, the last piece of `s` is still the text after its last separator |
| Media.PostfixSpec | main.py:103-106 | `postfix("image/jpeg")` is `"jpg"`; for any other media type it is the text after the last `/`, or the whole type when there is no `/` |
| Media.ImageName | main.py:95 | for a dot-free id the text of `{id}.{ext}` before its first dot is the id again |
| Media.DistinctIdsGiveDistinctNames | main.py:95 | images with different dot-free ids get different `{id}.{ext}` file names, whatever their media types |
| Images.ImgElement.constructor | main.py:92 | an element starts with the given `src` |
| Images.ImageList.constructor | main.py:20 | the image list starts empty |
| Images.CreateImage | main.py:90-100 | a download that raises changes nothing and raises; otherwise `src` becomes `{id}.{postfix(media_type)}` and the list grows by exactly one record carrying that id, that same name and the media type |
| Images.Fetched | main.py:100 | the records an article adds are at most one per image |
| Images.FetchedWellNamed | main.py:95-100 | every record added to the image list is named `{id}.{postfix(media_type)}` after its own id and media type |
| Images.FetchedAll | main.py:79-81 | when every download succeeds the list grows by exactly one record per image, in document order, each with that image's id and name |
| Images.AllDownloadedIff | main.py:79-81 | the images of an article count as all downloaded exactly when every one of their downloads returned |
| Images.CreateImages | main.py:79-81 | each element whose download succeeded points at its new name and the others keep their `src`; the list grows by the records of the successful downloads; the call raises if and only if some download raised |
| Articles.ArticleOutcome | main.py:66-87 | `create_article` returns `None` if and only if the cleaned body is empty, raises if and only if the body is not empty and some image download raised, and otherwise returns an article with the fresh id and the entry's title |
| Articles.CreateArticle | main.py:66-87 | an empty cleaned body returns `None` and touches no image; otherwise all images are processed and the article is returned if and only if no download raised |
| Ingest.Select | main.py:44-52 | the selection is a prefix of the first `max_item` entries, none of its entries has the stored link, and it ends at the end of that window or right before the entry with the stored link |
| Ingest.SectionOutcome | main.py:43-63 | `create_section` raises when the fetch raised; after a fetch that returned, it returns `None` if and only if nothing new was selected, raises if and only if something was selected and an article of the selection raised, and otherwise returns a section with the feed's title whose articles are the `create_article` results of the selected entries that are not `None`, in entry order, at most one per selected entry |
| Ingest.SelectWithoutMatch | main.py:49-52 | when none of the first `max_item` entries has the stored link, all of them are selected, `min(len(entries), max_item)` for a non-negative `max_item` |
| Ingest.SelectWithoutWatermark | main.py:45-52 | with no `last_link` the selection is the whole window of `min(len(entries), max_item)` entries |
| Ingest.SelectNothingNew | main.py:49-54 | when the newest entry's link is the stored `last_link`, nothing is selected |
| Ingest.SelectStartsAtNewest | main.py:49-52 | a non-empty selection starts with the feed's newest entry |
| Ingest.FeedAfter | main.py:53-63 | `last_link` changes if and only if a section is returned, then to the newest entry's link, and no other field of the feed changes |
| Ingest.SectionKeptWithoutArticles | main.py:56-63 | with a non-empty selection a section with an empty article list is returned even when every article was dropped, and the cursor still moves |
| Ingest.SecondRunSelectsNothing | main.py:43-63 | after a `create_section` that returned, running it again on the same entries returns `None` and leaves the cursor where it is |
| Ingest.Feed.constructor | main.py:43-46 | a feed object holds the given url, title, `last_link` and `max_item` |
| Ingest.CreateSection | main.py:43-63 | the result is the section outcome of the feed's old state and the feed's new state is that old state with `last_link` moved as `FeedAfter` says |
| Ingest.MagazineOutcome | main.py:23-40 | the run raises if and only if some feed's section raised; otherwise a magazine exists if and only if some feed returned a section, holding the filtered section results in feed-list order and the image list; its id, date and title are stated by `Ingest.MagazineRecord` |
| Ingest.MagazineRecord | main.py:24-31 | a returned magazine carries the id and date it was made with, the configured title or `"Rss"` when none is set, and the image list |
| Ingest.FetchFailureAbortsRun | main.py:28 | a single feed whose fetch raised makes the whole run raise |
| Ingest.RerunMakesNoMagazine | main.py:23-63 | running again from the feed states a run left, with no new upstream entries, produces no magazine |
| Ingest.CreateSections | main.py:28 | the outcomes are each feed's section outcome in feed-list order and every feed's cursor is moved as its own `create_section` moves it |
| Ingest.CreateMagazine | main.py:23-40 | the result is the magazine outcome of the feeds' old states and the feeds end in their moved states |
| Ingest.Run | main.py:189-196 | the settings, with the title and the feeds' moved cursors, are dumped exactly when a magazine was made, and nothing is dumped otherwise, including when the run raised; the result is the magazine outcome of the feeds' old states |

## Left out

- HTTP fetching with three attempts and a random 1–3 second wait (`get_feed`, `download_image`, main.py:114-131): network I/O. Each fetch or download is an input that either returns or raises after the retries.
- Feed parsing with `feedparser.parse` (main.py:48) and the choice between `description` and `content[0].value` (main.py:69-71): a foreign library. Entries are given as records with a link, a title and content.
- HTML cleaning (`clean_html`, main.py:108-111), parsing with lxml and the `//img` query (main.py:77-78) and serialising the document back (main.py:83): a foreign library. The cleaned text and the document's `<img>` elements are inputs.
- Writing the article, image, manifest and table-of-contents files (main.py:85, 96-97, 134-163) and loading and dumping the JSON settings (main.py:178-186), and `print(1)`: file and template I/O. `Ingest.Run` returns the settings it would dump, or `None` when it dumps nothing.
- Exceptions from I/O the model leaves out: inside `create_article`, reading `entry.title` or `entry.content[0].value` (main.py:68, 71), the HTML cleaner and the lxml parser (main.py:73, 77, 111), `write_article` (main.py:85) and a failed write of an image file (main.py:96-97); and, after the magazine is built, a failed write of its content and table-of-contents files (main.py:33-37). Each of them propagates and ends the run before the settings are dumped. The `build` parameter may raise for any entry, which covers the ones inside `create_article` as far as sections and the run are concerned, but `Articles.ArticleOutcome` does not model where they come from.
- Ingest.Run: a failed write of the magazine's files is not modelled, so `Run` dumps the settings whenever a magazine is made, where the program dumps them only when those writes also succeed.
- uuid generation and the date string (main.py:25, 31, 67, 91): the ids and the date are parameters.
- Concurrency: every `asyncio.gather` is modelled as running its calls one after another. In the program, records are appended to the image list in the order downloads complete, and the model appends them in document order. When a call raises, which sibling calls still finish depends on scheduling, and the model lets all of them finish; the resulting in-memory state is never saved.
- Ingest.CreateSection: the outcome of `create_article` for each entry is the parameter `build`, so the image-list growth caused by the articles of a section is modelled by `Articles.CreateArticle` on its own and not composed into the section or magazine methods.
- Ingest.MagazineOutcome: the magazine holds a snapshot of the image list; the program holds a reference to the same list object.
- A `max_item` that is not an integer (JSON `null` makes the slice keep every entry) and missing `title`, `url` or `feed_list` keys (a `KeyError`) are not modelled.
- Only `None` is treated as falsy by `filter(None, ...)`; the records filtered in `main.py` are named tuples with fields, which are always truthy.
