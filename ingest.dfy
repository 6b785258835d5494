/** Feed ingestion: choosing the new entries of a feed against its stored
    `last_link`, building a section per feed, the magazine from all
    sections, and writing the settings back only when a magazine was made. */
module Ingest {
  import opened Wrappers
  import opened Sequences
  import opened Gather
  import opened Images
  import opened Articles

  /** `max_item` when a feed does not set it. */
  const DefaultMaxItem: int := 25
  /** The magazine title when the settings do not set one. */
  const DefaultTitle: string := "Rss"

  /** The `Section` record: the feed's title and the articles built for it. */
  datatype Section = Section(title: string, articles: seq<Article>)

  /** The `Magazine` record; `images` is the image list at the time the
      magazine is made. */
  datatype Magazine = Magazine(id: string, title: string, date: string, sections: seq<Section>, images: seq<Image>)

  /** One element of the settings' `feed_list`: its `url` and `title`, and the
      optional `last_link` and `max_item` keys. */
  datatype FeedState = FeedState(url: string, title: string, lastLink: Option<string>, maxItem: Option<int>)

  /** The settings: an optional `title` and the `feed_list`. */
  datatype Settings = Settings(title: Option<string>, feedList: seq<FeedState>)

  /** The predicate `find` is given: the entry's link equals the stored
      `last_link` (never true when there is none). */
  function IsWatermark(lastLink: Option<string>): Entry -> bool
  {
    (e: Entry) => Some(e.link) == lastLink
  }

  /** The entries `create_section` selects: of the first `maxItem` entries,
      those before the first one whose link is the stored `last_link`.
      Selection never looks past that window: its result is a prefix of the
      window, none of its entries carries the stored link, and it ends
      either at the end of the window or right before the entry that carries
      the stored link. */
  function Select(entries: seq<Entry>, lastLink: Option<string>, maxItem: int): (selected: seq<Entry>)
    ensures var window := Take(entries, maxItem);
      && IsPrefix(selected, window) && IsPrefix(selected, entries)
      && (0 <= maxItem ==> |selected| <= maxItem)
      && (forall i :: 0 <= i < |selected| ==> Some(selected[i].link) != lastLink)
      && (|selected| == |window| || Some(window[|selected|].link) == lastLink)
  {
    BeforeFirstStops(IsWatermark(lastLink), Take(entries, maxItem));
    BeforeFirst(IsWatermark(lastLink), Take(entries, maxItem))
  }

  /** What `create_section` returns for a feed in state `feed` whose fetch and
      parse produced `fetched`, when building an article from an entry gives
      `build(entry)`: the exception of the fetch or of an article, `None`
      exactly when nothing new was selected, and otherwise the feed's
      section, even when every article was dropped: its articles are the
      `create_article` results of the selected entries that are not `None`,
      in entry order, so at most one per selected entry. */
  function SectionOutcome(feed: FeedState, fetched: Outcome<seq<Entry>>, build: Entry -> Outcome<Option<Article>>)
    : (r: Outcome<Option<Section>>)
    ensures fetched.Raised? ==> r.Raised?
    ensures fetched.Returned? ==>
      var selected := Select(fetched.value, feed.lastLink, feed.maxItem.GetOr(DefaultMaxItem));
      && (r == Returned(None) <==> selected == [])
      && (r.Raised? <==> selected != [] && exists i :: 0 <= i < |selected| && build(selected[i]).Raised?)
      && (r.Returned? && r.value.Some? ==> r.value.value.title == feed.title && |r.value.value.articles| <= |selected|)
      && (r.Returned? && r.value.Some? ==>
            GatherAll(MapAll(build, selected)).Returned?
            && r.value.value.articles == Compact(GatherAll(MapAll(build, selected)).value))
  {
    match fetched
    case Raised => Raised
    case Returned(entries) =>
      var selected := Select(entries, feed.lastLink, feed.maxItem.GetOr(DefaultMaxItem));
      if selected == [] then Returned(None)
      else
        match AsyncMap(build, selected)
        case Raised => Raised
        case Returned(articles) => Returned(Some(Section(feed.title, articles)))
  }

  /** The feed's state after `create_section`. The cursor moves exactly when
      a section is returned, and then to the link of the feed's newest
      entry; no other field of the feed changes. */
  function FeedAfter(feed: FeedState, fetched: Outcome<seq<Entry>>, build: Entry -> Outcome<Option<Article>>)
    : (after: FeedState)
    ensures after.(lastLink := feed.lastLink) == feed
    ensures after.lastLink != feed.lastLink
      <==> SectionOutcome(feed, fetched, build).Returned? && SectionOutcome(feed, fetched, build).value.Some?
    ensures after.lastLink != feed.lastLink
      ==> fetched.Returned? && |fetched.value| > 0 && after.lastLink == Some(fetched.value[0].link)
  {
    if fetched.Raised? then feed
    else
      var selected := Select(fetched.value, feed.lastLink, feed.maxItem.GetOr(DefaultMaxItem));
      if selected == [] || AsyncMap(build, selected).Raised? then feed
      else feed.(lastLink := Some(selected[0].link))
  }

  /** Without a stored `last_link`, or with one that none of the first
      `maxItem` entries carries, all of them are selected: exactly
      `min(len(entries), maxItem)` entries when `maxItem` is not negative. */
  lemma SelectWithoutMatch(entries: seq<Entry>, lastLink: Option<string>, maxItem: int)
    requires forall i :: 0 <= i < |Take(entries, maxItem)| ==> Some(Take(entries, maxItem)[i].link) != lastLink
    ensures Select(entries, lastLink, maxItem) == Take(entries, maxItem)
    ensures 0 <= maxItem ==> |Select(entries, lastLink, maxItem)| == Min(|entries|, maxItem)
  {
    var window := Take(entries, maxItem);
    BeforeFirstWholeIff(IsWatermark(lastLink), window);
    assert forall i :: 0 <= i < |window| ==> !IsWatermark(lastLink)(window[i]);
  }

  /** With no stored `last_link` the whole window is selected. */
  lemma SelectWithoutWatermark(entries: seq<Entry>, maxItem: int)
    ensures Select(entries, None, maxItem) == Take(entries, maxItem)
    ensures 0 <= maxItem ==> |Select(entries, None, maxItem)| == Min(|entries|, maxItem)
  {
    SelectWithoutMatch(entries, None, maxItem);
  }

  /** When the newest entry is the stored `last_link`, nothing is new. */
  lemma SelectNothingNew(entries: seq<Entry>, maxItem: int)
    requires |entries| > 0
    ensures Select(entries, Some(entries[0].link), maxItem) == []
  {
    var window := Take(entries, maxItem);
    if window != [] {
      assert window[0] == entries[0];
    }
  }

  /** A non-empty selection starts with the newest entry of the feed. */
  lemma SelectStartsAtNewest(entries: seq<Entry>, lastLink: Option<string>, maxItem: int)
    requires Select(entries, lastLink, maxItem) != []
    ensures Select(entries, lastLink, maxItem)[0] == entries[0]
  {
  }

  /** A section is returned, and the cursor advanced, even when every
      selected entry was dropped as an article. */
  lemma SectionKeptWithoutArticles(feed: FeedState, entries: seq<Entry>, build: Entry -> Outcome<Option<Article>>)
    requires Select(entries, feed.lastLink, feed.maxItem.GetOr(DefaultMaxItem)) != []
    requires var selected := Select(entries, feed.lastLink, feed.maxItem.GetOr(DefaultMaxItem));
      forall i :: 0 <= i < |selected| ==> build(selected[i]) == Returned(None)
    ensures SectionOutcome(feed, Returned(entries), build) == Returned(Some(Section(feed.title, [])))
    ensures FeedAfter(feed, Returned(entries), build).lastLink == Some(entries[0].link)
  {
    var selected := Select(entries, feed.lastLink, feed.maxItem.GetOr(DefaultMaxItem));
    assert AsyncMap(build, selected).Returned?;
    var results := GatherAll(MapAll(build, selected)).value;
    assert forall i :: 0 <= i < |selected| ==> build(selected[i]) == Returned(results[i]);
    CompactAllAbsent(results);
  }

  /** Running `create_section` again on the same entries after it returned
      (a section or `None`) selects nothing and leaves the cursor alone. */
  lemma SecondRunSelectsNothing(feed: FeedState, fetched: Outcome<seq<Entry>>, build: Entry -> Outcome<Option<Article>>)
    requires SectionOutcome(feed, fetched, build).Returned?
    ensures SectionOutcome(FeedAfter(feed, fetched, build), fetched, build) == Returned(None)
    ensures FeedAfter(FeedAfter(feed, fetched, build), fetched, build) == FeedAfter(feed, fetched, build)
  {
    var after := FeedAfter(feed, fetched, build);
    if after != feed {
      SelectNothingNew(fetched.value, feed.maxItem.GetOr(DefaultMaxItem));
    }
  }

  /** A settings entry of `feed_list`, updated in place by `create_section`. */
  class Feed {
    var url: string
    var title: string
    var lastLink: Option<string>
    var maxItem: Option<int>

    constructor (state: FeedState)
      ensures State() == state
    {
      url := state.url;
      title := state.title;
      lastLink := state.lastLink;
      maxItem := state.maxItem;
    }

    function State(): FeedState
      reads this
    {
      FeedState(url, title, lastLink, maxItem)
    }
  }

  /** `create_section(feed)`: `fetched` is the parsed result of `get_feed`,
      or its exception after the retries; `build` gives the outcome of
      `create_article` for each entry. */
  method CreateSection(feed: Feed, fetched: Outcome<seq<Entry>>, build: Entry -> Outcome<Option<Article>>)
    returns (r: Outcome<Option<Section>>)
    modifies feed
    ensures r == SectionOutcome(old(feed.State()), fetched, build)
    ensures feed.State() == FeedAfter(old(feed.State()), fetched, build)
  {
    var title := feed.title;
    var lastLink := feed.lastLink;
    var maxItem := feed.maxItem.GetOr(DefaultMaxItem);
    if fetched.Raised? {
      return Raised;
    }
    var entries := Find(IsWatermark(lastLink), Take(fetched.value, maxItem));
    if entries == [] {
      return Returned(None);
    }
    var articles := AsyncMap(build, entries);
    if articles.Raised? {
      return Raised;
    }
    if entries != [] {
      feed.lastLink := Some(entries[0].link);
    }
    r := Returned(Some(Section(title, articles.value)));
  }

  /** `create_section` as the function `async_map` applies to each pair of a
      feed's state and its fetch result. */
  function SectionOf(build: Entry -> Outcome<Option<Article>>): ((FeedState, Outcome<seq<Entry>>)) -> Outcome<Option<Section>>
  {
    (p: (FeedState, Outcome<seq<Entry>>)) => SectionOutcome(p.0, p.1, build)
  }

  function Zip<A, B>(xs: seq<A>, ys: seq<B>): (r: seq<(A, B)>)
    requires |xs| == |ys|
    ensures |r| == |xs| && forall i :: 0 <= i < |r| ==> r[i] == (xs[i], ys[i])
  {
    seq(|xs|, i requires 0 <= i < |xs| => (xs[i], ys[i]))
  }

  /** What `create_Magazine` returns for feeds in states `feeds`. The run
      raises exactly when some feed's section raised. Otherwise `results`
      holds each feed's section or `None` at the feed's position; a magazine
      is made exactly when one of them is a section, and its sections are
      `filter(None, results)`, so they keep feed-list order
      (`CompactKeepsOrder`). */
  function MagazineOutcome(title: Option<string>, id: string, date: string, feeds: seq<FeedState>,
                           fetched: seq<Outcome<seq<Entry>>>, build: Entry -> Outcome<Option<Article>>,
                           images: seq<Image>): (r: Outcome<Option<Magazine>>)
    requires |fetched| == |feeds|
    ensures r.Raised? <==> exists i :: 0 <= i < |feeds| && SectionOutcome(feeds[i], fetched[i], build).Raised?
    ensures r.Returned? ==> GatherAll(SectionResults(feeds, fetched, build)).Returned?
    ensures r.Returned? ==>
      var results := GatherAll(SectionResults(feeds, fetched, build)).value;
      && |results| == |feeds|
      && (forall i :: 0 <= i < |feeds| ==> SectionOutcome(feeds[i], fetched[i], build) == Returned(results[i]))
      && (r.value.Some? <==> exists i :: 0 <= i < |feeds| && results[i].Some?)
      && (r.value.Some? ==> r.value.value.sections == Compact(results) && r.value.value.images == images)
  {
    var outcomes := SectionResults(feeds, fetched, build);
    GatherAllSpec(outcomes);
    match AsyncMap(SectionOf(build), Zip(feeds, fetched))
    case Raised => Raised
    case Returned(sections) =>
      CompactEmptyIff(GatherAll(outcomes).value);
      if sections == [] then Returned(None)
      else Returned(Some(Magazine(id, title.GetOr(DefaultTitle), date, sections, images)))
  }

  /** Every feed's state after `create_Magazine`. */
  function FeedsAfter(feeds: seq<FeedState>, fetched: seq<Outcome<seq<Entry>>>, build: Entry -> Outcome<Option<Article>>)
    : (r: seq<FeedState>)
    requires |fetched| == |feeds|
    ensures |r| == |feeds| && forall i :: 0 <= i < |r| ==> r[i] == FeedAfter(feeds[i], fetched[i], build)
  {
    seq(|feeds|, i requires 0 <= i < |feeds| => FeedAfter(feeds[i], fetched[i], build))
  }

  /** A magazine carries the id and date it was made with, the configured
      title, or "Rss" when none is set, and the image list. */
  lemma MagazineRecord(title: Option<string>, id: string, date: string, feeds: seq<FeedState>,
                      fetched: seq<Outcome<seq<Entry>>>, build: Entry -> Outcome<Option<Article>>,
                      images: seq<Image>)
    requires |fetched| == |feeds|
    ensures var r := MagazineOutcome(title, id, date, feeds, fetched, build, images);
      r.Returned? && r.value.Some? ==>
        r.value.value == Magazine(id, title.GetOr(DefaultTitle), date, r.value.value.sections, images)
  {
  }

  /** A feed whose fetch raised makes the whole run raise: no feed's failure
      is absorbed. */
  lemma FetchFailureAbortsRun(title: Option<string>, id: string, date: string, feeds: seq<FeedState>,
                              fetched: seq<Outcome<seq<Entry>>>, build: Entry -> Outcome<Option<Article>>,
                              images: seq<Image>, failed: nat)
    requires |fetched| == |feeds| && failed < |feeds| && fetched[failed].Raised?
    ensures MagazineOutcome(title, id, date, feeds, fetched, build, images) == Raised
  {
    assert SectionOutcome(feeds[failed], fetched[failed], build).Raised?;
  }

  /** Running again with the feed states a run left and no new upstream
      entries produces no magazine. */
  lemma RerunMakesNoMagazine(title: Option<string>, id: string, date: string, feeds: seq<FeedState>,
                             fetched: seq<Outcome<seq<Entry>>>, build: Entry -> Outcome<Option<Article>>,
                             images: seq<Image>, id2: string, date2: string, images2: seq<Image>)
    requires |fetched| == |feeds|
    requires MagazineOutcome(title, id, date, feeds, fetched, build, images).Returned?
    ensures MagazineOutcome(title, id2, date2, FeedsAfter(feeds, fetched, build), fetched, build, images2) == Returned(None)
  {
    var after := FeedsAfter(feeds, fetched, build);
    forall i | 0 <= i < |feeds|
      ensures SectionOutcome(after[i], fetched[i], build) == Returned(None)
    {
      SecondRunSelectsNothing(feeds[i], fetched[i], build);
    }
    var second := MagazineOutcome(title, id2, date2, after, fetched, build, images2);
    assert !second.Raised?;
    var results := GatherAll(SectionResults(after, fetched, build)).value;
    assert forall i :: 0 <= i < |after| ==> results[i] == None;
    assert !exists i :: 0 <= i < |after| && results[i].Some?;
    assert second.value.None?;
  }

  /** The states of a sequence of feeds, in order. */
  function States(feeds: seq<Feed>): (r: seq<FeedState>)
    reads set f | f in feeds
    ensures |r| == |feeds| && forall i :: 0 <= i < |feeds| ==> r[i] == feeds[i].State()
  {
    if feeds == [] then [] else [feeds[0].State()] + States(feeds[1..])
  }

  /** The outcome of `create_section` for each feed, in feed-list order. */
  function SectionResults(feeds: seq<FeedState>, fetched: seq<Outcome<seq<Entry>>>, build: Entry -> Outcome<Option<Article>>)
    : (r: seq<Outcome<Option<Section>>>)
    requires |fetched| == |feeds|
    ensures |r| == |feeds| && forall i :: 0 <= i < |r| ==> r[i] == SectionOutcome(feeds[i], fetched[i], build)
  {
    MapAll(SectionOf(build), Zip(feeds, fetched))
  }

  /** The `asyncio.gather` of `create_section` over the feed list, run one
      feed after another: each feed's section outcome, in feed-list order,
      with every feed's cursor moved as its own `create_section` moves it. */
  method CreateSections(feeds: seq<Feed>, fetched: seq<Outcome<seq<Entry>>>, build: Entry -> Outcome<Option<Article>>)
    returns (outcomes: seq<Outcome<Option<Section>>>)
    requires |fetched| == |feeds|
    requires forall i, j :: 0 <= i < j < |feeds| ==> feeds[i] != feeds[j]
    modifies feeds
    ensures |outcomes| == |feeds|
    ensures forall k :: 0 <= k < |feeds| ==> outcomes[k] == SectionOutcome(old(feeds[k].State()), fetched[k], build)
    ensures forall k :: 0 <= k < |feeds| ==> feeds[k].State() == FeedAfter(old(feeds[k].State()), fetched[k], build)
  {
    outcomes := [];
    for i := 0 to |feeds|
      invariant |outcomes| == i
      invariant forall k :: 0 <= k < i ==> outcomes[k] == SectionOutcome(old(feeds[k].State()), fetched[k], build)
      invariant forall k :: 0 <= k < i ==> feeds[k].State() == FeedAfter(old(feeds[k].State()), fetched[k], build)
      invariant forall k :: i <= k < |feeds| ==> feeds[k].State() == old(feeds[k].State())
    {
      label Head:
      var section := CreateSection(feeds[i], fetched[i], build);
      assert forall k :: 0 <= k < |feeds| && k != i ==> feeds[k].State() == old@Head(feeds[k].State());
      outcomes := outcomes + [section];
    }
  }

  /** Per-feed outcomes and states, gathered into the sequences the
      magazine is specified with. */
  lemma GatheredInFeedOrder(before: seq<FeedState>, after: seq<FeedState>, fetched: seq<Outcome<seq<Entry>>>,
                            build: Entry -> Outcome<Option<Article>>, outcomes: seq<Outcome<Option<Section>>>)
    requires |before| == |after| == |fetched| == |outcomes|
    requires forall k :: 0 <= k < |before| ==> outcomes[k] == SectionOutcome(before[k], fetched[k], build)
    requires forall k :: 0 <= k < |before| ==> after[k] == FeedAfter(before[k], fetched[k], build)
    ensures outcomes == SectionResults(before, fetched, build)
    ensures after == FeedsAfter(before, fetched, build)
  {
  }

  /** `create_Magazine(setting)`: every feed's section is built (each may
      move its own cursor), then the magazine is made when at least one
      section is left. `fetched[i]` is what fetching feed `i` gave; `id` and
      `date` are the magazine's fresh uuid and today's date. */
  method CreateMagazine(title: Option<string>, feeds: seq<Feed>, fetched: seq<Outcome<seq<Entry>>>,
                        build: Entry -> Outcome<Option<Article>>, id: string, date: string, list: ImageList)
    returns (r: Outcome<Option<Magazine>>)
    requires |fetched| == |feeds|
    requires forall i, j :: 0 <= i < j < |feeds| ==> feeds[i] != feeds[j]
    modifies feeds
    ensures r == MagazineOutcome(title, id, date, old(States(feeds)), fetched, build, list.images)
    ensures States(feeds) == FeedsAfter(old(States(feeds)), fetched, build)
  {
    ghost var before := States(feeds);
    var outcomes := CreateSections(feeds, fetched, build);
    GatheredInFeedOrder(before, States(feeds), fetched, build, outcomes);
    match GatherAll(outcomes)
    case Raised =>
      r := Raised;
    case Returned(results) =>
      var sections := Compact(results);
      if sections == [] {
        r := Returned(None);
      } else {
        r := Returned(Some(Magazine(id, title.GetOr(DefaultTitle), date, sections, list.images)));
      }
  }

  /** The script's entry point: make the magazine from the loaded settings
      and dump the settings, with their moved cursors, back to the settings
      file only when a magazine was made. `dumped` is what `dump_json`
      writes, or `None` when it is not called; a raised exception ends the
      run without writing anything. */
  method Run(title: Option<string>, feeds: seq<Feed>, fetched: seq<Outcome<seq<Entry>>>,
             build: Entry -> Outcome<Option<Article>>, id: string, date: string, list: ImageList)
    returns (r: Outcome<Option<Magazine>>, dumped: Option<Settings>)
    requires |fetched| == |feeds|
    requires forall i, j :: 0 <= i < j < |feeds| ==> feeds[i] != feeds[j]
    modifies feeds
    ensures r == MagazineOutcome(title, id, date, old(States(feeds)), fetched, build, list.images)
    ensures States(feeds) == FeedsAfter(old(States(feeds)), fetched, build)
    ensures dumped == if r.Returned? && r.value.Some? then Some(Settings(title, States(feeds))) else None
  {
    r := CreateMagazine(title, feeds, fetched, build, id, date, list);
    if r.Returned? && r.value.Some? {
      dumped := Some(Settings(title, States(feeds)));
    } else {
      dumped := None;
    }
  }
}
