/**
 * The catalog operations the request handlers share: the tag index, the
 * flattened episode listing with its three filters and date order, feed
 * summaries and lookups, setting tags, and the sorted union of all tags.
 */
module Catalog {
  import opened Wrappers
  import opened Text
  import opened Seqs
  import opened RssUtils

  /** `tagsByEpisodeId`: episode id to its tag list. */
  type TagIndex = map<string, seq<string>>

  /** The property key a possibly missing episode id is looked up under: `obj[undefined]` reads key "undefined". */
  function KeyOf(episodeId: Option<string>): string {
    TemplateText(episodeId)
  }

  /** `tagsByEpisodeId[episodeId] || []` */
  function TagsFor(index: TagIndex, episodeId: Option<string>): (tags: seq<string>)
    ensures KeyOf(episodeId) in index ==> tags == index[KeyOf(episodeId)]
    ensures KeyOf(episodeId) !in index ==> tags == []
  {
    if KeyOf(episodeId) in index then index[KeyOf(episodeId)] else []
  }

  // ---------------------------------------------------------------------------
  // Flattening

  /** One entry of the `/api/episodes` listing. */
  datatype EpisodeView = EpisodeView(
    episodeId: Option<string>,
    podcastId: string,
    podcastTitle: string,
    podcastImage: Option<string>,
    episodeTitle: string,
    episodeImage: Option<string>,
    pubDate: string,
    duration: Option<string>,
    description: string,
    audioUrl: Option<string>,
    tags: seq<string>)

  function MakeView(feed: Feed, episode: Episode, index: TagIndex): EpisodeView {
    EpisodeView(episode.episodeId, feed.id, feed.title, feed.image, episode.title, episode.image,
                episode.pubDate, episode.duration, episode.description, episode.audioUrl,
                TagsFor(index, episode.episodeId))
  }

  /** `feed.episodes.map(...)`: the views of one feed, in episode order. */
  function FeedViews(feed: Feed, index: TagIndex): (views: seq<EpisodeView>)
    ensures |views| == |feed.episodes|
    ensures forall j | 0 <= j < |feed.episodes| :: views[j] == MakeView(feed, feed.episodes[j], index)
  {
    seq(|feed.episodes|, j requires 0 <= j < |feed.episodes| => MakeView(feed, feed.episodes[j], index))
  }

  /** The number of episodes in a list of feeds. */
  function EpisodeCount(feeds: seq<Feed>): nat {
    if |feeds| == 0 then 0 else EpisodeCount(feeds[..|feeds| - 1]) + |feeds[|feeds| - 1].episodes|
  }

  /** Where the views of `feeds[i]` start in the flattened listing. */
  function Offset(feeds: seq<Feed>, i: nat): nat
    requires i <= |feeds|
  {
    EpisodeCount(feeds[..i])
  }

  /** The views of all feeds concatenated in feed order, as the `concat` loop builds them. */
  function Flatten(feeds: seq<Feed>, index: TagIndex): (all: seq<EpisodeView>)
    ensures |all| == EpisodeCount(feeds)
  {
    if |feeds| == 0 then []
    else Flatten(feeds[..|feeds| - 1], index) + FeedViews(feeds[|feeds| - 1], index)
  }

  /**
   * The flattened listing holds the view of episode `j` of feed `i` at
   * `Offset(feeds, i) + j`: one view per (feed, episode), in feed-then-episode
   * order, with the feed's id as `podcastId` and the episode's tags or `[]`.
   */
  lemma {:induction false} FlattenAt(feeds: seq<Feed>, index: TagIndex, i: nat, j: nat)
    requires i < |feeds| && j < |feeds[i].episodes|
    ensures Offset(feeds, i) + j < |Flatten(feeds, index)|
    ensures Flatten(feeds, index)[Offset(feeds, i) + j] == MakeView(feeds[i], feeds[i].episodes[j], index)
  {
    var n := |feeds|;
    var init := feeds[..n - 1];
    assert feeds[..n] == feeds;
    if i < n - 1 {
      assert init[..i] == feeds[..i];
      FlattenAt(init, index, i, j);
      assert EpisodeCount(feeds) >= EpisodeCount(init);
    } else {
      assert Offset(feeds, i) == |Flatten(init, index)|;
    }
  }

  /** The `forEach`/`concat` aggregation loop. */
  method AggregateEpisodes(feeds: seq<Feed>, index: TagIndex) returns (all: seq<EpisodeView>)
    ensures all == Flatten(feeds, index)
  {
    all := [];
    for i := 0 to |feeds|
      invariant all == Flatten(feeds[..i], index)
    {
      assert feeds[..i + 1][..i] == feeds[..i];
      all := all + FeedViews(feeds[i], index);
    }
    assert feeds[..|feeds|] == feeds;
  }

  // ---------------------------------------------------------------------------
  // Filtering and ordering

  /** The `podcastId`, `q` and `tag` query parameters; a missing or empty one does not filter. */
  datatype EpisodeQuery = EpisodeQuery(podcastId: Option<string>, q: Option<string>, tag: Option<string>)

  /** The lowercased query occurs in the lowercased title, podcast title or description. */
  predicate MatchesText(v: EpisodeView, query: string) {
    Contains(Lower(v.episodeTitle), query) || Contains(Lower(v.podcastTitle), query) ||
    Contains(Lower(v.description), query)
  }

  /** What the three filters together demand of a view. */
  predicate Selected(v: EpisodeView, query: EpisodeQuery) {
    && (Truthy(query.podcastId) ==> v.podcastId == query.podcastId.value)
    && (Truthy(query.q) ==> MatchesText(v, Lower(query.q.value)))
    && (Truthy(query.tag) ==> query.tag.value in v.tags)
  }

  function PodcastIs(podcastId: string): EpisodeView -> bool {
    (v: EpisodeView) => v.podcastId == podcastId
  }

  function TextMatches(query: string): EpisodeView -> bool {
    (v: EpisodeView) => MatchesText(v, query)
  }

  function HasTag(tag: string): EpisodeView -> bool {
    (v: EpisodeView) => tag in v.tags
  }

  function SelectedBy(query: EpisodeQuery): EpisodeView -> bool {
    (v: EpisodeView) => Selected(v, query)
  }

  function ByPodcast(all: seq<EpisodeView>, podcastId: Option<string>): seq<EpisodeView> {
    if Truthy(podcastId) then Filter(all, PodcastIs(podcastId.value)) else all
  }

  function ByText(all: seq<EpisodeView>, q: Option<string>): seq<EpisodeView> {
    if Truthy(q) then Filter(all, TextMatches(Lower(q.value))) else all
  }

  function ByTag(all: seq<EpisodeView>, tag: Option<string>): seq<EpisodeView> {
    if Truthy(tag) then Filter(all, HasTag(tag.value)) else all
  }

  /** The three filters applied one after the other, as the handler reassigns `allEpisodes`. */
  function ApplyQuery(all: seq<EpisodeView>, query: EpisodeQuery): seq<EpisodeView> {
    ByTag(ByText(ByPodcast(all, query.podcastId), query.q), query.tag)
  }

  /**
   * The sequential filters keep exactly the views that satisfy all three
   * demands, in their original order: each filter only removes entries.
   */
  lemma ApplyQueryIsSelection(all: seq<EpisodeView>, query: EpisodeQuery)
    ensures ApplyQuery(all, query) == Filter(all, SelectedBy(query))
  {
    var pp := (v: EpisodeView) => Truthy(query.podcastId) ==> v.podcastId == query.podcastId.value;
    var pq := (v: EpisodeView) => Truthy(query.q) ==> MatchesText(v, Lower(query.q.value));
    var pt := (v: EpisodeView) => Truthy(query.tag) ==> query.tag.value in v.tags;
    var ppq := (v: EpisodeView) => pp(v) && pq(v);
    var a := ByPodcast(all, query.podcastId);
    if Truthy(query.podcastId) {
      FilterAgree(all, PodcastIs(query.podcastId.value), pp);
    } else {
      FilterAll(all, pp);
    }
    var b := ByText(a, query.q);
    if Truthy(query.q) {
      FilterAgree(a, TextMatches(Lower(query.q.value)), pq);
    } else {
      FilterAll(a, pq);
    }
    FilterFilter(all, pp, pq, ppq);
    assert b == Filter(all, ppq);
    if Truthy(query.tag) {
      FilterAgree(b, HasTag(query.tag.value), pt);
    } else {
      FilterAll(b, pt);
    }
    FilterFilter(all, ppq, pt, SelectedBy(query));
  }

  /** The publish-date key the comparator orders by. */
  function DateOrder(dateKey: string -> int): EpisodeView -> int {
    (v: EpisodeView) => dateKey(v.pubDate)
  }

  /**
   * GET `/api/episodes`: aggregate, filter, then sort by date, most recent
   * first. `dateKey` stands for `new Date(pubDate)` as a number.
   */
  method ListEpisodes(feeds: seq<Feed>, index: TagIndex, query: EpisodeQuery, dateKey: string -> int)
    returns (episodes: seq<EpisodeView>)
    ensures multiset(episodes) == multiset(Filter(Flatten(feeds, index), SelectedBy(query)))
    ensures SortedDesc(episodes, DateOrder(dateKey))
  {
    var all := AggregateEpisodes(feeds, index);
    if Truthy(query.podcastId) {
      all := Filter(all, PodcastIs(query.podcastId.value));
    }
    if Truthy(query.q) {
      var q := Lower(query.q.value);
      all := Filter(all, TextMatches(q));
    }
    if Truthy(query.tag) {
      all := Filter(all, HasTag(query.tag.value));
    }
    ApplyQueryIsSelection(Flatten(feeds, index), query);
    episodes := SortDesc(all, DateOrder(dateKey));
  }

  /**
   * What the listing holds: an entry is listed exactly when it is one of the
   * flattened views and passes all three filters.
   */
  lemma ListedExactlySelected(all: seq<EpisodeView>, query: EpisodeQuery, episodes: seq<EpisodeView>, v: EpisodeView)
    requires multiset(episodes) == multiset(Filter(all, SelectedBy(query)))
    ensures v in episodes <==> v in all && Selected(v, query)
  {
    assert v in episodes <==> v in multiset(episodes);
    assert v in Filter(all, SelectedBy(query)) <==> v in multiset(Filter(all, SelectedBy(query)));
  }

  // ---------------------------------------------------------------------------
  // Feed summaries and lookups

  /** A feed as GET `/api/feeds` lists it. */
  datatype FeedSummary = FeedSummary(
    id: string, url: string, title: string, description: string, image: Option<string>,
    lastFetchedAt: string, episodeCount: nat)

  /** `feeds.map(feed => ({ ..., episodeCount: feed.episodes.length }))` */
  function Summaries(feeds: seq<Feed>): (r: seq<FeedSummary>)
    ensures |r| == |feeds|
    ensures forall i | 0 <= i < |feeds| ::
              && r[i].id == feeds[i].id && r[i].url == feeds[i].url && r[i].title == feeds[i].title
              && r[i].description == feeds[i].description && r[i].image == feeds[i].image
              && r[i].lastFetchedAt == feeds[i].lastFetchedAt
              && r[i].episodeCount == |feeds[i].episodes|
  {
    seq(|feeds|, i requires 0 <= i < |feeds| =>
      var f := feeds[i];
      FeedSummary(f.id, f.url, f.title, f.description, f.image, f.lastFetchedAt, |f.episodes|))
  }

  /** The sum of the `episodeCount` fields of a list of summaries. */
  function SummedCounts(summaries: seq<FeedSummary>): nat {
    if |summaries| == 0 then 0
    else SummedCounts(summaries[..|summaries| - 1]) + summaries[|summaries| - 1].episodeCount
  }

  /** The counts in the feed list add up to the length of the episode listing. */
  lemma {:induction false} SummariesCountEpisodes(feeds: seq<Feed>)
    ensures SummedCounts(Summaries(feeds)) == EpisodeCount(feeds) == |Flatten(feeds, map[])|
  {
    if |feeds| > 0 {
      var n := |feeds|;
      SummariesCountEpisodes(feeds[..n - 1]);
      assert Summaries(feeds)[..n - 1] == Summaries(feeds[..n - 1]);
    }
  }

  /** `feeds.find(feed => feed.url === url)` */
  function FindByUrl(feeds: seq<Feed>, url: string): (r: Option<Feed>)
    ensures r.None? <==> forall i | 0 <= i < |feeds| :: feeds[i].url != url
    ensures r.Some? ==> r.value.url == url
    ensures r.Some? ==> exists i | 0 <= i < |feeds| :: feeds[i] == r.value && (forall j | 0 <= j < i :: feeds[j].url != url)
  {
    if |feeds| == 0 then None
    else if feeds[0].url == url then Some(feeds[0])
    else
      var r := FindByUrl(feeds[1..], url);
      assert forall i | 1 <= i < |feeds| :: feeds[i] == feeds[1..][i - 1];
      r
  }

  /** `feeds.findIndex(feed => feed.id === id)`, None for -1. */
  function FirstIndexWithId(feeds: seq<Feed>, id: string): (r: Option<nat>)
    ensures r.None? <==> forall i | 0 <= i < |feeds| :: feeds[i].id != id
    ensures r.Some? ==> r.value < |feeds| && feeds[r.value].id == id
    ensures r.Some? ==> forall j | 0 <= j < r.value :: feeds[j].id != id
  {
    if |feeds| == 0 then None
    else if feeds[0].id == id then Some(0)
    else
      match FirstIndexWithId(feeds[1..], id)
      case None => None
      case Some(k) => Some(k + 1)
  }

  // ---------------------------------------------------------------------------
  // Tags

  /** The entry update of PUT tags: an empty list deletes the key, any other list replaces it. */
  function SetTags(index: TagIndex, episodeId: string, tags: seq<string>): (r: TagIndex)
    ensures episodeId in r <==> |tags| > 0
    ensures |tags| > 0 ==> r[episodeId] == tags
    ensures forall k | k != episodeId :: (k in r <==> k in index) && (k in r ==> r[k] == index[k])
  {
    if |tags| == 0 then index - {episodeId} else index[episodeId := tags]
  }

  /** After setting tags, the listing shows exactly those tags for that episode, `[]` for an empty list. */
  lemma SetTagsThenRead(index: TagIndex, episodeId: Option<string>, tags: seq<string>)
    ensures TagsFor(SetTags(index, KeyOf(episodeId), tags), episodeId) == tags
  {
  }

  /** Setting tags and then clearing them leaves the index as if the episode never had tags. */
  lemma SetThenClear(index: TagIndex, episodeId: string, tags: seq<string>)
    ensures SetTags(SetTags(index, episodeId, tags), episodeId, []) == index - {episodeId}
  {
  }

  /** No stored entry is empty. */
  predicate NoEmptyEntries(index: TagIndex) {
    forall k | k in index :: |index[k]| > 0
  }

  /** Setting tags never leaves an empty entry behind. */
  lemma SetTagsKeepsEntriesNonEmpty(index: TagIndex, episodeId: string, tags: seq<string>)
    requires NoEmptyEntries(index)
    ensures NoEmptyEntries(SetTags(index, episodeId, tags))
  {
  }

  /** Every tag of every entry. */
  function TagUnion(index: TagIndex): set<string> {
    set k, t | k in index && t in index[k] :: t
  }

  /** Inserting a new string into a strictly sorted list. */
  function InsertSorted(x: string, s: seq<string>): (r: seq<string>)
    requires StrictlySorted(s) && x !in s
    ensures StrictlySorted(r)
    ensures forall y :: y in r <==> y in s || y == x
  {
    if |s| == 0 then [x]
    else
      LexLessTotal(x, s[0]);
      if LexLess(x, s[0]) then
        forall j | 0 < j < |s|
          ensures LexLess(x, s[j])
        {
          LexLessTransitive(x, s[0], s[j]);
        }
        [x] + s
      else
        var rest := InsertSorted(x, s[1..]);
        assert s == [s[0]] + s[1..];
        forall j | 0 <= j < |rest|
          ensures LexLess(s[0], rest[j])
        {
          assert rest[j] in rest;
          if rest[j] != x {
            var k :| 0 <= k < |s[1..]| && s[1..][k] == rest[j];
            assert s[k + 1] == rest[j];
          }
        }
        [s[0]] + rest
  }

  /**
   * GET tags: the union of all tag lists as a set, then `Array.from(...).sort()`:
   * sorted in JavaScript string order, no repetition, exactly the tags in use.
   */
  method CollectTags(index: TagIndex) returns (tags: seq<string>)
    ensures StrictlySorted(tags)
    ensures forall t :: t in tags <==> t in TagUnion(index)
  {
    var seen: set<string> := {};
    var pending := index.Keys;
    while pending != {}
      invariant pending <= index.Keys
      invariant forall t :: t in seen <==> exists k | k in index && k !in pending :: t in index[k]
      decreases |pending|
    {
      var k :| k in pending;
      var list := index[k];
      for j := 0 to |list|
        invariant forall t :: t in seen <==> (exists k' | k' in index && k' !in pending :: t in index[k']) || t in list[..j]
      {
        assert list[..j + 1] == list[..j] + [list[j]];
        seen := seen + {list[j]};
      }
      assert list[..|list|] == list;
      pending := pending - {k};
    }
    tags := [];
    var rest := seen;
    while rest != {}
      invariant rest <= seen
      invariant StrictlySorted(tags)
      invariant forall t :: t in tags <==> t in seen && t !in rest
      decreases |rest|
    {
      var t :| t in rest;
      tags := InsertSorted(t, tags);
      rest := rest - {t};
    }
  }
}
