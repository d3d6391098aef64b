/**
 * The in-memory store of the serverless deployment: two module-level records,
 * read and written whole. Reads and writes go through a JSON round trip, so
 * the caller and the store never share structure; on immutable Dafny values
 * that is what value semantics gives.
 */
module DataStore {
  import opened Wrappers
  import opened RssUtils
  import opened Catalog

  /** `{ feeds: [...] }`; None when the `feeds` property is missing. */
  datatype FeedsDoc = FeedsDoc(feeds: Option<seq<Feed>>)

  /** `{ tagsByEpisodeId: {...} }`; None when the property is missing. */
  datatype TagsDoc = TagsDoc(tagsByEpisodeId: Option<TagIndex>)

  const SeedEpisodeId: string := "999ecd09-dab3-4c97-9fd6-57ef2611883a"

  /** The one demo episode the store starts with. */
  function SeedEpisode(): Episode {
    Episode(
      Some(SeedEpisodeId),
      GuidText(SeedEpisodeId),
      "\U{1F3A7} OpenClaw: The Lobster That Wants to Run Your Life",
      "Sat, 31 Jan 2026 23:50:39 GMT",
      "<p>Remember when Siri was supposed to change everything? This might actually be it.</p>",
      Some("799"),
      None,
      Some("https://anchor.fm/s/fb856aa0/podcast/play/114840872/https%3A%2F%2Fd3ctxlq1ktw2nl.cloudfront.net%2Fstaging%2F2026-0-31%2F57f9f9ba-8f11-dcec-5448-26075f1b6017.m4a"))
  }

  /** The one demo feed the store starts with. */
  function SeedFeed(): Feed {
    Feed(
      "feed_c8ae1b3a87f62e602e20366c06366574",
      "https://anchor.fm/s/fb856aa0/podcast/rss",
      "AI Odyssey",
      "AI Odyssey is your journey through the vast and evolving world of artificial intelligence.",
      None,
      "2026-02-04T00:00:30.183Z",
      [SeedEpisode()])
  }

  /** The demo tag index. */
  function SeedTags(): TagIndex {
    map[SeedEpisodeId := ["AI", "OpenClaw", "Assistant"]]
  }

  /** Every tag entry of the initial state belongs to an episode of the initial feeds. */
  lemma SeedTagsBelongToSeedEpisodes()
    ensures forall k | k in SeedTags() :: exists e | e in SeedFeed().episodes :: KeyOf(e.episodeId) == k
  {
    assert KeyOf(SeedFeed().episodes[0].episodeId) == SeedEpisodeId;
  }

  /** What `initializeData` makes of the feeds record: a missing list becomes empty, anything else stays. */
  function InitFeeds(d: FeedsDoc): (r: FeedsDoc)
    ensures r.feeds.Some?
    ensures d.feeds.Some? ==> r == d
    ensures d.feeds.None? ==> r.feeds == Some([])
  {
    if d.feeds.None? then FeedsDoc(Some([])) else d
  }

  /** What `initializeData` makes of the tags record. */
  function InitTags(d: TagsDoc): (r: TagsDoc)
    ensures r.tagsByEpisodeId.Some?
    ensures d.tagsByEpisodeId.Some? ==> r == d
    ensures d.tagsByEpisodeId.None? ==> r.tagsByEpisodeId == Some(map[])
  {
    if d.tagsByEpisodeId.None? then TagsDoc(Some(map[])) else d
  }

  /** Initialising twice is initialising once. */
  lemma InitializeIdempotent(f: FeedsDoc, t: TagsDoc)
    ensures InitFeeds(InitFeeds(f)) == InitFeeds(f)
    ensures InitTags(InitTags(t)) == InitTags(t)
  {
  }

  class Store {
    var feedsData: FeedsDoc
    var tagsData: TagsDoc

    /** Both records hold their list, as `initializeData` guarantees before any handler runs. */
    ghost predicate Valid()
      reads this
    {
      feedsData.feeds.Some? && tagsData.tagsByEpisodeId.Some?
    }

    /** The module's initial state: the demo feed and its tags. */
    constructor()
      ensures feedsData == FeedsDoc(Some([SeedFeed()]))
      ensures tagsData == TagsDoc(Some(SeedTags()))
      ensures Valid()
    {
      feedsData := FeedsDoc(Some([SeedFeed()]));
      tagsData := TagsDoc(Some(SeedTags()));
    }

    /** `getFeeds()`: a copy of the feeds record; nothing changes. */
    method GetFeeds() returns (d: FeedsDoc)
      ensures d == feedsData
    {
      d := feedsData;
    }

    /** `saveFeeds(d)`: the feeds record becomes `d`; the tags record is untouched. */
    method SaveFeeds(d: FeedsDoc)
      modifies this`feedsData
      ensures feedsData == d
      ensures tagsData == old(tagsData)
    {
      feedsData := d;
    }

    /** `getTags()`: a copy of the tags record; nothing changes. */
    method GetTags() returns (d: TagsDoc)
      ensures d == tagsData
    {
      d := tagsData;
    }

    /** `saveTags(d)`: the tags record becomes `d`; the feeds record is untouched. */
    method SaveTags(d: TagsDoc)
      modifies this`tagsData
      ensures tagsData == d
      ensures feedsData == old(feedsData)
    {
      tagsData := d;
    }

    /** `initializeData()`: install empty records where a list is missing, leave present data alone. */
    method InitializeData()
      modifies this
      ensures feedsData == InitFeeds(old(feedsData))
      ensures tagsData == InitTags(old(tagsData))
      ensures Valid()
    {
      if feedsData.feeds.None? {
        feedsData := FeedsDoc(Some([]));
      }
      if tagsData.tagsByEpisodeId.None? {
        tagsData := TagsDoc(Some(map[]));
      }
    }
  }
}
