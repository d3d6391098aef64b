/**
 * The request handlers of the Express server, with file reads and writes
 * turned into values: each handler takes the contents it reads and returns
 * the response together with what it writes back (None: nothing written).
 * `validUrl` stands for `new URL(url)` succeeding, `parsed` for what the RSS
 * parser returned for the url, `md5` and `now` as in RssUtils.
 */
module Server {
  import opened Wrappers
  import opened Seqs
  import opened RssUtils
  import opened Catalog
  import opened Http

  /** GET `/api/feeds`: one summary per stored feed, in stored order, counting its episodes. */
  method GetFeeds(feeds: seq<Feed>) returns (resp: Response)
    ensures resp.status == 200 && resp.body.FeedList?
    ensures resp.body.feeds == Summaries(feeds)
    ensures |resp.body.feeds| == |feeds|
    ensures forall i | 0 <= i < |feeds| ::
              resp.body.feeds[i].id == feeds[i].id && resp.body.feeds[i].episodeCount == |feeds[i].episodes|
    ensures EpisodeCount(feeds) == SummedCounts(resp.body.feeds)
  {
    var summaries := Summaries(feeds);
    SummariesCountEpisodes(feeds);
    resp := Response(200, FeedList(summaries));
  }

  /** POST `/api/feeds`: validate, refuse a url already stored, parse, append. */
  method AddFeed(url: Option<string>, validUrl: string -> bool, feeds: seq<Feed>,
                 md5: string -> string, parsed: Result<RawFeed, string>, now: string)
    returns (resp: Response, written: Option<seq<Feed>>)
    ensures !Truthy(url) ==>
              resp == Fail(400, "URL is required", "Please provide a valid RSS feed URL") && written.None?
    ensures Truthy(url) && !validUrl(url.value) ==>
              resp == Fail(400, "Invalid URL", "Please provide a valid HTTP/HTTPS URL") && written.None?
    ensures Truthy(url) && validUrl(url.value) && FindByUrl(feeds, url.value).Some? ==>
              && resp == Response(409, Error("Feed already exists", "This RSS feed has already been added",
                                             FindByUrl(feeds, url.value)))
              && written.None?
    ensures Truthy(url) && validUrl(url.value) && FindByUrl(feeds, url.value).None? && parsed.Err? ==>
              resp == Fail(500, "Failed to add feed", "Failed to parse RSS feed: " + parsed.error) && written.None?
    ensures Truthy(url) && validUrl(url.value) && FindByUrl(feeds, url.value).None? && parsed.Ok? ==>
              var feed := ParseRssFeed(md5, url.value, parsed, now).value;
              && written == Some(feeds + [feed])
              && resp == Response(201, FeedAdded("Feed added successfully", feed))
  {
    written := None;
    if !Truthy(url) {
      return Fail(400, "URL is required", "Please provide a valid RSS feed URL"), written;
    }
    if !validUrl(url.value) {
      return Fail(400, "Invalid URL", "Please provide a valid HTTP/HTTPS URL"), written;
    }
    var existing := FindByUrl(feeds, url.value);
    if existing.Some? {
      return Response(409, Error("Feed already exists", "This RSS feed has already been added", existing)), written;
    }
    var result := ParseRssFeed(md5, url.value, parsed, now);
    match result {
      case Err(message) =>
        resp := Fail(500, "Failed to add feed", message);
      case Ok(feed) =>
        var data := feeds;
        data := data + [feed];
        written := Some(data);
        resp := Response(201, FeedAdded("Feed added successfully", feed));
    }
  }

  /**
   * Once a url has been added, adding it again is a conflict: the appended
   * feed carries that url and no earlier feed did.
   */
  lemma AddedUrlIsFound(feeds: seq<Feed>, md5: string -> string, url: string, doc: RawFeed, now: string)
    requires FindByUrl(feeds, url).None?
    ensures var feed := ParseRssFeed(md5, url, Ok(doc), now).value;
            FindByUrl(feeds + [feed], url) == Some(feed)
  {
    var feed := ParseRssFeed(md5, url, Ok(doc), now).value;
    var all := feeds + [feed];
    assert all[|feeds|] == feed;
    assert forall j | 0 <= j < |feeds| :: all[j] == feeds[j];
  }

  /** The keys the episodes of a feed have in the tag index. */
  function EpisodeKeys(episodes: seq<Episode>): set<string> {
    set e | e in episodes :: KeyOf(e.episodeId)
  }

  /**
   * DELETE `/api/feeds/:feedId`: remove the first feed with that id, then
   * delete the tag entry of each of its episodes.
   */
  method DeleteFeed(feedId: string, feeds: seq<Feed>, tags: TagIndex)
    returns (resp: Response, writtenFeeds: Option<seq<Feed>>, writtenTags: Option<TagIndex>)
    ensures FirstIndexWithId(feeds, feedId).None? ==>
              resp == FeedNotFound(feedId) && writtenFeeds.None? && writtenTags.None?
    ensures FirstIndexWithId(feeds, feedId).Some? ==>
              var i := FirstIndexWithId(feeds, feedId).value;
              && writtenFeeds == Some(feeds[..i] + feeds[i + 1..])
              && writtenTags == Some(tags - EpisodeKeys(feeds[i].episodes))
              && resp == Response(200, FeedDeleted("Feed deleted successfully", feeds[i]))
  {
    var feedIndex := FirstIndexWithId(feeds, feedId);
    if feedIndex.None? {
      return FeedNotFound(feedId), None, None;
    }
    var i := feedIndex.value;
    var deletedFeed := feeds[i];
    writtenFeeds := Some(feeds[..i] + feeds[i + 1..]);
    var tagsData := tags;
    var episodes := deletedFeed.episodes;
    for j := 0 to |episodes|
      invariant tagsData == tags - EpisodeKeys(episodes[..j])
    {
      assert EpisodeKeys(episodes[..j + 1]) == EpisodeKeys(episodes[..j]) + {KeyOf(episodes[j].episodeId)} by {
        assert episodes[..j + 1] == episodes[..j] + [episodes[j]];
      }
      tagsData := tagsData - {KeyOf(episodes[j].episodeId)};
    }
    assert episodes[..|episodes|] == episodes;
    writtenTags := Some(tagsData);
    resp := Response(200, FeedDeleted("Feed deleted successfully", deletedFeed));
  }

  /**
   * After a delete, no episode of the deleted feed keeps a tag entry, every
   * other entry is as before, and the other feeds keep their relative order.
   */
  lemma DeleteCascade(feeds: seq<Feed>, tags: TagIndex, i: nat)
    requires i < |feeds|
    ensures var rest := tags - EpisodeKeys(feeds[i].episodes);
            && (forall e | e in feeds[i].episodes :: KeyOf(e.episodeId) !in rest)
            && (forall k | k in tags && k !in EpisodeKeys(feeds[i].episodes) :: k in rest && rest[k] == tags[k])
    ensures var remaining := feeds[..i] + feeds[i + 1..];
            && |remaining| == |feeds| - 1
            && (forall j | 0 <= j < i :: remaining[j] == feeds[j])
            && (forall j | i < j < |feeds| :: remaining[j - 1] == feeds[j])
  {
  }

  /**
   * POST `/api/feeds/:feedId/refresh`: re-parse the stored url and replace the
   * feed in place, keeping its id.
   */
  method RefreshFeed(feedId: string, feeds: seq<Feed>, md5: string -> string,
                     parsed: Result<RawFeed, string>, now: string)
    returns (resp: Response, written: Option<seq<Feed>>)
    ensures FirstIndexWithId(feeds, feedId).None? ==> resp == FeedNotFound(feedId) && written.None?
    ensures FirstIndexWithId(feeds, feedId).Some? && parsed.Err? ==>
              resp == Fail(500, "Failed to refresh feed", "Failed to parse RSS feed: " + parsed.error) && written.None?
    ensures FirstIndexWithId(feeds, feedId).Some? && parsed.Ok? ==>
              var i := FirstIndexWithId(feeds, feedId).value;
              var updated := ParseRssFeed(md5, feeds[i].url, parsed, now).value;
              && written == Some(feeds[i := updated.(id := feedId)])
              && written.value[i].id == feeds[i].id
              && written.value[i].url == feeds[i].url
              && resp == Response(200, FeedRefreshed("Feed refreshed successfully", written.value[i]))
  {
    var feedIndex := FirstIndexWithId(feeds, feedId);
    if feedIndex.None? {
      return FeedNotFound(feedId), None;
    }
    var i := feedIndex.value;
    var existingFeed := feeds[i];
    var result := ParseRssFeed(md5, existingFeed.url, parsed, now);
    if result.Err? {
      return Fail(500, "Failed to refresh feed", result.error), None;
    }
    var data := feeds;
    data := data[i := result.value.(id := feedId)];
    written := Some(data);
    resp := Response(200, FeedRefreshed("Feed refreshed successfully", data[i]));
  }

  /** GET `/api/episodes`: the filtered listing, most recent first. */
  method GetEpisodes(feeds: seq<Feed>, tags: TagIndex, query: EpisodeQuery, dateKey: string -> int)
    returns (resp: Response)
    ensures resp.status == 200 && resp.body.EpisodeList?
    ensures multiset(resp.body.episodes) == multiset(Filter(Flatten(feeds, tags), SelectedBy(query)))
    ensures SortedDesc(resp.body.episodes, DateOrder(dateKey))
  {
    var episodes := ListEpisodes(feeds, tags, query, dateKey);
    resp := Response(200, EpisodeList(episodes));
  }

  /**
   * PUT `/api/episodes/:episodeId/tags`: a body whose `tags` is not an array
   * (None) is refused; otherwise the entry is deleted or replaced.
   */
  method PutEpisodeTags(episodeId: string, tags: Option<seq<string>>, index: TagIndex)
    returns (resp: Response, written: Option<TagIndex>)
    ensures tags.None? ==>
              resp == Fail(400, "Invalid tags format", "Tags must be an array of strings") && written.None?
    ensures tags.Some? ==>
              && written == Some(SetTags(index, episodeId, tags.value))
              && resp == Response(200, TagsUpdated("Tags updated successfully", episodeId, tags.value))
  {
    if tags.None? {
      return Fail(400, "Invalid tags format", "Tags must be an array of strings"), None;
    }
    var data := index;
    if |tags.value| == 0 {
      data := data - {episodeId};
    } else {
      data := data[episodeId := tags.value];
    }
    written := Some(data);
    resp := Response(200, TagsUpdated("Tags updated successfully", episodeId, tags.value));
  }

  /** GET `/api/tags`: every tag in use, sorted and without repetition, and the index itself. */
  method GetTags(index: TagIndex) returns (resp: Response)
    ensures resp.status == 200 && resp.body.TagList? && resp.body.tagsByEpisodeId == index
    ensures Text.StrictlySorted(resp.body.tags)
    ensures forall t :: t in resp.body.tags <==> t in TagUnion(index)
  {
    var tags := CollectTags(index);
    resp := Response(200, TagList(tags, index));
  }
}
