/**
 * The JSON responses the handlers send, as values: a status code and a body.
 * CORS headers and the transport are not modelled.
 */
module Http {
  import opened Wrappers
  import Text
  import opened RssUtils
  import opened Catalog

  datatype Body =
    | NoBody                                                          // `res.status(200).end()`
    | FeedList(feeds: seq<FeedSummary>)
    | FeedAdded(message: string, feed: Feed)
    | FeedDeleted(message: string, deletedFeed: Feed)
    | FeedRefreshed(message: string, feed: Feed)
    | EpisodeList(episodes: seq<EpisodeView>)
    | TagList(tags: seq<string>, tagsByEpisodeId: TagIndex)
    | TagsUpdated(message: string, episodeId: string, tags: seq<string>)
    | Error(error: string, message: string, existing: Option<Feed>)   // `{ error, message[, feed] }`

  datatype Response = Response(status: int, body: Body)

  /** An error response without an attached feed. */
  function Fail(status: int, error: string, message: string): (r: Response)
    ensures r.status == status && r.body.Error? && r.body.existing.None?
  {
    Response(status, Error(error, message, None))
  }

  /** The 405 answer to a method the endpoint does not support: the message names the refused method. */
  function MethodNotAllowed(httpMethod: string): (r: Response)
    ensures r.status == 405 && r.body.Error? && r.body.existing.None?
    ensures r.body.error == "Method not allowed"
    ensures Text.Contains(r.body.message, httpMethod)
  {
    Text.ContainsPart("HTTP method ", httpMethod, " is not supported on this endpoint");
    Fail(405, "Method not allowed", "HTTP method " + httpMethod + " is not supported on this endpoint")
  }

  /** A 404 for a feed id that matches no stored feed: the message names the id. */
  function FeedNotFound(feedId: string): (r: Response)
    ensures r.status == 404 && r.body.Error? && r.body.existing.None?
    ensures r.body.error == "Feed not found"
    ensures Text.Contains(r.body.message, feedId)
  {
    Text.ContainsPart("Feed with ID ", feedId, " not found");
    Fail(404, "Feed not found", "Feed with ID " + feedId + " not found")
  }
}
