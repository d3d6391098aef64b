/**
 * The serverless `/api/feeds` handler: list feed summaries (GET) or add a
 * feed (POST), over the in-memory store. Unexpected failures answer 500
 * "Internal server error" with the error's message.
 */
module FeedsApi {
  import opened Wrappers
  import opened RssUtils
  import opened Catalog
  import opened Http
  import opened DataStore

  method Handle(store: Store, httpMethod: string, url: Option<string>, validUrl: string -> bool,
                md5: string -> string, parsed: Result<RawFeed, string>, now: string)
    returns (resp: Response)
    requires store.Valid()
    modifies store`feedsData
    ensures store.Valid()
    ensures store.tagsData == old(store.tagsData)
    ensures httpMethod == "OPTIONS" ==> resp == Response(200, NoBody) && store.feedsData == old(store.feedsData)
    ensures httpMethod == "GET" ==>
              && resp == Response(200, FeedList(Summaries(old(store.feedsData.feeds.value))))
              && store.feedsData == old(store.feedsData)
    ensures httpMethod == "POST" && !Truthy(url) ==>
              && resp == Fail(400, "URL is required", "Please provide a valid RSS feed URL")
              && store.feedsData == old(store.feedsData)
    ensures httpMethod == "POST" && Truthy(url) && !validUrl(url.value) ==>
              && resp == Fail(400, "Invalid URL", "Please provide a valid HTTP/HTTPS URL")
              && store.feedsData == old(store.feedsData)
    ensures httpMethod == "POST" && Truthy(url) && validUrl(url.value) ==>
              var feeds := old(store.feedsData.feeds.value);
              && (FindByUrl(feeds, url.value).Some? ==>
                    && resp == Response(409, Error("Feed already exists", "This RSS feed has already been added",
                                                   FindByUrl(feeds, url.value)))
                    && store.feedsData == old(store.feedsData))
              && (FindByUrl(feeds, url.value).None? && parsed.Err? ==>
                    && resp == Fail(500, "Internal server error", "Failed to parse RSS feed: " + parsed.error)
                    && store.feedsData == old(store.feedsData))
              && (FindByUrl(feeds, url.value).None? && parsed.Ok? ==>
                    var feed := ParseRssFeed(md5, url.value, parsed, now).value;
                    && store.feedsData == FeedsDoc(Some(feeds + [feed]))
                    && resp == Response(201, FeedAdded("Feed added successfully", feed)))
    ensures httpMethod != "OPTIONS" && httpMethod != "GET" && httpMethod != "POST" ==>
              resp == MethodNotAllowed(httpMethod) && store.feedsData == old(store.feedsData)
  {
    if httpMethod == "OPTIONS" {
      return Response(200, NoBody);
    }
    if httpMethod == "GET" {
      var data := store.GetFeeds();
      resp := Response(200, FeedList(Summaries(data.feeds.value)));
    } else if httpMethod == "POST" {
      if !Truthy(url) {
        return Fail(400, "URL is required", "Please provide a valid RSS feed URL");
      }
      if !validUrl(url.value) {
        return Fail(400, "Invalid URL", "Please provide a valid HTTP/HTTPS URL");
      }
      var data := store.GetFeeds();
      var existing := FindByUrl(data.feeds.value, url.value);
      if existing.Some? {
        return Response(409, Error("Feed already exists", "This RSS feed has already been added", existing));
      }
      var result := ParseRssFeed(md5, url.value, parsed, now);
      if result.Err? {
        return Fail(500, "Internal server error", result.error);
      }
      var newFeed := result.value;
      data := data.(feeds := Some(data.feeds.value + [newFeed]));
      store.SaveFeeds(data);
      resp := Response(201, FeedAdded("Feed added successfully", newFeed));
    } else {
      resp := MethodNotAllowed(httpMethod);
    }
  }
}
