/**
 * The serverless `/api/episodes` handler: a read-only listing over the
 * in-memory store.
 */
module EpisodesApi {
  import opened Seqs
  import opened Catalog
  import opened Http
  import opened DataStore

  method Handle(store: Store, httpMethod: string, query: EpisodeQuery, dateKey: string -> int)
    returns (resp: Response)
    requires store.Valid()
    ensures httpMethod == "OPTIONS" ==> resp == Response(200, NoBody)
    ensures httpMethod != "OPTIONS" && httpMethod != "GET" ==> resp == MethodNotAllowed(httpMethod)
    ensures httpMethod == "GET" ==>
              var all := Flatten(store.feedsData.feeds.value, store.tagsData.tagsByEpisodeId.value);
              && resp.status == 200 && resp.body.EpisodeList?
              && multiset(resp.body.episodes) == multiset(Filter(all, SelectedBy(query)))
              && SortedDesc(resp.body.episodes, DateOrder(dateKey))
  {
    if httpMethod == "OPTIONS" {
      return Response(200, NoBody);
    }
    if httpMethod != "GET" {
      return MethodNotAllowed(httpMethod);
    }
    var feedsData := store.GetFeeds();
    var tagsData := store.GetTags();
    var episodes := ListEpisodes(feedsData.feeds.value, tagsData.tagsByEpisodeId.value, query, dateKey);
    resp := Response(200, EpisodeList(episodes));
  }
}
