/**
 * The serverless `/api/tags` handler: the sorted union of all tags (GET) or
 * setting one episode's tags (PUT), over the in-memory store.
 */
module TagsApi {
  import opened Wrappers
  import opened Text
  import opened Catalog
  import opened Http
  import opened DataStore

  /**
   * `episodeId` and `tags` are the request body's fields; `tags` is None when
   * the body's `tags` is not an array.
   */
  method Handle(store: Store, httpMethod: string, episodeId: Option<string>, tags: Option<seq<string>>)
    returns (resp: Response)
    requires store.Valid()
    modifies store`tagsData
    ensures store.Valid()
    ensures store.feedsData == old(store.feedsData)
    ensures httpMethod == "OPTIONS" ==> resp == Response(200, NoBody) && store.tagsData == old(store.tagsData)
    ensures httpMethod == "GET" ==>
              var index := old(store.tagsData.tagsByEpisodeId.value);
              && store.tagsData == old(store.tagsData)
              && resp.status == 200 && resp.body.TagList? && resp.body.tagsByEpisodeId == index
              && StrictlySorted(resp.body.tags)
              && (forall t :: t in resp.body.tags <==> t in TagUnion(index))
    ensures httpMethod == "PUT" && !Truthy(episodeId) ==>
              && resp == Fail(400, "Episode ID is required", "Please provide an episode ID")
              && store.tagsData == old(store.tagsData)
    ensures httpMethod == "PUT" && Truthy(episodeId) && tags.None? ==>
              && resp == Fail(400, "Invalid tags format", "Tags must be an array of strings")
              && store.tagsData == old(store.tagsData)
    ensures httpMethod == "PUT" && Truthy(episodeId) && tags.Some? ==>
              && store.tagsData == TagsDoc(Some(SetTags(old(store.tagsData.tagsByEpisodeId.value), episodeId.value, tags.value)))
              && resp == Response(200, TagsUpdated("Tags updated successfully", episodeId.value, tags.value))
    ensures httpMethod != "OPTIONS" && httpMethod != "GET" && httpMethod != "PUT" ==>
              resp == MethodNotAllowed(httpMethod) && store.tagsData == old(store.tagsData)
  {
    if httpMethod == "OPTIONS" {
      return Response(200, NoBody);
    }
    if httpMethod == "GET" {
      var data := store.GetTags();
      var allTags := CollectTags(data.tagsByEpisodeId.value);
      resp := Response(200, TagList(allTags, data.tagsByEpisodeId.value));
    } else if httpMethod == "PUT" {
      if !Truthy(episodeId) {
        return Fail(400, "Episode ID is required", "Please provide an episode ID");
      }
      if tags.None? {
        return Fail(400, "Invalid tags format", "Tags must be an array of strings");
      }
      var data := store.GetTags();
      var index := data.tagsByEpisodeId.value;
      if |tags.value| == 0 {
        index := index - {episodeId.value};
      } else {
        index := index[episodeId.value := tags.value];
      }
      store.SaveTags(data.(tagsByEpisodeId := Some(index)));
      resp := Response(200, TagsUpdated("Tags updated successfully", episodeId.value, tags.value));
    } else {
      resp := MethodNotAllowed(httpMethod);
    }
  }
}
