/**
 * The dashboard object of the two browser scripts. The episode objects it
 * loads are shared between `episodes`, `filteredEpisodes` and the episode
 * open in the tag editor, and the tag editor changes their `tags` in place,
 * so each episode is an object here too. The values of the filter controls
 * and of the tag input box are fields of the dashboard.
 */
module Dashboard {
  import opened Wrappers
  import opened Text
  import opened Seqs
  import opened Catalog
  import opened DashboardLogic

  /** An episode as the dashboard holds it, parsed from the episodes listing. */
  class EpisodeCard {
    const episodeId: Option<string>
    const podcastId: string
    const podcastTitle: string
    const episodeTitle: string
    const description: string
    var tags: seq<string>

    /** The card carries the fields of listing entry `v`. */
    predicate Shows(v: EpisodeView)
      reads this
    {
      && episodeId == v.episodeId && podcastId == v.podcastId && podcastTitle == v.podcastTitle
      && episodeTitle == v.episodeTitle && description == v.description && tags == v.tags
    }

    constructor (v: EpisodeView)
      ensures Shows(v)
    {
      episodeId := v.episodeId;
      podcastId := v.podcastId;
      podcastTitle := v.podcastTitle;
      episodeTitle := v.episodeTitle;
      description := v.description;
      tags := v.tags;
    }
  }

  /**
   * The three tests `applyFilters` makes of one episode; an empty control
   * value means "no filter" and `searchQuery` is already lowercased.
   */
  predicate Keeps(e: EpisodeCard, podcastFilter: string, searchQuery: string, tagFilter: string)
    reads e
  {
    && (podcastFilter == "" || e.podcastId == podcastFilter)
    && (searchQuery == "" || ClientTextMatch(e.episodeTitle, e.podcastTitle, e.description, searchQuery))
    && (tagFilter == "" || tagFilter in e.tags)
  }

  /** `episodes.filter(...)` with the three tests: exactly the episodes that pass, in their order. */
  function Kept(cards: seq<EpisodeCard>, podcastFilter: string, searchQuery: string, tagFilter: string)
    : (r: seq<EpisodeCard>)
    reads cards
    ensures IsSubsequence(r, cards)
    ensures forall e | e in r :: e in cards && Keeps(e, podcastFilter, searchQuery, tagFilter)
    ensures forall e | e in cards && Keeps(e, podcastFilter, searchQuery, tagFilter) :: e in r
  {
    if |cards| == 0 then []
    else
      var rest := Kept(cards[1..], podcastFilter, searchQuery, tagFilter);
      if Keeps(cards[0], podcastFilter, searchQuery, tagFilter) then
        var r := [cards[0]] + rest;
        assert r[1..] == rest;
        r
      else rest
  }

  /** With every control empty, as after `clearFilters`, every episode is kept. */
  lemma {:induction false} KeptWithoutFilters(cards: seq<EpisodeCard>)
    ensures Kept(cards, "", "", "") == cards
  {
    if |cards| > 0 {
      KeptWithoutFilters(cards[1..]);
      assert [cards[0]] + cards[1..] == cards;
    }
  }

  /** Filtering the filtered list again changes nothing. */
  lemma {:induction false} KeptIdempotent(cards: seq<EpisodeCard>, podcastFilter: string, searchQuery: string,
                                          tagFilter: string)
    ensures var once := Kept(cards, podcastFilter, searchQuery, tagFilter);
            Kept(once, podcastFilter, searchQuery, tagFilter) == once
  {
    if |cards| > 0 {
      KeptIdempotent(cards[1..], podcastFilter, searchQuery, tagFilter);
      var once := Kept(cards, podcastFilter, searchQuery, tagFilter);
      if Keeps(cards[0], podcastFilter, searchQuery, tagFilter) {
        assert once[0] == cards[0] && once[1..] == Kept(cards[1..], podcastFilter, searchQuery, tagFilter);
        assert [once[0]] + once[1..] == once;
      }
    }
  }

  /** `episodes.find(ep => ep.episodeId === episodeId)`: the first episode with that id, or null. */
  function FindCard(cards: seq<EpisodeCard>, episodeId: string): (r: EpisodeCard?)
    reads cards
    ensures r == null <==> forall e | e in cards :: e.episodeId != Some(episodeId)
    ensures r != null ==>
              exists i | 0 <= i < |cards| :: cards[i] == r && r.episodeId == Some(episodeId) &&
                forall j | 0 <= j < i :: cards[j].episodeId != Some(episodeId)
  {
    if |cards| == 0 then null
    else if cards[0].episodeId == Some(episodeId) then
      assert cards[0] == cards[0];
      cards[0]
    else
      var r := FindCard(cards[1..], episodeId);
      assert forall e | e in cards[1..] :: e in cards;
      assert forall e | e in cards :: e == cards[0] || e in cards[1..];
      if r != null then
        var i :| 0 <= i < |cards[1..]| && cards[1..][i] == r && r.episodeId == Some(episodeId) &&
                 forall j | 0 <= j < i :: cards[1..][j].episodeId != Some(episodeId);
        assert cards[i + 1] == r;
        assert forall j | 1 <= j < i + 1 :: cards[j] == cards[1..][j - 1];
        r
      else r
  }

  /** The (podcast id, podcast title) pairs of the loaded episodes, in order. */
  function PodcastPairs(cards: seq<EpisodeCard>): seq<PodcastOption>
    reads cards
  {
    if |cards| == 0 then []
    else [PodcastOption(cards[0].podcastId, cards[0].podcastTitle)] + PodcastPairs(cards[1..])
  }

  /** A podcast id occurs among the pairs exactly when some loaded episode has it. */
  lemma {:induction false} PodcastPairsIds(cards: seq<EpisodeCard>, id: string)
    ensures HasId(PodcastPairs(cards), id) <==> exists e | e in cards :: e.podcastId == id
  {
    if |cards| > 0 {
      PodcastPairsIds(cards[1..], id);
      var p := PodcastPairs(cards);
      assert p[0].podcastId == cards[0].podcastId;
      assert forall i | 0 < i < |p| :: p[i] == PodcastPairs(cards[1..])[i - 1];
      assert forall e | e in cards :: e == cards[0] || e in cards[1..];
      if HasId(PodcastPairs(cards[1..]), id) {
        var i :| 0 <= i < |PodcastPairs(cards[1..])| && PodcastPairs(cards[1..])[i].podcastId == id;
        assert p[i + 1].podcastId == id;
      }
      if HasId(p, id) && cards[0].podcastId != id {
        var i :| 0 <= i < |p| && p[i].podcastId == id;
        assert PodcastPairs(cards[1..])[i - 1].podcastId == id;
      }
    }
  }

  class App {
    var episodes: seq<EpisodeCard>
    var filteredEpisodes: seq<EpisodeCard>
    var currentEditingEpisode: EpisodeCard?
    /** The value of the podcast filter `<select>`. */
    var podcastFilter: string
    /** The text in the search box, as typed. */
    var searchInput: string
    /** The value of the tag filter `<select>`. */
    var tagFilter: string
    /** The text in the tag editor's input box. */
    var tagInput: string

    /** The shown episodes are always some of the loaded ones, in their order. */
    ghost predicate Valid()
      reads this
    {
      IsSubsequence(filteredEpisodes, episodes)
    }

    /** A fresh dashboard: nothing loaded, nothing open, every control empty. */
    constructor ()
      ensures episodes == [] && filteredEpisodes == [] && currentEditingEpisode == null
      ensures podcastFilter == "" && searchInput == "" && tagFilter == "" && tagInput == ""
      ensures Valid()
    {
      episodes := [];
      filteredEpisodes := [];
      currentEditingEpisode := null;
      podcastFilter := "";
      searchInput := "";
      tagFilter := "";
      tagInput := "";
    }

    /**
     * The successful part of `loadEpisodes`: one new episode object per
     * listing entry, and all of them shown.
     */
    method LoadEpisodes(views: seq<EpisodeView>)
      modifies this`episodes, this`filteredEpisodes
      ensures |episodes| == |views|
      ensures forall i | 0 <= i < |views| :: fresh(episodes[i]) && episodes[i].Shows(views[i])
      ensures forall i, j | 0 <= i < j < |episodes| :: episodes[i] != episodes[j]
      ensures filteredEpisodes == episodes
      ensures Valid()
    {
      var cards: seq<EpisodeCard> := [];
      for i := 0 to |views|
        invariant |cards| == i
        invariant forall k | 0 <= k < i :: fresh(cards[k]) && cards[k].Shows(views[k])
        invariant forall k, j | 0 <= k < j < i :: cards[k] != cards[j]
      {
        var card := new EpisodeCard(views[i]);
        cards := cards + [card];
      }
      episodes := cards;
      filteredEpisodes := cards;
      SubsequenceOfItself(cards);
    }

    /** `applyFilters`: show exactly the loaded episodes the three controls let through. */
    method ApplyFilters()
      modifies this`filteredEpisodes
      ensures filteredEpisodes == Kept(episodes, podcastFilter, Lower(searchInput), tagFilter)
      ensures Valid()
    {
      filteredEpisodes := Kept(episodes, podcastFilter, Lower(searchInput), tagFilter);
    }

    /** `clearFilters`: empty the three controls and show every loaded episode. */
    method ClearFilters()
      modifies this`podcastFilter, this`searchInput, this`tagFilter, this`filteredEpisodes
      ensures podcastFilter == "" && searchInput == "" && tagFilter == ""
      ensures filteredEpisodes == episodes
      ensures Valid()
    {
      podcastFilter := "";
      searchInput := "";
      tagFilter := "";
      ApplyFilters();
      KeptWithoutFilters(episodes);
    }

    /** `openTagEditor(id)`: the first loaded episode with that id is open, or none is. */
    method OpenTagEditor(episodeId: string)
      requires Valid()
      modifies this`currentEditingEpisode
      ensures Valid()
      ensures currentEditingEpisode == FindCard(episodes, episodeId)
      ensures currentEditingEpisode != null ==>
                currentEditingEpisode in episodes && currentEditingEpisode.episodeId == Some(episodeId)
    {
      currentEditingEpisode := FindCard(episodes, episodeId);
    }

    /** `closeTagModal`: no episode is open and the input box is empty. */
    method CloseTagModal()
      requires Valid()
      modifies this`currentEditingEpisode, this`tagInput
      ensures Valid()
      ensures currentEditingEpisode == null && tagInput == ""
    {
      currentEditingEpisode := null;
      tagInput := "";
    }

    /**
     * `addTag`: the normalised input is added to the open episode's tags
     * unless it is empty or already there; the input box is emptied unless
     * the tag was empty or no episode is open.
     */
    method AddTag()
      requires Valid()
      modifies this`tagInput, currentEditingEpisode
      ensures Valid()
      ensures var tag := NormalizeTag(old(tagInput));
              if tag == "" || currentEditingEpisode == null then
                && tagInput == old(tagInput)
                && (currentEditingEpisode != null ==> currentEditingEpisode.tags == old(currentEditingEpisode.tags))
              else
                && currentEditingEpisode.tags == WithTag(old(currentEditingEpisode.tags), tag)
                && tagInput == ""
    {
      var tag := NormalizeTag(tagInput);
      if tag == "" {
        return;
      }
      if currentEditingEpisode == null {
        return;
      }
      if tag in currentEditingEpisode.tags {
        tagInput := "";
        return;
      }
      currentEditingEpisode.tags := currentEditingEpisode.tags + [tag];
      tagInput := "";
    }

    /** `removeTag(tag)`: every occurrence of `tag` leaves the open episode's tags. */
    method RemoveTag(tag: string)
      requires Valid()
      modifies currentEditingEpisode
      ensures Valid()
      ensures currentEditingEpisode != null ==>
                currentEditingEpisode.tags == Without(old(currentEditingEpisode.tags), tag)
    {
      if currentEditingEpisode == null {
        return;
      }
      currentEditingEpisode.tags := Without(currentEditingEpisode.tags, tag);
    }

    /**
     * The options `populatePodcastFilter` lists after "All Podcasts": one per
     * podcast of the loaded episodes, in order of first appearance, each
     * titled as the last episode of that podcast has it.
     */
    method PodcastFilterOptions() returns (options: seq<PodcastOption>)
      ensures options == UniqueByPodcast(PodcastPairs(episodes))
      ensures DistinctIds(options)
      ensures forall id :: HasId(options, id) <==> exists e | e in episodes :: e.podcastId == id
      ensures InFirstOccurrenceOrder(options, PodcastPairs(episodes))
    {
      var pairs := PodcastPairs(episodes);
      options := UniqueByPodcast(pairs);
      UniqueByPodcastIds(pairs);
      UniqueByPodcastOrder(pairs);
      forall id
        ensures HasId(options, id) <==> exists e | e in episodes :: e.podcastId == id
      {
        PodcastPairsIds(episodes, id);
      }
    }

    /** `updateFilteredCount`: the counter text, whose first number never exceeds the second. */
    method FilteredCount() returns (shown: nat, total: nat, text: string)
      requires Valid()
      ensures shown == |filteredEpisodes| && total == |episodes|
      ensures shown <= total
      ensures text == "Showing " + Decimal(shown) + " of " + Decimal(total) + " episodes"
    {
      shown, total := |filteredEpisodes|, |episodes|;
      text := "Showing " + Decimal(shown) + " of " + Decimal(total) + " episodes";
    }
  }
}
