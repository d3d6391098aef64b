# Podcast RSS aggregator — a Dafny model

This project models the core of a podcast dashboard. An Express server and a
set of serverless handlers ingest RSS feeds. They normalise every feed into a
stored record with stable ids, artwork and durations in seconds. They serve:

- a flattened, filtered, date-sorted listing of all episodes;
- a per-episode tag index;
- the sorted union of all tags.

Two browser dashboards load that listing. They filter it on the client, edit
tags in place and render durations and tag colours.

The model is split by the source's own structure:

| file | module | models |
|---|---|---|
| `rss_utils.dfy` | `RssUtils` | id derivation, artwork precedence, duration parsing and formatting, the item/feed mapping of `parseRssFeed` |
| `catalog.dfy` | `Catalog` | the tag index, the flattened episode view list, the three filters and the date order, feed summaries, lookups, setting tags, the sorted tag union |
| `http.dfy` | `Http` | responses as values: a status code and a JSON body |
| `server.dfy` | `Server` | the Express handlers; each takes the file contents it reads and returns the response together with what it writes back |
| `data_store.dfy` | `DataStore` | the in-memory store of the serverless deployment, a class with two records |
| `api_feeds.dfy`, `api_episodes.dfy`, `api_tags.dfy` | `FeedsApi`, `EpisodesApi`, `TagsApi` | the serverless handlers over that store |
| `dashboard_logic.dfy` | `DashboardLogic` | the value-level parts of the two dashboards: search text, tag normalisation, tag colours, podcast options, the short duration text |
| `dashboard_app.dfy` | `Dashboard` | the dashboard object; its episode objects are shared and their tag lists are edited in place |
| `text.dfy`, `seqs.dfy`, `wrappers.dfy` | `Text`, `Seqs`, `Wrappers` | the JavaScript string and array built-ins the source relies on, and `Option`/`Result` |

Collaborators that are not modelled are parameters of the operations that use
them:

- the MD5 digest is `md5: string -> string`;
- `new URL(url)` succeeding is `validUrl: string -> bool`;
- the RSS parser's answer for a url is `parsed: Result<RawFeed, string>`;
- `new Date(pubDate)` as a number is `dateKey: string -> int`;
- `new Date().toISOString()` is `now: string`.

A missing JSON property is `None`. A template literal prints a missing value
as `"undefined"`, and an object indexed with `undefined` reads key
`"undefined"`. Both are modelled because episode ids and tag lookups depend
on them.

## Model

| member | source | states |
|---|---|---|
| RssUtils.GenerateEpisodeId | server/utils/rssUtils.js:18-21 | the id is `ep_` followed by the digest of the feed url, title and pubDate joined by vertical bars; a missing title or date prints as `undefined` |
| RssUtils.GenerateFeedId | server/utils/rssUtils.js:28-30 | the id is `feed_` followed by the digest of the url |
| RssUtils.EpisodeIdDependsOnlyOnKey | server/utils/rssUtils.js:18-21 | two items whose joined url, title and pubDate text agree get the same episode id |
| RssUtils.ExtractArtwork | server/utils/rssUtils.js:37-59 | the result is the first hit among `itunes:image.href`, `itunes:image` as a string, a non-empty `image` string and `image.url`, in that order; null exactly when none hits |
| RssUtils.NormalizedDuration | server/utils/rssUtils.js:66-72 | null exactly for a missing or empty duration; an all-digit duration comes back unchanged; every result is a decimal digit string |
| RssUtils.ParseDuration | server/utils/rssUtils.js:66-83 | the field-by-field accumulation of `let seconds` returns exactly `NormalizedDuration`: an all-digit value unchanged, otherwise the decimal string of the colon reading |
| RssUtils.ColonDurationFromTheRight | server/utils/rssUtils.js:75-82 | a colon duration reads as last field + 60 × the one before + 3600 × the one before that; a missing, empty or non-numeric field counts 0 |
| RssUtils.ExtraLeadingFieldsIgnored | server/utils/rssUtils.js:75-80 | fields to the left of the third from the right do not change the result |
| RssUtils.DurationExamples | server/utils/rssUtils.js:66-82 | `"1:02:03"` gives `"3723"`, `"45"` stays `"45"`, the empty string gives null |
| RssUtils.ClockFields | server/utils/rssUtils.js:90-103 | `formatDuration(n)` has three fields `H:MM:SS` when n ≥ 3600 and two fields `M:SS` otherwise; hours are positive, minutes and seconds are below 60, the trailing fields are exactly two digits, and the fields add back up to n |
| RssUtils.DurationRoundTrip | server/utils/rssUtils.js:66-103 | for every whole number of seconds n ≥ 0, read as an unbounded integer, `parseDuration(formatDuration(String(n)))` is the decimal string of n; the client dashboard's `formatDuration` (client/app.js:439-452) builds the same text, so the round trip holds for it too |
| RssUtils.ItemEpisodeId | server/utils/rssUtils.js:118-123 | a non-empty string guid is the id; an object guid becomes its `_` field if truthy, else its `content` field; without a guid the id is `generateEpisodeId(url, title, pubDate)` on the raw title and date |
| RssUtils.FirstTruthy | server/utils/rssUtils.js:127 | the description is the first truthy of content, contentSnippet and summary, and `''` exactly when none is truthy |
| RssUtils.NormalizeItem | server/utils/rssUtils.js:117-131 | each field of the episode record: id as above, the guid kept, title defaulting to `''`, pubDate defaulting to the ingestion time, the normalised duration, the artwork, and the enclosure url or null |
| RssUtils.ParseRssFeed | server/utils/rssUtils.js:110-146 | a parser error becomes `Failed to parse RSS feed: <message>`; otherwise the feed id is `generateFeedId(url)`, title and description default to `''`, and the episodes correspond one to one, in order, to the items |
| RssUtils.ReingestKeepsIds | server/utils/rssUtils.js:114-123 | ingesting the same url twice gives the same feed id, and a guid-less item with the same title and date gets the same episode id |
| Text.ParseInt | server/utils/rssUtils.js:93 | `parseInt` is NaN exactly when the text does not start with a digit, and reads an all-digit text as its value |
| Text.DecimalOfDigits | server/utils/rssUtils.js:82 | `toString` of the value of a digit string without a leading zero gives back that string |
| Text.PadTwo | server/utils/rssUtils.js:99-101 | `padStart(2, '0')` of a number below 100 is two digits denoting it |
| Text.TrimIsSliceBetweenSpace | app.js:391 | `trim()` returns the part of the text between its leading and its trailing white space, and returns "" exactly when the text is all white space |
| Catalog.TagsFor | server/index.js:216 | the tags of a view are the index entry under the episode's key, or `[]` when there is none |
| Catalog.FeedViews | server/index.js:205-217 | one view per episode of the feed, in order, carrying the feed's id and title |
| Catalog.FlattenAt | server/index.js:201-220 | the flattened listing holds the view of episode j of feed i at the offset of feed i plus j |
| Catalog.AggregateEpisodes | server/index.js:201-220 | the `forEach`/`concat` loop builds exactly the flattened listing; the serverless handler's loop (api/episodes.js:32-51) builds the same listing |
| Catalog.ApplyQueryIsSelection | server/index.js:222-240 | the three sequential filters keep, in order, exactly the views that pass the podcast, text and tag tests together |
| Catalog.ListEpisodes | server/index.js:201-243 | the listing is a permutation of the selected views, sorted by non-increasing date key |
| Catalog.ListedExactlySelected | api/episodes.js:53-71 | a view is listed exactly when it is in the flattened listing and has the requested podcast id, contains the lowercased query in a lowercased field, and carries the requested tag |
| Catalog.Summaries | api/feeds.js:23-31 | one summary per feed, in order, with the feed's fields and its number of episodes |
| Catalog.SummariesCountEpisodes | server/index.js:41-49 | the `episodeCount` fields add up to the length of the flattened episode listing |
| Catalog.FindByUrl | server/index.js:86 | the first feed whose url is exactly the given url, or none exactly when no feed has it |
| Catalog.FirstIndexWithId | server/index.js:122 | the first index whose feed has the id, or none (-1) exactly when no feed has it |
| Catalog.SetTags | server/index.js:272-276 | after the update the key is present exactly when the list is non-empty, holds exactly that list, and every other entry is unchanged |
| Catalog.SetTagsThenRead | api/tags.js:55-61 | reading the entry back after a set gives the list set, or `[]` after an empty list |
| Catalog.SetThenClear | api/tags.js:55-56 | setting tags and then clearing them removes the key and leaves the rest of the index as it was |
| Catalog.SetTagsKeepsEntriesNonEmpty | server/index.js:272-276 | updates never leave an empty entry in the index |
| Catalog.InsertSorted | server/index.js:307 | inserting a new tag into a sorted tag list keeps it strictly sorted and adds exactly that tag |
| Catalog.CollectTags | server/index.js:300-307 | the `Set` built by the nested loops, sorted, is strictly sorted (so duplicate-free) and holds exactly the tags of all entries |
| Http.MethodNotAllowed | api/episodes.js:18-24 | a 405 error without a feed, whose message contains the refused method |
| Http.FeedNotFound | server/index.js:124-129 | a 404 error without a feed, whose message contains the missing feed id |
| Server.GetFeeds | server/index.js:37-57 | a 200 whose list is `Summaries` of the stored feeds: every field of each feed in stored order, with its episode count; the counts add up to the number of stored episodes |
| Server.AddFeed | server/index.js:62-112 | a falsy url is a 400, an invalid url is a 400, a stored url is a 409 carrying the stored feed, a parser failure is a 500 with the wrapped message, and nothing is written in these cases; otherwise the parsed feed is appended and returned with 201 |
| Server.AddedUrlIsFound | server/index.js:86-99 | after an append, the duplicate check finds the new feed, so adding the same url again is a conflict |
| Server.DeleteFeed | server/index.js:117-154 | an unknown id is a 404 with nothing written; otherwise the first feed with the id is removed and the tag entry of each of its episodes is deleted by the loop |
| Server.DeleteCascade | server/index.js:131-140 | after a delete no episode of the removed feed keeps a tag entry, every other entry is unchanged, and the other feeds keep their order |
| Server.RefreshFeed | server/index.js:159-189 | an unknown id is a 404; a parser failure is a 500 with nothing written; otherwise the feed is replaced in place by the re-parsed one, keeping its id and url |
| Server.GetEpisodes | server/index.js:194-252 | a 200 whose listing is a permutation of the selected views, sorted by non-increasing date key |
| Server.PutEpisodeTags | server/index.js:257-291 | a non-array `tags` is a 400 with nothing written; otherwise the entry is set as `SetTags` says and the answer echoes the id and tags |
| Server.GetTags | server/index.js:296-316 | a 200 with the strictly sorted union of all tags and the index itself |
| DataStore.SeedTagsBelongToSeedEpisodes | api/_utils/dataStore.js:5-34 | every tag entry of the initial data belongs to an episode of the initial feed |
| DataStore.InitFeeds | api/_utils/dataStore.js:77-79 | a missing feeds list becomes empty, a present one is kept |
| DataStore.InitTags | api/_utils/dataStore.js:80-82 | a missing tag index becomes empty, a present one is kept |
| DataStore.InitializeIdempotent | api/_utils/dataStore.js:76-83 | initialising twice is the same as initialising once |
| DataStore.Store.constructor | api/_utils/dataStore.js:5-34 | the store starts with the demo feed and its tags |
| DataStore.Store.GetFeeds | api/_utils/dataStore.js:40-42 | returns the feeds record and changes nothing |
| DataStore.Store.SaveFeeds | api/_utils/dataStore.js:49-52 | the feeds record becomes the given one and the tags record is untouched |
| DataStore.Store.GetTags | api/_utils/dataStore.js:58-60 | returns the tags record and changes nothing |
| DataStore.Store.SaveTags | api/_utils/dataStore.js:67-70 | the tags record becomes the given one and the feeds record is untouched |
| DataStore.Store.InitializeData | api/_utils/dataStore.js:76-83 | both records hold their list afterwards, present data is left alone, and the store is valid |
| FeedsApi.Handle | api/feeds.js:7-94 | OPTIONS is a bare 200; GET lists the summaries; POST validates, refuses a stored url with 409 and appends a parsed feed with 201; a parser failure is a 500; any other method is a 405; only a successful POST changes the store, and the tags record is never touched |
| EpisodesApi.Handle | api/episodes.js:7-84 | OPTIONS is a bare 200, any method but GET is a 405, and GET answers the filtered listing sorted by date; the store is only read |
| TagsApi.Handle | api/tags.js:7-83 | GET answers the sorted union; PUT without an episode id or with a non-array `tags` is a 400 with nothing saved, otherwise the entry is set and echoed; any other method is a 405; the feeds record is never touched |
| DashboardLogic.ServerMatchIsClientMatch | app.js:179-186 | every episode the server's per-field text filter keeps is kept by the dashboard's search over `title podcastTitle description` |
| DashboardLogic.ClientMatchesAcrossFields | client/app.js:161-166 | the converse fails: a query spanning two fields matches the dashboard's text but no single field |
| DashboardLogic.NormalizeTag | app.js:391 | the tag is the input cut between its leading and trailing white space, each character lower-cased; it is empty exactly when the input is all white space; it has no white space at its ends and no upper-case letter |
| DashboardLogic.NormalizeTagIdempotent | client/app.js:350 | normalising a normalised tag changes nothing |
| DashboardLogic.WithTag | app.js:393-400 | an empty or already present tag leaves the list exactly as it is; any other is appended at the end; a duplicate-free list stays duplicate-free |
| DashboardLogic.Without | app.js:405-410 | no occurrence of the tag remains; every other tag stays as often as it occurred, in its order |
| DashboardLogic.RemoveUndoesAdd | client/app.js:348-369 | removing a tag that was just added gives back the original list |
| DashboardLogic.TagColorIndex | app.js:331-343 | the char-code sum modulo 6 is always a valid palette index |
| DashboardLogic.SameCharsSameColor | app.js:341-342 | two tags with the same characters, each as often, get the same colour, whatever their order |
| DashboardLogic.UniqueByPodcastIds | app.js:449 | the options hold one entry per podcast id, exactly the ids of the loaded episodes |
| DashboardLogic.UniqueByPodcastTitles | app.js:449-452 | each option shows the title of the last episode with that podcast id |
| DashboardLogic.UniqueByPodcastOrder | client/app.js:408-411 | options come in the order in which their podcasts first appear |
| DashboardLogic.ShortDurationRoundTrip | app.js:480-492 | the short text of any seconds value written in digits, read as an unbounded integer, reads back as its whole minutes |
| Dashboard.EpisodeCard.constructor | app.js:67-73 | an episode object carries the fields of its listing entry |
| Dashboard.Kept | app.js:169-194 | the filtered list is a subsequence of the loaded one and holds exactly the episodes that pass the podcast, search and tag tests |
| Dashboard.KeptWithoutFilters | client/app.js:181-186 | with all three controls empty every episode is kept, in order |
| Dashboard.KeptIdempotent | client/app.js:150-175 | applying the same filters to the filtered list changes nothing |
| Dashboard.FindCard | app.js:356-357 | the episode opened for editing is the first loaded one with the id, or none when no loaded episode has it |
| Dashboard.PodcastPairsIds | app.js:449 | a podcast id occurs among the option pairs exactly when a loaded episode has it |
| Dashboard.App.constructor | app.js:3-12 | a new dashboard has nothing loaded, nothing open and empty controls |
| Dashboard.App.LoadEpisodes | app.js:67-80 | one new, distinct episode object per listing entry, and all of them shown |
| Dashboard.App.ApplyFilters | app.js:169-198 | the shown episodes become exactly those the controls let through, as `Kept` characterises them; client/app.js:150-179 applies the same three tests |
| Dashboard.App.ClearFilters | app.js:200-206 | the three controls are emptied and every loaded episode is shown; client/app.js:181-186 does the same |
| Dashboard.App.OpenTagEditor | app.js:356-363 | the open episode is the first loaded one with the id, or none |
| Dashboard.App.CloseTagModal | app.js:365-369 | no episode is open and the tag input is empty |
| Dashboard.App.AddTag | app.js:389-403 | an empty normalised tag or no open episode leaves the input and the open episode's tags unchanged; otherwise the tag is added in place to the shared episode unless present, and the input is cleared; client/app.js:348-362 behaves the same |
| Dashboard.App.RemoveTag | app.js:405-410 | every occurrence of the tag leaves the open episode's tags, the rest keep their order; client/app.js:364-369 does the same |
| Dashboard.App.PodcastFilterOptions | app.js:443-455 | one option per podcast of the loaded episodes, with no repeated id, in order of first appearance; client/app.js:402-414 does the same |
| Dashboard.App.FilteredCount | app.js:475-478 | the counter reads `Showing X of Y episodes` and X never exceeds Y |

## Left out

- File and network I/O: `readJson`, `writeJsonAtomic` and the 500 answers when a read or write throws. The `fetch` calls of both dashboards (`loadFeeds`, `loadTags`, `addFeed`, `deleteFeed`, `saveTags`) are also out. Storage is a value handed in and handed back.
- The RSS parser, network fetching and XML: the parser's answer is an input value.
- MD5 is an arbitrary function parameter. Nothing is claimed about distinct urls getting distinct ids.
- URL validation is an abstract predicate.
- Date parsing and the clock: dates sort through an abstract numeric key, so NaN dates and the comparator's behaviour on them are not modelled. `formatDate` and `isRecentEpisode` are out. The clock is read once per parse: the same `now` fills every missing `pubDate` and `lastFetchedAt`, whereas server/utils/rssUtils.js:126 and :140 call `new Date()` separately, so the source's timestamps can differ by the time the parse takes.
- RssUtils.DurationRoundTrip: numbers are unbounded integers. The source reads them with `parseInt` into a double and divides with `Math.floor`, so from 2^53 seconds up the value is rounded and from 10^21 up `toString` prints exponent notation; the round trip is not promised there.
- RssUtils.NormalizedDuration, RssUtils.ParseDuration, RssUtils.ColonDurationFromTheRight, RssUtils.ClockFields: durations are unbounded integers. The source sums the fields as doubles (server/utils/rssUtils.js:77-82, :93-102), so a field of 2^53 or more is rounded, a total of 10^21 or more prints in exponent notation ("99999999999999999999:00" gives "6e+21"), and a field of more than about 308 digits gives "Infinity"; the digit-string result, the exact colon sum and the fields adding back up to n are promised only below 2^53.
- DashboardLogic.ShortDurationRoundTrip: the same unbounded-integer reading; beyond 2^53 seconds the source's arithmetic rounds.
- Text.ParseInt: reads only leading ASCII digits. Leading white space, signs and hexadecimal prefixes are not handled. The dashboards call `parseInt` without a radix, which would read `0x…` as hexadecimal.
- Text.Lower: lower-cases ASCII letters only, not the full Unicode mapping.
- Text.LexLess: orders by code points. JavaScript's default sort compares UTF-16 code units, and the two differ only for characters outside the Basic Multilingual Plane.
- DashboardLogic.CodeSum: sums code points where `charCodeAt` sums UTF-16 units. The colour index can differ only for characters outside the Basic Multilingual Plane.
- CORS headers, Express routing, the health endpoint and the 404/500 middleware are out.
- Read-modify-write races between concurrent requests are not modelled. Each handler runs alone.
- Request fields that are not strings (for example a numeric `url`) are not modelled. Neither are property keys that collide with `Object.prototype` names.
- `api/_utils/rssUtils.js` is not part of this model. The serverless feeds handler is modelled with the server's `parseRssFeed`.
- `api/episodes/[episodeId]/tags.js` and `test-local.js` are not part of this model.
- Rendering and event wiring in both dashboards: `render*`, `escapeHtml`, `stripHtml`, `setFilterChip`, `toggleDescription`, the modal's visibility, focus, and `populateTagFilter`.
- Dashboard.App.PodcastFilterOptions: returns the options rather than writing them into the `<select>`. It does not model the browser resetting `select.value` when the previous value is no longer offered.
- Dashboard.App.LoadEpisodes: models only a successful load. A failed fetch leaves the dashboard unchanged.
