/**
 * Feed normalisation: stable identifiers, artwork precedence, durations, and
 * the mapping from a parsed RSS document to the stored Feed record.
 *
 * Collaborators that are not modelled are parameters:
 *   md5  : string -> string, the hex MD5 digest (the hash function itself);
 *   now  : string, the ISO timestamp of the moment of ingestion;
 *   the parsed document (or the parser's error) is an input value.
 */
module RssUtils {
  import opened Wrappers
  import opened Text

  // ---------------------------------------------------------------------------
  // Identifiers

  /** How a template literal prints an optional string: a missing one prints as "undefined". */
  function TemplateText(s: Option<string>): string {
    match s
    case Some(v) => v
    case None => "undefined"
  }

  /** The text hashed for an episode id: `${feedUrl}|${title}|${pubDate}`. */
  function EpisodeKey(feedUrl: string, title: Option<string>, pubDate: Option<string>): string {
    feedUrl + "|" + TemplateText(title) + "|" + TemplateText(pubDate)
  }

  /** `generateEpisodeId`: "ep_" followed by the digest of the episode key. */
  function GenerateEpisodeId(md5: string -> string, feedUrl: string, title: Option<string>, pubDate: Option<string>): (id: string)
    ensures |id| >= 3 && id[..3] == "ep_"
    ensures id[3..] == md5(EpisodeKey(feedUrl, title, pubDate))
  {
    "ep_" + md5(EpisodeKey(feedUrl, title, pubDate))
  }

  /** `generateFeedId`: "feed_" followed by the digest of the url. */
  function GenerateFeedId(md5: string -> string, url: string): (id: string)
    ensures |id| >= 5 && id[..5] == "feed_"
    ensures id[5..] == md5(url)
  {
    "feed_" + md5(url)
  }

  /**
   * The episode id depends on nothing but the key text: two items whose
   * `feedUrl|title|pubDate` strings agree get the same id, whatever else differs.
   */
  lemma EpisodeIdDependsOnlyOnKey(md5: string -> string,
                                  url1: string, title1: Option<string>, date1: Option<string>,
                                  url2: string, title2: Option<string>, date2: Option<string>)
    requires EpisodeKey(url1, title1, date1) == EpisodeKey(url2, title2, date2)
    ensures GenerateEpisodeId(md5, url1, title1, date1) == GenerateEpisodeId(md5, url2, title2, date2)
  {
  }

  // ---------------------------------------------------------------------------
  // Artwork

  /** The shapes an image field takes in a parsed document. */
  datatype ImageNode =
    | NoImage                                                  // the field is absent
    | ImageText(text: string)                                  // a plain string
    | ImageObject(href: Option<string>, url: Option<string>)   // an element parsed to an object

  /** The four places artwork is looked for, in the order they are tried; None where there is no hit. */
  function ArtworkCandidates(itunesImage: ImageNode, image: ImageNode): seq<Option<string>> {
    [ if itunesImage.ImageObject? && Truthy(itunesImage.href) then itunesImage.href else None,
      if itunesImage.ImageText? then Some(itunesImage.text) else None,
      if image.ImageText? && image.text != "" then Some(image.text) else None,
      if image.ImageObject? && Truthy(image.url) then image.url else None ]
  }

  /**
   * `extractArtwork(item)`: `itunes:image.href`, then `itunes:image` as a
   * string, then `image` as a string, then `image.url`; else null.
   */
  function ExtractArtwork(itunesImage: ImageNode, image: ImageNode): (r: Option<string>)
    ensures var c := ArtworkCandidates(itunesImage, image);
            && (r.None? <==> forall i | 0 <= i < |c| :: c[i].None?)
            && (r.Some? ==> exists i | 0 <= i < |c| :: c[i] == r && forall j | 0 <= j < i :: c[j].None?)
  {
    var c := ArtworkCandidates(itunesImage, image);
    if itunesImage.ImageObject? && Truthy(itunesImage.href) then
      assert c[0] == itunesImage.href;
      itunesImage.href
    else if itunesImage.ImageText? then
      assert c[1] == Some(itunesImage.text);
      Some(itunesImage.text)
    else if image.ImageText? && image.text != "" then
      assert c[2] == Some(image.text);
      Some(image.text)
    else if image.ImageObject? && Truthy(image.url) then
      assert c[3] == image.url;
      image.url
    else None
  }

  // ---------------------------------------------------------------------------
  // Durations

  /** `parts[k]` read with `parseInt(…, 10) || 0`; a missing or empty field adds nothing. */
  function FieldValue(parts: seq<string>, k: nat): nat {
    if k < |parts| && parts[k] != "" then ParseInt(parts[k]).GetOr(0) else 0
  }

  /** The seconds of the reversed colon fields: seconds, minutes, hours; further fields are ignored. */
  function ColonSeconds(parts: seq<string>): nat {
    FieldValue(parts, 0) + 60 * FieldValue(parts, 1) + 3600 * FieldValue(parts, 2)
  }

  /**
   * What `parseDuration` returns: null for a missing or empty value, an
   * all-digit value unchanged, otherwise the total seconds of the
   * `[[H:]M:]S` reading as a decimal string.
   */
  function NormalizedDuration(duration: Option<string>): (r: Option<string>)
    ensures r.None? <==> !Truthy(duration)
    ensures Truthy(duration) && IsDigits(duration.value) ==> r == duration
    ensures r.Some? ==> IsDigits(r.value)
  {
    if !Truthy(duration) then None
    else if IsDigits(duration.value) then duration
    else Some(Decimal(ColonSeconds(Reverse(Split(duration.value, ':')))))
  }

  /** `parseDuration(duration)`, accumulating the seconds field by field as the source does. */
  method ParseDuration(duration: Option<string>) returns (r: Option<string>)
    ensures r == NormalizedDuration(duration)
  {
    if !Truthy(duration) {
      return None;
    }
    if IsDigits(duration.value) {
      return duration;
    }
    var parts := Reverse(Split(duration.value, ':'));
    var seconds: nat := 0;
    if |parts| > 0 && parts[0] != "" {
      seconds := seconds + ParseInt(parts[0]).GetOr(0);
    }
    if |parts| > 1 && parts[1] != "" {
      seconds := seconds + ParseInt(parts[1]).GetOr(0) * 60;
    }
    if |parts| > 2 && parts[2] != "" {
      seconds := seconds + ParseInt(parts[2]).GetOr(0) * 3600;
    }
    return Some(Decimal(seconds));
  }

  /** The `k`-th field counted from the right end, read as `FieldValue` reads it. */
  function FromRight(fields: seq<string>, k: nat): nat {
    var n := |fields|;
    if k < n && fields[n - 1 - k] != "" then ParseInt(fields[n - 1 - k]).GetOr(0) else 0
  }

  /**
   * The colon reading counted on the unreversed fields: last field + 60 *
   * the one before + 3600 * the one before that.
   */
  lemma ColonDurationFromTheRight(d: string)
    requires d != "" && !IsDigits(d)
    ensures var f := Split(d, ':');
            NormalizedDuration(Some(d)) == Some(Decimal(FromRight(f, 0) + 60 * FromRight(f, 1) + 3600 * FromRight(f, 2)))
  {
    var f := Split(d, ':');
    var parts := Reverse(f);
    assert FieldValue(parts, 0) == FromRight(f, 0);
    assert FieldValue(parts, 1) == FromRight(f, 1);
    assert FieldValue(parts, 2) == FromRight(f, 2);
  }

  lemma ColonMeansNotDigits(s: string)
    requires ':' in s
    ensures s != "" && !IsDigits(s)
  {
    if IsDigits(s) {
      DigitsHaveNoColon(s);
    }
  }

  lemma ColonSecondsIgnoresPrefix(x: string, f: seq<string>)
    requires |f| >= 3
    ensures ColonSeconds(Reverse([x] + f)) == ColonSeconds(Reverse(f))
  {
    var g := [x] + f;
    var rg, rf := Reverse(g), Reverse(f);
    assert |g| == |f| + 1;
    assert rg[0] == g[|f|] == f[|f| - 1] == rf[0];
    assert rg[1] == g[|f| - 1] == f[|f| - 2] == rf[1];
    assert rg[2] == g[|f| - 2] == f[|f| - 3] == rf[2];
  }

  /** Fields to the left of the third from the right do not count. */
  lemma ExtraLeadingFieldsIgnored(x: string, d: string)
    requires ':' !in x
    requires |Split(d, ':')| >= 3
    ensures NormalizedDuration(Some(x + ":" + d)) == NormalizedDuration(Some(d))
  {
    if ':' !in d {
      SplitNone(d, ':');
    }
    ColonMeansNotDigits(d);
    var e := x + [':'] + d;
    assert e[|x|] == ':';
    ColonMeansNotDigits(e);
    SplitAt(x, d, ':');
    ColonSecondsIgnoresPrefix(x, Split(d, ':'));
  }

  lemma SplitExample()
    ensures Split("1:02:03", ':') == ["1", "02", "03"]
  {
    SplitNone("03", ':');
    SplitAt("02", "03", ':');
    assert "02" + [':'] + "03" == "02:03";
    SplitAt("1", "02:03", ':');
    assert "1" + [':'] + "02:03" == "1:02:03";
  }

  lemma ColonSecondsExample()
    ensures ColonSeconds(["03", "02", "1"]) == 3723
  {
    assert DigitsValue("03") == 3 by {
      assert "03"[..1] == "0";
    }
    assert DigitsValue("02") == 2 by {
      assert "02"[..1] == "0";
    }
    assert IsDigits("1") && IsDigits("02") && IsDigits("03");
  }

  lemma DecimalExample()
    ensures Decimal(3723) == "3723"
  {
    assert "3723"[..3] == "372" && "372"[..2] == "37" && "37"[..1] == "3";
    assert DigitsValue("3723") == 3723;
    DecimalOfDigits("3723");
  }

  /** `"1:02:03"` is 3723 seconds, `"45"` stays `"45"`, and the empty string gives null. */
  lemma DurationExamples()
    ensures NormalizedDuration(Some("1:02:03")) == Some("3723")
    ensures NormalizedDuration(Some("45")) == Some("45")
    ensures NormalizedDuration(Some("")) == None
  {
    ClockDurationExample();
    assert IsDigits("45");
  }

  lemma ClockDurationExample()
    ensures NormalizedDuration(Some("1:02:03")) == Some("3723")
  {
    var d := "1:02:03";
    assert d[1] == ':';
    ColonMeansNotDigits(d);
    SplitExample();
    assert Reverse(Split(d, ':')) == ["03", "02", "1"];
    ColonSecondsExample();
    DecimalExample();
  }

  /** `H:MM:SS` when there are hours, `M:SS` otherwise. */
  function ClockText(n: nat): string {
    var hours := n / 3600;
    var minutes := (n % 3600) / 60;
    var secs := n % 60;
    if hours > 0 then Decimal(hours) + ":" + PadTwo(minutes) + ":" + PadTwo(secs)
    else Decimal(minutes) + ":" + PadTwo(secs)
  }

  /**
   * `formatDuration(seconds)`: empty for a missing or empty value, the clock
   * text of its `parseInt` reading otherwise (NaN renders as "NaN:NaN").
   */
  function FormatDuration(seconds: Option<string>): string {
    if !Truthy(seconds) then ""
    else
      match ParseInt(seconds.value)
      case None => "NaN:NaN"
      case Some(n) => ClockText(n)
  }

  lemma DigitsHaveNoColon(s: string)
    requires AllDigits(s)
    ensures ':' !in s
  {
  }

  /** The clock text splits at its colons into the hours, minutes and seconds fields. */
  lemma ClockSplit(n: nat)
    ensures Split(ClockText(n), ':') ==
              if n / 3600 > 0 then [Decimal(n / 3600), PadTwo((n % 3600) / 60), PadTwo(n % 60)]
              else [Decimal((n % 3600) / 60), PadTwo(n % 60)]
  {
    var hours, minutes, secs := n / 3600, (n % 3600) / 60, n % 60;
    var mm, ss := PadTwo(minutes), PadTwo(secs);
    DigitsHaveNoColon(mm);
    DigitsHaveNoColon(ss);
    SplitNone(ss, ':');
    SplitAt(mm, ss, ':');
    if hours > 0 {
      DigitsHaveNoColon(Decimal(hours));
      SplitAt(Decimal(hours), mm + ":" + ss, ':');
      assert ClockText(n) == Decimal(hours) + [':'] + (mm + [':'] + ss);
    } else {
      DigitsHaveNoColon(Decimal(minutes));
      SplitAt(Decimal(minutes), ss, ':');
      assert ClockText(n) == Decimal(minutes) + [':'] + ss;
    }
  }

  /** Hours, minutes below 60 and seconds below 60 add back up to `n`. */
  lemma ClockArithmetic(n: nat)
    ensures (n % 3600) / 60 < 60 && n % 60 < 60
    ensures 3600 * (n / 3600) + 60 * ((n % 3600) / 60) + n % 60 == n
    ensures n / 3600 > 0 <==> n >= 3600
  {
  }

  /**
   * The fields of the clock text: with hours, three fields `H`, `MM`, `SS`;
   * without, two fields `M`, `SS`; minutes and seconds below 60, the two
   * trailing fields exactly two digits, and together they add up to `n`.
   */
  lemma ClockFields(n: nat)
    ensures var p := Split(ClockText(n), ':');
            && (n >= 3600 ==>
                  && |p| == 3 && IsDigits(p[0]) && DigitsValue(p[0]) > 0
                  && |p[1]| == 2 && AllDigits(p[1]) && DigitsValue(p[1]) < 60
                  && |p[2]| == 2 && AllDigits(p[2]) && DigitsValue(p[2]) < 60
                  && 3600 * DigitsValue(p[0]) + 60 * DigitsValue(p[1]) + DigitsValue(p[2]) == n)
            && (n < 3600 ==>
                  && |p| == 2 && IsDigits(p[0]) && DigitsValue(p[0]) < 60
                  && |p[1]| == 2 && AllDigits(p[1]) && DigitsValue(p[1]) < 60
                  && 60 * DigitsValue(p[0]) + DigitsValue(p[1]) == n)
  {
    ClockSplit(n);
    ClockArithmetic(n);
    var hours, minutes, secs := n / 3600, (n % 3600) / 60, n % 60;
    var p := Split(ClockText(n), ':');
    if n >= 3600 {
      assert p == [Decimal(hours), PadTwo(minutes), PadTwo(secs)];
      assert DigitsValue(p[0]) == hours;
      assert DigitsValue(p[1]) == minutes;
      assert DigitsValue(p[2]) == secs;
    } else {
      assert p == [Decimal(minutes), PadTwo(secs)];
      assert DigitsValue(p[0]) == minutes;
      assert DigitsValue(p[1]) == secs;
    }
  }

  /** A field of exactly the digits of `v` reads back as `v`. */
  lemma FieldOfDigits(parts: seq<string>, k: nat)
    requires k < |parts| && IsDigits(parts[k])
    ensures FieldValue(parts, k) == DigitsValue(parts[k])
  {
  }

  /**
   * Round trip: a duration stored as the decimal string of `n` seconds,
   * rendered by `formatDuration` and read back by `parseDuration`, gives the
   * same decimal string.
   */
  lemma {:induction false} DurationRoundTrip(n: nat)
    ensures NormalizedDuration(Some(FormatDuration(Some(Decimal(n))))) == Some(Decimal(n))
  {
    var text := ClockText(n);
    assert FormatDuration(Some(Decimal(n))) == text;
    ClockFields(n);
    var p := Split(text, ':');
    assert text != "" && !IsDigits(text) by {
      if text == "" || IsDigits(text) {
        DigitsHaveNoColon(text);
        SplitNone(text, ':');
      }
    }
    if n >= 3600 {
      ColonSecondsOfThree(p);
    } else {
      ColonSecondsOfTwo(p);
    }
    assert ColonSeconds(Reverse(p)) == n;
  }

  /** Three digit fields `H`, `M`, `S` read as `3600 * H + 60 * M + S`. */
  lemma ColonSecondsOfThree(p: seq<string>)
    requires |p| == 3 && IsDigits(p[0]) && IsDigits(p[1]) && IsDigits(p[2])
    ensures ColonSeconds(Reverse(p)) == 3600 * DigitsValue(p[0]) + 60 * DigitsValue(p[1]) + DigitsValue(p[2])
  {
    var parts := Reverse(p);
    assert parts == [p[2], p[1], p[0]];
    FieldOfDigits(parts, 0);
    FieldOfDigits(parts, 1);
    FieldOfDigits(parts, 2);
  }

  /** Two digit fields `M`, `S` read as `60 * M + S`. */
  lemma ColonSecondsOfTwo(p: seq<string>)
    requires |p| == 2 && IsDigits(p[0]) && IsDigits(p[1])
    ensures ColonSeconds(Reverse(p)) == 60 * DigitsValue(p[0]) + DigitsValue(p[1])
  {
    var parts := Reverse(p);
    assert parts == [p[1], p[0]];
    FieldOfDigits(parts, 0);
    FieldOfDigits(parts, 1);
  }

  // ---------------------------------------------------------------------------
  // The parsed document and the stored records

  /** An item's `guid`: absent, a string, or an element parsed to an object with `_` and `content`. */
  datatype Guid = NoGuid | GuidText(text: string) | GuidObject(underscore: Option<string>, content: Option<string>)

  datatype Enclosure = Enclosure(url: Option<string>)

  /** One entry of the parser's output, with the custom fields the parser is configured for. */
  datatype RawItem = RawItem(
    guid: Guid,
    title: Option<string>,
    pubDate: Option<string>,
    content: Option<string>,
    contentSnippet: Option<string>,
    summary: Option<string>,
    itunesDuration: Option<string>,
    itunesImage: ImageNode,
    image: ImageNode,
    enclosure: Option<Enclosure>)

  /** The parser's output for a whole feed. */
  datatype RawFeed = RawFeed(
    title: Option<string>,
    description: Option<string>,
    itunesImage: ImageNode,
    image: ImageNode,
    items: seq<RawItem>)

  /** A stored episode record. */
  datatype Episode = Episode(
    episodeId: Option<string>,
    guid: Guid,
    title: string,
    pubDate: string,
    description: string,
    duration: Option<string>,
    image: Option<string>,
    audioUrl: Option<string>)

  /** A stored feed record. */
  datatype Feed = Feed(
    id: string,
    url: string,
    title: string,
    description: string,
    image: Option<string>,
    lastFetchedAt: string,
    episodes: seq<Episode>)

  /**
   * `item.guid || generateEpisodeId(url, item.title, item.pubDate)`, then an
   * object guid reduced to its `_` field, else its `content` field.
   */
  function ItemEpisodeId(md5: string -> string, url: string, item: RawItem): (id: Option<string>)
    ensures item.guid.GuidText? && item.guid.text != "" ==> id == Some(item.guid.text)
    ensures item.guid.GuidObject? ==> id == (if Truthy(item.guid.underscore) then item.guid.underscore else item.guid.content)
    ensures item.guid == NoGuid || item.guid == GuidText("") ==>
              id == Some(GenerateEpisodeId(md5, url, item.title, item.pubDate))
  {
    match item.guid
    case GuidObject(underscore, content) => if Truthy(underscore) then underscore else content
    case GuidText(text) => if text != "" then Some(text) else Some(GenerateEpisodeId(md5, url, item.title, item.pubDate))
    case NoGuid => Some(GenerateEpisodeId(md5, url, item.title, item.pubDate))
  }

  /** The first truthy string of a list, or `''`. */
  function FirstTruthy(candidates: seq<Option<string>>): (r: string)
    ensures r == "" <==> forall i | 0 <= i < |candidates| :: !Truthy(candidates[i])
    ensures r != "" ==> exists i | 0 <= i < |candidates| :: candidates[i] == Some(r) &&
                          forall j | 0 <= j < i :: !Truthy(candidates[j])
  {
    if |candidates| == 0 then ""
    else if Truthy(candidates[0]) then candidates[0].value
    else
      var r := FirstTruthy(candidates[1..]);
      assert forall i | 1 <= i < |candidates| :: candidates[i] == candidates[1..][i - 1];
      r
  }

  /** The record `parseRssFeed` builds for one item. */
  function NormalizeItem(md5: string -> string, url: string, item: RawItem, now: string): (e: Episode)
    ensures e.episodeId == ItemEpisodeId(md5, url, item)
    ensures e.guid == item.guid
    ensures e.title == (if item.title.Some? then item.title.value else "")
    ensures e.pubDate == (if Truthy(item.pubDate) then item.pubDate.value else now)
    ensures e.description == FirstTruthy([item.content, item.contentSnippet, item.summary])
    ensures e.duration == NormalizedDuration(item.itunesDuration)
    ensures e.image == ExtractArtwork(item.itunesImage, item.image)
    ensures e.audioUrl == (if item.enclosure.Some? then item.enclosure.value.url else None)
  {
    Episode(
      ItemEpisodeId(md5, url, item),
      item.guid,
      item.title.GetOr(""),
      if Truthy(item.pubDate) then item.pubDate.value else now,
      FirstTruthy([item.content, item.contentSnippet, item.summary]),
      NormalizedDuration(item.itunesDuration),
      ExtractArtwork(item.itunesImage, item.image),
      match item.enclosure
      case Some(enclosure) => enclosure.url
      case None => None)
  }

  /**
   * `parseRssFeed(url)` given what the parser returned for `url`: the feed
   * record, or the wrapped parser error.
   */
  function ParseRssFeed(md5: string -> string, url: string, parsed: Result<RawFeed, string>, now: string)
    : (r: Result<Feed, string>)
    ensures parsed.Err? ==> r == Err("Failed to parse RSS feed: " + parsed.error)
    ensures parsed.Ok? ==>
              && r.Ok?
              && r.value.id == GenerateFeedId(md5, url)
              && r.value.url == url
              && r.value.title == parsed.value.title.GetOr("")
              && r.value.description == parsed.value.description.GetOr("")
              && r.value.image == ExtractArtwork(parsed.value.itunesImage, parsed.value.image)
              && r.value.lastFetchedAt == now
              && |r.value.episodes| == |parsed.value.items|
              && forall i | 0 <= i < |parsed.value.items| ::
                   r.value.episodes[i] == NormalizeItem(md5, url, parsed.value.items[i], now)
  {
    match parsed
    case Err(message) => Err("Failed to parse RSS feed: " + message)
    case Ok(doc) =>
      var items := doc.items;
      var episodes := seq(|items|, i requires 0 <= i < |items| => NormalizeItem(md5, url, items[i], now));
      Ok(Feed(GenerateFeedId(md5, url), url, doc.title.GetOr(""), doc.description.GetOr(""),
              ExtractArtwork(doc.itunesImage, doc.image), now, episodes))
  }

  /**
   * Ingesting the same url twice yields the same feed id, and an item without
   * a guid gets the same episode id both times when its title and date agree.
   */
  lemma ReingestKeepsIds(md5: string -> string, url: string, doc1: RawFeed, doc2: RawFeed,
                         now1: string, now2: string, i: nat, j: nat)
    requires i < |doc1.items| && j < |doc2.items|
    requires doc1.items[i].guid == NoGuid && doc2.items[j].guid == NoGuid
    requires doc1.items[i].title == doc2.items[j].title && doc1.items[i].pubDate == doc2.items[j].pubDate
    ensures var f1 := ParseRssFeed(md5, url, Ok(doc1), now1).value;
            var f2 := ParseRssFeed(md5, url, Ok(doc2), now2).value;
            f1.id == f2.id && f1.episodes[i].episodeId == f2.episodes[j].episodeId
  {
  }
}
