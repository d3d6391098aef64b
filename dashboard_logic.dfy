/**
 * The value-level logic of the two dashboard scripts: the client-side search
 * predicate, tag normalisation and editing, tag colours, the podcast options
 * and the short duration text.
 */
module DashboardLogic {
  import opened Wrappers
  import opened Text
  import opened Seqs
  import opened Catalog

  // ---------------------------------------------------------------------------
  // Search

  /** `${episodeTitle} ${podcastTitle} ${description}` */
  function SearchText(episodeTitle: string, podcastTitle: string, description: string): string {
    episodeTitle + " " + podcastTitle + " " + description
  }

  /** The client's text test: the (already lowercased) query occurs in the lowercased search text. */
  predicate ClientTextMatch(episodeTitle: string, podcastTitle: string, description: string, query: string) {
    Contains(Lower(SearchText(episodeTitle, podcastTitle, description)), query)
  }

  /** Whatever the server's per-field text filter keeps, the client's concatenated search keeps too. */
  lemma ServerMatchIsClientMatch(v: EpisodeView, query: string)
    requires MatchesText(v, query)
    ensures ClientTextMatch(v.episodeTitle, v.podcastTitle, v.description, query)
  {
    var t, p, d := Lower(v.episodeTitle), Lower(v.podcastTitle), Lower(v.description);
    LowerAppend(v.episodeTitle + " " + v.podcastTitle + " ", v.description);
    LowerAppend(v.episodeTitle + " " + v.podcastTitle, " ");
    LowerAppend(v.episodeTitle + " ", v.podcastTitle);
    LowerAppend(v.episodeTitle, " ");
    assert Lower(" ") == " ";
    var all := Lower(SearchText(v.episodeTitle, v.podcastTitle, v.description));
    assert all == t + " " + p + " " + d;
    if Contains(t, query) {
      ContainsInConcat([], t, " " + p + " " + d, query);
      assert [] + t + (" " + p + " " + d) == all;
    } else if Contains(p, query) {
      ContainsInConcat(t + " ", p, " " + d, query);
      assert t + " " + p + (" " + d) == all;
    } else {
      ContainsInConcat(t + " " + p + " ", d, [], query);
      assert t + " " + p + " " + d + [] == all;
    }
  }

  /**
   * The converse fails: a query spanning two fields matches the client's
   * concatenated text but none of the server's fields.
   */
  lemma ClientMatchesAcrossFields()
    ensures ClientTextMatch("a", "b", "", "a b")
    ensures !MatchesText(EpisodeView(None, "p", "b", None, "a", None, "", None, "", None, []), "a b")
  {
    assert Lower(SearchText("a", "b", "")) == "a b ";
    assert "a b" <= "a b "[0..];
  }

  // ---------------------------------------------------------------------------
  // Tag editing

  /** Lower-casing keeps non-space ends non-space and leaves no upper-case letter. */
  lemma LowerKeepsEnds(t: string)
    requires t == "" || (!IsJsSpace(t[0]) && !IsJsSpace(t[|t| - 1]))
    ensures var l := Lower(t);
            && (l == "" || (!IsJsSpace(l[0]) && !IsJsSpace(l[|l| - 1])))
            && forall i | 0 <= i < |l| :: !('A' <= l[i] <= 'Z')
  {
    if t != "" {
      LowerCharKeepsSpace(t[0]);
      LowerCharKeepsSpace(t[|t| - 1]);
    }
  }

  /** Lower-casing a slice lower-cases the characters it was cut from. */
  lemma LowerOfSlice(input: string, k: nat, t: string)
    requires k + |t| <= |input| && t == input[k..k + |t|]
    ensures forall i | 0 <= i < |t| :: Lower(t)[i] == LowerChar(input[k + i])
  {
  }

  /** `tag` is `input` cut between white space on both sides, with each character lower-cased. */
  predicate LoweredBetweenSpace(input: string, tag: string) {
    exists k | 0 <= k <= |input| - |tag| ::
      && SpaceOutside(input, k, |tag|)
      && forall i | 0 <= i < |tag| :: tag[i] == LowerChar(input[k + i])
  }

  /** The lower-cased trim of `input` is empty exactly when `input` is all white space. */
  lemma LowerOfTrimEmpty(input: string)
    ensures Lower(Trim(input)) == "" <==> forall i | 0 <= i < |input| :: IsJsSpace(input[i])
  {
    TrimIsSliceBetweenSpace(input);
  }

  /** The lower-cased trim of `input` is its slice between white space, lower-cased. */
  lemma LowerOfTrimSlice(input: string)
    ensures LoweredBetweenSpace(input, Lower(Trim(input)))
  {
    var t := Trim(input);
    TrimIsSliceBetweenSpace(input);
    var k :| 0 <= k <= |input| - |t| && t == input[k..k + |t|] && SpaceOutside(input, k, |t|);
    LoweredSlice(input, k, t);
  }

  /** Lower-casing a slice with white space all around it gives a lowered slice between white space. */
  lemma LoweredSlice(input: string, k: nat, t: string)
    requires k + |t| <= |input| && t == input[k..k + |t|] && SpaceOutside(input, k, |t|)
    ensures LoweredBetweenSpace(input, Lower(t))
  {
    var tag := Lower(t);
    LowerOfSlice(input, k, t);
    assert 0 <= k <= |input| - |tag| && SpaceOutside(input, k, |tag|)
           && forall i | 0 <= i < |tag| :: tag[i] == LowerChar(input[k + i]);
  }

  /**
   * `input.value.trim().toLowerCase()`: the input between its leading and
   * trailing white space, lower-cased; empty exactly when the input is all
   * white space.
   */
  function NormalizeTag(input: string): (tag: string)
    ensures tag == "" || (!IsJsSpace(tag[0]) && !IsJsSpace(tag[|tag| - 1]))
    ensures forall i | 0 <= i < |tag| :: !('A' <= tag[i] <= 'Z')
    ensures tag == "" <==> forall i | 0 <= i < |input| :: IsJsSpace(input[i])
    ensures LoweredBetweenSpace(input, tag)
  {
    LowerKeepsEnds(Trim(input));
    LowerOfTrimEmpty(input);
    LowerOfTrimSlice(input);
    Lower(Trim(input))
  }

  /** Normalising a normalised tag changes nothing. */
  lemma NormalizeTagIdempotent(input: string)
    ensures NormalizeTag(NormalizeTag(input)) == NormalizeTag(input)
  {
    var t := Trim(input);
    LowerTrim(t);
    TrimIdempotent(input);
    LowerIdempotent(t);
  }

  /** The tag list after `addTag`: an empty or already present tag changes nothing, any other is appended. */
  function WithTag(tags: seq<string>, tag: string): (r: seq<string>)
    ensures tag == "" || tag in tags ==> r == tags
    ensures tag != "" && tag !in tags ==> r == tags + [tag]
    ensures tag != "" ==> tag in r
    ensures forall t | t in r :: t in tags || t == tag
    ensures tags <= r && |r| <= |tags| + 1
    ensures NoDuplicates(tags) ==> NoDuplicates(r)
  {
    if tag == "" || tag in tags then tags else tags + [tag]
  }

  /** The tag list after `removeTag`: every occurrence of `tag` goes, the rest keep their order. */
  function Without(tags: seq<string>, tag: string): (r: seq<string>)
    ensures tag !in r
    ensures forall t | t in tags && t != tag :: t in r
    ensures IsSubsequence(r, tags)
    ensures multiset(r) == multiset(tags)[tag := 0]
  {
    var keep := (t: string) => t != tag;
    FilterMultiset(tags, keep);
    Filter(tags, keep)
  }

  /** Removing a tag that was just added restores the list. */
  lemma RemoveUndoesAdd(tags: seq<string>, tag: string)
    requires tag !in tags
    ensures Without(WithTag(tags, tag), tag) == tags
  {
    var p := (t: string) => t != tag;
    if tag != "" {
      FilterConcat(tags, [tag], p);
      assert Filter([tag], p) == [];
    }
    FilterAll(tags, p);
  }

  // ---------------------------------------------------------------------------
  // Tag colours

  datatype TagStyle = TagStyle(bg: string, text: string, border: string)

  /** The six tag styles, in the order `getTagColor` indexes them. */
  const Palette: seq<TagStyle> := [
    TagStyle("bg-cyan-900/20", "text-cyan-400", "border-cyan-800/30"),
    TagStyle("bg-violet-900/20", "text-violet-400", "border-violet-800/30"),
    TagStyle("bg-pink-900/20", "text-pink-400", "border-pink-800/30"),
    TagStyle("bg-blue-900/20", "text-blue-400", "border-blue-800/30"),
    TagStyle("bg-green-900/20", "text-green-400", "border-green-800/30"),
    TagStyle("bg-orange-900/20", "text-orange-400", "border-orange-800/30")
  ]

  /** `tag.split('').reduce((acc, char) => acc + char.charCodeAt(0), 0)` */
  function CodeSum(s: string): nat {
    if |s| == 0 then 0 else CodeSum(s[..|s| - 1]) + s[|s| - 1] as nat
  }

  lemma {:induction false} CodeSumAppend(a: string, b: string)
    ensures CodeSum(a + b) == CodeSum(a) + CodeSum(b)
    decreases |b|
  {
    if |b| > 0 {
      assert (a + b)[..|a + b| - 1] == a + b[..|b| - 1];
      CodeSumAppend(a, b[..|b| - 1]);
    } else {
      assert a + b == a;
    }
  }

  /** The palette index of a tag: always a valid index. */
  function TagColorIndex(tag: string): (i: nat)
    ensures i < |Palette|
  {
    CodeSum(tag) % |Palette|
  }

  function TagColor(tag: string): TagStyle {
    Palette[TagColorIndex(tag)]
  }

  lemma CodeSumSingle(c: char)
    ensures CodeSum([c]) == c as nat
  {
    assert [c][..0] == [];
  }

  /** A character between two parts adds its code to the sum of the parts. */
  lemma CodeSumMiddle(pre: string, c: char, post: string)
    ensures CodeSum(pre + [c] + post) == CodeSum(pre + post) + c as nat
  {
    assert pre + [c] + post == pre + ([c] + post);
    CodeSumAppend(pre, [c] + post);
    CodeSumAppend([c], post);
    CodeSumSingle(c);
    CodeSumAppend(pre, post);
  }

  /** Strings with the same characters, each as often, have the same code sum, whatever the order. */
  lemma {:induction false} CodeSumOfSameChars(a: string, b: string)
    requires multiset(a) == multiset(b)
    ensures CodeSum(a) == CodeSum(b)
    decreases |a|
  {
    if |a| == 0 {
      assert |b| == |multiset(b)| == 0;
    } else {
      var n := |a|;
      var c := a[n - 1];
      var rest := a[..n - 1];
      assert a == rest + [c];
      assert c in multiset(b);
      var j :| 0 <= j < |b| && b[j] == c;
      var others := b[..j] + b[j + 1..];
      assert b == b[..j] + [c] + b[j + 1..];
      var before, after := multiset(b[..j]), multiset(b[j + 1..]);
      assert multiset(a) == multiset(rest) + multiset{c};
      assert multiset(b) == before + multiset{c} + after;
      assert multiset(others) == before + after;
      forall x
        ensures multiset(others)[x] == multiset(rest)[x]
      {
        assert multiset(b)[x] == before[x] + multiset{c}[x] + after[x];
        assert multiset(a)[x] == multiset(rest)[x] + multiset{c}[x];
      }
      assert multiset(others) == multiset(rest);
      CodeSumOfSameChars(rest, others);
      CodeSumMiddle(b[..j], c, b[j + 1..]);
    }
  }

  /** The colour depends only on which characters the tag has and how often, not on their order. */
  lemma SameCharsSameColor(a: string, b: string)
    requires multiset(a) == multiset(b)
    ensures TagColor(a) == TagColor(b)
  {
    CodeSumOfSameChars(a, b);
  }

  // ---------------------------------------------------------------------------
  // Podcast options

  /** One `<option>` of the podcast filter: a podcast id and the title shown for it. */
  datatype PodcastOption = PodcastOption(podcastId: string, podcastTitle: string)

  predicate HasId(options: seq<PodcastOption>, id: string) {
    exists i | 0 <= i < |options| :: options[i].podcastId == id
  }

  /** Where `id` first occurs. */
  function FirstIndex(options: seq<PodcastOption>, id: string): (r: nat)
    requires HasId(options, id)
    ensures r < |options| && options[r].podcastId == id
    ensures forall j | 0 <= j < r :: options[j].podcastId != id
  {
    if options[0].podcastId == id then 0
    else
      assert HasId(options[1..], id) by {
        var i :| 0 <= i < |options| && options[i].podcastId == id;
        assert options[1..][i - 1] == options[i];
      }
      FirstIndex(options[1..], id) + 1
  }

  /** The title of the last occurrence of `id`. */
  function LastTitle(options: seq<PodcastOption>, id: string): string
    requires HasId(options, id)
  {
    var n := |options|;
    if options[n - 1].podcastId == id then options[n - 1].podcastTitle
    else
      assert HasId(options[..n - 1], id) by {
        var i :| 0 <= i < n && options[i].podcastId == id;
        assert options[..n - 1][i] == options[i];
      }
      LastTitle(options[..n - 1], id)
  }

  /** Where `id` occurs among the entries of a map being built, or -1. */
  function IndexOfId(entries: seq<PodcastOption>, id: string): (r: int)
    ensures -1 <= r < |entries|
    ensures r == -1 <==> !HasId(entries, id)
    ensures r >= 0 ==> entries[r].podcastId == id
  {
    if |entries| == 0 then -1
    else if entries[|entries| - 1].podcastId == id then |entries| - 1
    else
      var r := IndexOfId(entries[..|entries| - 1], id);
      assert forall i | 0 <= i < |entries| - 1 :: entries[..|entries| - 1][i] == entries[i];
      r
  }

  lemma FirstIndexInPrefix(options: seq<PodcastOption>, last: PodcastOption, id: string)
    requires HasId(options, id)
    ensures HasId(options + [last], id)
    ensures FirstIndex(options + [last], id) == FirstIndex(options, id)
  {
    var all := options + [last];
    var k := FirstIndex(options, id);
    assert all[k] == options[k];
    assert forall j | 0 <= j < k :: all[j] == options[j];
  }

  /**
   * `[...new Map(pairs.map(p => [p.podcastId, p])).values()]`: a Map keeps the
   * place a key was first set at and overwrites its value on every later set.
   */
  function UniqueByPodcast(pairs: seq<PodcastOption>): (r: seq<PodcastOption>)
    ensures |r| <= |pairs|
  {
    if |pairs| == 0 then []
    else
      var last := pairs[|pairs| - 1];
      var prev := UniqueByPodcast(pairs[..|pairs| - 1]);
      var at := IndexOfId(prev, last.podcastId);
      if at >= 0 then prev[at := last] else prev + [last]
  }

  predicate DistinctIds(r: seq<PodcastOption>) {
    forall i, j | 0 <= i < j < |r| :: r[i].podcastId != r[j].podcastId
  }

  /** Entries of `r` come in the order in which their ids first occur in `pairs`. */
  predicate InFirstOccurrenceOrder(r: seq<PodcastOption>, pairs: seq<PodcastOption>) {
    forall i, j | 0 <= i < j < |r| ::
      HasId(pairs, r[i].podcastId) && HasId(pairs, r[j].podcastId) &&
      FirstIndex(pairs, r[i].podcastId) < FirstIndex(pairs, r[j].podcastId)
  }

  /** Facts about the last step: how the ids of `pairs` relate to those of all but its last entry. */
  lemma LastStep(pairs: seq<PodcastOption>)
    requires |pairs| > 0
    ensures var init, last := pairs[..|pairs| - 1], pairs[|pairs| - 1];
            && HasId(pairs, last.podcastId)
            && (forall id | HasId(init, id) :: HasId(pairs, id))
            && (forall id | HasId(pairs, id) :: HasId(init, id) || id == last.podcastId)
  {
    var n := |pairs|;
    var init, last := pairs[..n - 1], pairs[n - 1];
    forall id | HasId(init, id)
      ensures HasId(pairs, id)
    {
      var i :| 0 <= i < n - 1 && init[i].podcastId == id;
      assert pairs[i] == init[i];
    }
    forall id | HasId(pairs, id)
      ensures HasId(init, id) || id == last.podcastId
    {
      var i :| 0 <= i < n && pairs[i].podcastId == id;
      if i < n - 1 {
        assert init[i] == pairs[i];
      }
    }
  }

  /** Overwriting the entry whose id is the last pair's id keeps every id in its place. */
  lemma OverwriteKeepsIds(prev: seq<PodcastOption>, at: int, last: PodcastOption)
    requires 0 <= at < |prev| && prev[at].podcastId == last.podcastId
    ensures var r := prev[at := last];
            && |r| == |prev|
            && (forall i | 0 <= i < |r| :: r[i].podcastId == prev[i].podcastId)
            && (forall id :: HasId(r, id) <==> HasId(prev, id))
  {
    var r := prev[at := last];
    forall id
      ensures HasId(r, id) <==> HasId(prev, id)
    {
      if HasId(r, id) {
        var i :| 0 <= i < |r| && r[i].podcastId == id;
        assert prev[i].podcastId == id;
      }
      if HasId(prev, id) {
        var i :| 0 <= i < |prev| && prev[i].podcastId == id;
        assert r[i].podcastId == id;
      }
    }
  }

  /** Appending adds exactly the appended id. */
  lemma AppendAddsId(prev: seq<PodcastOption>, last: PodcastOption)
    ensures forall id :: HasId(prev + [last], id) <==> HasId(prev, id) || id == last.podcastId
  {
    var r := prev + [last];
    forall id
      ensures HasId(r, id) <==> HasId(prev, id) || id == last.podcastId
    {
      if HasId(r, id) {
        var i :| 0 <= i < |r| && r[i].podcastId == id;
        if i < |prev| {
          assert prev[i].podcastId == id;
        }
      }
      if HasId(prev, id) {
        var i :| 0 <= i < |prev| && prev[i].podcastId == id;
        assert r[i].podcastId == id;
      }
      assert r[|prev|] == last;
    }
  }

  /** One option per podcast, and exactly the podcasts that occur in `pairs`. */
  lemma {:induction false} UniqueByPodcastIds(pairs: seq<PodcastOption>)
    ensures DistinctIds(UniqueByPodcast(pairs))
    ensures forall id :: HasId(UniqueByPodcast(pairs), id) <==> HasId(pairs, id)
    decreases |pairs|
  {
    if |pairs| > 0 {
      var n := |pairs|;
      var init, last := pairs[..n - 1], pairs[n - 1];
      UniqueByPodcastIds(init);
      LastStep(pairs);
      var prev := UniqueByPodcast(init);
      var at := IndexOfId(prev, last.podcastId);
      if at >= 0 {
        OverwriteKeepsIds(prev, at, last);
      } else {
        AppendAddsId(prev, last);
        var r := prev + [last];
        assert forall i | 0 <= i < |prev| :: r[i] == prev[i];
      }
    }
  }

  /** Each option shows the title of the last pair with its podcast id. */
  lemma {:induction false} UniqueByPodcastTitles(pairs: seq<PodcastOption>)
    ensures forall i | 0 <= i < |UniqueByPodcast(pairs)| ::
              var o := UniqueByPodcast(pairs)[i];
              HasId(pairs, o.podcastId) && o.podcastTitle == LastTitle(pairs, o.podcastId)
    decreases |pairs|
  {
    if |pairs| > 0 {
      var n := |pairs|;
      var init, last := pairs[..n - 1], pairs[n - 1];
      UniqueByPodcastTitles(init);
      UniqueByPodcastIds(init);
      LastStep(pairs);
      var prev := UniqueByPodcast(init);
      var r := UniqueByPodcast(pairs);
      forall i | 0 <= i < |r|
        ensures HasId(pairs, r[i].podcastId) && r[i].podcastTitle == LastTitle(pairs, r[i].podcastId)
      {
        if r[i] != last {
          assert i < |prev| && r[i] == prev[i];
          assert r[i].podcastId != last.podcastId;
        }
      }
    }
  }

  /**
   * The step of the order proof: keeping the ids of `prev` in place and
   * perhaps appending the one id that is new in the last pair keeps the order.
   */
  lemma OrderStep(prev: seq<PodcastOption>, r: seq<PodcastOption>, pairs: seq<PodcastOption>)
    requires |pairs| > 0
    requires InFirstOccurrenceOrder(prev, pairs[..|pairs| - 1])
    requires forall i | 0 <= i < |prev| :: HasId(pairs[..|pairs| - 1], prev[i].podcastId)
    requires |prev| <= |r| <= |prev| + 1
    requires forall i | 0 <= i < |prev| :: r[i].podcastId == prev[i].podcastId
    requires |r| == |prev| + 1 ==>
               r[|prev|].podcastId == pairs[|pairs| - 1].podcastId && !HasId(pairs[..|pairs| - 1], r[|prev|].podcastId)
    ensures InFirstOccurrenceOrder(r, pairs)
  {
    var n := |pairs|;
    var init, last := pairs[..n - 1], pairs[n - 1];
    assert pairs == init + [last];
    forall i | 0 <= i < |prev|
      ensures HasId(pairs, r[i].podcastId) && FirstIndex(pairs, r[i].podcastId) == FirstIndex(init, r[i].podcastId)
    {
      FirstIndexInPrefix(init, last, prev[i].podcastId);
    }
    if |r| == |prev| + 1 {
      var id := r[|prev|].podcastId;
      assert HasId(pairs, id) by {
        assert pairs[n - 1].podcastId == id;
      }
      assert FirstIndex(pairs, id) == n - 1;
    }
  }

  /** Options come in the order in which their podcasts first occur. */
  lemma {:induction false} UniqueByPodcastOrder(pairs: seq<PodcastOption>)
    ensures InFirstOccurrenceOrder(UniqueByPodcast(pairs), pairs)
    decreases |pairs|
  {
    if |pairs| > 0 {
      var n := |pairs|;
      var init, last := pairs[..n - 1], pairs[n - 1];
      UniqueByPodcastOrder(init);
      UniqueByPodcastIds(init);
      var prev := UniqueByPodcast(init);
      var at := IndexOfId(prev, last.podcastId);
      forall i | 0 <= i < |prev|
        ensures HasId(init, prev[i].podcastId)
      {
        assert HasId(prev, prev[i].podcastId);
      }
      if at >= 0 {
        OverwriteKeepsIds(prev, at, last);
      }
      OrderStep(prev, UniqueByPodcast(pairs), pairs);
    }
  }

  // ---------------------------------------------------------------------------
  // Short duration text

  /**
   * The root dashboard's `formatDuration`: `""` for a missing or empty value,
   * `"Hh Mm"` with hours, `"Mm"` without; NaN renders as `"NaNm"`.
   */
  function FormatShort(seconds: Option<string>): string {
    if !Truthy(seconds) then ""
    else
      match ParseInt(seconds.value)
      case None => "NaNm"
      case Some(n) =>
        var hours := n / 3600;
        var minutes := (n % 3600) / 60;
        if hours > 0 then Decimal(hours) + "h " + Decimal(minutes) + "m" else Decimal(minutes) + "m"
  }

  /** Reads `"Hh Mm"` or `"Mm"` back as a number of whole minutes. */
  function ReadShort(text: string): Option<nat> {
    if |text| == 0 || text[|text| - 1] != 'm' then None
    else
      var parts := Split(text[..|text| - 1], ' ');
      if |parts| == 1 then
        if IsDigits(parts[0]) then Some(DigitsValue(parts[0])) else None
      else if |parts| == 2 && |parts[0]| > 0 && parts[0][|parts[0]| - 1] == 'h' then
        var h := parts[0][..|parts[0]| - 1];
        if IsDigits(h) && IsDigits(parts[1]) then Some(60 * DigitsValue(h) + DigitsValue(parts[1])) else None
      else None
  }

  lemma DigitsHaveNoSpace(s: string)
    requires AllDigits(s)
    ensures ' ' !in s
  {
  }

  lemma ReadShortMinutes(md: string)
    requires IsDigits(md)
    ensures ReadShort(md + "m") == Some(DigitsValue(md))
  {
    var text := md + "m";
    assert text[..|text| - 1] == md;
    DigitsHaveNoSpace(md);
    SplitNone(md, ' ');
  }

  /** The hours text splits at its one space into the hours field and the minutes digits. */
  lemma SplitShortHours(hd: string, md: string)
    requires IsDigits(hd) && IsDigits(md)
    ensures Split((hd + "h " + md + "m")[..|hd + "h " + md + "m"| - 1], ' ') == [hd + "h", md]
  {
    var text := hd + "h " + md + "m";
    assert text[..|text| - 1] == (hd + "h") + [' '] + md;
    DigitsHaveNoSpace(hd);
    DigitsHaveNoSpace(md);
    assert ' ' !in hd + "h";
    SplitNone(md, ' ');
    SplitAt(hd + "h", md, ' ');
  }

  /** A text that ends in `m` and splits into an hours field and minutes digits reads as their sum in minutes. */
  lemma ReadShortOfParts(text: string, h: string, md: string)
    requires |text| > 0 && text[|text| - 1] == 'm'
    requires Split(text[..|text| - 1], ' ') == [h, md]
    requires |h| > 0 && h[|h| - 1] == 'h' && IsDigits(h[..|h| - 1]) && IsDigits(md)
    ensures ReadShort(text) == Some(60 * DigitsValue(h[..|h| - 1]) + DigitsValue(md))
  {
  }

  lemma ReadShortHours(hd: string, md: string)
    requires IsDigits(hd) && IsDigits(md)
    ensures ReadShort(hd + "h " + md + "m") == Some(60 * DigitsValue(hd) + DigitsValue(md))
  {
    var text := hd + "h " + md + "m";
    var h := hd + "h";
    SplitShortHours(hd, md);
    assert text[|text| - 1] == 'm';
    assert h[..|h| - 1] == hd;
    ReadShortOfParts(text, h, md);
  }

  /** Whole hours and the minutes below an hour add up to the whole minutes. */
  lemma ShortArithmetic(n: nat)
    ensures 60 * (n / 3600) + (n % 3600) / 60 == n / 60
  {
    var q, r := n / 3600, n % 3600;
    var a, b := r / 60, r % 60;
    assert n == 60 * (60 * q + a) + b;
  }

  /**
   * What the short text of a count of seconds written in digits is, with and
   * without hours; the minutes it shows are always below an hour.
   */
  lemma FormatShortOfDigits(s: string)
    requires IsDigits(s)
    ensures DigitsValue(s) / 3600 > 0 ==>
              FormatShort(Some(s)) == Decimal(DigitsValue(s) / 3600) + "h " + Decimal((DigitsValue(s) % 3600) / 60) + "m"
    ensures DigitsValue(s) / 3600 == 0 ==> FormatShort(Some(s)) == Decimal((DigitsValue(s) % 3600) / 60) + "m"
    ensures (DigitsValue(s) % 3600) / 60 < 60
  {
  }

  lemma ReadShortHoursOf(hours: nat, minutes: nat)
    ensures ReadShort(Decimal(hours) + "h " + Decimal(minutes) + "m") == Some(60 * hours + minutes)
  {
    ReadShortHours(Decimal(hours), Decimal(minutes));
  }

  lemma ReadShortMinutesOf(minutes: nat)
    ensures ReadShort(Decimal(minutes) + "m") == Some(minutes)
  {
    ReadShortMinutes(Decimal(minutes));
  }

  /** Both shapes of the short text read back as the minutes they stand for. */
  lemma ReadShortBack(hours: nat, minutes: nat, total: nat)
    requires total == 60 * hours + minutes
    ensures hours > 0 ==> ReadShort(Decimal(hours) + "h " + Decimal(minutes) + "m") == Some(total)
    ensures hours == 0 ==> ReadShort(Decimal(minutes) + "m") == Some(total)
  {
    if hours > 0 {
      ReadShortHoursOf(hours, minutes);
    } else {
      ReadShortMinutesOf(minutes);
    }
  }

  /**
   * The short text of a count of seconds shows exactly its whole minutes:
   * the hours and the minutes below 60 it prints read back as `n / 60`.
   */
  lemma ShortDurationRoundTrip(s: string)
    requires IsDigits(s)
    ensures ReadShort(FormatShort(Some(s))) == Some(DigitsValue(s) / 60)
  {
    var n := DigitsValue(s);
    FormatShortOfDigits(s);
    ShortArithmetic(n);
    ReadShortBack(n / 3600, (n % 3600) / 60, n / 60);
  }
}
