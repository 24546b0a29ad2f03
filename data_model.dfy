/**
 * `gva.model.DataModel`: the in-memory catalogue of shows and episodes,
 * its ranked text search, its two episode filters and the id/slug indexes
 * built by `setData`.
 *
 * Times are milliseconds since the epoch, as `Date.prototype.getTime`
 * returns them; the feed's date strings are taken as already parsed. The
 * user's subscription and watched lists, which the source reads from local
 * storage, and the current time are parameters.
 */
module DataModel {
  import opened JsRuntime
  import StringUtil
  import Sorting

  const DEFAULT_CATEGORY_IMAGE: string := "/themes/os/img/default_thumbs/category.jpg"
  const DEFAULT_VIDEO_IMAGE: string := "/themes/os/img/default_thumbs/video.jpg"
  /** One week in milliseconds. */
  const NEW_EPISODE_MAX_AGE: int := 7 * 24 * 60 * 60 * 1000

  /** One episode of the feed, as `setData` reads it. */
  datatype EpisodeData = EpisodeData(
    id: string, title: string, description: string, imageUrl: string,
    airdate: int, runtime: string, videoHtml: string, videoFlash: string)

  /** One category (show) of the feed with its episodes. */
  datatype CategoryData = CategoryData(
    id: string, title: string, description: string, imageUrl: string,
    episodes: seq<EpisodeData>)

  /**
   * `gva.vo.Episode`. Its `slug` is always `slugify(title)` and never
   * changes, so it is the derived member `Slug`.
   */
  datatype Episode = Episode(
    id: string, title: string, description: string, imageUrl: string,
    runtime: string, airdate: int, videoFlash: string, videoHtml: string,
    showId: string, showTitle: string, watched: bool, isNew: bool)
  {
    function Slug(): string { StringUtil.Slugify(title) }
  }

  /**
   * `gva.vo.Show`; `latestVideoDate` is `None` while no episode has been
   * seen. Its `slug` is the derived member `Slug`.
   */
  datatype Show = Show(
    id: string, title: string, description: string, imageUrl: string,
    latestVideoDate: Option<int>, videoCount: nat, subscribed: bool)
  {
    function Slug(): string { StringUtil.Slugify(title) }
  }

  // ---------------------------------------------------------------------
  // Search term
  // ---------------------------------------------------------------------

  /** The term with every character other than a word character, whitespace or `-` deleted. */
  function KeepTermChars(s: string): string {
    if s == [] then []
    else if IsWordChar(s[0]) || IsSpace(s[0]) || s[0] == '-' then [s[0]] + KeepTermChars(s[1..])
    else KeepTermChars(s[1..])
  }

  /** Length of the whitespace run at the front of `s`. */
  function SpaceRun(s: string): (n: nat)
    ensures n <= |s|
    ensures forall i :: 0 <= i < n ==> IsSpace(s[i])
    ensures n < |s| ==> !IsSpace(s[n])
  {
    if s == [] || !IsSpace(s[0]) then 0 else 1 + SpaceRun(s[1..])
  }

  /**
   * The term's whitespace cleaned up: drop the leading run, the trailing
   * run and every run of two or more; a lone inner whitespace character
   * stays. `atStart` says that `s` begins the string, where `^` holds.
   */
  function DropSpaceRuns(s: string, atStart: bool): string
    decreases |s|
  {
    if s == [] then []
    else if !IsSpace(s[0]) then [s[0]] + DropSpaceRuns(s[1..], false)
    else
      var n := SpaceRun(s);
      if atStart || n >= 2 || n == |s| then DropSpaceRuns(s[n..], false)
      else [s[0]] + DropSpaceRuns(s[1..], false)
  }

  /** The three `replace` calls of `searchEpisodes`: the term the regex and the distances use. */
  function SanitizeTerm(s: string): string {
    StringUtil.ReplaceSpaceRuns(DropSpaceRuns(KeepTermChars(s), true), '|')
  }

  lemma {:induction false} KeepTermCharsAlphabet(s: string)
    ensures forall i :: 0 <= i < |KeepTermChars(s)| ==>
      var c := KeepTermChars(s)[i]; IsWordChar(c) || IsSpace(c) || c == '-'
    decreases |s|
  {
    if s != [] {
      KeepTermCharsAlphabet(s[1..]);
    }
  }

  lemma {:induction false} DropSpaceRunsSubset(s: string, atStart: bool)
    ensures forall c :: c in DropSpaceRuns(s, atStart) ==> c in s
    decreases |s|
  {
    if s != [] {
      if !IsSpace(s[0]) {
        DropSpaceRunsSubset(s[1..], false);
      } else {
        var n := SpaceRun(s);
        if atStart || n >= 2 || n == |s| {
          DropSpaceRunsSubset(s[n..], false);
        } else {
          DropSpaceRunsSubset(s[1..], false);
        }
      }
    }
  }

  /**
   * The sanitised term holds only word characters, `-` and the `|` that
   * stands for a whitespace run: no whitespace and no regex metacharacter
   * other than `|`, so the pattern is an alternation of literal pieces.
   */
  lemma SanitizeAlphabet(s: string)
    ensures forall i :: 0 <= i < |SanitizeTerm(s)| ==>
      var c := SanitizeTerm(s)[i]; IsWordChar(c) || c == '-' || c == '|'
  {
    var k := KeepTermChars(s);
    var d := DropSpaceRuns(k, true);
    KeepTermCharsAlphabet(s);
    DropSpaceRunsSubset(k, true);
    StringUtil.ReplaceSpaceRunsAlphabet(d, '|');
    forall i | 0 <= i < |SanitizeTerm(s)|
      ensures var c := SanitizeTerm(s)[i]; IsWordChar(c) || c == '-' || c == '|'
    {
      var c := SanitizeTerm(s)[i];
      if c != '|' {
        assert c in d && !IsSpace(c);
        var m :| 0 <= m < |k| && k[m] == c;
      }
    }
  }

  predicate IsWordString(w: string) {
    forall i :: 0 <= i < |w| ==> IsWordChar(w[i])
  }

  lemma {:induction false} KeepWord(w: string)
    requires IsWordString(w)
    ensures KeepTermChars(w) == w
    decreases |w|
  {
    if w != [] {
      KeepWord(w[1..]);
    }
  }

  lemma {:induction false} DropWord(w: string, atStart: bool)
    requires IsWordString(w)
    ensures DropSpaceRuns(w, atStart) == w
    decreases |w|
  {
    if w != [] {
      DropWord(w[1..], false);
    }
  }

  lemma {:induction false} ReplaceWord(w: string)
    requires IsWordString(w)
    ensures StringUtil.ReplaceSpaceRuns(w, '|') == w
    decreases |w|
  {
    if w != [] {
      ReplaceWord(w[1..]);
    }
  }

  /** A term made of word characters only is searched for as it is. */
  lemma SanitizeWord(w: string)
    requires IsWordString(w)
    ensures SanitizeTerm(w) == w
  {
    KeepWord(w);
    DropWord(w, true);
    ReplaceWord(w);
  }

  // ---------------------------------------------------------------------
  // Matching
  // ---------------------------------------------------------------------

  /** `p` sits at position `k` of `s`, ignoring the case of ASCII letters. */
  predicate OccursAt(p: string, s: string, k: int) {
    0 <= k && k + |p| <= |s| && LowerString(s[k..k + |p|]) == LowerString(p)
  }

  /** The literal `p` occurs in `s` under the regex flag `i`. */
  predicate OccursCI(p: string, s: string) {
    exists k :: 0 <= k <= |s| - |p| && OccursAt(p, s, k)
  }

  /**
   * The case-insensitive global match of the term in a field succeeds: some piece of the
   * `|`-alternation occurs in the field. Exact for sanitised terms, whose
   * pieces are literals (`SanitizeAlphabet`).
   */
  predicate Matches(term: string, field: string) {
    var alts := Split(term, '|');
    exists i :: 0 <= i < |alts| && OccursCI(alts[i], field)
  }

  /** The empty pattern matches every field. */
  lemma EmptyTermMatches(field: string)
    ensures Matches("", field)
  {
    assert Split("", '|') == [""];
    assert OccursAt("", field, 0);
    assert OccursCI(Split("", '|')[0], field);
  }

  /** A word matches itself. */
  lemma WordMatchesItself(w: string)
    requires IsWordString(w)
    ensures Matches(w, w)
  {
    assert forall i :: 0 <= i < |w| ==> w[i] != '|';
    assert Split(w, '|') == [w];
    assert w[0..|w|] == w;
    assert OccursAt(w, w, 0);
    assert OccursCI(Split(w, '|')[0], w);
  }

  // ---------------------------------------------------------------------
  // Ranking
  // ---------------------------------------------------------------------

  /** How an episode fares against a term: matched with a distance, not matched, or a thrown TypeError. */
  datatype Rank = Hit(distance: real) | Miss | Throws

  /** The edit distance from term to field, divided by the field's length; 0 for an empty field. */
  function FieldScore(term: string, field: string): real {
    if |field| == 0 then 0.0
    else (StringUtil.EditDistance(term, field) as real) / (|field| as real)
  }

  /**
   * The field tests of `searchEpisodes` as written: title, then show title,
   * then `episode.text`, which `gva.vo.Episode` does not have, so the third
   * test calls `match` on `undefined` and throws.
   */
  function RankAsWritten(term: string, e: Episode): Rank {
    if Matches(term, e.title) then Hit(FieldScore(term, e.title))
    else if Matches(term, e.showTitle) then Hit(FieldScore(term, e.showTitle))
    else Throws
  }

  /** The field tests as intended: the third field is the description. */
  function RankOf(term: string, e: Episode): (r: Rank)
    ensures !r.Throws?
    ensures r.Hit? <==> Matches(term, e.title) || Matches(term, e.showTitle) || Matches(term, e.description)
  {
    if Matches(term, e.title) then Hit(FieldScore(term, e.title))
    else if Matches(term, e.showTitle) then Hit(FieldScore(term, e.showTitle))
    else if Matches(term, e.description) then Hit(FieldScore(term, e.description))
    else Miss
  }

  /** An entry `{distance, data}` of the search index. */
  datatype Scored = Scored(distance: real, data: Episode)

  function DistanceOf(s: Scored): real { s.distance }

  /** The index `searchEpisodes` pushes to, in episode order. */
  function ScoredIndex(term: string, eps: seq<Episode>): seq<Scored> {
    if eps == [] then []
    else
      var ix := ScoredIndex(term, eps[..|eps| - 1]);
      var e := eps[|eps| - 1];
      match RankOf(term, e)
      case Hit(d) => ix + [Scored(d, e)]
      case _ => ix
  }

  /** The index as written: `None` once an episode throws. */
  function ScoredIndexAsWritten(term: string, eps: seq<Episode>): Option<seq<Scored>> {
    if eps == [] then Some([])
    else
      match ScoredIndexAsWritten(term, eps[..|eps| - 1])
      case None => None
      case Some(ix) =>
        var e := eps[|eps| - 1];
        match RankAsWritten(term, e)
        case Hit(d) => Some(ix + [Scored(d, e)])
        case _ => None
  }

  /** The episodes of the index entries, in order. */
  function Data(ss: seq<Scored>): (r: seq<Episode>)
    ensures |r| == |ss|
    ensures forall i :: 0 <= i < |ss| ==> r[i] == ss[i].data
  {
    seq(|ss|, i requires 0 <= i < |ss| => ss[i].data)
  }

  /**
   * `searchEpisodes(term)` as intended: `[]` without data; otherwise the
   * matching episodes sorted by distance.
   */
  function Search(data: Option<seq<Episode>>, rawTerm: string): seq<Episode> {
    if data.None? then []
    else Data(Sorting.SortByKey(ScoredIndex(SanitizeTerm(rawTerm), data.value), DistanceOf))
  }

  /** `searchEpisodes(term)` as written; `None` is the TypeError. */
  function SearchAsWritten(data: Option<seq<Episode>>, rawTerm: string): Option<seq<Episode>> {
    if data.None? then Some([])
    else
      match ScoredIndexAsWritten(SanitizeTerm(rawTerm), data.value)
      case None => None
      case Some(ix) => Some(Data(Sorting.SortByKey(ix, DistanceOf)))
  }

  /** The distance an episode is ranked by (0 for an episode that does not match). */
  function HitDistance(term: string, e: Episode): real {
    match RankOf(term, e)
    case Hit(d) => d
    case _ => 0.0
  }

  /** The matching episodes, in their original order. */
  function Matching(term: string, eps: seq<Episode>): seq<Episode> {
    if eps == [] then []
    else
      var rest := Matching(term, eps[..|eps| - 1]);
      if RankOf(term, eps[|eps| - 1]).Hit? then rest + [eps[|eps| - 1]] else rest
  }

  lemma {:induction false} ScoredIndexData(term: string, eps: seq<Episode>)
    ensures Data(ScoredIndex(term, eps)) == Matching(term, eps)
    ensures forall s :: s in ScoredIndex(term, eps) ==>
      RankOf(term, s.data).Hit? && s.distance == HitDistance(term, s.data)
    decreases |eps|
  {
    if eps != [] {
      ScoredIndexData(term, eps[..|eps| - 1]);
    }
  }

  lemma {:induction false} MatchingCount(term: string, eps: seq<Episode>, e: Episode)
    ensures multiset(Matching(term, eps))[e] ==
      if RankOf(term, e).Hit? then multiset(eps)[e] else 0
    decreases |eps|
  {
    if eps != [] {
      var init := eps[..|eps| - 1];
      MatchingCount(term, init, e);
      assert eps == init + [eps[|eps| - 1]];
    }
  }

  lemma DataConcat(a: seq<Scored>, b: seq<Scored>)
    ensures Data(a + b) == Data(a) + Data(b)
  {
  }

  lemma MultisetCancel<T>(x: T, a: multiset<T>, b: multiset<T>)
    requires multiset{x} + a == multiset{x} + b
    ensures a == b
  {
    forall y ensures a[y] == b[y] {
      assert (multiset{x} + a)[y] == (multiset{x} + b)[y];
    }
  }

  /** Taking entry `k` out of an index takes its episode out of the episodes. */
  lemma DataRemove(tt: seq<Scored>, k: int)
    requires 0 <= k < |tt|
    ensures multiset(Data(tt)) == multiset{tt[k].data} + multiset(Data(tt[..k] + tt[k + 1..]))
  {
    var front, back := tt[..k], tt[k + 1..];
    assert tt == front + [tt[k]] + back;
    DataConcat(front + [tt[k]], back);
    DataConcat(front, [tt[k]]);
    DataConcat(front, back);
  }

  /** Permuting index entries permutes their episodes. */
  lemma {:induction false} DataPermutation(ss: seq<Scored>, tt: seq<Scored>)
    requires multiset(ss) == multiset(tt)
    ensures multiset(Data(ss)) == multiset(Data(tt))
    decreases |ss|
  {
    if ss != [] {
      var x := ss[0];
      assert x in multiset(tt);
      var k :| 0 <= k < |tt| && tt[k] == x;
      var rest := tt[..k] + tt[k + 1..];
      assert tt == tt[..k] + [x] + tt[k + 1..];
      assert multiset(tt) == multiset{x} + multiset(rest);
      assert ss == [x] + ss[1..];
      MultisetCancel(x, multiset(ss[1..]), multiset(rest));
      DataPermutation(ss[1..], rest);
      DataRemove(ss, 0);
      DataRemove(tt, k);
      assert ss[..0] + ss[1..] == ss[1..];
    }
  }

  /**
   * Every matching episode is returned as often as it occurs in the data,
   * and nothing else is returned.
   */
  lemma SearchCount(eps: seq<Episode>, rawTerm: string, e: Episode)
    ensures multiset(Search(Some(eps), rawTerm))[e] ==
      if RankOf(SanitizeTerm(rawTerm), e).Hit? then multiset(eps)[e] else 0
  {
    var t := SanitizeTerm(rawTerm);
    var ix := ScoredIndex(t, eps);
    DataPermutation(Sorting.SortByKey(ix, DistanceOf), ix);
    ScoredIndexData(t, eps);
    MatchingCount(t, eps, e);
  }

  /** Membership: the results are exactly the matching episodes. */
  lemma SearchMembers(eps: seq<Episode>, rawTerm: string, e: Episode)
    ensures e in Search(Some(eps), rawTerm) <==> e in eps && RankOf(SanitizeTerm(rawTerm), e).Hit?
  {
    SearchCount(eps, rawTerm, e);
    assert e in Search(Some(eps), rawTerm) <==> e in multiset(Search(Some(eps), rawTerm));
    assert e in eps <==> e in multiset(eps);
  }

  /** The results come in non-decreasing order of distance. */
  lemma SearchSorted(eps: seq<Episode>, rawTerm: string)
    ensures var r := Search(Some(eps), rawTerm); var t := SanitizeTerm(rawTerm);
      forall i, j :: 0 <= i < j < |r| ==> HitDistance(t, r[i]) <= HitDistance(t, r[j])
  {
    var t := SanitizeTerm(rawTerm);
    var ix := ScoredIndex(t, eps);
    var sorted := Sorting.SortByKey(ix, DistanceOf);
    ScoredIndexData(t, eps);
    forall i | 0 <= i < |sorted|
      ensures sorted[i].distance == HitDistance(t, sorted[i].data)
    {
      assert sorted[i] in multiset(ix);
    }
  }

  /** Without data the search returns nothing. */
  lemma SearchWithoutData(rawTerm: string)
    ensures Search(None, rawTerm) == []
  {
  }

  /** A term that sanitises to nothing matches every episode: all of them are returned. */
  lemma EmptyTermReturnsAll(eps: seq<Episode>, rawTerm: string)
    requires SanitizeTerm(rawTerm) == ""
    ensures multiset(Search(Some(eps), rawTerm)) == multiset(eps)
  {
    forall e | true
      ensures multiset(Search(Some(eps), rawTerm))[e] == multiset(eps)[e]
    {
      EmptyTermMatches(e.title);
      SearchCount(eps, rawTerm, e);
    }
  }

  /**
   * Searching for a one-word title finds that episode at distance 0, ahead of
   * every result whose distance is positive.
   */
  lemma ExactTitleFirst(eps: seq<Episode>, e: Episode)
    requires e in eps && IsWordString(e.title) && |e.title| > 0
    ensures var r := Search(Some(eps), e.title);
      e in r && HitDistance(e.title, e) == 0.0 &&
      forall i, j :: 0 <= i < |r| && 0 <= j < |r| && r[i] == e && HitDistance(e.title, r[j]) > 0.0 ==> i < j
  {
    SanitizeWord(e.title);
    WordMatchesItself(e.title);
    StringUtil.EditDistanceSelf(e.title);
    SearchMembers(eps, e.title, e);
    SearchSorted(eps, e.title);
  }

  /**
   * As written, one episode whose title and show title both miss the term is
   * enough to make the whole search throw.
   */
  lemma {:induction false} AsWrittenThrowsOnMiss(term: string, eps: seq<Episode>, i: int)
    requires 0 <= i < |eps|
    requires !Matches(term, eps[i].title) && !Matches(term, eps[i].showTitle)
    ensures ScoredIndexAsWritten(term, eps) == None
    decreases |eps|
  {
    if i < |eps| - 1 {
      AsWrittenThrowsOnMiss(term, eps[..|eps| - 1], i);
    }
  }

  /** When every episode matches in its title or show title, both readings agree. */
  lemma {:induction false} AsWrittenAgrees(term: string, eps: seq<Episode>)
    requires forall i :: 0 <= i < |eps| ==> Matches(term, eps[i].title) || Matches(term, eps[i].showTitle)
    ensures ScoredIndexAsWritten(term, eps) == Some(ScoredIndex(term, eps))
    decreases |eps|
  {
    if eps != [] {
      AsWrittenAgrees(term, eps[..|eps| - 1]);
    }
  }

  // ---------------------------------------------------------------------
  // Filters
  // ---------------------------------------------------------------------

  /** The episodes that aired strictly after `startTime`, in order. */
  function AiredAfter(eps: seq<Episode>, startTime: int): seq<Episode> {
    if eps == [] then []
    else
      var rest := AiredAfter(eps[..|eps| - 1], startTime);
      if startTime < eps[|eps| - 1].airdate then rest + [eps[|eps| - 1]] else rest
  }

  /** The filter splits over concatenation, so it keeps the original order. */
  lemma {:induction false} AiredAfterConcat(a: seq<Episode>, b: seq<Episode>, startTime: int)
    ensures AiredAfter(a + b, startTime) == AiredAfter(a, startTime) + AiredAfter(b, startTime)
    decreases |b|
  {
    if b == [] {
      assert a + b == a;
    } else {
      assert (a + b)[..|a + b| - 1] == a + b[..|b| - 1];
      assert (a + b)[|a + b| - 1] == b[|b| - 1];
      AiredAfterConcat(a, b[..|b| - 1], startTime);
    }
  }

  lemma {:induction false} AiredAfterMembers(eps: seq<Episode>, startTime: int, e: Episode)
    ensures e in AiredAfter(eps, startTime) <==> e in eps && startTime < e.airdate
    decreases |eps|
  {
    if eps != [] {
      AiredAfterMembers(eps[..|eps| - 1], startTime, e);
      assert eps == eps[..|eps| - 1] + [eps[|eps| - 1]];
    }
  }

  /** The episodes of show `showId`, without the watched ones when `unwatched` is set. */
  function OfShow(eps: seq<Episode>, showId: string, unwatched: bool, watched: seq<string>): seq<Episode> {
    if eps == [] then []
    else
      var rest := OfShow(eps[..|eps| - 1], showId, unwatched, watched);
      var e := eps[|eps| - 1];
      if e.showId == showId && !(unwatched && e.id in watched) then rest + [e] else rest
  }

  lemma {:induction false} OfShowConcat(a: seq<Episode>, b: seq<Episode>, showId: string, unwatched: bool, watched: seq<string>)
    ensures OfShow(a + b, showId, unwatched, watched) ==
      OfShow(a, showId, unwatched, watched) + OfShow(b, showId, unwatched, watched)
    decreases |b|
  {
    if b == [] {
      assert a + b == a;
    } else {
      assert (a + b)[..|a + b| - 1] == a + b[..|b| - 1];
      assert (a + b)[|a + b| - 1] == b[|b| - 1];
      OfShowConcat(a, b[..|b| - 1], showId, unwatched, watched);
    }
  }

  lemma {:induction false} OfShowMembers(eps: seq<Episode>, showId: string, unwatched: bool, watched: seq<string>, e: Episode)
    ensures e in OfShow(eps, showId, unwatched, watched) <==>
      e in eps && e.showId == showId && (unwatched ==> e.id !in watched)
    decreases |eps|
  {
    if eps != [] {
      OfShowMembers(eps[..|eps| - 1], showId, unwatched, watched, e);
      assert eps == eps[..|eps| - 1] + [eps[|eps| - 1]];
    }
  }

  // ---------------------------------------------------------------------
  // setData
  // ---------------------------------------------------------------------

  function OrDefault(url: string, default: string): string {
    if |url| == 0 then default else url
  }

  /** The episode record `setData` builds for `e` of category `cat`. */
  function MakeEpisode(cat: CategoryData, e: EpisodeData, watched: seq<string>, now: int): Episode {
    Episode(e.id, e.title, e.description, OrDefault(e.imageUrl, DEFAULT_VIDEO_IMAGE),
            e.runtime, e.airdate, e.videoFlash, e.videoHtml, cat.id, cat.title,
            e.id in watched, now - e.airdate < NEW_EPISODE_MAX_AGE)
  }

  /** The show record `setData` builds for `cat`, given `lastUpdated` after its episodes. */
  function MakeShow(cat: CategoryData, subscribed: seq<string>, latest: Option<int>): Show {
    Show(cat.id, cat.title, cat.description, OrDefault(cat.imageUrl, DEFAULT_CATEGORY_IMAGE),
         latest, |cat.episodes|, cat.id in subscribed)
  }

  /** The latest airdate so far: a later airdate, or the first one, replaces it. */
  function Later(last: Option<int>, airdate: int): Option<int> {
    if last.None? || airdate > last.value then Some(airdate) else last
  }

  /** `lastUpdated` after the episodes `eps`, starting from `last`. */
  function LatestOf(last: Option<int>, eps: seq<EpisodeData>): Option<int> {
    if eps == [] then last
    else Later(LatestOf(last, eps[..|eps| - 1]), eps[|eps| - 1].airdate)
  }

  /** `lastUpdated` after all the categories `cats`: it is never reset between categories. */
  function LatestAfter(cats: seq<CategoryData>): Option<int> {
    if cats == [] then None
    else LatestOf(LatestAfter(cats[..|cats| - 1]), cats[|cats| - 1].episodes)
  }

  /** The episode records of `eps`, episodes of category `cat`, in order. */
  function EpisodesOf(cat: CategoryData, eps: seq<EpisodeData>, watched: seq<string>, now: int): (r: seq<Episode>)
    ensures |r| == |eps|
  {
    if eps == [] then []
    else EpisodesOf(cat, eps[..|eps| - 1], watched, now) + [MakeEpisode(cat, eps[|eps| - 1], watched, now)]
  }

  lemma {:induction false} EpisodesOfAt(cat: CategoryData, eps: seq<EpisodeData>, watched: seq<string>, now: int, j: int)
    requires 0 <= j < |eps|
    ensures EpisodesOf(cat, eps, watched, now)[j] == MakeEpisode(cat, eps[j], watched, now)
    decreases |eps|
  {
    var init := eps[..|eps| - 1];
    if init != [] {
      EpisodesOfAt(cat, init, watched, now, if j < |init| then j else 0);
    }
  }

  function CategoryEpisodes(cat: CategoryData, watched: seq<string>, now: int): seq<Episode> {
    EpisodesOf(cat, cat.episodes, watched, now)
  }

  /** `episodesData.episodes` after `setData(cats)`: all episodes, category by category. */
  function AllEpisodes(cats: seq<CategoryData>, watched: seq<string>, now: int): seq<Episode> {
    if cats == [] then []
    else AllEpisodes(cats[..|cats| - 1], watched, now) + CategoryEpisodes(cats[|cats| - 1], watched, now)
  }

  /** `showsData.shows` after `setData(cats)`. */
  function AllShows(cats: seq<CategoryData>, subscribed: seq<string>): seq<Show> {
    if cats == [] then []
    else AllShows(cats[..|cats| - 1], subscribed) + [MakeShow(cats[|cats| - 1], subscribed, LatestAfter(cats))]
  }

  /** The number of episodes in `cats`. */
  function EpisodeCount(cats: seq<CategoryData>): nat {
    if cats == [] then 0 else EpisodeCount(cats[..|cats| - 1]) + |cats[|cats| - 1].episodes|
  }

  /** Episode `j` of category `c` sits at position `EpisodeCount(cats[..c]) + j` of the flattened list. */
  lemma {:induction false} AllEpisodesIndex(cats: seq<CategoryData>, watched: seq<string>, now: int, c: int, j: int)
    requires 0 <= c < |cats| && 0 <= j < |cats[c].episodes|
    ensures EpisodeCount(cats[..c]) + j < |AllEpisodes(cats, watched, now)|
    ensures AllEpisodes(cats, watched, now)[EpisodeCount(cats[..c]) + j] ==
      MakeEpisode(cats[c], cats[c].episodes[j], watched, now)
    decreases |cats|
  {
    var init := cats[..|cats| - 1];
    var last := cats[|cats| - 1];
    var A := AllEpisodes(init, watched, now);
    var B := CategoryEpisodes(last, watched, now);
    assert cats == init + [last];
    if c < |cats| - 1 {
      AllEpisodesIndex(init, watched, now, c, j);
      assert AllEpisodes(cats, watched, now) == A + B;
      assert init[..c] == cats[..c];
      assert cats[c] == init[c];
      var p := EpisodeCount(init[..c]) + j;
      assert (A + B)[p] == A[p];
    } else {
      assert cats[..c] == init;
      LastCategoryEpisode(init, last, watched, now, j);
    }
  }

  /** The episodes of the last category come after all the others. */
  lemma LastCategoryEpisode(init: seq<CategoryData>, last: CategoryData, watched: seq<string>, now: int, j: int)
    requires 0 <= j < |last.episodes|
    ensures EpisodeCount(init) + j < |AllEpisodes(init + [last], watched, now)|
    ensures AllEpisodes(init + [last], watched, now)[EpisodeCount(init) + j] ==
      MakeEpisode(last, last.episodes[j], watched, now)
  {
    var A := AllEpisodes(init, watched, now);
    var B := CategoryEpisodes(last, watched, now);
    assert (init + [last])[..|init|] == init;
    assert AllEpisodes(init + [last], watched, now) == A + B;
    AllEpisodesLength(init, watched, now);
    EpisodesOfAt(last, last.episodes, watched, now, j);
    assert (A + B)[|A| + j] == B[j];
  }

  /**
   * Each flattened episode carries its category's id and title, a non-empty
   * image URL (the default replaces an empty one), and the watched and new
   * flags.
   */
  lemma AllEpisodesAt(cats: seq<CategoryData>, watched: seq<string>, now: int, c: int, j: int)
    requires 0 <= c < |cats| && 0 <= j < |cats[c].episodes|
    ensures EpisodeCount(cats[..c]) + j < |AllEpisodes(cats, watched, now)|
    ensures var ep := AllEpisodes(cats, watched, now)[EpisodeCount(cats[..c]) + j];
      var e := cats[c].episodes[j];
      ep.id == e.id && ep.title == e.title && ep.airdate == e.airdate &&
      ep.showId == cats[c].id && ep.showTitle == cats[c].title &&
      |ep.imageUrl| > 0 && (|e.imageUrl| > 0 ==> ep.imageUrl == e.imageUrl) &&
      (ep.watched <==> e.id in watched) &&
      (ep.isNew <==> now - e.airdate < NEW_EPISODE_MAX_AGE)
  {
    AllEpisodesIndex(cats, watched, now, c, j);
  }

  lemma {:induction false} AllEpisodesLength(cats: seq<CategoryData>, watched: seq<string>, now: int)
    ensures |AllEpisodes(cats, watched, now)| == EpisodeCount(cats)
    decreases |cats|
  {
    if cats != [] {
      AllEpisodesLength(cats[..|cats| - 1], watched, now);
    }
  }

  /** Show `c` is built from category `c` with `lastUpdated` after categories `0..c`. */
  lemma {:induction false} AllShowsIndex(cats: seq<CategoryData>, subscribed: seq<string>, c: int)
    requires 0 <= c < |cats|
    ensures c < |AllShows(cats, subscribed)|
    ensures AllShows(cats, subscribed)[c] == MakeShow(cats[c], subscribed, LatestAfter(cats[..c + 1]))
    decreases |cats|
  {
    var init := cats[..|cats| - 1];
    var A := AllShows(init, subscribed);
    var s := MakeShow(cats[|cats| - 1], subscribed, LatestAfter(cats));
    assert AllShows(cats, subscribed) == A + [s];
    AllShowsLength(init, subscribed);
    if c < |cats| - 1 {
      AllShowsIndex(init, subscribed, c);
      assert init[..c + 1] == cats[..c + 1];
      assert cats[c] == init[c];
      assert (A + [s])[c] == A[c];
    } else {
      assert cats[..c + 1] == cats;
      assert (A + [s])[c] == s;
    }
  }

  /**
   * Show `c` has its category's id, episode count and a non-empty image URL,
   * and its latest video date is `lastUpdated` after categories `0..c`.
   */
  lemma AllShowsAt(cats: seq<CategoryData>, subscribed: seq<string>, c: int)
    requires 0 <= c < |cats|
    ensures c < |AllShows(cats, subscribed)|
    ensures var s := AllShows(cats, subscribed)[c];
      s.id == cats[c].id && s.title == cats[c].title &&
      s.videoCount == |cats[c].episodes| &&
      |s.imageUrl| > 0 && (|cats[c].imageUrl| > 0 ==> s.imageUrl == cats[c].imageUrl) &&
      (s.subscribed <==> cats[c].id in subscribed) &&
      s.latestVideoDate == LatestAfter(cats[..c + 1])
  {
    AllShowsIndex(cats, subscribed, c);
  }

  lemma {:induction false} AllShowsLength(cats: seq<CategoryData>, subscribed: seq<string>)
    ensures |AllShows(cats, subscribed)| == |cats|
    decreases |cats|
  {
    if cats != [] {
      AllShowsLength(cats[..|cats| - 1], subscribed);
    }
  }

  /** The running maximum over a list of episodes, starting from `last`. */
  lemma {:induction false} LatestOfIsMax(last: Option<int>, eps: seq<EpisodeData>)
    ensures LatestOf(last, eps).None? <==> last.None? && eps == []
    ensures LatestOf(last, eps).Some? ==>
      var v := LatestOf(last, eps).value;
      (last.Some? ==> last.value <= v) &&
      (forall j :: 0 <= j < |eps| ==> eps[j].airdate <= v) &&
      ((last.Some? && v == last.value) || exists j :: 0 <= j < |eps| && eps[j].airdate == v)
    decreases |eps|
  {
    if eps != [] {
      var init := eps[..|eps| - 1];
      LatestOfIsMax(last, init);
      var prev := LatestOf(last, init);
      if prev.Some? && !(last.Some? && prev.value == last.value) {
        var j :| 0 <= j < |init| && init[j].airdate == prev.value;
        assert eps[j] == init[j];
      }
    }
  }

  /**
   * `lastUpdated` is a running maximum over every category processed so far:
   * after `cats` it is the largest airdate of any of their episodes, or
   * `None` when they have none.
   */
  lemma {:induction false} LatestAfterIsMax(cats: seq<CategoryData>)
    ensures LatestAfter(cats).None? <==> forall c :: 0 <= c < |cats| ==> cats[c].episodes == []
    ensures LatestAfter(cats).Some? ==>
      var v := LatestAfter(cats).value;
      (forall c, j :: 0 <= c < |cats| && 0 <= j < |cats[c].episodes| ==> cats[c].episodes[j].airdate <= v) &&
      (exists c, j :: 0 <= c < |cats| && 0 <= j < |cats[c].episodes| && cats[c].episodes[j].airdate == v)
    decreases |cats|
  {
    if cats != [] {
      var init := cats[..|cats| - 1];
      var last := cats[|cats| - 1];
      var prev := LatestAfter(init);
      LatestAfterIsMax(init);
      LatestOfIsMax(prev, last.episodes);
      var v := LatestAfter(cats);
      assert v == LatestOf(prev, last.episodes);
      if v.None? {
        forall c | 0 <= c < |cats| ensures cats[c].episodes == [] {
          if c < |cats| - 1 {
            assert cats[c] == init[c];
          }
        }
      } else {
        forall c, j | 0 <= c < |cats| && 0 <= j < |cats[c].episodes|
          ensures cats[c].episodes[j].airdate <= v.value
        {
          if c < |cats| - 1 {
            assert cats[c] == init[c];
            assert init[c].episodes != [];
            assert prev.Some?;
          }
        }
        if prev.Some? && v.value == prev.value {
          var c, j :| 0 <= c < |init| && 0 <= j < |init[c].episodes| && init[c].episodes[j].airdate == prev.value;
          assert cats[c] == init[c];
        } else {
          var j :| 0 <= j < |last.episodes| && last.episodes[j].airdate == v.value;
          assert cats[|cats| - 1] == last;
        }
      }
    }
  }

  function ShowSlug(s: Show): string { s.Slug() }
  function ShowID(s: Show): string { s.id }
  function EpisodeSlug(e: Episode): string { e.Slug() }
  function EpisodeID(e: Episode): string { e.id }

  /** Every key of `m` is the key of the entry it maps to. */
  ghost predicate Keyed<T>(m: map<string, T>, key: T -> string) {
    forall k {:trigger m[k]} :: k in m ==> key(m[k]) == k
  }

  /** Each `x` of `xs` in turn stored under its key, later ones overwriting earlier ones. */
  function IndexBy<T>(m: map<string, T>, xs: seq<T>, key: T -> string): map<string, T> {
    if xs == [] then m
    else
      var x := xs[|xs| - 1];
      IndexBy(m, xs[..|xs| - 1], key)[key(x) := x]
  }

  /** The last entry with a given key wins. */
  lemma {:induction false} IndexByLastWins<T>(m: map<string, T>, xs: seq<T>, key: T -> string, i: int)
    requires 0 <= i < |xs|
    requires forall j :: i < j < |xs| ==> key(xs[j]) != key(xs[i])
    ensures key(xs[i]) in IndexBy(m, xs, key) && IndexBy(m, xs, key)[key(xs[i])] == xs[i]
    decreases |xs|
  {
    if i < |xs| - 1 {
      IndexByLastWins(m, xs[..|xs| - 1], key, i);
    }
  }

  /** A key no entry has keeps its old binding, or its absence. */
  lemma {:induction false} IndexByUntouched<T>(m: map<string, T>, xs: seq<T>, key: T -> string, k: string)
    requires forall j :: 0 <= j < |xs| ==> key(xs[j]) != k
    ensures k in IndexBy(m, xs, key) <==> k in m
    ensures k in m ==> IndexBy(m, xs, key)[k] == m[k]
    decreases |xs|
  {
    if xs != [] {
      IndexByUntouched(m, xs[..|xs| - 1], key, k);
    }
  }

  /** Every key of the index is the key of the entry it maps to, if that held before. */
  lemma {:induction false} IndexByKeyed<T>(m: map<string, T>, xs: seq<T>, key: T -> string)
    requires Keyed(m, key)
    ensures Keyed(IndexBy(m, xs, key), key)
    decreases |xs|
  {
    if xs != [] {
      var x := xs[|xs| - 1];
      var prev := IndexBy(m, xs[..|xs| - 1], key);
      IndexByKeyed(m, xs[..|xs| - 1], key);
      var r := prev[key(x) := x];
      assert IndexBy(m, xs, key) == r;
      forall k | k in r
        ensures key(r[k]) == k
      {
        if k != key(x) {
          assert k in prev && r[k] == prev[k];
        }
      }
    }
  }

  /** The field tests for one episode, with the distance computed by `levenshtein`. */
  method RankEpisode(term: string, e: Episode) returns (rank: Rank)
    ensures rank == RankOf(term, e)
  {
    var field := "";
    var matched := false;
    if Matches(term, e.title) {
      matched, field := true, e.title;
    } else if Matches(term, e.showTitle) {
      matched, field := true, e.showTitle;
    } else if Matches(term, e.description) {
      matched, field := true, e.description;
    }
    if matched {
      var d := StringUtil.Levenshtein(term, field);
      rank := Hit(if |field| == 0 then 0.0 else (d as real) / (|field| as real));
    } else {
      rank := Miss;
    }
  }

  /** The matching loop of `searchEpisodes`: pushes `{distance, data}` for each matching episode. */
  method BuildIndex(term: string, eps: seq<Episode>) returns (index: seq<Scored>)
    ensures index == ScoredIndex(term, eps)
  {
    index := [];
    var i := 0;
    while i < |eps|
      invariant 0 <= i <= |eps|
      invariant index == ScoredIndex(term, eps[..i])
    {
      var e := eps[i];
      assert eps[..i + 1][..i] == eps[..i] && eps[..i + 1][i] == e;
      var rank := RankEpisode(term, e);
      if rank.Hit? {
        index := index + [Scored(rank.distance, e)];
      }
      i := i + 1;
    }
    assert eps[..i] == eps;
  }

  /** The copy loop of `searchEpisodes`: each ranked entry's episode, in rank order. */
  method CopyData(index: seq<Scored>) returns (results: seq<Episode>)
    ensures results == Data(index)
  {
    results := [];
    var i := 0;
    while i < |index|
      invariant 0 <= i <= |index|
      invariant |results| == i
      invariant forall k :: 0 <= k < i ==> results[k] == index[k].data
    {
      results := results + [index[i].data];
      i := i + 1;
    }
  }

  /**
   * The category loop of `setData`: builds the show records and the flat
   * episode list, carrying `lastUpdated` from category to category.
   */
  method Flatten(data: seq<CategoryData>, subscribed: seq<string>, watched: seq<string>, now: int)
    returns (categories: seq<Show>, episodes: seq<Episode>)
    ensures categories == AllShows(data, subscribed)
    ensures episodes == AllEpisodes(data, watched, now)
  {
    categories, episodes := [], [];
    var lastUpdated: Option<int> := None;
    var i := 0;
    while i < |data|
      invariant 0 <= i <= |data|
      invariant categories == AllShows(data[..i], subscribed)
      invariant episodes == AllEpisodes(data[..i], watched, now)
      invariant lastUpdated == LatestAfter(data[..i])
    {
      var cat := data[i];
      assert data[..i + 1][..i] == data[..i] && data[..i + 1][i] == cat;
      var catEpisodes;
      catEpisodes, lastUpdated := FlattenCategory(cat, watched, now, lastUpdated);
      episodes := episodes + catEpisodes;
      categories := categories + [MakeShow(cat, subscribed, lastUpdated)];
      i := i + 1;
    }
    assert data[..i] == data;
  }

  /** The episode loop of `setData` for one category, continuing `lastUpdated` from `last`. */
  method FlattenCategory(cat: CategoryData, watched: seq<string>, now: int, last: Option<int>)
    returns (episodes: seq<Episode>, lastUpdated: Option<int>)
    ensures episodes == CategoryEpisodes(cat, watched, now)
    ensures lastUpdated == LatestOf(last, cat.episodes)
  {
    episodes, lastUpdated := [], last;
    var j := 0;
    while j < |cat.episodes|
      invariant 0 <= j <= |cat.episodes|
      invariant episodes == EpisodesOf(cat, cat.episodes[..j], watched, now)
      invariant lastUpdated == LatestOf(last, cat.episodes[..j])
    {
      var e := cat.episodes[j];
      assert cat.episodes[..j + 1][..j] == cat.episodes[..j];
      if lastUpdated.None? || e.airdate > lastUpdated.value {
        lastUpdated := Some(e.airdate);
      }
      episodes := episodes + [MakeEpisode(cat, e, watched, now)];
      j := j + 1;
    }
    assert cat.episodes[..j] == cat.episodes;
  }

  /** The show loop of `setData`: each show goes into the slug and id indexes. */
  method IndexShows(bySlug0: map<string, Show>, byID0: map<string, Show>, shows: seq<Show>)
    returns (bySlug: map<string, Show>, byID: map<string, Show>)
    ensures bySlug == IndexBy(bySlug0, shows, ShowSlug)
    ensures byID == IndexBy(byID0, shows, ShowID)
    ensures Keyed(bySlug0, ShowSlug) ==> Keyed(bySlug, ShowSlug)
    ensures Keyed(byID0, ShowID) ==> Keyed(byID, ShowID)
  {
    bySlug, byID := bySlug0, byID0;
    var i := 0;
    while i < |shows|
      invariant 0 <= i <= |shows|
      invariant bySlug == IndexBy(bySlug0, shows[..i], ShowSlug)
      invariant byID == IndexBy(byID0, shows[..i], ShowID)
    {
      assert shows[..i + 1][..i] == shows[..i];
      bySlug := bySlug[shows[i].Slug() := shows[i]];
      byID := byID[shows[i].id := shows[i]];
      i := i + 1;
    }
    assert shows[..i] == shows;
    if Keyed(bySlug0, ShowSlug) {
      IndexByKeyed(bySlug0, shows, ShowSlug);
    }
    if Keyed(byID0, ShowID) {
      IndexByKeyed(byID0, shows, ShowID);
    }
  }

  /** The episode loop of `setData`. */
  method IndexEpisodes(bySlug0: map<string, Episode>, byID0: map<string, Episode>, episodes: seq<Episode>)
    returns (bySlug: map<string, Episode>, byID: map<string, Episode>)
    ensures bySlug == IndexBy(bySlug0, episodes, EpisodeSlug)
    ensures byID == IndexBy(byID0, episodes, EpisodeID)
    ensures Keyed(bySlug0, EpisodeSlug) ==> Keyed(bySlug, EpisodeSlug)
    ensures Keyed(byID0, EpisodeID) ==> Keyed(byID, EpisodeID)
  {
    bySlug, byID := bySlug0, byID0;
    var i := 0;
    while i < |episodes|
      invariant 0 <= i <= |episodes|
      invariant bySlug == IndexBy(bySlug0, episodes[..i], EpisodeSlug)
      invariant byID == IndexBy(byID0, episodes[..i], EpisodeID)
    {
      assert episodes[..i + 1][..i] == episodes[..i];
      bySlug := bySlug[episodes[i].Slug() := episodes[i]];
      byID := byID[episodes[i].id := episodes[i]];
      i := i + 1;
    }
    assert episodes[..i] == episodes;
    if Keyed(bySlug0, EpisodeSlug) {
      IndexByKeyed(bySlug0, episodes, EpisodeSlug);
    }
    if Keyed(byID0, EpisodeID) {
      IndexByKeyed(byID0, episodes, EpisodeID);
    }
  }

  // ---------------------------------------------------------------------
  // The model object
  // ---------------------------------------------------------------------

  class DataModel {
    var showsData: Option<seq<Show>>
    var episodesData: Option<seq<Episode>>
    var episodeBySlug: map<string, Episode>
    var episodeByID: map<string, Episode>
    var showBySlug: map<string, Show>
    var showByID: map<string, Show>

    /** Every index maps a key to an entry that has that key. */
    ghost predicate Indexed()
      reads this
    {
      Keyed(showByID, ShowID) && Keyed(showBySlug, ShowSlug) &&
      Keyed(episodeByID, EpisodeID) && Keyed(episodeBySlug, EpisodeSlug)
    }

    constructor()
      ensures showsData == None && episodesData == None
      ensures episodeBySlug == map[] && episodeByID == map[]
      ensures showBySlug == map[] && showByID == map[]
      ensures Indexed()
    {
      showsData := None;
      episodesData := None;
      episodeBySlug := map[];
      episodeByID := map[];
      showBySlug := map[];
      showByID := map[];
    }

    /**
     * `setData`: flattens the categories into shows and episodes and adds
     * them to the four indexes, which are not cleared first.
     */
    method SetData(data: seq<CategoryData>, subscribed: seq<string>, watched: seq<string>, now: int)
      modifies this
      requires Indexed()
      ensures showsData == Some(AllShows(data, subscribed))
      ensures episodesData == Some(AllEpisodes(data, watched, now))
      ensures showBySlug == IndexBy(old(showBySlug), showsData.value, ShowSlug)
      ensures showByID == IndexBy(old(showByID), showsData.value, ShowID)
      ensures episodeBySlug == IndexBy(old(episodeBySlug), episodesData.value, EpisodeSlug)
      ensures episodeByID == IndexBy(old(episodeByID), episodesData.value, EpisodeID)
      ensures Indexed()
    {
      var categories, episodes := Flatten(data, subscribed, watched, now);
      Store(categories, episodes);
    }

    /** The end of `setData`: stores the lists and indexes their entries. */
    method Store(shows: seq<Show>, episodes: seq<Episode>)
      modifies this
      requires Indexed()
      ensures showsData == Some(shows) && episodesData == Some(episodes)
      ensures showBySlug == IndexBy(old(showBySlug), shows, ShowSlug)
      ensures showByID == IndexBy(old(showByID), shows, ShowID)
      ensures episodeBySlug == IndexBy(old(episodeBySlug), episodes, EpisodeSlug)
      ensures episodeByID == IndexBy(old(episodeByID), episodes, EpisodeID)
      ensures Indexed()
    {
      showsData, episodesData := Some(shows), Some(episodes);
      showBySlug, showByID := IndexShows(showBySlug, showByID, shows);
      episodeBySlug, episodeByID := IndexEpisodes(episodeBySlug, episodeByID, episodes);
    }

    /** `getShowByID`: `None` is `undefined`. */
    function GetShowByID(id: string): (r: Option<Show>)
      reads this
      requires Indexed()
      ensures r.Some? <==> id in showByID
      ensures r.Some? ==> r.value.id == id
    {
      if id in showByID then Some(showByID[id]) else None
    }

    /** `getShowBySlug`. */
    function GetShowBySlug(slug: string): (r: Option<Show>)
      reads this
      requires Indexed()
      ensures r.Some? <==> slug in showBySlug
      ensures r.Some? ==> r.value.Slug() == slug
    {
      if slug in showBySlug then Some(showBySlug[slug]) else None
    }

    /** `getEpisodeByID`. */
    function GetEpisodeByID(id: string): (r: Option<Episode>)
      reads this
      requires Indexed()
      ensures r.Some? <==> id in episodeByID
      ensures r.Some? ==> r.value.id == id
    {
      if id in episodeByID then Some(episodeByID[id]) else None
    }

    /** `getEpisodeBySlug`. */
    function GetEpisodeBySlug(slug: string): (r: Option<Episode>)
      reads this
      requires Indexed()
      ensures r.Some? <==> slug in episodeBySlug
      ensures r.Some? ==> r.value.Slug() == slug
    {
      if slug in episodeBySlug then Some(episodeBySlug[slug]) else None
    }

    /**
     * `searchEpisodes`, reading the description as the third field: builds
     * the index with `levenshtein`, sorts it by distance and copies out the
     * episodes.
     */
    method SearchEpisodes(rawTerm: string) returns (results: seq<Episode>)
      ensures results == Search(episodesData, rawTerm)
    {
      results := [];
      if episodesData.Some? {
        var eps := episodesData.value;
        var term := SanitizeTerm(rawTerm);
        var index := BuildIndex(term, eps);
        index := Sorting.SortByKey(index, DistanceOf);
        results := CopyData(index);
      }
    }

    /** `searchEpisodesByTimestamp`. */
    method SearchEpisodesByTimestamp(startTime: int) returns (results: seq<Episode>)
      ensures results == if episodesData.None? then [] else AiredAfter(episodesData.value, startTime)
    {
      results := [];
      if episodesData.Some? {
        var eps := episodesData.value;
        var i := 0;
        while i < |eps|
          invariant 0 <= i <= |eps|
          invariant results == AiredAfter(eps[..i], startTime)
        {
          assert eps[..i + 1][..i] == eps[..i];
          if startTime < eps[i].airdate {
            results := results + [eps[i]];
          }
          i := i + 1;
        }
        assert eps[..i] == eps;
      }
    }

    /** `getEpisodesByShow`; `None` is the `false` returned without data. */
    method GetEpisodesByShow(showId: string, unwatched: bool, watched: seq<string>) returns (r: Option<seq<Episode>>)
      ensures r == if episodesData.None? then None else Some(OfShow(episodesData.value, showId, unwatched, watched))
    {
      if episodesData.None? {
        return None;
      }
      var eps := episodesData.value;
      var found: seq<Episode> := [];
      var i := 0;
      while i < |eps|
        invariant 0 <= i <= |eps|
        invariant found == OfShow(eps[..i], showId, unwatched, watched)
      {
        assert eps[..i + 1][..i] == eps[..i];
        if eps[i].showId == showId {
          if !(unwatched && eps[i].id in watched) {
            found := found + [eps[i]];
          }
        }
        i := i + 1;
      }
      assert eps[..i] == eps;
      r := Some(found);
    }
  }
}
