// gva.component.Channel: the playlist of episodes beside the player.
//
// The channel holds the episode nodes in the order they were added (`$episodes`), a map
// from episode id to episode (`episodeData`), and, when grouped by show, one accordion tab
// per show in the order the tabs were created. An episode node is identified by its
// episode (its `id` attribute is the episode id). The DOM is reduced to the tabs, the
// "now playing" mark and the two classes of the sort buttons.

module Channel {
  import opened JsRuntime
  import opened Sorting
  import DataModel

  type Episode = DataModel.Episode

  datatype SortOrder = Ascending | Descending

  /** The comparator for oldest first: negative when `a` aired before `b`. */
  function SortByAirdateAscending(a: Episode, b: Episode): (r: int)
    ensures r < 0 <==> a.airdate < b.airdate
    ensures r == -SortByAirdateDescending(a, b)
  {
    a.airdate - b.airdate
  }

  /** The comparator for newest first: negative when `a` aired after `b`. */
  function SortByAirdateDescending(a: Episode, b: Episode): (r: int)
    ensures r < 0 <==> b.airdate < a.airdate
  {
    b.airdate - a.airdate
  }

  function Comparator(order: SortOrder, a: Episode, b: Episode): int {
    if order == Descending then SortByAirdateDescending(a, b) else SortByAirdateAscending(a, b)
  }

  /** The key whose non-decreasing order is the order the comparator asks for. */
  function SortKey(order: SortOrder): Episode -> real {
    if order == Ascending then (e: Episode) => e.airdate as real else (e: Episode) => -(e.airdate as real)
  }

  /** `a` may come before `b` in the given order. */
  predicate InOrder(order: SortOrder, a: Episode, b: Episode) {
    if order == Ascending then a.airdate <= b.airdate else b.airdate <= a.airdate
  }

  /** The comparator puts `a` no later than `b` exactly when the key does. */
  lemma ComparatorMatchesKey(order: SortOrder, a: Episode, b: Episode)
    ensures Comparator(order, a, b) <= 0 <==> SortKey(order)(a) <= SortKey(order)(b)
    ensures SortKey(order)(a) <= SortKey(order)(b) <==> InOrder(order, a, b)
  {
  }

  // Sequences derived from a list of episodes.

  function Ids(eps: seq<Episode>): (r: seq<string>)
    ensures |r| == |eps| && forall i :: 0 <= i < |eps| ==> r[i] == eps[i].id
  {
    seq(|eps|, i requires 0 <= i < |eps| => eps[i].id)
  }

  /** The two fields episodes are grouped by: the show title (sorting) and the show id (tabs). */
  datatype Key = ShowTitle | ShowId

  function KeyOf(key: Key, e: Episode): string {
    match key
    case ShowTitle => e.showTitle
    case ShowId => e.showId
  }

  /** The value of `key` for each episode, in order. */
  function KeysOf(eps: seq<Episode>, key: Key): (r: seq<string>)
    ensures |r| == |eps| && forall i :: 0 <= i < |eps| ==> r[i] == KeyOf(key, eps[i])
  {
    if eps == [] then [] else KeysOf(eps[..|eps| - 1], key) + [KeyOf(key, eps[|eps| - 1])]
  }

  /** The distinct elements of `s` in order of first appearance: the order in which an object's keys are created. */
  function Uniq(s: seq<string>): (r: seq<string>)
    ensures forall x :: x in r <==> x in s
    ensures forall i, j :: 0 <= i < j < |r| ==> r[i] != r[j]
  {
    if s == [] then []
    else
      var u := Uniq(s[..|s| - 1]);
      assert s == s[..|s| - 1] + [s[|s| - 1]];
      if s[|s| - 1] in u then u else u + [s[|s| - 1]]
  }

  /** The episodes whose `key` is `v`, in order. */
  function OfKey(eps: seq<Episode>, key: Key, v: string): (r: seq<Episode>)
    ensures forall i :: 0 <= i < |r| ==> KeyOf(key, r[i]) == v
  {
    if eps == [] then []
    else
      var rest := OfKey(eps[..|eps| - 1], key, v);
      if KeyOf(key, eps[|eps| - 1]) == v then rest + [eps[|eps| - 1]] else rest
  }

  lemma {:induction false} OfKeyCount(eps: seq<Episode>, key: Key, v: string, x: Episode)
    ensures multiset(OfKey(eps, key, v))[x] == if KeyOf(key, x) == v then multiset(eps)[x] else 0
  {
    if eps != [] {
      OfKeyCount(eps[..|eps| - 1], key, v, x);
      assert eps == eps[..|eps| - 1] + [eps[|eps| - 1]];
    }
  }

  lemma OfKeyMembers(eps: seq<Episode>, key: Key, v: string, x: Episode)
    ensures x in OfKey(eps, key, v) <==> x in eps && KeyOf(key, x) == v
  {
    OfKeyCount(eps, key, v, x);
    assert x in OfKey(eps, key, v) <==> x in multiset(OfKey(eps, key, v));
    assert x in eps <==> x in multiset(eps);
  }

  lemma OfKeyAppend(eps: seq<Episode>, key: Key, v: string, x: Episode)
    ensures OfKey(eps + [x], key, v) == OfKey(eps, key, v) + if KeyOf(key, x) == v then [x] else []
  {
    assert (eps + [x])[..|eps|] == eps;
  }

  lemma KeysOfAppend(eps: seq<Episode>, key: Key, x: Episode)
    ensures KeysOf(eps + [x], key) == KeysOf(eps, key) + [KeyOf(key, x)]
  {
    assert (eps + [x])[..|eps|] == eps;
  }

  // sortEpisodes.

  /** One show's episodes, sorted. */
  function Block(eps: seq<Episode>, t: string, order: SortOrder): (b: seq<Episode>)
    ensures forall m :: 0 <= m < |b| ==> b[m].showTitle == t
    ensures SortedBy(b, SortKey(order))
    ensures multiset(b) == multiset(OfKey(eps, ShowTitle, t))
  {
    var o := OfKey(eps, ShowTitle, t);
    var b := SortByKey(o, SortKey(order));
    assert forall m :: 0 <= m < |b| ==> b[m].showTitle == t by {
      forall m | 0 <= m < |b| ensures b[m].showTitle == t {
        assert b[m] in multiset(o);
        var q :| 0 <= q < |o| && o[q] == b[m];
        assert KeyOf(ShowTitle, o[q]) == t;
      }
    }
    b
  }

  /** The shows' groups, each sorted, concatenated in the order of `titles`. */
  function Grouped(titles: seq<string>, eps: seq<Episode>, order: SortOrder): seq<Episode> {
    if titles == [] then []
    else Grouped(titles[..|titles| - 1], eps, order) + Block(eps, titles[|titles| - 1], order)
  }

  /**
   * The order in which sortEpisodes merges the show groups: the `for ... in` order of an
   * object whose keys, the show titles, were created in order of first appearance.
   */
  function ShowOrder(eps: seq<Episode>): seq<string> {
    ForInOrder(Uniq(KeysOf(eps, ShowTitle)))
  }

  /** "24" is an array index and "Lost" is not. */
  lemma TwentyFourIsIndex()
    ensures ArrayIndex("24") && IndexKey("24") == 24.0 && !ArrayIndex("Lost")
  {
    assert "24"[..1] == "2";
    assert DigitsValue("2") == 2;
  }

  /** A `for ... in` loop visits the key "24" before the earlier-created key "Lost". */
  lemma IndexKeyVisitedFirst()
    ensures ForInOrder(["Lost", "24"]) == ["24", "Lost"]
  {
    var titles: seq<string> := ["Lost", "24"];
    TwentyFourIsIndex();
    assert titles[..1] == ["Lost"];
    assert KeysWhere(["Lost"], true) == [];
    assert KeysWhere(["Lost"], false) == ["Lost"];
    assert KeysWhere(titles, true) == ["24"];
    assert KeysWhere(titles, false) == ["Lost"];
    assert SortByKey(["24"], IndexKey) == ["24"];
  }

  /** A show listed before a show whose title is an array index is merged after it. */
  lemma IndexTitleMergedFirst(a: Episode, b: Episode)
    requires a.showTitle == "Lost" && b.showTitle == "24"
    ensures ShowOrder([a, b]) == ["24", "Lost"]
  {
    var titles: seq<string> := ["Lost", "24"];
    assert KeysOf([a, b], ShowTitle) == titles by {
      assert [a, b][..1] == [a];
      assert KeysOf([a], ShowTitle) == ["Lost"];
    }
    assert titles[..1] == ["Lost"] && titles[..1][..0] == [];
    assert Uniq(["Lost"]) == ["Lost"];
    assert Uniq(titles) == titles;
    IndexKeyVisitedFirst();
  }

  /** What sortEpisodes lists: grouped by show title in `for ... in` order, or all sorted together. */
  function Arrange(eps: seq<Episode>, grouped: bool, order: SortOrder): seq<Episode> {
    if grouped then Grouped(ShowOrder(eps), eps, order) else SortByKey(eps, SortKey(order))
  }

  /** The merge visits every show title of the list once, titles that are array indices first. */
  lemma ShowOrderTitles(eps: seq<Episode>)
    ensures forall t :: t in ShowOrder(eps) <==> exists i :: 0 <= i < |eps| && eps[i].showTitle == t
    ensures Distinct(ShowOrder(eps))
    ensures forall i, j :: 0 <= i < j < |ShowOrder(eps)| && ArrayIndex(ShowOrder(eps)[j]) ==> ArrayIndex(ShowOrder(eps)[i])
  {
    var u := Uniq(KeysOf(eps, ShowTitle));
    ForInOrderDistinct(u);
    ForInIndicesFirst(u);
    forall t ensures t in u <==> exists i :: 0 <= i < |eps| && eps[i].showTitle == t {
      if t in KeysOf(eps, ShowTitle) {
        var i :| 0 <= i < |eps| && KeysOf(eps, ShowTitle)[i] == t;
      }
    }
  }

  lemma {:induction false} GroupedCount(titles: seq<string>, eps: seq<Episode>, order: SortOrder, x: Episode)
    requires forall i, j :: 0 <= i < j < |titles| ==> titles[i] != titles[j]
    ensures multiset(Grouped(titles, eps, order))[x] == if x.showTitle in titles then multiset(eps)[x] else 0
  {
    if titles != [] {
      var init := titles[..|titles| - 1];
      var t := titles[|titles| - 1];
      GroupedCount(init, eps, order, x);
      OfKeyCount(eps, ShowTitle, t, x);
      assert titles == init + [t];
    }
  }

  /** Every episode's show title is among the merged titles. */
  lemma TitleListed(eps: seq<Episode>, x: Episode)
    requires x in eps
    ensures x.showTitle in ShowOrder(eps)
  {
    var i :| 0 <= i < |eps| && eps[i] == x;
    assert KeysOf(eps, ShowTitle)[i] == x.showTitle;
  }

  /** sortEpisodes neither loses nor invents an episode. */
  lemma ArrangePermutation(eps: seq<Episode>, grouped: bool, order: SortOrder)
    ensures multiset(Arrange(eps, grouped, order)) == multiset(eps)
  {
    if grouped {
      var titles := ShowOrder(eps);
      ForInOrderDistinct(Uniq(KeysOf(eps, ShowTitle)));
      var r := Grouped(titles, eps, order);
      forall x ensures multiset(r)[x] == multiset(eps)[x] {
        GroupedCount(titles, eps, order, x);
        if x in eps {
          TitleListed(eps, x);
        }
      }
    }
  }

  /** Without grouping, the list is in airdate order. */
  lemma UngroupedSorted(eps: seq<Episode>, order: SortOrder)
    ensures var r := Arrange(eps, false, order);
      forall i, j :: 0 <= i < j < |r| ==> InOrder(order, r[i], r[j])
  {
    var r := Arrange(eps, false, order);
    assert SortedBy(r, SortKey(order));
    forall i, j | 0 <= i < j < |r| ensures InOrder(order, r[i], r[j]) {
      assert SortKey(order)(r[i]) <= SortKey(order)(r[j]);
      ComparatorMatchesKey(order, r[i], r[j]);
    }
  }

  /** Each show's episodes in `r` are contiguous: nothing of another show comes between two of them. */
  ghost predicate Contiguous(r: seq<Episode>) {
    forall i, j, k :: 0 <= i < j < k < |r| && r[i].showTitle == r[k].showTitle ==> r[j].showTitle == r[i].showTitle
  }

  /** Within each show, the episodes of `r` are in non-decreasing key order. */
  ghost predicate SortedWithinShows(r: seq<Episode>, key: Episode -> real) {
    forall i, j :: 0 <= i < j < |r| && r[i].showTitle == r[j].showTitle ==> key(r[i]) <= key(r[j])
  }

  /** An episode of the first groups has one of their titles. */
  lemma GroupedTitle(titles: seq<string>, eps: seq<Episode>, order: SortOrder, x: Episode)
    requires forall i, j :: 0 <= i < j < |titles| ==> titles[i] != titles[j]
    requires x in Grouped(titles, eps, order)
    ensures x.showTitle in titles
  {
    GroupedCount(titles, eps, order, x);
  }

  /** No episode of `p` has the title `t`. */
  ghost predicate NoneTitled(p: seq<Episode>, t: string) {
    forall m :: 0 <= m < |p| ==> p[m].showTitle != t
  }

  /** The first groups hold no episode of a title not among theirs. */
  lemma GroupedNoneTitled(titles: seq<string>, eps: seq<Episode>, order: SortOrder, t: string)
    requires forall i, j :: 0 <= i < j < |titles| ==> titles[i] != titles[j]
    requires t !in titles
    ensures NoneTitled(Grouped(titles, eps, order), t)
  {
    var p := Grouped(titles, eps, order);
    forall m | 0 <= m < |p| ensures p[m].showTitle != t {
      GroupedTitle(titles, eps, order, p[m]);
    }
  }

  /** Appending one show's block, of a title not seen before, keeps the shows contiguous. */
  lemma ContiguousAppend(p: seq<Episode>, b: seq<Episode>, t: string)
    requires Contiguous(p) && NoneTitled(p, t)
    requires forall m :: 0 <= m < |b| ==> b[m].showTitle == t
    ensures Contiguous(p + b)
  {
    var r := p + b;
    forall i, j, k | 0 <= i < j < k < |r| && r[i].showTitle == r[k].showTitle
      ensures r[j].showTitle == r[i].showTitle
    {
      if k < |p| {
        assert r[i] == p[i] && r[j] == p[j] && r[k] == p[k];
      } else if i >= |p| {
        assert r[i] == b[i - |p|] && r[j] == b[j - |p|];
      } else {
        assert false;
      }
    }
  }

  /** Appending one show's sorted block, of a title not seen before, keeps each show in key order. */
  lemma SortedWithinAppend(p: seq<Episode>, b: seq<Episode>, t: string, key: Episode -> real)
    requires SortedWithinShows(p, key) && NoneTitled(p, t)
    requires forall m :: 0 <= m < |b| ==> b[m].showTitle == t
    requires SortedBy(b, key)
    ensures SortedWithinShows(p + b, key)
  {
    var r := p + b;
    forall i, j | 0 <= i < j < |r| && r[i].showTitle == r[j].showTitle
      ensures key(r[i]) <= key(r[j])
    {
      if j < |p| {
        assert r[i] == p[i] && r[j] == p[j];
      } else if i >= |p| {
        assert r[i] == b[i - |p|] && r[j] == b[j - |p|];
      } else {
        assert false;
      }
    }
  }

  /** Every show's episodes are contiguous. */
  lemma {:induction false} GroupedContiguous(titles: seq<string>, eps: seq<Episode>, order: SortOrder)
    requires forall i, j :: 0 <= i < j < |titles| ==> titles[i] != titles[j]
    ensures Contiguous(Grouped(titles, eps, order))
  {
    if titles != [] {
      var init := titles[..|titles| - 1];
      var t := titles[|titles| - 1];
      GroupedContiguous(init, eps, order);
      GroupedNoneTitled(init, eps, order, t);
      ContiguousAppend(Grouped(init, eps, order), Block(eps, t, order), t);
    }
  }

  /** Within each show, the episodes are in key order. */
  lemma {:induction false} GroupedWithinOrder(titles: seq<string>, eps: seq<Episode>, order: SortOrder)
    requires forall i, j :: 0 <= i < j < |titles| ==> titles[i] != titles[j]
    ensures SortedWithinShows(Grouped(titles, eps, order), SortKey(order))
  {
    if titles != [] {
      var init := titles[..|titles| - 1];
      var t := titles[|titles| - 1];
      GroupedWithinOrder(init, eps, order);
      GroupedNoneTitled(init, eps, order, t);
      SortedWithinAppend(Grouped(init, eps, order), Block(eps, t, order), t, SortKey(order));
    }
  }

  /** Grouped, every show's episodes are contiguous and in airdate order. */
  lemma GroupedSorted(eps: seq<Episode>, order: SortOrder)
    ensures var r := Arrange(eps, true, order);
      forall i, j, k :: 0 <= i < j < k < |r| && r[i].showTitle == r[k].showTitle ==> r[j].showTitle == r[i].showTitle
    ensures var r := Arrange(eps, true, order);
      forall i, j :: 0 <= i < j < |r| && r[i].showTitle == r[j].showTitle ==> InOrder(order, r[i], r[j])
  {
    var r := Arrange(eps, true, order);
    ForInOrderDistinct(Uniq(KeysOf(eps, ShowTitle)));
    GroupedContiguous(ShowOrder(eps), eps, order);
    GroupedWithinOrder(ShowOrder(eps), eps, order);
    forall i, j | 0 <= i < j < |r| && r[i].showTitle == r[j].showTitle ensures InOrder(order, r[i], r[j]) {
      ComparatorMatchesKey(order, r[i], r[j]);
    }
  }

  /** `byShow` maps each title of `titles`, and nothing else, to that show's episodes of `eps`. */
  ghost predicate GroupsOf(byShow: map<string, seq<Episode>>, titles: seq<string>, eps: seq<Episode>) {
    (forall t :: t in byShow <==> t in titles)
    && (forall t :: t in byShow ==> byShow[t] == OfKey(eps, ShowTitle, t))
  }

  /** The titles in order of first appearance grow by a title not seen before. */
  lemma UniqStep(eps: seq<Episode>, key: Key, x: Episode)
    ensures Uniq(KeysOf(eps + [x], key))
      == if KeyOf(key, x) in Uniq(KeysOf(eps, key)) then Uniq(KeysOf(eps, key))
         else Uniq(KeysOf(eps, key)) + [KeyOf(key, x)]
  {
    var s := KeysOf(eps + [x], key);
    KeysOfAppend(eps, key, x);
    assert s[..|s| - 1] == KeysOf(eps, key);
    assert s[|s| - 1] == KeyOf(key, x);
  }

  /** The grouping map after one more episode: appended to its show's list, which is created if missing. */
  function AddToGroup(byShow: map<string, seq<Episode>>, x: Episode): map<string, seq<Episode>> {
    var t := x.showTitle;
    if t in byShow then byShow[t := byShow[t] + [x]] else byShow[t := [x]]
  }

  /** The titles after one more episode: its title is added when it has no list yet. */
  function AddTitle(byShow: map<string, seq<Episode>>, titles: seq<string>, x: Episode): seq<string> {
    if x.showTitle in byShow then titles else titles + [x.showTitle]
  }

  /** One step of the grouping loop. */
  lemma GroupsStep(byShow: map<string, seq<Episode>>, titles: seq<string>, eps: seq<Episode>, x: Episode)
    requires GroupsOf(byShow, titles, eps) && titles == Uniq(KeysOf(eps, ShowTitle))
    ensures GroupsOf(AddToGroup(byShow, x), AddTitle(byShow, titles, x), eps + [x])
    ensures AddTitle(byShow, titles, x) == Uniq(KeysOf(eps + [x], ShowTitle))
  {
    var t := x.showTitle;
    var m := AddToGroup(byShow, x);
    var ts := AddTitle(byShow, titles, x);
    UniqStep(eps, ShowTitle, x);
    forall u ensures u in m <==> u in ts {
      assert u in ts <==> u in titles || u == t;
    }
    forall u | u in m ensures m[u] == OfKey(eps + [x], ShowTitle, u) {
      GroupListStep(byShow, titles, eps, x, u);
    }
  }

  /** A title not among the titles of `eps` has no episodes in `eps`. */
  lemma OfKeyUnlisted(eps: seq<Episode>, t: string)
    requires t !in Uniq(KeysOf(eps, ShowTitle))
    ensures OfKey(eps, ShowTitle, t) == []
  {
    if OfKey(eps, ShowTitle, t) != [] {
      OfKeyMembers(eps, ShowTitle, t, OfKey(eps, ShowTitle, t)[0]);
    }
  }

  /** One step of the grouping loop, for the list of one title `u`. */
  lemma GroupListStep(byShow: map<string, seq<Episode>>, titles: seq<string>, eps: seq<Episode>, x: Episode, u: string)
    requires GroupsOf(byShow, titles, eps) && titles == Uniq(KeysOf(eps, ShowTitle))
    requires u in AddToGroup(byShow, x)
    ensures AddToGroup(byShow, x)[u] == OfKey(eps + [x], ShowTitle, u)
  {
    OfKeyAppend(eps, ShowTitle, u, x);
    if u == x.showTitle && u !in byShow {
      OfKeyUnlisted(eps, u);
    }
  }

  /** The body of the grouping loop: the episode goes into its show's list, created (with its title) if missing. */
  method Group(byShow: map<string, seq<Episode>>, titles: seq<string>, x: Episode)
    returns (byShow': map<string, seq<Episode>>, titles': seq<string>)
    ensures byShow' == AddToGroup(byShow, x) && titles' == AddTitle(byShow, titles, x)
  {
    var title := x.showTitle;
    if title in byShow {
      byShow', titles' := byShow[title := byShow[title] + [x]], titles;
    } else {
      byShow', titles' := byShow[title := [x]], titles + [title];
    }
  }

  /** One step of the grouping loop, at position `i` of the whole list. */
  lemma GroupsStepAt(byShow: map<string, seq<Episode>>, titles: seq<string>, eps: seq<Episode>, i: int)
    requires 0 <= i < |eps|
    requires GroupsOf(byShow, titles, eps[..i]) && titles == Uniq(KeysOf(eps[..i], ShowTitle))
    ensures GroupsOf(AddToGroup(byShow, eps[i]), AddTitle(byShow, titles, eps[i]), eps[..i + 1])
    ensures AddTitle(byShow, titles, eps[i]) == Uniq(KeysOf(eps[..i + 1], ShowTitle))
  {
    assert eps[..i + 1] == eps[..i] + [eps[i]];
    GroupsStep(byShow, titles, eps[..i], eps[i]);
  }

  /** The grouping loop of sortEpisodes: one list per show title, titles kept in insertion order. */
  method GroupByShow(eps: seq<Episode>) returns (titles: seq<string>, byShow: map<string, seq<Episode>>)
    ensures titles == Uniq(KeysOf(eps, ShowTitle))
    ensures GroupsOf(byShow, titles, eps)
  {
    titles := [];
    byShow := map[];
    var i := 0;
    while i < |eps|
      invariant 0 <= i <= |eps|
      invariant titles == Uniq(KeysOf(eps[..i], ShowTitle))
      invariant GroupsOf(byShow, titles, eps[..i])
    {
      GroupsStepAt(byShow, titles, eps, i);
      byShow, titles := Group(byShow, titles, eps[i]);
      i := i + 1;
    }
    assert eps[..i] == eps;
  }

  /** One step of the merging loop: the group of the `j`-th title is that title's block. */
  lemma MergeStep(titles: seq<string>, byShow: map<string, seq<Episode>>, eps: seq<Episode>, order: SortOrder, j: int)
    requires GroupsOf(byShow, titles, eps) && 0 <= j < |titles|
    ensures titles[j] in byShow
    ensures Grouped(titles[..j + 1], eps, order)
      == Grouped(titles[..j], eps, order) + SortByKey(byShow[titles[j]], SortKey(order))
  {
    assert titles[..j + 1][..j] == titles[..j];
    assert byShow[titles[j]] == OfKey(eps, ShowTitle, titles[j]);
  }

  /** The merging loop over the grouping object's keys in visiting order: each show's list sorted and appended. */
  method AppendGroups(shows: seq<string>, byShow: map<string, seq<Episode>>, eps: seq<Episode>, order: SortOrder)
    returns (r: seq<Episode>)
    requires GroupsOf(byShow, shows, eps)
    ensures r == Grouped(shows, eps, order)
  {
    r := [];
    var j := 0;
    while j < |shows|
      invariant 0 <= j <= |shows|
      invariant r == Grouped(shows[..j], eps, order)
    {
      MergeStep(shows, byShow, eps, order, j);
      r := r + SortByKey(byShow[shows[j]], SortKey(order));
      j := j + 1;
    }
    assert shows[..j] == shows;
  }

  /**
   * The merging step of sortEpisodes: the show lists, each sorted, appended in the
   * `for ... in` order of the grouping object, whose keys were created in the order `titles`.
   */
  method MergeGroups(titles: seq<string>, byShow: map<string, seq<Episode>>, eps: seq<Episode>, order: SortOrder)
    returns (r: seq<Episode>)
    requires GroupsOf(byShow, titles, eps)
    ensures r == Grouped(ForInOrder(titles), eps, order)
  {
    r := AppendGroups(ForInOrder(titles), byShow, eps, order);
  }

  /** The ordering part of sortEpisodes. */
  method ArrangeEpisodes(eps: seq<Episode>, grouped: bool, order: SortOrder) returns (r: seq<Episode>)
    ensures r == Arrange(eps, grouped, order)
  {
    if grouped {
      var titles, byShow := GroupByShow(eps);
      r := MergeGroups(titles, byShow, eps, order);
    } else {
      r := SortByKey(eps, SortKey(order));
    }
  }

  // The episode nodes and the episode map.

  ghost predicate DistinctIds(eps: seq<Episode>) {
    forall i, j :: 0 <= i < j < |eps| ==> eps[i].id != eps[j].id
  }

  /** `data` maps the id of each node in `eps`, and nothing else, to that node's episode. */
  ghost predicate Lists(eps: seq<Episode>, data: map<string, Episode>) {
    DistinctIds(eps)
    && (forall i :: 0 <= i < |eps| ==> eps[i].id in data && data[eps[i].id] == eps[i])
    && (forall k :: k in data ==> k in Ids(eps))
  }

  /** With distinct ids, the next node's id is not yet in the data of the nodes before it. */
  lemma NextIdFresh(eps: seq<Episode>, i: int, data: map<string, Episode>)
    requires DistinctIds(eps) && 0 <= i < |eps| && Lists(eps[..i], data)
    ensures eps[i].id !in data
  {
    var ids := Ids(eps[..i]);
    assert forall k :: 0 <= k < i ==> ids[k] == eps[k].id != eps[i].id;
    assert eps[i].id !in ids;
  }

  /** The facts one step of repopulating needs: a fresh id, the next prefix, and its tabs. */
  lemma PrefixStep(eps: seq<Episode>, i: int, data: map<string, Episode>)
    requires DistinctIds(eps) && 0 <= i < |eps| && Lists(eps[..i], data)
    ensures eps[i].id !in data
    ensures eps[..i + 1] == eps[..i] + [eps[i]]
    ensures Uniq(KeysOf(eps[..i + 1], ShowId))
      == if KeyOf(ShowId, eps[i]) in Uniq(KeysOf(eps[..i], ShowId)) then Uniq(KeysOf(eps[..i], ShowId))
         else Uniq(KeysOf(eps[..i], ShowId)) + [KeyOf(ShowId, eps[i])]
  {
    NextIdFresh(eps, i, data);
    assert eps[..i + 1] == eps[..i] + [eps[i]];
    UniqStep(eps[..i], ShowId, eps[i]);
  }

  lemma ListsAppend(eps: seq<Episode>, data: map<string, Episode>, e: Episode)
    requires Lists(eps, data) && e.id !in data
    ensures Lists(eps + [e], data[e.id := e])
  {
    var r := eps + [e];
    forall k | k in data[e.id := e] ensures k in Ids(r) {
      if k != e.id {
        var i :| 0 <= i < |eps| && Ids(eps)[i] == k;
        assert Ids(r)[i] == k;
      } else {
        assert Ids(r)[|eps|] == k;
      }
    }
  }

  /** Dropping position `k` shifts every later node down by one. */
  lemma RemoveAtIndex(eps: seq<Episode>, k: int, r: seq<Episode>)
    requires 0 <= k < |eps| && r == eps[..k] + eps[k + 1..]
    ensures |r| == |eps| - 1
    ensures forall m :: 0 <= m < |r| ==> r[m] == eps[if m < k then m else m + 1]
  {
  }

  lemma DistinctRemoveAt(eps: seq<Episode>, k: int, r: seq<Episode>)
    requires DistinctIds(eps) && 0 <= k < |eps| && r == eps[..k] + eps[k + 1..]
    ensures DistinctIds(r)
  {
    RemoveAtIndex(eps, k, r);
    forall i, j | 0 <= i < j < |r| ensures r[i].id != r[j].id {
      assert r[i] == eps[if i < k then i else i + 1];
      assert r[j] == eps[if j < k then j else j + 1];
    }
  }

  lemma CoveredRemoveAt(eps: seq<Episode>, data: map<string, Episode>, k: int, r: seq<Episode>)
    requires Lists(eps, data) && 0 <= k < |eps| && r == eps[..k] + eps[k + 1..]
    ensures forall key :: key in data - {eps[k].id} ==> key in Ids(r)
  {
    RemoveAtIndex(eps, k, r);
    forall key | key in data - {eps[k].id} ensures key in Ids(r) {
      var j :| 0 <= j < |eps| && Ids(eps)[j] == key;
      var m := if j < k then j else j - 1;
      assert r[m] == eps[j];
      assert Ids(r)[m] == key;
    }
  }

  lemma ListsRemoveAt(eps: seq<Episode>, data: map<string, Episode>, k: int)
    requires Lists(eps, data) && 0 <= k < |eps|
    ensures Lists(eps[..k] + eps[k + 1..], data - {eps[k].id})
  {
    var r := eps[..k] + eps[k + 1..];
    var d := data - {eps[k].id};
    RemoveAtIndex(eps, k, r);
    DistinctRemoveAt(eps, k, r);
    CoveredRemoveAt(eps, data, k, r);
    forall m | 0 <= m < |r| ensures r[m].id in d && d[r[m].id] == r[m] {
      assert r[m] == eps[if m < k then m else m + 1];
    }
  }

  lemma ListsRemove(eps: seq<Episode>, data: map<string, Episode>, id: string)
    requires Lists(eps, data) && id in data
    ensures Lists(RemoveFirst(eps, data[id]), data - {id})
  {
    var x := data[id];
    var i :| 0 <= i < |eps| && Ids(eps)[i] == id;
    assert eps[i] == x && x.id == id;
    var k := IndexOf(eps, x);
    assert eps[k] == x;
    ListsRemoveAt(eps, data, k);
    assert RemoveFirst(eps, x) == eps[..k] + eps[k + 1..];
  }

  lemma MultiplicityAtMostOne(eps: seq<Episode>, x: Episode)
    requires DistinctIds(eps)
    ensures multiset(eps)[x] <= 1
  {
    if eps != [] {
      var init := eps[..|eps| - 1];
      MultiplicityAtMostOne(init, x);
      assert eps == init + [eps[|eps| - 1]];
    }
  }

  /** A permutation of the listed nodes is listed by the same map. */
  lemma ListsPermutation(a: seq<Episode>, b: seq<Episode>, data: map<string, Episode>)
    requires Lists(a, data) && multiset(a) == multiset(b)
    ensures Lists(b, data)
  {
    forall m | 0 <= m < |b| ensures b[m].id in data && data[b[m].id] == b[m] {
      assert b[m] in multiset(a);
      var q :| 0 <= q < |a| && a[q] == b[m];
    }
    forall i, j | 0 <= i < j < |b| ensures b[i].id != b[j].id {
      if b[i].id == b[j].id {
        assert b[i] == b[j];
        TwoPositions(b, i, j);
        MultiplicityAtMostOne(a, b[i]);
      }
    }
    forall k | k in data ensures k in Ids(b) {
      var q :| 0 <= q < |a| && Ids(a)[q] == k;
      assert a[q] in multiset(b);
      var m :| 0 <= m < |b| && b[m] == a[q];
      assert Ids(b)[m] == k;
    }
  }

  /** The map is determined by the nodes it lists. */
  lemma ListsUnique(eps: seq<Episode>, d1: map<string, Episode>, d2: map<string, Episode>)
    requires Lists(eps, d1) && Lists(eps, d2)
    ensures d1 == d2
  {
    forall k | k in d1 ensures k in d2 && d1[k] == d2[k] {
      var i :| 0 <= i < |eps| && Ids(eps)[i] == k;
    }
    forall k | k in d2 ensures k in d1 {
      var i :| 0 <= i < |eps| && Ids(eps)[i] == k;
    }
  }

  /** The keys of `data`, each once. */
  ghost predicate Enumerates(keys: seq<string>, data: map<string, Episode>) {
    (forall i, j :: 0 <= i < j < |keys| ==> keys[i] != keys[j])
    && (forall k :: k in keys <==> k in data)
  }

  function Enumerated(keys: seq<string>, data: map<string, Episode>): (r: seq<Episode>)
    requires forall k :: k in keys ==> k in data
    ensures |r| == |keys| && forall i :: 0 <= i < |keys| ==> r[i] == data[keys[i]]
  {
    if keys == [] then [] else Enumerated(keys[..|keys| - 1], data) + [data[keys[|keys| - 1]]]
  }

  /** The copying loop of sortEpisodes: the map's episodes in enumeration order. */
  method EnumerateData(keys: seq<string>, data: map<string, Episode>) returns (eps: seq<Episode>)
    requires forall k :: k in keys ==> k in data
    ensures eps == Enumerated(keys, data)
  {
    eps := [];
    var i := 0;
    while i < |keys|
      invariant 0 <= i <= |keys|
      invariant eps == Enumerated(keys[..i], data)
    {
      assert keys[..i + 1][..i] == keys[..i];
      eps := eps + [data[keys[i]]];
      i := i + 1;
    }
    assert keys[..i] == keys;
  }

  /** Enumerating a keyed map yields its episodes, each once, listed by the map itself. */
  lemma EnumeratedLists(keys: seq<string>, data: map<string, Episode>)
    requires Enumerates(keys, data)
    requires forall k :: k in data ==> data[k].id == k
    ensures Lists(Enumerated(keys, data), data)
  {
    var eps := Enumerated(keys, data);
    forall k | k in data ensures k in Ids(eps) {
      var i :| 0 <= i < |keys| && keys[i] == k;
      assert Ids(eps)[i] == k;
    }
  }

  /** Every key of listed data is the id of the episode it maps to. */
  lemma ListsKeys(eps: seq<Episode>, data: map<string, Episode>)
    requires Lists(eps, data)
    ensures forall k :: k in data ==> data[k].id == k
  {
    forall k | k in data ensures data[k].id == k {
      var i :| 0 <= i < |eps| && Ids(eps)[i] == k;
    }
  }

  /** `sortEpisodes` lists exactly the episodes of the map, each once. */
  lemma SortedListsData(keys: seq<string>, data: map<string, Episode>, grouped: bool, order: SortOrder)
    requires Enumerates(keys, data)
    requires forall k :: k in data ==> data[k].id == k
    ensures Lists(Arrange(Enumerated(keys, data), grouped, order), data)
  {
    EnumeratedLists(keys, data);
    ArrangePermutation(Enumerated(keys, data), grouped, order);
    ListsPermutation(Enumerated(keys, data), Arrange(Enumerated(keys, data), grouped, order), data);
  }

  /**
   * The episode map's keys were created in the order of the nodes (each node and its
   * entry are added and removed together, and a reset replaces the map by an empty
   * one), so a `for ... in` loop over the map visits the ids in `ForInOrder(Ids(eps))`.
   * That order lists the map's keys, each once.
   */
  lemma ForInEnumerates(eps: seq<Episode>, data: map<string, Episode>)
    requires Lists(eps, data)
    ensures Enumerates(ForInOrder(Ids(eps)), data)
  {
    ForInOrderDistinct(Ids(eps));
  }

  // Document order and the next episode.

  /** The episode nodes in the order of the tabs they sit in. */
  function InTabs(tabs: seq<string>, eps: seq<Episode>): seq<Episode> {
    if tabs == [] then [] else InTabs(tabs[..|tabs| - 1], eps) + OfKey(eps, ShowId, tabs[|tabs| - 1])
  }

  /** The episode nodes in document order: inside their show tabs when grouped, else as added. */
  function DocumentOrder(eps: seq<Episode>, tabs: seq<string>, grouped: bool): seq<Episode> {
    if grouped then InTabs(tabs, eps) else eps
  }

  lemma {:induction false} InTabsMembers(tabs: seq<string>, eps: seq<Episode>, x: Episode)
    ensures x in InTabs(tabs, eps) <==> x in eps && x.showId in tabs
  {
    if tabs != [] {
      var init := tabs[..|tabs| - 1];
      var t := tabs[|tabs| - 1];
      InTabsMembers(init, eps, x);
      OfKeyMembers(eps, ShowId, t, x);
      assert tabs == init + [t];
    }
  }

  /** The index `onEpisodeComplete` moves to: the next one, or the first after the last or when the current one is not found. */
  function NextIndex(current: int, n: nat): int {
    if current == -1 || current == n - 1 then 0 else current + 1
  }

  /** From any found index, or from "not found", the next index is the cyclic successor and lies in the list. */
  lemma NextIndexCyclic(current: int, n: nat)
    requires -1 <= current < n
    ensures 0 <= NextIndex(current, n) < n || n == 0
    ensures 0 <= current ==> NextIndex(current, n) == (current + 1) % n
    ensures current == -1 ==> NextIndex(current, n) == 0
  {
  }

  /** Every node's show has a tab. */
  ghost predicate InTabsAll(eps: seq<Episode>, tabs: seq<string>) {
    forall i :: 0 <= i < |eps| ==> eps[i].showId in tabs
  }

  lemma RemoveKeepsTabs(eps: seq<Episode>, tabs: seq<string>, x: Episode)
    requires InTabsAll(eps, tabs)
    ensures InTabsAll(RemoveFirst(eps, x), tabs)
  {
    var r := RemoveFirst(eps, x);
    forall i | 0 <= i < |r| ensures r[i].showId in tabs {
      assert r[i] in multiset(eps);
    }
  }

  class Channel {
    var episodes: seq<Episode>
    var episodeData: map<string, Episode>
    /** The show ids of the accordion tabs, in document order. */
    var tabs: seq<string>
    var currentSortOrder: SortOrder
    var groupedByShow: bool
    /** Whether the airdate button has the `ascending` class. */
    var ascendingClass: bool
    /** Whether the grouping button has the `grouped` class. */
    var groupedClass: bool
    /** The id of the node marked "now playing", if any. */
    var nowPlaying: Option<string>

    /** The nodes and the map agree, the now-playing node is listed, and the buttons show the sort state. */
    ghost predicate Listed()
      reads this
    {
      Lists(episodes, episodeData)
      && (nowPlaying.Some? ==> nowPlaying.value in episodeData)
      && (ascendingClass <==> currentSortOrder == Ascending)
      && (groupedClass <==> groupedByShow)
    }

    /** In addition, when grouped, every node sits in its show's tab. */
    ghost predicate Valid()
      reads this
    {
      Listed() && (groupedByShow ==> InTabsAll(episodes, tabs))
    }

    /** Newest first, grouped by show; the buttons' classes start out matching. */
    constructor ()
      ensures episodes == [] && episodeData == map[] && tabs == []
      ensures currentSortOrder == Descending && groupedByShow
      ensures nowPlaying == None
      ensures Valid()
    {
      episodes := [];
      episodeData := map[];
      tabs := [];
      currentSortOrder := Descending;
      groupedByShow := true;
      ascendingClass := false;
      groupedClass := true;
      nowPlaying := None;
    }

    /** Appends the episode's node, into its show's tab (created if missing) when grouped, and records its data. */
    method AddEpisode(episode: Episode)
      requires Valid() && episode.id !in episodeData
      modifies this
      ensures episodes == old(episodes) + [episode]
      ensures episodeData == old(episodeData)[episode.id := episode]
      ensures tabs == if groupedByShow && episode.showId !in old(tabs) then old(tabs) + [episode.showId] else old(tabs)
      ensures currentSortOrder == old(currentSortOrder) && groupedByShow == old(groupedByShow)
      ensures ascendingClass == old(ascendingClass) && groupedClass == old(groupedClass)
      ensures nowPlaying == old(nowPlaying)
      ensures Valid()
    {
      ListsAppend(episodes, episodeData, episode);
      if groupedByShow && episode.showId !in tabs {
        tabs := tabs + [episode.showId];
      }
      episodes := episodes + [episode];
      episodeData := episodeData[episode.id := episode];
    }

    /** Removes a listed episode's node and its data; the show's tab stays. */
    method RemoveEpisode(id: string)
      requires Valid() && id in episodeData
      modifies this
      ensures episodes == RemoveFirst(old(episodes), old(episodeData)[id])
      ensures episodeData == old(episodeData) - {id}
      ensures nowPlaying == if old(nowPlaying) == Some(id) then None else old(nowPlaying)
      ensures tabs == old(tabs)
      ensures currentSortOrder == old(currentSortOrder) && groupedByShow == old(groupedByShow)
      ensures ascendingClass == old(ascendingClass) && groupedClass == old(groupedClass)
      ensures Valid()
    {
      var node := episodeData[id];
      var rest := RemoveFirst(episodes, node);
      ListsRemove(episodes, episodeData, id);
      if groupedByShow {
        RemoveKeepsTabs(episodes, tabs, node);
      }
      episodeData := episodeData - {id};
      episodes := rest;
      if nowPlaying == Some(id) {
        nowPlaying := None;
      }
    }

    /** Empties the list: nodes, tabs and data. */
    method Reset()
      requires Listed()
      modifies this
      ensures episodes == [] && episodeData == map[] && tabs == [] && nowPlaying == None
      ensures currentSortOrder == old(currentSortOrder) && groupedByShow == old(groupedByShow)
      ensures ascendingClass == old(ascendingClass) && groupedClass == old(groupedClass)
      ensures Valid()
    {
      episodes := [];
      episodeData := map[];
      tabs := [];
      nowPlaying := None;
    }

    /** Marks a listed episode as now playing. */
    method SetNowPlaying(id: string)
      requires Valid() && id in episodeData
      modifies this
      ensures nowPlaying == Some(id)
      ensures episodes == old(episodes) && episodeData == old(episodeData) && tabs == old(tabs)
      ensures currentSortOrder == old(currentSortOrder) && groupedByShow == old(groupedByShow)
      ensures ascendingClass == old(ascendingClass) && groupedClass == old(groupedClass)
      ensures Valid()
    {
      nowPlaying := Some(id);
    }

    /** Adds the arranged episodes one by one to the emptied list. */
    method Repopulate(arranged: seq<Episode>)
      requires Valid() && episodes == [] && episodeData == map[] && tabs == [] && nowPlaying == None
      requires DistinctIds(arranged)
      modifies this
      ensures episodes == arranged && Lists(arranged, episodeData)
      ensures tabs == if groupedByShow then Uniq(KeysOf(arranged, ShowId)) else []
      ensures nowPlaying == None
      ensures currentSortOrder == old(currentSortOrder) && groupedByShow == old(groupedByShow)
      ensures ascendingClass == old(ascendingClass) && groupedClass == old(groupedClass)
      ensures Valid()
    {
      var i := 0;
      while i < |arranged|
        invariant 0 <= i <= |arranged|
        invariant Valid()
        invariant episodes == arranged[..i]
        invariant nowPlaying == None
        invariant tabs == if groupedByShow then Uniq(KeysOf(arranged[..i], ShowId)) else []
        invariant currentSortOrder == old(currentSortOrder) && groupedByShow == old(groupedByShow)
        invariant ascendingClass == old(ascendingClass) && groupedClass == old(groupedClass)
      {
        PrefixStep(arranged, i, episodeData);
        AddEpisode(arranged[i]);
        i := i + 1;
      }
      assert arranged[..i] == arranged;
    }

    /**
     * Rebuilds the list from the episode map, read in `for ... in` order: grouped by show
     * title with each group sorted and the groups in `for ... in` order of the titles, or
     * all sorted together; the now-playing mark is restored when its id is not empty.
     */
    method SortEpisodes()
      requires Listed()
      modifies this
      ensures episodes == Arrange(Enumerated(ForInOrder(Ids(old(episodes))), old(episodeData)), groupedByShow, currentSortOrder)
      ensures episodeData == old(episodeData)
      ensures tabs == if groupedByShow then Uniq(KeysOf(episodes, ShowId)) else []
      ensures nowPlaying == if old(nowPlaying).Some? && old(nowPlaying).value != "" then old(nowPlaying) else None
      ensures currentSortOrder == old(currentSortOrder) && groupedByShow == old(groupedByShow)
      ensures ascendingClass == old(ascendingClass) && groupedClass == old(groupedClass)
      ensures Valid()
    {
      var data := episodeData;
      var keys := ForInOrder(Ids(episodes));
      ForInEnumerates(episodes, episodeData);
      var eps := EnumerateData(keys, episodeData);
      var nowPlayingID := nowPlaying;
      ListsKeys(episodes, data);
      Reset();
      var arranged := ArrangeEpisodes(eps, groupedByShow, currentSortOrder);
      SortedListsData(keys, data, groupedByShow, currentSortOrder);
      Repopulate(arranged);
      ListsUnique(arranged, episodeData, data);
      if nowPlayingID.Some? && nowPlayingID.value != "" {
        SetNowPlaying(nowPlayingID.value);
      }
    }

    /** The first half of a sort click: the airdate button flips the order, any other button flips the grouping. */
    method FlipSetting(sortBy: string)
      requires Valid()
      modifies this
      ensures sortBy == "airdate" ==>
        currentSortOrder == (if old(currentSortOrder) == Ascending then Descending else Ascending)
        && groupedByShow == old(groupedByShow)
      ensures sortBy != "airdate" ==>
        groupedByShow == !old(groupedByShow) && currentSortOrder == old(currentSortOrder)
      ensures episodes == old(episodes) && episodeData == old(episodeData) && nowPlaying == old(nowPlaying)
      ensures Listed()
    {
      if sortBy == "airdate" {
        if ascendingClass {
          ascendingClass := false;
          currentSortOrder := Descending;
        } else {
          ascendingClass := true;
          currentSortOrder := Ascending;
        }
      } else {
        if groupedClass {
          groupedClass := false;
          groupedByShow := false;
        } else {
          groupedClass := true;
          groupedByShow := true;
        }
      }
    }

    /** A click on a sort button flips its setting, then the list is sorted again. */
    method OnSortClick(sortBy: string)
      requires Valid()
      modifies this
      ensures sortBy == "airdate" ==>
        currentSortOrder == (if old(currentSortOrder) == Ascending then Descending else Ascending)
        && groupedByShow == old(groupedByShow)
      ensures sortBy != "airdate" ==>
        groupedByShow == !old(groupedByShow) && currentSortOrder == old(currentSortOrder)
      ensures episodes == Arrange(Enumerated(ForInOrder(Ids(old(episodes))), old(episodeData)), groupedByShow, currentSortOrder)
      ensures episodeData == old(episodeData)
      ensures tabs == if groupedByShow then Uniq(KeysOf(episodes, ShowId)) else []
      ensures nowPlaying == if old(nowPlaying).Some? && old(nowPlaying).value != "" then old(nowPlaying) else None
      ensures Valid()
    {
      FlipSetting(sortBy);
      SortEpisodes();
    }

    /**
     * The episode to play when one ends: with nothing marked now playing, the first node
     * in document order (none when the list is empty, where the source fails on a null
     * node); otherwise the node after the now-playing one, wrapping to the first.
     */
    method OnEpisodeComplete() returns (next: Option<Episode>)
      requires Valid()
      ensures nowPlaying.None? ==>
        next == (var doc := DocumentOrder(episodes, tabs, groupedByShow); if doc == [] then None else Some(doc[0]))
      ensures nowPlaying.None? ==> (next.Some? <==> episodes != [])
      ensures next.Some? ==> next.value in episodes
      ensures nowPlaying.Some? ==>
        episodes != [] && next == Some(episodes[NextIndex(IndexOf(Ids(episodes), nowPlaying.value), |episodes|)])
    {
      if nowPlaying.None? {
        var doc := DocumentOrder(episodes, tabs, groupedByShow);
        if episodes != [] {
          InTabsMembers(tabs, episodes, episodes[0]);
        }
        if doc == [] {
          return None;
        }
        InTabsMembers(tabs, episodes, doc[0]);
        var q :| 0 <= q < |episodes| && episodes[q] == doc[0];
        next := Some(episodeData[doc[0].id]);
      } else {
        var q :| 0 <= q < |episodes| && Ids(episodes)[q] == nowPlaying.value;
        var currentIndex := IndexOf(Ids(episodes), nowPlaying.value);
        var nextIndex := currentIndex + 1;
        if currentIndex == -1 || currentIndex == |episodes| - 1 {
          nextIndex := 0;
        }
        next := Some(episodeData[episodes[nextIndex].id]);
      }
    }
  }
}
