# Video catalogue core, modelled in Dafny

This project models the core of a browser application that shows a catalogue of video
shows and their episodes: a channel of queued episodes, a carousel of subscribed shows,
paged grids of items, a search over the episode data, and the router that hands a
history token to a section controller. The source is JavaScript written against the
Closure library. One Dafny module stands for each source file of the core:

- `Grid`: the cell layout (`gva.util.Grid`). It counts rows and columns, optionally
  centres the cells, and lists one coordinate per cell in row-major order.
- `FlexibleGrid`: a paged grid of items (`gva.component.FlexibleGrid`). Its grid is held
  as a `Grid` field, because a Dafny class cannot extend another.
- `StringUtil`: `slugify`, `stripTags`, `singleSentence` and `levenshtein`.
- `DataModel`: the catalogue (`gva.model.DataModel`). `setData` flattens the categories
  into shows and episodes and indexes them. The model also covers the lookups by id and
  slug, `searchEpisodes`, `searchEpisodesByTimestamp` and `getEpisodesByShow`.
- `Subscriptions`: the carousel of subscribed shows, with one show in the spotlight.
- `Channel`: the episode queue. It can be grouped by show and sorted by airdate in either
  order, and it picks the next episode when one ends.
- `DateUtil`: `formatDate`, a PHP-style date template.
- `Html5Player`: `timeFormat`, a media time shown as `MM:SS`.
- `NotificationView`: `getParameterByName`, one query parameter of the page address.
- `ApplicationController`: `getPathSegments`, `refresh` and the history handler that
  refreshes only on a new token.

Two support modules:

- `JsRuntime` holds what the core takes from the JavaScript runtime: `Option`, the
  character classes of regular expressions, number-to-string conversion, `split`/`join`,
  `indexOf`, the Closure `goog.array.remove`, and the order in which a `for ... in` loop
  visits an object's keys.
- `Sorting` holds the sort the core hands to `Array.prototype.sort`.

Where the source changes an object's fields step by step, the model is a class with
those fields. Its methods state the new state in terms of specification functions, and
lemmas state what the source promises about those functions. Pure computations are
functions and lemmas. The DOM, the browser's history, its clock and `decodeURIComponent`
are outside the model. Where the core depends on them, the model takes them as
parameters.

## Model

| member | source | states |
|---|---|---|
| Grid.Grid.constructor | source/core/js/gva/util/Grid.js:26-87 | The grid starts with empty counts and no coordinates, unit bounds and centring on, and this is already the layout of those bounds. |
| Grid.Grid.SetGridBounds | source/core/js/gva/util/Grid.js:97-103 | The container bounds are stored (a NaN argument is stored as 1), then the layout is recomputed from them. |
| Grid.Grid.SetCellBounds | source/core/js/gva/util/Grid.js:112-118 | The cell size and spacing are stored (NaN as 1), then the layout is recomputed. |
| Grid.Grid.Refresh | source/core/js/gva/util/Grid.js:123-157 | Rows, columns, cells and coordinates become the layout of the unchanged bounds. |
| Grid.PushCoords | source/core/js/gva/util/Grid.js:146-153 | The nested loops push exactly the row-major list of cell coordinates. |
| Grid.CountMaximal | source/core/js/gva/util/Grid.js:130-135 | The column (row) count is the largest number of steps that fit after the gutter; the leftover space is at least 0 and less than one step. |
| Grid.ZeroExtentCount | source/core/js/gva/util/Grid.js:130-131 | An extent of 0 with a positive gutter no wider than a step gives a count of -1, not 0. |
| Grid.RowCoordsAt | source/core/js/gva/util/Grid.js:148-152 | Column `c` of a row lies `c` steps right of the start, at the row's height. |
| Grid.CoordsLength | source/core/js/gva/util/Grid.js:146-153 | There are max(rows, 0) times max(cols, 0) coordinates. |
| Grid.CoordsAt | source/core/js/gva/util/Grid.js:146-153 | Entry `row * cols + col` holds the cell at that row and column. |
| Grid.LayoutCounts | source/core/js/gva/util/Grid.js:126-156 | The layout's column and row counts follow the floor formulas, `cells == rows * cols`, and the number of coordinates matches. |
| Grid.LayoutCoordsAt | source/core/js/gva/util/Grid.js:134-153 | Each coordinate is the start plus whole steps, and with centring off the first cell is at the origin. |
| Grid.CentredMargins | source/core/js/gva/util/Grid.js:134-139 | With centring on, the margins before the first cell and after the last are equal, and every cell lies inside the container. |
| FlexibleGrid.TotalPagesCover | source/core/js/gva/component/FlexibleGrid.js:233 | With a positive page size, the page count is the least number of pages that hold every item. |
| FlexibleGrid.Placement | source/core/js/gva/component/FlexibleGrid.js:244-302 | Exactly the items of the current window are shown, at successive grid coordinates, and every other item is hidden. |
| FlexibleGrid.FlexibleGrid.constructor | source/core/js/gva/component/FlexibleGrid.js:40-81 | A fresh grid, no items, index and page 0, one page. |
| FlexibleGrid.FlexibleGrid.Initialize | source/core/js/gva/component/FlexibleGrid.js:97-115 | The cell bounds are set and, through the Grid setter's call of the overriding refresh, the display is refreshed under the old grid bounds; only if that completes are the grid bounds taken from the context's size and the display refreshed again. With no items the first refresh always completes. |
| FlexibleGrid.FlexibleGrid.AddItem | source/core/js/gva/component/FlexibleGrid.js:159-168 | The item is appended, visible where the context puts it, and the display refreshed without transition; the bounds and the index stay. |
| FlexibleGrid.FlexibleGrid.GetItems | source/core/js/gva/component/FlexibleGrid.js:175-177 | Returns the items in order. |
| FlexibleGrid.FlexibleGrid.Clear | source/core/js/gva/component/FlexibleGrid.js:182-195 | No items are left, their display goes with them, and the index and page are 0; the page count and the buttons are not refreshed. |
| FlexibleGrid.FlexibleGrid.PrevPage | source/core/js/gva/component/FlexibleGrid.js:200-208 | The index moves one page back, clamped at 0, unless it is already at the start; then the display is refreshed. |
| FlexibleGrid.FlexibleGrid.NextPage | source/core/js/gva/component/FlexibleGrid.js:213-218 | The index moves one page on only while the next page holds an item; then the display is refreshed. |
| FlexibleGrid.FlexibleGrid.OnNavClick | source/core/js/gva/component/FlexibleGrid.js:345-352 | A click on the previous button pages back, and any other click pages on. |
| FlexibleGrid.FlexibleGrid.Resize | source/core/js/gva/component/FlexibleGrid.js:329-339 | The grid bounds become the context's size at the origin, and the display is refreshed: once through the Grid setter, and again if that completes. |
| FlexibleGrid.FlexibleGrid.Refresh | source/core/js/gva/component/FlexibleGrid.js:225-323 | It sets the page count, shows the current window and sets the buttons: previous disabled below index 1, next disabled when the window passes the last item. It fails exactly when an item of the window has no coordinate, and then leaves the display of an interrupted loop with the buttons as they were. |
| FlexibleGrid.PlaceItems | source/core/js/gva/component/FlexibleGrid.js:244-302 | The item loop succeeds exactly when the window has enough coordinates, and then yields the placement of each item; otherwise it yields the display of a loop interrupted at the first item without a coordinate. |
| FlexibleGrid.Interrupted | source/core/js/gva/component/FlexibleGrid.js:244-273 | When the loop throws at item k, the first page item past the coordinates: the items before k are hidden or placed as in a full refresh, item k is made visible without moving (untouched under a transition), and the later items keep their state. |
| FlexibleGrid.InterruptedSplits | source/core/js/gva/component/FlexibleGrid.js:244-273 | The interrupted display is the items placed so far, then the item that threw, then the untouched rest. |
| FlexibleGrid.InterruptedAtCurrent | source/core/js/gva/component/FlexibleGrid.js:244-302 | With no coordinates, a refresh without transition throws at the current item: the items before it are hidden, it is visible, the rest are as they were. |
| FlexibleGrid.PrevIndexNonNegative | source/core/js/gva/component/FlexibleGrid.js:200-208 | Paging back from a non-negative index never goes below 0 and strictly decreases a positive index when the page size is positive. |
| FlexibleGrid.NextIndexStep | source/core/js/gva/component/FlexibleGrid.js:213-218 | Paging on moves by exactly one page, and only when an item lies past the current window. |
| FlexibleGrid.NextThenPrev | source/core/js/gva/component/FlexibleGrid.js:200-218 | A successful page on followed by a page back restores the index. |
| FlexibleGrid.NextIndexNegativeCells | source/core/js/gva/component/FlexibleGrid.js:213-218 | With a negative page size (a collapsed grid), paging on drives the index below 0. |
| FlexibleGrid.WindowFitsUnlessBothNegative | source/core/js/gva/component/FlexibleGrid.js:244-302 | The window always has coordinates enough unless both rows and columns are negative. |
| FlexibleGrid.CollapsedGridHasNoRoom | source/core/js/gva/component/FlexibleGrid.js:244-302 | With rows and columns both -1 there is one cell and no coordinate, so any item on the page has no position. |
| FlexibleGrid.NextEnabledAtLastPage | source/core/js/gva/component/FlexibleGrid.js:305-316 | When the window ends exactly at the last item, the next button stays enabled but paging on does nothing. |
| StringUtil.TrimOneSpace | source/core/js/gva/util/StringUtil.js:38 | Drops at most one whitespace character at each end, and only whitespace. |
| StringUtil.RemovePunctuationAlphabet | source/core/js/gva/util/StringUtil.js:41 | The punctuation filter keeps only characters of the input that are word characters, `|` or whitespace. |
| StringUtil.ReplaceSpaceRunsAlphabet | source/core/js/gva/util/StringUtil.js:44 | After replacing whitespace runs no whitespace is left, and every character is the separator or one of the input's. |
| StringUtil.Slugify | source/core/js/gva/util/StringUtil.js:35-47 | `slugify`: trim one whitespace character at each end, drop punctuation, turn whitespace runs into `-`, lower-case. Its contract is stated by SlugifyAlphabet, SlugifyTwoWords and SlugifyDropsHyphen. |
| StringUtil.SlugifyAlphabet | source/core/js/gva/util/StringUtil.js:35-47 | A slug holds only lower-case word characters, `|` and `-`, and never whitespace. |
| StringUtil.ReplaceSpaceRunsNoSpace | source/core/js/gva/util/StringUtil.js:44 | A string without whitespace is left alone. |
| StringUtil.ReplaceOneSpace | source/core/js/gva/util/StringUtil.js:44 | One space between two words becomes one separator. |
| StringUtil.SlugifyTwoWords | source/core/js/gva/util/StringUtil.js:35-47 | Two words separated by one space slugify to the lower-cased words joined by a hyphen (`Page Title` to `page-title`). |
| StringUtil.SlugifyDropsHyphen | source/core/js/gva/util/StringUtil.js:35-47 | Hyphens are punctuation to slugify, so a slug is not a fixed point: `page-title` becomes `pagetitle`. |
| StringUtil.HyphenRemoved | source/core/js/gva/util/StringUtil.js:41 | The punctuation filter removes a hyphen between two words. |
| StringUtil.RemovePunctuationWord | source/core/js/gva/util/StringUtil.js:41 | Word characters pass the punctuation filter unchanged. |
| StringUtil.TagLength | source/core/js/gva/util/StringUtil.js:55 | A tag at the head runs to the first `>` and holds at least one character between the brackets. |
| StringUtil.StripTags | source/core/js/gva/util/StringUtil.js:54-56 | The result is no longer than the input, and all its characters come from the input. |
| StringUtil.StripTagsLeavesNoTag | source/core/js/gva/util/StringUtil.js:54-56 | No tag is left in the result: the pattern finds no match in it. |
| StringUtil.StripTagsWithoutLt | source/core/js/gva/util/StringUtil.js:54-56 | A string without `<` is returned unchanged. |
| StringUtil.Substr | source/core/js/gva/util/StringUtil.js:67-77 | `substr(0, n)` is the first `n` characters, clamped to the string. |
| StringUtil.SentenceCut | source/core/js/gva/util/StringUtil.js:67-69 | When the first `.` is at or past `minLength`, the text ends just after it and holds no earlier `.`; otherwise the text is kept. |
| StringUtil.CutAtLastSpace | source/core/js/gva/util/StringUtil.js:71-77 | Keeps the text before the last space among the first `n` characters, or nothing when there is no such space. |
| StringUtil.Ellipsize | source/core/js/gva/util/StringUtil.js:71-77 | With no `maxLength`, or a text that fits, the text is kept; otherwise the result is cut at the last space and ends in `...`. |
| StringUtil.SingleSentence | source/core/js/gva/util/StringUtil.js:65-80 | `singleSentence`: the first sentence once it is long enough, then cut at the last space with `...` when too long. Its contract is stated by SentenceCut, Ellipsize and SingleSentenceBound. |
| StringUtil.SingleSentenceBound | source/core/js/gva/util/StringUtil.js:65-80 | With a positive `maxLength` the result is at most three characters longer than it. |
| StringUtil.EditDistanceStep | source/core/js/gva/util/StringUtil.js:100-104 | Each table cell is the minimum of deletion, insertion and substitution from its neighbours. |
| StringUtil.FillRow | source/core/js/gva/util/StringUtil.js:99-105 | One pass of the inner loop fills row `i` with the edit distances of the prefixes. |
| StringUtil.Levenshtein | source/core/js/gva/util/StringUtil.js:88-108 | Returns the edit distance of the two strings. |
| StringUtil.EditDistanceSelf | source/core/js/gva/util/StringUtil.js:88-108 | A string is at distance 0 from itself. |
| StringUtil.EditDistanceToEmpty | source/core/js/gva/util/StringUtil.js:88-108 | The distance to the empty string is the length. |
| StringUtil.EditDistanceSymmetric | source/core/js/gva/util/StringUtil.js:88-108 | The distance is symmetric. |
| StringUtil.EditDistanceBounds | source/core/js/gva/util/StringUtil.js:88-108 | The distance lies between the difference of the lengths and the larger length. |
| Sorting.SortByKey | source/core/js/gva/model/DataModel.js:223-225 | The result is sorted by the key and is a permutation of the input. |
| Sorting.InsertSorted | source/core/js/gva/model/DataModel.js:223-225 | Inserting into a sorted list keeps it sorted. |
| Sorting.SortByKeyMembers | source/core/js/gva/model/DataModel.js:223-225 | Sorting neither loses nor invents an element. |
| DataModel.SanitizeTerm | source/core/js/gva/model/DataModel.js:176-183 | The three `replace` calls that turn the raw term into the search pattern. Its contract is stated by SanitizeAlphabet and SanitizeWord. |
| DataModel.SanitizeAlphabet | source/core/js/gva/model/DataModel.js:176-186 | The sanitised term holds only word characters, `-` and `|`, so the pattern is an alternation of literal pieces. |
| DataModel.SanitizeWord | source/core/js/gva/model/DataModel.js:176-186 | A term of word characters is searched for as it is. |
| DataModel.EmptyTermMatches | source/core/js/gva/model/DataModel.js:186 | The empty pattern matches every field. |
| DataModel.WordMatchesItself | source/core/js/gva/model/DataModel.js:196 | A word matches itself. |
| DataModel.RankOf | source/core/js/gva/model/DataModel.js:188-211 | An episode is a hit exactly when its title, show title or description matches; the ranking never throws. |
| DataModel.AsWrittenThrowsOnMiss | source/core/js/gva/model/DataModel.js:208 | As written, one episode whose title and show title both miss makes the whole search throw. |
| DataModel.AsWrittenAgrees | source/core/js/gva/model/DataModel.js:188-211 | When every episode matches in its title or show title, the as-written and corrected searches agree. |
| DataModel.ScoredIndexData | source/core/js/gva/model/DataModel.js:188-219 | The index lists the matching episodes in order, each with its field's distance. |
| DataModel.MatchingCount | source/core/js/gva/model/DataModel.js:188-219 | Each matching episode is indexed as often as it occurs, and no other episode is indexed. |
| DataModel.DataPermutation | source/core/js/gva/model/DataModel.js:223-230 | Permuting the index entries permutes their episodes. |
| DataModel.Search | source/core/js/gva/model/DataModel.js:161-235 | `searchEpisodes` as intended: nothing without data, else the matching episodes by distance. Its contract is stated by SearchCount, SearchMembers, SearchSorted and SearchWithoutData. |
| DataModel.SearchCount | source/core/js/gva/model/DataModel.js:161-235 | Every matching episode is returned as often as it occurs in the data, and nothing else is returned. |
| DataModel.SearchMembers | source/core/js/gva/model/DataModel.js:161-235 | The results are exactly the matching episodes. |
| DataModel.SearchSorted | source/core/js/gva/model/DataModel.js:223-230 | The results come in non-decreasing order of distance. |
| DataModel.SearchWithoutData | source/core/js/gva/model/DataModel.js:166-168 | Without data the search returns nothing. |
| DataModel.EmptyTermReturnsAll | source/core/js/gva/model/DataModel.js:176-211 | A term that sanitises to nothing returns every episode. |
| DataModel.ExactTitleFirst | source/core/js/gva/model/DataModel.js:194-230 | Searching for a one-word title finds that episode at distance 0, ahead of every result with a positive distance. |
| DataModel.AiredAfterMembers | source/core/js/gva/model/DataModel.js:242-263 | An episode is returned by timestamp exactly when it aired after the start time. |
| DataModel.AiredAfterConcat | source/core/js/gva/model/DataModel.js:242-263 | The timestamp filter keeps the original order. |
| DataModel.OfShowMembers | source/core/js/gva/model/DataModel.js:309-338 | An episode is returned for a show exactly when it belongs to that show and, when asked for unwatched ones, is not watched. |
| DataModel.OfShowConcat | source/core/js/gva/model/DataModel.js:309-338 | The show filter keeps the original order. |
| DataModel.AllEpisodesAt | source/core/js/gva/model/DataModel.js:356-458 | Each flattened episode carries its category's id and title, a non-empty image URL, and the watched and new flags. |
| DataModel.AllEpisodesIndex | source/core/js/gva/model/DataModel.js:356-458 | Episode `j` of category `c` sits after all episodes of the earlier categories. |
| DataModel.AllEpisodesLength | source/core/js/gva/model/DataModel.js:356-458 | There is one flattened episode per episode of every category. |
| DataModel.AllShowsAt | source/core/js/gva/model/DataModel.js:356-458 | Each show has its category's id, title and episode count, a non-empty image URL, and the latest airdate seen so far. |
| DataModel.AllShowsLength | source/core/js/gva/model/DataModel.js:356-458 | There is one show per category. |
| DataModel.LatestAfterIsMax | source/core/js/gva/model/DataModel.js:356-458 | `lastUpdated` is never reset: after each category it is the largest airdate of all categories so far, or unset when none has episodes. |
| DataModel.IndexByLastWins | source/core/js/gva/model/DataModel.js:442-458 | When two entries share a key, the last one is kept in the index. |
| DataModel.IndexByUntouched | source/core/js/gva/model/DataModel.js:442-458 | A key no entry has keeps its old binding, or its absence: the indexes are not cleared. |
| DataModel.IndexByKeyed | source/core/js/gva/model/DataModel.js:442-458 | Every key of an index is the key of the entry it maps to. |
| DataModel.RankEpisode | source/core/js/gva/model/DataModel.js:190-211 | The field tests of one episode give its rank. |
| DataModel.BuildIndex | source/core/js/gva/model/DataModel.js:188-220 | The matching loop builds the scored index. |
| DataModel.CopyData | source/core/js/gva/model/DataModel.js:228-230 | The copy loop yields the indexed episodes in order. |
| DataModel.Flatten | source/core/js/gva/model/DataModel.js:358-432 | The category loop builds every show and the flat episode list. |
| DataModel.FlattenCategory | source/core/js/gva/model/DataModel.js:381-429 | The episode loop of one category builds its episodes and carries the latest airdate on. |
| DataModel.IndexShows | source/core/js/gva/model/DataModel.js:443-449 | Each show goes into the slug and id indexes. |
| DataModel.IndexEpisodes | source/core/js/gva/model/DataModel.js:452-458 | Each episode goes into the slug and id indexes. |
| DataModel.DataModel.constructor | source/core/js/gva/model/DataModel.js:43-69 | No data and four empty indexes. |
| DataModel.DataModel.SetData | source/core/js/gva/model/DataModel.js:345-458 | Stores the flattened shows and episodes and adds them to the indexes, which are not cleared first. |
| DataModel.DataModel.Store | source/core/js/gva/model/DataModel.js:434-458 | Stores the lists and indexes their entries. |
| DataModel.DataModel.GetShowByID | source/core/js/gva/model/DataModel.js:271-278 | A show is found exactly when its id is indexed, and it has that id. |
| DataModel.DataModel.GetShowBySlug | source/core/js/gva/model/DataModel.js:280-287 | A show is found exactly when its slug is indexed, and it has that slug. |
| DataModel.DataModel.GetEpisodeByID | source/core/js/gva/model/DataModel.js:289-296 | An episode is found exactly when its id is indexed, and it has that id. |
| DataModel.DataModel.GetEpisodeBySlug | source/core/js/gva/model/DataModel.js:298-305 | An episode is found exactly when its slug is indexed, and it has that slug. |
| DataModel.DataModel.SearchEpisodes | source/core/js/gva/model/DataModel.js:161-235 | Returns the corrected search over the stored episodes. |
| DataModel.DataModel.SearchEpisodesByTimestamp | source/core/js/gva/model/DataModel.js:242-263 | Returns the stored episodes that aired after the start time, in order, or nothing without data. |
| DataModel.DataModel.GetEpisodesByShow | source/core/js/gva/model/DataModel.js:309-338 | Returns the stored episodes of the show (unwatched ones when asked), or `false` without data. |
| Subscriptions.Bounds | source/core/js/gva/component/Subscriptions.js:314-337 | Computes the leftmost and rightmost visible shows. |
| Subscriptions.Place | source/core/js/gva/component/Subscriptions.js:340-363 | The positioning loop hides the shows outside the window, places the others left to right, and ends at the width used. |
| Subscriptions.Subscriptions.constructor | source/core/js/gva/component/Subscriptions.js:34-92 | No shows, spotlight index 0, grid width 1. |
| Subscriptions.Subscriptions.Refresh | source/core/js/gva/component/Subscriptions.js:293-376 | The count is refreshed, and for a non-empty list the window is recomputed from the spotlight and the width. |
| Subscriptions.Subscriptions.PrevShow | source/core/js/gva/component/Subscriptions.js:182-194 | The spotlight moves one show left unless it is on the first one. |
| Subscriptions.Subscriptions.NextShow | source/core/js/gva/component/Subscriptions.js:196-205 | The spotlight moves one show right unless it is on the last one. |
| Subscriptions.Subscriptions.AddItem | source/core/js/gva/component/Subscriptions.js:211-273 | The show is appended and the window refreshed; the spotlight index is kept. |
| Subscriptions.Subscriptions.Resize | source/core/js/gva/component/Subscriptions.js:280-291 | The grid width becomes the wrap width less both margins, and the window is refreshed. |
| Subscriptions.Subscriptions.RemoveItem | source/core/js/gva/component/Subscriptions.js:388-401 | The first element with the id is removed, the spotlight pulled back into range, and the window refreshed. |
| Subscriptions.Subscriptions.OnItemClicked | source/core/js/gva/component/Subscriptions.js:427-440 | A click on a show brings it to the spotlight; a click on the spotlight itself changes nothing. |
| Subscriptions.ShowMinAtMostCurrent | source/core/js/gva/component/Subscriptions.js:314-317 | The leftmost visible show is at or left of the spotlight exactly when the area is at least as wide as the spotlight. |
| Subscriptions.LeftFits | source/core/js/gva/component/Subscriptions.js:314-319 | The spotlight and the stacked shows to its left fit in the grid area. |
| Subscriptions.ShowMaxBounds | source/core/js/gva/component/Subscriptions.js:319-337 | The rightmost visible show lies between the spotlight and the end, and is right of the spotlight exactly when a full-width show fits there. |
| Subscriptions.UsedInWindow | source/core/js/gva/component/Subscriptions.js:340-363 | Before a visible show, the position is one spacing per earlier visible show, plus the spotlight's width once it is passed. |
| Subscriptions.UsedAfterWindow | source/core/js/gva/component/Subscriptions.js:340-363 | The position does not move past the window. |
| Subscriptions.WindowPlacements | source/core/js/gva/component/Subscriptions.js:340-363 | Exactly the shows in the window are visible, placed left to right from offset 0 with the spotlight's extra width. |
| Subscriptions.SpotlightVisible | source/core/js/gva/component/Subscriptions.js:314-363 | The spotlight show is visible exactly when the area is at least as wide as the spotlight. |
| Subscriptions.WindowFitsWidth | source/core/js/gva/component/Subscriptions.js:319-370 | When a show fits right of the spotlight, the visible shows never reach past the area, and the grid is shifted by half the unused width. |
| Channel.SortByAirdateAscending | source/core/js/gva/component/Channel.js:571-576 | Oldest first: negative exactly when `a` aired before `b`, and the opposite of the descending comparator. |
| Channel.SortByAirdateDescending | source/core/js/gva/component/Channel.js:585-590 | Newest first: negative exactly when `a` aired after `b`. |
| Channel.ComparatorMatchesKey | source/core/js/gva/component/Channel.js:521 | The chosen comparator orders two episodes as the sort key does. |
| Channel.Uniq | source/core/js/gva/component/Channel.js:526-536 | The show titles in order of first appearance, which is the order the grouping object's keys are created in: the same titles, each once. |
| JsRuntime.ForInOrder | source/core/js/gva/component/Channel.js:542 | The keys a `for ... in` loop visits are exactly the object's own keys. |
| JsRuntime.ForInIndicesFirst | source/core/js/gva/component/Channel.js:542 | The loop visits the array-index keys before every other key, and the other keys in creation order. |
| JsRuntime.ForInOrderDistinct | source/core/js/gva/component/Channel.js:542 | The loop visits each key once. |
| JsRuntime.ForInIndicesAscending | source/core/js/gva/component/Channel.js:542 | The array-index keys are visited in strictly ascending numeric order. |
| JsRuntime.CanonicalDigits | source/core/js/gva/component/Channel.js:542 | A string of digits without a leading zero is what `String` prints for its value, so distinct array-index keys have distinct values. |
| Channel.ShowOrderTitles | source/core/js/gva/component/Channel.js:523-545 | The merge visits every show title of the list once, with array-index titles ahead of the others. |
| Channel.IndexKeyVisitedFirst | source/core/js/gva/component/Channel.js:542 | The key `24` is visited before the earlier-created key `Lost`. |
| Channel.IndexTitleMergedFirst | source/core/js/gva/component/Channel.js:523-545 | An episode of `Lost` listed before one of `24`: the `24` group is merged first. |
| Channel.Block | source/core/js/gva/component/Channel.js:542-545 | One show's block holds only that show's episodes, sorted, and all of them. |
| Channel.GroupedCount | source/core/js/gva/component/Channel.js:523-545 | Grouping keeps every episode whose show title is grouped, as often as it occurs. |
| Channel.ArrangePermutation | source/core/js/gva/component/Channel.js:501-556 | Sorting the episodes neither loses nor invents one. |
| Channel.UngroupedSorted | source/core/js/gva/component/Channel.js:548-551 | Without grouping, the list is in airdate order. |
| Channel.GroupedContiguous | source/core/js/gva/component/Channel.js:523-545 | Grouped, every show's episodes are contiguous. |
| Channel.GroupedWithinOrder | source/core/js/gva/component/Channel.js:523-545 | Grouped, the episodes of each show are in airdate order. |
| Channel.GroupedSorted | source/core/js/gva/component/Channel.js:523-545 | Grouped, every show's episodes are contiguous and in airdate order. |
| Channel.UniqStep | source/core/js/gva/component/Channel.js:526-536 | The title list grows only by a title not seen before. |
| Channel.GroupByShow | source/core/js/gva/component/Channel.js:526-536 | The grouping loop makes one list per show title and records the order in which the titles become keys. |
| Channel.AppendGroups | source/core/js/gva/component/Channel.js:542-545 | The loop body sorts each visited show's list and appends it, in the order visited. |
| Channel.MergeGroups | source/core/js/gva/component/Channel.js:539-545 | The merge appends the sorted show lists in the `for ... in` order of the grouping object: array-index titles ascending, then the others in creation order. |
| Channel.ArrangeEpisodes | source/core/js/gva/component/Channel.js:521-551 | The ordering part of sortEpisodes yields the arranged list: the show groups in `for ... in` order, or everything sorted. |
| Channel.EnumerateData | source/core/js/gva/component/Channel.js:501-505 | The copying loop yields the map's episodes in enumeration order. |
| Channel.EnumeratedLists | source/core/js/gva/component/Channel.js:501-505 | Enumerating the episode map yields each of its episodes once. |
| Channel.SortedListsData | source/core/js/gva/component/Channel.js:501-556 | The sorted list holds exactly the episodes of the map, each once. |
| Channel.ForInEnumerates | source/core/js/gva/component/Channel.js:502-504 | The episode map's keys were created in node order, so the loop over it visits each listed id once and nothing else. |
| Channel.ListsRemove | source/core/js/gva/component/Channel.js:380-391 | Removing an episode's node and its data keeps the list and the map in step. |
| Channel.ListsPermutation | source/core/js/gva/component/Channel.js:501-556 | A permutation of the listed episodes is listed by the same map. |
| Channel.InTabsMembers | source/core/js/gva/component/Channel.js:596-625 | The episodes in document order are exactly those whose show has a tab. |
| Channel.NextIndexCyclic | source/core/js/gva/component/Channel.js:612-619 | The next index is the cyclic successor of the now-playing one, or 0 when none is found. |
| Channel.RemoveKeepsTabs | source/core/js/gva/component/Channel.js:380-391 | Removing an episode keeps every remaining one in a tab. |
| Channel.Channel.constructor | source/core/js/gva/component/Channel.js:43-96 | An empty list, newest first, grouped by show. |
| Channel.Channel.AddEpisode | source/core/js/gva/component/Channel.js:173-224 | Appends the episode's node, into its show's tab (created if missing) when grouped, and records its data. |
| Channel.Channel.RemoveEpisode | source/core/js/gva/component/Channel.js:380-391 | Removes a listed episode's node and its data; the show's tab stays. |
| Channel.Channel.Reset | source/core/js/gva/component/Channel.js:393-397 | Empties nodes, tabs and data; the sort settings stay. |
| Channel.Channel.SetNowPlaying | source/core/js/gva/component/Channel.js:343-378 | Marks a listed episode as now playing and changes nothing else. |
| Channel.Channel.Repopulate | source/core/js/gva/component/Channel.js:553-556 | Adds the arranged episodes one by one to the emptied list. |
| Channel.Channel.SortEpisodes | source/core/js/gva/component/Channel.js:495-562 | Rebuilds the list from the episode map, read in `for ... in` order of the node ids and arranged by the current order and grouping; the data and the now-playing mark are kept. |
| Channel.Channel.FlipSetting | source/core/js/gva/component/Channel.js:462-485 | The airdate button flips the order and any other button flips the grouping, with the buttons' classes kept in step; the list, the data and the now-playing mark are untouched. |
| Channel.Channel.OnSortClick | source/core/js/gva/component/Channel.js:456-488 | The airdate button flips the order and any other button flips the grouping; then the list is sorted again, in `for ... in` order of the node ids. |
| Channel.Channel.OnEpisodeComplete | source/core/js/gva/component/Channel.js:596-625 | With nothing playing, the first node in document order is next; otherwise the node after the now-playing one, wrapping to the first. |
| DateUtil.FormatDate | source/core/js/gva/util/DateUtil.js:88-102 | The loop's result is the template read character by character: formatters replaced, escaped characters copied, lone backslashes dropped. |
| DateUtil.RunConcat | source/core/js/gva/util/DateUtil.js:90-101 | A template formats piece by piece: the second part is read knowing whether the first ended in a backslash. |
| DateUtil.FormatConcat | source/core/js/gva/util/DateUtil.js:90-101 | A template split after a non-backslash formats as its two halves. |
| DateUtil.FormatLiteral | source/core/js/gva/util/DateUtil.js:97-98 | A template without formatter characters and backslashes is copied as it is. |
| DateUtil.EscapePair | source/core/js/gva/util/DateUtil.js:92-93 | A backslash followed by any character, a backslash included, gives that character. |
| DateUtil.BackslashOnlyEscaped | source/core/js/gva/util/DateUtil.js:90-101 | A backslash reaches the text exactly when the template escapes one. |
| DateUtil.DateFormatCopiesLiterals | source/core/js/gva/util/DateUtil.js:88-102 | With the date's formatters, a template of plain characters is copied. |
| DateUtil.DateFormatBackslash | source/core/js/gva/util/DateUtil.js:88-102 | With the date's formatters, a backslash appears in the text exactly when the template escapes one. |
| DateUtil.FieldPlain | source/core/js/gva/util/DateUtil.js:33-78 | No date field holds a backslash. |
| DateUtil.TwoDigitFields | source/core/js/gva/util/DateUtil.js:35-65 | `d`, `m`, `H`, `i` and `s` are two digits that read back as the day, the 1-based month, the hour, the minute and the second. |
| DateUtil.SuffixRule | source/core/js/gva/util/DateUtil.js:40 | `S` is st for 1, 21 and 31, nd for 2 and 22, rd for 3 and 23, and th otherwise, 11 to 13 included. |
| DateUtil.LeapYearRule | source/core/js/gva/util/DateUtil.js:52 | `L` is true exactly for the Gregorian leap years, and the rule repeats every 400 years. |
| DateUtil.TwelveHourClock | source/core/js/gva/util/DateUtil.js:60-62 | `g` is the hour on a 1-to-12 clock, congruent to the hour modulo 12 and 12 at midnight; `h` is the same in two digits. |
| DateUtil.Meridiem | source/core/js/gva/util/DateUtil.js:57-58 | `a` and `A` say am/AM exactly before noon and pm/PM from noon on. |
| DateUtil.MillisecondsField | source/core/js/gva/util/DateUtil.js:66 | `u` is three digits that read back as the milliseconds. |
| DateUtil.TwoDigitYear | source/core/js/gva/util/DateUtil.js:55 | `y` of a four-digit year is the year modulo 100 in two digits. |
| DateUtil.NotANumberCodes | source/core/js/gva/util/DateUtil.js:42-44 | `z` and `W` give "NaN" whatever the date, since the formatters are called on their table and subtract a date from it. |
| DateUtil.UnsupportedCodes | source/core/js/gva/util/DateUtil.js:68-69 | `e` and `I` give "Not Yet Supported" whatever the date. |
| DateUtil.WeekYearNear | source/core/js/gva/util/DateUtil.js:51 | `o` is at most one year from the date's year, and equal to it except in the first three days of January or the last three of December. |
| DateUtil.WeekYearOfThursday | source/core/js/gva/util/DateUtil.js:51 | `o` of a Thursday is its own year, the same text as `Y`. |
| DateUtil.WeekYearNewYearsDay | source/core/js/gva/util/DateUtil.js:51 | `o` of the first of January is the previous year exactly when that day is a Friday, Saturday or Sunday. |
| Html5Player.TimeFormat | source/core/js/gva/component/Html5Player.js:478-490 | `timeFormat`: floor minutes and floor seconds past the minute, each padded below ten, joined by a colon. Its contract is stated by TimeFormatShape, TimeFormatRoundTrip and NegativeTime. |
| Html5Player.PartsInRange | source/core/js/gva/component/Html5Player.js:481-482 | Up to 100 minutes, the minutes are in 0..99, the seconds in 0..59, and together they make the whole seconds. |
| Html5Player.TimeFormatShape | source/core/js/gva/component/Html5Player.js:478-490 | Up to 100 minutes, the text is two digits of minutes, a colon and two digits of seconds below 60. |
| Html5Player.TimeFormatRoundTrip | source/core/js/gva/component/Html5Player.js:478-490 | Reading the text back gives the whole seconds of the time. |
| Html5Player.TimeFormatWholeSeconds | source/core/js/gva/component/Html5Player.js:478-490 | A whole number of seconds from 0 to 5999 reads back as itself. |
| Html5Player.TimeFormatZero | source/core/js/gva/component/Html5Player.js:123-124 | Time 0 formats as the `00:00` of the player's initial markup. |
| Html5Player.TimeFormatMonotone | source/core/js/gva/component/Html5Player.js:478-490 | A later time never shows an earlier clock. |
| Html5Player.NegativeTime | source/core/js/gva/component/Html5Player.js:481-487 | Below zero the padding goes in front of the sign: -1 second shows as `0-1:0-1`. |
| NotificationView.ReplaceFirstSplices | source/core/js/gva/NotificationView.js:143 | Only the first occurrence is replaced; without one the name is unchanged. |
| NotificationView.EscapeNameFrontToBack | source/core/js/gva/NotificationView.js:143 | The two `replace` calls escape the first `[` and the first `]`, front to back. |
| NotificationView.EscapedIsLiteral | source/core/js/gva/NotificationView.js:143-145 | Escaping a name whose only metacharacters are one `[` and one `]` gives a pattern that matches exactly the name. |
| NotificationView.EscapedPlainNameIsLiteral | source/core/js/gva/NotificationView.js:143-145 | For such a name the escaped pattern is literal and matches the name itself. |
| NotificationView.UnescapedBracketNotLiteral | source/core/js/gva/NotificationView.js:143-145 | A `[` left after the first has been escaped stays a metacharacter. |
| NotificationView.TwoOpenBrackets | source/core/js/gva/NotificationView.js:143-145 | A name with two `[` does not give a literal pattern: only the first is escaped. |
| NotificationView.FirstMatch | source/core/js/gva/NotificationView.js:145-147 | Finds the leftmost `?name=` or `&name=`, or reports that there is none. |
| NotificationView.ValueRun | source/core/js/gva/NotificationView.js:145 | The captured value is the longest run without `&` or `#` after the `=`. |
| NotificationView.ValueRunOf | source/core/js/gva/NotificationView.js:145 | A run of the address that stops at the end, an `&` or a `#` is the captured value. |
| NotificationView.PlusToSpace | source/core/js/gva/NotificationView.js:153 | Every `+` becomes a space and nothing else changes. |
| NotificationView.GetParameterByName | source/core/js/gva/NotificationView.js:141-154 | `getParameterByName`: the empty string without a match, otherwise the decoded value with `+` as a space. Its contract is stated by MissingParameter, PresentParameter and QueryRoundTrip. |
| NotificationView.MissingParameter | source/core/js/gva/NotificationView.js:149-151 | Without a match the result is the empty string. |
| NotificationView.PresentParameter | source/core/js/gva/NotificationView.js:145-153 | With a leftmost match, the result is the decoded value after it, with `+` read as a space. |
| NotificationView.QueryLayout | source/core/js/gva/NotificationView.js:145 | An address `prefix?name=value...` with a plain prefix puts the parameter first in its query. |
| NotificationView.QueryRoundTrip | source/core/js/gva/NotificationView.js:141-153 | A parameter written first in the query is read back, decoded, with `+` as a space. |
| ApplicationController.PathSegments | source/core/js/gva/controller/ApplicationController.js:350-353 | `getPathSegments`: the token without one leading and one trailing slash, split on `/`. Its contract is stated by PathSegmentsNonEmpty, HomePathSegments and PathSegmentsJoin. |
| ApplicationController.StripSlashesBounds | source/core/js/gva/controller/ApplicationController.js:350 | Stripping keeps a contiguous part of the token and removes at most one slash at each end, and only slashes. |
| ApplicationController.PathSegmentsNonEmpty | source/core/js/gva/controller/ApplicationController.js:350-353 | There is always at least one segment. |
| ApplicationController.HomePathSegments | source/core/js/gva/controller/ApplicationController.js:350-353 | The empty token, `/` and `//` all give the single empty segment of the home page. |
| ApplicationController.PathSegmentsJoin | source/core/js/gva/controller/ApplicationController.js:350-353 | No segment contains a slash, and joining the segments with `/` gives back the stripped token. |
| ApplicationController.RefreshStep | source/core/js/gva/controller/ApplicationController.js:359-407 | One `refresh`: the new state, the controller calls in order, and whether it throws. Its contract is stated by the Refresh lemmas below. |
| ApplicationController.RefreshSelectsController | source/core/js/gva/controller/ApplicationController.js:365-383 | A registered first segment selects its controller, which is enabled and becomes current; only a different previous controller is disabled. |
| ApplicationController.RefreshScrolls | source/core/js/gva/controller/ApplicationController.js:383 | The scroll is immediate on the first refresh and takes 450 ms after it. |
| ApplicationController.RefreshSubsections | source/core/js/gva/controller/ApplicationController.js:389-396 | A controller that can navigate is last given the segments after the first, flagged as a change on the first refresh or a new controller. |
| ApplicationController.RefreshUnknownSection | source/core/js/gva/controller/ApplicationController.js:398-404 | An unregistered first segment keeps the current controller; on the home page only the footer is refreshed. |
| ApplicationController.RefreshClearsFirstRefresh | source/core/js/gva/controller/ApplicationController.js:359-407 | A refresh throws exactly when it selects a controller and there is no footer; every other refresh clears the first-refresh flag. |
| ApplicationController.HistoryNavigateRepeat | source/core/js/gva/controller/ApplicationController.js:250-258 | The same token twice in a row: the second navigation changes nothing and calls nothing. |
| ApplicationController.HistoryNavigateNewToken | source/core/js/gva/controller/ApplicationController.js:254-257 | A new token is recorded and refreshed with. |
| ApplicationController.ApplicationController.constructor | source/core/js/gva/controller/ApplicationController.js:359-407 | No token, no current controller, first refresh pending. |
| ApplicationController.ApplicationController.Refresh | source/core/js/gva/controller/ApplicationController.js:359-407 | The new state and the calls made are those of the refresh step. |
| ApplicationController.ApplicationController.OnHistoryNavigate | source/core/js/gva/controller/ApplicationController.js:250-258 | The new state and the calls made are those of the history step. |

## Left out

- The DOM, CSS classes, animations, event listeners and scrolling are not modelled. `refresh`, `addItem` and the sort handlers are modelled by the state they leave behind.
- Network loading (`getData`, `onDataLoaded`) and `localStorage` are not modelled. The lists of watched episodes and subscribed shows are parameters.
- The current time for `setData`'s "new" flag is a parameter, and `decodeURIComponent` is a parameter `decode` that returns `None` where it throws.
- FlexibleGrid.FlexibleGrid.Refresh: under a transition, the display is the one the slides leave when they end. The position of an item the grid has not placed (a new item, or one a throwing refresh showed) is not tracked: it is `Unpositioned`.
- NaN and Infinity are not modelled. Grid arguments that are NaN are stored as 1.0 (`NumberArg`), and `Refresh` requires non-zero steps, because a zero step divides by zero.
- `UserModel.setWatchedEpisode`, which `removeEpisode` calls, is not part of this model.
- Strings are sequences of Unicode scalar values, not of UTF-16 code units. For characters outside the Basic Multilingual Plane this changes `levenshtein` distances, the cut points of `singleSentence` and the `field.length` that the search ranking divides by.
- Airdates are integers, taken as already parsed. The source parses them with `new Date(...)` (DataModel.js:252 and :409) and subtracts Dates in the comparators (Channel.js:571-590). An unparsable airdate gives NaN there: `searchEpisodesByTimestamp` then drops the episode, and the sort order becomes engine-defined.
- DataModel.DataModel.GetShowByID, GetShowBySlug, GetEpisodeByID and GetEpisodeBySlug: the indexes are maps, so inherited object keys are not modelled. In the source `getShowByID('constructor')` returns the `Object` function; the model returns `None`.
- DateUtil.FormatDate: the codes t B O P T Z c r U come from the parameter `host`, because they depend on the host clock, the time zone, the epoch time or `Date.prototype.toString`. `o` is computed from the local date fields, assuming December has 31 days and a move of up to three days changes the year only across the new year. The `c` code throws a TypeError in the source, since a Date has no `formatDate` method; an Invalid Date is not modelled.
- Html5Player.TimeFormatShape: the two-digit shape is proved only for times from 0 to 6000 seconds. Longer times give more minute digits, and negative times are shown by NegativeTime.
- NotificationView.GetParameterByName: it requires a name whose only metacharacters are at most one `[` and one `]`. The source accepts any name as part of a regular expression; other names make a general pattern, which is not modelled (TwoOpenBrackets shows that they are not literal).
- DataModel.FieldScore: a matching field that is empty scores 0, where the source divides 0 by 0 and gets NaN.
- Sorting.SortByKey: it promises a sorted permutation only. The order of equal keys under the engine's `Array.prototype.sort` is not modelled.
- Channel.Channel.SortEpisodes: a show title that names an inherited `Object.prototype` member (`constructor`, `toString`, `valueOf`, ...) is grouped like any other title. In the source `episodesByShow[title]` is then already truthy, so `.push` throws a TypeError; a `__proto__` title is not modelled either.
- Channel.Channel.AddEpisode: it requires an id that is not listed yet. Adding a listed id again creates a second node with a clashing DOM id.
- Channel.Channel.SetNowPlaying: it requires a listed id; for an unlisted one the source reads a property of `null`.
- Channel.Channel.OnEpisodeComplete: it returns the episode to play. The player call and the now-playing highlight are not modelled, and `None` stands for the empty list where the source fails on a null node.
- ApplicationController.RefreshStep: a controller's identity is its `id`. The `_controllersBySlug` lookup is a map, so inherited object keys such as `constructor` are not modelled. `_scrollContainerTo` and the section container are recorded only as a `ScrollTo` effect.
- Subscriptions.Subscriptions.Refresh: the unwatched counts (`refreshCount`, `updateUnwatchedCount`) and `toggleGrid` are not modelled beyond the count of shows.

## Findings

| source | as written | input that shows it | evidently intended | confidence | as-written member | corrected member |
|---|---|---|---|---|---|---|
| source/core/js/gva/model/DataModel.js:208 | The third field test reads `episode.text`, which `gva.vo.Episode` does not have. `undefined.match` throws a TypeError, so the whole search fails. | Any search term with one episode whose title and show title both fail to match it. | The third test reads the episode's description, and non-matching episodes are skipped. | not executed | DataModel.AsWrittenThrowsOnMiss | DataModel.SearchMembers |
