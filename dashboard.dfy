/** The list logic of the dashboard page (`src/dashboard/App.tsx`): the filter
  * predicate, the sort order, the selection toggles, the score-range inputs,
  * select-all and the batch-copy text. */
module Dashboard {
  import opened Wrappers
  import opened Types
  import opened Strings
  import opened Format

  /** The time window of a filter option; `Unbounded` is the `Infinity` of the last option. */
  datatype Window = Millis(ms: int) | Unbounded

  datatype TimeOption = TimeOption(value: string, window: Window)

  const HourMs: int := 60 * 60 * 1000

  /** `FILTER_OPTIONS`, in menu order. */
  const FilterOptions: seq<TimeOption> := [
    TimeOption("1h", Millis(1 * HourMs)),
    TimeOption("4h", Millis(4 * HourMs)),
    TimeOption("12h", Millis(12 * HourMs)),
    TimeOption("1d", Millis(24 * HourMs)),
    TimeOption("1w", Millis(7 * 24 * HourMs)),
    TimeOption("1m", Millis(30 * 24 * HourMs)),
    TimeOption("all", Unbounded)
  ]

  /** The filter state of the page. */
  datatype FilterState = FilterState(
    timeFilter: TimeOption,
    scoreLow: int,
    scoreHigh: int,
    interactions: seq<string>,
    platforms: seq<string>)

  /** The page opens on the 4-hour window and the full score range. */
  const InitialFilter: FilterState := FilterState(FilterOptions[1], 0, 20, [], [])

  predicate WithinWindow(age: int, window: Window)
  {
    match window
    case Millis(ms) => age <= ms
    case Unbounded => true
  }

  /** The time test: skipped for `all`, else the record's age is at most the window. */
  predicate TimeMatch(option: TimeOption, now: int, item: ContentItem)
  {
    option.value == "all" || WithinWindow(now - item.lastUpdated, option.window)
  }

  /** One interaction tag of the filter menu against a record. Unknown tags match nothing. */
  predicate MatchesTag(tag: string, item: ContentItem)
    requires item.actions.Some?
  {
    var types := TypeSet(ActionsOf(item));
    var manual := item.metadata.manualScore;
    if tag == "score_11" then manual == Some(11)
    else if tag == "score_9" then manual == Some(9)
    else if tag == "score_7" then manual == Some(7)
    else if tag == "score_5" then manual == Some(5)
    else if tag == "read_30s" then Read30s in types
    else if tag == "read_seen" then Read30s !in types && OrZero(item.metadata.userReadDuration) > 10
    else if tag == "upvote" then Upvote in types
    else if tag == "like" then Like in types
    else if tag == "favorite" then Favorite in types || Star in types
    else if tag == "share" then Share in types
    else if tag == "comment" then Comment in types
    else if tag == "open_comment" then OpenComment in types
    else if tag == "danmaku" then Danmaku in types
    else if tag == "triple" then Triple in types
    else false
  }

  /** The interaction test reads the action log only when some tag is selected. */
  predicate CanFilter(state: FilterState, item: ContentItem)
  {
    state.interactions != [] ==> item.actions.Some?
  }

  /** The `items.filter` callback, with its early returns in source order. */
  predicate Keep(state: FilterState, now: int, item: ContentItem)
    requires CanFilter(state, item)
  {
    if !TimeMatch(state.timeFilter, now, item) then false
    else if item.metadata.score < state.scoreLow || item.metadata.score > state.scoreHigh then false
    else if state.interactions != [] && !(exists i :: 0 <= i < |state.interactions| && MatchesTag(state.interactions[i], item)) then false
    else if state.platforms != [] && PlatformName(item.platform) !in state.platforms then false
    else true
  }

  /** The four tests the filter combines, each stated on its own. */
  lemma KeepMeansAllTests(state: FilterState, now: int, item: ContentItem)
    requires CanFilter(state, item)
    ensures Keep(state, now, item) <==>
      && (state.timeFilter.value != "all" && state.timeFilter.window.Millis? ==>
            now - item.lastUpdated <= state.timeFilter.window.ms)
      && state.scoreLow <= item.metadata.score <= state.scoreHigh
      && (state.interactions != [] ==> exists tag :: tag in state.interactions && MatchesTag(tag, item))
      && (state.platforms != [] ==> PlatformName(item.platform) in state.platforms)
  {
    if state.interactions != [] {
      var hit := exists i :: 0 <= i < |state.interactions| && MatchesTag(state.interactions[i], item);
      if hit {
        var i :| 0 <= i < |state.interactions| && MatchesTag(state.interactions[i], item);
        assert state.interactions[i] in state.interactions;
      }
      if exists tag :: tag in state.interactions && MatchesTag(tag, item) {
        var tag :| tag in state.interactions && MatchesTag(tag, item);
        var i :| 0 <= i < |state.interactions| && state.interactions[i] == tag;
      }
    }
  }

  /** The `favorite` tag also matches records that were starred. */
  lemma FavoriteTagMatchesStar(item: ContentItem)
    requires item.actions.Some?
    ensures MatchesTag("favorite", item) <==> Favorite in TypeSet(ActionsOf(item)) || Star in TypeSet(ActionsOf(item))
  {
  }

  /** `read_seen` is for records read more than 10 seconds that never reached the 30-second mark. */
  lemma ReadSeenExcludesLongReads(item: ContentItem)
    requires item.actions.Some?
    ensures MatchesTag("read_seen", item) <==>
      Read30s !in TypeSet(ActionsOf(item)) && OrZero(item.metadata.userReadDuration) > 10
    ensures MatchesTag("read_seen", item) ==> !MatchesTag("read_30s", item)
  {
  }

  predicate AllFilterable(state: FilterState, items: seq<ContentItem>)
  {
    forall i :: 0 <= i < |items| ==> CanFilter(state, items[i])
  }

  /** `filteredItems`. */
  function FilterItems(state: FilterState, now: int, items: seq<ContentItem>): (kept: seq<ContentItem>)
    requires AllFilterable(state, items)
    ensures |kept| <= |items|
    ensures forall x :: x in kept ==> x in items && CanFilter(state, x) && Keep(state, now, x)
    ensures forall x :: x in items && CanFilter(state, x) && Keep(state, now, x) ==> x in kept
  {
    if items == [] then []
    else
      assert CanFilter(state, items[0]);
      var rest := FilterItems(state, now, items[1..]);
      if Keep(state, now, items[0]) then [items[0]] + rest else rest
  }

  /** Filtering a concatenation filters the parts in order: the result is a subsequence. */
  lemma {:induction false} FilterConcat(state: FilterState, now: int, xs: seq<ContentItem>, ys: seq<ContentItem>)
    requires AllFilterable(state, xs) && AllFilterable(state, ys)
    ensures AllFilterable(state, xs + ys)
    ensures FilterItems(state, now, xs + ys) == FilterItems(state, now, xs) + FilterItems(state, now, ys)
    decreases |xs|
  {
    assert AllFilterable(state, xs + ys);
    if xs != [] {
      assert (xs + ys)[0] == xs[0];
      assert (xs + ys)[1..] == xs[1..] + ys;
      FilterConcat(state, now, xs[1..], ys);
    } else {
      assert xs + ys == ys;
    }
  }

  /** With a platform selection every kept record is on a selected platform. */
  lemma FilteredPlatformsSelected(state: FilterState, now: int, items: seq<ContentItem>)
    requires AllFilterable(state, items) && state.platforms != []
    ensures forall x :: x in FilterItems(state, now, items) ==> PlatformName(x.platform) in state.platforms
  {
  }

  datatype SortField = Time | ScoreField
  datatype SortOrder = Asc | Desc

  function SortKey(item: ContentItem, field: SortField): int
  {
    match field
    case Time => item.lastUpdated
    case ScoreField => item.metadata.score
  }

  /** The comparator of `sortedItems`: the key difference, negated for `desc`. */
  function Compare(a: ContentItem, b: ContentItem, field: SortField, order: SortOrder): (c: int)
    ensures c == 0 <==> SortKey(a, field) == SortKey(b, field)
    ensures order == Asc ==> (c < 0 <==> SortKey(a, field) < SortKey(b, field))
    ensures order == Desc ==> (c < 0 <==> SortKey(a, field) > SortKey(b, field))
  {
    var comparison := SortKey(a, field) - SortKey(b, field);
    if order == Desc then -comparison else comparison
  }

  predicate SortedBy(s: seq<ContentItem>, field: SortField, order: SortOrder)
  {
    forall i, j :: 0 <= i < j < |s| ==> Compare(s[i], s[j], field, order) <= 0
  }

  /** Put `x` in front of the first element it does not compare after. */
  function Insert(x: ContentItem, s: seq<ContentItem>, field: SortField, order: SortOrder): (r: seq<ContentItem>)
    ensures multiset(r) == multiset(s) + multiset{x}
    ensures |r| == |s| + 1
  {
    if s == [] then [x]
    else if Compare(x, s[0], field, order) <= 0 then [x] + s
    else
      assert s == [s[0]] + s[1..];
      [s[0]] + Insert(x, s[1..], field, order)
  }

  /** The sorted copy of `filteredItems`, as an insertion sort with the same comparator. */
  function SortItems(items: seq<ContentItem>, field: SortField, order: SortOrder): (sorted: seq<ContentItem>)
    ensures multiset(sorted) == multiset(items)
    ensures |sorted| == |items|
  {
    if items == [] then []
    else
      assert items == [items[0]] + items[1..];
      Insert(items[0], SortItems(items[1..], field, order), field, order)
  }

  lemma {:induction false} InsertSorted(x: ContentItem, s: seq<ContentItem>, field: SortField, order: SortOrder)
    requires SortedBy(s, field, order)
    ensures SortedBy(Insert(x, s, field, order), field, order)
    decreases |s|
  {
    if s == [] {
    } else if Compare(x, s[0], field, order) <= 0 {
      forall k | 0 <= k < |s| ensures Compare(x, s[k], field, order) <= 0 {
        if k > 0 {
          assert Compare(s[0], s[k], field, order) <= 0;
        }
      }
      ConsSorted(x, s, field, order);
    } else {
      InsertSorted(x, s[1..], field, order);
      var r := Insert(x, s[1..], field, order);
      forall k | 0 <= k < |r| ensures Compare(s[0], r[k], field, order) <= 0 {
        assert r[k] in multiset(r);
        if r[k] != x {
          assert r[k] in multiset(s[1..]);
          var m :| 0 <= m < |s[1..]| && s[1..][m] == r[k];
          assert s[m + 1] == r[k];
        }
      }
      ConsSorted(s[0], r, field, order);
    }
  }

  /** A sorted list stays sorted with a head that compares before all of it. */
  lemma ConsSorted(h: ContentItem, r: seq<ContentItem>, field: SortField, order: SortOrder)
    requires SortedBy(r, field, order)
    requires forall k :: 0 <= k < |r| ==> Compare(h, r[k], field, order) <= 0
    ensures SortedBy([h] + r, field, order)
  {
    var t := [h] + r;
    forall i, j | 0 <= i < j < |t| ensures Compare(t[i], t[j], field, order) <= 0 {
      assert t[j] == r[j - 1];
      if i > 0 {
        assert t[i] == r[i - 1];
      }
    }
  }

  /** The sorted output is a permutation of its input, ordered by the chosen key:
    * non-decreasing for `asc`, non-increasing for `desc`. */
  lemma {:induction false} SortItemsOrdered(items: seq<ContentItem>, field: SortField, order: SortOrder)
    ensures SortedBy(SortItems(items, field, order), field, order)
    ensures var s := SortItems(items, field, order);
      forall i, j :: 0 <= i < j < |s| ==>
        if order == Asc then SortKey(s[i], field) <= SortKey(s[j], field)
        else SortKey(s[i], field) >= SortKey(s[j], field)
    decreases |items|
  {
    if items != [] {
      SortItemsOrdered(items[1..], field, order);
      InsertSorted(items[0], SortItems(items[1..], field, order), field, order);
    }
  }

  /** The list updater shared by `toggleInteraction`, `togglePlatform` and `handleToggleSelect`:
    * remove every occurrence of a present value, append an absent one. */
  function Toggle(prev: seq<string>, value: string): (next: seq<string>)
    ensures value in prev ==> value !in next && forall v :: v in next <==> v in prev && v != value
    ensures value !in prev ==> next == prev + [value]
  {
    if value in prev then RemoveAll(prev, value) else prev + [value]
  }

  /** `prev.filter(v => v !== value)`. */
  function RemoveAll(s: seq<string>, value: string): (r: seq<string>)
    ensures forall v :: v in r <==> v in s && v != value
    ensures |r| <= |s|
  {
    if s == [] then []
    else (if s[0] == value then [] else [s[0]]) + RemoveAll(s[1..], value)
  }

  predicate Distinct(s: seq<string>)
  {
    forall i, j :: 0 <= i < j < |s| ==> s[i] != s[j]
  }

  lemma {:induction false} RemoveAbsent(s: seq<string>, value: string)
    requires value !in s
    ensures RemoveAll(s, value) == s
  {
    if s != [] {
      RemoveAbsent(s[1..], value);
      assert s == [s[0]] + s[1..];
    }
  }

  lemma {:induction false} RemoveKeepsDistinct(s: seq<string>, value: string)
    requires Distinct(s)
    ensures Distinct(RemoveAll(s, value))
  {
    if s != [] {
      assert Distinct(s[1..]);
      RemoveKeepsDistinct(s[1..], value);
      assert s[0] !in s[1..];
      assert s[0] !in RemoveAll(s[1..], value);
    }
  }

  /** Toggling an absent value twice gives the list back. */
  lemma ToggleTwiceRestoresAbsent(prev: seq<string>, value: string)
    requires value !in prev
    ensures Toggle(Toggle(prev, value), value) == prev
  {
    assert prev + [value] == prev + [value];
    RemoveAppended(prev, value);
  }

  lemma {:induction false} RemoveAppended(s: seq<string>, value: string)
    requires value !in s
    ensures RemoveAll(s + [value], value) == s
    decreases |s|
  {
    if s == [] {
      assert [value][1..] == [];
    } else {
      assert (s + [value])[1..] == s[1..] + [value];
      RemoveAppended(s[1..], value);
      assert s == [s[0]] + s[1..];
    }
  }

  /** Toggling a present value twice on a duplicate-free list gives the same values,
    * with the toggled one moved to the end. */
  lemma ToggleTwicePresentMovesLast(prev: seq<string>, value: string)
    requires Distinct(prev) && value in prev
    ensures Toggle(Toggle(prev, value), value) == RemoveAll(prev, value) + [value]
    ensures forall v :: v in Toggle(Toggle(prev, value), value) <==> v in prev
  {
  }

  /** Toggling keeps a duplicate-free list duplicate-free. */
  lemma ToggleKeepsDistinct(prev: seq<string>, value: string)
    requires Distinct(prev)
    ensures Distinct(Toggle(prev, value))
  {
    if value in prev {
      RemoveKeepsDistinct(prev, value);
    }
  }

  /** `Math.min(20, Math.max(0, parseInt(text) || 0))`, with `None` for a `NaN` parse. */
  function ClampScoreInput(parsed: Option<int>): (v: int)
    ensures 0 <= v <= 20
    ensures Truthy(parsed) && 0 <= parsed.value <= 20 ==> v == parsed.value
    ensures OrZero(parsed) <= 0 ==> v == 0
    ensures OrZero(parsed) >= 20 ==> v == 20
  {
    var raw := OrZero(parsed);
    var low := if raw < 0 then 0 else raw;
    if low > 20 then 20 else low
  }

  /** The minimum input: the clamped value, capped at the current maximum. */
  function SetScoreLow(low: int, high: int, parsed: Option<int>): (range: (int, int))
    ensures range.1 == high
    ensures range.0 <= high && range.0 <= ClampScoreInput(parsed)
    ensures range.0 == high || range.0 == ClampScoreInput(parsed)
  {
    var v := ClampScoreInput(parsed);
    (if v < high then v else high, high)
  }

  /** The maximum input: the clamped value, raised to the current minimum. */
  function SetScoreHigh(low: int, high: int, parsed: Option<int>): (range: (int, int))
    ensures range.0 == low
    ensures range.1 >= low && range.1 >= ClampScoreInput(parsed)
    ensures range.1 == low || range.1 == ClampScoreInput(parsed)
  {
    var v := ClampScoreInput(parsed);
    (low, if v > low then v else low)
  }

  /** From a range inside [0, 20], either input keeps it inside [0, 20] with low <= high,
    * and changes only its own end. */
  lemma ScoreRangeStaysValid(low: int, high: int, parsed: Option<int>)
    requires 0 <= low <= high <= 20
    ensures var r := SetScoreLow(low, high, parsed); 0 <= r.0 <= r.1 <= 20 && r.1 == high
    ensures var r := SetScoreHigh(low, high, parsed); 0 <= r.0 <= r.1 <= 20 && r.0 == low
  {
  }

  function Ids(items: seq<ContentItem>): (ids: seq<string>)
    ensures |ids| == |items|
    ensures forall i :: 0 <= i < |items| ==> ids[i] == items[i].id
  {
    seq(|items|, i requires 0 <= i < |items| => items[i].id)
  }

  /** `handleToggleSelectAll` as written: it compares the lengths of the selection and the list. */
  function ToggleSelectAll(selected: seq<string>, sorted: seq<ContentItem>): (next: seq<string>)
    ensures |selected| == |sorted| ==> next == []
    ensures |selected| != |sorted| ==> next == Ids(sorted)
  {
    if |selected| == |sorted| then [] else Ids(sorted)
  }

  /** A selection left over from another filter that happens to have the list's length
    * is cleared although no listed record is selected. */
  lemma SelectAllClearsUnrelatedSelection(item: ContentItem)
    requires item.id != "other"
    ensures ToggleSelectAll(["other"], [item]) == []
    ensures !(item.id in ["other"])
  {
  }

  /** Select-all as intended: clear the selection when every listed record is selected,
    * otherwise select every listed record. */
  function ToggleSelectAllIntended(selected: seq<string>, sorted: seq<ContentItem>): (next: seq<string>)
    ensures (forall i :: 0 <= i < |sorted| ==> sorted[i].id in selected) ==> next == []
    ensures (exists i :: 0 <= i < |sorted| && sorted[i].id !in selected) ==> next == Ids(sorted)
  {
    if forall i :: 0 <= i < |sorted| ==> sorted[i].id in selected then [] else Ids(sorted)
  }

  /** After the intended toggle, either nothing is selected or every listed record is. */
  lemma IntendedSelectAllIsAllOrNothing(selected: seq<string>, sorted: seq<ContentItem>)
    ensures var next := ToggleSelectAllIntended(selected, sorted);
      next == [] || forall i :: 0 <= i < |sorted| ==> sorted[i].id in next
  {
  }

  /** The two agree whenever the selection is a duplicate-free choice among distinct listed ids. */
  lemma SelectAllAgreesOnConsistentSelection(selected: seq<string>, sorted: seq<ContentItem>)
    requires Distinct(selected) && Distinct(Ids(sorted))
    requires forall s :: s in selected ==> s in Ids(sorted)
    ensures ToggleSelectAll(selected, sorted) == ToggleSelectAllIntended(selected, sorted)
  {
    var ids := Ids(sorted);
    DistinctCard(selected);
    DistinctCard(ids);
    var sel := set s | s in selected;
    var all := set s | s in ids;
    assert sel <= all;
    SubsetCard(sel, all);
    if |selected| == |sorted| {
      assert |sel| == |all|;
      SubsetSameSize(sel, all);
      forall i | 0 <= i < |sorted| ensures sorted[i].id in selected {
        assert ids[i] in all;
      }
    } else {
      assert |sel| < |all|;
      assert all == sel + (all - sel);
      assert |all - sel| > 0;
      var missing :| missing in all - sel;
      var i :| 0 <= i < |ids| && ids[i] == missing;
      assert sorted[i].id !in selected;
    }
  }

  lemma {:induction false} DistinctCard(s: seq<string>)
    requires Distinct(s)
    ensures |set x | x in s| == |s|
    decreases |s|
  {
    if s != [] {
      var rest := s[1..];
      assert Distinct(rest);
      DistinctCard(rest);
      assert (set x | x in s) == (set x | x in rest) + {s[0]};
      assert s[0] !in rest;
    }
  }

  lemma SubsetSameSize(a: set<string>, b: set<string>)
    requires a <= b && |a| == |b|
    ensures a == b
  {
    assert b == a + (b - a);
    assert |b - a| == 0;
  }

  lemma SubsetCard(a: set<string>, b: set<string>)
    requires a <= b
    ensures |a| <= |b|
  {
    assert b == a + (b - a);
  }

  /** `items.find(item => item.id === id)`. */
  function FindById(items: seq<ContentItem>, id: string): (found: Option<ContentItem>)
    ensures found.Some? ==> found.value in items && found.value.id == id
    ensures found.None? <==> forall x :: x in items ==> x.id != id
  {
    if items == [] then None
    else if items[0].id == id then Some(items[0])
    else FindById(items[1..], id)
  }

  /** The selected ids looked up in the record list, unknown ids dropped. */
  function SelectedItems(selected: seq<string>, items: seq<ContentItem>): (found: seq<ContentItem>)
    ensures |found| <= |selected|
    ensures forall x :: x in found ==> x in items && x.id in selected
  {
    if selected == [] then []
    else
      var rest := SelectedItems(selected[1..], items);
      match FindById(items, selected[0])
      case Some(x) => [x] + rest
      case None => rest
  }

  /** No selected id that names a record is dropped: its record is among those found. */
  lemma {:induction false} SelectedItemsIncludesFound(selected: seq<string>, items: seq<ContentItem>, s: string)
    requires s in selected && FindById(items, s).Some?
    ensures FindById(items, s).value in SelectedItems(selected, items)
  {
    if selected[0] != s {
      assert s in selected[1..];
      SelectedItemsIncludesFound(selected[1..], items, s);
    }
  }

  /** Every selected id that names a record contributes exactly one record, at the
    * position of that id in the selection. */
  lemma {:induction false} SelectedItemsComplete(selected: seq<string>, items: seq<ContentItem>)
    requires forall s :: s in selected ==> exists x :: x in items && x.id == s
    ensures |SelectedItems(selected, items)| == |selected|
    ensures forall i :: 0 <= i < |selected| ==> FindById(items, selected[i]) == Some(SelectedItems(selected, items)[i])
  {
    if selected != [] {
      assert forall s :: s in selected[1..] ==> s in selected;
      SelectedItemsComplete(selected[1..], items);
      assert selected[0] in selected;
      var found := SelectedItems(selected, items);
      var rest := SelectedItems(selected[1..], items);
      assert FindById(items, selected[0]).Some?;
      assert found == [FindById(items, selected[0]).value] + rest;
      forall i | 1 <= i < |selected|
        ensures FindById(items, selected[i]) == Some(found[i])
      {
        assert selected[i] == selected[1..][i - 1];
        assert found[i] == rest[i - 1];
      }
    }
  }

  /** The lookup keeps the selection order: selecting `a` then `b` finds the records of
    * `a` followed by those of `b`. */
  lemma {:induction false} SelectedItemsConcat(a: seq<string>, b: seq<string>, items: seq<ContentItem>)
    ensures SelectedItems(a + b, items) == SelectedItems(a, items) + SelectedItems(b, items)
    decreases |a|
  {
    if a != [] {
      assert (a + b)[1..] == a[1..] + b;
      SelectedItemsConcat(a[1..], b, items);
    } else {
      assert a + b == b;
    }
  }

  /** The numbered copy texts, numbered from 1. */
  function NumberedTexts(found: seq<ContentItem>): (texts: seq<string>)
    ensures |texts| == |found|
    ensures forall i :: 0 <= i < |found| ==> texts[i] == FormatContentForCopy(found[i], Some(i + 1))
  {
    seq(|found|, i requires 0 <= i < |found| => FormatContentForCopy(found[i], Some(i + 1)))
  }

  const CopySeparator: string := "\n\n\n"

  /** `handleBatchCopy`'s clipboard text: nothing is copied for an empty selection;
    * otherwise the selected records in selection order, numbered from 1 and separated
    * by three line breaks. */
  function BatchCopyText(selected: seq<string>, items: seq<ContentItem>): (text: Option<string>)
    ensures text.None? <==> selected == []
  {
    if selected == [] then None
    else Some(Join(NumberedTexts(SelectedItems(selected, items)), CopySeparator))
  }

  /** The copied text for a non-empty selection: the `i`-th found record, numbered `i + 1`,
    * at its offset, then the separator before the next one; nothing after the last. */
  lemma BatchCopyLayout(selected: seq<string>, items: seq<ContentItem>, text: string, i: nat)
    requires BatchCopyText(selected, items) == Some(text)
    requires i < |SelectedItems(selected, items)|
    ensures var found := SelectedItems(selected, items);
      && NumberedTexts(found)[i] == FormatContentForCopy(found[i], Some(i + 1))
      && LaidOut(text, NumberedTexts(found), CopySeparator, i)
  {
    var texts := NumberedTexts(SelectedItems(selected, items));
    assert text == Join(texts, CopySeparator);
    JoinLayout(texts, CopySeparator, i);
  }

  /** A single selected record is copied alone, as number 1. */
  lemma BatchCopySingle(item: ContentItem, items: seq<ContentItem>)
    requires items == [item]
    ensures BatchCopyText([item.id], items) == Some(FormatContentForCopy(item, Some(1)))
  {
    assert SelectedItems([item.id], items) == [item];
  }

  /** Two selected records are copied in selection order, separated by three line breaks. */
  lemma BatchCopyPair(a: ContentItem, b: ContentItem, items: seq<ContentItem>)
    requires FindById(items, a.id) == Some(a) && FindById(items, b.id) == Some(b)
    ensures BatchCopyText([a.id, b.id], items)
      == Some(FormatContentForCopy(a, Some(1)) + CopySeparator + FormatContentForCopy(b, Some(2)))
  {
    assert SelectedItems([b.id], items) == [b];
    assert SelectedItems([a.id, b.id], items) == [a, b];
    var texts := NumberedTexts([a, b]);
    assert texts == [FormatContentForCopy(a, Some(1)), FormatContentForCopy(b, Some(2))];
    JoinTwo(texts, CopySeparator);
  }
}
