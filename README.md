# Surfing Hachimi — a Dafny model of the engagement pipeline

Surfing Hachimi is a browser extension. It watches how its user reads Zhihu answers and
Bilibili videos: views, 30-second reads, votes, favourites, shares, comments, playback
milestones and manual ratings. It stores one record per piece of content and scores each
record by its interactions. A dashboard lists, filters and sorts the records, and a "time
capsule" brings old records back by a weighted random draw.

This project models the logic at the core of that pipeline:

- `types.dfy` holds the record shapes: `ContentItem`, `UserAction` and the eighteen action
  types.
- `score.dfy` is the signal score of a record and its level. The score sums a per-platform
  table over the distinct action types and adds the manual rating.
- `store.dfy` is the record store as a class over a `map` keyed by id. It covers
  read-merge-write saving, deleting by age and the newest-first scan.
- `resonance.dfy` is the resonance weight of a record and the time capsule's weighted
  draw without replacement.
- `logger.dfy` is the shared log buffer: at most 100 entries, with listeners notified
  after every change.
- `dashboard.dfy` is the dashboard's list logic: the filter, the sort, the toggles, the
  score-range inputs, select-all and the batch-copy text.
- `observer.dfy` is the Zhihu observer's click classifier, its once-per-session view
  bookkeeping and the messages it sends.
- `format.dfy`, `card.dfy` and `settings.dfy` are the small formatters used on the
  record card and in settings.
- `strings.dfy` and `wrappers.dfy` are helpers: decimal text, padding, search and joining,
  plus `Option`.

JavaScript behaviour is modelled explicitly where the code depends on it:

- truthiness of optional numbers and strings: `Truthy`, `TruthyText` and `OrZero`;
- the sign-following `%` operator: `JsRemainder`;
- `Array.prototype.slice(-n)`: `Newest`;
- a `Set`'s insertion order, modelled as a duplicate-free sequence.

The outside world comes in as parameters:

- the clock is a `now` argument;
- `Math.random` is a function `draw` from round number to a real. The function itself is
  unconstrained, while `Math.random` returns a value in [0, 1). The lemmas that need the
  range (`Resonance.RoundHits`, `Resonance.RoundsCount`, `Resonance.SelectionFillsCount`)
  assume draws in [0, 1], a slightly wider range;
- `Math.exp` is a function `exp` on reals;
- the random log-entry id and the timestamp are arguments of `Logger.AddLog`.

A missing `lastUpdated` or `firstSeen` is 0. The code reads either one with `|| 0`, so
0 and missing behave the same.

In these places the code behaves in ways a reader may not expect; the model follows the code:

- A record's score has no floor. A record with no actions and no manual rating
  scores 0 (`Score.EmptyRecordScoresZero`).
- When a stored record is merged, the incoming record replaces it wholesale apart from
  the five fields the merge resolves. Title, capsule counters, `lastShownAt` and the other
  fields are not carried over (`Store.MergeInto`).
- A weight can be negative: a manual rating below 5 can pull the energy below zero,
  namely when the action table adds less than `1 + (5 - m) * 5` for a rating `m`. A round
  can then pick nothing although candidates remain (`Resonance.NegativeWeightSkipsRound`).
  The time capsule therefore returns exactly `count` records only under the assumptions
  of `Resonance.SelectionFillsCount`.
- The observer passes a score delta to `recordAction`, which ignores it. Only the action
  type and the payload reach the store (`ZhihuObservation.ZhihuObserver.RecordAction`).
- Toggling a present value twice does not restore the list: the value comes back at the
  end (`Dashboard.ToggleTwicePresentMovesLast`).

## Model

| member | source | states |
|---|---|---|
| Types.OrZero | src/dashboard/utils/algorithm.ts:67-68 | `v \|\| 0`: a truthy value is kept, a missing or zero one reads as 0 |
| Strings.NatToString | src/shared/components/Card.tsx:110 | `toString` of a natural number: non-empty, all digits, one digit exactly below 10, no leading zero |
| Strings.ParseNatToString | src/shared/components/Card.tsx:108-110 | reading the decimal text of a number back gives the number |
| Strings.IntToString | src/shared/components/Card.tsx:107-110 | the decimal text of an integer: digits only for a non-negative one, a `-` and digits for a negative one |
| Strings.IntToStringReadsBack | src/shared/utils/format.ts:11 | the digits, with the sign, read back as the integer |
| Strings.Join | src/dashboard/App.tsx:290-292 | `join`: the empty string for no parts, the part itself for one part |
| Strings.JoinTwo | src/dashboard/App.tsx:290-292 | two parts are joined with exactly one separator between them |
| Strings.JoinLayout | src/dashboard/App.tsx:290-292 | for every part: it sits at its offset in the joined text, the separator follows it unless it is the last, and the text ends with the last part |
| Strings.PadStart | src/shared/components/Card.tsx:110 | `padStart`: the length is the larger of the width and the input length, the input is the suffix, every added character is the fill |
| Score.ZhihuPoints | src/shared/utils/score.ts:3-11 | the Zhihu point table; no type is worth less than 0 |
| Score.BilibiliPoints | src/shared/utils/score.ts:13-24 | the Bilibili point table; no type is worth less than 0 |
| Score.ItemScore | src/shared/utils/score.ts:26-50 | the reference score, with no contract of its own: `Score.CalculateScore` is proved equal to it, and `Score.ScoreDependsOnTypesOnly`, `Score.ScorePermutationInvariant` and `Score.RepeatedTypeLeavesScore` are proved about it |
| Score.CalculateScore | src/shared/utils/score.ts:26-50 | the loop over the actions gives the table sum over the distinct non-manual types plus a truthy manual rating |
| Score.RepeatedTypeLeavesScore | src/shared/utils/score.ts:32-41 | another action of a type already in the log leaves the signal score unchanged |
| Score.ManualScoreActionIgnored | src/shared/utils/score.ts:35 | a `manual_score` action anywhere in the log contributes nothing, whatever its payload |
| Score.ScoreDependsOnTypesOnly | src/shared/utils/score.ts:34-41 | two records with the same platform, manual rating and set of action types score the same, whatever the order and timestamps |
| Score.ScorePermutationInvariant | src/shared/utils/score.ts:34-41 | every permutation of an action log has the same signal score |
| Score.EmptyRecordScoresZero | src/shared/utils/score.ts:26-50 | no actions and no truthy manual rating score 0; there is no floor |
| Score.ScoreNonNegative | src/shared/utils/score.ts:26-50 | with a non-negative manual rating the score is never negative |
| Score.ZhihuUnlistedTypes | src/shared/utils/score.ts:29-38 | on Zhihu a new `upvote`, `favorite`, `unvote`, `coin` or `triple` adds 0, because the Zhihu table does not list them |
| Score.ManualRatingIsAdditive | src/shared/utils/score.ts:45-47 | a Zhihu view, a comment and a repeated view rated 9 score 4 + 9 = 13: the rating is added once, unclamped |
| Score.GetLevel | src/shared/utils/score.ts:52-57 | the level is 4 exactly from 10, 3 exactly in [7, 10), 2 exactly in [3, 7) and 1 exactly below 3 |
| Score.GetLevelMonotone | src/shared/utils/score.ts:52-57 | a higher score never gets a lower level |
| Store.MergeInto | src/shared/db/index.ts:86-113 | the merged record: summed read durations with a missing side as 0, stored actions then incoming actions, the incoming manual rating unless it is falsy and the stored one truthy, the stored `firstSeen`, `lastUpdated = now`, the score of the merged log; every other field from the incoming record |
| Store.CreateNew | src/shared/db/index.ts:114-120 | a new record keeps truthy `firstSeen`/`lastUpdated` and otherwise gets `now`, and carries the score of its own log; nothing else changes |
| Store.MergedActionsLength | src/shared/db/index.ts:94-96 | the merged log is as long as both logs together and starts with the stored log |
| Store.MergedScoreCountsTypesOnce | src/shared/db/index.ts:110-111 | the recomputed score counts each type of the union of both logs once, plus the resolved manual rating |
| Store.MergeTwice | src/shared/db/index.ts:86-108 | merging the same incoming record twice adds its read duration twice; the manual rating stays where the first merge put it; `firstSeen` stays and `lastUpdated` is the latest time |
| Store.LatestExists | src/shared/db/index.ts:71 | a non-empty set of stored keys has one with the greatest `lastUpdated`, which the `prev` cursor visits first |
| Store.MergeWithStored | src/shared/db/index.ts:86-113 | the field-by-field updates of the merge branch produce exactly `MergeInto` |
| Store.StampNew | src/shared/db/index.ts:114-120 | the updates of the new-record branch produce exactly `CreateNew` |
| Store.ItemStore.constructor | src/shared/db/index.ts:26 | an empty store keyed by `id` |
| Store.ItemStore.GetItem | src/shared/db/index.ts:36-39 | the stored record under an id, or nothing exactly when the id is not stored |
| Store.ItemStore.DeleteItem | src/shared/db/index.ts:125-128 | only the given key is removed |
| Store.ItemStore.ClearAllItems | src/shared/db/index.ts:46-51 | the store becomes empty |
| Store.ItemStore.MergeAndSaveItem | src/shared/db/index.ts:79-123 | only the key `newItem.id` changes: to the merge with the stored record, or to the new record; a new record without an action log fails, as `calculateScore` throws, and leaves the store as it was; records stay keyed by id and correctly scored |
| Store.ItemStore.DeleteItemsBefore | src/shared/db/index.ts:53-65 | exactly the records with `lastUpdated <= timestamp` are removed; the others stay unchanged |
| Store.ItemStore.GetRecentItems | src/shared/db/index.ts:67-77 | min(limit, size) stored records with distinct ids, in non-increasing `lastUpdated` order, none older than a record left out |
| Resonance.EnergyPoints | src/dashboard/utils/algorithm.ts:6-28 | the energy table; unlisted types weigh 0 and no entry is negative |
| Resonance.Energy | src/dashboard/utils/algorithm.ts:36-53 | the energy term, with no contract of its own: `Resonance.EnergyIgnoresRepeats`, `Resonance.UnweightedTypeAddsNothing`, `Resonance.EnergyAtLeastBase` and `Resonance.LowRatingGivesNegativeEnergy` state its properties, and `Resonance.CalculateResonanceWeight` is proved to use it |
| Resonance.DecayConstant | src/dashboard/utils/algorithm.ts:59-62 | `K = day / max(1, energy)` is positive and at most a day; for positive energy `K * energy` is a day |
| Resonance.Cooling | src/dashboard/utils/algorithm.ts:56-64 | a record that was never shown has cooling factor 1 |
| Resonance.ImmunityDenominator | src/dashboard/utils/algorithm.ts:67-72 | the denominator is the larger of 0.1 and `1 + show - 3 * click`, with missing counters as 0 |
| Resonance.Immunity | src/dashboard/utils/algorithm.ts:72-73 | immunity lies in (0, 10] |
| Resonance.CalculateResonanceWeight | src/dashboard/utils/algorithm.ts:34-76 | the accumulating loop produces energy × cooling × immunity, the energy being 1 + the manual term + the table over the distinct types |
| Resonance.EnergyIgnoresRepeats | src/dashboard/utils/algorithm.ts:44-53 | another action of a type already present leaves the energy unchanged |
| Resonance.UnweightedTypeAddsNothing | src/dashboard/utils/algorithm.ts:49-53 | a `view`, `unvote`, `unlike` or `manual_score` action adds no energy, even when its type is new |
| Resonance.EnergyAtLeastBase | src/dashboard/utils/algorithm.ts:36-53 | without a truthy manual rating the energy is at least 1 |
| Resonance.LowRatingGivesNegativeEnergy | src/dashboard/utils/algorithm.ts:39-41 | an empty log rated 1 has energy 1 + (1 - 5) × 5 = -19 |
| Resonance.CoolingBounds | src/dashboard/utils/algorithm.ts:56-64 | last shown in the past, and with `exp` in (0, 1] on non-positive arguments, the cooling factor lies in [0, 1) |
| Resonance.ImmunityMonotoneInClicks | src/dashboard/utils/algorithm.ts:67-73 | with shows fixed, more clicks never lower immunity |
| Resonance.ImmunityAntitoneInShows | src/dashboard/utils/algorithm.ts:67-73 | with clicks fixed, more shows never raise immunity |
| Resonance.ClicksRestoreImmunity | src/dashboard/utils/algorithm.ts:67-73 | five shows with no click give 1/6; two clicks raise that to the maximum of 10 |
| Resonance.Weigh | src/dashboard/utils/algorithm.ts:85-88 | one weighted entry per record, in order |
| Resonance.Candidates | src/dashboard/utils/algorithm.ts:96 | exactly the weighted records whose id is not taken |
| Resonance.CandidatesConcat | src/dashboard/utils/algorithm.ts:96 | `filter` keeps the order: the candidates of a concatenation are the candidates of its parts, concatenated |
| Resonance.HitFrom | src/dashboard/utils/algorithm.ts:106-113 | a hit found by the walk is at or after the start and inside the candidates |
| Resonance.Pick | src/dashboard/utils/algorithm.ts:100-113 | a pick is one of the candidates |
| Resonance.SumWeights | src/dashboard/utils/algorithm.ts:95-100 | the accumulating loop gives the total weight of the candidates |
| Resonance.FindHit | src/dashboard/utils/algorithm.ts:103-113 | the subtracting loop finds the hit the walk defines |
| Resonance.DrawRound | src/dashboard/utils/algorithm.ts:100-113 | one round picks what `Pick` picks for the round's draw |
| Resonance.SelectCapsule | src/dashboard/utils/algorithm.ts:81-117 | the reference selection, with no contract of its own: `Resonance.SelectCapsuleItems` is proved equal to it, and `Resonance.SelectionShape` and `Resonance.SelectionFillsCount` state what it returns |
| Resonance.SelectCapsuleItems | src/dashboard/utils/algorithm.ts:81-117 | the rounds as run give the selection; with no more records than `count` the input comes back unchanged |
| Resonance.DrawRounds | src/dashboard/utils/algorithm.ts:90-116 | the loop of `count` rounds, stopping when no candidate is left, gives the rounds as defined |
| Resonance.HitIsFirstReach | src/dashboard/utils/algorithm.ts:103-112 | the hit is the first candidate at which the running total weight reaches the draw point; nothing is hit when no running total does |
| Resonance.RoundsFresh | src/dashboard/utils/algorithm.ts:90-114 | the drawn ids are distinct and none was taken before |
| Resonance.RoundsFromInput | src/dashboard/utils/algorithm.ts:96-110 | every drawn record is one of the weighted records |
| Resonance.RoundsAtMostOnePerRound | src/dashboard/utils/algorithm.ts:93-114 | at most one record is drawn per remaining round |
| Resonance.SelectionShape | src/dashboard/utils/algorithm.ts:81-117 | the selection has distinct ids, comes from the input and holds at most `count` records |
| Resonance.RoundHits | src/dashboard/utils/algorithm.ts:100-112 | with non-negative weights and a draw in [0, 1], a round with candidates picks one |
| Resonance.ZeroDrawPicksFirst | src/dashboard/utils/algorithm.ts:103-112 | with a draw of 0 and non-negative weights the first remaining candidate is picked |
| Resonance.RoundsCount | src/dashboard/utils/algorithm.ts:93-114 | with non-negative weights and draws in [0, 1], the rounds draw min(rounds left, open ids) records |
| Resonance.SelectionFillsCount | src/dashboard/utils/algorithm.ts:81-117 | with more records than `count`, non-negative weights, draws in [0, 1] and at least `count` distinct ids, exactly `count` records are drawn |
| Resonance.NegativeWeightSkipsRound | src/dashboard/utils/algorithm.ts:103-113 | a single candidate of weight -1 is not hit by a draw of 0.5 |
| Logging.Newest | src/shared/utils/logger.ts:53 | `slice(-n)`: the last min(n, length) elements, in order |
| Logging.SuccessExcerpt | src/shared/utils/logger.ts:23-30 | the object's non-empty `contentExcerpt`, else its `excerpt`, else `''` when it has neither; `''` for data that is not an object |
| Logging.Broadcast | src/shared/utils/logger.ts:81-83 | one call per registered listener, in registration order, each handed the same buffer |
| Logging.Without | src/shared/utils/logger.ts:78 | the listeners other than the removed one, and no others |
| Logging.WithoutKeepsDistinct | src/shared/utils/logger.ts:78 | removal keeps the listener set duplicate-free and shrinks it by one exactly when the listener was registered |
| Logging.Logger.constructor | src/shared/utils/logger.ts:14-17 | an empty buffer and no listener |
| Logging.Logger.Notify | src/shared/utils/logger.ts:81-83 | every listener is called once with the current buffer; nothing else changes |
| Logging.Logger.AddLog | src/shared/utils/logger.ts:44-68 | the buffer is the newest 100 of the old entries plus the new one, then every listener is handed it |
| Logging.Logger.Debug | src/shared/utils/logger.ts:19-21 | adds a `debug` entry without excerpt |
| Logging.Logger.Info | src/shared/utils/logger.ts:32-34 | adds an `info` entry without excerpt |
| Logging.Logger.Warn | src/shared/utils/logger.ts:36-38 | adds a `warn` entry without excerpt |
| Logging.Logger.Error | src/shared/utils/logger.ts:40-42 | adds an `error` entry without excerpt |
| Logging.Logger.Success | src/shared/utils/logger.ts:23-30 | adds a `success` entry whose excerpt is taken from the data |
| Logging.Logger.SyncLogs | src/shared/utils/logger.ts:70-73 | the buffer is replaced as given, with no cap, and the listeners are notified |
| Logging.Logger.Subscribe | src/shared/utils/logger.ts:75-77 | the listener is registered once and called once with the current buffer |
| Logging.Logger.Unsubscribe | src/shared/utils/logger.ts:78 | only that listener is removed; the result says whether it was registered |
| Logging.Logger.Clear | src/shared/utils/logger.ts:85-88 | the buffer becomes empty and the listeners are notified |
| Logging.Logger.GetLogs | src/shared/utils/logger.ts:90 | the current buffer |
| Logging.AppendBounded | src/shared/utils/logger.ts:53 | after one addition the buffer holds min(old + 1, 100) entries and the new one is last |
| Logging.OverflowDropsOldest | src/shared/utils/logger.ts:53 | the buffer is what is left of all entries after dropping a prefix: the oldest go first and the order is kept |
| Logging.FullBufferShifts | src/shared/utils/logger.ts:53 | on a full buffer the oldest entry leaves as the new one arrives |
| Logging.UnsubscribeOnlyRemovesOne | src/shared/utils/logger.ts:75-83 | after removal, later notifications skip that listener and still reach every other one |
| Dashboard.Keep | src/dashboard/App.tsx:141-187 | the filter predicate, with no contract of its own: `Dashboard.KeepMeansAllTests` proves it is the conjunction of the four tests, and `Dashboard.FavoriteTagMatchesStar` and `Dashboard.ReadSeenExcludesLongReads` pin the tag rules |
| Dashboard.KeepMeansAllTests | src/dashboard/App.tsx:141-187 | a record is kept exactly when it passes the time window (unless `all`), the inclusive score range, some selected interaction tag (when any is selected) and the platform selection (when any) |
| Dashboard.FavoriteTagMatchesStar | src/dashboard/App.tsx:169 | the `favorite` tag matches a `favorite` or a `star` action |
| Dashboard.ReadSeenExcludesLongReads | src/dashboard/App.tsx:165-166 | `read_seen` means no 30-second read and more than 10 seconds read, so it never overlaps `read_30s` |
| Dashboard.FilterItems | src/dashboard/App.tsx:141-187 | the kept records are exactly the input records that pass the filter |
| Dashboard.FilterConcat | src/dashboard/App.tsx:141 | filtering a concatenation filters the parts in order, so the result is a subsequence of the input |
| Dashboard.FilteredPlatformsSelected | src/dashboard/App.tsx:182-184 | with a platform selection every kept record is on a selected platform |
| Dashboard.Insert | src/dashboard/App.tsx:190-198 | insertion adds exactly one occurrence of the record |
| Dashboard.Compare | src/dashboard/App.tsx:190-198 | the comparator's sign: zero exactly on equal keys, negative exactly when the first key is smaller for `asc` and larger for `desc` |
| Dashboard.SortItems | src/dashboard/App.tsx:190-198 | the sorted list is a permutation of the filtered list |
| Dashboard.InsertSorted | src/dashboard/App.tsx:190-198 | inserting into a sorted list keeps it sorted by the comparator |
| Dashboard.SortItemsOrdered | src/dashboard/App.tsx:190-198 | the sorted list is non-decreasing in the key for `asc` and non-increasing for `desc` |
| Dashboard.Toggle | src/dashboard/App.tsx:200-214 | toggling a present value leaves exactly the other values; an absent value is appended at the end |
| Dashboard.RemoveAll | src/dashboard/App.tsx:203 | `filter(v => v !== value)` keeps exactly the other values |
| Dashboard.RemoveAbsent | src/dashboard/App.tsx:203 | removing an absent value changes nothing |
| Dashboard.ToggleTwiceRestoresAbsent | src/dashboard/App.tsx:200-214 | toggling an absent value twice gives the list back |
| Dashboard.ToggleTwicePresentMovesLast | src/dashboard/App.tsx:249-257 | toggling a present value twice keeps the same values, with that one moved to the end |
| Dashboard.ToggleKeepsDistinct | src/dashboard/App.tsx:249-257 | toggling keeps a duplicate-free selection duplicate-free |
| Dashboard.ClampScoreInput | src/dashboard/App.tsx:415 | the parsed input clamped to [0, 20]: a truthy value in range is kept, `NaN`, 0 and negatives give 0, 20 and above give 20 |
| Dashboard.SetScoreLow | src/dashboard/App.tsx:414-417 | the new minimum is the clamped input capped at the current maximum, which stays |
| Dashboard.SetScoreHigh | src/dashboard/App.tsx:428-431 | the new maximum is the clamped input raised to the current minimum, which stays |
| Dashboard.ScoreRangeStaysValid | src/dashboard/App.tsx:414-430 | from a valid range either input keeps 0 <= low <= high <= 20 and changes only its own end |
| Dashboard.Ids | src/dashboard/App.tsx:314 | the ids of the listed records, in list order |
| Dashboard.ToggleSelectAll | src/dashboard/App.tsx:310-316 | as written: clear when the selection is as long as the list, otherwise select every listed id |
| Dashboard.SelectAllClearsUnrelatedSelection | src/dashboard/App.tsx:310-316 | a one-id selection that is not in a one-record list is cleared instead of being replaced by the list |
| Dashboard.ToggleSelectAllIntended | src/dashboard/App.tsx:310-316 | clear when every listed record is selected, otherwise select every listed id |
| Dashboard.IntendedSelectAllIsAllOrNothing | src/dashboard/App.tsx:310-316 | after the intended toggle nothing or every listed record is selected |
| Dashboard.SelectAllAgreesOnConsistentSelection | src/dashboard/App.tsx:310-316 | the two agree whenever the selection is a duplicate-free choice among distinct listed ids |
| Dashboard.FindById | src/dashboard/App.tsx:287 | a found record is in the list with that id; nothing is found exactly when no record has it |
| Dashboard.SelectedItems | src/dashboard/App.tsx:286-288 | at most one record per selected id, each from the list and selected |
| Dashboard.SelectedItemsIncludesFound | src/dashboard/App.tsx:286-288 | the record of every selected id that `find` locates is among the found records |
| Dashboard.SelectedItemsComplete | src/dashboard/App.tsx:286-288 | when every selected id names a record, one record per selected id, the `i`-th being the record `find` gives for the `i`-th id |
| Dashboard.SelectedItemsConcat | src/dashboard/App.tsx:286-288 | the lookup keeps the selection order: the found records of a concatenated selection are those of its parts, concatenated |
| Dashboard.NumberedTexts | src/dashboard/App.tsx:290-291 | the copy text of each found record, numbered from 1 |
| Dashboard.BatchCopyText | src/dashboard/App.tsx:283-292 | nothing is copied exactly when the selection is empty |
| Dashboard.BatchCopyLayout | src/dashboard/App.tsx:283-292 | in the copied text, the `i`-th found record's copy text, numbered `i + 1`, sits at its offset, followed by three line breaks unless it is the last, which ends the text |
| Dashboard.BatchCopySingle | src/dashboard/App.tsx:283-292 | one selected record is copied alone as number 1 |
| Dashboard.BatchCopyPair | src/dashboard/App.tsx:290-292 | two selected records are copied in selection order as numbers 1 and 2, separated by three line breaks |
| ZhihuObservation.ClassifyClick | src/content/zhihu/observer.ts:75-115 | no classified click has a negative score delta |
| ZhihuObservation.VoteButtonByState | src/content/zhihu/observer.ts:81-90 | a vote button yields `unvote` with 0 when active and `upvote` with 2 otherwise, whatever its text |
| ZhihuObservation.CommentRuleBeforePublish | src/content/zhihu/observer.ts:106-115 | text holding both 评论 and 发布 (and none of the earlier words) opens the comment section: the earlier rule wins |
| ZhihuObservation.PublishCommentButton | src/content/zhihu/observer.ts:106-115 | the button text 发布评论 is classified as `open_comment` with delta 1 |
| ZhihuObservation.UnmatchedClickIgnored | src/content/zhihu/observer.ts:117 | a button no rule recognises is not classified |
| ZhihuObservation.FeedbackExactlyForPositiveActions | src/content/zhihu/observer.ts:122-124 | of the classified clicks, exactly those other than `unvote` and `open_comment` prompt feedback |
| ZhihuObservation.WithDefaultView | src/content/zhihu/observer.ts:233-236 | a single `view` action is added exactly when the send is not silent and the log is absent; an empty log counts as present |
| ZhihuObservation.ZhihuObserver.constructor | src/content/zhihu/observer.ts:191-193 | no id processed, no timer and no message yet |
| ZhihuObservation.ZhihuObserver.SendMessage | src/content/zhihu/observer.ts:233-243 | one save message carrying the record with the default-view rule applied |
| ZhihuObservation.ZhihuObserver.RecordAction | src/content/zhihu/observer.ts:128-144 | one silent save of the record whose log is just the new action, with the score delta unused |
| ZhihuObservation.ZhihuObserver.HandleInteractionClick | src/content/zhihu/observer.ts:75-126 | an unclassified click sends nothing; a classified one records its action with the click payload and prompts feedback exactly for the positive actions |
| ZhihuObservation.ZhihuObserver.RecordView | src/content/zhihu/observer.ts:191-200 | a view of an id already processed sends nothing; a first view marks the id, sends the record and starts its read timer |
| ZhihuObservation.ZhihuObserver.HandleExempt | src/content/zhihu/observer.ts:160-177 | the id is forgotten, its timer stopped and its deletion requested |
| ZhihuObservation.ViewExemptView | src/content/zhihu/observer.ts:160-200 | two views send one message; with an exemption between them they send two |
| Format.AuthorName | src/shared/utils/format.ts:9 | the author's name, or 未知作者 when it is empty |
| Format.CopyBody | src/shared/utils/format.ts:10 | the non-empty full text, else the non-empty excerpt, else 无正文内容 |
| Format.CopyPrefix | src/shared/utils/format.ts:11 | the prefix is empty exactly when no index is given, so index 0 still gets one |
| Format.FormatContentForCopy | src/shared/utils/format.ts:8-19 | the copy text, with no contract of its own: `Format.FormatLayout` proves its line layout and `Format.PrefixIndexReadable` its numbered prefix |
| Format.FormatLayout | src/shared/utils/format.ts:13-18 | the copy text is the prefix and the title line, then the link line, the author line (with the 未知作者 fallback of `AuthorName`) and the body heading, in that order, then the body |
| Format.PrefixIndexReadable | src/shared/utils/format.ts:11 | the prefix is `[`, the decimal index that reads back as the index, then `] ` |
| Card.JsRemainder | src/shared/components/Card.tsx:109 | JavaScript's `%`: in [0, b) for a non-negative dividend, in (-b, 0] for a negative one |
| Card.FormatDuration | src/shared/components/Card.tsx:107-111 | the duration text, with no contract of its own: `Card.DurationRoundTrip` proves its shape and read-back for natural seconds, `Card.NegativeDuration` the negative case |
| Card.DurationRoundTrip | src/shared/components/Card.tsx:107-111 | for natural seconds: unpadded minutes digits, a colon and exactly two seconds digits below 60, reading back as minutes × 60 + seconds |
| Card.PaddedSeconds | src/shared/components/Card.tsx:110 | a seconds value below 60 padded to two digits reads back as itself |
| Card.NegativeDuration | src/shared/components/Card.tsx:107-111 | -5 seconds are shown as `-1:-5` |
| Card.FormatNumber | src/shared/components/Card.tsx:113-115 | the plain branch is taken exactly below 10000 |
| Card.PlainNumberRoundTrip | src/shared/components/Card.tsx:113-115 | below 10000 the text is all digits and reads back as the number |
| Card.ScoreColor | src/shared/components/Card.tsx:15-22 | the colour of a score's level, with no contract of its own: `Card.ScoreColorDefinedAndDistinct` proves every score has one and distinct levels differ |
| Card.LevelColor | src/shared/components/Card.tsx:17-22 | a colour exactly for the levels 1 to 4 |
| Card.ScoreColorDefinedAndDistinct | src/shared/components/Card.tsx:15-22 | every score has a colour, and different levels have different colours |
| Settings.GetSettings | src/shared/utils/settings.ts:8-18 | the defaults without storage or with nothing stored, the stored settings otherwise |
| Settings.FontSizeClass | src/shared/utils/settings.ts:35-41 | `small` and `large` have their own classes, and everything else, `medium` included, gets `text-base` |
| Settings.SizeMapPx | src/shared/utils/settings.ts:48-52 | a pixel size exactly for small, medium and large |
| Settings.RootFontSize | src/shared/utils/settings.ts:55-56 | a size outside the map falls back to 16px |
| Settings.SizesIncrease | src/shared/utils/settings.ts:48-56 | 14px < 16px < 18px for small < medium < large, and medium equals the fallback |
| Settings.DefaultsRenderMedium | src/shared/utils/settings.ts:3-15 | the defaults give `text-base` and a 16px root font |

## Left out

- I/O and plumbing: IndexedDB transactions, cursors and schema upgrades; `chrome.runtime` messaging; `chrome.storage`; console output; `CustomEvent` broadcasts; DOM style writes. The store is one map that changes atomically, messages are trace fields, and storage is a parameter.
- Timers and DOM wiring: the observers' intersection and mutation observers and the 30-second read timer's callback are not modelled. The model keeps only the set of ids with a running timer.
- `handleManualScore` in the Zhihu observer is not modelled: it builds a partial record that does not fit the `ContentItem` type.
- `getAllItems` is not modelled: it is a plain read of every record. `deleteMultipleItems`, which the dashboard imports, is not part of this model.
- Clock readings: one `now` argument stands for each call's `Date.now()`, even where the source reads the clock more than once.
- Random values: `Math.random` draws and log-entry ids are arguments.
- Resonance.Cooling: `Math.exp` is an abstract function of the reals, not the floating-point exponential. Only its range is assumed, and only in `Resonance.CoolingBounds`.
- Weights are exact reals, not floating-point numbers. The walk subtracts weights exactly, so rounding in the source's repeated subtraction, and totals that do not quite reach the draw point, are not modelled.
- Card.FormatNumber: the `toFixed(1) + '万'` branch from 10000 on is `None`, because its floating-point rounding is not modelled.
- Card.FormatDuration: only whole seconds are modelled; a fractional duration gives `toString` of a fraction in the source.
- Dashboard.SortItems: it is an insertion sort with the source's comparator. The order of records with equal keys is not claimed to match the browser's sort.
- Dashboard.Keep: it requires an action log on every record when an interaction tag is selected, because the source dereferences `item.actions` there without a guard.
- Score.CalculateScore and Resonance.CalculateResonanceWeight: both require an action log, because the source calls `forEach`/`map` on it without a guard. The store's new-record branch models the resulting throw as `MissingActions`.
- The Zhihu observer's own calls into the logger are not modelled; the logger is modelled on its own.
- The Bilibili collector and observer, the DOM collectors and the UI components are outside this model.

## Findings

| source | as written | input that shows it | evidently intended | confidence | as-written member | corrected member |
|---|---|---|---|---|---|---|
| src/dashboard/App.tsx:310-316 | select-all compares the number of selected ids with the number of listed records | in select mode, select record A, then use the delete panel (still reachable in select mode, src/dashboard/App.tsx:739-746 and 802-806) to clear a range that removes A; `handleClearRange` (src/dashboard/App.tsx:233-247) reloads the list without touching the selection, so the selection is `[A]` while the list holds one other record B: the lengths match, so select-all clears the selection instead of selecting B | clear only when every listed record is selected, otherwise select all listed records | not executed | Dashboard.SelectAllClearsUnrelatedSelection | Dashboard.IntendedSelectAllIsAllOrNothing |
