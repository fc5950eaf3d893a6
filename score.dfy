/** Signal scoring (`src/shared/utils/score.ts`): a per-platform point table
  * summed over the distinct action types of a record, plus its manual rating. */
module Score {
  import opened Wrappers
  import opened Types

  /** `ZHIHU_SCORES`; unlisted types are worth 0. */
  function ZhihuPoints(t: ActionType): (points: int)
    ensures points >= 0
  {
    match t
    case View => 1
    case Read30s => 1
    case Like => 2
    case Star => 2
    case Comment => 3
    case OpenComment => 1
    case Share => 3
    case _ => 0
  }

  /** `BILIBILI_SCORES`; unlisted types are worth 0. */
  function BilibiliPoints(t: ActionType): (points: int)
    ensures points >= 0
  {
    match t
    case View => 1
    case Play50 => 1
    case Play90 => 2
    case Like => 2
    case Coin => 3
    case Star => 2
    case Triple => 6
    case Danmaku => 2
    case Comment => 3
    case Share => 3
    case _ => 0
  }

  /** Zhihu records use the Zhihu table, every other platform the Bilibili one. */
  function PlatformPoints(p: Platform): ActionType -> int
  {
    if p == Zhihu then ZhihuPoints else BilibiliPoints
  }

  /** Reference definition: the table summed over the distinct non-manual action types. */
  function SignalScore(platform: Platform, actions: seq<UserAction>): int
  {
    TableSum(PlatformPoints(platform), TypeSet(actions) - {ManualScore})
  }

  /** The manual rating is added as it is when truthy. */
  function ManualBonus(manualScore: Option<int>): int
  {
    if Truthy(manualScore) then manualScore.value else 0
  }

  /** The score `calculateScore` gives a record. */
  function ItemScore(item: ContentItem): int
    requires item.actions.Some?
  {
    SignalScore(item.platform, ActionsOf(item)) + ManualBonus(item.metadata.manualScore)
  }

  /** `calculateScore`: one pass over the actions, remembering the types already counted. */
  method CalculateScore(item: ContentItem) returns (score: int)
    requires item.actions.Some?
    ensures score == ItemScore(item)
  {
    score := 0;
    var points := PlatformPoints(item.platform);
    var seen: set<ActionType> := {};
    var actions := ActionsOf(item);
    TableSumEmpty(points);
    for i := 0 to |actions|
      invariant seen == TypeSet(actions[..i]) - {ManualScore}
      invariant score == TableSum(points, seen)
    {
      var t := actions[i].actionType;
      TypeSetPrefix(actions, i);
      if t == ManualScore {
        continue;
      }
      if t !in seen {
        TableSumInsert(points, seen, t);
        score := score + points(t);
        seen := seen + {t};
      }
    }
    assert actions[..|actions|] == actions;
    assert score == SignalScore(item.platform, actions);
    if Truthy(item.metadata.manualScore) {
      score := score + item.metadata.manualScore.value;
    }
  }

  /** Recording another action of a type already present leaves the signal score unchanged. */
  lemma RepeatedTypeLeavesScore(platform: Platform, actions: seq<UserAction>, a: UserAction)
    requires a.actionType in TypeSet(actions)
    ensures SignalScore(platform, actions + [a]) == SignalScore(platform, actions)
  {
    TypeSetSnoc(actions, a);
    assert TypeSet(actions + [a]) == TypeSet(actions);
  }

  /** A `manual_score` action contributes nothing, whatever its payload and timestamp. */
  lemma ManualScoreActionIgnored(platform: Platform, before: seq<UserAction>, a: UserAction, after: seq<UserAction>)
    requires a.actionType == ManualScore
    ensures SignalScore(platform, before + [a] + after) == SignalScore(platform, before + after)
  {
    TypeSetSnoc(before, a);
    TypeSetAppend(before + [a], after);
    TypeSetAppend(before, after);
    assert TypeSet(before + [a] + after) - {ManualScore} == TypeSet(before + after) - {ManualScore};
  }

  /** Reordering the log (or changing timestamps and payloads while keeping the types) keeps the score. */
  lemma ScoreDependsOnTypesOnly(x: ContentItem, y: ContentItem)
    requires x.actions.Some? && y.actions.Some?
    requires x.platform == y.platform && x.metadata.manualScore == y.metadata.manualScore
    requires TypeSet(ActionsOf(x)) == TypeSet(ActionsOf(y))
    ensures ItemScore(x) == ItemScore(y)
  {
  }

  /** In particular, any permutation of the action log scores the same. */
  lemma ScorePermutationInvariant(platform: Platform, xs: seq<UserAction>, ys: seq<UserAction>)
    requires multiset(xs) == multiset(ys)
    ensures SignalScore(platform, xs) == SignalScore(platform, ys)
  {
    forall t | t in TypeSet(xs) ensures t in TypeSet(ys) {
      var a :| a in xs && a.actionType == t;
      assert a in multiset(xs);
    }
    forall t | t in TypeSet(ys) ensures t in TypeSet(xs) {
      var a :| a in ys && a.actionType == t;
      assert a in multiset(ys);
    }
    assert TypeSet(xs) == TypeSet(ys);
  }

  /** There is no floor: no actions and no manual rating score 0. */
  lemma EmptyRecordScoresZero(item: ContentItem)
    requires item.actions == Some([]) && !Truthy(item.metadata.manualScore)
    ensures ItemScore(item) == 0
  {
    var points := PlatformPoints(item.platform);
    assert TypeSet(ActionsOf(item)) - {ManualScore} == {};
    TableSumEmpty(points);
    assert SignalScore(item.platform, ActionsOf(item)) == TableSum(points, {});
  }

  /** With no negative manual rating the score is never negative. */
  lemma ScoreNonNegative(item: ContentItem)
    requires item.actions.Some?
    requires OrZero(item.metadata.manualScore) >= 0
    ensures ItemScore(item) >= 0
  {
    TableSumNonNegative(PlatformPoints(item.platform), TypeSet(ActionsOf(item)) - {ManualScore});
  }

  /** Zhihu does not list `upvote`, `favorite` or `unvote`: they score 0 there, unlike Bilibili's `coin`. */
  lemma ZhihuUnlistedTypes(actions: seq<UserAction>, a: UserAction)
    requires a.actionType in {Upvote, Favorite, Unvote, Coin, Triple}
    requires a.actionType !in TypeSet(actions)
    ensures SignalScore(Zhihu, actions + [a]) == SignalScore(Zhihu, actions)
  {
    TypeSetSnoc(actions, a);
    TableSumInsert(ZhihuPoints, TypeSet(actions) - {ManualScore}, a.actionType);
    assert TypeSet(actions + [a]) - {ManualScore} == (TypeSet(actions) - {ManualScore}) + {a.actionType};
  }

  /** A Zhihu record with a view and a comment (signal 4) rated 9 scores 13. */
  lemma ManualRatingIsAdditive(item: ContentItem, view: UserAction, comment: UserAction)
    requires item.platform == Zhihu && view.actionType == View && comment.actionType == Comment
    requires item.actions == Some([view, comment, view]) && item.metadata.manualScore == Some(9)
    ensures ItemScore(item) == 13
  {
    assert TypeSet([view, comment, view]) - {ManualScore} == {} + {View} + {Comment};
    TableSumEmpty(ZhihuPoints);
    TableSumInsert(ZhihuPoints, {}, View);
    TableSumInsert(ZhihuPoints, {} + {View}, Comment);
  }

  /** `getLevel`: four buckets with thresholds 3, 7 and 10. */
  function GetLevel(score: int): (level: int)
    ensures 1 <= level <= 4
    ensures level == 4 <==> score >= 10
    ensures level == 3 <==> 7 <= score < 10
    ensures level == 2 <==> 3 <= score < 7
    ensures level == 1 <==> score < 3
  {
    if score >= 10 then 4
    else if score >= 7 then 3
    else if score >= 3 then 2
    else 1
  }

  /** A higher score never gets a lower level. */
  lemma GetLevelMonotone(a: int, b: int)
    requires a <= b
    ensures GetLevel(a) <= GetLevel(b)
  {
  }
}
