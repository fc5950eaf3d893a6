/** The shared record shapes of the extension (`src/shared/types/index.ts`)
  * and the per-action-type tables used for scoring and weighting. */
module Types {
  import opened Wrappers

  datatype Platform = Zhihu | Bilibili

  /** The string each platform is stored and compared as. */
  function PlatformName(p: Platform): string
  {
    match p
    case Zhihu => "zhihu"
    case Bilibili => "bilibili"
  }

  datatype ActionType =
    | View | Read30s | Play50 | Play90
    | Upvote | Unvote | Like | Unlike
    | Favorite | Star | Coin | Share
    | Comment | OpenComment | Danmaku | Triple
    | ManualScore | Copy

  /** One recorded interaction; `payload` stands for the free-form payload object. */
  datatype UserAction = UserAction(actionType: ActionType, timestamp: int, payload: Option<string>)

  datatype Author = Author(name: string, url: Option<string>)

  /** Optional numbers are `Option<int>`; `score` is always present. */
  datatype ContentMetadata = ContentMetadata(
    duration: Option<int>,
    userReadDuration: Option<int>,
    views: Option<int>,
    voteCount: Option<int>,
    commentCount: Option<int>,
    publishTime: Option<int>,
    score: int,
    manualScore: Option<int>,
    tags: Option<seq<string>>,
    category: Option<string>,
    lastShownAt: Option<int>,
    capsuleShowCount: Option<int>,
    capsuleHoverCount: Option<int>,
    capsuleClickCount: Option<int>)

  /** A content record. `actions` may be missing on an incoming message payload;
    * `lastUpdated` and `firstSeen` use 0 for a missing timestamp. */
  datatype ContentItem = ContentItem(
    id: string,
    platform: Platform,
    title: string,
    url: string,
    cover: Option<string>,
    author: Author,
    contentExcerpt: string,
    fullContent: Option<string>,
    metadata: ContentMetadata,
    actions: Option<seq<UserAction>>,
    lastUpdated: int,
    firstSeen: int)

  /** JavaScript truthiness of an optional number: present and non-zero. */
  predicate Truthy(v: Option<int>)
  {
    v.Some? && v.value != 0
  }

  /** `v || 0` for an optional number. */
  function OrZero(v: Option<int>): (r: int)
    ensures Truthy(v) ==> r == v.value
    ensures !Truthy(v) ==> r == 0
  {
    v.GetOr(0)
  }

  /** JavaScript truthiness of an optional string: present and non-empty. */
  predicate TruthyText(s: Option<string>)
  {
    s.Some? && s.value != ""
  }

  /** The set of distinct action types in an action log. */
  function TypeSet(actions: seq<UserAction>): set<ActionType>
  {
    set a | a in actions :: a.actionType
  }

  /** The record's action log, which the scoring and weighting code dereferences unguarded. */
  function ActionsOf(item: ContentItem): seq<UserAction>
    requires item.actions.Some?
  {
    item.actions.value
  }

  /** The points of `t` if it is one of `types`, else 0. */
  function PointsIf(points: ActionType -> int, types: set<ActionType>, t: ActionType): int
  {
    if t in types then points(t) else 0
  }

  /** Sum of `points` over a set of distinct action types: one term per action type. */
  function TableSum(points: ActionType -> int, types: set<ActionType>): int
  {
    PointsIf(points, types, View) + PointsIf(points, types, Read30s)
    + PointsIf(points, types, Play50) + PointsIf(points, types, Play90)
    + PointsIf(points, types, Upvote) + PointsIf(points, types, Unvote)
    + PointsIf(points, types, Like) + PointsIf(points, types, Unlike)
    + PointsIf(points, types, Favorite) + PointsIf(points, types, Star)
    + PointsIf(points, types, Coin) + PointsIf(points, types, Share)
    + PointsIf(points, types, Comment) + PointsIf(points, types, OpenComment)
    + PointsIf(points, types, Danmaku) + PointsIf(points, types, Triple)
    + PointsIf(points, types, ManualScore) + PointsIf(points, types, Copy)
  }

  /** Adding a new type to the set adds exactly that type's points. */
  lemma TableSumInsert(points: ActionType -> int, types: set<ActionType>, t: ActionType)
    requires t !in types
    ensures TableSum(points, types + {t}) == TableSum(points, types) + points(t)
  {
    var u := types + {t};
    forall x | x != t ensures PointsIf(points, u, x) == PointsIf(points, types, x) {
    }
    assert PointsIf(points, u, t) == points(t);
    assert PointsIf(points, types, t) == 0;
  }

  lemma TableSumEmpty(points: ActionType -> int)
    ensures TableSum(points, {}) == 0
  {
  }

  lemma TableSumNonNegative(points: ActionType -> int, types: set<ActionType>)
    requires forall t :: points(t) >= 0
    ensures TableSum(points, types) >= 0
  {
  }

  /** The prefix of length `i + 1` is the prefix of length `i` and one more action. */
  lemma TypeSetPrefix(actions: seq<UserAction>, i: nat)
    requires i < |actions|
    ensures TypeSet(actions[..i + 1]) == TypeSet(actions[..i]) + {actions[i].actionType}
  {
    assert actions[..i + 1] == actions[..i] + [actions[i]];
    TypeSetSnoc(actions[..i], actions[i]);
  }

  /** Appending an action that extends the log by one element adds its type to the type set. */
  lemma TypeSetSnoc(actions: seq<UserAction>, a: UserAction)
    ensures TypeSet(actions + [a]) == TypeSet(actions) + {a.actionType}
  {
    var both := actions + [a];
    forall t | t in TypeSet(both) ensures t in TypeSet(actions) + {a.actionType} {
      var b :| b in both && b.actionType == t;
      if b != a {
        assert b in actions;
      }
    }
    assert a in both;
  }

  lemma TypeSetAppend(xs: seq<UserAction>, ys: seq<UserAction>)
    ensures TypeSet(xs + ys) == TypeSet(xs) + TypeSet(ys)
  {
    var both := xs + ys;
    forall t | t in TypeSet(both) ensures t in TypeSet(xs) + TypeSet(ys) {
      var b :| b in both && b.actionType == t;
      if b in xs {
      } else {
        assert b in ys;
      }
    }
    forall t | t in TypeSet(xs) ensures t in TypeSet(both) {
      var b :| b in xs && b.actionType == t;
      assert b in both;
    }
    forall t | t in TypeSet(ys) ensures t in TypeSet(both) {
      var b :| b in ys && b.actionType == t;
      assert b in both;
    }
  }
}
