/** The decision logic of the Zhihu page observer (`src/content/zhihu/observer.ts`):
  * the click classifier, the once-per-session view bookkeeping and the
  * messages it sends to the background page. */
module ZhihuObservation {
  import opened Wrappers
  import opened Types
  import opened Strings

  /** What the classifier reads from the clicked button: whether its class list holds
    * `VoteButton` and `is-active`, and its visible text (`''` when it has none). */
  datatype Button = Button(hasVoteClass: bool, isActive: bool, text: string)

  /** The action a click records and the score delta the classifier assigns it. */
  datatype Classification = Classification(actionType: ActionType, scoreDelta: int)

  const VoteText: string := "赞同"
  const FavoriteText: string := "收藏"
  const LikeText: string := "喜欢"
  const ShareText: string := "分享"
  const CommentText: string := "评论"
  const PublishText: string := "发布"

  predicate IsVoteButton(b: Button)
  {
    b.hasVoteClass || Contains(b.text, VoteText)
  }

  /** The if/else chain of `handleInteractionClick`: the first rule that matches decides. */
  function ClassifyClick(b: Button): (c: Option<Classification>)
    ensures c.Some? ==> c.value.scoreDelta >= 0
  {
    if IsVoteButton(b) then
      if b.isActive then Some(Classification(Unvote, 0)) else Some(Classification(Upvote, 2))
    else if Contains(b.text, FavoriteText) then Some(Classification(Favorite, 2))
    else if Contains(b.text, LikeText) then Some(Classification(Like, 2))
    else if Contains(b.text, ShareText) then Some(Classification(Share, 3))
    else if Contains(b.text, CommentText) then Some(Classification(OpenComment, 1))
    else if Contains(b.text, PublishText) then Some(Classification(Comment, 3))
    else None
  }

  /** The feedback prompt is shown for the positive, high-value actions only. */
  predicate TriggersFeedback(c: Classification)
  {
    c.actionType in {Upvote, Favorite, Like, Share, Comment} && c.scoreDelta > 0
  }

  /** A vote button is classified by its active state alone, whatever its text says. */
  lemma VoteButtonByState(b: Button)
    requires IsVoteButton(b)
    ensures b.isActive ==> ClassifyClick(b) == Some(Classification(Unvote, 0))
    ensures !b.isActive ==> ClassifyClick(b) == Some(Classification(Upvote, 2))
  {
  }

  /** Text naming both the comment section and publishing opens the comment section:
    * the comment rule comes first. */
  lemma CommentRuleBeforePublish(b: Button)
    requires !IsVoteButton(b)
    requires !Contains(b.text, FavoriteText) && !Contains(b.text, LikeText) && !Contains(b.text, ShareText)
    requires Contains(b.text, CommentText) && Contains(b.text, PublishText)
    ensures ClassifyClick(b) == Some(Classification(OpenComment, 1))
  {
  }

  /** The concrete button text `发布评论` is an example of that case. */
  lemma PublishCommentButton()
    ensures ClassifyClick(Button(false, false, "发布评论")) == Some(Classification(OpenComment, 1))
  {
    var text := "发布评论";
    assert OccursAt(text, CommentText, 2);
    FirstCharAbsent(text, VoteText);
    FirstCharAbsent(text, FavoriteText);
    FirstCharAbsent(text, LikeText);
    FirstCharAbsent(text, ShareText);
  }

  /** A pattern whose first character does not occur in the text is not contained in it. */
  lemma FirstCharAbsent(text: string, pattern: string)
    requires |pattern| > 0 && forall i :: 0 <= i < |text| ==> text[i] != pattern[0]
    ensures !Contains(text, pattern)
  {
    forall i: nat | i <= |text| ensures !OccursAt(text, pattern, i) {
      if i + |pattern| <= |text| {
        assert text[i..i + |pattern|][0] == text[i];
      }
    }
  }

  /** A button that no rule recognises is ignored. */
  lemma UnmatchedClickIgnored(b: Button)
    requires !IsVoteButton(b)
    requires forall w :: w in [FavoriteText, LikeText, ShareText, CommentText, PublishText] ==> !Contains(b.text, w)
    ensures ClassifyClick(b) == None
  {
    assert FavoriteText in [FavoriteText, LikeText, ShareText, CommentText, PublishText];
    assert LikeText in [FavoriteText, LikeText, ShareText, CommentText, PublishText];
    assert ShareText in [FavoriteText, LikeText, ShareText, CommentText, PublishText];
    assert CommentText in [FavoriteText, LikeText, ShareText, CommentText, PublishText];
    assert PublishText in [FavoriteText, LikeText, ShareText, CommentText, PublishText];
  }

  /** Of the classified clicks, exactly those other than `unvote` and `open_comment` prompt feedback. */
  lemma FeedbackExactlyForPositiveActions(b: Button)
    requires ClassifyClick(b).Some?
    ensures TriggersFeedback(ClassifyClick(b).value) <==>
      ClassifyClick(b).value.actionType !in {Unvote, OpenComment}
  {
  }

  /** The store request the background page receives for one observed record. */
  datatype SaveRequest = SaveRequest(payload: ContentItem)

  /** `sendMessage`'s default: a non-silent send of a record without an action log
    * gets a single `view` action; an empty log counts as present. */
  function WithDefaultView(item: ContentItem, silent: bool, now: int): (sent: ContentItem)
    ensures !silent && item.actions.None? ==> sent == item.(actions := Some([UserAction(View, now, None)]))
    ensures silent || item.actions.Some? ==> sent == item
  {
    if !silent && item.actions.None? then item.(actions := Some([UserAction(View, now, None)])) else item
  }

  /** The click payload `{ source: 'click' }`. */
  const ClickPayload: Option<string> := Some("click")

  class ZhihuObserver {
    /** The ids whose view was recorded in this session. */
    var processedIds: set<string>
    /** The ids with a running 30-second read timer. */
    var readTimers: set<string>
    /** Every `SAVE_ITEM` message sent, oldest first. */
    var saves: seq<SaveRequest>
    /** Every `DELETE_ITEM` message sent, oldest first. */
    var deletions: seq<string>
    /** Every feedback prompt raised, by record id. */
    var feedback: seq<string>

    constructor()
      ensures processedIds == {} && readTimers == {}
      ensures saves == [] && deletions == [] && feedback == []
    {
      processedIds := {};
      readTimers := {};
      saves := [];
      deletions := [];
      feedback := [];
    }

    /** `sendMessage(item, silent)`. */
    method SendMessage(item: ContentItem, silent: bool, now: int)
      modifies this
      ensures saves == old(saves) + [SaveRequest(WithDefaultView(item, silent, now))]
      ensures processedIds == old(processedIds) && readTimers == old(readTimers)
      ensures deletions == old(deletions) && feedback == old(feedback)
    {
      var sent := item;
      if !silent && item.actions.None? {
        sent := sent.(actions := Some([UserAction(View, now, None)]));
      }
      saves := saves + [SaveRequest(sent)];
    }

    /** `recordAction`: send the record with the one new action as its whole log, silently. */
    method RecordAction(item: ContentItem, t: ActionType, payload: Option<string>, now: int)
      modifies this
      ensures saves == old(saves) + [SaveRequest(item.(actions := Some([UserAction(t, now, payload)])))]
      ensures processedIds == old(processedIds) && readTimers == old(readTimers)
      ensures deletions == old(deletions) && feedback == old(feedback)
    {
      SendMessage(item.(actions := Some([UserAction(t, now, payload)])), true, now);
    }

    /** `handleInteractionClick`: classify, record, and prompt for feedback on positive actions. */
    method HandleInteractionClick(b: Button, item: ContentItem, now: int)
      modifies this
      ensures ClassifyClick(b).None? ==> saves == old(saves) && feedback == old(feedback)
      ensures ClassifyClick(b).Some? ==>
        saves == old(saves) + [SaveRequest(item.(actions := Some([UserAction(ClassifyClick(b).value.actionType, now, ClickPayload)])))]
      ensures ClassifyClick(b).Some? ==>
        feedback == old(feedback) + (if TriggersFeedback(ClassifyClick(b).value) then [item.id] else [])
      ensures processedIds == old(processedIds) && readTimers == old(readTimers) && deletions == old(deletions)
    {
      var c := ClassifyClick(b);
      if c.Some? {
        RecordAction(item, c.value.actionType, ClickPayload, now);
        if c.value.actionType in {Upvote, Favorite, Like, Share, Comment} && c.value.scoreDelta > 0 {
          feedback := feedback + [item.id];
        }
      }
    }

    /** `recordView`: only the first view of an id in this session is sent; it also starts
      * the read timer unless one is running. */
    method RecordView(item: ContentItem, now: int)
      modifies this
      ensures item.id in old(processedIds) ==>
        saves == old(saves) && processedIds == old(processedIds) && readTimers == old(readTimers)
      ensures item.id !in old(processedIds) ==>
        && saves == old(saves) + [SaveRequest(WithDefaultView(item, false, now))]
        && processedIds == old(processedIds) + {item.id}
        && readTimers == old(readTimers) + {item.id}
      ensures deletions == old(deletions) && feedback == old(feedback)
    {
      if item.id in processedIds {
        return;
      }
      processedIds := processedIds + {item.id};
      SendMessage(item, false, now);
      if item.id !in readTimers {
        readTimers := readTimers + {item.id};
      }
    }

    /** `handleExempt`: forget the id for this session, stop its read timer and ask for
      * the record to be deleted. */
    method HandleExempt(id: string)
      modifies this
      ensures processedIds == old(processedIds) - {id}
      ensures readTimers == old(readTimers) - {id}
      ensures deletions == old(deletions) + [id]
      ensures saves == old(saves) && feedback == old(feedback)
    {
      processedIds := processedIds - {id};
      readTimers := readTimers - {id};
      deletions := deletions + [id];
    }
  }

  /** Two views of one record send one message; an exemption in between lets the second through. */
  method ViewExemptView(item: ContentItem, now: int) returns (withoutExempt: nat, withExempt: nat)
    ensures withoutExempt == 1 && withExempt == 2
  {
    var o := new ZhihuObserver();
    o.RecordView(item, now);
    o.RecordView(item, now);
    withoutExempt := |o.saves|;
    var p := new ZhihuObserver();
    p.RecordView(item, now);
    p.HandleExempt(item.id);
    p.RecordView(item, now);
    withExempt := |p.saves|;
  }
}
