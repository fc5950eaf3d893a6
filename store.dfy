/** The record store (`src/shared/db/index.ts`): the IndexedDB object store
  * `items`, keyed by `id`, modelled as a map owned by one object. */
module Store {
  import opened Wrappers
  import opened Types
  import opened Score

  /** `calculateScore` throws on a new record that carries no action log. */
  datatype SaveError = MissingActions

  /** The record `mergeAndSaveItem` writes when `existing` is already stored:
    * the incoming record with five fields resolved against the stored one
    * and the score recomputed. */
  function MergeInto(existing: ContentItem, incoming: ContentItem, now: int): (merged: ContentItem)
    ensures merged.metadata.userReadDuration
         == Some(OrZero(existing.metadata.userReadDuration) + OrZero(incoming.metadata.userReadDuration))
    ensures merged.actions == Some(existing.actions.GetOr([]) + incoming.actions.GetOr([]))
    ensures Truthy(incoming.metadata.manualScore) ==> merged.metadata.manualScore == incoming.metadata.manualScore
    ensures !Truthy(incoming.metadata.manualScore) && Truthy(existing.metadata.manualScore)
            ==> merged.metadata.manualScore == existing.metadata.manualScore
    ensures !Truthy(incoming.metadata.manualScore) && !Truthy(existing.metadata.manualScore)
            ==> merged.metadata.manualScore == incoming.metadata.manualScore
    ensures merged.firstSeen == existing.firstSeen && merged.lastUpdated == now
    ensures merged.metadata.score == ItemScore(merged)
    ensures merged.metadata == incoming.metadata.(userReadDuration := merged.metadata.userReadDuration,
                                                  manualScore := merged.metadata.manualScore,
                                                  score := merged.metadata.score)
    ensures merged == incoming.(metadata := merged.metadata, actions := merged.actions,
                                firstSeen := existing.firstSeen, lastUpdated := now)
  {
    var duration := OrZero(existing.metadata.userReadDuration) + OrZero(incoming.metadata.userReadDuration);
    var actions := existing.actions.GetOr([]) + incoming.actions.GetOr([]);
    var manual := if !Truthy(incoming.metadata.manualScore) && Truthy(existing.metadata.manualScore)
                  then existing.metadata.manualScore else incoming.metadata.manualScore;
    var resolved := incoming.(metadata := incoming.metadata.(userReadDuration := Some(duration), manualScore := manual),
                              actions := Some(actions), firstSeen := existing.firstSeen, lastUpdated := now);
    resolved.(metadata := resolved.metadata.(score := ItemScore(resolved)))
  }

  /** The record `mergeAndSaveItem` writes for an id not yet stored. */
  function CreateNew(incoming: ContentItem, now: int): (created: ContentItem)
    requires incoming.actions.Some?
    ensures created.actions == incoming.actions
    ensures created.firstSeen == if incoming.firstSeen != 0 then incoming.firstSeen else now
    ensures created.lastUpdated == if incoming.lastUpdated != 0 then incoming.lastUpdated else now
    ensures created.metadata.score == ItemScore(created)
    ensures created == incoming.(metadata := incoming.metadata.(score := created.metadata.score),
                                 firstSeen := created.firstSeen, lastUpdated := created.lastUpdated)
  {
    var stamped := incoming.(firstSeen := if incoming.firstSeen != 0 then incoming.firstSeen else now,
                             lastUpdated := if incoming.lastUpdated != 0 then incoming.lastUpdated else now);
    stamped.(metadata := stamped.metadata.(score := ItemScore(stamped)))
  }

  /** The merged action log is the stored log followed by the incoming one, so its length
    * is the sum of both. */
  lemma MergedActionsLength(existing: ContentItem, incoming: ContentItem, now: int)
    ensures var merged := MergeInto(existing, incoming, now);
      |ActionsOf(merged)| == |existing.actions.GetOr([])| + |incoming.actions.GetOr([])|
      && ActionsOf(merged)[..|existing.actions.GetOr([])|] == existing.actions.GetOr([])
  {
    var merged := MergeInto(existing, incoming, now);
    assert ActionsOf(merged) == existing.actions.GetOr([]) + incoming.actions.GetOr([]);
  }

  /** The recomputed score counts every action type of the two logs once, whichever log it came from. */
  lemma MergedScoreCountsTypesOnce(existing: ContentItem, incoming: ContentItem, now: int)
    ensures var merged := MergeInto(existing, incoming, now);
      var types := TypeSet(existing.actions.GetOr([])) + TypeSet(incoming.actions.GetOr([]));
      merged.metadata.score
        == TableSum(PlatformPoints(incoming.platform), types - {ManualScore}) + ManualBonus(merged.metadata.manualScore)
  {
    TypeSetAppend(existing.actions.GetOr([]), incoming.actions.GetOr([]));
  }

  /** Merging the same stored record into an incoming one twice in a row accumulates the read
    * duration twice but leaves the manual rating where one merge put it. */
  lemma MergeTwice(existing: ContentItem, incoming: ContentItem, now: int, later: int)
    ensures var once := MergeInto(existing, incoming, now);
      var twice := MergeInto(once, incoming, later);
      && twice.metadata.userReadDuration
           == Some(OrZero(existing.metadata.userReadDuration) + 2 * OrZero(incoming.metadata.userReadDuration))
      && twice.metadata.manualScore == once.metadata.manualScore
      && twice.firstSeen == existing.firstSeen && twice.lastUpdated == later
  {
  }

  /** A record as the store holds it: it has an action log and its score is the score of that log. */
  predicate WellScored(item: ContentItem)
  {
    item.actions.Some? && item.metadata.score == ItemScore(item)
  }

  /** Some key of a non-empty set of stored keys has the latest `lastUpdated`. */
  lemma {:induction false} LatestExists(m: map<string, ContentItem>, keys: set<string>)
    requires keys != {} && keys <= m.Keys
    ensures exists k :: k in keys && forall j :: j in keys ==> m[j].lastUpdated <= m[k].lastUpdated
  {
    var x :| x in keys;
    if keys != {x} {
      LatestExists(m, keys - {x});
      var y :| y in keys - {x} && forall j :: j in keys - {x} ==> m[j].lastUpdated <= m[y].lastUpdated;
      if m[x].lastUpdated > m[y].lastUpdated {
        assert forall j :: j in keys ==> m[j].lastUpdated <= m[x].lastUpdated;
      } else {
        assert forall j :: j in keys ==> m[j].lastUpdated <= m[y].lastUpdated;
      }
    }
  }

  /** The existing-record branch of `mergeAndSaveItem`, updating the incoming record step by step. */
  method MergeWithStored(existing: ContentItem, newItem: ContentItem, now: int) returns (item: ContentItem)
    ensures item == MergeInto(existing, newItem, now)
  {
    item := newItem;
    // 1. accumulate the read duration
    var existingDuration := OrZero(existing.metadata.userReadDuration);
    var newDuration := OrZero(item.metadata.userReadDuration);
    item := item.(metadata := item.metadata.(userReadDuration := Some(existingDuration + newDuration)));
    // 2. append the incoming actions to the stored ones
    var existingActions := existing.actions.GetOr([]);
    var newActions := item.actions.GetOr([]);
    item := item.(actions := Some(existingActions + newActions));
    // 3. keep the stored manual rating when the incoming one is falsy
    if !Truthy(item.metadata.manualScore) && Truthy(existing.metadata.manualScore) {
      item := item.(metadata := item.metadata.(manualScore := existing.metadata.manualScore));
    }
    // 4. keep firstSeen, 5. stamp lastUpdated
    item := item.(firstSeen := existing.firstSeen);
    item := item.(lastUpdated := now);
    // 6. recompute the score
    var score := CalculateScore(item);
    item := item.(metadata := item.metadata.(score := score));
  }

  /** The new-record branch of `mergeAndSaveItem`: fill in missing timestamps and score the record. */
  method StampNew(newItem: ContentItem, now: int) returns (item: ContentItem)
    requires newItem.actions.Some?
    ensures item == CreateNew(newItem, now)
  {
    item := newItem;
    if item.firstSeen == 0 {
      item := item.(firstSeen := now);
    }
    if item.lastUpdated == 0 {
      item := item.(lastUpdated := now);
    }
    var score := CalculateScore(item);
    item := item.(metadata := item.metadata.(score := score));
  }

  /** Every record of `m` sits under its own id. */
  ghost predicate KeyedBy(m: map<string, ContentItem>)
  {
    forall k | k in m :: m[k].id == k
  }

  /** `visited` and `remaining` split the stored keys: every key is in exactly one. */
  ghost predicate Partition(m: map<string, ContentItem>, visited: seq<string>, remaining: set<string>)
  {
    && remaining <= m.Keys
    && (forall i :: 0 <= i < |visited| ==> visited[i] in m && visited[i] !in remaining)
    && (forall k :: k in m && k !in remaining ==> k in visited)
    && (forall i, j :: 0 <= i < j < |visited| ==> visited[i] != visited[j])
    && |remaining| + |visited| == |m|
  }

  /** The visited keys are in non-increasing `lastUpdated` order and no remaining
    * key is newer than the last one visited. */
  ghost predicate NewestFirst(m: map<string, ContentItem>, visited: seq<string>, remaining: set<string>)
    requires Partition(m, visited, remaining)
  {
    && (forall i, j :: 0 <= i < j < |visited| ==> m[visited[i]].lastUpdated >= m[visited[j]].lastUpdated)
    && (|visited| > 0 ==> forall k :: k in remaining ==> m[k].lastUpdated <= m[visited[|visited| - 1]].lastUpdated)
  }

  /** The state of the newest-first cursor scan. */
  ghost predicate ScanState(m: map<string, ContentItem>, visited: seq<string>, remaining: set<string>)
  {
    Partition(m, visited, remaining) && NewestFirst(m, visited, remaining)
  }

  lemma PartitionStep(m: map<string, ContentItem>, visited: seq<string>, remaining: set<string>, k: string)
    requires Partition(m, visited, remaining) && k in remaining
    ensures Partition(m, visited + [k], remaining - {k})
  {
    var next := visited + [k];
    assert forall i :: 0 <= i < |visited| ==> next[i] == visited[i];
    assert |remaining - {k}| == |remaining| - 1;
  }

  lemma NewestFirstStep(m: map<string, ContentItem>, visited: seq<string>, remaining: set<string>, k: string)
    requires Partition(m, visited, remaining) && NewestFirst(m, visited, remaining)
    requires k in remaining && forall j :: j in remaining ==> m[j].lastUpdated <= m[k].lastUpdated
    requires Partition(m, visited + [k], remaining - {k})
    ensures NewestFirst(m, visited + [k], remaining - {k})
  {
    var next := visited + [k];
    assert forall i :: 0 <= i < |visited| ==> next[i] == visited[i];
  }

  /** Visiting the newest remaining key keeps the scan state. */
  lemma ScanStep(m: map<string, ContentItem>, visited: seq<string>, remaining: set<string>, k: string)
    requires ScanState(m, visited, remaining)
    requires k in remaining && forall j :: j in remaining ==> m[j].lastUpdated <= m[k].lastUpdated
    ensures ScanState(m, visited + [k], remaining - {k})
  {
    PartitionStep(m, visited, remaining, k);
    NewestFirstStep(m, visited, remaining, k);
  }

  /** The `limit` of `getRecentItems` when the caller gives none. */
  const DefaultRecentLimit: int := 50

  class ItemStore {
    var items: map<string, ContentItem>

    /** Every record sits under its own id. */
    ghost predicate Keyed()
      reads this
    {
      KeyedBy(items)
    }

    /** Every record sits under its own id and carries the score of its own actions. */
    ghost predicate Valid()
      reads this
    {
      Keyed() && forall k | k in items :: WellScored(items[k])
    }

    constructor ()
      ensures Valid() && items == map[]
    {
      items := map[];
    }

    /** `getItem`. */
    method GetItem(id: string) returns (found: Option<ContentItem>)
      requires Valid()
      ensures found.Some? <==> id in items
      ensures found.Some? ==> found.value == items[id] && found.value.id == id
    {
      found := if id in items then Some(items[id]) else None;
    }

    /** `deleteItem`. */
    method DeleteItem(id: string)
      requires Valid()
      modifies this
      ensures Valid()
      ensures items == old(items) - {id}
    {
      items := items - {id};
    }

    /** `clearAllItems`. */
    method ClearAllItems()
      modifies this
      ensures Valid() && items == map[]
    {
      items := map[];
    }

    /** `mergeAndSaveItem`: read the stored record, resolve the incoming one
      * against it field by field, and put it back under the same id. */
    method MergeAndSaveItem(newItem: ContentItem, now: int) returns (outcome: Outcome<SaveError>)
      requires Valid()
      modifies this
      ensures Valid()
      ensures newItem.id in old(items) ==>
                outcome == Pass && items == old(items)[newItem.id := MergeInto(old(items)[newItem.id], newItem, now)]
      ensures newItem.id !in old(items) && newItem.actions.Some? ==>
                outcome == Pass && items == old(items)[newItem.id := CreateNew(newItem, now)]
      ensures newItem.id !in old(items) && newItem.actions.None? ==>
                outcome == Fail(MissingActions) && items == old(items)
    {
      if newItem.id in items {
        var item := MergeWithStored(items[newItem.id], newItem, now);
        items := items[newItem.id := item];
        outcome := Pass;
      } else if newItem.actions.None? {
        outcome := Fail(MissingActions);
      } else {
        var item := StampNew(newItem, now);
        items := items[newItem.id := item];
        outcome := Pass;
      }
    }

    /** `deleteItemsBefore`: a cursor over the `lastUpdated` index up to
      * `timestamp` inclusive, deleting each record it visits. */
    method DeleteItemsBefore(timestamp: int)
      requires Valid()
      modifies this
      ensures Valid()
      ensures items == map k | k in old(items) && old(items)[k].lastUpdated > timestamp :: old(items)[k]
    {
      var doomed := set k | k in items && items[k].lastUpdated <= timestamp;
      while doomed != {}
        invariant forall k :: k in doomed ==> k in old(items) && old(items)[k].lastUpdated <= timestamp
        invariant items == map k | k in old(items) && (k in doomed || old(items)[k].lastUpdated > timestamp) :: old(items)[k]
        invariant Valid()
        decreases doomed
      {
        var k :| k in doomed;
        items := items - {k};
        doomed := doomed - {k};
      }
    }

    /** `getRecentItems`: a cursor over the `lastUpdated` index from the newest
      * end, collecting records until `limit` of them are taken. */
    method GetRecentItems(limit: int) returns (recent: seq<ContentItem>)
      requires Keyed()
      ensures |recent| == if limit <= 0 then 0 else if limit < |items| then limit else |items|
      ensures forall i :: 0 <= i < |recent| ==> recent[i].id in items && items[recent[i].id] == recent[i]
      ensures forall i, j :: 0 <= i < j < |recent| ==> recent[i].id != recent[j].id
      ensures forall i, j :: 0 <= i < j < |recent| ==> recent[i].lastUpdated >= recent[j].lastUpdated
      ensures forall k, i :: k in items && items[k] !in recent && 0 <= i < |recent| ==>
                items[k].lastUpdated <= recent[i].lastUpdated
    {
      recent := [];
      ghost var visited: seq<string> := [];
      var remaining := items.Keys;
      while |recent| < limit && remaining != {}
        invariant ScanState(items, visited, remaining)
        invariant |recent| == |visited| && forall i :: 0 <= i < |visited| ==> recent[i] == items[visited[i]]
        invariant |recent| <= if limit <= 0 then 0 else limit
        decreases remaining
      {
        LatestExists(items, remaining);
        var k :| k in remaining && forall j :: j in remaining ==> items[j].lastUpdated <= items[k].lastUpdated;
        ScanStep(items, visited, remaining, k);
        recent := recent + [items[k]];
        visited := visited + [k];
        remaining := remaining - {k};
      }
      forall k, i | k in items && items[k] !in recent && 0 <= i < |recent|
        ensures items[k].lastUpdated <= recent[i].lastUpdated
      {
        forall j | 0 <= j < |visited|
          ensures visited[j] != k
        {
          assert recent[j] in recent;
        }
      }
    }
  }
}
