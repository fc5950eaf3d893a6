/** The resonance weight of a record and the weighted draw of time-capsule
  * records (`src/dashboard/utils/algorithm.ts`). Weights are real numbers, the
  * exponential and the random draws are parameters. */
module Resonance {
  import opened Wrappers
  import opened Types

  /** `ENERGY_WEIGHTS`; a type missing from the table weighs 0. */
  function EnergyPoints(t: ActionType): (points: int)
    ensures points >= 0
  {
    match t
    case Copy => 5
    case Share => 15
    case Triple => 15
    case Coin => 5
    case Favorite => 8
    case Star => 8
    case Comment => 8
    case Danmaku => 8
    case OpenComment => 4
    case Upvote => 5
    case Like => 3
    case Read30s => 5
    case Play90 => 8
    case Play50 => 3
    case _ => 0
  }

  /** The energy term of a manual rating: `(m - 5) * 5` when the rating is truthy. */
  function ManualEnergy(manualScore: Option<int>): int
  {
    if Truthy(manualScore) then (manualScore.value - 5) * 5 else 0
  }

  /** Base energy 1, plus the manual term, plus one table entry per distinct action type. */
  function Energy(item: ContentItem): int
    requires item.actions.Some?
  {
    1 + ManualEnergy(item.metadata.manualScore) + TableSum(EnergyPoints, TypeSet(ActionsOf(item)))
  }

  /** One day in milliseconds. */
  const DayMs: int := 24 * 60 * 60 * 1000

  /** The decay constant `K = day / max(1, energy)`. */
  function DecayConstant(energy: int): (k: real)
    ensures 0.0 < k <= DayMs as real
    ensures energy >= 1 ==> k * energy as real == DayMs as real
  {
    var effective := if energy < 1 then 1 else energy;
    DayMs as real / effective as real
  }

  /** The cooling factor: 1 for a record never shown, otherwise
    * `1 - exp(-gap / K)` for the time since it was last shown. */
  function Cooling(lastShownAt: Option<int>, now: int, energy: int, exp: real -> real): (c: real)
    ensures !Truthy(lastShownAt) ==> c == 1.0
  {
    if Truthy(lastShownAt) then
      var gap := now - lastShownAt.value;
      1.0 - exp(-(gap as real) / DecayConstant(energy))
    else 1.0
  }

  /** `max(0.1, 1 + (show - click * 3))` with missing counters read as 0. */
  function ImmunityDenominator(showCount: Option<int>, clickCount: Option<int>): (d: real)
    ensures d >= 0.1
    ensures d >= (1 + OrZero(showCount) - 3 * OrZero(clickCount)) as real
    ensures d == 0.1 || d == (1 + OrZero(showCount) - 3 * OrZero(clickCount)) as real
  {
    var raw := (1 + (OrZero(showCount) - OrZero(clickCount) * 3)) as real;
    if raw < 0.1 then 0.1 else raw
  }

  function Immunity(showCount: Option<int>, clickCount: Option<int>): (f: real)
    ensures 0.0 < f <= 10.0
  {
    var d := ImmunityDenominator(showCount, clickCount);
    ReciprocalBounds(d);
    1.0 / d
  }

  lemma ReciprocalBounds(d: real)
    requires d >= 0.1
    ensures 0.0 < 1.0 / d <= 10.0
  {
    assert (1.0 / d) * d == 1.0;
  }

  /** The weight is the product of energy, cooling and immunity. */
  function Combine(energy: int, cooling: real, immunity: real): real
  {
    energy as real * cooling * immunity
  }

  /** `calculateResonanceWeight` with `now` and `Math.exp` as parameters. */
  function ResonanceWeight(item: ContentItem, now: int, exp: real -> real): real
    requires item.actions.Some?
  {
    var energy := Energy(item);
    Combine(energy,
      Cooling(item.metadata.lastShownAt, now, energy, exp),
      Immunity(item.metadata.capsuleShowCount, item.metadata.capsuleClickCount))
  }

  /** The weight as the source computes it: the energy is accumulated over the set of
    * distinct types, adding each type's table entry when it is non-zero. */
  method CalculateResonanceWeight(item: ContentItem, now: int, exp: real -> real) returns (weight: real)
    requires item.actions.Some?
    ensures weight == ResonanceWeight(item, now, exp)
  {
    var energy := 1;
    if Truthy(item.metadata.manualScore) {
      energy := energy + (item.metadata.manualScore.value - 5) * 5;
    }
    var types := TypeSet(ActionsOf(item));
    var rest := types;
    ghost var counted: set<ActionType> := {};
    TableSumEmpty(EnergyPoints);
    while rest != {}
      invariant rest + counted == types && rest !! counted
      invariant energy == 1 + ManualEnergy(item.metadata.manualScore) + TableSum(EnergyPoints, counted)
      decreases rest
    {
      var t :| t in rest;
      TableSumInsert(EnergyPoints, counted, t);
      if EnergyPoints(t) != 0 {
        energy := energy + EnergyPoints(t);
      }
      counted := counted + {t};
      rest := rest - {t};
    }
    assert counted == types;
    assert energy == Energy(item);
    var cooling := Cooling(item.metadata.lastShownAt, now, energy, exp);
    var immunity := Immunity(item.metadata.capsuleShowCount, item.metadata.capsuleClickCount);
    weight := Combine(energy, cooling, immunity);
  }

  /** Recording another action of a type already present leaves the energy unchanged. */
  lemma EnergyIgnoresRepeats(item: ContentItem, a: UserAction)
    requires item.actions.Some? && a.actionType in TypeSet(ActionsOf(item))
    ensures Energy(item.(actions := Some(ActionsOf(item) + [a]))) == Energy(item)
  {
    TypeSetSnoc(ActionsOf(item), a);
    assert TypeSet(ActionsOf(item) + [a]) == TypeSet(ActionsOf(item));
  }

  /** An action of a type missing from the table adds no energy, even when new. */
  lemma UnweightedTypeAddsNothing(item: ContentItem, a: UserAction)
    requires item.actions.Some? && a.actionType in {View, Unvote, Unlike, ManualScore}
    ensures Energy(item.(actions := Some(ActionsOf(item) + [a]))) == Energy(item)
  {
    var before := TypeSet(ActionsOf(item));
    TypeSetSnoc(ActionsOf(item), a);
    if a.actionType !in before {
      TableSumInsert(EnergyPoints, before, a.actionType);
    } else {
      assert before + {a.actionType} == before;
    }
  }

  /** Without a manual rating the energy is at least the base of 1. */
  lemma EnergyAtLeastBase(item: ContentItem)
    requires item.actions.Some? && !Truthy(item.metadata.manualScore)
    ensures Energy(item) >= 1
  {
    TableSumNonNegative(EnergyPoints, TypeSet(ActionsOf(item)));
  }

  /** A manual rating of 1 pulls a record with few interactions below zero energy. */
  lemma LowRatingGivesNegativeEnergy(item: ContentItem)
    requires item.actions == Some([]) && item.metadata.manualScore == Some(1)
    ensures Energy(item) == -19
  {
    assert TypeSet([]) == {};
    TableSumEmpty(EnergyPoints);
  }

  /** Shown once and last shown in the past, with `exp` below 1 on non-positive
    * arguments, the cooling factor lies in [0, 1). */
  lemma CoolingBounds(lastShownAt: Option<int>, now: int, energy: int, exp: real -> real)
    requires Truthy(lastShownAt) && lastShownAt.value <= now
    requires forall x: real :: x <= 0.0 ==> 0.0 < exp(x) <= 1.0
    ensures 0.0 <= Cooling(lastShownAt, now, energy, exp) < 1.0
  {
    var k := DecayConstant(energy);
    var gap := now - lastShownAt.value;
    assert -(gap as real) / k <= 0.0;
  }

  /** With shows fixed, more clicks never lower immunity. */
  lemma ImmunityMonotoneInClicks(show: Option<int>, c1: Option<int>, c2: Option<int>)
    requires OrZero(c1) <= OrZero(c2)
    ensures Immunity(show, c1) <= Immunity(show, c2)
  {
    ReciprocalAntitone(ImmunityDenominator(show, c2), ImmunityDenominator(show, c1));
  }

  /** With clicks fixed, more shows never raise immunity. */
  lemma ImmunityAntitoneInShows(s1: Option<int>, s2: Option<int>, click: Option<int>)
    requires OrZero(s1) <= OrZero(s2)
    ensures Immunity(s2, click) <= Immunity(s1, click)
  {
    ReciprocalAntitone(ImmunityDenominator(s1, click), ImmunityDenominator(s2, click));
  }

  lemma ReciprocalAntitone(small: real, large: real)
    requires 0.0 < small <= large
    ensures 1.0 / large <= 1.0 / small
  {
    assert (1.0 / large) * large == 1.0;
    assert (1.0 / small) * small == 1.0;
  }

  /** Five shows and no click give immunity 1/6; two clicks drive the denominator
    * to its floor and the immunity to its maximum of 10. */
  lemma ClicksRestoreImmunity()
    ensures Immunity(Some(5), None) == 1.0 / 6.0
    ensures Immunity(Some(5), Some(2)) == 10.0
  {
  }

  /** A record paired with its weight. */
  datatype Weighted = Weighted(item: ContentItem, weight: real)

  /** `items.map(item => ({item, weight}))`. */
  function Weigh(items: seq<ContentItem>, now: int, exp: real -> real): (ws: seq<Weighted>)
    requires forall i :: 0 <= i < |items| ==> items[i].actions.Some?
    ensures |ws| == |items|
    ensures forall i :: 0 <= i < |ws| ==> ws[i].item == items[i]
  {
    if items == [] then []
    else [Weighted(items[0], ResonanceWeight(items[0], now, exp))] + Weigh(items[1..], now, exp)
  }

  /** The weighted records whose id has not been taken yet, in order. */
  function Candidates(ws: seq<Weighted>, taken: set<string>): (cs: seq<Weighted>)
    ensures forall c :: c in cs ==> c in ws && c.item.id !in taken
    ensures forall w :: w in ws && w.item.id !in taken ==> w in cs
  {
    if ws == [] then []
    else (if ws[0].item.id in taken then [] else [ws[0]]) + Candidates(ws[1..], taken)
  }

  /** `filter` keeps the order of the weighed list: the candidates of two consecutive
    * stretches are those of the first followed by those of the second. */
  lemma {:induction false} CandidatesConcat(a: seq<Weighted>, b: seq<Weighted>, taken: set<string>)
    ensures Candidates(a + b, taken) == Candidates(a, taken) + Candidates(b, taken)
    decreases |a|
  {
    if a == [] {
      assert a + b == b;
    } else {
      assert (a + b)[1..] == a[1..] + b;
      CandidatesConcat(a[1..], b, taken);
    }
  }

  /** Sum of the weights, accumulated from the front. */
  function TotalWeight(ws: seq<Weighted>): real
  {
    if ws == [] then 0.0 else TotalWeight(ws[..|ws| - 1]) + ws[|ws| - 1].weight
  }

  /** Sum of the weights from position `j` on. */
  function WeightFrom(ws: seq<Weighted>, j: nat): real
    requires j <= |ws|
    decreases |ws| - j
  {
    if j == |ws| then 0.0 else ws[j].weight + WeightFrom(ws, j + 1)
  }

  /** The hit search from position `j` with `rest` left of the draw point: the first
    * candidate at which subtracting its weight brings the point to 0 or below. */
  function HitFrom(cs: seq<Weighted>, rest: real, j: nat): (hit: Option<nat>)
    requires j <= |cs|
    ensures hit.Some? ==> j <= hit.value < |cs|
    decreases |cs| - j
  {
    if j == |cs| then None
    else if rest - cs[j].weight <= 0.0 then Some(j)
    else HitFrom(cs, rest - cs[j].weight, j + 1)
  }

  /** The record hit by a draw of `d` among the candidates, if any. */
  function Pick(cs: seq<Weighted>, d: real): (pick: Option<Weighted>)
    ensures pick.Some? ==> pick.value in cs
  {
    match HitFrom(cs, d * TotalWeight(cs), 0)
    case None => None
    case Some(j) => Some(cs[j])
  }

  /** The draws of rounds `round` to `count - 1`, given the ids already taken. */
  function Rounds(ws: seq<Weighted>, draw: nat -> real, round: nat, count: int, taken: set<string>): (picked: seq<ContentItem>)
    decreases count - round
  {
    if round >= count then []
    else
      var cs := Candidates(ws, taken);
      if cs == [] then []
      else
        var pick := Pick(cs, draw(round));
        if pick.None? then Rounds(ws, draw, round + 1, count, taken)
        else [pick.value.item] + Rounds(ws, draw, round + 1, count, taken + {pick.value.item.id})
  }

  /** `selectCapsuleItems`, with `draw(i)` the value of `Math.random()` in round `i`. */
  function SelectCapsule(items: seq<ContentItem>, count: int, now: int, exp: real -> real, draw: nat -> real): seq<ContentItem>
    requires |items| > count ==> forall i :: 0 <= i < |items| ==> items[i].actions.Some?
  {
    if |items| <= count then items else Rounds(Weigh(items, now, exp), draw, 0, count, {})
  }

  /** `candidates.forEach(wi => totalWeight += wi.weight)`. */
  method SumWeights(cs: seq<Weighted>) returns (total: real)
    ensures total == TotalWeight(cs)
  {
    total := 0.0;
    for c := 0 to |cs|
      invariant total == TotalWeight(cs[..c])
    {
      assert cs[..c + 1][..c] == cs[..c];
      total := total + cs[c].weight;
    }
    assert cs[..|cs|] == cs;
  }

  /** The walk down from the draw point: subtract each candidate's weight in turn
    * and stop at the first one that brings the point to 0 or below. */
  method FindHit(cs: seq<Weighted>, point: real) returns (hit: Option<nat>)
    ensures hit == HitFrom(cs, point, 0)
  {
    var random := point;
    var j := 0;
    while j < |cs|
      invariant j <= |cs|
      invariant HitFrom(cs, random, j) == HitFrom(cs, point, 0)
      decreases |cs| - j
    {
      random := random - cs[j].weight;
      if random <= 0.0 {
        return Some(j);
      }
      j := j + 1;
    }
    return None;
  }

  /** One round: the draw point is the random value times the total weight. */
  method DrawRound(cs: seq<Weighted>, d: real) returns (pick: Option<Weighted>)
    ensures pick == Pick(cs, d)
  {
    var total := SumWeights(cs);
    var point := d * total;
    assert point == d * TotalWeight(cs);
    var hit := FindHit(cs, point);
    if hit.Some? {
      pick := Some(cs[hit.value]);
    } else {
      pick := None;
    }
  }

  /** The draw as the source runs it: `count` rounds, each filtering the candidates,
    * summing their weights and walking them down from the draw point. */
  method SelectCapsuleItems(items: seq<ContentItem>, count: int, now: int, exp: real -> real, draw: nat -> real)
    returns (selected: seq<ContentItem>)
    requires |items| > count ==> forall i :: 0 <= i < |items| ==> items[i].actions.Some?
    ensures selected == SelectCapsule(items, count, now, exp, draw)
    ensures |items| <= count ==> selected == items
  {
    if |items| <= count {
      return items;
    }
    var ws := Weigh(items, now, exp);
    selected := DrawRounds(ws, count, draw);
  }

  /** The `count` rounds of `selectCapsuleItems` over the weighted records. */
  method DrawRounds(ws: seq<Weighted>, count: int, draw: nat -> real) returns (selected: seq<ContentItem>)
    ensures selected == Rounds(ws, draw, 0, count, {})
  {
    ghost var all := Rounds(ws, draw, 0, count, {});
    selected := [];
    var taken: set<string> := {};
    var i: nat := 0;
    while i < count
      invariant selected + Rounds(ws, draw, i, count, taken) == all
      decreases count - i
    {
      var cs := Candidates(ws, taken);
      if cs == [] {
        NoCandidatesEndsDraw(ws, draw, i, count, taken, selected);
        return;
      }
      var pick := DrawRound(cs, draw(i));
      RoundAdvance(ws, draw, i, count, taken, selected);
      if pick.Some? {
        selected := selected + [pick.value.item];
        taken := taken + {pick.value.item.id};
      }
      i := i + 1;
    }
    assert Rounds(ws, draw, i, count, taken) == [];
    assert selected == all;
  }

  /** A round without candidates ends the draw. */
  lemma NoCandidatesEndsDraw(ws: seq<Weighted>, draw: nat -> real, round: nat, count: int, taken: set<string>, selected: seq<ContentItem>)
    requires round < count && Candidates(ws, taken) == []
    ensures selected + Rounds(ws, draw, round, count, taken) == selected
  {
    assert Rounds(ws, draw, round, count, taken) == [];
  }

  /** A round with candidates moves its pick, if any, from the rounds still to come
    * to the records already selected. */
  lemma RoundAdvance(ws: seq<Weighted>, draw: nat -> real, round: nat, count: int, taken: set<string>, selected: seq<ContentItem>)
    requires round < count && Candidates(ws, taken) != []
    ensures var pick := Pick(Candidates(ws, taken), draw(round));
      && (pick.None? ==>
            selected + Rounds(ws, draw, round + 1, count, taken) == selected + Rounds(ws, draw, round, count, taken))
      && (pick.Some? ==>
            selected + [pick.value.item] + Rounds(ws, draw, round + 1, count, taken + {pick.value.item.id})
            == selected + Rounds(ws, draw, round, count, taken))
  {
    var pick := Pick(Candidates(ws, taken), draw(round));
    if pick.Some? {
      var rest := Rounds(ws, draw, round + 1, count, taken + {pick.value.item.id});
      assert Rounds(ws, draw, round, count, taken) == [pick.value.item] + rest;
      assert selected + [pick.value.item] + rest == selected + ([pick.value.item] + rest);
    }
  }

  /** Distinct ids, none of them in `taken`. */
  predicate FreshIds(picked: seq<ContentItem>, taken: set<string>)
  {
    && (forall i :: 0 <= i < |picked| ==> picked[i].id !in taken)
    && (forall i, j :: 0 <= i < j < |picked| ==> picked[i].id != picked[j].id)
  }

  /** The ids of the records drawn from round `round` on are distinct and none was taken before. */
  lemma {:induction false} RoundsFresh(ws: seq<Weighted>, draw: nat -> real, round: nat, count: int, taken: set<string>)
    ensures FreshIds(Rounds(ws, draw, round, count, taken), taken)
    decreases count - round
  {
    if round < count {
      var cs := Candidates(ws, taken);
      if cs != [] {
        var pick := Pick(cs, draw(round));
        if pick.None? {
          assert Rounds(ws, draw, round, count, taken) == Rounds(ws, draw, round + 1, count, taken);
          RoundsFresh(ws, draw, round + 1, count, taken);
        } else {
          var rest := Rounds(ws, draw, round + 1, count, taken + {pick.value.item.id});
          assert Rounds(ws, draw, round, count, taken) == [pick.value.item] + rest;
          RoundsFresh(ws, draw, round + 1, count, taken + {pick.value.item.id});
          FreshCons(pick.value.item, rest, taken);
        }
      }
    }
  }

  lemma FreshCons(x: ContentItem, rest: seq<ContentItem>, taken: set<string>)
    requires x.id !in taken && FreshIds(rest, taken + {x.id})
    ensures FreshIds([x] + rest, taken)
  {
    var picked := [x] + rest;
    forall i | 1 <= i < |picked| ensures picked[i] == rest[i - 1] && picked[i].id != x.id {
      assert rest[i - 1].id !in taken + {x.id};
    }
  }

  /** Every record drawn is one of the weighted records. */
  lemma {:induction false} RoundsFromInput(ws: seq<Weighted>, draw: nat -> real, round: nat, count: int, taken: set<string>)
    ensures forall r :: r in Rounds(ws, draw, round, count, taken) ==> exists w :: w in ws && w.item == r
    decreases count - round
  {
    if round < count {
      var cs := Candidates(ws, taken);
      if cs != [] {
        var pick := Pick(cs, draw(round));
        if pick.None? {
          RoundsFromInput(ws, draw, round + 1, count, taken);
        } else {
          RoundsFromInput(ws, draw, round + 1, count, taken + {pick.value.item.id});
        }
      }
    }
  }

  /** At most one record per round. */
  lemma {:induction false} RoundsAtMostOnePerRound(ws: seq<Weighted>, draw: nat -> real, round: nat, count: int, taken: set<string>)
    ensures |Rounds(ws, draw, round, count, taken)| <= if round >= count then 0 else count - round
    decreases count - round
  {
    if round < count {
      var cs := Candidates(ws, taken);
      if cs != [] {
        var pick := Pick(cs, draw(round));
        if pick.None? {
          RoundsAtMostOnePerRound(ws, draw, round + 1, count, taken);
        } else {
          RoundsAtMostOnePerRound(ws, draw, round + 1, count, taken + {pick.value.item.id});
        }
      }
    }
  }

  /** The draw keeps the promises of the selection: distinct ids, records from the
    * input, and no more than `count` of them. */
  lemma SelectionShape(items: seq<ContentItem>, count: int, now: int, exp: real -> real, draw: nat -> real)
    requires |items| > count
    requires forall i :: 0 <= i < |items| ==> items[i].actions.Some?
    ensures var selected := SelectCapsule(items, count, now, exp, draw);
      && (forall i, j :: 0 <= i < j < |selected| ==> selected[i].id != selected[j].id)
      && (forall r :: r in selected ==> r in items)
      && |selected| <= if count <= 0 then 0 else count
  {
    var ws := Weigh(items, now, exp);
    RoundsFresh(ws, draw, 0, count, {});
    assert FreshIds(Rounds(ws, draw, 0, count, {}), {});
    RoundsFromInput(ws, draw, 0, count, {});
    RoundsAtMostOnePerRound(ws, draw, 0, count, {});
    WeighedRecordsInInput(items, now, exp, Rounds(ws, draw, 0, count, {}));
  }

  lemma WeighedRecordsInInput(items: seq<ContentItem>, now: int, exp: real -> real, picked: seq<ContentItem>)
    requires forall i :: 0 <= i < |items| ==> items[i].actions.Some?
    requires forall r :: r in picked ==> exists w :: w in Weigh(items, now, exp) && w.item == r
    ensures forall r :: r in picked ==> r in items
  {
    var ws := Weigh(items, now, exp);
    forall r | r in picked ensures r in items {
      var w :| w in ws && w.item == r;
      var i :| 0 <= i < |ws| && ws[i] == w;
      assert items[i] == r;
    }
  }

  lemma {:induction false} TotalIsWeightFrom(ws: seq<Weighted>)
    ensures TotalWeight(ws) == WeightFrom(ws, 0)
    decreases |ws|
  {
    if ws != [] {
      TotalIsWeightFrom(ws[..|ws| - 1]);
      WeightFromSnoc(ws[..|ws| - 1], ws[|ws| - 1], 0);
      assert ws[..|ws| - 1] + [ws[|ws| - 1]] == ws;
    }
  }

  lemma {:induction false} WeightFromSnoc(ws: seq<Weighted>, w: Weighted, j: nat)
    requires j <= |ws|
    ensures WeightFrom(ws + [w], j) == WeightFrom(ws, j) + w.weight
    decreases |ws| - j
  {
    if j < |ws| {
      WeightFromSnoc(ws, w, j + 1);
      assert (ws + [w])[j] == ws[j];
    }
  }

  /** A point no larger than the weight still ahead is always hit. */
  lemma {:induction false} HitWithinWeight(cs: seq<Weighted>, rest: real, j: nat)
    requires j < |cs| && rest <= WeightFrom(cs, j)
    ensures HitFrom(cs, rest, j).Some?
    decreases |cs| - j
  {
    if rest - cs[j].weight > 0.0 {
      assert j + 1 < |cs|;
      HitWithinWeight(cs, rest - cs[j].weight, j + 1);
    }
  }

  predicate NonNegativeWeights(ws: seq<Weighted>)
  {
    forall i :: 0 <= i < |ws| ==> ws[i].weight >= 0.0
  }

  lemma {:induction false} TotalNonNegative(ws: seq<Weighted>)
    requires NonNegativeWeights(ws)
    ensures TotalWeight(ws) >= 0.0
    decreases |ws|
  {
    if ws != [] {
      TotalNonNegative(ws[..|ws| - 1]);
    }
  }

  /** With non-negative weights and a draw in [0, 1], every round with a candidate picks one. */
  lemma RoundHits(cs: seq<Weighted>, d: real)
    requires cs != [] && NonNegativeWeights(cs) && 0.0 <= d <= 1.0
    ensures Pick(cs, d).Some?
  {
    TotalNonNegative(cs);
    TotalIsWeightFrom(cs);
    assert (1.0 - d) * TotalWeight(cs) >= 0.0;
    HitWithinWeight(cs, d * TotalWeight(cs), 0);
  }

  /** The total weight of the candidates up to and including position `i`. */
  function RunningTotal(cs: seq<Weighted>, i: nat): real
    requires i < |cs|
  {
    TotalWeight(cs[..i + 1])
  }

  /** The walk in terms of running totals: the hit is the first candidate at which the total
    * weight so far reaches the draw point, and nothing is hit when no running total does. */
  lemma HitIsFirstReach(cs: seq<Weighted>, point: real)
    ensures var hit := HitFrom(cs, point, 0);
      && (hit.Some? ==> point <= RunningTotal(cs, hit.value)
                        && forall i :: 0 <= i < hit.value ==> point > RunningTotal(cs, i))
      && (hit.None? ==> forall i :: 0 <= i < |cs| ==> point > RunningTotal(cs, i))
  {
    assert cs[..0] == [];
    HitReach(cs, point, point, 0);
  }

  /** The search from `j`, with the weights of `cs[..j]` already subtracted and none of them reaching the point. */
  lemma {:induction false} HitReach(cs: seq<Weighted>, point: real, rest: real, j: nat)
    requires j <= |cs| && rest == point - TotalWeight(cs[..j])
    requires forall i :: 0 <= i < j ==> point > RunningTotal(cs, i)
    ensures var hit := HitFrom(cs, rest, j);
      && (hit.Some? ==> point <= RunningTotal(cs, hit.value)
                        && forall i :: 0 <= i < hit.value ==> point > RunningTotal(cs, i))
      && (hit.None? ==> forall i :: 0 <= i < |cs| ==> point > RunningTotal(cs, i))
    decreases |cs| - j
  {
    if j < |cs| {
      assert cs[..j + 1][..j] == cs[..j];
      assert RunningTotal(cs, j) == TotalWeight(cs[..j]) + cs[j].weight;
      if rest - cs[j].weight > 0.0 {
        HitReach(cs, point, rest - cs[j].weight, j + 1);
      }
    }
  }

  /** With a draw of 0 and non-negative weights the first remaining candidate is picked. */
  lemma ZeroDrawPicksFirst(cs: seq<Weighted>)
    requires cs != [] && NonNegativeWeights(cs)
    ensures Pick(cs, 0.0) == Some(cs[0])
  {
  }

  /** The ids not yet taken. */
  function OpenIds(ws: seq<Weighted>, taken: set<string>): set<string>
  {
    set w | w in ws && w.item.id !in taken :: w.item.id
  }

  /** The open ids are exactly the ids of the candidates. */
  lemma OpenIdsOfCandidates(ws: seq<Weighted>, taken: set<string>)
    ensures OpenIds(ws, taken) == set c | c in Candidates(ws, taken) :: c.item.id
  {
    var cs := Candidates(ws, taken);
    forall id | id in OpenIds(ws, taken) ensures id in set c | c in cs :: c.item.id {
      var w :| w in ws && w.item.id !in taken && w.item.id == id;
      assert w in cs;
    }
  }

  lemma CandidatesNonNegative(ws: seq<Weighted>, taken: set<string>)
    requires NonNegativeWeights(ws)
    ensures NonNegativeWeights(Candidates(ws, taken))
  {
    var cs := Candidates(ws, taken);
    forall i | 0 <= i < |cs| ensures cs[i].weight >= 0.0 {
      assert cs[i] in cs;
      var k :| 0 <= k < |ws| && ws[k] == cs[i];
    }
  }

  /** With non-negative weights and draws in [0, 1], the draw takes exactly as many
    * records as there are rounds left or open ids, whichever is fewer. */
  lemma {:induction false} RoundsCount(ws: seq<Weighted>, draw: nat -> real, round: nat, count: int, taken: set<string>)
    requires NonNegativeWeights(ws)
    requires forall i: nat :: 0.0 <= draw(i) <= 1.0
    ensures var left := if round >= count then 0 else count - round;
      var open := |OpenIds(ws, taken)|;
      |Rounds(ws, draw, round, count, taken)| == if left < open then left else open
    decreases count - round
  {
    var cs := Candidates(ws, taken);
    OpenIdsOfCandidates(ws, taken);
    if cs == [] {
      assert OpenIds(ws, taken) == {};
    } else if round < count {
      CandidatesNonNegative(ws, taken);
      RoundHits(cs, draw(round));
      var id := Pick(cs, draw(round)).value.item.id;
      assert OpenIds(ws, taken + {id}) == OpenIds(ws, taken) - {id};
      assert id in OpenIds(ws, taken);
      RoundsCount(ws, draw, round + 1, count, taken + {id});
    }
  }

  /** The records drawn when there are more than `count`: exactly `count` of them when the
    * weights are non-negative, the draws lie in [0, 1] and the ids number at least `count`. */
  lemma SelectionFillsCount(items: seq<ContentItem>, count: int, now: int, exp: real -> real, draw: nat -> real)
    requires |items| > count >= 0
    requires forall i :: 0 <= i < |items| ==> items[i].actions.Some?
    requires forall i :: 0 <= i < |items| ==> ResonanceWeight(items[i], now, exp) >= 0.0
    requires forall i: nat :: 0.0 <= draw(i) <= 1.0
    requires |set r | r in items :: r.id| >= count
    ensures |SelectCapsule(items, count, now, exp, draw)| == count
  {
    var ws := Weigh(items, now, exp);
    WeighNonNegative(items, now, exp);
    OpenIdsOfWeighed(items, now, exp);
    RoundsCount(ws, draw, 0, count, {});
  }

  lemma WeighNonNegative(items: seq<ContentItem>, now: int, exp: real -> real)
    requires forall i :: 0 <= i < |items| ==> items[i].actions.Some?
    requires forall i :: 0 <= i < |items| ==> ResonanceWeight(items[i], now, exp) >= 0.0
    ensures NonNegativeWeights(Weigh(items, now, exp))
  {
    var ws := Weigh(items, now, exp);
    forall i | 0 <= i < |ws| ensures ws[i].weight >= 0.0 {
      WeighAt(items, now, exp, i);
    }
  }

  /** Before the first round every id of the input is open. */
  lemma OpenIdsOfWeighed(items: seq<ContentItem>, now: int, exp: real -> real)
    requires forall i :: 0 <= i < |items| ==> items[i].actions.Some?
    ensures OpenIds(Weigh(items, now, exp), {}) == set r | r in items :: r.id
  {
    var ws := Weigh(items, now, exp);
    forall id | id in (set r | r in items :: r.id) ensures id in OpenIds(ws, {}) {
      var r :| r in items && r.id == id;
      var i :| 0 <= i < |items| && items[i] == r;
      assert ws[i] in ws;
    }
  }

  lemma {:induction false} WeighAt(items: seq<ContentItem>, now: int, exp: real -> real, i: nat)
    requires forall k :: 0 <= k < |items| ==> items[k].actions.Some?
    requires i < |items|
    ensures Weigh(items, now, exp)[i].weight == ResonanceWeight(items[i], now, exp)
    decreases i
  {
    if i > 0 {
      WeighAt(items[1..], now, exp, i - 1);
    }
  }

  /** A single candidate of negative weight is never hit: the round picks nothing
    * although a candidate remains. */
  lemma NegativeWeightSkipsRound(r: ContentItem)
    ensures Pick([Weighted(r, -1.0)], 0.5) == None
  {
    var cs := [Weighted(r, -1.0)];
    assert cs[..0] == [];
    assert TotalWeight(cs) == -1.0;
  }
}
