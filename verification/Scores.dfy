/** services/grading_service.py, aggregate_score: the weighted average of (weight, awarded, max) triples. */
module Scores {
  import opened Common

  datatype Item = Item(weight: real, awarded: real, max: real)

  datatype Aggregate = Aggregate(score: real, passed: bool, weightTotal: real)

  function WeightOf(items: seq<Item>): real {
    if items == [] then 0.0 else WeightOf(items[..|items| - 1]) + items[|items| - 1].weight
  }

  function Share(item: Item): real {
    if item.max == 0.0 then 0.0 else item.weight * (item.awarded / item.max)
  }

  function Weighted(items: seq<Item>): real {
    if items == [] then 0.0 else Weighted(items[..|items| - 1]) + Share(items[|items| - 1])
  }

  function Clamp(score: real): real {
    if score < 0.0 then 0.0 else if score > 1.0 then 1.0 else score
  }

  function ScoreOf(items: seq<Item>): real {
    if WeightOf(items) == 0.0 then 0.0 else Clamp(Weighted(items) / WeightOf(items))
  }

  function AggregateOf(items: seq<Item>, threshold: real): Aggregate {
    if WeightOf(items) == 0.0 then Aggregate(0.0, false, 0.0)
    else Aggregate(ScoreOf(items), ScoreOf(items) >= threshold, WeightOf(items))
  }

  method AggregateScore(items: seq<Item>, threshold: real) returns (result: Aggregate)
    ensures result == AggregateOf(items, threshold)
  {
    var total := 0.0;
    for i := 0 to |items|
      invariant total == WeightOf(items[..i])
    {
      assert items[..i + 1][..i] == items[..i];
      total := total + items[i].weight;
    }
    assert items[..|items|] == items;
    if total == 0.0 {
      return Aggregate(0.0, false, 0.0);
    }
    var weighted := 0.0;
    for i := 0 to |items|
      invariant weighted == Weighted(items[..i])
    {
      assert items[..i + 1][..i] == items[..i];
      if items[i].max == 0.0 {
        continue;
      }
      var ratio := items[i].awarded / items[i].max;
      weighted := weighted + items[i].weight * ratio;
    }
    var score := weighted / total;
    if score < 0.0 {
      score := 0.0;
    } else if score > 1.0 {
      score := 1.0;
    }
    return Aggregate(score, score >= threshold, total);
  }

  ghost predicate NonNegativeWeights(items: seq<Item>) {
    forall i :: 0 <= i < |items| ==> items[i].weight >= 0.0
  }

  ghost predicate InBounds(items: seq<Item>) {
    forall i :: 0 <= i < |items| ==> 0.0 <= items[i].awarded <= items[i].max
  }

  /** The unclamped value. */
  ghost function Raw(items: seq<Item>): real
    requires WeightOf(items) != 0.0
  {
    Weighted(items) / WeightOf(items)
  }

  lemma ShareIsPart(item: Item)
    requires item.weight >= 0.0 && 0.0 <= item.awarded <= item.max
    ensures 0.0 <= Share(item) <= item.weight
  {
    if item.max != 0.0 {
      QuotientGrows(0.0, item.awarded, item.max);
      QuotientGrows(item.awarded, item.max, item.max);
      ProductGrows(item.weight, 0.0, item.awarded / item.max);
      ProductGrows(item.weight, item.awarded / item.max, 1.0);
    }
  }

  lemma ProductGrows(w: real, x: real, y: real)
    requires w >= 0.0 && x <= y
    ensures w * x <= w * y
  {
    assert w * (y - x) >= 0.0;
  }

  lemma QuotientGrows(x: real, y: real, d: real)
    requires d > 0.0 && x <= y
    ensures x / d <= y / d && d / d == 1.0
  {
    NonNegativeFactor(y / d - x / d, d);
  }

  lemma NonNegativeFactor(q: real, d: real)
    requires d > 0.0 && q * d >= 0.0
    ensures q >= 0.0
  {
  }

  lemma {:induction false} WeightedIsPart(items: seq<Item>)
    requires NonNegativeWeights(items) && InBounds(items)
    ensures 0.0 <= Weighted(items) <= WeightOf(items)
  {
    if items != [] {
      WeightedIsPart(items[..|items| - 1]);
      ShareIsPart(items[|items| - 1]);
    }
  }

  /** With non-negative weights and awards within their maximum the clamp never acts, and the score is in [0, 1]. */
  lemma ClampIdle(items: seq<Item>)
    requires NonNegativeWeights(items) && InBounds(items)
    ensures 0.0 <= ScoreOf(items) <= 1.0
    ensures WeightOf(items) != 0.0 ==> ScoreOf(items) == Raw(items)
  {
    WeightedIsPart(items);
    if WeightOf(items) != 0.0 {
      QuotientGrows(0.0, Weighted(items), WeightOf(items));
      QuotientGrows(Weighted(items), WeightOf(items), WeightOf(items));
    }
  }

  /** The awards of `items` replaced, weights and maxima kept. */
  ghost predicate SameQuestions(items: seq<Item>, others: seq<Item>) {
    && |items| == |others|
    && forall i :: 0 <= i < |items| ==> items[i].weight == others[i].weight && items[i].max == others[i].max
  }

  function OnlyAt(items: seq<Item>, k: nat): (r: seq<Item>)
    requires k < |items|
    ensures |r| == |items| && forall i :: 0 <= i < |items| ==> r[i] == items[i].(awarded := if i == k then items[i].max else 0.0)
  {
    seq(|items|, i requires 0 <= i < |items| => items[i].(awarded := if i == k then items[i].max else 0.0))
  }

  lemma {:induction false} OnlyAtEarnsItsWeight(items: seq<Item>, k: nat)
    requires k < |items| && items[k].max > 0.0
    ensures Weighted(OnlyAt(items, k)) == items[k].weight
  {
    var n := |items| - 1;
    var only := OnlyAt(items, k);
    if k < n {
      OnlyAtEarnsItsWeight(items[..n], k);
      assert only[..n] == OnlyAt(items[..n], k);
      NoAwardNoShare(only[n]);
    } else {
      NoAwardsNoShare(only[..n]);
      assert items[k].max / items[k].max == 1.0;
    }
  }

  lemma {:induction false} NoAwardsNoShare(items: seq<Item>)
    requires forall i :: 0 <= i < |items| ==> items[i].awarded == 0.0
    ensures Weighted(items) == 0.0
  {
    if items != [] {
      NoAwardsNoShare(items[..|items| - 1]);
      NoAwardNoShare(items[|items| - 1]);
    }
  }

  lemma NoAwardNoShare(item: Item)
    requires item.awarded == 0.0
    ensures Share(item) == 0.0
  {
    if item.max != 0.0 {
      assert item.awarded / item.max == 0.0;
    }
  }

  /** The schema puts no bound on weights. For a positive total the clamp is idle for every possible grading if and only if no
      weight is negative. */
  lemma ClampIdleIffWeightsNonNegative(items: seq<Item>)
    requires WeightOf(items) > 0.0 && forall i :: 0 <= i < |items| ==> items[i].max > 0.0
    ensures NonNegativeWeights(items) <==>
            forall graded: seq<Item> :: SameQuestions(items, graded) && InBounds(graded) && WeightOf(graded) != 0.0 ==>
              ScoreOf(graded) == Raw(graded)
  {
    if NonNegativeWeights(items) {
      forall graded: seq<Item> | SameQuestions(items, graded) && InBounds(graded) && WeightOf(graded) != 0.0
        ensures ScoreOf(graded) == Raw(graded)
      {
        ClampIdle(graded);
      }
    } else {
      var k :| 0 <= k < |items| && items[k].weight < 0.0;
      NegativeWeightGoesBelowZero(items, k);
      assert ScoreOf(OnlyAt(items, k)) != Raw(OnlyAt(items, k));
    }
  }

  lemma NegativeWeightGoesBelowZero(items: seq<Item>, k: nat)
    requires WeightOf(items) > 0.0 && k < |items| && items[k].weight < 0.0 < items[k].max
    ensures SameQuestions(items, OnlyAt(items, k)) && WeightOf(OnlyAt(items, k)) == WeightOf(items)
    ensures Raw(OnlyAt(items, k)) < 0.0
  {
    SameWeights(items, OnlyAt(items, k));
    OnlyAtEarnsItsWeight(items, k);
    NegativeQuotient(items[k].weight, WeightOf(items));
  }

  lemma {:induction false} SameWeights(items: seq<Item>, others: seq<Item>)
    requires SameQuestions(items, others)
    ensures WeightOf(items) == WeightOf(others)
  {
    if items != [] {
      SameWeights(items[..|items| - 1], others[..|others| - 1]);
    }
  }

  // ----- monotone -----

  ghost predicate NoWorse(items: seq<Item>, better: seq<Item>) {
    && SameQuestions(items, better)
    && forall i :: 0 <= i < |items| ==> items[i].awarded <= better[i].awarded
  }

  lemma ShareGrows(item: Item, better: Item)
    requires item.weight == better.weight >= 0.0 && item.max == better.max >= 0.0 && item.awarded <= better.awarded
    ensures Share(item) <= Share(better)
  {
    if item.max != 0.0 {
      QuotientGrows(item.awarded, better.awarded, item.max);
      ProductGrows(item.weight, item.awarded / item.max, better.awarded / item.max);
    }
  }

  lemma {:induction false} WeightedGrows(items: seq<Item>, better: seq<Item>)
    requires NoWorse(items, better) && NonNegativeWeights(items) && forall i :: 0 <= i < |items| ==> items[i].max >= 0.0
    ensures Weighted(items) <= Weighted(better)
  {
    if items != [] {
      WeightedGrows(items[..|items| - 1], better[..|better| - 1]);
      ShareGrows(items[|items| - 1], better[|better| - 1]);
    }
  }

  lemma {:induction false} NonNegativeTotal(items: seq<Item>)
    requires NonNegativeWeights(items)
    ensures WeightOf(items) >= 0.0
    ensures forall i :: 0 <= i < |items| ==> items[i].weight <= WeightOf(items)
  {
    if items != [] {
      var front := items[..|items| - 1];
      NonNegativeTotal(front);
      forall i | 0 <= i < |items| ensures items[i].weight <= WeightOf(items) {
        if i < |front| {
          assert front[i] == items[i];
        }
      }
    }
  }

  /** The score grows with every awarded score. */
  lemma ScoreGrows(items: seq<Item>, better: seq<Item>)
    requires NoWorse(items, better) && NonNegativeWeights(items) && forall i :: 0 <= i < |items| ==> items[i].max >= 0.0
    ensures ScoreOf(items) <= ScoreOf(better)
  {
    SameWeights(items, better);
    WeightedGrows(items, better);
    NonNegativeTotal(items);
    if WeightOf(items) != 0.0 {
      QuotientGrows(Weighted(items), Weighted(better), WeightOf(items));
    }
  }

  /** Changing one award moves the score up or down with it, exactly when the question weighs something. */
  lemma OneAwardMovesScore(items: seq<Item>, k: nat, awarded: real)
    requires k < |items| && NonNegativeWeights(items) && InBounds(items) && 0.0 <= awarded <= items[k].max
    ensures var changed := items[k := items[k].(awarded := awarded)];
            ScoreOf(items) <= ScoreOf(changed) <==> items[k].awarded <= awarded || items[k].weight == 0.0
  {
    var changed := items[k := items[k].(awarded := awarded)];
    SameWeights(items, changed);
    OneAwardMovesShare(items, k, awarded);
    NonNegativeTotal(items);
    if items[k].awarded <= awarded {
      ScoreGrows(items, changed);
    } else if items[k].weight > 0.0 {
      ClampIdle(items);
      ClampIdle(changed);
      ShareDrops(items[k], changed[k]);
      QuotientDrops(Weighted(changed), Weighted(items), WeightOf(items));
    }
  }

  /** So it leaves the score alone exactly when it is the same award or the question weighs nothing. */
  lemma OneAwardKeepsScoreIff(items: seq<Item>, k: nat, awarded: real)
    requires k < |items| && NonNegativeWeights(items) && InBounds(items) && 0.0 <= awarded <= items[k].max
    ensures var changed := items[k := items[k].(awarded := awarded)];
            ScoreOf(changed) == ScoreOf(items) <==> items[k].awarded == awarded || items[k].weight == 0.0
  {
    var changed := items[k := items[k].(awarded := awarded)];
    OneAwardMovesScore(items, k, awarded);
    OneAwardMovesScore(changed, k, items[k].awarded);
    assert changed[k := changed[k].(awarded := items[k].awarded)] == items;
  }

  lemma QuotientsAgree(x: real, y: real, d: real)
    requires d > 0.0
    ensures x / d == y / d <==> x == y
  {
    if x < y {
      QuotientDrops(x, y, d);
    } else if y < x {
      QuotientDrops(y, x, d);
    }
  }

  /** Two gradings of the same questions have the same score exactly when their weighted sums agree. */
  lemma SameScoreIff(items: seq<Item>, others: seq<Item>)
    requires SameQuestions(items, others) && NonNegativeWeights(items) && InBounds(items) && InBounds(others)
    ensures ScoreOf(items) == ScoreOf(others) <==> Weighted(items) == Weighted(others)
  {
    SameWeights(items, others);
    ClampIdle(items);
    ClampIdle(others);
    NonNegativeTotal(items);
    if WeightOf(items) == 0.0 {
      WeightedIsPart(items);
      WeightedIsPart(others);
    } else {
      QuotientsAgree(Weighted(items), Weighted(others), WeightOf(items));
    }
  }

  /** What all items but one contribute. */
  function Elsewhere(items: seq<Item>, k: nat): real
    requires k < |items|
  {
    Weighted(items[..k] + items[k + 1..])
  }

  /** With the same award put at one place of both, two gradings have the same score exactly when the other items agree. */
  lemma SameElsewhereIff(items: seq<Item>, others: seq<Item>, k: nat, awarded: real)
    requires SameQuestions(items, others) && NonNegativeWeights(items) && InBounds(items) && InBounds(others)
    requires k < |items| && 0.0 <= awarded <= items[k].max
    ensures ScoreOf(items[k := items[k].(awarded := awarded)]) == ScoreOf(others[k := others[k].(awarded := awarded)]) <==>
            Elsewhere(items, k) == Elsewhere(others, k)
  {
    var changed, other := items[k := items[k].(awarded := awarded)], others[k := others[k].(awarded := awarded)];
    OneAwardMovesShare(items, k, awarded);
    OneAwardMovesShare(others, k, awarded);
    RemoveMiddle(items, k);
    RemoveMiddle(others, k);
    SameScoreIff(changed, other);
    assert changed[k] == other[k];
  }

  /** The items but one are worth the same after another award changed exactly when that change leaves the score alone. */
  lemma ElsewhereKeptIff(items: seq<Item>, j: nat, awarded: real, k: nat)
    requires j < |items| && k < |items| && j != k && NonNegativeWeights(items) && InBounds(items) && 0.0 <= awarded <= items[j].max
    ensures var changed := items[j := items[j].(awarded := awarded)];
            Elsewhere(changed, k) == Elsewhere(items, k) <==> items[j].awarded == awarded || items[j].weight == 0.0
  {
    var changed := items[j := items[j].(awarded := awarded)];
    OneAwardKeepsScoreIff(items, j, awarded);
    SameScoreIff(items, changed);
    RemoveMiddle(items, k);
    RemoveMiddle(changed, k);
  }

  lemma ElsewhereKept(items: seq<Item>, k: nat, item: Item)
    requires k < |items|
    ensures Elsewhere(items[k := item], k) == Elsewhere(items, k)
  {
    var changed := items[k := item];
    assert changed[..k] + changed[k + 1..] == items[..k] + items[k + 1..];
  }

  lemma OneAwardMovesShare(items: seq<Item>, k: nat, awarded: real)
    requires k < |items|
    ensures var changed := items[k := items[k].(awarded := awarded)];
            Weighted(changed) - Share(changed[k]) == Weighted(items) - Share(items[k])
  {
    var changed := items[k := items[k].(awarded := awarded)];
    RemoveMiddle(items, k);
    RemoveMiddle(changed, k);
    assert changed[..k] + changed[k + 1..] == items[..k] + items[k + 1..];
  }

  lemma ShareDrops(item: Item, worse: Item)
    requires item.weight == worse.weight > 0.0 && item.max == worse.max > 0.0 && worse.awarded < item.awarded
    ensures Share(worse) < Share(item)
  {
    QuotientDrops(worse.awarded, item.awarded, item.max);
    NegativeProduct(item.weight, worse.awarded / item.max - item.awarded / item.max);
  }

  lemma QuotientDrops(x: real, y: real, d: real)
    requires x < y && d > 0.0
    ensures x / d < y / d
  {
    NegativeQuotient(x - y, d);
    assert (x - y) / d == x / d - y / d;
  }

  lemma NegativeQuotient(x: real, d: real)
    requires x < 0.0 < d
    ensures x / d < 0.0
  {
    assert (x / d) * d == x;
  }

  lemma NegativeProduct(w: real, x: real)
    requires x < 0.0 < w
    ensures w * x < 0.0
  {
  }

  lemma UnitShare(item: Item)
    requires item.weight == 1.0 == item.max
    ensures Share(item) == item.awarded
  {
    assert item.awarded / 1.0 == item.awarded;
  }

  lemma TwoItems(first: Item, second: Item)
    requires first.weight == second.weight == 1.0 && first.max == second.max == 1.0
    requires 0.0 <= first.awarded <= 1.0 && 0.0 <= second.awarded <= 1.0
    ensures ScoreOf([first, second]) == (first.awarded + second.awarded) / 2.0 && WeightOf([first, second]) == 2.0
  {
    var items := [first, second];
    assert items[..1] == [first] && [first][..0] == [];
    UnitShare(first);
    UnitShare(second);
    assert Weighted([first]) == first.awarded && WeightOf([first]) == 1.0;
    assert Weighted(items) == first.awarded + second.awarded;
  }

  // ----- order -----

  lemma {:induction false} RemoveMiddle(items: seq<Item>, k: nat)
    requires k < |items|
    ensures Weighted(items) == Weighted(items[..k] + items[k + 1..]) + Share(items[k])
    ensures WeightOf(items) == WeightOf(items[..k] + items[k + 1..]) + items[k].weight
  {
    var n := |items| - 1;
    if k < n {
      RemoveMiddle(items[..n], k);
      assert items[..n][..k] == items[..k];
      assert (items[..k] + items[k + 1..])[..n - 1] == items[..k] + items[..n][k + 1..];
    } else {
      assert items[..k] + items[k + 1..] == items[..n];
    }
  }

  /** Where the last item stands in another order, and what is left without it. */
  lemma PlaceOfLast(items: seq<Item>, other: seq<Item>) returns (k: nat)
    requires multiset(items) == multiset(other) && items != []
    ensures k < |other| && other[k] == items[|items| - 1]
    ensures multiset(items[..|items| - 1]) == multiset(other[..k] + other[k + 1..])
  {
    var n := |items| - 1;
    assert items[n] in multiset(items);
    k :| 0 <= k < |other| && other[k] == items[n];
    TakeOut(items, n);
    TakeOut(other, k);
    assert items[..n] + items[n + 1..] == items[..n];
  }

  lemma {:induction false} SumsIgnoreOrder(items: seq<Item>, other: seq<Item>)
    requires multiset(items) == multiset(other)
    ensures Weighted(items) == Weighted(other) && WeightOf(items) == WeightOf(other)
    decreases |items|
  {
    if items == [] {
      assert |multiset(other)| == 0;
    } else {
      var n := |items| - 1;
      var k := PlaceOfLast(items, other);
      SumsIgnoreOrder(items[..n], other[..k] + other[k + 1..]);
      RemoveMiddle(other, k);
    }
  }

  /** The order of the items does not matter. */
  lemma OrderIsIrrelevant(items: seq<Item>, other: seq<Item>, threshold: real)
    requires multiset(items) == multiset(other)
    ensures AggregateOf(items, threshold) == AggregateOf(other, threshold)
  {
    SumsIgnoreOrder(items, other);
  }

  // ----- what one question is worth -----

  lemma {:induction false} NothingAwarded(items: seq<Item>)
    requires forall i :: 0 <= i < |items| ==> items[i].awarded == 0.0
    ensures Weighted(items) == 0.0
  {
    if items != [] {
      NothingAwarded(items[..|items| - 1]);
      NoShare(items[|items| - 1]);
    }
  }

  lemma NoShare(item: Item)
    requires item.awarded == 0.0
    ensures Share(item) == 0.0
  {
  }

  lemma {:induction false} OnlyAward(items: seq<Item>, k: nat)
    requires k < |items| && forall i :: 0 <= i < |items| && i != k ==> items[i].awarded == 0.0
    ensures Weighted(items) == Share(items[k])
  {
    var front, last := items[..|items| - 1], items[|items| - 1];
    if k == |items| - 1 {
      NothingAwarded(front);
    } else {
      OnlyAward(front, k);
      NoShare(last);
    }
  }

  /** One question answered in full and the others not at all: the score is its part of the total weight. */
  lemma OneQuestionIsWorth(items: seq<Item>, k: nat)
    requires NonNegativeWeights(items) && InBounds(items) && WeightOf(items) > 0.0
    requires k < |items| && items[k].awarded == items[k].max > 0.0 && forall i :: 0 <= i < |items| && i != k ==> items[i].awarded == 0.0
    ensures ScoreOf(items) == items[k].weight / WeightOf(items)
  {
    OnlyAward(items, k);
    FullShare(items[k]);
    ClampIdle(items);
  }

  lemma FullShare(item: Item)
    requires item.awarded == item.max > 0.0
    ensures Share(item) == item.weight
  {
    assert item.awarded / item.max == 1.0;
  }

  /** The verdict and the total that go with a score: passed from the threshold on, never without weight. */
  lemma VerdictOf(items: seq<Item>, threshold: real)
    ensures var agg := AggregateOf(items, threshold);
            && agg.score == ScoreOf(items) && agg.weightTotal == WeightOf(items)
            && (agg.passed <==> WeightOf(items) != 0.0 && agg.score >= threshold)
  {
  }
}
